/** Share links: the builders of app/subscriptions/generator.py, the flags of
    app/subscriptions/flags.py, and the importer of app/edge/packs.py. */
module Links {
  import opened Text
  import opened Codecs

  // --------------------------------------------------------------------------- flags

  const INDICATOR_A: int := 0x1F1E6

  predicate IsIndicator(c: char) {
    INDICATOR_A <= c as int <= INDICATOR_A + 25
  }

  predicate IsLetter(c: char) {
    'a' <= c <= 'z'
  }

  function IndicatorOf(c: char): char {
    if IsLetter(c) then (INDICATOR_A + (c as int - 'a' as int)) as char else c
  }

  function LetterOf(c: char): (l: char)
    requires IsIndicator(c)
    ensures IsLetter(l) && IndicatorOf(l) == c
  {
    (c as int - INDICATOR_A + 'a' as int) as char
  }

  /** The letters of the first flag from here on, behind those already read. */
  function EmojiFrom(text: string, letters: string): string {
    if text == "" then letters
    else if IsIndicator(text[0]) then
      var more := letters + [LetterOf(text[0])];
      if |more| == 2 then more else EmojiFrom(text[1..], more)
    else if letters != "" then letters
    else EmojiFrom(text[1..], letters)
  }

  method EmojiCode(text: string) returns (letters: string)
    ensures letters == EmojiFrom(text, "")
  {
    letters := "";
    for i := 0 to |text|
      invariant EmojiFrom(text[i..], letters) == EmojiFrom(text, "")
      invariant |letters| < 2
    {
      assert text[i..][1..] == text[i + 1..];
      if IsIndicator(text[i]) {
        letters := letters + [LetterOf(text[i])];
        if |letters| == 2 {
          return;
        }
      } else if letters != "" {
        return;
      }
    }
  }

  /** The country of a free-form label. `names` looks up codes and names in the text
      of a label without a flag. */
  function Code(value: string, names: string -> string): string {
    var text := Lower(Strip(value));
    if text == "" then ""
    else
      var emoji := EmojiFrom(text, "");
      if emoji != "" then emoji else names(text)
  }

  function FlagOf(code: string): (f: string)
    ensures |f| == |code| && forall i | 0 <= i < |f| :: f[i] == IndicatorOf(code[i])
  {
    seq(|code|, i requires 0 <= i < |code| => IndicatorOf(code[i]))
  }

  // ------------------------------------------------------------------------- builders

  datatype Protocol = Vless | Trojan | Shadowsocks | Anytls | Tuic

  function Scheme(p: Protocol): string {
    match p
    case Vless => "vless"
    case Trojan => "trojan"
    case Shadowsocks => "ss"
    case Anytls => "anytls"
    case Tuic => "tuic"
  }

  datatype User = User(uuid: string, fingerprint: string)

  /** An empty value is not sent. */
  datatype Param = Param(key: string, value: string)

  /** What a link is made from besides the user: the address, the transport's own
      query, the Shadowsocks method, key and plugin, and the hosted protocols' name. */
  datatype Endpoint = Endpoint(host: string, port: nat, query: seq<Param>,
                               cipher: string, secret: string, plugin: string, sni: string)

  /** `flag name` of a node, or the name alone. */
  function NodeLabel(flag: string, name: string): string {
    if flag == "" then name else Strip(flag + " " + name)
  }

  function JoinDots(parts: seq<string>): string {
    if parts == [] then "" else if |parts| == 1 then parts[0] else parts[0] + " · " + JoinDots(parts[1..])
  }

  function LabelOf(prefix: string, node: string, tag: string): string {
    JoinDots((if prefix == "" then [] else [prefix]) + (if node == "" then [] else [node])
             + (if tag == "" then [] else [tag]))
  }

  function QuotePlusBytes(bs: seq<Byte>): string {
    if bs == [] then "" else (if bs[0] == 32 then "+" else QuoteByte(bs[0])) + QuotePlusBytes(bs[1..])
  }

  function QuotePlus(s: string): string {
    QuotePlusBytes(Encode(s))
  }

  function Params(query: seq<Param>): string {
    if query == [] then ""
    else
      var rest := Params(query[1..]);
      if query[0].value == "" then rest
      else
        QuotePlus(query[0].key) + "=" + QuotePlus(query[0].value) + (if rest == "" then "" else "&" + rest)
  }

  /** Base64 with the URL alphabet, without padding. */
  function UrlSafe(s: string): string {
    if s == "" then ""
    else
      (if s[0] == '+' then "-" else if s[0] == '/' then "_" else if s[0] == '=' then "" else [s[0]])
      + UrlSafe(s[1..])
  }

  function OrElse(s: string, default: string): string {
    if s == "" then default else s
  }

  function UserInfo(p: Protocol, user: User, e: Endpoint): string {
    match p
    case Vless => user.uuid
    case Trojan => Quote(user.uuid)
    case Shadowsocks => UrlSafe(Base64Encode(Encode(e.cipher + ":" + e.secret)))
    case Anytls => Quote(user.uuid)
    case Tuic => Quote(user.uuid) + ":" + Quote(user.uuid)
  }

  function Query(p: Protocol, user: User, e: Endpoint): seq<Param> {
    match p
    case Vless => e.query
    case Trojan => e.query
    case Shadowsocks => [Param("plugin", e.plugin)]
    case Anytls =>
      [Param("insecure", "1"), Param("sni", OrElse(e.sni, e.host)), Param("fp", OrElse(user.fingerprint, "chrome"))]
    case Tuic =>
      [Param("allow_insecure", "1"), Param("insecure", "1"), Param("sni", OrElse(e.sni, e.host)),
       Param("congestion_control", "bbr")]
  }

  /** What the query of a WebSocket transport is made from: the node's addresses, the
      transport's path, and the client options of the user. */
  datatype Socket = Socket(tls: bool, server: string, host: string, sni: string, path: string,
                           fragment: string, fingerprint: string, mask: string)

  function WsQuery(w: Socket): seq<Param> {
    [Param("encryption", "none"), Param("security", if w.tls then "tls" else "none"), Param("type", "ws"),
     Param("host", OrElse(w.host, w.server)), Param("path", w.path),
     Param("sni", OrElse(w.sni, OrElse(w.host, w.server))), Param("fragment", w.fragment),
     Param("fp", w.fingerprint), Param("tlsMask", w.mask)]
  }

  function Uri(scheme: string, userinfo: string, host: string, port: nat, query: string, fragment: string): string {
    scheme + "://" + userinfo + "@" + host + ":" + DecText(port) + "?" + query + "#" + fragment
  }

  function ShareLink(p: Protocol, user: User, e: Endpoint, title: string): string {
    Uri(Scheme(p), UserInfo(p, user, e), e.host, e.port, Params(Query(p, user, e)), Quote(title))
  }

  // ------------------------------------------------------------------------- importer

  function Before(s: string, c: char): string {
    s[..Find(s, c)]
  }

  function After(s: string, c: char): string {
    if Find(s, c) < |s| then s[Find(s, c) + 1..] else ""
  }

  /** What follows the last `c`, or everything. */
  function AfterLast(s: string, c: char): string {
    if Find(s, c) == |s| then s else AfterLast(After(s, c), c)
  }

  function DropLeading(s: string, c: char): string {
    if s != "" && s[0] == c then DropLeading(s[1..], c) else s
  }

  predicate Alphanumeric(c: char) {
    IsDigit(c) || 'a' <= c <= 'z' || 'A' <= c <= 'Z'
  }

  /** The length of the scheme, when the text has the shape of a link. */
  function SchemeLength(text: string): (n: Option<nat>)
    ensures n.Some? ==> n.value + 3 < |text|
  {
    var n := Find(text, ':');
    if 2 <= n <= 12 && n + 3 < |text| && text[n + 1] == '/' && text[n + 2] == '/'
       && (forall i | 0 <= i < n :: Alphanumeric(text[i])) && (forall i | n + 3 <= i < |text| :: text[i] != '\n')
    then Some(n) else None
  }

  /** Python's `int` on ASCII text. */
  function ParseInt(s: string): Option<int> {
    var t := Strip(s);
    var u := Unsigned(t);
    var d := WithoutUnderscores(u);
    if d != "" && AllDigits(d) && UnderscoresBetweenDigits(u) then
      Some(if t[0] == '-' then 0 - DecValue(d) else DecValue(d))
    else None
  }

  function PortOf(text: string): int {
    if text == "" then 443
    else match ParseInt(text)
      case Some(n) => n
      case None => 443
  }

  datatype Link = Link(scheme: string, host: string, port: int, title: string, flag: string, location: string)

  /** The host and port texts of an authority without user information. */
  function HostAndPort(authority: string): (string, string) {
    if authority != "" && authority[0] == '[' then
      (DropLeading(Before(authority, ']'), '['), DropLeading(After(authority, ']'), ':'))
    else
      (Before(authority, ':'), After(authority, ':'))
  }

  /** One subscription entry. `vmess` links are not read here. */
  function ParseLink(line: string, names: string -> string): Option<Link> {
    var text := Strip(line);
    var n :- SchemeLength(text);
    var scheme := Lower(text[..n]);
    var title := Strip(Unquote(After(text, '#')));
    var authority := Before(AfterLast(Before(Before(text[n + 3..], '#'), '?'), '@'), '/');
    var (rawHost, rawPort) := HostAndPort(authority);
    var host := Lower(Strip(rawHost));
    if scheme == "vmess" || host == "" || Find(host, '.') == |host| then None
    else
      var code := Code(title, names);
      Some(Link(scheme, host, PortOf(rawPort), title, FlagOf(code), code))
  }

  // ------------------------------------------------------------------ subscriptions

  predicate IsLineEnd(c: char) {
    || '\n' <= c <= '\r' || '\U{1C}' <= c <= '\U{1E}' || c == '\U{85}' || c == '\U{2028}' || c == '\U{2029}'
  }

  function LineLength(s: string): (n: nat)
    ensures n <= |s| && (n < |s| ==> IsLineEnd(s[n]))
    ensures forall i | 0 <= i < n :: !IsLineEnd(s[i])
  {
    if s == "" || IsLineEnd(s[0]) then 0 else 1 + LineLength(s[1..])
  }

  /** Python's `splitlines`. */
  function SplitLines(s: string): seq<string> {
    if s == "" then []
    else
      var n := LineLength(s);
      if n == |s| then [s]
      else if s[n] == '\r' && n + 1 < |s| && s[n + 1] == '\n' then [s[..n]] + SplitLines(s[n + 2..])
      else [s[..n]] + SplitLines(s[n + 1..])
  }

  predicate LooksLikeLink(s: string) {
    exists i | 0 <= i < |s| - 2 :: MarkAt(s, i)
  }

  predicate MarkAt(s: string, i: nat)
    requires i + 2 < |s|
  {
    s[i] == ':' && s[i + 1] == '/' && s[i + 2] == '/'
  }

  function LinkLines(lines: seq<string>): seq<string> {
    if lines == [] then []
    else
      (if Strip(lines[0]) != "" && LooksLikeLink(lines[0]) then [Strip(lines[0])] else []) + LinkLines(lines[1..])
  }

  predicate IsHtml(raw: string) {
    "<!doctype" <= Lower(raw) || "<html" <= Lower(raw)
  }

  function StandardAlphabet(s: string): string {
    if s == "" then ""
    else [if s[0] == '-' then '+' else if s[0] == '_' then '/' else s[0]] + StandardAlphabet(s[1..])
  }

  function Padding(n: nat): string {
    seq((4 - n % 4) % 4, _ => '=')
  }

  /** The lines of a subscription body, plain or base64; non-ASCII base64 is refused. */
  function DecodeSubscription(text: string): seq<string> {
    var raw := Strip(text);
    if raw == "" || IsHtml(raw) then []
    else if LooksLikeLink(raw) then LinkLines(SplitLines(raw))
    else
      var s := StandardAlphabet(raw);
      var padded := s + Padding(|s|);
      if !Ascii(padded) then []
      else match Base64Decode(padded)
        case None => []
        case Some(bs) => LinkLines(SplitLines(Decode(bs)))
  }

  function Key(l: Link): string {
    l.host + ":" + IntText(l.port)
  }

  predicate Seen(links: seq<Link>, key: string) {
    exists i | 0 <= i < |links| :: Key(links[i]) == key
  }

  /** The parsable entries in order, the first of each host and port. */
  function EntriesFrom(found: seq<Link>, lines: seq<string>, names: string -> string): seq<Link>
    decreases |lines|
  {
    if lines == [] then found
    else
      var p := ParseLink(lines[0], names);
      EntriesFrom(if p.None? || Seen(found, Key(p.value)) then found else found + [p.value], lines[1..], names)
  }

  method Entries(text: string, names: string -> string) returns (links: seq<Link>)
    ensures links == EntriesFrom([], DecodeSubscription(text), names)
  {
    hide DecodeSubscription, ParseLink, Key;
    var lines := DecodeSubscription(text);
    var seen: set<string> := {};
    links := [];
    for k := 0 to |lines|
      invariant EntriesFrom(links, lines[k..], names) == EntriesFrom([], lines, names)
      invariant forall key :: key in seen <==> Seen(links, key)
    {
      assert lines[k..][1..] == lines[k + 1..];
      var p := ParseLink(lines[k], names);
      if p.None? || Key(p.value) in seen {
        continue;
      }
      seen := seen + {Key(p.value)};
      ghost var before := links;
      links := links + [p.value];
      forall key
        ensures Seen(links, key) <==> Seen(before, key) || key == Key(p.value)
      {
        assert forall i | 0 <= i < |before| :: links[i] == before[i];
        assert links[|before|] == p.value;
      }
    }
  }
}
