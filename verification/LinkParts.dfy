/** What a client reads from a printed link: the credential, every query parameter, and
    for Shadowsocks the method and key. The reader follows RFC 3986 for the parts, the
    form encoding of the URL standard for the query, and SIP002 for Shadowsocks. */
module LinkParts {
  import opened Text
  import opened Codecs
  import opened Links
  import opened LinkRoundTrip

  // ---------------------------------------------------------------------- the reader

  function PlusAsSpace(t: string): (s: string)
    ensures |s| == |t|
  {
    if t == "" then "" else [if t[0] == '+' then ' ' else t[0]] + PlusAsSpace(t[1..])
  }

  function ReadText(t: string): string {
    Unquote(PlusAsSpace(t))
  }

  function ReadParam(t: string): Param {
    Param(ReadText(Before(t, '=')), ReadText(After(t, '=')))
  }

  /** The parameters of a query, in order. */
  function ReadQuery(t: string): seq<Param>
    decreases |t|
  {
    if t == "" then []
    else
      (if Before(t, '&') == "" then [] else [ReadParam(Before(t, '&'))]) + ReadQuery(After(t, '&'))
  }

  /** What stands before the last `c`. */
  function BeforeLast(s: string, c: char): string {
    if Find(s, c) == |s| then ""
    else
      var rest := After(s, c);
      if Find(rest, c) == |rest| then Before(s, c) else Before(s, c) + [c] + BeforeLast(rest, c)
  }

  datatype Parts = Parts(userinfo: string, query: seq<Param>)

  function ReadParts(link: string): Option<Parts> {
    var n :- SchemeLength(link);
    var body := Before(link[n + 3..], '#');
    Some(Parts(BeforeLast(Before(body, '?'), '@'), ReadQuery(After(body, '?'))))
  }

  /** Base64 with the URL alphabet and without padding. */
  function ReadUrlSafe(t: string): Option<string> {
    var s := StandardAlphabet(t);
    var bs :- Base64Decode(s + Padding(|s|));
    Some(Decode(bs))
  }

  datatype Credential = Secret(text: string) | Pair(first: string, second: string)

  function ReadCredential(p: Protocol, userinfo: string): Option<Credential> {
    match p
    case Vless => Some(Secret(userinfo))
    case Trojan => Some(Secret(Unquote(userinfo)))
    case Anytls => Some(Secret(Unquote(userinfo)))
    case Tuic => Some(Pair(Unquote(Before(userinfo, ':')), Unquote(After(userinfo, ':'))))
    case Shadowsocks =>
      var t :- ReadUrlSafe(userinfo);
      Some(Pair(Before(t, ':'), After(t, ':')))
  }

  // -------------------------------------------------------------------- the query

  /** The parameters that are sent: those with a value. */
  function Sent(query: seq<Param>): seq<Param> {
    if query == [] then []
    else (if query[0].value == "" then [] else [query[0]]) + Sent(query[1..])
  }

  predicate FormText(t: string) {
    forall i | 0 <= i < |t| :: Unreserved(t[i]) || t[i] == '%' || t[i] == '+'
  }

  lemma {:induction false} QuotePlusIsForm(bs: seq<Byte>)
    ensures FormText(QuotePlusBytes(bs))
  {
    if bs != [] {
      QuotePlusIsForm(bs[1..]);
    }
  }

  lemma {:induction false} PlusConcat(a: string, b: string)
    ensures PlusAsSpace(a + b) == PlusAsSpace(a) + PlusAsSpace(b)
  {
    if a == "" {
      assert a + b == b;
    } else {
      assert (a + b)[1..] == a[1..] + b;
      PlusConcat(a[1..], b);
    }
  }

  lemma {:induction false} NoPlus(s: string)
    requires Lacks(s, '+')
    ensures PlusAsSpace(s) == s
  {
    if s != "" {
      NoPlus(s[1..]);
    }
  }

  lemma QuotedByteHasNoPlus(b: Byte)
    ensures PlusAsSpace(QuoteByte(b)) == QuoteByte(b)
  {
    NoPlus(QuoteByte(b));
  }

  lemma {:induction false} PlusUndone(bs: seq<Byte>)
    ensures UnquoteBytes(Encode(PlusAsSpace(QuotePlusBytes(bs)))) == bs
  {
    if bs != [] {
      var more := QuotePlusBytes(bs[1..]);
      PlusUndone(bs[1..]);
      if bs[0] == 32 {
        PlusConcat("+", more);
        SpaceReads(PlusAsSpace(more));
      } else {
        PlusConcat(QuoteByte(bs[0]), more);
        QuotedByteHasNoPlus(bs[0]);
        EncodeConcat(QuoteByte(bs[0]), PlusAsSpace(more));
        UnquoteByte(bs[0], Encode(PlusAsSpace(more)));
      }
    }
  }

  lemma SpaceReads(more: string)
    ensures PlusAsSpace("+") == " "
    ensures UnquoteBytes(Encode(" " + more)) == [32] + UnquoteBytes(Encode(more))
  {
    EncodeConcat(" ", more);
    EncodeAscii(" ");
    assert Encode(" ") == [32];
    assert ([32] + Encode(more))[1..] == Encode(more);
  }

  lemma TextRoundTrip(s: string)
    ensures ReadText(QuotePlus(s)) == s
  {
    PlusUndone(Encode(s));
    Utf8RoundTrip(s);
  }

  lemma FormTextLacks(t: string)
    requires FormText(t)
    ensures Lacks(t, '=') && Lacks(t, '&')
  {
  }

  lemma ParamRoundTrip(p: Param)
    ensures var t := QuotePlus(p.key) + "=" + QuotePlus(p.value);
            t != "" && ReadParam(t) == p && Lacks(t, '&')
  {
    var key, value := QuotePlus(p.key), QuotePlus(p.value);
    QuotePlusIsForm(Encode(p.key));
    QuotePlusIsForm(Encode(p.value));
    FormTextLacks(key);
    FormTextLacks(value);
    TextRoundTrip(p.key);
    TextRoundTrip(p.value);
    hide FormText, QuotePlus, ReadText, Find;
    CutAt(key, '=', value);
  }

  /** The first parameter of a text. */
  lemma ReadQueryStep(t: string, rest: string)
    requires t != "" && Lacks(t, '&')
    ensures ReadQuery(t + (if rest == "" then "" else "&" + rest)) == [ReadParam(t)] + ReadQuery(rest)
  {
    hide ReadParam, Find;
    if rest == "" {
      NothingToCut(t, '&');
      WholeHasNoRest(t, '&');
      assert t + "" == t;
    } else {
      CutAt(t, '&', rest);
      assert t + ['&'] + rest == t + ("&" + rest);
    }
  }

  lemma WholeHasNoRest(t: string, c: char)
    requires Find(t, c) == |t|
    ensures After(t, c) == ""
  {
  }

  /** Every parameter with a value comes back, in order. */
  lemma {:induction false} QueryRoundTrip(query: seq<Param>)
    ensures ReadQuery(Params(query)) == Sent(query)
  {
    if query != [] {
      hide QuotePlus, ReadParam, ReadQuery;
      QueryRoundTrip(query[1..]);
      if query[0].value != "" {
        ParamRoundTrip(query[0]);
        ReadQueryStep(QuotePlus(query[0].key) + "=" + QuotePlus(query[0].value), Params(query[1..]));
      }
    }
  }

  // ----------------------------------------------------------------- the credential

  lemma {:induction false} UrlSafeConcat(a: string, b: string)
    ensures UrlSafe(a + b) == UrlSafe(a) + UrlSafe(b)
  {
    if a == "" {
      assert a + b == b;
    } else {
      assert (a + b)[1..] == a[1..] + b;
      UrlSafeConcat(a[1..], b);
    }
  }

  predicate DigitsOnly(s: string) {
    forall i | 0 <= i < |s| :: s[i] != '-' && s[i] != '_' && s[i] != '='
  }

  lemma {:induction false} AlphabetUndone(s: string)
    requires DigitsOnly(s)
    ensures |UrlSafe(s)| == |s| && StandardAlphabet(UrlSafe(s)) == s
  {
    if s != "" {
      AlphabetUndone(s[1..]);
      var c := if s[0] == '+' then '-' else if s[0] == '/' then '_' else s[0];
      assert UrlSafe(s) == [c] + UrlSafe(s[1..]);
      assert UrlSafe(s)[1..] == UrlSafe(s[1..]);
    }
  }

  /** Base64 is digits, then the padding their number asks for. */
  lemma {:induction false} Base64Shape(bs: seq<Byte>) returns (digits: string)
    ensures DigitsOnly(digits) && Base64Encode(bs) == digits + Padding(|digits|)
  {
    if |bs| > 2 {
      var more := Base64Shape(bs[3..]);
      digits := LastGroupAfter(bs, more);
    } else {
      digits := ShortShape(bs);
    }
  }

  lemma LastGroupAfter(bs: seq<Byte>, more: string) returns (digits: string)
    requires |bs| > 2 && DigitsOnly(more) && Base64Encode(bs[3..]) == more + Padding(|more|)
    ensures DigitsOnly(digits) && Base64Encode(bs) == digits + Padding(|digits|)
  {
    hide Base64Char;
    var quad := [Base64Char(bs[0] / 4), Base64Char(bs[0] % 4 * 16 + bs[1] / 16),
                 Base64Char(bs[1] % 16 * 4 + bs[2] / 64), Base64Char(bs[2] % 64)];
    digits := quad + more;
    SamePadding(|more|);
    hide Base64Value, Padding;
    assert digits + Padding(|more|) == quad + (more + Padding(|more|));
  }

  lemma SamePadding(n: nat)
    ensures Padding(n + 4) == Padding(n)
  {
  }

  lemma ShortShape(bs: seq<Byte>) returns (digits: string)
    requires |bs| <= 2
    ensures DigitsOnly(digits) && Base64Encode(bs) == digits + Padding(|digits|)
  {
    hide Base64Char, Base64Value;
    assert Padding(3) == "=" && Padding(2) == "==" && Padding(0) == "";
    if |bs| == 2 {
      digits := [Base64Char(bs[0] / 4), Base64Char(bs[0] % 4 * 16 + bs[1] / 16), Base64Char(bs[1] % 16 * 4)];
    } else if |bs| == 1 {
      digits := [Base64Char(bs[0] / 4), Base64Char(bs[0] % 4 * 16)];
    } else {
      digits := "";
    }
  }

  lemma PaddingVanishes(n: nat)
    ensures UrlSafe(Padding(n)) == ""
  {
    var p := Padding(n);
    assert p == "" || p == "=" || p == "==" || p == "===";
    assert "="[1..] == "" && "=="[1..] == "=" && "==="[1..] == "==";
  }

  /** The URL alphabet without padding loses nothing. */
  lemma UrlSafeRoundTrip(s: string)
    ensures ReadUrlSafe(UrlSafe(Base64Encode(Encode(s)))) == Some(s)
  {
    var bs := Encode(s);
    var digits := Base64Shape(bs);
    UrlSafeConcat(digits, Padding(|digits|));
    PaddingVanishes(|digits|);
    AlphabetUndone(digits);
    assert UrlSafe(digits) + "" == UrlSafe(digits);
    Base64RoundTrip(bs);
    Utf8RoundTrip(s);
  }

  /** What a link is meant to carry as its credential. */
  function CredentialOf(p: Protocol, user: User, e: Endpoint): Credential {
    match p
    case Shadowsocks => Pair(e.cipher, e.secret)
    case Tuic => Pair(user.uuid, user.uuid)
    case _ => Secret(user.uuid)
  }

  lemma CredentialRoundTrip(p: Protocol, user: User, e: Endpoint)
    requires p.Shadowsocks? ==> Lacks(e.cipher, ':')
    ensures ReadCredential(p, UserInfo(p, user, e)) == Some(CredentialOf(p, user, e))
  {
    match p
    case Vless =>
    case Shadowsocks =>
      UrlSafeRoundTrip(e.cipher + ":" + e.secret);
      CutAt(e.cipher, ':', e.secret);
    case Tuic =>
      QuoteRoundTrip(user.uuid);
      CutAt(Quote(user.uuid), ':', Quote(user.uuid));
    case _ => QuoteRoundTrip(user.uuid);
  }

  // ---------------------------------------------------------------------- the link

  lemma {:induction false} LastCutBefore(a: string, c: char, b: string)
    requires Lacks(b, c)
    ensures BeforeLast(a + [c] + b, c) == a
    decreases |a|
  {
    var s := a + [c] + b;
    var n := Find(a, c);
    if n == |a| {
      CutAt(a, c, b);
      NothingToCut(b, c);
    } else {
      var rest := a[n + 1..];
      assert a == a[..n] + [c] + rest;
      assert s == a[..n] + [c] + (rest + [c] + b);
      CutAt(a[..n], c, rest + [c] + b);
      LastCutBefore(rest, c, b);
      MoreToCut(rest, c, b);
    }
  }

  lemma MoreToCut(a: string, c: char, b: string)
    ensures Find(a + [c] + b, c) < |a + [c] + b|
  {
    assert (a + [c] + b)[|a|] == c;
  }

  lemma BodyReadsParts(userinfo: string, host: string, port: nat, query: string, fragment: string)
    requires GoodPart(userinfo) && GoodHost(host) && GoodPart(query)
    ensures var body := Before(Authority(userinfo, host, port) + "?" + query + "#" + fragment, '#');
            BeforeLast(Before(body, '?'), '@') == userinfo && After(body, '?') == query
  {
    var authority := Authority(userinfo, host, port);
    AuthorityIsGood(userinfo, host, port);
    HostIsDelimiterFree(host);
    assert Lacks(authority + "?" + query, '#') && Lacks(authority, '?');
    hide Find, BeforeLast, GoodPart, GoodHost;
    CutAt(authority + "?" + query, '#', fragment);
    CutAt(authority, '?', query);
    assert Lacks(host + ":" + DecText(port), '@');
    LastCutBefore(userinfo, '@', host + ":" + DecText(port));
  }

  /** Whoever reads a printed link gets the credential and every parameter it was
      printed from. */
  lemma PartsRoundTrip(p: Protocol, user: User, e: Endpoint, title: string)
    requires GoodHost(e.host) && (p.Vless? ==> GoodPart(user.uuid)) && (p.Shadowsocks? ==> Lacks(e.cipher, ':'))
    ensures var r := ReadParts(ShareLink(p, user, e, title));
            && r.Some? && r.value.query == Sent(Query(p, user, e))
            && ReadCredential(p, r.value.userinfo) == Some(CredentialOf(p, user, e))
  {
    var query := Params(Query(p, user, e));
    SchemesAreGood(p);
    UserInfoIsGood(p, user, e);
    ParamsAreGood(Query(p, user, e));
    QuoteRoundTrip(title);
    QuotedIsGood(Quote(title));
    hide *;
    PartsAre(p, user, e, title, query);
    QueryRoundTrip(Query(p, user, e));
    CredentialRoundTrip(p, user, e);
  }

  lemma PartsAre(p: Protocol, user: User, e: Endpoint, title: string, query: string)
    requires GoodScheme(Scheme(p)) && GoodPart(UserInfo(p, user, e)) && GoodHost(e.host) && GoodPart(query)
    requires query == Params(Query(p, user, e)) && GoodPart(Quote(title))
    ensures ReadParts(ShareLink(p, user, e, title)) == Some(Parts(UserInfo(p, user, e), ReadQuery(query)))
  {
    hide Find, Before, After, BeforeLast, Authority, SchemeLength, Scheme, Strip, Lower, GoodPart, GoodHost, GoodScheme,
         UserInfo, Params, ReadQuery, Uri, Quote, Query;
    UriReads(Scheme(p), UserInfo(p, user, e), e.host, e.port, query, Quote(title));
    BodyReadsParts(UserInfo(p, user, e), e.host, e.port, query, Quote(title));
  }

  // ----------------------------------------------- what the query of a link says

  /** A link that can be printed and taken apart. */
  predicate Readable(p: Protocol, user: User, e: Endpoint) {
    GoodHost(e.host) && (p.Vless? ==> GoodPart(user.uuid)) && (p.Shadowsocks? ==> Lacks(e.cipher, ':'))
  }

  function QueryRead(p: Protocol, user: User, e: Endpoint, title: string): Option<seq<Param>> {
    var parts :- ReadParts(ShareLink(p, user, e, title));
    Some(parts.query)
  }

  lemma QueryIsRead(p: Protocol, user: User, e: Endpoint, title: string)
    requires Readable(p, user, e)
    ensures QueryRead(p, user, e, title) == Some(Sent(Query(p, user, e)))
  {
    hide ReadParts, ShareLink, ReadCredential, CredentialOf, Sent, Query, GoodHost, GoodPart, Lacks;
    PartsRoundTrip(p, user, e, title);
  }

  /** VLESS and Trojan carry the whole query of their transport. */
  lemma TransportIsRead(p: Protocol, user: User, e: Endpoint, title: string)
    requires Readable(p, user, e) && (p.Vless? || p.Trojan?)
    ensures QueryRead(p, user, e, title) == Some(Sent(e.query))
  {
    hide QueryRead, Sent, Readable;
    QueryIsRead(p, user, e, title);
  }

  /** Shadowsocks carries its plugin, if there is one. */
  lemma PluginIsRead(user: User, e: Endpoint, title: string)
    requires Readable(Shadowsocks, user, e)
    ensures QueryRead(Shadowsocks, user, e, title) == Some(if e.plugin == "" then [] else [Param("plugin", e.plugin)])
  {
    hide QueryRead, Sent, Readable;
    QueryIsRead(Shadowsocks, user, e, title);
    OneSent(Param("plugin", e.plugin));
  }

  lemma OneSent(p: Param)
    ensures Sent([p]) == if p.value == "" then [] else [p]
  {
    assert [p][1..] == [];
  }

  lemma HostIsThere(p: Protocol, user: User, e: Endpoint)
    requires Readable(p, user, e)
    ensures e.host != ""
  {
    HostReads(e.host);
    hide GoodHost;
  }

  lemma AnytlsQuery(user: User, e: Endpoint)
    requires e.host != ""
    ensures var q := Query(Anytls, user, e);
            && q == [Param("insecure", "1"), Param("sni", if e.sni == "" then e.host else e.sni),
                     Param("fp", if user.fingerprint == "" then "chrome" else user.fingerprint)]
            && forall i | 0 <= i < |q| :: q[i].value != ""
  {
  }

  lemma TuicQuery(user: User, e: Endpoint)
    requires e.host != ""
    ensures var q := Query(Tuic, user, e);
            && q == [Param("allow_insecure", "1"), Param("insecure", "1"),
                     Param("sni", if e.sni == "" then e.host else e.sni), Param("congestion_control", "bbr")]
            && forall i | 0 <= i < |q| :: q[i].value != ""
  {
  }

  /** AnyTLS clients are told to accept the certificate, which name to ask for, and
      whose handshake to imitate. */
  lemma AnytlsIsRead(user: User, e: Endpoint, title: string)
    requires Readable(Anytls, user, e)
    ensures QueryRead(Anytls, user, e, title)
         == Some([Param("insecure", "1"), Param("sni", if e.sni == "" then e.host else e.sni),
                  Param("fp", if user.fingerprint == "" then "chrome" else user.fingerprint)])
  {
    hide *;
    HostIsThere(Anytls, user, e);
    QueryIsRead(Anytls, user, e, title);
    AnytlsQuery(user, e);
    AllSent(Query(Anytls, user, e));
  }

  /** TUIC clients find both spellings of the insecure flag. */
  lemma TuicIsRead(user: User, e: Endpoint, title: string)
    requires Readable(Tuic, user, e)
    ensures QueryRead(Tuic, user, e, title)
         == Some([Param("allow_insecure", "1"), Param("insecure", "1"),
                  Param("sni", if e.sni == "" then e.host else e.sni), Param("congestion_control", "bbr")])
  {
    hide *;
    HostIsThere(Tuic, user, e);
    QueryIsRead(Tuic, user, e, title);
    TuicQuery(user, e);
    AllSent(Query(Tuic, user, e));
  }

  lemma {:induction false} AllSent(query: seq<Param>)
    requires forall i | 0 <= i < |query| :: query[i].value != ""
    ensures Sent(query) == query
  {
    if query != [] {
      AllSent(query[1..]);
      assert query == [query[0]] + query[1..];
    }
  }

  /** The value a client finds under a key. */
  function Value(query: seq<Param>, key: string): string {
    if query == [] then "" else if query[0].key == key then query[0].value else Value(query[1..], key)
  }

  lemma ValueCons(p: Param, rest: seq<Param>, key: string)
    ensures Value([p] + rest, key) == if p.key == key then p.value else Value(rest, key)
  {
    assert ([p] + rest)[0] == p && ([p] + rest)[1..] == rest;
  }

  /** Values that are not sent read as missing ones. */
  lemma {:induction false} SentValue(query: seq<Param>, key: string)
    requires forall i, j | 0 <= i < j < |query| :: query[i].key != query[j].key
    ensures Value(Sent(query), key) == Value(query, key)
  {
    if query != [] {
      var tail := query[1..];
      assert forall i | 0 <= i < |tail| :: tail[i] == query[i + 1];
      SentValue(tail, key);
      ValueCons(query[0], Sent(tail), key);
      ValueCons(query[0], tail, key);
      assert query == [query[0]] + tail && [] + Sent(tail) == Sent(tail);
      if query[0].key == key {
        NoValue(tail, key);
      }
      hide Value;
    }
  }

  lemma {:induction false} NoValue(query: seq<Param>, key: string)
    requires forall i | 0 <= i < |query| :: query[i].key != key
    ensures Value(query, key) == ""
  {
    if query != [] {
      NoValue(query[1..], key);
    }
  }

  lemma ValueAt(query: seq<Param>, i: nat)
    requires i < |query| && forall j | 0 <= j < i :: query[j].key != query[i].key
    ensures Value(query, query[i].key) == query[i].value
    decreases i
  {
    if i > 0 {
      ValueAt(query[1..], i - 1);
    }
  }

  lemma WsKeysDiffer(w: Socket)
    ensures forall i, j | 0 <= i < j < |WsQuery(w)| :: WsQuery(w)[i].key != WsQuery(w)[j].key
  {
  }

  lemma WsValues(w: Socket)
    ensures var q := WsQuery(w);
            && Value(q, "encryption") == "none" && Value(q, "type") == "ws" && Value(q, "path") == w.path
            && Value(q, "security") == (if w.tls then "tls" else "none")
            && Value(q, "host") == (if w.host != "" then w.host else w.server)
            && Value(q, "sni") == (if w.sni != "" then w.sni else if w.host != "" then w.host else w.server)
            && Value(q, "fragment") == w.fragment && Value(q, "fp") == w.fingerprint && Value(q, "tlsMask") == w.mask
  {
    WsKeysDiffer(w);
    hide Value;
    var q := WsQuery(w);
    forall i: nat | i < |q|
      ensures Value(q, q[i].key) == q[i].value
    {
      ValueAt(q, i);
    }
    assert Value(q, q[0].key) == "none" && Value(q, q[1].key) == q[1].value && Value(q, q[2].key) == "ws";
    assert Value(q, q[3].key) == q[3].value && Value(q, q[4].key) == w.path && Value(q, q[5].key) == q[5].value;
    assert Value(q, q[6].key) == w.fragment && Value(q, q[7].key) == w.fingerprint && Value(q, q[8].key) == w.mask;
  }

  /** Every setting of a WebSocket transport is found under its own key: the encryption
      of the connection, the transport, the host header and the name to ask for, which
      fall back to the server, the path, and the client options. */
  lemma SocketIsRead(p: Protocol, user: User, e: Endpoint, title: string, w: Socket)
    requires Readable(p, user, e) && (p.Vless? || p.Trojan?) && e.query == WsQuery(w)
    ensures QueryRead(p, user, e, title).Some?
    ensures var q := QueryRead(p, user, e, title).value;
            && Value(q, "encryption") == "none" && Value(q, "type") == "ws" && Value(q, "path") == w.path
            && Value(q, "security") == (if w.tls then "tls" else "none")
            && Value(q, "host") == (if w.host != "" then w.host else w.server)
            && Value(q, "sni") == (if w.sni != "" then w.sni else if w.host != "" then w.host else w.server)
            && Value(q, "fragment") == w.fragment && Value(q, "fp") == w.fingerprint && Value(q, "tlsMask") == w.mask
  {
    hide *;
    TransportIsRead(p, user, e, title);
    WsKeysDiffer(w);
    WsValues(w);
    SentValue(e.query, "encryption");
    SentValue(e.query, "security");
    SentValue(e.query, "type");
    SentValue(e.query, "host");
    SentValue(e.query, "path");
    SentValue(e.query, "sni");
    SentValue(e.query, "fragment");
    SentValue(e.query, "fp");
    SentValue(e.query, "tlsMask");
  }
}
