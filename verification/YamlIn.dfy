/** A reader for the block subset of YAML 1.2.2: block mappings and sequences
    (section 8.2), plain scalars on one line (7.3.3), double-quoted scalars on one
    line (7.3.1) with the escapes of section 5.7, comments (6.6), and the empty
    flow collections. Anything else is not read. */
module YamlIn {
  import opened Text
  import opened YamlDoc
  import opened YamlOut

  // ---------------------------------------------------------------------- lines

  function IsBreak(c: char): bool {
    c == '\n' || c == '\r'
  }

  function SpanLine(s: string): (n: nat)
    ensures n <= |s|
    ensures forall i | 0 <= i < n :: !IsBreak(s[i])
    ensures n < |s| ==> IsBreak(s[n])
  {
    if s == "" || IsBreak(s[0]) then 0 else 1 + SpanLine(s[1..])
  }

  function SplitLines(s: string): seq<string> {
    var n := SpanLine(s);
    if n == |s| then (if n == 0 then [] else [s])
    else if s[n] == '\r' && n + 1 < |s| && s[n + 1] == '\n' then [s[..n]] + SplitLines(s[n + 2..])
    else [s[..n]] + SplitLines(s[n + 1..])
  }

  function CountSpaces(s: string): (n: nat)
    ensures n <= |s| && forall i | 0 <= i < n :: s[i] == ' '
    ensures n < |s| ==> s[n] != ' '
  {
    if s == "" || s[0] != ' ' then 0 else 1 + CountSpaces(s[1..])
  }

  function Skip(s: string): string {
    s[CountSpaces(s)..]
  }

  /** The lines that carry content; blank and comment lines are dropped. */
  function Structure(ss: seq<string>): seq<Line> {
    if ss == [] then []
    else
      var text := Skip(ss[0]);
      (if IsBlank(text) then [] else [Line(CountSpaces(ss[0]), text)]) + Structure(ss[1..])
  }

  /** Nothing, or a comment. */
  predicate IsBlank(text: string) {
    text == "" || text[0] == '#'
  }

  /** `---` or `...` at the start of a line, followed by white space or the end. */
  predicate IsMarker(l: Line) {
    && l.indent == 0 && |l.text| >= 3
    && l.text[0] == l.text[1] == l.text[2] && (l.text[0] == '-' || l.text[0] == '.')
    && (|l.text| > 3 ==> l.text[3] == ' ' || l.text[3] == '\t')
  }

  predicate HasMarker(ls: seq<Line>) {
    exists i | 0 <= i < |ls| :: IsMarker(ls[i])
  }

  // -------------------------------------------------------------------- scalars

  /** The text before ` #`, without trailing spaces. */
  function Uncommented(s: string): string {
    TrimEnd(s[..CommentAt(s)])
  }

  function CommentAt(s: string): (n: nat)
    ensures n <= |s|
    ensures n < |s| ==> n + 1 < |s| && s[n] == ' ' && s[n + 1] == '#'
    ensures forall i | 0 <= i < n && i + 1 < |s| :: !(s[i] == ' ' && s[i + 1] == '#')
  {
    if s == "" then 0
    else if |s| > 1 && s[0] == ' ' && s[1] == '#' then 0
    else 1 + CommentAt(s[1..])
  }

  function TrimEnd(s: string): string {
    if s != "" && s[|s| - 1] == ' ' then TrimEnd(s[..|s| - 1]) else s
  }

  /** A plain scalar starts with no indicator, except `-`, `?`, `:` before a
      non-space, and holds no `: `. */
  predicate PlainAllowed(s: string) {
    && s != ""
    && (IsIndicator(s[0]) ==> (s[0] == '-' || s[0] == '?' || s[0] == ':') && |s| > 1 && s[1] != ' ')
    && forall i | 0 <= i < |s| && s[i] == ':' :: i + 1 < |s| && s[i + 1] != ' '
  }

  function HexRun(s: string): Option<nat> {
    if RadixDigits(s, 16) then Some(RadixValue(s, 16)) else None
  }

  predicate IsScalarValue(n: nat) {
    n < 0xD800 || 0xE000 <= n < 0x11_0000
  }

  /** An escape after its backslash: the character and how much text it takes. */
  function ReadEscape(t: string): Option<(char, nat)> {
    if t == "" then None
    else match t[0]
      case '0' => Some(('\U{00}', 1))
      case 'a' => Some(('\U{07}', 1))
      case 'b' => Some(('\U{08}', 1))
      case 't' => Some(('\t', 1))
      case '\t' => Some(('\t', 1))
      case 'n' => Some(('\n', 1))
      case 'v' => Some(('\U{0B}', 1))
      case 'f' => Some(('\U{0C}', 1))
      case 'r' => Some(('\r', 1))
      case 'e' => Some(('\U{1B}', 1))
      case ' ' => Some((' ', 1))
      case '"' => Some(('"', 1))
      case '/' => Some(('/', 1))
      case '\\' => Some(('\\', 1))
      case 'N' => Some(('\U{85}', 1))
      case '_' => Some(('\U{A0}', 1))
      case 'L' => Some(('\U{2028}', 1))
      case 'P' => Some(('\U{2029}', 1))
      case 'x' => ReadCode(t, 2)
      case 'u' => ReadCode(t, 4)
      case 'U' => ReadCode(t, 8)
      case _ => None
  }

  function ReadCode(t: string, digits: nat): Option<(char, nat)>
    requires t != ""
  {
    if |t| <= digits then None
    else
      var code :- HexRun(t[1..digits + 1]);
      if IsScalarValue(code) then Some((code as char, digits + 1)) else None
  }

  /** The text after an opening quote: the content, and what follows the closing one. */
  function ReadQuoted(t: string): Option<(string, string)> {
    if t == "" then None
    else if t[0] == '"' then Some(("", t[1..]))
    else if t[0] == '\\' then
      var (c, n) :- ReadEscape(t[1..]);
      if n + 1 <= |t| then
        var (s, tail) :- ReadQuoted(t[n + 1..]);
        Some(([c] + s, tail))
      else None
    else if t[0] < ' ' && t[0] != '\t' then None
    else
      var (s, tail) :- ReadQuoted(t[1..]);
      Some(([t[0]] + s, tail))
  }

  /** Only spaces, or a comment set off by one. */
  predicate EndsHere(tail: string) {
    Skip(tail) == "" || (tail[0] == ' ' && Skip(tail)[0] == '#')
  }

  /** A scalar or an empty flow collection that fills the rest of its line. */
  function ReadInline(t: string): Option<Doc> {
    if t == "" then None
    else if t[0] == '"' then
      var (s, tail) :- ReadQuoted(t[1..]);
      if EndsHere(tail) then Some(Str(s)) else None
    else
      var u := Uncommented(t);
      if u == "{}" then Some(Map([]))
      else if u == "[]" then Some(List([]))
      else if PlainAllowed(u) then Some(Resolve(u))
      else None
  }

  /** Whether a line starts with a key, and what follows its colon. */
  datatype KeyLine = KeyLine(key: string, rest: string) | NotKey | BadKey

  /** An implicit key is at most this long, quotes included (sections 7.4.2 and 8.2.2). */
  const KEY_LIMIT: nat := 1024

  function ReadKey(t: string): KeyLine {
    if t != "" && t[0] == '"' then
      match ReadQuoted(t[1..])
      case None => BadKey
      case Some((s, tail)) =>
        var after := Skip(tail);
        if after != "" && after[0] == ':' && (|after| == 1 || after[1] == ' ')
        then if |t| - |tail| <= KEY_LIMIT then KeyLine(s, Skip(after[1..])) else BadKey
        else NotKey
    else
      var n := ColonAt(t);
      if n == |t| then NotKey
      else
        var key := TrimEnd(t[..n]);
        if PlainAllowed(key) && Resolve(key) == Str(key) && |key| <= KEY_LIMIT then KeyLine(key, Skip(t[n + 1..])) else BadKey
  }

  /** The first colon before a space or the end, unless a comment starts earlier. */
  function ColonAt(t: string): (n: nat)
    ensures n <= |t| && (n < |t| ==> t[n] == ':')
  {
    if t == "" then 0
    else if t[0] == ':' && (|t| == 1 || t[1] == ' ') then 0
    else if |t| > 1 && t[0] == ' ' && t[1] == '#' then |t|
    else 1 + ColonAt(t[1..])
  }

  predicate IsDash(t: string) {
    t != "" && t[0] == '-' && (|t| == 1 || t[1] == ' ')
  }

  // ---------------------------------------------------------------------- blocks

  function Weight(ls: seq<Line>): nat {
    if ls == [] then 0 else 1 + |ls[0].text| + Weight(ls[1..])
  }

  datatype Parsed<+T> = Parsed(value: T, rest: seq<Line>)

  /** The node whose first line is `ls[0]`. A scalar node is one line. */
  function ReadBlock(ls: seq<Line>): (r: Option<Parsed<Doc>>)
    requires ls != []
    ensures r.Some? ==> Weight(r.value.rest) < Weight(ls)
    decreases Weight(ls), 3
  {
    var n := ls[0].indent;
    if IsDash(ls[0].text) then
      var x :- ReadItem(ls);
      var xs :- ReadItems(x.rest, n);
      Some(Parsed(List([x.value] + xs.value), xs.rest))
    else if ReadKey(ls[0].text) == NotKey then
      var v :- ReadInline(ls[0].text);
      if Ends(ls[1..], n) then Some(Parsed(v, ls[1..])) else None
    else
      var e :- ReadEntry(ls);
      var es :- ReadEntries(e.rest, n);
      Some(Parsed(Map([e.value] + es.value), es.rest))
  }

  /** Nothing follows at column `n` or to its right. */
  predicate Ends(ls: seq<Line>, n: nat) {
    ls == [] || ls[0].indent < n
  }

  /** The node on the lines below a line at column `n`, or null when there is none. */
  function ReadBelow(ls: seq<Line>, n: nat): (r: Option<Parsed<Doc>>)
    ensures r.Some? ==> Weight(r.value.rest) <= Weight(ls)
    decreases Weight(ls), 4
  {
    if Ends(ls, n + 1) then Some(Parsed(Null, ls)) else ReadBlock(ls)
  }

  /** One item: the text behind the dash is a node at its own column. */
  function ReadItem(ls: seq<Line>): (r: Option<Parsed<Doc>>)
    requires ls != [] && IsDash(ls[0].text)
    ensures r.Some? ==> Weight(r.value.rest) < Weight(ls)
    decreases Weight(ls), 2
  {
    var n, behind := ls[0].indent, ls[0].text[1..];
    var text := Skip(behind);
    if IsBlank(text) then ReadBelow(ls[1..], n)
    else
      var inner := [Line(n + 1 + CountSpaces(behind), text)] + ls[1..];
      assert inner[1..] == ls[1..];
      ReadBlock(inner)
  }

  function ReadItems(ls: seq<Line>, n: nat): (r: Option<Parsed<seq<Doc>>>)
    ensures r.Some? ==> Weight(r.value.rest) <= Weight(ls)
    decreases Weight(ls), 3
  {
    if Ends(ls, n) || (ls[0].indent == n && !IsDash(ls[0].text)) then Some(Parsed([], ls))
    else if ls[0].indent > n then None
    else
      var x :- ReadItem(ls);
      var xs :- ReadItems(x.rest, n);
      Some(Parsed([x.value] + xs.value, xs.rest))
  }

  /** One key and its value. A sequence below a key may start at the key's column. */
  function ReadEntry(ls: seq<Line>): (r: Option<Parsed<Entry>>)
    requires ls != []
    ensures r.Some? ==> Weight(r.value.rest) < Weight(ls)
    decreases Weight(ls), 2
  {
    var n := ls[0].indent;
    match ReadKey(ls[0].text)
    case KeyLine(key, text) =>
      if !IsBlank(text) then
        var v :- ReadInline(text);
        Some(Parsed(Entry(key, v), ls[1..]))
      else if !Ends(ls[1..], n) && ls[1].indent == n && IsDash(ls[1].text) then
        var xs :- ReadItems(ls[1..], n);
        Some(Parsed(Entry(key, List(xs.value)), xs.rest))
      else
        var v :- ReadBelow(ls[1..], n);
        Some(Parsed(Entry(key, v.value), v.rest))
    case NotKey => None
    case BadKey => None
  }

  function ReadEntries(ls: seq<Line>, n: nat): (r: Option<Parsed<seq<Entry>>>)
    ensures r.Some? ==> Weight(r.value.rest) <= Weight(ls)
    decreases Weight(ls), 3
  {
    if Ends(ls, n) || (ls[0].indent == n && IsDash(ls[0].text)) then Some(Parsed([], ls))
    else if ls[0].indent > n then None
    else
      var e :- ReadEntry(ls);
      var es :- ReadEntries(e.rest, n);
      Some(Parsed([e.value] + es.value, es.rest))
  }

  /** Keys of one mapping are unique (section 3.2.1.1). */
  predicate UniqueKeys(v: Doc)
    decreases v
  {
    match v
    case Map(entries) =>
      && (forall i, j | 0 <= i < j < |entries| :: entries[i].key != entries[j].key)
      && (forall i | 0 <= i < |entries| :: UniqueKeys(entries[i].value))
    case List(items) => forall i | 0 <= i < |items| :: UniqueKeys(items[i])
    case _ => true
  }

  function Load(text: string): Option<Doc> {
    var doc :- ReadDocument(text);
    if UniqueKeys(doc) then Some(doc) else None
  }

  /** One document without markers, before its keys are compared. */
  function ReadDocument(text: string): Option<Doc> {
    var ls := Structure(SplitLines(text));
    if HasMarker(ls) then None
    else if ls == [] then Some(Null)
    else
      var doc :- ReadBlock(ls);
      if doc.rest == [] then Some(doc.value) else None
  }
}
