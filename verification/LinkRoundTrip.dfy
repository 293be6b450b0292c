/** A printed link is read back: scheme, host, port, label and country, alone and in a
    whole subscription body. */
module LinkRoundTrip {
  import opened Text
  import opened Codecs
  import opened Links

  // ----------------------------------------------------------------- cutting strings

  predicate Lacks(s: string, c: char) {
    forall i | 0 <= i < |s| :: s[i] != c
  }

  lemma CutAt(a: string, c: char, b: string)
    requires Lacks(a, c)
    ensures var s := a + [c] + b; Find(s, c) == |a| && Before(s, c) == a && After(s, c) == b
  {
    var s := a + [c] + b;
    FindIs(s, c, |a|);
    assert s[..|a|] == a && s[|a| + 1..] == b;
  }

  lemma NothingToCut(a: string, c: char)
    requires Lacks(a, c)
    ensures Find(a, c) == |a| && Before(a, c) == a
  {
    FindIs(a, c, |a|);
    assert a[..|a|] == a;
  }

  lemma {:induction false} LastCut(a: string, c: char, b: string)
    requires Lacks(b, c)
    ensures AfterLast(a + [c] + b, c) == b
    decreases |a|
  {
    var s := a + [c] + b;
    var n := Find(a, c);
    if n == |a| {
      assert Lacks(a, c);
      CutAt(a, c, b);
      NothingToCut(b, c);
    } else {
      var rest := a[n + 1..];
      assert a == a[..n] + [c] + rest;
      assert s == a[..n] + [c] + (rest + [c] + b);
      CutAt(a[..n], c, rest + [c] + b);
      LastCut(rest, c, b);
    }
  }

  lemma LowerIsIdentity(s: string)
    requires forall i | 0 <= i < |s| :: LowerChar(s[i]) == s[i]
    ensures Lower(s) == s
  {
  }

  // --------------------------------------------------------------------- the port

  lemma {:induction false} DigitsHaveNoUnderscores(s: string)
    requires AllDigits(s)
    ensures WithoutUnderscores(s) == s
  {
    NoUnderscores(s);
  }

  lemma PortRoundTrip(port: nat)
    ensures PortOf(DecText(port)) == port
  {
    hide DecText, DecValue, Strip;
    var d := DecText(port);
    assert IsDigit(d[0]) && IsDigit(d[|d| - 1]);
    StripIsIdentity(d);
    DigitsHaveNoUnderscores(d);
    DecimalRoundTrip(port);
  }

  // ------------------------------------------------------------------ the whole link

  /** A dotted lower-case host, free of delimiters and white space. */
  predicate GoodHost(host: string) {
    && (exists i | 0 <= i < |host| :: host[i] == '.')
    && forall i | 0 <= i < |host| ::
         && host[i] !in "#?@/:[\n" && !IsSpace(host[i]) && LowerChar(host[i]) == host[i]
  }

  /** No delimiter of the text around it, and no white space. */
  predicate GoodPart(s: string) {
    forall i | 0 <= i < |s| :: s[i] != '#' && s[i] != '?' && !IsSpace(s[i])
  }

  predicate GoodScheme(s: string) {
    2 <= |s| <= 12 && s != "vmess" && forall i | 0 <= i < |s| :: IsDigit(s[i]) || 'a' <= s[i] <= 'z'
  }

  lemma SchemesAreGood(p: Protocol)
    ensures GoodScheme(Scheme(p))
  {
  }

  function Authority(userinfo: string, host: string, port: nat): string {
    userinfo + "@" + (host + ":" + DecText(port))
  }

  lemma UriShape(scheme: string, userinfo: string, host: string, port: nat, query: string, fragment: string)
    ensures var body := Authority(userinfo, host, port) + "?" + query + "#" + fragment;
            var uri := Uri(scheme, userinfo, host, port, query, fragment);
            && uri == scheme + "://" + body
            && uri == (scheme + "://" + Authority(userinfo, host, port) + "?" + query) + "#" + fragment
            && uri == scheme + ":" + ("//" + body)
  {
  }

  /** The host and port come back from an authority, whatever the user information. */
  lemma AuthorityReads(userinfo: string, host: string, port: nat)
    requires GoodHost(host)
    ensures Before(AfterLast(Authority(userinfo, host, port), '@'), '/') == host + ":" + DecText(port)
    ensures HostAndPort(host + ":" + DecText(port)) == (host, DecText(port))
  {
    var hp := host + ":" + DecText(port);
    HostIsDelimiterFree(host);
    assert Lacks(hp, '@') && Lacks(hp, '/');
    hide Find, AfterLast, GoodHost;
    LastCut(userinfo, '@', hp);
    NothingToCut(hp, '/');
    CutAt(host, ':', DecText(port));
    assert hp[0] == host[0];
  }

  lemma HostIsDelimiterFree(host: string)
    requires GoodHost(host)
    ensures host != "" && host[0] != '[' && Lacks(host, ':') && Lacks(host, '@') && Lacks(host, '/')
  {
    assert forall i | 0 <= i < |host| :: host[i] !in "#?@/:[\n";
  }

  lemma HostReads(host: string)
    requires GoodHost(host)
    ensures Lower(Strip(host)) == host && host != "" && Find(host, '.') < |host|
  {
    StripIsIdentity(host);
    LowerIsIdentity(host);
  }

  lemma SchemeIsFound(uri: string, n: nat)
    requires Find(uri, ':') == n && 2 <= n <= 12 && n + 3 < |uri| && uri[n + 1] == '/' && uri[n + 2] == '/'
    requires forall i | 0 <= i < n :: Alphanumeric(uri[i])
    requires forall i | n + 3 <= i < |uri| :: uri[i] != '\n'
    ensures SchemeLength(uri) == Some(n)
  {
    hide Find, Alphanumeric;
  }

  lemma SchemeIsAlphanumeric(scheme: string)
    requires GoodScheme(scheme)
    ensures 2 <= |scheme| <= 12 && forall i | 0 <= i < |scheme| :: Alphanumeric(scheme[i])
  {
  }

  lemma SchemeStartsClean(scheme: string)
    requires GoodScheme(scheme)
    ensures !IsSpace(scheme[0])
  {
  }

  lemma NoSpaceNoBreak(s: string)
    requires forall i | 0 <= i < |s| :: !IsSpace(s[i])
    ensures forall i | 0 <= i < |s| :: s[i] != '\n'
  {
  }

  /** The shape of a link is recognised. */
  lemma SchemeReads(scheme: string, rest: string)
    requires GoodScheme(scheme) && rest != ""
    requires forall i | 0 <= i < |rest| :: !IsSpace(rest[i])
    ensures var uri := scheme + ":" + ("//" + rest);
            && Strip(uri) == uri && SchemeLength(uri) == Some(|scheme|)
            && Lower(uri[..|scheme|]) == scheme && uri[|scheme| + 3..] == rest
  {
    var n, uri := |scheme|, scheme + ":" + ("//" + rest);
    CutAt(scheme, ':', "//" + rest);
    LowerIsIdentity(scheme);
    SchemeIsAlphanumeric(scheme);
    NoSpaceNoBreak(rest);
    hide Find, Strip, Lower, SchemeLength, Alphanumeric, IsSpace, GoodScheme;
    assert uri[..n] == scheme && uri[n + 3..] == rest && uri[n + 1] == '/' && uri[n + 2] == '/';
    assert forall i | 0 <= i < n :: uri[i] == scheme[i];
    assert forall i | n + 3 <= i < |uri| :: uri[i] == rest[i - n - 3];
    SchemeIsFound(uri, n);
    assert uri[|uri| - 1] == rest[|rest| - 1];
    SchemeStartsClean(scheme);
    StripIsIdentity(uri);
  }

  /** The parts of a link are found where they were put. */
  lemma UriCuts(authority: string, query: string, fragment: string)
    requires GoodPart(authority) && GoodPart(query)
    ensures var body := authority + "?" + query + "#" + fragment;
            Before(Before(body, '#'), '?') == authority && After(body, '#') == fragment
  {
    var head := authority + "?" + query;
    assert Lacks(head, '#') && Lacks(authority, '?');
    CutAt(head, '#', fragment);
    CutAt(authority, '?', query);
  }

  lemma AuthorityIsGood(userinfo: string, host: string, port: nat)
    requires GoodPart(userinfo) && GoodHost(host)
    ensures GoodPart(Authority(userinfo, host, port))
  {
    assert forall i | 0 <= i < |host| :: host[i] !in "#?@/:[\n";
  }

  lemma FragmentReads(scheme: string, head: string, fragment: string)
    requires GoodScheme(scheme) && Lacks(head, '#')
    ensures After(scheme + ":" + ("//" + (head + "#" + fragment)), '#') == fragment
  {
    var before := scheme + "://" + head;
    assert scheme + ":" + ("//" + (head + "#" + fragment)) == before + "#" + fragment;
    CutAt(before, '#', fragment);
  }

  lemma BodyHasNoSpace(authority: string, query: string, fragment: string, userinfo: string, host: string, port: nat)
    requires authority == Authority(userinfo, host, port) && GoodPart(userinfo) && GoodHost(host)
    requires GoodPart(query) && GoodPart(fragment)
    ensures GoodPart(authority)
    ensures var body := authority + "?" + query + "#" + fragment;
            body != "" && forall i | 0 <= i < |body| :: !IsSpace(body[i])
  {
    AuthorityIsGood(userinfo, host, port);
  }

  /** The printed text has the shape of a link, around its body. */
  lemma UriReads(scheme: string, userinfo: string, host: string, port: nat, query: string, fragment: string)
    requires GoodScheme(scheme) && GoodPart(userinfo) && GoodHost(host) && GoodPart(query) && GoodPart(fragment)
    ensures var uri := Uri(scheme, userinfo, host, port, query, fragment);
            && Strip(uri) == uri && SchemeLength(uri) == Some(|scheme|) && Lower(uri[..|scheme|]) == scheme
            && uri[|scheme| + 3..] == Authority(userinfo, host, port) + "?" + query + "#" + fragment
  {
    var authority := Authority(userinfo, host, port);
    UriShape(scheme, userinfo, host, port, query, fragment);
    BodyHasNoSpace(authority, query, fragment, userinfo, host, port);
    SchemeReads(scheme, authority + "?" + query + "#" + fragment);
  }

  lemma UriFragmentReads(scheme: string, userinfo: string, host: string, port: nat, query: string, fragment: string)
    requires GoodScheme(scheme) && GoodPart(userinfo) && GoodHost(host) && GoodPart(query)
    ensures After(Uri(scheme, userinfo, host, port, query, fragment), '#') == fragment
  {
    var authority := Authority(userinfo, host, port);
    AuthorityIsGood(userinfo, host, port);
    UriShape(scheme, userinfo, host, port, query, fragment);
    FragmentReads(scheme, authority + "?" + query, fragment);
  }

  lemma BodyReadsHost(userinfo: string, host: string, port: nat, query: string, fragment: string)
    requires GoodPart(userinfo) && GoodHost(host) && GoodPart(query)
    ensures var body := Authority(userinfo, host, port) + "?" + query + "#" + fragment;
            Before(AfterLast(Before(Before(body, '#'), '?'), '@'), '/') == host + ":" + DecText(port)
  {
    AuthorityIsGood(userinfo, host, port);
    UriCuts(Authority(userinfo, host, port), query, fragment);
    AuthorityReads(userinfo, host, port);
  }

  lemma TitleReads(title: string)
    requires Stripped(title)
    ensures Strip(Unquote(Quote(title))) == title && GoodPart(Quote(title))
  {
    QuoteRoundTrip(title);
    QuotedIsGood(Quote(title));
    StripIsIdentity(title);
  }

  /** A link with these parts is read back: the same scheme, host, port and label, and
      the country the label names. */
  lemma UriRoundTrip(scheme: string, userinfo: string, host: string, port: nat, query: string, title: string,
                     names: string -> string)
    requires GoodScheme(scheme) && GoodPart(userinfo) && GoodHost(host) && GoodPart(query) && Stripped(title)
    ensures ParseLink(Uri(scheme, userinfo, host, port, query, Quote(title)), names)
         == Some(Link(scheme, host, port, title, FlagOf(Code(title, names)), Code(title, names)))
  {
    hide Uri, Authority, GoodPart, GoodHost, Find, Before, After, AfterLast, Strip, Lower, Unquote, Quote, Code,
         SchemeLength, HostAndPort, PortOf, DecText, Stripped;
    var fragment := Quote(title);
    TitleReads(title);
    UriReads(scheme, userinfo, host, port, query, fragment);
    UriFragmentReads(scheme, userinfo, host, port, query, fragment);
    BodyReadsHost(userinfo, host, port, query, fragment);
    AuthorityReads(userinfo, host, port);
    HostReads(host);
    PortRoundTrip(port);
  }

  // ------------------------------------------------------------------- the builders

  lemma QuotedIsGood(t: string)
    requires QuotedText(t)
    ensures GoodPart(t)
  {
  }

  predicate QueryText(t: string) {
    forall i | 0 <= i < |t| :: Unreserved(t[i]) || t[i] == '%' || t[i] == '+' || t[i] == '=' || t[i] == '&'
  }

  lemma QueryTextConcat(a: string, b: string)
    requires QueryText(a) && QueryText(b)
    ensures QueryText(a + b)
  {
  }

  lemma {:induction false} QuotePlusIsText(bs: seq<Byte>)
    ensures QueryText(QuotePlusBytes(bs))
  {
    if bs != [] {
      QuotePlusIsText(bs[1..]);
      QueryTextConcat(if bs[0] == 32 then "+" else QuoteByte(bs[0]), QuotePlusBytes(bs[1..]));
    }
  }

  lemma {:induction false} ParamsAreText(query: seq<Param>)
    ensures QueryText(Params(query))
  {
    if query != [] {
      var key, value, rest := QuotePlus(query[0].key), QuotePlus(query[0].value), Params(query[1..]);
      ParamsAreText(query[1..]);
      QuotePlusIsText(Encode(query[0].key));
      QuotePlusIsText(Encode(query[0].value));
      QueryTextConcat(key, "=");
      QueryTextConcat(key + "=", value);
      QueryTextConcat("&", rest);
      QueryTextConcat(key + "=" + value, if rest == "" then "" else "&" + rest);
    }
  }

  lemma ParamsAreGood(query: seq<Param>)
    ensures GoodPart(Params(query)) && Visible(Params(query))
  {
    ParamsAreText(query);
  }

  predicate Visible(s: string) {
    forall i | 0 <= i < |s| :: '!' <= s[i] <= '~'
  }

  lemma {:induction false} UrlSafeIsGood(s: string)
    requires forall i | 0 <= i < |s| :: '+' <= s[i] <= 'z' && s[i] != ':' && s[i] != '<'
    ensures forall i | 0 <= i < |UrlSafe(s)| :: UrlSafe(s)[i] != '#' && UrlSafe(s)[i] > ' ' && UrlSafe(s)[i] <= 'z'
    ensures Lacks(s, '?') ==> Lacks(UrlSafe(s), '?')
  {
    if s != "" {
      UrlSafeIsGood(s[1..]);
    }
  }

  lemma {:induction false} Base64HasNoMark(bs: seq<Byte>)
    ensures Lacks(Base64Encode(bs), '?')
  {
    if |bs| > 2 {
      Base64HasNoMark(bs[3..]);
    }
  }

  lemma UserInfoIsGood(p: Protocol, user: User, e: Endpoint)
    requires p.Vless? ==> GoodPart(user.uuid)
    ensures GoodPart(UserInfo(p, user, e))
  {
    match p
    case Vless =>
    case Shadowsocks =>
      var bs := Encode(e.cipher + ":" + e.secret);
      Base64IsText(bs);
      Base64HasNoMark(bs);
      UrlSafeIsGood(Base64Encode(bs));
    case _ =>
      QuoteRoundTrip(user.uuid);
      QuotedIsGood(Quote(user.uuid));
  }

  /** Every builder's link is read back. Only VLESS prints the credential unquoted. */
  lemma ShareLinkRoundTrip(p: Protocol, user: User, e: Endpoint, title: string, names: string -> string)
    requires GoodHost(e.host) && Stripped(title) && (p.Vless? ==> GoodPart(user.uuid))
    ensures ParseLink(ShareLink(p, user, e, title), names)
         == Some(Link(Scheme(p), e.host, e.port, title, FlagOf(Code(title, names)), Code(title, names)))
  {
    SchemesAreGood(p);
    UserInfoIsGood(p, user, e);
    ParamsAreGood(Query(p, user, e));
    UriRoundTrip(Scheme(p), UserInfo(p, user, e), e.host, e.port, Params(Query(p, user, e)), title, names);
  }

  // --------------------------------------------------------------------- the country

  predicate CountryCode(cc: string) {
    |cc| == 2 && IsLetter(cc[0]) && IsLetter(cc[1])
  }

  predicate NoFlag(s: string) {
    forall i | 0 <= i < |s| :: !IsIndicator(s[i])
  }

  lemma {:induction false} FirstFlagFound(before: string, cc: string, after: string)
    requires NoFlag(before) && CountryCode(cc)
    ensures EmojiFrom(before + FlagOf(cc) + after, "") == cc
  {
    var f := FlagOf(cc);
    var t := before + f + after;
    if before == "" {
      assert t[0] == f[0] && t[1] == f[1];
      assert LetterOf(f[0]) == cc[0] && LetterOf(f[1]) == cc[1];
      assert t[1..][0] == t[1];
      assert [cc[0]] + [cc[1]] == cc;
      assert "" + [cc[0]] == [cc[0]];
    } else {
      assert t[1..] == before[1..] + f + after;
      FirstFlagFound(before[1..], cc, after);
    }
  }

  lemma LowerKeepsFlags(before: string, cc: string, after: string)
    requires NoFlag(before) && CountryCode(cc)
    ensures Lower(before + FlagOf(cc) + after) == Lower(before) + FlagOf(cc) + Lower(after)
    ensures NoFlag(Lower(before))
  {
    var t := before + FlagOf(cc) + after;
    assert forall i | 0 <= i < |FlagOf(cc)| :: LowerChar(FlagOf(cc)[i]) == FlagOf(cc)[i];
  }

  /** The country of a label is that of its first flag. */
  lemma CountryFromFlag(before: string, cc: string, after: string, names: string -> string)
    requires NoFlag(before) && CountryCode(cc) && Stripped(before + FlagOf(cc) + after)
    ensures Code(before + FlagOf(cc) + after, names) == cc
  {
    StripIsIdentity(before + FlagOf(cc) + after);
    LowerKeepsFlags(before, cc, after);
    FirstFlagFound(Lower(before), cc, Lower(after));
  }

  lemma FlagIsNoSpace(cc: string)
    requires CountryCode(cc)
    ensures forall i | 0 <= i < 2 :: !IsSpace(FlagOf(cc)[i])
  {
  }

  /** The label of a flagged node: what stands before its flag and behind it. */
  lemma LabelHasFlag(prefix: string, cc: string, name: string, tag: string)
    requires CountryCode(cc) && name != "" && Stripped(name)
    ensures var f := FlagOf(cc);
            var before := if prefix == "" then "" else prefix + " · ";
            var after := " " + name + (if tag == "" then "" else " · " + tag);
            LabelOf(prefix, NodeLabel(f, name), tag) == before + f + after
  {
    hide FlagOf, Strip, LabelOf;
    var f := FlagOf(cc);
    FlagIsNoSpace(cc);
    var node := f + " " + name;
    assert node[0] == f[0] && node[|node| - 1] == name[|name| - 1];
    StripIsIdentity(node);
    PartsJoined(prefix, node, tag);
    assert tag != "" ==> " " + name + " · " + tag == " " + name + (" · " + tag);
  }

  lemma PartsJoined(prefix: string, node: string, tag: string)
    requires node != ""
    ensures LabelOf(prefix, node, tag)
         == (if prefix == "" then "" else prefix + " · ") + node + (if tag == "" then "" else " · " + tag)
  {
    var last := if tag == "" then [] else [tag];
    var tail := [node] + last;
    assert tail[1..] == last && ([prefix] + tail)[1..] == tail;
    assert [prefix] + [node] + last == [prefix] + tail && [] + [node] + last == tail;
    assert JoinDots(tail) == if tag == "" then node else node + " · " + tag;
  }

  /** End to end: a node's link names its own country when read back, unless the prefix
      puts another flag in front. */
  lemma LinkCarriesCountry(p: Protocol, user: User, e: Endpoint, prefix: string, cc: string, name: string,
                           tag: string, names: string -> string)
    requires GoodHost(e.host) && (p.Vless? ==> GoodPart(user.uuid))
    requires CountryCode(cc) && name != "" && Stripped(name) && NoFlag(prefix)
    requires Stripped(prefix) && Stripped(tag)
    ensures var title := LabelOf(prefix, NodeLabel(FlagOf(cc), name), tag);
            ParseLink(ShareLink(p, user, e, title), names)
            == Some(Link(Scheme(p), e.host, e.port, title, FlagOf(cc), cc))
  {
    hide ShareLink, ParseLink, LabelOf, NodeLabel, Code, GoodHost, GoodPart, FlagOf;
    var f := FlagOf(cc);
    var before := if prefix == "" then "" else prefix + " · ";
    var after := " " + name + (if tag == "" then "" else " · " + tag);
    var title := before + f + after;
    LabelHasFlag(prefix, cc, name, tag);
    FlagIsNoSpace(cc);
    assert Stripped(title) by {
      assert title[0] == if prefix == "" then f[0] else prefix[0];
      assert title[|title| - 1] == if tag == "" then name[|name| - 1] else tag[|tag| - 1];
    }
    assert NoFlag(before);
    hide Stripped, NoFlag, CountryCode;
    CountryFromFlag(before, cc, after, names);
    ShareLinkRoundTrip(p, user, e, title, names);
  }

  // --------------------------------------------------------------- the subscription

  function Body(lines: seq<string>): string {
    if lines == [] then "" else lines[0] + "\n" + Body(lines[1..])
  }

  /** The body as the generator joins it; without lines it is a lone line break. */
  function Rendered(lines: seq<string>): string {
    if lines == [] then "\n" else Body(lines)
  }

  /** Printable ASCII without spaces, with the mark of a link. */
  predicate LinkText(s: string) {
    s != "" && LooksLikeLink(s) && Alphanumeric(s[0]) && forall i | 0 <= i < |s| :: '!' <= s[i] <= '~'
  }

  predicate LinkTexts(lines: seq<string>) {
    forall i | 0 <= i < |lines| :: LinkText(lines[i])
  }

  lemma {:induction false} LineLengthIs(line: string, more: string)
    requires forall i | 0 <= i < |line| :: '!' <= line[i] <= '~'
    ensures LineLength(line) == |line|
    ensures LineLength(line + "\n" + more) == |line|
  {
    var t := line + "\n" + more;
    if line != "" {
      assert t[1..] == line[1..] + "\n" + more;
      LineLengthIs(line[1..], more);
    }
  }

  lemma LinkTextReads(line: string)
    requires LinkText(line)
    ensures Strip(line) == line != ""
  {
    StripIsIdentity(line);
  }

  lemma OneLineReads(line: string, more: string)
    requires LinkText(line)
    ensures LinkLines(SplitLines(line + "\n" + more)) == [line] + LinkLines(SplitLines(more))
    ensures LinkLines(SplitLines(line)) == [line]
  {
    var t := line + "\n" + more;
    LineLengthIs(line, more);
    LinkTextReads(line);
    assert t[..|line|] == line && t[|line| + 1..] == more;
    assert [line][1..] == [] && ([line] + SplitLines(more))[1..] == SplitLines(more);
  }

  /** Whole lines come back. */
  lemma {:induction false} BodyReads(lines: seq<string>)
    requires LinkTexts(lines)
    ensures LinkLines(SplitLines(Body(lines))) == lines
  {
    if lines != [] {
      OneLineReads(lines[0], Body(lines[1..]));
      BodyReads(lines[1..]);
      assert lines == [lines[0]] + lines[1..];
    }
  }

  lemma CutLast(line: string, b: string)
    requires b != ""
    ensures var t := line + "\n" + b; t[..|t| - 1] == line + "\n" + b[..|b| - 1]
  {
  }

  /** Also without the last line break. */
  lemma {:induction false} CutBodyReads(lines: seq<string>)
    requires LinkTexts(lines) && lines != []
    ensures Body(lines) != ""
    ensures LinkLines(SplitLines(Body(lines)[..|Body(lines)| - 1])) == lines
  {
    hide LinkText, LinkLines, SplitLines;
    var line, tail := lines[0], lines[1..];
    var cut := Body(lines)[..|Body(lines)| - 1];
    if tail == [] {
      OneLineReads(line, "");
      assert Body(tail) == "";
      assert Body(lines) == line + "\n";
      assert cut == line;
      assert lines == [line];
    } else {
      CutBodyReads(tail);
      var more := Body(tail)[..|Body(tail)| - 1];
      CutLast(line, Body(tail));
      OneLineReads(line, more);
      assert lines == [line] + tail;
    }
  }

  lemma {:induction false} BodyShape(lines: seq<string>)
    requires LinkTexts(lines) && lines != []
    ensures var b := Body(lines);
            && |b| >= 2 && b[0] == lines[0][0] && b[|b| - 1] == '\n' && '!' <= b[|b| - 2] <= '~'
            && lines[0] <= b && Ascii(b)
  {
    var line, tail := lines[0], lines[1..];
    if tail != [] {
      BodyShape(tail);
    }
  }

  lemma StripLastBreak(b: string)
    requires |b| >= 2 && b[|b| - 1] == '\n' && !IsSpace(b[0]) && !IsSpace(b[|b| - 2])
    ensures Strip(b) == b[..|b| - 1]
  {
    var cut := b[..|b| - 1];
    assert cut[|cut| - 1] == b[|b| - 2];
    assert RStrip(cut) == cut;
  }

  lemma LinkMarkStays(line: string, b: string)
    requires LinkText(line) && line <= b
    ensures LooksLikeLink(b)
  {
    var i :| 0 <= i < |line| - 2 && MarkAt(line, i);
    assert MarkAt(b, i);
  }

  lemma NotHtml(raw: string)
    requires raw != "" && raw[0] != '<'
    ensures !IsHtml(raw)
  {
    assert Lower(raw)[0] == LowerChar(raw[0]) != '<';
  }

  /** The links come back in order from a plain body. */
  lemma PlainBodyRoundTrip(lines: seq<string>)
    requires LinkTexts(lines)
    ensures DecodeSubscription(Rendered(lines)) == lines
  {
    if lines != [] {
      var b := Body(lines);
      BodyShape(lines);
      hide Body, LinkText, LinkLines, SplitLines, LooksLikeLink, IsHtml, Strip, StandardAlphabet;
      StripLastBreak(b);
      var raw := b[..|b| - 1];
      NotHtml(raw);
      assert lines[0] <= raw;
      LinkMarkStays(lines[0], raw);
      CutBodyReads(lines);
    } else {
      assert Strip("\n") == "";
    }
  }

  lemma {:induction false} StandardIsIdentity(s: string)
    requires forall i | 0 <= i < |s| :: s[i] != '-' && s[i] != '_'
    ensures StandardAlphabet(s) == s
  {
    if s != "" {
      StandardIsIdentity(s[1..]);
    }
  }

  lemma DecodedIs(s: string, bs: seq<Byte>)
    requires s != "" && Strip(s) == s && !IsHtml(s) && !LooksLikeLink(s)
    requires StandardAlphabet(s) == s && |s| % 4 == 0 && Ascii(s) && Base64Decode(s) == Some(bs)
    ensures DecodeSubscription(s) == LinkLines(SplitLines(Decode(bs)))
  {
    assert Padding(|s|) == "" && s + "" == s;
  }

  lemma EncodedIsNonEmpty(text: string)
    requires text != ""
    ensures Encode(text) != []
  {
  }

  lemma EncodedTextReads(text: string)
    requires text != ""
    ensures DecodeSubscription(Base64Encode(Encode(text))) == LinkLines(SplitLines(text))
  {
    hide Encode, Decode, LinkLines, SplitLines, DecodeSubscription;
    var bs := Encode(text);
    EncodedIsNonEmpty(text);
    var s := Base64Encode(bs);
    Base64IsText(bs);
    StripIsIdentity(s);
    NotHtml(s);
    StandardIsIdentity(s);
    Base64RoundTrip(bs);
    Utf8RoundTrip(text);
    DecodedIs(s, bs);
  }

  /** And from the base64 form of the same body. */
  lemma Base64BodyRoundTrip(lines: seq<string>)
    requires LinkTexts(lines)
    ensures DecodeSubscription(Base64Encode(Encode(Rendered(lines)))) == lines
  {
    EncodedTextReads(Rendered(lines));
    if lines != [] {
      BodyReads(lines);
    } else {
      assert LineLength("\n") == 0;
      assert "\n"[..0] == "" && "\n"[1..] == "";
      assert SplitLines("\n") == [""] + SplitLines("");
      assert LinkLines([""]) == LinkLines([""][1..]);
    }
  }

  // ---------------------------------------------------------------------- the import

  predicate DistinctKeys(links: seq<Link>) {
    forall i, j | 0 <= i < j < |links| :: Key(links[i]) != Key(links[j])
  }

  /** The links of the lines that parse. */
  function Parsed(lines: seq<string>, names: string -> string): seq<Link> {
    if lines == [] then [] else ParsedLine(lines[0], names) + Parsed(lines[1..], names)
  }

  function ParsedLine(line: string, names: string -> string): seq<Link> {
    var p := ParseLink(line, names);
    if p.Some? then [p.value] else []
  }

  /** The links whose host and port no earlier one has. */
  function FirstOfEach(links: seq<Link>): seq<Link> {
    if links == [] then []
    else
      var n := |links| - 1;
      FirstOfEach(links[..n]) + if Seen(links[..n], Key(links[n])) then [] else [links[n]]
  }

  lemma FirstSnoc(links: seq<Link>, l: Link)
    ensures FirstOfEach(links + [l]) == FirstOfEach(links) + if Seen(links, Key(l)) then [] else [l]
  {
    hide Seen, Key;
    assert (links + [l])[..|links|] == links;
  }

  lemma SeenSnoc(links: seq<Link>, l: Link, key: string)
    ensures Seen(links + [l], key) <==> Seen(links, key) || Key(l) == key
  {
    hide Key;
    var more := links + [l];
    assert forall i | 0 <= i < |links| :: more[i] == links[i];
    assert more[|links|] == l;
  }

  lemma DistinctSnoc(links: seq<Link>, l: Link)
    ensures DistinctKeys(links + [l]) <==> DistinctKeys(links) && !Seen(links, Key(l))
  {
    hide Key;
    var more := links + [l];
    assert forall i | 0 <= i < |links| :: more[i] == links[i];
    assert more[|links|] == l;
  }

  /** No host and port is lost, and none is repeated. */
  lemma {:induction false} FirstOfEachKeys(links: seq<Link>, key: string)
    ensures Seen(FirstOfEach(links), key) <==> Seen(links, key)
  {
    hide *;
    if links == [] {
      NoLinks(key);
    } else {
      var before, l := links[..|links| - 1], links[|links| - 1];
      FirstOfEachKeys(before, key);
      assert links == before + [l];
      FirstSnoc(before, l);
      SeenSnoc(before, l, key);
      SeenSnoc(FirstOfEach(before), l, key);
      assert FirstOfEach(before) + [] == FirstOfEach(before);
    }
  }

  lemma {:induction false} FirstOfEachDiffer(links: seq<Link>)
    ensures DistinctKeys(FirstOfEach(links))
  {
    hide *;
    if links == [] {
      NoLinks("");
    } else {
      var before, l := links[..|links| - 1], links[|links| - 1];
      FirstOfEachDiffer(before);
      assert links == before + [l];
      FirstSnoc(before, l);
      FirstOfEachKeys(before, Key(l));
      DistinctSnoc(FirstOfEach(before), l);
      assert FirstOfEach(before) + [] == FirstOfEach(before);
    }
  }

  predicate EarliestAt(links: seq<Link>, j: nat, l: Link) {
    j < |links| && links[j] == l && !Seen(links[..j], Key(l))
  }

  lemma EarliestBefore(links: seq<Link>, last: Link, j: nat, l: Link)
    requires j < |links|
    ensures EarliestAt(links + [last], j, l) <==> EarliestAt(links, j, l)
  {
    hide Seen, Key;
    assert (links + [last])[..j] == links[..j];
  }

  lemma EarliestLast(links: seq<Link>, last: Link, l: Link)
    ensures EarliestAt(links + [last], |links|, l) <==> l == last && !Seen(links, Key(l))
  {
    hide Seen, Key;
    assert (links + [last])[..|links|] == links;
  }

  lemma EarliestIsInside(links: seq<Link>, l: Link)
    ensures forall j: nat :: EarliestAt(links, j, l) ==> j < |links|
  {
  }

  /** Each one kept is the earliest with its host and port. */
  lemma {:induction false} FirstOfEachIsEarliest(links: seq<Link>, l: Link)
    ensures l in FirstOfEach(links) <==> exists j :: EarliestAt(links, j, l)
  {
    hide Key, Seen;
    if links != [] {
      var before, last := links[..|links| - 1], links[|links| - 1];
      FirstOfEachIsEarliest(before, l);
      hide FirstOfEach, EarliestAt;
      assert links == before + [last];
      FirstSnoc(before, last);
      EarliestLast(before, last, l);
      EarliestIsInside(links, l);
      forall j: nat | j < |before|
        ensures EarliestAt(links, j, l) <==> EarliestAt(before, j, l)
      {
        EarliestBefore(before, last, j, l);
      }
      EarliestIsInside(before, l);
    }
  }

  /** Nothing is dropped exactly when all hosts and ports differ. */
  lemma {:induction false} FirstOfEachIsAll(links: seq<Link>)
    ensures FirstOfEach(links) == links <==> DistinctKeys(links)
    ensures |FirstOfEach(links)| <= |links|
  {
    hide *;
    if links == [] {
      NoLinks("");
    } else {
      var before, l := links[..|links| - 1], links[|links| - 1];
      FirstOfEachIsAll(before);
      assert links == before + [l];
      FirstSnoc(before, l);
      DistinctSnoc(before, l);
      SameButLast(FirstOfEach(before), before, l);
    }
  }

  lemma SameButLast(a: seq<Link>, b: seq<Link>, l: Link)
    ensures a + [l] == b + [l] <==> a == b
  {
    if a + [l] == b + [l] {
      assert (a + [l])[..|a|] == a && (b + [l])[..|b|] == b;
    }
  }

  /** One turn of the loop over the lines. */
  lemma EntriesStep(before: seq<Link>, lines: seq<string>, names: string -> string)
    requires lines != []
    ensures EntriesFrom(FirstOfEach(before), lines, names)
         == EntriesFrom(FirstOfEach(before + ParsedLine(lines[0], names)), lines[1..], names)
    ensures Parsed(lines, names) == ParsedLine(lines[0], names) + Parsed(lines[1..], names)
  {
    hide ParseLink, FirstOfEach, Seen, Key;
    var p := ParseLink(lines[0], names);
    if p.Some? {
      FirstSnoc(before, p.value);
      FirstOfEachKeys(before, Key(p.value));
      assert FirstOfEach(before) + [] == FirstOfEach(before);
    } else {
      assert before + [] == before;
    }
  }

  lemma NothingLeft(before: seq<Link>, names: string -> string)
    ensures EntriesFrom(FirstOfEach(before), [], names) == FirstOfEach(before + Parsed([], names))
  {
    hide FirstOfEach;
    assert before + [] == before;
  }

  lemma {:induction false} ImportFrom(before: seq<Link>, lines: seq<string>, names: string -> string)
    ensures EntriesFrom(FirstOfEach(before), lines, names) == FirstOfEach(before + Parsed(lines, names))
    decreases |lines|
  {
    hide *;
    if lines == [] {
      NothingLeft(before, names);
    } else {
      var own, rest := ParsedLine(lines[0], names), Parsed(lines[1..], names);
      EntriesStep(before, lines, names);
      ImportFrom(before + own, lines[1..], names);
      assert before + (own + rest) == before + own + rest;
    }
  }

  /** What is imported from any lines: of those that parse, in order, the first of each
      host and port. */
  lemma EntriesReadAll(lines: seq<string>, names: string -> string)
    ensures EntriesFrom([], lines, names) == FirstOfEach(Parsed(lines, names))
  {
    hide *;
    NoLinks("");
    ImportFrom([], lines, names);
    assert [] + Parsed(lines, names) == Parsed(lines, names);
  }

  lemma {:induction false} ParsedIs(lines: seq<string>, links: seq<Link>, names: string -> string)
    requires |lines| == |links| && forall i | 0 <= i < |lines| :: ParseLink(lines[i], names) == Some(links[i])
    ensures Parsed(lines, names) == links
  {
    hide ParseLink;
    if lines != [] {
      assert forall i | 0 <= i < |lines[1..]| :: lines[1..][i] == lines[i + 1] && links[1..][i] == links[i + 1];
      ParsedIs(lines[1..], links[1..], names);
      assert links == [links[0]] + links[1..];
    }
  }

  /** What a subscription entry is printed from. */
  datatype Printed = Printed(p: Protocol, user: User, e: Endpoint, title: string)

  predicate Printable(x: Printed) {
    && GoodHost(x.e.host) && (forall i | 0 <= i < |x.e.host| :: '!' <= x.e.host[i] <= '~')
    && Stripped(x.title)
    && (x.p.Vless? ==> GoodPart(x.user.uuid) && forall i | 0 <= i < |x.user.uuid| :: '!' <= x.user.uuid[i] <= '~')
  }

  function LinkOf(x: Printed): string {
    ShareLink(x.p, x.user, x.e, x.title)
  }

  function LinkFor(x: Printed, names: string -> string): Link {
    Link(Scheme(x.p), x.e.host, x.e.port, x.title, FlagOf(Code(x.title, names)), Code(x.title, names))
  }

  lemma UrlSafeIsVisible(bs: seq<Byte>)
    ensures Visible(UrlSafe(Base64Encode(bs)))
  {
    Base64IsText(bs);
    hide Base64Encode, UrlSafe;
    UrlSafeIsGood(Base64Encode(bs));
  }

  lemma QuotedIsVisible(t: string)
    ensures Visible(Quote(t))
  {
    QuoteRoundTrip(t);
    hide Quote, Unquote;
  }

  lemma UserInfoIsVisible(x: Printed)
    requires Printable(x)
    ensures Visible(UserInfo(x.p, x.user, x.e))
  {
    match x.p
    case Vless =>
    case Shadowsocks =>
      var bs := Encode(x.e.cipher + ":" + x.e.secret);
      hide Encode, Base64Encode, UrlSafe;
      UrlSafeIsVisible(bs);
    case _ =>
      QuotedIsVisible(x.user.uuid);
  }

  lemma LinkIsText(x: Printed)
    requires Printable(x)
    ensures LinkText(LinkOf(x))
  {
    var scheme := Scheme(x.p);
    var uri := LinkOf(x);
    SchemesAreGood(x.p);
    UserInfoIsVisible(x);
    ParamsAreGood(Query(x.p, x.user, x.e));
    QuoteRoundTrip(x.title);
    UriIsVisible(scheme, UserInfo(x.p, x.user, x.e), x.e.host, x.e.port, Params(Query(x.p, x.user, x.e)), Quote(x.title));
    UriShape(scheme, UserInfo(x.p, x.user, x.e), x.e.host, x.e.port, Params(Query(x.p, x.user, x.e)), Quote(x.title));
    assert MarkAt(uri, |scheme|);
    assert uri[0] == scheme[0];
  }

  lemma UriIsVisible(scheme: string, userinfo: string, host: string, port: nat, query: string, fragment: string)
    requires Visible(scheme) && Visible(userinfo) && Visible(host) && Visible(query) && Visible(fragment)
    ensures Visible(Uri(scheme, userinfo, host, port, query, fragment))
  {
    assert Visible(DecText(port));
  }

  function LinksOf(items: seq<Printed>): (lines: seq<string>)
    ensures |lines| == |items| && forall i | 0 <= i < |items| :: lines[i] == LinkOf(items[i])
  {
    seq(|items|, i requires 0 <= i < |items| => LinkOf(items[i]))
  }

  function LinksFor(items: seq<Printed>, names: string -> string): (links: seq<Link>)
    ensures |links| == |items| && forall i | 0 <= i < |items| :: links[i] == LinkFor(items[i], names)
  {
    seq(|items|, i requires 0 <= i < |items| => LinkFor(items[i], names))
  }

  /** The import of a subscription as printed plain, and as base64. */
  function Imported(items: seq<Printed>, names: string -> string): seq<Link> {
    EntriesFrom([], DecodeSubscription(Rendered(LinksOf(items))), names)
  }

  function ImportedBase64(items: seq<Printed>, names: string -> string): seq<Link> {
    EntriesFrom([], DecodeSubscription(Base64Encode(Encode(Rendered(LinksOf(items))))), names)
  }

  /** A whole subscription, printed plain or as base64, imports as the first entry of
      each host and port, in order, with its label and country; so everything comes
      back exactly when no two entries share a host and port. */
  lemma SubscriptionRoundTrip(items: seq<Printed>, names: string -> string)
    requires forall i | 0 <= i < |items| :: Printable(items[i])
    ensures Imported(items, names) == ImportedBase64(items, names) == FirstOfEach(LinksFor(items, names))
    ensures Imported(items, names) == LinksFor(items, names) <==> DistinctKeys(LinksFor(items, names))
  {
    var lines, links := LinksOf(items), LinksFor(items, names);
    forall i | 0 <= i < |items|
      ensures LinkText(lines[i]) && ParseLink(lines[i], names) == Some(links[i])
    {
      LinkIsText(items[i]);
      ShareLinkRoundTrip(items[i].p, items[i].user, items[i].e, items[i].title, names);
    }
    hide *;
    PlainBodyRoundTrip(lines);
    Base64BodyRoundTrip(lines);
    ParsedIs(lines, links, names);
    EntriesReadAll(lines, names);
    FirstOfEachIsAll(links);
  }

  /** Two transports of one node share its host and port: only the first comes back. */
  lemma OneEndpointImportsOnce(a: Printed, b: Printed, names: string -> string)
    requires Printable(a) && Printable(b) && a.e.host == b.e.host && a.e.port == b.e.port
    ensures Imported([a, b], names) == [LinkFor(a, names)]
  {
    hide *;
    var x, y := LinkFor(a, names), LinkFor(b, names);
    SubscriptionRoundTrip([a, b], names);
    PairOfLinks(a, b, names);
    FirstSnoc([], x);
    FirstSnoc([] + [x], y);
    SeenSnoc([], x, Key(y));
    NoLinks(Key(x));
  }

  /** The links of two entries; on one endpoint they have one key. */
  lemma PairOfLinks(a: Printed, b: Printed, names: string -> string)
    ensures LinksFor([a, b], names) == [] + [LinkFor(a, names)] + [LinkFor(b, names)]
    ensures a.e.host == b.e.host && a.e.port == b.e.port ==> Key(LinkFor(a, names)) == Key(LinkFor(b, names))
  {
    hide Scheme, Code, FlagOf;
  }

  lemma NoLinks(key: string)
    ensures FirstOfEach([]) == [] && !Seen([], key) && DistinctKeys([])
  {
  }
}
