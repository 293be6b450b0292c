/** What the importer makes of links and bodies that were not printed here: other hosts,
    missing parts, other spellings, other line ends. */
module LinkImport {
  import opened Text
  import opened Codecs
  import opened Links
  import opened LinkRoundTrip
  import opened LinkParts

  // ------------------------------------------------------------------------ one link

  /** Where a link leads: a name or an IPv6 literal in brackets, and maybe a port. */
  datatype Where = Named(host: string, port: Option<string>) | Bracketed(host: string, port: Option<string>)

  /** The parts of a link. */
  datatype Raw = Raw(scheme: string, user: Option<string>, where: Where, path: string,
                     query: Option<string>, fragment: Option<string>)

  function Behind(mark: string, part: Option<string>): string {
    if part.Some? then mark + part.value else ""
  }

  function OrEmpty(part: Option<string>): string {
    if part.Some? then part.value else ""
  }

  function WhereText(w: Where): string {
    match w
    case Named(host, port) => host + Behind(":", port)
    case Bracketed(host, port) => "[" + host + ("]" + Behind(":", port))
  }

  function RawText(r: Raw): string {
    r.scheme + ":" + ("//" + RawBody(r))
  }

  function RawAuthority(r: Raw): string {
    (if r.user.Some? then r.user.value + "@" else "") + (WhereText(r.where) + r.path)
  }

  function RawBody(r: Raw): string {
    RawAuthority(r) + Behind("?", r.query) + Behind("#", r.fragment)
  }

  /** No host part is mistaken for another. */
  predicate GoodWhere(w: Where) {
    && Lacks(WhereText(w), '@') && Lacks(WhereText(w), '/')
    && (w.host == "" || w.host[0] != '[')
    && (if w.Named? then Lacks(w.host, ':') else Lacks(w.host, ']'))
    && (w.port.Some? && w.port.value != "" ==> w.port.value[0] != ':')
  }

  /** Each part is free of the marks that would end it, and there is no white space. */
  predicate GoodRaw(r: Raw) {
    && 2 <= |r.scheme| <= 12 && (forall i | 0 <= i < |r.scheme| :: Alphanumeric(r.scheme[i]))
    && GoodWhere(r.where)
    && (r.path == "" || r.path[0] == '/') && Lacks(r.path, '@')
    && Lacks(RawAuthority(r), '?') && Lacks(RawAuthority(r), '#')
    && Lacks(OrEmpty(r.query), '#')
    && RawBody(r) != "" && forall i | 0 <= i < |RawBody(r)| :: !IsSpace(RawBody(r)[i])
  }

  lemma WholeIsKept(s: string, c: char)
    requires Lacks(s, c)
    ensures Before(s, c) == s && After(s, c) == "" && AfterLast(s, c) == s
  {
    NothingToCut(s, c);
    WholeHasNoRest(s, c);
  }

  lemma OptionalCut(head: string, mark: char, part: Option<string>)
    requires Lacks(head, mark)
    ensures var s := head + Behind([mark], part); Before(s, mark) == head && After(s, mark) == OrEmpty(part)
  {
    if part.Some? {
      CutAt(head, mark, part.value);
      assert head + ([mark] + part.value) == head + [mark] + part.value;
    } else {
      WholeIsKept(head, mark);
      assert head + "" == head;
    }
  }

  lemma DropNone(s: string, c: char)
    requires s == "" || s[0] != c
    ensures DropLeading(s, c) == s && DropLeading([c] + s, c) == s
  {
    assert ([c] + s)[1..] == s;
  }

  /** Host and port are told apart, in both forms. */
  lemma WhereReads(w: Where)
    requires GoodWhere(w)
    ensures HostAndPort(WhereText(w)) == (w.host, OrEmpty(w.port))
  {
    match w
    case Named(host, port) =>
      OptionalCut(host, ':', port);
      assert WhereText(w) != "" ==> WhereText(w)[0] != '[' by {
        assert host != "" ==> WhereText(w)[0] == host[0];
      }
    case Bracketed(host, port) =>
      var t := WhereText(w);
      assert Lacks("[" + host, ']');
      CutAt("[" + host, ']', Behind(":", port));
      assert t == "[" + host + "]" + Behind(":", port);
      assert t[0] == '[';
      DropNone(host, '[');
      DropNone(OrEmpty(port), ':');
  }

  lemma UserIsSkipped(user: Option<string>, target: string)
    requires Lacks(target, '@')
    ensures AfterLast((if user.Some? then user.value + "@" else "") + target, '@') == target
  {
    if user.Some? {
      LastCut(user.value, '@', target);
    } else {
      WholeIsKept(target, '@');
      assert "" + target == target;
    }
  }

  lemma PathIsSkipped(where: string, path: string)
    requires Lacks(where, '/') && (path == "" || path[0] == '/')
    ensures Before(where + path, '/') == where
  {
    if path == "" {
      WholeIsKept(where, '/');
      assert where + path == where;
    } else {
      CutAt(where, '/', path[1..]);
      assert where + path == where + "/" + path[1..];
    }
  }

  /** Without the user part, before the first slash. */
  lemma AuthorityLeads(r: Raw)
    requires GoodWhere(r.where) && (r.path == "" || r.path[0] == '/') && Lacks(r.path, '@')
    ensures Before(AfterLast(RawAuthority(r), '@'), '/') == WhereText(r.where)
  {
    assert Lacks(WhereText(r.where) + r.path, '@');
    hide WhereText, Find, AfterLast, Lacks;
    UserIsSkipped(r.user, WhereText(r.where) + r.path);
    PathIsSkipped(WhereText(r.where), r.path);
  }

  lemma BodyCuts(r: Raw)
    requires Lacks(RawAuthority(r), '?') && Lacks(RawAuthority(r), '#') && Lacks(OrEmpty(r.query), '#')
    ensures Before(Before(RawBody(r), '#'), '?') == RawAuthority(r) && After(RawBody(r), '#') == OrEmpty(r.fragment)
  {
    var head := RawAuthority(r) + Behind("?", r.query);
    assert Lacks(head, '#');
    OptionalCut(head, '#', r.fragment);
    OptionalCut(RawAuthority(r), '?', r.query);
  }

  lemma AfterBehind(before: string, body: string, c: char)
    requires Lacks(before, c)
    ensures After(before + body, c) == After(body, c)
  {
    var n := Find(body, c);
    if n < |body| {
      var head, tail := body[..n], body[n + 1..];
      assert Lacks(before + head, c) && Lacks(head, c);
      hide Lacks;
      assert body == head + [c] + tail && before + body == before + head + [c] + tail;
      CutAt(head, c, tail);
      CutAt(before + head, c, tail);
    } else {
      assert Lacks(before + body, c) && Lacks(body, c);
      hide Lacks;
      WholeIsKept(body, c);
      WholeIsKept(before + body, c);
    }
  }

  /** The fragment is also found in the whole text. */
  lemma FragmentOf(scheme: string, body: string)
    requires forall i | 0 <= i < |scheme| :: Alphanumeric(scheme[i])
    ensures After(scheme + ":" + ("//" + body), '#') == After(body, '#')
  {
    assert Lacks(scheme + "://", '#');
    hide Lacks, Alphanumeric, After;
    AfterBehind(scheme + "://", body, '#');
    assert scheme + ":" + ("//" + body) == scheme + "://" + body;
  }

  lemma SchemeOf(r: Raw)
    requires GoodRaw(r)
    ensures var text := RawText(r);
            && Strip(text) == text && SchemeLength(text) == Some(|r.scheme|)
            && text[..|r.scheme|] == r.scheme && text[|r.scheme| + 3..] == RawBody(r)
  {
    var n, text, body := |r.scheme|, RawText(r), RawBody(r);
    AlphanumericIsNoMark(r.scheme);
    CutAt(r.scheme, ':', "//" + body);
    NoSpaceNoBreak(body);
    hide Find, Strip, SchemeLength, Alphanumeric, IsSpace, RawBody;
    assert text[..n] == r.scheme && text[n + 3..] == body && text[n + 1] == '/' && text[n + 2] == '/';
    assert forall i | 0 <= i < n :: text[i] == r.scheme[i];
    assert forall i | n + 3 <= i < |text| :: text[i] == body[i - n - 3];
    SchemeIsFound(text, n);
    assert text[|text| - 1] == body[|body| - 1] && text[0] == r.scheme[0];
    StripIsIdentity(text);
  }

  lemma AlphanumericIsNoMark(s: string)
    requires s != "" && forall i | 0 <= i < |s| :: Alphanumeric(s[i])
    ensures Lacks(s, ':') && !IsSpace(s[0])
  {
  }

  /** What is found in the text. */
  lemma RawFacts(r: Raw)
    requires GoodRaw(r)
    ensures var text := RawText(r);
            && Strip(text) == text && SchemeLength(text) == Some(|r.scheme|)
            && text[..|r.scheme|] == r.scheme && After(text, '#') == OrEmpty(r.fragment)
            && Before(AfterLast(Before(Before(text[|r.scheme| + 3..], '#'), '?'), '@'), '/') == WhereText(r.where)
            && HostAndPort(WhereText(r.where)) == (r.where.host, OrEmpty(r.where.port))
  {
    hide Strip, Find, Before, After, AfterLast, SchemeLength, HostAndPort, RawBody, RawAuthority, WhereText, IsSpace,
         Alphanumeric, GoodWhere, Lacks;
    SchemeOf(r);
    BodyCuts(r);
    FragmentOf(r.scheme, RawBody(r));
    AuthorityLeads(r);
    WhereReads(r.where);
  }

  /** Any link with these parts: the scheme and host in any case, the user part, path and
      query skipped, the default port where none or no number is given, the label from
      the fragment. A host without a dot, and `vmess`, are refused. */
  lemma RawReads(r: Raw, names: string -> string)
    requires GoodRaw(r)
    ensures var host, title := Lower(Strip(r.where.host)), Strip(Unquote(OrEmpty(r.fragment)));
            ParseLink(RawText(r), names)
            == if Lower(r.scheme) == "vmess" || Lacks(host, '.') then None
               else Some(Link(Lower(r.scheme), host, PortOf(OrEmpty(r.where.port)), title,
                              FlagOf(Code(title, names)), Code(title, names)))
  {
    hide GoodRaw, RawText, WhereText, Strip, Lower, Find, Before, After, AfterLast, SchemeLength, HostAndPort, PortOf,
         Code, FlagOf, Unquote, Lacks, OrEmpty;
    RawFacts(r);
    DotIsFound(Lower(Strip(r.where.host)));
  }

  lemma DotIsFound(host: string)
    ensures Lacks(host, '.') <==> host == "" || Find(host, '.') == |host|
  {
    if Lacks(host, '.') {
      NothingToCut(host, '.');
    }
  }

  // ------------------------------------------------------------------------ the port

  lemma DigitsAreClean(text: string)
    requires text != "" && AllDigits(text)
    ensures Stripped(text) && Unsigned(text) == text && UnderscoresBetweenDigits(text) && text[0] != '-'
  {
    assert IsDigit(text[0]) && IsDigit(text[|text| - 1]);
  }

  lemma DigitsAreAPort(text: string)
    requires text != "" && AllDigits(text)
    ensures PortOf(text) == DecValue(text)
  {
    hide Strip, Stripped, DecValue, WithoutUnderscores, AllDigits, Unsigned, UnderscoresBetweenDigits;
    DigitsAreClean(text);
    StripIsIdentity(text);
    DigitsHaveNoUnderscores(text);
  }

  /** A port is any decimal number, leading zeros included; everything else, and nothing
      at all, is the port of HTTPS. */
  lemma PortReads(text: string)
    ensures text != "" && AllDigits(text) ==> PortOf(text) == DecValue(text)
    ensures text == "" || HasLetter(text) ==> PortOf(text) == 443
  {
    if text != "" && AllDigits(text) {
      DigitsAreAPort(text);
    }
    if HasLetter(text) {
      LetterStays(text);
    }
    hide AllDigits, HasLetter, ParseInt, DecValue;
  }

  predicate HasLetter(s: string) {
    exists i | 0 <= i < |s| :: 'a' <= s[i] <= 'z' || 'A' <= s[i] <= 'Z'
  }

  lemma {:induction false} LetterSurvivesStrip(s: string)
    requires HasLetter(s)
    ensures HasLetter(Strip(s))
  {
    LeftStripLetter(s);
    RightStripLetter(LStrip(s));
  }

  lemma {:induction false} LeftStripLetter(s: string)
    requires HasLetter(s)
    ensures HasLetter(LStrip(s))
  {
    if IsSpace(s[0]) {
      var i :| 0 <= i < |s| && ('a' <= s[i] <= 'z' || 'A' <= s[i] <= 'Z');
      assert s[1..][i - 1] == s[i];
      LeftStripLetter(s[1..]);
    }
  }

  lemma {:induction false} RightStripLetter(s: string)
    requires HasLetter(s)
    ensures HasLetter(RStrip(s))
    decreases |s|
  {
    if IsSpace(s[|s| - 1]) {
      var i :| 0 <= i < |s| && ('a' <= s[i] <= 'z' || 'A' <= s[i] <= 'Z');
      assert s[..|s| - 1][i] == s[i];
      RightStripLetter(s[..|s| - 1]);
    }
  }

  lemma {:induction false} LetterWithoutUnderscores(s: string)
    requires HasLetter(s)
    ensures HasLetter(WithoutUnderscores(s))
  {
    var i :| 0 <= i < |s| && ('a' <= s[i] <= 'z' || 'A' <= s[i] <= 'Z');
    var rest := WithoutUnderscores(s[1..]);
    assert WithoutUnderscores(s) == if s[0] == '_' then rest else [s[0]] + rest;
    if i > 0 {
      assert s[1..][i - 1] == s[i];
      LetterWithoutUnderscores(s[1..]);
      var j :| 0 <= j < |rest| && ('a' <= rest[j] <= 'z' || 'A' <= rest[j] <= 'Z');
      var k := if s[0] == '_' then j else j + 1;
      assert WithoutUnderscores(s)[k] == rest[j];
    } else {
      assert WithoutUnderscores(s)[0] == s[0];
    }
  }

  lemma LetterStays(text: string)
    requires HasLetter(text)
    ensures ParseInt(text) == None
  {
    LetterSurvivesStrip(text);
    var t := Strip(text);
    var j :| 0 <= j < |t| && ('a' <= t[j] <= 'z' || 'A' <= t[j] <= 'Z');
    assert Unsigned(t) == t || (j > 0 && Unsigned(t)[j - 1] == t[j]);
    assert HasLetter(Unsigned(t));
    LetterWithoutUnderscores(Unsigned(t));
    var d := WithoutUnderscores(Unsigned(t));
    var k :| 0 <= k < |d| && ('a' <= d[k] <= 'z' || 'A' <= d[k] <= 'Z');
    assert !IsDigit(d[k]);
  }

  // --------------------------------------------------------------------- the country

  /** A label without a flag is looked up whole, trimmed and in lower case; a lone
      regional letter is taken for a code. */
  lemma FlaglessCode(value: string, names: string -> string)
    requires NoFlag(Lower(Strip(value)))
    ensures Code(value, names) == if Strip(value) == "" then "" else names(Lower(Strip(value)))
  {
    NoEmoji(Lower(Strip(value)));
  }

  lemma {:induction false} NoEmoji(text: string)
    requires NoFlag(text)
    ensures EmojiFrom(text, "") == ""
  {
    if text != "" {
      NoEmoji(text[1..]);
    }
  }

  lemma {:induction false} LoneLetter(before: string, c: char, after: string)
    requires NoFlag(before) && IsIndicator(c) && (after == "" || !IsIndicator(after[0]))
    ensures EmojiFrom(before + [c] + after, "") == [LetterOf(c)]
  {
    var t := before + [c] + after;
    if before == "" {
      assert t[0] == c && t[1..] == after && "" + [LetterOf(c)] == [LetterOf(c)];
    } else {
      assert t[1..] == before[1..] + [c] + after;
      LoneLetter(before[1..], c, after);
    }
  }

  // ------------------------------------------------------------------------ the body

  /** The line ends Python knows. */
  predicate IsLineBreak(t: string) {
    t == "\r\n" || (|t| == 1 && IsLineEnd(t[0]))
  }

  /** Lines with their ends behind them. */
  function Joined(lines: seq<string>, ends: seq<string>): string
    requires |lines| == |ends|
  {
    if lines == [] then "" else lines[0] + ends[0] + Joined(lines[1..], ends[1..])
  }

  predicate OneLine(line: string) {
    forall i | 0 <= i < |line| :: !IsLineEnd(line[i])
  }

  lemma {:induction false} LineEndsThere(line: string, more: string)
    requires OneLine(line) && (more == "" || IsLineEnd(more[0]))
    ensures LineLength(line + more) == |line|
  {
    var t := line + more;
    if line == "" {
      assert t == more;
    } else {
      assert t[1..] == line[1..] + more && t[0] == line[0];
      LineEndsThere(line[1..], more);
    }
  }

  /** A carriage return ends a line by itself only where no line feed follows. */
  predicate EndsClearly(end: string, more: string) {
    end == "\r" ==> more == "" || more[0] != '\n'
  }

  lemma SplitStep(line: string, end: string, more: string)
    requires OneLine(line) && IsLineBreak(end) && EndsClearly(end, more)
    ensures SplitLines(line + end + more) == [line] + SplitLines(more)
  {
    var t := line + end + more;
    LineEndsThere(line, end + more);
    hide LineLength, IsLineEnd;
    assert t == line + (end + more);
    assert t[..|line|] == line && t[|line| + |end|..] == more && t[|line|] == end[0];
    assert |end| == 1 && more != "" ==> t[|line| + 1] == more[0];
  }

  predicate AllEndClearly(lines: seq<string>, ends: seq<string>)
    requires |lines| == |ends|
  {
    lines == [] || (EndsClearly(ends[0], Joined(lines[1..], ends[1..])) && AllEndClearly(lines[1..], ends[1..]))
  }

  /** A text is split at whatever line ends it has. */
  lemma {:induction false} AnyLineEnds(lines: seq<string>, ends: seq<string>)
    requires |lines| == |ends| && AllEndClearly(lines, ends)
    requires forall i | 0 <= i < |lines| :: OneLine(lines[i]) && IsLineBreak(ends[i])
    ensures SplitLines(Joined(lines, ends)) == lines
  {
    if lines != [] {
      assert forall i | 0 <= i < |lines[1..]| :: lines[1..][i] == lines[i + 1] && ends[1..][i] == ends[i + 1];
      SplitStep(lines[0], ends[0], Joined(lines[1..], ends[1..]));
      AnyLineEnds(lines[1..], ends[1..]);
      assert lines == [lines[0]] + lines[1..];
    }
  }

  /** Of the lines of a body those with the mark of a link stay, trimmed, in order. */
  lemma {:induction false} LinkLinesConcat(a: seq<string>, b: seq<string>)
    ensures LinkLines(a + b) == LinkLines(a) + LinkLines(b)
  {
    hide Strip, LooksLikeLink;
    if a == [] {
      assert a + b == b;
    } else {
      assert (a + b)[1..] == a[1..] + b;
      LinkLinesConcat(a[1..], b);
    }
  }

  lemma OneLinkLine(line: string)
    ensures LinkLines([line])
         == if Strip(line) != "" && (exists i | 0 <= i && i + 2 < |line| :: line[i] == ':' && line[i + 1] == '/' && line[i + 2] == '/')
            then [Strip(line)] else []
  {
    hide Strip;
    assert [line][1..] == [];
    if i :| 0 <= i && i + 2 < |line| && line[i] == ':' && line[i + 1] == '/' && line[i + 2] == '/' {
      assert MarkAt(line, i);
    }
    if LooksLikeLink(line) {
      var i :| 0 <= i < |line| - 2 && MarkAt(line, i);
      assert line[i] == ':' && line[i + 1] == '/' && line[i + 2] == '/';
    }
  }

  /** A page is no subscription. */
  lemma PageIsRefused(text: string)
    requires "<!doctype" <= Lower(Strip(text)) || "<html" <= Lower(Strip(text)) || Strip(text) == ""
    ensures DecodeSubscription(text) == []
  {
    hide Strip, Lower;
  }

  /** Outer white space of a body does not matter. */
  lemma TrimmedBody(text: string)
    ensures DecodeSubscription(text) == DecodeSubscription(Strip(text))
  {
    StripIsStripped(text);
    StripIsIdentity(Strip(text));
    hide Strip, LinkLines, SplitLines, IsHtml, LooksLikeLink, Base64Decode, Decode, StandardAlphabet, Padding;
  }

  /** A base64 body may come in the URL alphabet and without padding. */
  lemma UrlSafeBody(text: string)
    requires text != ""
    ensures DecodeSubscription(UrlSafe(Base64Encode(Encode(text)))) == LinkLines(SplitLines(text))
  {
    var bs := Encode(text);
    var s := UrlSafe(Base64Encode(bs));
    EncodedIsNonEmpty(text);
    UrlSafeText(bs);
    StripIsIdentity(s);
    NotHtml(s);
    UrlSafeRoundTrip(text);
    hide Encode, Base64Encode, Base64Decode, UrlSafe, Strip, LinkLines, SplitLines, Decode, IsHtml, LooksLikeLink,
         StandardAlphabet, Padding, Ascii;
  }

  lemma UrlSafeText(bs: seq<Byte>)
    requires bs != []
    ensures var s := UrlSafe(Base64Encode(bs));
            && s != "" && Stripped(s) && s[0] != '<' && !LooksLikeLink(s)
            && Ascii(StandardAlphabet(s) + Padding(|StandardAlphabet(s)|))
  {
    var digits := Base64Shape(bs);
    Base64IsText(bs);
    assert digits != "" by {
      assert Padding(0) == "";
    }
    assert Base64Text(digits + Padding(|digits|));
    DigitsAreUrlSafe(digits);
    hide Base64Encode, UrlSafe, StandardAlphabet, LooksLikeLink, Ascii, Padding, Base64Text, DigitsOnly;
    UrlSafeConcat(digits, Padding(|digits|));
    PaddingVanishes(|digits|);
    assert UrlSafe(digits) + "" == UrlSafe(digits);
  }

  lemma DigitsAreUrlSafe(digits: string)
    requires digits != "" && DigitsOnly(digits) && Base64Text(digits + Padding(|digits|))
    ensures var s := UrlSafe(digits);
            && s != "" && Stripped(s) && s[0] != '<' && !LooksLikeLink(s)
            && Ascii(StandardAlphabet(s) + Padding(|StandardAlphabet(s)|))
  {
    var whole := digits + Padding(|digits|);
    assert forall i | 0 <= i < |digits| :: digits[i] == whole[i];
    AlphabetUndone(digits);
    UrlSafeIsGood(digits);
    UrlSafeHasNoColon(digits);
    assert Ascii(whole);
    hide UrlSafe, StandardAlphabet;
  }

  lemma {:induction false} UrlSafeHasNoColon(s: string)
    requires forall i | 0 <= i < |s| :: '+' <= s[i] <= 'z' && s[i] != ':' && s[i] != '<'
    ensures forall i | 0 <= i < |UrlSafe(s)| :: UrlSafe(s)[i] != ':' && UrlSafe(s)[i] != '<' && UrlSafe(s)[i] > ' '
  {
    if s != "" {
      UrlSafeHasNoColon(s[1..]);
    }
  }

  // ------------------------------------------------------------------ foreign spellings

  /** The characters base64 is made of. */
  function OnlyBase64(s: string): string {
    if s == "" then ""
    else (if s[0] == '=' || s[0] == '+' || s[0] == '/' || Alphanumeric(s[0]) then [s[0]] else "") + OnlyBase64(s[1..])
  }

  lemma Base64Values(c: char)
    ensures Base64Value(c) >= 0 <==> c == '+' || c == '/' || Alphanumeric(c)
  {
  }

  /** Line breaks and anything else between the digits of base64 are skipped. */
  lemma {:induction false} ForeignIsSkipped(s: string, quad: nat, left: nat, pads: nat)
    requires quad < 4 && left < 64 && (quad == 2 ==> left < 16) && (quad == 3 ==> left < 4)
    ensures DecodeGroups(s, quad, left, pads) == DecodeGroups(OnlyBase64(s), quad, left, pads)
  {
    if s != "" {
      var rest := OnlyBase64(s[1..]);
      Base64Values(s[0]);
      assert [s[0]] + rest != "" && ([s[0]] + rest)[0] == s[0] && ([s[0]] + rest)[1..] == rest;
      assert "" + rest == rest;
      hide Base64Value, Alphanumeric, OnlyBase64, Completed;
      if s[0] == '=' {
        ForeignIsSkipped(s[1..], quad, left, if quad >= 2 then pads + 1 else pads);
      } else if Base64Value(s[0]) < 0 {
        ForeignIsSkipped(s[1..], quad, left, pads);
      } else {
        ForeignIsSkipped(s[1..], (quad + 1) % 4, Leftover(quad, Base64Value(s[0])), 0);
      }
    }
  }

  /** So a body may be folded into lines. */
  lemma FoldedBase64(s: string)
    ensures Base64Decode(s) == Base64Decode(OnlyBase64(s))
  {
    ForeignIsSkipped(s, 0, 0, 0);
  }

  predicate Base64Digits(s: string) {
    forall i | 0 <= i < |s| :: Base64Value(s[i]) >= 0
  }

  lemma OnlyPadding(left: nat)
    requires left < 64
    ensures DecodeGroups("===", 1, left, 0) == None
  {
    assert "==="[1..] == "==" && "=="[1..] == "=" && "="[1..] == "";
    assert DecodeGroups("", 1, left, 0) == None;
    assert DecodeGroups("=", 1, left, 0) == None;
    assert DecodeGroups("==", 1, left, 0) == None;
  }

  lemma NextOfFour(n: nat, quad: nat)
    requires n > 0 && quad < 4 && (n + quad) % 4 == 1
    ensures (n - 1 + (quad + 1) % 4) % 4 == 1
  {
  }

  lemma SkipDigit(s: string)
    requires s != "" && Base64Digits(s)
    ensures s + "===" == [s[0]] + (s[1..] + "===") && Base64Digits(s[1..]) && 0 <= Base64Value(s[0]) < 64
  {
  }

  /** One digit too many is an error, however much padding follows. */
  lemma {:induction false} OneDigitTooMany(s: string, quad: nat, left: nat)
    requires quad < 4 && left < 64 && (quad == 2 ==> left < 16) && (quad == 3 ==> left < 4)
    requires Base64Digits(s) && (|s| + quad) % 4 == 1
    ensures DecodeGroups(s + "===", quad, left, 0) == None
  {
    hide Base64Value, Completed, Leftover, DecodeGroups;
    if s == "" {
      OnlyPadding(left);
      assert "" + "===" == "===";
    } else {
      var v := Base64Value(s[0]);
      NextOfFour(|s|, quad);
      SkipDigit(s);
      hide Base64Digits;
      DecodeDigit(s[0], v, s[1..] + "===", quad, left);
      OneDigitTooMany(s[1..], (quad + 1) % 4, Leftover(quad, v));
    }
  }

  lemma TruncatedBase64(s: string)
    requires Base64Digits(s) && |s| % 4 == 1
    ensures Base64Decode(s + Padding(|s|)) == None
  {
    OneDigitTooMany(s, 0, 0);
    assert Padding(|s|) == "===";
  }

  /** Percent-encoding is read in either case; a percent sign without two hexadecimal
      digits behind it stays. */
  lemma PercentReads(x: Byte, y: Byte, more: seq<Byte>)
    ensures HexDigit(x) >= 0 && HexDigit(y) >= 0 ==>
              UnquoteBytes([37, x, y] + more) == [HexDigit(x) * 16 + HexDigit(y)] + UnquoteBytes(more)
    ensures HexDigit(x) < 0 || HexDigit(y) < 0 ==>
              UnquoteBytes([37, x, y] + more) == [37] + UnquoteBytes([x, y] + more)
    ensures UnquoteBytes([37]) == [37]
  {
    hide HexDigit;
    var t := [37, x, y] + more;
    assert t[0] == 37 && t[1] == x && t[2] == y && t[1..] == [x, y] + more && t[3..] == more;
    assert [37][1..] == [] && [37] + [] == [37];
  }

  lemma HexDigitIs(b: Byte)
    ensures HexDigit(b)
         == if '0' as int <= b <= '9' as int then b - '0' as int
            else if 'A' as int <= b <= 'F' as int then b - 'A' as int + 10
            else if 'a' as int <= b <= 'f' as int then b - 'a' as int + 10
            else -1
  {
  }
}
