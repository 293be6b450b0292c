/** What a printed key or leaf reads back as, one line at a time. */
module YamlScalars {
  import opened Text
  import opened YamlDoc
  import opened YamlOut
  import opened YamlIn

  // ----------------------------------------------------------- the quoting rules

  predicate SpecialNumber(s: string) {
    IsOctal(s) || IsHex(s) || IsInfinite(s) || IsNotANumber(s)
  }

  /** A plain string that YAML takes for something else: ` #` starts a comment, and
      the octal, hexadecimal, infinity and not-a-number spellings are numbers. */
  predicate Misread(s: string) {
    Plain(s) && (CommentAt(s) < |s| || SpecialNumber(s))
  }

  /** Every decimal number of the core schema is one `float` accepts. */
  lemma DecimalIsNumeric(s: string)
    requires Decimal(Unsigned(s))
    ensures Numeric(s)
  {
    DecimalHasDecimalChars(Unsigned(s));
    if Unsigned(s) != s {
      assert s == [s[0]] + Unsigned(s);
    }
    assert forall i | 0 <= i < |s| :: DecimalChar(s[i]);
    NoUnderscores(s);
  }

  lemma DigitsAreDecimal(u: string)
    requires Digits(u)
    ensures Decimal(u)
  {
    var i := SpanDigits(u);
    assert i == |u|;
    assert u[i..] == "";
  }

  lemma WordsAreReserved(s: string)
    requires IsNull(s) || IsTrue(s) || IsFalse(s)
    ensures s == "" || Lower(s) in RESERVED
  {
    if s != "" {
      assert Lower(s) == (if s == "~" then "~" else if IsNull(s) then "null" else if IsTrue(s) then "true" else "false");
    }
  }

  /** The numbers a plain string can still be taken for are exactly the special ones. */
  lemma PlainResolution(s: string)
    requires Plain(s)
    ensures Resolve(s) == Str(s) <==> !SpecialNumber(s)
  {
    if IsNull(s) || IsTrue(s) || IsFalse(s) {
      WordsAreReserved(s);
      assert false;
    }
    if Digits(Unsigned(s)) {
      DigitsAreDecimal(Unsigned(s));
    }
    if Decimal(Unsigned(s)) {
      DecimalIsNumeric(s);
      assert false;
    }
  }

  // ------------------------------------------------------------- quoted scalars

  /** The shortest escape JSON has: none, one letter, or four hexadecimal digits. */
  lemma EscapeLength(c: char)
    ensures |EscapeChar(c)|
         == if c == '"' || c == '\\' || c == '\n' || c == '\r' || c == '\t' || c == '\U{08}' || c == '\U{0C}' then 2
            else if c < ' ' then 6 else 1
  {
  }

  lemma EscapeReads(c: char, more: string)
    ensures var t := EscapeChar(c) + more;
            if t[0] == '\\' then
              ReadEscape(t[1..]) == Some((c, |EscapeChar(c)| - 1))
            else t[0] == c && t[0] != '"' && t[0] >= ' ' && |EscapeChar(c)| == 1
  {
    var e := EscapeChar(c);
    if c < ' ' && |e| == 6 {
      HexCodeReads(HexChar(c as int / 16), HexChar(c as int % 16));
      assert (e + more)[1..] == e[1..] + more;
      assert (e + more)[1..][1..5] == ['0', '0', HexChar(c as int / 16), HexChar(c as int % 16)];
    }
    hide HexChar, HexValue, RadixValue, RadixDigits;
  }

  /** A code of two zeros and two hexadecimal digits. */
  lemma HexCodeReads(x: char, y: char)
    requires HexValue(x) >= 0 && HexValue(y) >= 0
    ensures var h := ['0', '0', x, y]; RadixDigits(h, 16) && RadixValue(h, 16) == HexValue(x) * 16 + HexValue(y)
  {
    var h := ['0', '0', x, y];
    hide HexValue;
    assert HexValue('0') == 0 by {
      ZeroDigit();
    }
    assert h[..3] == ['0', '0', x] && h[..3][..2] == ['0', '0'] && h[..3][..2][..1] == ['0'];
    assert h[..3][..2][..1][..0] == "";
    assert RadixValue(h[..3][..2][..1], 16) == 0;
    assert RadixValue(h[..3][..2], 16) == 0;
    assert RadixValue(h[..3], 16) == HexValue(x);
  }

  lemma ZeroDigit()
    ensures HexValue('0') == 0
  {
  }

  /** One character is read back from its escape. */
  lemma QuotedStep(c: char, more: string, s: string, tail: string)
    requires ReadQuoted(more) == Some((s, tail))
    ensures ReadQuoted(EscapeChar(c) + more) == Some(([c] + s, tail))
  {
    EscapeReads(c, more);
    hide EscapeChar, ReadEscape;
    assert (EscapeChar(c) + more)[|EscapeChar(c)|..] == more;
  }

  /** Quoting is undone by the escapes of YAML 1.2.2, section 5.7. */
  lemma {:induction false} QuotedRoundTrip(s: string, tail: string)
    ensures ReadQuoted(EscapeAll(s) + "\"" + tail) == Some((s, tail))
  {
    hide EscapeChar, ReadEscape;
    if s == "" {
      assert EscapeAll(s) + "\"" + tail == "\"" + tail;
    } else {
      var e, more := EscapeChar(s[0]), EscapeAll(s[1..]) + "\"" + tail;
      QuotedRoundTrip(s[1..], tail);
      QuotedStep(s[0], more, s[1..], tail);
      hide ReadQuoted;
      assert EscapeAll(s) + "\"" + tail == e + more;
      assert s == [s[0]] + s[1..];
    }
  }

  predicate NoBreaks(s: string) {
    forall i | 0 <= i < |s| :: !IsBreak(s[i])
  }

  lemma {:induction false} EscapedHasNoBreaks(s: string)
    ensures NoBreaks(EscapeAll(s))
  {
    if s != "" {
      EscapedHasNoBreaks(s[1..]);
      assert NoBreaks(EscapeChar(s[0]));
    }
  }

  // -------------------------------------------------------------- plain scalars

  /** A colon is followed by a non-space, so no prefix of the text is a key. */
  predicate NoKeyInside(t: string) {
    forall i | 0 <= i < |t| && t[i] == ':' :: i + 1 < |t| && t[i + 1] != ' '
  }

  lemma {:induction false} NoColonFound(t: string)
    requires NoKeyInside(t)
    ensures ColonAt(t) == |t|
  {
    if t != "" {
      assert forall i | 0 <= i < |t[1..]| :: t[1..][i] == t[i + 1];
      NoColonFound(t[1..]);
    }
  }

  /** The colon of a printed key line is found, unless a comment hides it. */
  lemma {:induction false} ColonAfterKey(key: string, more: string)
    requires NoKeyInside(key)
    requires more == "" || more[0] == ' '
    ensures var t := key + ":" + more;
            ColonAt(t) == if CommentAt(key) < |key| then |t| else |key|
  {
    var t := key + ":" + more;
    if key != "" {
      assert forall i | 0 <= i < |key[1..]| :: key[1..][i] == key[i + 1];
      assert t[1..] == key[1..] + ":" + more;
      assert t[0] == key[0];
      assert |key| > 1 ==> t[1] == key[1];
      ColonAfterKey(key[1..], more);
    }
  }

  lemma CommentAtIs(s: string, n: nat)
    requires n <= |s|
    requires n < |s| ==> n + 1 < |s| && s[n] == ' ' && s[n + 1] == '#'
    requires forall i | 0 <= i < n && i + 1 < |s| :: !(s[i] == ' ' && s[i + 1] == '#')
    ensures CommentAt(s) == n
  {
    var c := CommentAt(s);
    assert c < |s| ==> s[c] == ' ' && s[c + 1] == '#';
  }

  lemma {:induction false} CommentAtPrefix(key: string, more: string)
    requires CommentAt(key) < |key|
    ensures CommentAt(key + more) == CommentAt(key)
  {
    assert (key + more)[1..] == key[1..] + more;
    if CommentAt(key) > 0 {
      CommentAtPrefix(key[1..], more);
    }
  }

  /** A comment in the key hides everything after it. */
  lemma CommentInPrefix(key: string, more: string)
    requires CommentAt(key) < |key|
    ensures Uncommented(key + more) == Uncommented(key)
  {
    CommentAtPrefix(key, more);
    PrefixOfConcat(key, more, CommentAt(key));
  }

  lemma PrefixOfConcat(a: string, b: string, n: nat)
    requires n <= |a|
    ensures (a + b)[..n] == a[..n]
  {
  }

  lemma {:induction false} TrimEndPrefix(s: string)
    ensures |TrimEnd(s)| <= |s| && TrimEnd(s) == s[..|TrimEnd(s)|]
    ensures TrimEnd(s) == "" || TrimEnd(s)[|TrimEnd(s)| - 1] != ' '
    ensures |TrimEnd(s)| < |s| ==> s[|TrimEnd(s)|] == ' '
    ensures s != "" && s[0] != ' ' ==> TrimEnd(s) != ""
  {
    if s != "" && s[|s| - 1] == ' ' {
      TrimEndPrefix(s[..|s| - 1]);
    }
  }

  /** Text the reader takes for one plain scalar, up to a comment. */
  predicate PlainText(t: string) {
    && t != "" && t[0] != ' ' && NoKeyInside(t)
    && (IsIndicator(t[0]) ==> t[0] == '-' && |t| > 1 && forall i | 0 <= i < |t| :: t[i] != ' ')
  }

  lemma UncommentedPrefix(t: string)
    requires PlainText(t)
    ensures var u := Uncommented(t); u != "" && |u| <= |t| && u == t[..|u|]
    ensures PlainAllowed(Uncommented(t))
    ensures CommentAt(t) < |t| ==> |Uncommented(t)| < |t|
    ensures CommentAt(t) == |t| && t[|t| - 1] != ' ' ==> Uncommented(t) == t
  {
    var n := CommentAt(t);
    TrimEndPrefix(t[..n]);
    var u := Uncommented(t);
    assert t[..|t|] == t;
    assert |u| < |t| ==> t[|u|] == ' ';
    forall i | 0 <= i < |u| && u[i] == ':'
      ensures i + 1 < |u| && u[i + 1] != ' '
    {
      assert t[i] == ':';
    }
  }

  lemma PlainTextReads(t: string)
    requires PlainText(t)
    ensures !IsDash(t) && ReadKey(t) == NotKey
    ensures ReadInline(t) == Some(Resolve(Uncommented(t)))
  {
    NoColonFound(t);
    UncommentedPrefix(t);
    assert Uncommented(t)[0] == t[0];
  }

  lemma PlainIsPlainText(s: string)
    requires Plain(s)
    ensures PlainText(s) && NoBreaks(s) && s[|s| - 1] != ' '
  {
    assert PlainAt(s, 0) && PlainAt(s, |s| - 1);
    forall i | 0 <= i < |s|
      ensures !IsBreak(s[i]) && (s[i] == ':' ==> i + 1 < |s| && s[i + 1] != ' ')
    {
      assert PlainAt(s, i);
    }
  }

  // ------------------------------------------------------------------- the leaves

  /** The spellings Python's `repr` gives a float. */
  predicate FloatRepr(l: string) {
    || l == "inf" || l == "-inf" || l == "nan"
    || (Decimal(Unsigned(l)) && !Digits(Unsigned(l)) && l[0] != '+')
  }

  predicate Leaf(v: Doc) {
    v.Real? ==> FloatRepr(v.lexeme)
  }

  /** What a printed leaf reads back as. */
  function LeafReads(v: Doc, repr: Doc -> string): Doc {
    match v
    case Str(s) => if Plain(s) then Resolve(Uncommented(s)) else v
    case Real(lexeme) => Resolve(lexeme)
    case Map(_) => Str(repr(v))
    case List(_) => Str(repr(v))
    case _ => v
  }

  /** One line of text that starts a node: no outer space, comment or break. */
  predicate NodeText(t: string) {
    t != "" && t[0] != ' ' && t[0] != '#' && NoBreaks(t)
  }

  lemma QuoteReads(s: string)
    ensures NodeText(Quote(s)) && !IsDash(Quote(s)) && ReadKey(Quote(s)) == NotKey
    ensures ReadInline(Quote(s)) == Some(Str(s))
  {
    EscapedHasNoBreaks(s);
    QuotedRoundTrip(s, "");
    assert Quote(s)[1..] == EscapeAll(s) + "\"" + "";
  }

  /** A token without spaces and colons reads as what it resolves to. */
  lemma TokenReads(t: string)
    requires t != "" && (IsIndicator(t[0]) ==> t[0] == '-' && |t| > 1)
    requires forall i | 0 <= i < |t| :: t[i] != ' ' && t[i] != ':' && !IsBreak(t[i])
    ensures NodeText(t) && !IsDash(t) && ReadKey(t) == NotKey
    ensures ReadInline(t) == Some(Resolve(t))
  {
    assert PlainText(t);
    PlainTextReads(t);
    CommentAtIs(t, |t|);
    UncommentedPrefix(t);
  }

  lemma DecimalTextReads(l: string)
    requires l != "" && (l[0] == '-' ==> |l| > 1) && DecimalChars(l)
    ensures NodeText(l) && !IsDash(l) && ReadKey(l) == NotKey
    ensures ReadInline(l) == Some(Resolve(l))
  {
    assert DecimalChar(l[0]);
    TokenReads(l);
  }

  lemma NumbersAreNotWords(t: string)
    requires t != "" && (IsDigit(t[0]) || t[0] == '-' || t[0] == '.')
    ensures !IsNull(t) && !IsTrue(t) && !IsFalse(t)
  {
  }

  lemma IntTextResolves(n: int)
    ensures Resolve(IntText(n)) == Int(n) && DecimalChars(IntText(n))
  {
    var t := IntText(n);
    NumbersAreNotWords(t);
    if n < 0 {
      DecimalRoundTrip(-n);
      assert Unsigned(t) == DecText(-n);
    } else {
      DecimalRoundTrip(n);
      assert Unsigned(t) == t;
    }
  }

  /** Decimal notation other than an integer resolves to a float. */
  lemma DecimalResolves(l: string)
    requires Decimal(Unsigned(l)) && !Digits(Unsigned(l)) && l[0] != '+'
    ensures Resolve(l) == Real(l) && DecimalChars(l)
  {
    var u := Unsigned(l);
    DecimalHasDecimalChars(u);
    assert u != "" && DecimalChar(u[0]);
    assert l == u || l == [l[0]] + u;
    assert u == l && |u| > 1 ==> DecimalChar(u[1]);
    assert l[0] == 'e' || l[0] == 'E' ==> SpanDigits(u) == 0;
    NumbersAreNotWords(l);
  }

  /** A float survives unless it is an infinity or not a number, whose Python
      spellings are plain strings in YAML. */
  lemma FloatReads(l: string)
    requires FloatRepr(l)
    ensures NodeText(l) && !IsDash(l) && ReadKey(l) == NotKey
    ensures ReadInline(l) == Some(Resolve(l))
    ensures Resolve(l) == Real(l) <==> !(l == "inf" || l == "-inf" || l == "nan")
  {
    if l == "inf" || l == "-inf" || l == "nan" {
      TokenReads(l);
      NamedFloatResolves(l);
    } else {
      DecimalResolves(l);
      assert Unsigned(l) != "";
      DecimalTextReads(l);
    }
  }

  lemma TextResolves(s: string)
    requires !IsNull(s) && !IsTrue(s) && !IsFalse(s) && !SpecialNumber(s)
    requires !Digits(Unsigned(s)) && !Decimal(Unsigned(s))
    ensures Resolve(s) == Str(s)
  {
    hide IsNull, IsTrue, IsFalse, IsOctal, IsHex, IsInfinite, IsNotANumber, Digits, Decimal, Unsigned;
  }

  lemma NamedFloatIsNoWord(l: string)
    requires l == "inf" || l == "-inf" || l == "nan"
    ensures !IsNull(l) && !IsTrue(l) && !IsFalse(l)
  {
  }

  lemma NamedFloatIsNotSpecial(l: string)
    requires l == "inf" || l == "-inf" || l == "nan"
    ensures !SpecialNumber(l) && Unsigned(l) == if l == "nan" then "nan" else "inf"
  {
    assert l == "-inf" ==> l[1..] == "inf";
    hide RadixDigits;
  }

  lemma NamedFloatResolves(l: string)
    requires l == "inf" || l == "-inf" || l == "nan"
    ensures Resolve(l) == Str(l)
  {
    hide Resolve, IsNull, IsTrue, IsFalse, SpecialNumber, Digits, Decimal, Unsigned;
    NamedFloatIsNoWord(l);
    NamedFloatIsNotSpecial(l);
    LettersAreNoNumber(Unsigned(l));
    TextResolves(l);
  }

  lemma LettersAreNoNumber(u: string)
    requires u != "" && !IsDigit(u[0]) && u[0] != '.'
    ensures !Digits(u) && !Decimal(u)
  {
    assert SpanDigits(u) == 0;
  }

  /** One line that is neither a dash entry nor a key line, and reads as this value. */
  predicate ReadsAs(t: string, v: Doc) {
    NodeText(t) && !IsDash(t) && ReadKey(t) == NotKey && ReadInline(t) == Some(v)
  }

  lemma WordReads(t: string)
    requires t == "null" || t == "true" || t == "false"
    ensures ReadsAs(t, if t == "null" then Null else Bool(t == "true"))
  {
    hide NodeText, IsDash, ReadKey, ReadInline, Digits, Decimal, SpecialNumber, NoBreaks;
    TokenReads(t);
  }

  lemma IntReads(n: int)
    ensures ReadsAs(IntText(n), Int(n))
  {
    IntTextResolves(n);
    assert IntText(n) != "" && (IntText(n)[0] == '-' ==> |IntText(n)| > 1);
    hide IntText, NodeText, IsDash, ReadKey, ReadInline, Resolve, DecimalChars;
    DecimalTextReads(IntText(n));
  }

  lemma PlainReads(s: string)
    requires Plain(s)
    ensures ReadsAs(s, Resolve(Uncommented(s)))
  {
    PlainIsPlainText(s);
    PlainStartsNode(s);
    hide Plain, PlainText, IsDash, ReadKey, ReadInline, Resolve;
    PlainTextReads(s);
  }

  lemma PlainStartsNode(s: string)
    requires Plain(s) && NoBreaks(s)
    ensures NodeText(s)
  {
    hide Numeric, NoBreaks, Lower;
  }

  /** Every leaf is one line that is neither a dash entry nor a key line, and reads
      as `LeafReads` says. */
  lemma LeafRoundTrip(v: Doc, repr: Doc -> string)
    requires Leaf(v)
    ensures var t := Scalar(v, repr);
            && NodeText(t) && !IsDash(t) && ReadKey(t) == NotKey
            && ReadInline(t) == Some(LeafReads(v, repr))
  {
    hide Plain, Quote, Resolve, ReadKey, ReadInline, IsDash, NodeText, IntText, FloatRepr;
    match v
    case Null => WordReads("null");
    case Bool(b) => WordReads(if b then "true" else "false");
    case Int(n) => IntReads(n);
    case Real(l) => FloatReads(l);
    case Str(s) =>
      if Plain(s) {
        PlainReads(s);
      } else {
        QuoteReads(s);
      }
    case Map(_) => QuoteReads(repr(v));
    case List(_) => QuoteReads(repr(v));
  }

  lemma ResolvedText(s: string)
    ensures Resolve(s).Str? ==> Resolve(s) == Str(s)
  {
  }

  /** The strings that survive: all but the misread plain ones. */
  lemma StringSurvives(s: string, repr: Doc -> string)
    ensures LeafReads(Str(s), repr) == Str(s) <==> !Misread(s)
  {
    hide Plain, Resolve, SpecialNumber, Uncommented, CommentAt;
    if Plain(s) {
      PlainIsPlainText(s);
      ResolvedText(Uncommented(s));
      UncommentedPrefix(s);
      PlainResolution(s);
    }
  }

  // -------------------------------------------------------------------- key lines

  lemma PlainKeyText(key: string)
    requires Plain(key) && CommentAt(key) == |key|
    ensures key != "" && key[0] != '"' && PlainAllowed(key) && TrimEnd(key) == key
  {
    PlainIsPlainText(key);
    UncommentedPrefix(key);
    hide Numeric, PlainAllowed, PlainText, Lower, Stripped;
    assert TrimEnd(key) == key;
  }

  /** A text is cut at its first colon. */
  lemma KeyIs(key: string, more: string)
    requires key != "" && key[0] != '"' && PlainAllowed(key) && TrimEnd(key) == key
    requires ColonAt(key + ":" + more) == |key|
    ensures ReadKey(key + ":" + more)
         == if Resolve(key) == Str(key) && |key| <= KEY_LIMIT then KeyLine(key, Skip(more)) else BadKey
  {
    hide PlainAllowed, TrimEnd, ColonAt, Resolve, ReadQuoted, Skip;
    var t := key + ":" + more;
    assert t[..|key|] == key && t[|key| + 1..] == more;
  }

  lemma PlainKeyReads(key: string, more: string)
    requires Plain(key) && CommentAt(key) == |key|
    requires more == "" || more[0] == ' '
    ensures ReadKey(key + ":" + more)
         == if SpecialNumber(key) || |key| > KEY_LIMIT then BadKey else KeyLine(key, Skip(more))
  {
    PlainIsPlainText(key);
    PlainResolution(key);
    PlainKeyText(key);
    ColonAfterKey(key, more);
    hide Plain, PlainText, PlainAllowed, SpecialNumber, Resolve, ReadKey, CommentAt, ColonAt, TrimEnd;
    KeyIs(key, more);
  }

  lemma InlineIs(t: string, u: string)
    requires t != "" && u != "" && u[0] == t[0] && t[0] != '"' && t[0] != '{' && t[0] != '['
    requires u == Uncommented(t) && PlainAllowed(u)
    ensures ReadInline(t) == Some(Resolve(u))
  {
  }

  lemma NoKeyBefore(t: string)
    requires t != "" && t[0] != '"' && ColonAt(t) == |t|
    ensures ReadKey(t) == NotKey
  {
  }

  lemma CommentedKeyReads(key: string, more: string)
    requires PlainText(key) && !IsIndicator(key[0]) && CommentAt(key) < |key|
    requires more == "" || more[0] == ' '
    ensures ReadKey(key + ":" + more) == NotKey
    ensures ReadInline(key + ":" + more) == Some(Resolve(Uncommented(key)))
  {
    var t := key + ":" + more;
    assert t == key + (":" + more);
    ColonAfterKey(key, more);
    NoKeyBefore(t);
    CommentInPrefix(key, ":" + more);
    UncommentedPrefix(key);
    InlineIs(t, Uncommented(key));
  }

  lemma QuotedKeyReads(key: string, more: string)
    requires more == "" || more[0] == ' '
    ensures ReadKey(Quote(key) + ":" + more)
         == if |Quote(key)| > KEY_LIMIT then BadKey else KeyLine(key, Skip(more))
  {
    var t := Quote(key) + ":" + more;
    QuotedRoundTrip(key, ":" + more);
    assert t[1..] == EscapeAll(key) + "\"" + (":" + more);
    assert Skip(":" + more) == ":" + more;
    assert (":" + more)[1..] == more;
  }

  /** Keys that do not come back: the misread ones, and those printed too long. */
  predicate LostKey(key: string) {
    Misread(key) || |KeyText(key)| > KEY_LIMIT
  }

  /** A comment in the key hides its colon. */
  predicate HiddenKey(key: string) {
    Misread(key) && CommentAt(key) < |key|
  }

  /** A printed key line is recognised as that key exactly when the key is not lost:
      a comment hides the colon, a number is no string key, and length is limited. */
  lemma KeyRoundTrip(key: string, more: string)
    requires more == "" || more[0] == ' '
    ensures var t := KeyText(key) + ":" + more;
            && (!LostKey(key) ==> ReadKey(t) == KeyLine(key, Skip(more)))
            && (LostKey(key) && !HiddenKey(key) ==> ReadKey(t) == BadKey)
            && (HiddenKey(key) ==>
                  ReadKey(t) == NotKey && ReadInline(t) == Some(Resolve(Uncommented(key))))
  {
    if !Plain(key) {
      QuotedKeyReads(key, more);
    } else if CommentAt(key) < |key| {
      PlainIsPlainText(key);
      CommentedKeyReads(key, more);
    } else {
      PlainKeyReads(key, more);
    }
  }

  lemma KeyTextStartsNode(key: string)
    ensures NodeText(KeyText(key)) && KeyText(key)[0] != '-'
  {
    if Plain(key) {
      PlainIsPlainText(key);
    } else {
      QuoteReads(key);
    }
  }

  // ------------------------------------------------------------ what is left unquoted

  /** Words that some YAML version reads as a truth value or as nothing. */
  predicate IsWord(s: string) {
    var w := Lower(s);
    w == "true" || w == "false" || w == "yes" || w == "no" || w == "on" || w == "off" || w == "null" || w == "none"
    || w == "~"
  }

  /** A text that may be printed bare: it is not empty, has no outer white space, spells no
      word and no number, does not start like YAML syntax, is printable ASCII, and has
      text right behind every colon and hash. */
  predicate Bare(s: string) {
    && s != "" && !IsSpace(s[0]) && !IsSpace(s[|s| - 1]) && !IsWord(s) && !Numeric(s)
    && s[0] !in "-?:,[]{}#&*!|>'\"%@`"
    && forall i | 0 <= i < |s| :: BareAt(s, i)
  }

  predicate BareAt(s: string, i: nat)
    requires i < |s|
  {
    ' ' <= s[i] <= '~' && (s[i] == ':' || s[i] == '#' ==> i + 1 < |s| && s[i + 1] != ' ')
  }

  lemma PlainIsBare(s: string)
    ensures Plain(s) <==> Bare(s)
  {
    ReservedIs(Lower(s));
    IndicatorIs(s);
    hide Numeric, Lower, RESERVED, IsIndicator, IsSpace;
    assert forall i | 0 <= i < |s| :: PlainAt(s, i) <==> BareAt(s, i);
  }

  /** Keys and strings are printed as they are exactly when they may be, and otherwise in
      double quotes. */
  lemma BareExactlyWhen(s: string, repr: Doc -> string)
    ensures KeyText(s) == Scalar(Str(s), repr) == if Bare(s) then s else Quote(s)
    ensures Quote(s) != s
  {
    PlainIsBare(s);
    QuoteIsLonger(s);
    hide Plain, Bare, Quote;
  }

  lemma {:induction false} EscapedIsNotShorter(s: string)
    ensures |EscapeAll(s)| >= |s|
  {
    hide EscapeChar;
    if s != "" {
      EscapedIsNotShorter(s[1..]);
    }
  }

  lemma QuoteIsLonger(s: string)
    ensures |Quote(s)| > |s|
  {
    EscapedIsNotShorter(s);
  }

  lemma ReservedIs(w: string)
    ensures w in RESERVED
       <==> w == "true" || w == "false" || w == "yes" || w == "no" || w == "on" || w == "off" || w == "null"
            || w == "none" || w == "~"
  {
  }

  lemma IndicatorIs(s: string)
    ensures s != "" ==> (IsIndicator(s[0]) <==> s[0] in "-?:,[]{}#&*!|>'\"%@`")
  {
  }

  /** What counts as a number: everything Python prints one as, the named floats in any
      case and with a sign, and decimals with underscores between their digits. */
  lemma NumbersAreQuoted(s: string)
    ensures (exists n :: s == IntText(n)) || FloatRepr(s) ==> KeyText(s) == Quote(s)
    ensures Lower(s) == "inf" || Lower(s) == "infinity" || Lower(s) == "nan" ==> KeyText(s) == Quote(s)
    ensures s != "" && (s[0] == '+' || s[0] == '-') && (Lower(s[1..]) == "inf" || Lower(s[1..]) == "nan") ==>
              KeyText(s) == Quote(s)
    ensures Decimal(s) ==> KeyText(s) == Quote(s)
  {
    if n :| s == IntText(n) {
      IntTextResolves(n);
      IntIsDecimal(n);
      DecimalIsNumeric(s);
    }
    if FloatRepr(s) && !(s == "inf" || s == "-inf" || s == "nan") {
      DecimalIsNumeric(s);
    }
    NamedAreNumeric(s);
    if Decimal(s) {
      DecimalHasDecimalChars(s);
      UnsignedDecimal(s);
      DecimalIsNumeric(s);
    }
    hide Numeric, Decimal, Quote, IsIndicator, PlainAt, RESERVED;
  }

  lemma IntIsDecimal(n: int)
    ensures Decimal(Unsigned(IntText(n)))
  {
    IntTextResolves(n);
    var d := DecText(if n < 0 then 0 - n else n);
    assert Unsigned(IntText(n)) == d;
    DigitsAreDecimal(d);
  }

  lemma UnsignedDecimal(s: string)
    requires Decimal(s)
    ensures Unsigned(s) == s
  {
    assert s != "" && (s[0] == '-' || s[0] == '+' ==> SpanDigits(s) == 0);
  }

  lemma NamedAreNumeric(s: string)
    ensures s == "inf" || s == "-inf" || s == "nan" ==> Numeric(s)
    ensures Lower(s) == "inf" || Lower(s) == "infinity" || Lower(s) == "nan" ==> Numeric(s)
    ensures s != "" && (s[0] == '+' || s[0] == '-') && (Lower(s[1..]) == "inf" || Lower(s[1..]) == "nan") ==> Numeric(s)
  {
    if Lower(s) == "inf" || Lower(s) == "infinity" || Lower(s) == "nan" {
      assert LowerChar(s[0]) == Lower(s)[0];
      assert Lower(s)[0] == 'i' || Lower(s)[0] == 'n';
      assert Unsigned(s) == s;
    }
    if s != "" && (s[0] == '+' || s[0] == '-') {
      assert Unsigned(s) == s[1..];
    }
    if s == "-inf" {
      assert s[1..] == "inf" && Lower("inf") == "inf";
    }
    if s == "inf" || s == "nan" {
      assert Lower(s) == s;
    }
    hide Decimal, UnderscoresBetweenDigits, WithoutUnderscores, Lower;
  }
}
