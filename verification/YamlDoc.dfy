/** The document tree the Clash profile is printed from, and the resolution of
    plain scalars by the core schema (YAML 1.2.2, section 10.3.2). */
module YamlDoc {
  import opened Text

  /** `Real` carries the spelling of a float; its numeric value is not modelled. */
  datatype Doc =
    | Null
    | Bool(b: bool)
    | Int(n: int)
    | Real(lexeme: string)
    | Str(s: string)
    | Map(entries: seq<Entry>)
    | List(items: seq<Doc>)

  datatype Entry = Entry(key: string, value: Doc)

  // ------------------------------------------------------------ number spellings

  function SpanDigits(s: string): (n: nat)
    ensures n <= |s| && AllDigits(s[..n])
    ensures n < |s| ==> !IsDigit(s[n])
  {
    if s == "" || !IsDigit(s[0]) then 0
    else
      var n := SpanDigits(s[1..]);
      assert s[..n + 1] == [s[0]] + s[1..][..n];
      n + 1
  }

  predicate Digits(s: string) {
    s != "" && AllDigits(s)
  }

  predicate Exponent(s: string) {
    s == "" || ((s[0] == 'e' || s[0] == 'E') && Digits(Unsigned(s[1..])))
  }

  /** Unsigned decimal notation, shared by Python's `float` and the core schema:
      digits with an optional fraction, or a bare fraction, then an exponent. */
  predicate Decimal(u: string) {
    var i := SpanDigits(u);
    if i < |u| && u[i] == '.' then
      var f := SpanDigits(u[i + 1..]);
      (i > 0 || f > 0) && Exponent(u[i + 1..][f..])
    else
      i > 0 && Exponent(u[i..])
  }

  predicate DecimalChar(c: char) {
    IsDigit(c) || c == '.' || c == 'e' || c == 'E' || c == '+' || c == '-'
  }

  predicate DecimalChars(s: string) {
    forall i | 0 <= i < |s| :: DecimalChar(s[i])
  }

  lemma DecimalCharsConcat(a: string, b: string)
    requires DecimalChars(a) && DecimalChars(b)
    ensures DecimalChars(a + b)
  {
  }

  lemma ExponentChars(s: string)
    requires Exponent(s)
    ensures DecimalChars(s)
  {
    if s != "" {
      assert s == [s[0]] + s[1..];
      assert Unsigned(s[1..]) == s[1..] || s[1..] == [s[1]] + Unsigned(s[1..]);
    }
  }

  lemma DigitsAreDecimalChars(s: string)
    requires AllDigits(s)
    ensures DecimalChars(s)
  {
  }

  lemma DotIsDecimalChar(s: string)
    requires s == "."
    ensures DecimalChars(s)
  {
  }

  lemma DigitsThenDecimalChars(u: string, n: nat)
    requires n <= |u| && AllDigits(u[..n]) && DecimalChars(u[n..])
    ensures DecimalChars(u)
  {
    DigitsAreDecimalChars(u[..n]);
    DecimalCharsConcat(u[..n], u[n..]);
    assert u == u[..n] + u[n..];
  }

  lemma DecimalHasDecimalChars(u: string)
    requires Decimal(u)
    ensures DecimalChars(u)
  {
    hide Exponent, AllDigits, DecimalChars;
    var i := SpanDigits(u);
    if i < |u| && u[i] == '.' {
      var tail := u[i + 1..];
      var f := SpanDigits(tail);
      ExponentChars(tail[f..]);
      DigitsThenDecimalChars(tail, f);
      DotIsDecimalChar([u[i]]);
      DecimalCharsConcat([u[i]], tail);
      assert u[i..] == [u[i]] + tail;
    } else {
      ExponentChars(u[i..]);
    }
    DigitsThenDecimalChars(u, i);
  }

  // ---------------------------------------------------------------- core schema

  function HexValue(c: char): (v: int)
    ensures -1 <= v < 16
  {
    if '0' <= c <= '9' then c as int - '0' as int
    else if 'a' <= c <= 'f' then c as int - 'a' as int + 10
    else if 'A' <= c <= 'F' then c as int - 'A' as int + 10
    else -1
  }

  predicate RadixDigits(s: string, radix: nat) {
    forall i | 0 <= i < |s| :: 0 <= HexValue(s[i]) < radix
  }

  function RadixValue(s: string, radix: nat): nat
    requires RadixDigits(s, radix)
  {
    if s == "" then 0 else radix * RadixValue(s[..|s| - 1], radix) + HexValue(s[|s| - 1])
  }

  predicate IsOctal(s: string) {
    |s| > 2 && s[0] == '0' && s[1] == 'o' && RadixDigits(s[2..], 8)
  }

  predicate IsHex(s: string) {
    |s| > 2 && s[0] == '0' && s[1] == 'x' && RadixDigits(s[2..], 16)
  }

  predicate IsNotANumber(s: string) {
    s == ".nan" || s == ".NaN" || s == ".NAN"
  }

  predicate IsInfinite(s: string) {
    Unsigned(s) == ".inf" || Unsigned(s) == ".Inf" || Unsigned(s) == ".INF"
  }

  predicate IsNull(s: string) {
    s == "" || s == "~" || s == "null" || s == "Null" || s == "NULL"
  }

  predicate IsTrue(s: string) {
    s == "true" || s == "True" || s == "TRUE"
  }

  predicate IsFalse(s: string) {
    s == "false" || s == "False" || s == "FALSE"
  }

  /** What a plain scalar stands for. */
  function Resolve(s: string): Doc {
    if IsNull(s) then Null
    else if IsTrue(s) then Bool(true)
    else if IsFalse(s) then Bool(false)
    else if Digits(Unsigned(s)) then
      Int(if s[0] == '-' then 0 - DecValue(Unsigned(s)) else DecValue(Unsigned(s)))
    else if IsOctal(s) then Int(RadixValue(s[2..], 8))
    else if IsHex(s) then Int(RadixValue(s[2..], 16))
    else if Decimal(Unsigned(s)) || IsInfinite(s) || IsNotANumber(s) then Real(s)
    else Str(s)
  }
}
