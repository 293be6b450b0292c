/** UTF-8, percent-encoding (RFC 3986, section 2.1) and base64 (RFC 4648, section 4),
    as Python's `str.encode`, `urllib.parse.quote`/`unquote` and `base64` apply them. */
module Codecs {
  import opened Text

  type Byte = b: int | 0 <= b < 256

  // --------------------------------------------------------------------------- UTF-8

  function EncodeChar(c: char): (bs: seq<Byte>)
    ensures 1 <= |bs| <= 4
  {
    var n := c as int;
    if n < 0x80 then [n]
    else if n < 0x800 then [0xC0 + n / 64, 0x80 + n % 64]
    else if n < 0x1_0000 then [0xE0 + n / 4096, 0x80 + n / 64 % 64, 0x80 + n % 64]
    else [0xF0 + n / 262144, 0x80 + n / 4096 % 64, 0x80 + n / 64 % 64, 0x80 + n % 64]
  }

  function Encode(s: string): seq<Byte> {
    if s == "" then [] else EncodeChar(s[0]) + Encode(s[1..])
  }

  /** The payload of a continuation byte, or -1. */
  function Continuation(bs: seq<Byte>, i: nat): int {
    if i < |bs| && 0x80 <= bs[i] < 0xC0 then bs[i] - 0x80 else -1
  }

  /** The first character and its length in bytes, when the bytes are well formed. */
  function DecodeFirst(bs: seq<Byte>): (r: Option<(char, nat)>)
    requires bs != []
    ensures r.Some? ==> 1 <= r.value.1 <= |bs|
  {
    var b, c1, c2, c3 := bs[0], Continuation(bs, 1), Continuation(bs, 2), Continuation(bs, 3);
    if b < 0x80 then Some((b as char, 1))
    else if 0xC2 <= b < 0xE0 && c1 >= 0 then Some((((b - 0xC0) * 64 + c1) as char, 2))
    else if 0xE0 <= b < 0xF0 && c1 >= 0 && c2 >= 0 then
      var n := (b - 0xE0) * 4096 + c1 * 64 + c2;
      if n >= 0x800 && !(0xD800 <= n < 0xE000) then Some((n as char, 3)) else None
    else if 0xF0 <= b < 0xF5 && c1 >= 0 && c2 >= 0 && c3 >= 0 then
      var n := (b - 0xF0) * 262144 + c1 * 4096 + c2 * 64 + c3;
      if 0x1_0000 <= n < 0x11_0000 then Some((n as char, 4)) else None
    else None
  }

  /** A byte that starts no character reads as the replacement character. */
  function Decode(bs: seq<Byte>): string {
    if bs == [] then ""
    else match DecodeFirst(bs)
      case Some((c, n)) => [c] + Decode(bs[n..])
      case None => ['\U{FFFD}'] + Decode(bs[1..])
  }

  lemma DecodeFirstChar(c: char, more: seq<Byte>)
    ensures DecodeFirst(EncodeChar(c) + more) == Some((c, |EncodeChar(c)|))
  {
    var bs := EncodeChar(c);
    var all := bs + more;
    assert forall i: nat | i < |bs| :: all[i] == bs[i];
    SixBits(c as int);
  }

  lemma SixBits(n: nat)
    ensures n == n / 64 * 64 + n % 64
    ensures n == n / 4096 * 4096 + n / 64 % 64 * 64 + n % 64
    ensures n == n / 262144 * 262144 + n / 4096 % 64 * 4096 + n / 64 % 64 * 64 + n % 64
  {
    assert n / 64 / 64 == n / 4096;
    assert n / 4096 / 64 == n / 262144;
  }

  lemma {:induction false} Utf8RoundTrip(s: string)
    ensures Decode(Encode(s)) == s
  {
    if s != "" {
      DecodeFirstChar(s[0], Encode(s[1..]));
      Utf8RoundTrip(s[1..]);
      assert Encode(s)[|EncodeChar(s[0])|..] == Encode(s[1..]);
    }
  }

  predicate Ascii(s: string) {
    forall i | 0 <= i < |s| :: s[i] < '\U{80}'
  }

  lemma {:induction false} EncodeAscii(s: string)
    requires Ascii(s)
    ensures |Encode(s)| == |s| && forall i | 0 <= i < |s| :: Encode(s)[i] == s[i] as int
  {
    if s != "" {
      EncodeAscii(s[1..]);
    }
  }

  // ----------------------------------------------------------------- percent-encoding

  predicate Unreserved(c: char) {
    || IsDigit(c) || 'a' <= c <= 'z' || 'A' <= c <= 'Z'
    || c == '_' || c == '.' || c == '-' || c == '~'
  }

  function HexUpper(d: nat): (c: char)
    requires d < 16
    ensures Unreserved(c)
  {
    if d < 10 then DigitChar(d) else ('A' as int + d - 10) as char
  }

  function HexDigit(b: Byte): int {
    if 48 <= b <= 57 then b - 48
    else if 65 <= b <= 70 then b - 55
    else if 97 <= b <= 102 then b - 87
    else -1
  }

  function QuoteByte(b: Byte): string {
    if b < 128 && Unreserved(b as char) then [b as char]
    else ['%', HexUpper(b / 16), HexUpper(b % 16)]
  }

  function QuoteBytes(bs: seq<Byte>): string {
    if bs == [] then "" else QuoteByte(bs[0]) + QuoteBytes(bs[1..])
  }

  function Quote(s: string): string {
    QuoteBytes(Encode(s))
  }

  /** A percent sign without two hexadecimal digits behind it is kept. */
  function UnquoteBytes(t: seq<Byte>): seq<Byte> {
    if t == [] then []
    else if t[0] == 37 && |t| > 2 && HexDigit(t[1]) >= 0 && HexDigit(t[2]) >= 0 then
      [HexDigit(t[1]) * 16 + HexDigit(t[2])] + UnquoteBytes(t[3..])
    else [t[0]] + UnquoteBytes(t[1..])
  }

  function Unquote(t: string): string {
    Decode(UnquoteBytes(Encode(t)))
  }

  predicate QuotedText(t: string) {
    forall i | 0 <= i < |t| :: Unreserved(t[i]) || t[i] == '%'
  }

  lemma {:induction false} QuoteBytesIsText(bs: seq<Byte>)
    ensures QuotedText(QuoteBytes(bs))
  {
    if bs != [] {
      QuoteBytesIsText(bs[1..]);
    }
  }

  lemma {:induction false} EncodeConcat(a: string, b: string)
    ensures Encode(a + b) == Encode(a) + Encode(b)
  {
    if a == "" {
      assert a + b == b;
    } else {
      assert (a + b)[1..] == a[1..] + b;
      EncodeConcat(a[1..], b);
    }
  }

  lemma UnquoteByte(b: Byte, more: seq<Byte>)
    ensures UnquoteBytes(Encode(QuoteByte(b)) + more) == [b] + UnquoteBytes(more)
  {
    var q := QuoteByte(b);
    EncodeAscii(q);
    var t := Encode(q) + more;
    if |q| == 1 {
      assert t[1..] == more;
    } else {
      assert t[0] == 37;
      assert HexDigit(t[1]) == b / 16 && HexDigit(t[2]) == b % 16;
      assert t[3..] == more;
    }
  }

  lemma {:induction false} UnquoteQuotedBytes(bs: seq<Byte>)
    ensures UnquoteBytes(Encode(QuoteBytes(bs))) == bs
  {
    if bs != [] {
      EncodeConcat(QuoteByte(bs[0]), QuoteBytes(bs[1..]));
      UnquoteByte(bs[0], Encode(QuoteBytes(bs[1..])));
      UnquoteQuotedBytes(bs[1..]);
    }
  }

  /** Any text survives percent-encoding, whatever its characters. */
  lemma QuoteRoundTrip(s: string)
    ensures Unquote(Quote(s)) == s && QuotedText(Quote(s))
  {
    UnquoteQuotedBytes(Encode(s));
    Utf8RoundTrip(s);
    QuoteBytesIsText(Encode(s));
  }

  // --------------------------------------------------------------------------- base64

  function Base64Char(v: nat): (c: char)
    requires v < 64
    ensures Base64Value(c) == v && '+' <= c <= 'z' && c != ':' && c != '<' && c != '-' && c != '_' && c != '='
  {
    if v < 26 then ('A' as int + v) as char
    else if v < 52 then ('a' as int + v - 26) as char
    else if v < 62 then ('0' as int + v - 52) as char
    else if v == 62 then '+' else '/'
  }

  function Base64Value(c: char): (v: int)
    ensures -1 <= v < 64
  {
    if 'A' <= c <= 'Z' then c as int - 'A' as int
    else if 'a' <= c <= 'z' then c as int - 'a' as int + 26
    else if '0' <= c <= '9' then c as int - '0' as int + 52
    else if c == '+' then 62 else if c == '/' then 63 else -1
  }

  function Base64Encode(bs: seq<Byte>): string {
    if bs == [] then ""
    else if |bs| == 1 then [Base64Char(bs[0] / 4), Base64Char(bs[0] % 4 * 16), '=', '=']
    else if |bs| == 2 then
      [Base64Char(bs[0] / 4), Base64Char(bs[0] % 4 * 16 + bs[1] / 16), Base64Char(bs[1] % 16 * 4), '=']
    else
      [Base64Char(bs[0] / 4), Base64Char(bs[0] % 4 * 16 + bs[1] / 16),
       Base64Char(bs[1] % 16 * 4 + bs[2] / 64), Base64Char(bs[2] % 64)] + Base64Encode(bs[3..])
  }

  /** The byte a digit completes, and what it leaves for the next one. */
  function Completed(quad: nat, left: nat, v: nat): seq<Byte>
    requires quad < 4 && left < 64 && v < 64
    requires (quad == 2 ==> left < 16) && (quad == 3 ==> left < 4)
  {
    if quad == 0 then []
    else if quad == 1 then [left * 4 + v / 16]
    else if quad == 2 then [left * 16 + v / 4]
    else [left * 64 + v]
  }

  function Leftover(quad: nat, v: nat): (left: nat)
    requires quad < 4 && v < 64
    ensures left < 64 && (quad == 1 ==> left < 16) && (quad == 2 ==> left < 4)
  {
    if quad == 0 then v else if quad == 1 then v % 16 else if quad == 2 then v % 4 else 0
  }

  /** Python's lenient decoder: characters outside the alphabet are skipped, padding
      that completes a group ends the text, and an incomplete group is an error. */
  function DecodeGroups(s: string, quad: nat, left: nat, pads: nat): Option<seq<Byte>>
    requires quad < 4 && left < 64 && (quad == 2 ==> left < 16) && (quad == 3 ==> left < 4)
  {
    if s == "" then if quad == 0 then Some([]) else None
    else if s[0] == '=' then
      if quad >= 2 && quad + pads + 1 >= 4 then Some([])
      else DecodeGroups(s[1..], quad, left, if quad >= 2 then pads + 1 else pads)
    else if Base64Value(s[0]) < 0 then DecodeGroups(s[1..], quad, left, pads)
    else
      var v := Base64Value(s[0]);
      var rest :- DecodeGroups(s[1..], (quad + 1) % 4, Leftover(quad, v), 0);
      Some(Completed(quad, left, v) + rest)
  }

  function Base64Decode(s: string): Option<seq<Byte>> {
    DecodeGroups(s, 0, 0, 0)
  }

  function Push(bs: seq<Byte>, rest: Option<seq<Byte>>): Option<seq<Byte>> {
    if rest.None? then None else Some(bs + rest.value)
  }

  lemma PushPush(a: seq<Byte>, b: seq<Byte>, rest: Option<seq<Byte>>)
    ensures Push(a, Push(b, rest)) == Push(a + b, rest)
    ensures Push([], rest) == rest
  {
    if rest.Some? {
      assert a + (b + rest.value) == a + b + rest.value;
      assert [] + rest.value == rest.value;
    }
  }

  lemma DecodeDigit(c: char, v: nat, more: string, quad: nat, left: nat)
    requires quad < 4 && left < 64 && (quad == 2 ==> left < 16) && (quad == 3 ==> left < 4)
    requires Base64Value(c) == v < 64
    ensures DecodeGroups([c] + more, quad, left, 0)
         == Push(Completed(quad, left, v), DecodeGroups(more, (quad + 1) % 4, Leftover(quad, v), 0))
  {
    var s := [c] + more;
    assert s[1..] == more && s[0] == c && c != '=';
  }

  /** The first two digits of a group. */
  lemma DecodeTwo(a: char, b: char, va: nat, vb: nat, more: string)
    requires Base64Value(a) == va < 64 && Base64Value(b) == vb < 64
    ensures DecodeGroups([a] + ([b] + more), 0, 0, 0) == Push([va * 4 + vb / 16], DecodeGroups(more, 2, vb % 16, 0))
  {
    hide DecodeGroups, Base64Value, Push;
    DecodeDigit(a, va, [b] + more, 0, 0);
    DecodeDigit(b, vb, more, 1, va);
    PushPush([], [va * 4 + vb / 16], DecodeGroups(more, 2, vb % 16, 0));
    assert [] + [va * 4 + vb / 16] == [va * 4 + vb / 16];
  }

  /** The last two digits of a group. */
  lemma DecodeNextTwo(left: nat, c: char, d: char, vc: nat, vd: nat, more: string)
    requires left < 16 && Base64Value(c) == vc < 64 && Base64Value(d) == vd < 64
    ensures DecodeGroups([c] + ([d] + more), 2, left, 0)
         == Push([left * 16 + vc / 4, vc % 4 * 64 + vd], DecodeGroups(more, 0, 0, 0))
  {
    DecodeDigit(c, vc, [d] + more, 2, left);
    DecodeDigit(d, vd, more, 3, vc % 4);
    PushPush([left * 16 + vc / 4], [vc % 4 * 64 + vd], DecodeGroups(more, 0, 0, 0));
    assert [left * 16 + vc / 4] + [vc % 4 * 64 + vd] == [left * 16 + vc / 4, vc % 4 * 64 + vd];
  }

  lemma DecodePadding(left: nat)
    requires left < 16
    ensures DecodeGroups("==", 2, left, 0) == Some([])
    ensures left < 4 ==> DecodeGroups("=", 3, left, 0) == Some([])
  {
    assert "=="[1..] == "=";
  }

  lemma SplitBytes(x: Byte, y: Byte, z: Byte)
    ensures var va, vb, vc, vd := x / 4, x % 4 * 16 + y / 16, y % 16 * 4 + z / 64, z % 64;
            && va < 64 && vb < 64 && vc < 64 && vd < 64
            && va * 4 + vb / 16 == x && vb % 16 * 16 + vc / 4 == y && vc % 4 * 64 + vd == z
  {
  }

  lemma OneByteRoundTrip(x: Byte)
    ensures Base64Decode(Base64Encode([x])) == Some([x])
  {
    var a, b := Base64Char(x / 4), Base64Char(x % 4 * 16);
    SplitBytes(x, 0, 0);
    DecodePadding(0);
    DecodeTwo(a, b, x / 4, x % 4 * 16, "==");
    assert x % 4 * 16 % 16 == 0;
    assert Base64Encode([x]) == [a] + ([b] + "==");
    assert [x] + [] == [x];
  }

  lemma TwoBytesPrinted(x: Byte, y: Byte)
    ensures Base64Encode([x, y])
         == [Base64Char(x / 4)] + ([Base64Char(x % 4 * 16 + y / 16)] + ([Base64Char(y % 16 * 4)] + "="))
  {
    hide Base64Char;
  }

  /** Two digits, one with two bits to spare, and one mark of padding. */
  lemma DecodeThree(a: char, b: char, c: char, va: nat, vb: nat, vc: nat)
    requires Base64Value(a) == va < 64 && Base64Value(b) == vb < 64 && Base64Value(c) == vc < 64
    ensures DecodeGroups([a] + ([b] + ([c] + "=")), 0, 0, 0) == Some([va * 4 + vb / 16, vb % 16 * 16 + vc / 4])
  {
    DecodePadding(vc % 4);
    DecodeDigit(c, vc, "=", 2, vb % 16);
    DecodeTwo(a, b, va, vb, [c] + "=");
    hide DecodeGroups, Base64Value;
    var x, y := va * 4 + vb / 16, vb % 16 * 16 + vc / 4;
    assert [y] + [] == [y] && [x] + [y] == [x, y];
  }

  lemma TwoBytesRoundTrip(x: Byte, y: Byte)
    ensures Base64Decode(Base64Encode([x, y])) == Some([x, y])
  {
    hide DecodeGroups, Base64Char, Base64Encode;
    var va, vb, vc := x / 4, x % 4 * 16 + y / 16, y % 16 * 4;
    SplitBytes(x, y, 0);
    DecodeThree(Base64Char(va), Base64Char(vb), Base64Char(vc), va, vb, vc);
    TwoBytesPrinted(x, y);
  }

  lemma DecodeFour(a: char, b: char, c: char, d: char, va: nat, vb: nat, vc: nat, vd: nat, more: string)
    requires Base64Value(a) == va < 64 && Base64Value(b) == vb < 64
    requires Base64Value(c) == vc < 64 && Base64Value(d) == vd < 64
    ensures DecodeGroups([a] + ([b] + ([c] + ([d] + more))), 0, 0, 0)
         == Push([va * 4 + vb / 16, vb % 16 * 16 + vc / 4, vc % 4 * 64 + vd], DecodeGroups(more, 0, 0, 0))
  {
    var x, yz := [va * 4 + vb / 16], [vb % 16 * 16 + vc / 4, vc % 4 * 64 + vd];
    DecodeTwo(a, b, va, vb, [c] + ([d] + more));
    DecodeNextTwo(vb % 16, c, d, vc, vd, more);
    PushPush(x, yz, DecodeGroups(more, 0, 0, 0));
    assert x + yz == [va * 4 + vb / 16, vb % 16 * 16 + vc / 4, vc % 4 * 64 + vd];
  }

  lemma ThreeBytesPrinted(bs: seq<Byte>)
    requires |bs| > 2
    ensures Base64Encode(bs)
         == [Base64Char(bs[0] / 4)] + ([Base64Char(bs[0] % 4 * 16 + bs[1] / 16)]
            + ([Base64Char(bs[1] % 16 * 4 + bs[2] / 64)] + ([Base64Char(bs[2] % 64)] + Base64Encode(bs[3..]))))
  {
    hide Base64Char;
    FourDigits(Base64Char(bs[0] / 4), Base64Char(bs[0] % 4 * 16 + bs[1] / 16),
               Base64Char(bs[1] % 16 * 4 + bs[2] / 64), Base64Char(bs[2] % 64), Base64Encode(bs[3..]));
  }

  lemma {:induction false} Base64RoundTrip(bs: seq<Byte>)
    ensures Base64Decode(Base64Encode(bs)) == Some(bs)
  {
    if |bs| == 1 {
      OneByteRoundTrip(bs[0]);
      assert bs == [bs[0]];
    } else if |bs| == 2 {
      TwoBytesRoundTrip(bs[0], bs[1]);
      assert bs == [bs[0], bs[1]];
    } else if |bs| > 2 {
      Base64RoundTrip(bs[3..]);
      GroupRoundTrip(bs);
    }
  }

  lemma GroupRoundTrip(bs: seq<Byte>)
    requires |bs| > 2 && Base64Decode(Base64Encode(bs[3..])) == Some(bs[3..])
    ensures Base64Decode(Base64Encode(bs)) == Some(bs)
  {
    hide DecodeGroups, Base64Char, Base64Value, Base64Encode;
    var va, vb := bs[0] / 4, bs[0] % 4 * 16 + bs[1] / 16;
    var vc, vd := bs[1] % 16 * 4 + bs[2] / 64, bs[2] % 64;
    SplitBytes(bs[0], bs[1], bs[2]);
    DecodeFour(Base64Char(va), Base64Char(vb), Base64Char(vc), Base64Char(vd), va, vb, vc, vd, Base64Encode(bs[3..]));
    ThreeBytesPrinted(bs);
    assert bs == [bs[0], bs[1], bs[2]] + bs[3..];
  }

  lemma FourDigits(a: char, b: char, c: char, d: char, more: string)
    ensures [a, b, c, d] + more == [a] + ([b] + ([c] + ([d] + more)))
  {
  }

  predicate Base64Text(s: string) {
    && |s| % 4 == 0
    && forall i | 0 <= i < |s| :: '+' <= s[i] <= 'z' && s[i] != ':' && s[i] != '<' && s[i] != '-' && s[i] != '_'
  }

  lemma TextConcat(a: string, b: string)
    requires Base64Text(a) && Base64Text(b)
    ensures Base64Text(a + b)
  {
  }

  lemma {:induction false} Base64IsText(bs: seq<Byte>)
    ensures Base64Text(Base64Encode(bs)) && (bs != [] ==> Base64Encode(bs) != "")
  {
    hide Base64Char, Base64Value;
    if |bs| > 2 {
      Base64IsText(bs[3..]);
      var quad := [Base64Char(bs[0] / 4), Base64Char(bs[0] % 4 * 16 + bs[1] / 16),
                   Base64Char(bs[1] % 16 * 4 + bs[2] / 64), Base64Char(bs[2] % 64)];
      assert Base64Encode(bs) == quad + Base64Encode(bs[3..]);
      assert Base64Text(quad);
      hide Base64Encode;
      TextConcat(quad, Base64Encode(bs[3..]));
    }
  }
}
