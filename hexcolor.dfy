/** The colour string: `#` followed by the red, green and blue bytes of a
    blue-green-red pixel, each as two lowercase hexadecimal digits. A parser
    for the same format shows the encoding loses nothing. */
module HexColor {
  import opened Common

  const Digits: string := "0123456789abcdef"

  predicate IsLowerHexDigit(c: char) { '0' <= c <= '9' || 'a' <= c <= 'f' }

  /** The lowercase digit of a nibble. */
  function HexDigit(n: int): (c: char)
    requires 0 <= n < 16
    ensures IsLowerHexDigit(c)
  {
    Digits[n]
  }

  /** The value of a lowercase hexadecimal digit, and nothing for any other character. */
  function DigitValue(c: char): (v: Option<int>)
    ensures v.Some? <==> IsLowerHexDigit(c)
    ensures v.Some? ==> 0 <= v.value < 16
  {
    if '0' <= c <= '9' then Some(c as int - '0' as int)
    else if 'a' <= c <= 'f' then Some(c as int - 'a' as int + 10)
    else None
  }

  lemma DigitRoundTrip(n: int)
    requires 0 <= n < 16
    ensures DigitValue(HexDigit(n)) == Some(n)
  {
    assert Digits == ['0', '1', '2', '3', '4', '5', '6', '7', '8', '9', 'a', 'b', 'c', 'd', 'e', 'f'];
  }

  lemma DigitValueRoundTrip(c: char)
    requires IsLowerHexDigit(c)
    ensures HexDigit(DigitValue(c).value) == c
  {
    assert Digits == ['0', '1', '2', '3', '4', '5', '6', '7', '8', '9', 'a', 'b', 'c', 'd', 'e', 'f'];
  }

  /** `{:02x}` of a byte: two lowercase digits, the high nibble first. */
  function Hex2(n: int): (s: string)
    requires IsByte(n)
    ensures |s| == 2 && IsLowerHexDigit(s[0]) && IsLowerHexDigit(s[1])
  {
    [HexDigit(n / 16), HexDigit(n % 16)]
  }

  /** The shape every colour string has: `#` and six lowercase hexadecimal digits. */
  predicate IsColorString(s: string) {
    |s| == 7 && s[0] == '#' && forall i :: 1 <= i < 7 ==> IsLowerHexDigit(s[i])
  }

  /** The colour string of a pixel: red, then green, then blue. */
  function Format(p: Pixel): (s: string)
    requires ValidPixel(p)
    ensures IsColorString(s)
  {
    "#" + Hex2(p.r) + Hex2(p.g) + Hex2(p.b)
  }

  function ParseByte(hi: char, lo: char): (v: Option<int>)
    ensures v.Some? <==> IsLowerHexDigit(hi) && IsLowerHexDigit(lo)
    ensures v.Some? ==> IsByte(v.value)
  {
    match (DigitValue(hi), DigitValue(lo))
    case (Some(h), Some(l)) => Some(16 * h + l)
    case _ => None
  }

  /** Reads a colour string back into a blue-green-red pixel. */
  function Parse(s: string): (r: Option<Pixel>)
    ensures r.Some? <==> IsColorString(s)
    ensures r.Some? ==> ValidPixel(r.value)
  {
    if |s| != 7 || s[0] != '#' then None
    else
      match (ParseByte(s[1], s[2]), ParseByte(s[3], s[4]), ParseByte(s[5], s[6]))
      case (Some(red), Some(green), Some(blue)) => Some(Pixel(blue, green, red))
      case _ => None
  }

  lemma ByteRoundTrip(n: int)
    requires IsByte(n)
    ensures ParseByte(Hex2(n)[0], Hex2(n)[1]) == Some(n)
  {
    DigitRoundTrip(n / 16);
    DigitRoundTrip(n % 16);
  }

  /** Parsing a formatted colour gives the pixel back, channels in place. */
  lemma {:induction false} ParseFormat(p: Pixel)
    requires ValidPixel(p)
    ensures Parse(Format(p)) == Some(p)
  {
    var s := Format(p);
    ByteRoundTrip(p.r);
    ByteRoundTrip(p.g);
    ByteRoundTrip(p.b);
    assert s[1..3] == Hex2(p.r) && s[3..5] == Hex2(p.g) && s[5..7] == Hex2(p.b);
  }

  lemma Hex2OfParsed(hi: char, lo: char)
    requires IsLowerHexDigit(hi) && IsLowerHexDigit(lo)
    ensures Hex2(ParseByte(hi, lo).value) == [hi, lo]
  {
    var h, l := DigitValue(hi).value, DigitValue(lo).value;
    var n := ParseByte(hi, lo).value;
    assert n == 16 * h + l;
    assert n / 16 == h && n % 16 == l;
    DigitValueRoundTrip(hi);
    DigitValueRoundTrip(lo);
  }

  /** Conversely, every colour string is the format of the pixel it parses to,
      so the format is one-to-one and the colour strings are exactly its images. */
  lemma {:induction false} FormatParse(s: string)
    requires IsColorString(s)
    ensures Format(Parse(s).value) == s
  {
    var p := Parse(s).value;
    Hex2OfParsed(s[1], s[2]);
    Hex2OfParsed(s[3], s[4]);
    Hex2OfParsed(s[5], s[6]);
    assert Hex2(p.r) == s[1..3] && Hex2(p.g) == s[3..5] && Hex2(p.b) == s[5..7];
    assert s == s[..1] + s[1..3] + s[3..5] + s[5..7];
  }
}
