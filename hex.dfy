/** Hexadecimal colour strings of the form `#RRGGBB`, as the palette writes them,
    and their decoding into red, green and blue channel values. */
module Hex {

  /** An RGB triple; each channel of a decoded colour lies in 0..255. */
  datatype Rgb = Rgb(r: int, g: int, b: int)

  predicate IsByte(v: int) { 0 <= v < 256 }

  predicate IsHexDigit(c: char) {
    ('0' <= c <= '9') || ('a' <= c <= 'f') || ('A' <= c <= 'F')
  }

  /** The value of one hexadecimal digit; upper and lower case are both accepted. */
  function DigitValue(c: char): (v: int)
    requires IsHexDigit(c)
    ensures 0 <= v < 16
  {
    if '0' <= c <= '9' then c as int - '0' as int
    else if 'a' <= c <= 'f' then c as int - 'a' as int + 10
    else c as int - 'A' as int + 10
  }

  /** The digit character of a value below 16, in upper case as most palette entries use. */
  function DigitChar(d: int): (c: char)
    requires 0 <= d < 16
    ensures IsHexDigit(c)
  {
    if d < 10 then (d + '0' as int) as char else (d - 10 + 'A' as int) as char
  }

  /** A string is a colour `#RRGGBB`: seven characters, a hash and six hex digits. */
  predicate IsColor(s: string) {
    |s| == 7 && s[0] == '#' && forall i | 1 <= i < 7 :: IsHexDigit(s[i])
  }

  /** A two-digit field `s[i..i+2]` read in base 16: `16*hi + lo`. */
  function PairValue(s: string, i: nat): (v: int)
    requires i + 2 <= |s| && IsHexDigit(s[i]) && IsHexDigit(s[i + 1])
    ensures IsByte(v)
    ensures v / 16 == DigitValue(s[i]) && v % 16 == DigitValue(s[i + 1])
  {
    16 * DigitValue(s[i]) + DigitValue(s[i + 1])
  }

  /** The channels of a colour: characters 1-2, 3-4 and 5-6. */
  function ColorRgb(s: string): (c: Rgb)
    requires IsColor(s)
    ensures IsByte(c.r) && IsByte(c.g) && IsByte(c.b)
    ensures c.r == PairValue(s, 1) && c.g == PairValue(s, 3) && c.b == PairValue(s, 5)
  {
    Rgb(PairValue(s, 1), PairValue(s, 3), PairValue(s, 5))
  }

  /** The two upper-case digits of a byte. */
  function FormatByte(v: int): (s: string)
    requires IsByte(v)
    ensures |s| == 2 && IsHexDigit(s[0]) && IsHexDigit(s[1])
  {
    [DigitChar(v / 16), DigitChar(v % 16)]
  }

  /** `#RRGGBB` in upper case for a triple of bytes. */
  function FormatColor(c: Rgb): (s: string)
    requires IsByte(c.r) && IsByte(c.g) && IsByte(c.b)
    ensures IsColor(s)
  {
    "#" + FormatByte(c.r) + FormatByte(c.g) + FormatByte(c.b)
  }

  lemma DigitRoundTrip(d: int)
    requires 0 <= d < 16
    ensures DigitValue(DigitChar(d)) == d
  {
  }

  /** Reading the two digits written for a byte gives the byte back. */
  lemma ByteRoundTrip(v: int)
    requires IsByte(v)
    ensures PairValue(FormatByte(v), 0) == v
  {
  }

  /** Decoding an encoded colour gives the triple back. */
  lemma ColorRoundTrip(c: Rgb)
    requires IsByte(c.r) && IsByte(c.g) && IsByte(c.b)
    ensures ColorRgb(FormatColor(c)) == c
  {
  }

  /** Two colours decode to the same triple exactly when they spell the same digit values;
      so upper- and lower-case spellings of one colour decode alike. */
  lemma ColorRgbInjective(s: string, t: string)
    requires IsColor(s) && IsColor(t)
    ensures ColorRgb(s) == ColorRgb(t) <==>
              forall i | 1 <= i < 7 :: DigitValue(s[i]) == DigitValue(t[i])
  {
  }

  /** The lower-case white of the palette and its upper-case spelling are one colour. */
  lemma WhiteSpellings()
    ensures IsColor("#ffffff") && IsColor("#FFFFFF")
    ensures ColorRgb("#ffffff") == ColorRgb("#FFFFFF") == Rgb(255, 255, 255)
  {
    ColorRgbInjective("#ffffff", "#FFFFFF");
  }
}
