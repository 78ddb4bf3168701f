/**
 * `rgb_to_hex`: an RGB triple written as `#` followed by two lower-case
 * hexadecimal digits per channel (Python's `"{:02x}"` on each channel).
 * The parser `ParseHex` is the partner of the formatter: together they are a
 * bijection between in-range triples and well-formed colour strings.
 */
module HexColor {
  import opened Wrappers

  /** A colour channel as the extractor produces it. */
  type Channel = c: int | 0 <= c <= 255

  datatype Rgb = Rgb(r: Channel, g: Channel, b: Channel)

  /** The colour stored for an image whose colour could not be extracted. */
  const Sentinel: string := "#aaaaaa"

  predicate IsLowerHexDigit(ch: char) {
    '0' <= ch <= '9' || 'a' <= ch <= 'f'
  }

  /** `#` followed by exactly six lower-case hexadecimal digits. */
  predicate IsHexColor(s: string) {
    |s| == 7 && s[0] == '#' && forall i :: 1 <= i < 7 ==> IsLowerHexDigit(s[i])
  }

  function HexDigit(d: int): (ch: char)
    requires 0 <= d < 16
    ensures IsLowerHexDigit(ch)
  {
    if d < 10 then ('0' as int + d) as char else ('a' as int + (d - 10)) as char
  }

  function DigitValue(ch: char): (v: Option<int>)
    ensures v.Some? <==> IsLowerHexDigit(ch)
    ensures v.Some? ==> 0 <= v.value < 16 && HexDigit(v.value) == ch
  {
    if '0' <= ch <= '9' then Some(ch as int - '0' as int)
    else if 'a' <= ch <= 'f' then Some(ch as int - 'a' as int + 10)
    else None
  }

  /** One channel as `{:02x}` writes it: two digits, zero-padded, lower case. */
  function Byte2(c: int): (s: string)
    requires 0 <= c <= 255
    ensures |s| == 2 && IsLowerHexDigit(s[0]) && IsLowerHexDigit(s[1])
    ensures DigitValue(s[0]).Some? && DigitValue(s[1]).Some?
    ensures 16 * DigitValue(s[0]).value + DigitValue(s[1]).value == c
  {
    [HexDigit(c / 16), HexDigit(c % 16)]
  }

  /** `rgb_to_hex((r, g, b))`; the source formats without clamping, so the channels must already be in range. */
  function RgbToHex(r: int, g: int, b: int): (s: string)
    requires 0 <= r <= 255 && 0 <= g <= 255 && 0 <= b <= 255
    ensures IsHexColor(s)
  {
    "#" + Byte2(r) + Byte2(g) + Byte2(b)
  }

  /** Two hexadecimal digits read back as one channel. */
  function ParseByte(hi: char, lo: char): (v: Option<Channel>)
    ensures v.Some? <==> IsLowerHexDigit(hi) && IsLowerHexDigit(lo)
  {
    match (DigitValue(hi), DigitValue(lo))
    case (Some(h), Some(l)) => Some(16 * h + l)
    case _ => None
  }

  /** Reads a `#rrggbb` string back as the triple it denotes; anything else is rejected. */
  function ParseHex(s: string): (c: Option<Rgb>)
    ensures c.Some? <==> IsHexColor(s)
  {
    if |s| != 7 || s[0] != '#' then None
    else
      match (ParseByte(s[1], s[2]), ParseByte(s[3], s[4]), ParseByte(s[5], s[6]))
      case (Some(r), Some(g), Some(b)) => Some(Rgb(r, g, b))
      case _ => None
  }

  lemma ParseByte2(c: int)
    requires 0 <= c <= 255
    ensures ParseByte(Byte2(c)[0], Byte2(c)[1]) == Some(c)
  {
  }

  /** Two digits that parse are exactly what `{:02x}` prints for their value. */
  lemma Byte2ParseByte(hi: char, lo: char)
    requires IsLowerHexDigit(hi) && IsLowerHexDigit(lo)
    ensures Byte2(ParseByte(hi, lo).value) == [hi, lo]
  {
    var h, l := DigitValue(hi).value, DigitValue(lo).value;
    assert (16 * h + l) / 16 == h && (16 * h + l) % 16 == l;
  }

  /** Parsing what `rgb_to_hex` printed recovers the triple. */
  lemma ParseRgbToHex(r: Channel, g: Channel, b: Channel)
    ensures ParseHex(RgbToHex(r, g, b)) == Some(Rgb(r, g, b))
  {
    var s := RgbToHex(r, g, b);
    assert s[1..3] == Byte2(r) && s[3..5] == Byte2(g) && s[5..7] == Byte2(b);
    ParseByte2(r);
    ParseByte2(g);
    ParseByte2(b);
  }

  /** Every well-formed colour string is what `rgb_to_hex` prints for the triple it parses to. */
  lemma RgbToHexParse(s: string)
    requires IsHexColor(s)
    ensures ParseHex(s).Some?
    ensures RgbToHex(ParseHex(s).value.r, ParseHex(s).value.g, ParseHex(s).value.b) == s
  {
    var c := ParseHex(s).value;
    Byte2ParseByte(s[1], s[2]);
    Byte2ParseByte(s[3], s[4]);
    Byte2ParseByte(s[5], s[6]);
    assert s == "#" + [s[1], s[2]] + [s[3], s[4]] + [s[5], s[6]];
  }

  /** The formatter is injective on in-range triples. */
  lemma RgbToHexInjective(r: Channel, g: Channel, b: Channel, r': Channel, g': Channel, b': Channel)
    requires RgbToHex(r, g, b) == RgbToHex(r', g', b')
    ensures r == r' && g == g' && b == b'
  {
    ParseRgbToHex(r, g, b);
    ParseRgbToHex(r', g', b');
  }

  /** The sentinel is itself a well-formed colour, the grey (170, 170, 170). */
  lemma SentinelIsGrey()
    ensures RgbToHex(170, 170, 170) == Sentinel
    ensures IsHexColor(Sentinel)
  {
  }
}
