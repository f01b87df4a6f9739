/**
 * `UIColor+OWS`: colours built from packed `0xRRGGBB` integers, and the
 * palette aliases that share a value. A colour is kept as its three channel
 * bytes (the numerators of the `CGFloat(byte) / 255.0` the source passes on)
 * and its alpha.
 */
module Colors {

  /** Swift's `UInt` on a 64-bit platform. */
  type UInt = x: int | 0 <= x < 0x1_0000_0000_0000_0000

  datatype Color = Color(red: int, green: int, blue: int, alpha: real)

  /**
   * `init(rgbHex:)`: red, green and blue are `(value >> 16) & 0xff`,
   * `(value >> 8) & 0xff` and `value & 0xff`; alpha is 1.
   */
  function FromRgbHex(value: UInt): (c: Color)
    ensures 0 <= c.red < 256 && 0 <= c.green < 256 && 0 <= c.blue < 256
    ensures c.alpha == 1.0
  {
    Color((value / 0x1_0000) % 0x100, (value / 0x100) % 0x100, value % 0x100, 1.0)
  }

  /** `color(rgbHex:)`: the same colour as `init(rgbHex:)`. */
  function ColorWithRgbHex(value: UInt): (c: Color)
    ensures c == FromRgbHex(value)
  {
    FromRgbHex(value)
  }

  /**
   * The three low bytes, recombined, are the low 24 bits. The steps divide
   * one byte at a time, which keeps the solver's nonlinear reasoning small.
   */
  lemma Base256(v: int)
    requires 0 <= v
    ensures ((v / 0x1_0000) % 0x100) * 0x1_0000 + ((v / 0x100) % 0x100) * 0x100 + v % 0x100 == v % 0x100_0000
  {
    var q0, b := v / 0x100, v % 0x100;
    var q1, g := q0 / 0x100, q0 % 0x100;
    var r := q1 % 0x100;
    assert v == q0 * 0x100 + b;
    assert q0 == q1 * 0x100 + g;
    assert v / 0x1_0000 == q1 by {
      assert v == q1 * 0x1_0000 + (g * 0x100 + b);
    }
    assert v == (q1 / 0x100) * 0x100_0000 + (r * 0x1_0000 + g * 0x100 + b);
  }

  /** The channels are exactly the low 24 bits of the value, red highest. */
  lemma ChannelsAreLow24Bits(value: UInt)
    ensures var c := FromRgbHex(value);
            c.red * 0x1_0000 + c.green * 0x100 + c.blue == value % 0x100_0000
  {
    Base256(value);
  }

  /** Three bytes are determined by their base-256 value. */
  lemma BytesUnique(r1: int, g1: int, b1: int, r2: int, g2: int, b2: int)
    requires 0 <= r1 < 256 && 0 <= g1 < 256 && 0 <= b1 < 256
    requires 0 <= r2 < 256 && 0 <= g2 < 256 && 0 <= b2 < 256
    requires r1 * 0x1_0000 + g1 * 0x100 + b1 == r2 * 0x1_0000 + g2 * 0x100 + b2
    ensures r1 == r2 && g1 == g2 && b1 == b2
  {
  }

  /** Two values with the same low 24 bits give the same colour. */
  lemma SameLow24Bits(v: UInt, w: UInt)
    requires v % 0x100_0000 == w % 0x100_0000
    ensures FromRgbHex(v) == FromRgbHex(w)
  {
    var c1, c2 := FromRgbHex(v), FromRgbHex(w);
    ChannelsAreLow24Bits(v);
    ChannelsAreLow24Bits(w);
    BytesUnique(c1.red, c1.green, c1.blue, c2.red, c2.green, c2.blue);
  }

  /** Bits above bit 23 are ignored. */
  lemma HighBitsIgnored(value: UInt)
    ensures FromRgbHex(value) == FromRgbHex(value % 0x100_0000)
  {
    var low := value % 0x100_0000;
    assert 0 <= low < 0x100_0000;
    SameLow24Bits(value, low);
  }

  /** Packing three bytes as `0xRRGGBB` and decoding gives them back. */
  lemma RoundTrip(red: int, green: int, blue: int)
    requires 0 <= red < 256 && 0 <= green < 256 && 0 <= blue < 256
    ensures FromRgbHex(red * 0x1_0000 + green * 0x100 + blue) == Color(red, green, blue, 1.0)
  {
  }

  // ---------------------------------------------------------------------
  // Palette
  // ---------------------------------------------------------------------

  function OwsWhite(): Color { FromRgbHex(0xFFFFFF) }
  function OwsBlack(): Color { FromRgbHex(0x000000) }
  function LoopLightColor(): Color { OwsWhite() }
  function LoopDarkColor(): Color { OwsBlack() }
  function OwsAccentBlue(): Color { FromRgbHex(0x0666D6) }
  function OwsAccentBlueDark(): Color { FromRgbHex(0x0666D6) }
  function OwsAccentBlueTint(): Color { FromRgbHex(0x0666D6) }
  function OwsScienceBlueLight500(): Color { FromRgbHex(0x0666D6) }

  /** The accent blues are one colour, ultramarine (6, 102, 214), opaque. */
  lemma AccentBlueAliases()
    ensures OwsAccentBlue() == Color(0x06, 0x66, 0xD6, 1.0)
    ensures OwsAccentBlueDark() == OwsAccentBlue()
    ensures OwsAccentBlueTint() == OwsAccentBlue()
  {
  }

  /** Science blue light 500 of the extended palette is the accent blue again. */
  lemma ScienceBlueLight500IsAccentBlue()
    ensures OwsScienceBlueLight500() == OwsAccentBlue() == Color(0x06, 0x66, 0xD6, 1.0)
  {
  }

  /** The loop brand colours are opaque white and black. */
  lemma LoopBrandColors()
    ensures LoopLightColor() == OwsWhite() == Color(255, 255, 255, 1.0)
    ensures LoopDarkColor() == OwsBlack() == Color(0, 0, 0, 1.0)
  {
  }
}
