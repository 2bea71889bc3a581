/** The colour arithmetic of the LED ring (internal/neopixel/neo.go; of it,
    neopixel/neo.go has only `withBrightness`, with the same statements): a
    colour is a Go `uint32` holding 8-bit red, green and blue channels as
    0xRRGGBB. */
module Colour {

  /** Go's `uint32`. */
  type uint32 = x: int | 0 <= x < 0x1_0000_0000

  /** An 8-bit channel value. */
  type channel = x: int | 0 <= x < 0x100

  /** `(c>>16)&0xff`, `(c>>8)&0xff` and `c&0xff`. */
  function Red(c: uint32): channel { (c / 0x1_0000) % 0x100 }
  function Green(c: uint32): channel { (c / 0x100) % 0x100 }
  function Blue(c: uint32): channel { c % 0x100 }

  /** A colour of the 24-bit range is determined by its three channels. */
  lemma ChannelsDetermine(c: uint32, d: uint32)
    requires c < 0x100_0000 && d < 0x100_0000
    requires Red(c) == Red(d) && Green(c) == Green(d) && Blue(c) == Blue(d)
    ensures c == d
  {
    assert c == Red(c) * 0x1_0000 + Green(c) * 0x100 + Blue(c);
    assert d == Red(d) * 0x1_0000 + Green(d) * 0x100 + Blue(d);
  }

  /** `toRGB`: `r<<16 | g<<8 | b`. For 8-bit channels the shifted values
      occupy disjoint bits, so the OR is a sum; unpacking returns the
      channels, and the result stays within 24 bits. */
  function ToRGB(r: channel, g: channel, b: channel): (c: uint32)
    ensures c < 0x100_0000
    ensures Red(c) == r && Green(c) == g && Blue(c) == b
  {
    var c := r * 0x1_0000 + g * 0x100 + b;
    ByteDivMod(r * 0x100 + g, b);
    ByteDivMod(r, g);
    ByteDivMod(0, r);
    assert c / 0x1_0000 == (c / 0x100) / 0x100;
    c
  }

  /** Euclid's division by 256 of `q * 256 + rest`, for a byte `rest`. */
  lemma ByteDivMod(q: int, rest: int)
    requires 0 <= rest < 0x100
    ensures (q * 0x100 + rest) / 0x100 == q && (q * 0x100 + rest) % 0x100 == rest
  {
  }

  /** Packing the channels of a 24-bit colour gives the colour back. */
  lemma PackUnpack(c: uint32)
    requires c < 0x100_0000
    ensures ToRGB(Red(c), Green(c), Blue(c)) == c
  {
    ChannelsDetermine(ToRGB(Red(c), Green(c), Blue(c)), c);
  }

  /** One channel scaled to `light` percent, rounded down (`ch * light / 100`
      in `uint32`, which cannot overflow for 8-bit channels below 100 %). */
  function Scale(ch: channel, light: int): (s: channel)
    requires 0 <= light < 100
    ensures s <= ch
  {
    Bounded(ch, light);
    ch * light / 100
  }

  lemma Bounded(ch: channel, light: int)
    requires 0 <= light < 100
    ensures 0 <= ch * light <= ch * 100
  {
  }

  /** `withBrightness`: the same colour at `light` percent. At 100 or more
      the colour is returned untouched (even above 24 bits), at 0 it is
      black, below 100 no channel grows and the result fits in 24 bits. */
  function WithBrightness(color: uint32, light: uint32): (c: uint32)
    ensures light >= 100 ==> c == color
    ensures light == 0 ==> c == 0
    ensures light < 100 ==> Red(c) <= Red(color) && Green(c) <= Green(color) && Blue(c) <= Blue(color) && c < 0x100_0000
  {
    if light >= 100 then color
    else if light == 0 then 0
    else ToRGB(Scale(Red(color), light), Scale(Green(color), light), Scale(Blue(color), light))
  }

  /** Strictly between 0 and 100 percent, each channel is the input channel
      times `light / 100`, rounded down. */
  lemma BrightnessScalesChannels(color: uint32, light: uint32)
    requires 0 < light < 100
    ensures var c := WithBrightness(color, light);
      Red(c) * 100 <= Red(color) * light < (Red(c) + 1) * 100 &&
      Green(c) * 100 <= Green(color) * light < (Green(c) + 1) * 100 &&
      Blue(c) * 100 <= Blue(color) * light < (Blue(c) + 1) * 100
  {
    ScaleRoundsDown(Red(color), light);
    ScaleRoundsDown(Green(color), light);
    ScaleRoundsDown(Blue(color), light);
  }

  lemma ScaleRoundsDown(ch: channel, light: int)
    requires 0 <= light < 100
    ensures Scale(ch, light) * 100 <= ch * light < (Scale(ch, light) + 1) * 100
  {
  }

  /** Dimming is monotone: a lower light never gives a brighter channel. */
  lemma BrightnessMonotone(color: uint32, l1: uint32, l2: uint32)
    requires l1 <= l2 < 100
    ensures Red(WithBrightness(color, l1)) <= Red(WithBrightness(color, l2))
    ensures Green(WithBrightness(color, l1)) <= Green(WithBrightness(color, l2))
    ensures Blue(WithBrightness(color, l1)) <= Blue(WithBrightness(color, l2))
  {
    if l1 > 0 {
      ScaleMonotone(Red(color), l1, l2);
      ScaleMonotone(Green(color), l1, l2);
      ScaleMonotone(Blue(color), l1, l2);
    }
  }

  lemma ScaleMonotone(ch: channel, l1: int, l2: int)
    requires 0 <= l1 <= l2 < 100
    ensures Scale(ch, l1) <= Scale(ch, l2)
  {
    assert ch * l1 <= ch * l2;
  }

  /** The cases of the brightness table test. */
  lemma BrightnessTable()
    ensures WithBrightness(0xff0000, 100) == 0xff0000
    ensures WithBrightness(0x00ff00, 100) == 0x00ff00
    ensures WithBrightness(0x0000ff, 100) == 0x0000ff
    ensures WithBrightness(0xff0000, 0) == 0
    ensures WithBrightness(0x00ff00, 0) == 0
    ensures WithBrightness(0x0000ff, 0) == 0
    ensures WithBrightness(0x806040, 50) == 0x403020
  {
    assert Red(0x806040) == 0x80 && Green(0x806040) == 0x60 && Blue(0x806040) == 0x40;
    assert Scale(0x80, 50) == 0x40 && Scale(0x60, 50) == 0x30 && Scale(0x40, 50) == 0x20;
    assert ToRGB(0x40, 0x30, 0x20) == 0x403020;
  }

  /** `getRGB`: the colour wheel, one hue per unit of angle and a period of
      300. Angles are loop steps, never negative. */
  function GetRGB(angle: int): (c: uint32)
    requires angle >= 0
    ensures c < 0x100_0000
    ensures Red(c) == 255 || Green(c) == 255 || Blue(c) == 255
    ensures Red(c) == 0 || Green(c) == 0 || Blue(c) == 0
  {
    Hue(angle % 300)
  }

  /** The wheel position `a` of `getRGB`: six ramps rising or falling by 5
      per unit between the primary and secondary colours; every hue has one
      channel at 255 and one at 0. */
  function Hue(a: int): (c: uint32)
    requires 0 <= a < 300
    ensures c < 0x100_0000
    ensures Red(c) == 255 || Green(c) == 255 || Blue(c) == 255
    ensures Red(c) == 0 || Green(c) == 0 || Blue(c) == 0
  {
    if a <= 50 then ToRGB(255, a * 5, 0)
    else if a <= 100 then ToRGB((100 - a) * 5, 255, 0)
    else if a <= 150 then ToRGB(0, 255, (a - 100) * 5)
    else if a <= 200 then ToRGB(0, (200 - a) * 5, 255)
    else if a <= 250 then ToRGB((a - 200) * 5, 0, 255)
    else ToRGB(255, 0, (300 - a) * 5)
  }

  /** The wheel only depends on the angle modulo 300. */
  lemma WheelPeriod(angle: int)
    requires angle >= 0
    ensures GetRGB(angle + 300) == GetRGB(angle % 300) == GetRGB(angle)
  {
    assert (angle + 300) % 300 == angle % 300;
    assert (angle % 300) % 300 == angle % 300;
  }

  function Dist(x: int, y: int): nat { if x < y then y - x else x - y }

  /** Neighbouring colours: no channel differs by more than 10 (the ramps
      move by 5, and where one ramp hands over to the next the falling
      channel restarts from a multiple of 5 below 255). */
  predicate Close(c: uint32, d: uint32)
  {
    Dist(Red(c), Red(d)) <= 10 && Dist(Green(c), Green(d)) <= 10 && Dist(Blue(c), Blue(d)) <= 10
  }

  /** The wheel is continuous: neighbouring angles, including the wrap from
      299 back to 0, give neighbouring colours. */
  lemma WheelIsSmooth(angle: int)
    requires angle >= 0
    ensures Close(GetRGB(angle), GetRGB(angle + 1))
  {
    var a := angle % 300;
    NextAngle(angle);
    if a == 299 {
      HueWraps();
    } else {
      HueIsSmooth(a);
    }
  }

  lemma NextAngle(angle: int)
    requires angle >= 0
    ensures (angle + 1) % 300 == if angle % 300 == 299 then 0 else angle % 300 + 1
  {
  }

  /** The last hue, red with a trace of blue, sits next to pure red. */
  lemma HueWraps()
    ensures Close(Hue(299), Hue(0))
  {
    assert Hue(299) == ToRGB(255, 0, 5);
    assert Hue(0) == ToRGB(255, 0, 0);
  }

  lemma HueIsSmooth(a: int)
    requires 0 <= a < 299
    ensures Close(Hue(a), Hue(a + 1))
  {
    if a < 50 {
    } else if a < 100 {
    } else if a < 150 {
    } else if a < 200 {
    } else if a < 250 {
    } else {
    }
  }
}
