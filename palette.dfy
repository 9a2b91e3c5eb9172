/**
 * The LED colour constants (class LEDColors), the split of a packed colour
 * into its red, green and blue channels done by RGBLED.set_color, and the
 * brightness scaling applied to each channel before it is written.
 */
module Palette {

  // LEDColors
  const GREEN: int := 0x00FF00
  const RED: int := 0xFF0000
  const BLUE: int := 0x0000FF
  const PURPLE: int := 0xFF00FF
  const YELLOW: int := 0xFF2200
  const WIFI_BLUE: int := 0x00F9E9

  /** `color >> 16`: not masked, so it is a byte only for colours below 2^24.
      Python's `>>` on int floors, as Dafny's `/` does for a positive divisor. */
  function Red(color: int): (r: int)
    ensures 0 <= r < 0x100 <==> 0 <= color < 0x100_0000
  {
    color / 0x10000
  }

  /** `(color & 0x00FF00) >> 8` on Python's unbounded two's-complement ints. */
  function Green(color: int): (g: int)
    ensures 0 <= g < 0x100
  {
    (color % 0x10000) / 0x100
  }

  /** `color & 0x0000FF` */
  function Blue(color: int): (b: int)
    ensures 0 <= b < 0x100
  {
    color % 0x100
  }

  /** The channels put back together give the colour again, for every int;
      green and blue are always bytes, and red is one exactly when the
      colour fits in 24 bits. */
  lemma SplitJoin(color: int)
    ensures Red(color) * 0x10000 + Green(color) * 0x100 + Blue(color) == color
    ensures 0 <= Green(color) < 0x100 && 0 <= Blue(color) < 0x100
    ensures 0 <= Red(color) < 0x100 <==> 0 <= color < 0x100_0000
  {
    var q, low := color / 0x10000, color % 0x10000;
    assert color == 0x10000 * q + low && 0 <= low < 0x10000;
    var g, b := low / 0x100, low % 0x100;
    assert low == 0x100 * g + b && 0 <= b < 0x100;
    DivMod(color, 0x100, 0x100 * q + g, b);
  }

  /** Quotient and remainder are the only pair with the remainder in range. */
  lemma DivMod(x: int, d: Positive, q: int, r: int)
    requires x == d * q + r && 0 <= r < d
    ensures x / d == q && x % d == r
  {
    var q', r' := x / d, x % d;
    assert d * (q - q') == r' - r;
    if q - q' >= 1 {
      MulAtLeast(d, q - q');
      assert false;
    } else if q' - q >= 1 {
      MulAtLeast(d, q' - q);
      assert false;
    }
  }

  /** Channel values of a colour given as bytes. */
  lemma SplitOfBytes(r: int, g: int, b: int)
    requires 0 <= r < 0x100 && 0 <= g < 0x100 && 0 <= b < 0x100
    ensures Red(r * 0x10000 + g * 0x100 + b) == r
    ensures Green(r * 0x10000 + g * 0x100 + b) == g
    ensures Blue(r * 0x10000 + g * 0x100 + b) == b
  {
    var c := r * 0x10000 + g * 0x100 + b;
    SplitJoin(c);
    var r', g', b' := Red(c), Green(c), Blue(c);
    assert r' * 0x10000 + g' * 0x100 + b' == r * 0x10000 + g * 0x100 + b;
    assert 0 <= c < 0x100_0000;
    assert g' * 0x100 + b' < 0x10000 && g * 0x100 + b < 0x10000;
    assert r' == r;
    assert g' * 0x100 + b' == g * 0x100 + b;
  }

  type Positive = n: int | n > 0 witness 1

  /** The configured LED brightness (a float in the source), as the ratio num/den. */
  datatype Brightness = Ratio(num: int, den: Positive)

  /** `int(v * brightness)`: the product, truncated toward zero. */
  function Scale(v: int, brightness: Brightness): (w: int)
    ensures var p, d := brightness.num * v, brightness.den;
      if p >= 0 then 0 <= w && d * w <= p < d * (w + 1)
      else w <= 0 && d * (w - 1) < p <= d * w
  {
    var p := brightness.num * v;
    if p >= 0 then p / brightness.den else -((-p) / brightness.den)
  }

  /** With a brightness in [0, 1], the written value lies between zero and the channel value. */
  lemma ScaleWithinChannel(v: int, brightness: Brightness)
    requires 0 <= v
    requires 0 <= brightness.num <= brightness.den
    ensures 0 <= Scale(v, brightness) <= v
  {
    var p, d := brightness.num * v, brightness.den;
    assert 0 <= p <= d * v by {
      assert (d - brightness.num) * v >= 0;
    }
    var q := p / d;
    assert d * q <= p;
    if q > v {
      MulAtLeast(d, q - v);
      assert false;
    }
  }

  lemma MulAtLeast(d: Positive, k: int)
    requires k >= 1
    ensures d * k >= d
  {
    assert d * k == d + d * (k - 1);
  }

  /** Division undoes multiplication by a positive divisor. */
  lemma DivExact(q: int, d: Positive)
    ensures (d * q) / d == q
  {
    DivMod(d * q, d, q, 0);
  }

  /** At full brightness the value written is the channel value itself. */
  lemma FullBrightness(v: int, d: Positive)
    ensures Scale(v, Ratio(d, d)) == v
  {
    DivExact(v, d);
    DivExact(-v, d);
    assert d * (-v) == -(d * v);
  }
}
