/**
 * `rgb_to_cmyk`, computed exactly over the reals. The source works on
 * floats and rounds each component to two decimals; neither the float error
 * nor the rounding is modelled here.
 */
module Cmyk {
  import opened Pixels

  datatype Cmyk = Cmyk(c: real, m: real, y: real, k: real)

  function Max3(a: real, b: real, c: real): (r: real)
    ensures (r == a || r == b || r == c) && a <= r && b <= r && c <= r
  {
    if a >= b && a >= c then a else if b >= c then b else c
  }

  /** A channel normalised to [0, 1]. */
  function Unit(c: Channel): (u: real)
    ensures 0.0 <= u <= 1.0
  {
    c as real / 255.0
  }

  predicate InUnit(x: real)
  {
    0.0 <= x <= 1.0
  }

  /**
   * K = 1 - max(r, g, b); when K < 1 each of C, M, Y is (1 - x - K) / (1 - K),
   * and pure black (K = 1) has C = M = Y = 0.
   */
  function RgbToCmyk(px: RGB): (q: Cmyk)
    ensures InUnit(q.c) && InUnit(q.m) && InUnit(q.y) && InUnit(q.k)
  {
    UnitsToCmyk(Unit(px.r), Unit(px.g), Unit(px.b))
  }

  /** The formula on channels already normalised to [0, 1]. */
  function UnitsToCmyk(r: real, g: real, b: real): (q: Cmyk)
    requires InUnit(r) && InUnit(g) && InUnit(b)
    ensures InUnit(q.c) && InUnit(q.m) && InUnit(q.y) && InUnit(q.k)
  {
    var k := 1.0 - Max3(r, g, b);
    if k < 1.0 then
      var d := 1.0 - k;
      Cmyk(Ratio(1.0 - r - k, d), Ratio(1.0 - g - k, d), Ratio(1.0 - b - k, d), k)
    else
      Cmyk(0.0, 0.0, 0.0, k)
  }

  /** n / d for 0 <= n <= d, which lies in [0, 1]. */
  function Ratio(n: real, d: real): (q: real)
    requires 0.0 <= n <= d && d > 0.0
    ensures InUnit(q) && q * d == n
  {
    n / d
  }

  /** The standard way back: x = (1 - C) * (1 - K) for each channel, scaled to 0..255. */
  function CmykToUnits(q: Cmyk): (real, real, real)
  {
    (Back(q.c, q.k), Back(q.m, q.k), Back(q.y, q.k))
  }

  /** (1 - x) * (1 - K): one channel recovered from its component and K. */
  function Back(x: real, k: real): real
  {
    (1.0 - x) * (1.0 - k)
  }

  /** One channel of the way back: (1 - (1 - x - K) / (1 - K)) * (1 - K) == x. */
  lemma ChannelBack(x: real, k: real)
    requires k < 1.0 && 0.0 <= 1.0 - x - k <= 1.0 - k
    ensures Back(Ratio(1.0 - x - k, 1.0 - k), k) == x
  {
    var q := Ratio(1.0 - x - k, 1.0 - k);
    calc {
      Back(q, k);
      (1.0 - q) * (1.0 - k);
      (1.0 - k) - q * (1.0 - k);
      (1.0 - k) - (1.0 - x - k);
    }
  }

  lemma {:induction false} UnitsRoundTrip(r: real, g: real, b: real)
    requires InUnit(r) && InUnit(g) && InUnit(b)
    ensures CmykToUnits(UnitsToCmyk(r, g, b)) == (r, g, b)
  {
    var k := 1.0 - Max3(r, g, b);
    if k < 1.0 {
      var d := 1.0 - k;
      ChannelBack(r, k);
      ChannelBack(g, k);
      ChannelBack(b, k);
    }
  }

  /** Before rounding, the conversion loses nothing: converting back gives the channels. */
  lemma CmykRoundTrip(px: RGB)
    ensures CmykToUnits(RgbToCmyk(px)) == (Unit(px.r), Unit(px.g), Unit(px.b))
  {
    UnitsRoundTrip(Unit(px.r), Unit(px.g), Unit(px.b));
  }

  /** The brightest channel always gets component 0. */
  lemma BrightestChannelIsZero(px: RGB)
    ensures px.r >= px.g && px.r >= px.b ==> RgbToCmyk(px).c == 0.0
    ensures px.g >= px.r && px.g >= px.b ==> RgbToCmyk(px).m == 0.0
    ensures px.b >= px.r && px.b >= px.g ==> RgbToCmyk(px).y == 0.0
  {
  }

  lemma CmykExamples()
    ensures RgbToCmyk(RGB(0, 0, 0)) == Cmyk(0.0, 0.0, 0.0, 1.0)
    ensures RgbToCmyk(RGB(255, 255, 255)) == Cmyk(0.0, 0.0, 0.0, 0.0)
    ensures RgbToCmyk(RGB(255, 0, 0)) == Cmyk(0.0, 1.0, 1.0, 0.0)
  {
  }
}
