/**
 * Colour matching (script.py, colour_distance and is_similar_colour).
 *
 * The source takes a floating-point square root of the squared Euclidean
 * distance and compares it with an integer threshold, inclusively. For a
 * non-negative threshold t, sqrt(d) <= t holds exactly when d <= t * t, and
 * for a negative threshold it never holds; so the model works on the integer
 * squared distance and needs no floating point.
 */
module Colour {

  /** One 8-bit channel of a decoded image. */
  type Byte = x: int | 0 <= x < 256

  /** An RGB colour as the user enters it: three integers. */
  datatype Rgb = Rgb(r: int, g: int, b: int)

  /** Every channel fits in a byte. */
  predicate IsByteColour(c: Rgb) {
    0 <= c.r < 256 && 0 <= c.g < 256 && 0 <= c.b < 256
  }

  function Square(x: int): (s: nat)
    ensures s == 0 <==> x == 0
  {
    SquareZero(x);
    x * x
  }

  lemma SquareZero(x: int)
    ensures x * x >= 0
    ensures x * x == 0 <==> x == 0
  {
    if x > 0 {
      assert x * x >= x;
    } else if x < 0 {
      assert x * x == (-x) * (-x);
      assert (-x) * (-x) >= -x;
    }
  }

  /** The squared Euclidean distance between two colours over their three channels. */
  function SquaredDistance(c1: Rgb, c2: Rgb): (d: nat)
    ensures d == 0 <==> c1 == c2
  {
    Square(c1.r - c2.r) + Square(c1.g - c2.g) + Square(c1.b - c2.b)
  }

  /**
   * The distance test with an inclusive threshold. A negative threshold
   * matches nothing; any other threshold matches at least the colour itself.
   * SimilarIffRootWithin relates it to the square-root form of the source.
   */
  function IsSimilar(c1: Rgb, c2: Rgb, threshold: int): (similar: bool)
    ensures similar ==> 0 <= threshold
    ensures c1 == c2 ==> (similar <==> 0 <= threshold)
  {
    0 <= threshold && SquaredDistance(c1, c2) <= threshold * threshold
  }

  /** The distance does not depend on the order of its arguments. */
  lemma SquaredDistanceSymmetric(c1: Rgb, c2: Rgb)
    ensures SquaredDistance(c1, c2) == SquaredDistance(c2, c1)
  {
  }

  /** Similarity is symmetric for every threshold. */
  lemma SimilarSymmetric(c1: Rgb, c2: Rgb, threshold: int)
    ensures IsSimilar(c1, c2, threshold) <==> IsSimilar(c2, c1, threshold)
  {
  }

  lemma RealSquareMonotone(a: real, b: real)
    requires 0.0 <= a <= b
    ensures a * a <= b * b
  {
    assert a * a <= a * b;
    assert a * b <= b * b;
  }

  lemma RealSquareStrict(a: real, b: real)
    requires 0.0 <= a < b
    ensures a * a < b * b
  {
    var e := b - a;
    assert b * b == (a + e) * (a + e) == a * a + 2.0 * a * e + e * e;
    assert a * e >= 0.0;
    assert e * e > 0.0;
  }

  /**
   * The integer test agrees with the source's test sqrt(d) <= threshold:
   * for any non-negative real root s of the squared distance, the colours
   * are similar exactly when s is at most the threshold. A negative
   * threshold matches nothing, because a square root is never negative.
   */
  lemma SimilarIffRootWithin(c1: Rgb, c2: Rgb, threshold: int, s: real)
    requires 0.0 <= s && s * s == SquaredDistance(c1, c2) as real
    ensures IsSimilar(c1, c2, threshold) <==> s <= threshold as real
  {
    var d := SquaredDistance(c1, c2);
    var t := threshold as real;
    if threshold < 0 {
      assert !IsSimilar(c1, c2, threshold);
      assert !(s <= t);
    } else {
      assert (threshold * threshold) as real == t * t;
      if s <= t {
        RealSquareMonotone(s, t);
        assert d <= threshold * threshold;
      } else {
        RealSquareStrict(t, s);
        assert d > threshold * threshold;
      }
    }
  }

  /** A colour at distance exactly equal to the threshold matches; one unit less excludes it. */
  lemma BoundaryIncluded(c1: Rgb, c2: Rgb, threshold: int)
    requires 0 <= threshold
    ensures SquaredDistance(c1, c2) == threshold * threshold ==>
              IsSimilar(c1, c2, threshold) && !IsSimilar(c1, c2, threshold - 1)
  {
  }

  /** With threshold 0 only an exact match on all three channels is similar. */
  lemma ZeroThresholdIsEquality(c1: Rgb, c2: Rgb)
    ensures IsSimilar(c1, c2, 0) <==> c1 == c2
  {
  }

  /** The two worked examples with the default background and threshold, and the threshold-0 one. */
  lemma Examples()
    ensures IsSimilar(Rgb(10, 5, 8), Rgb(0, 0, 0), 50)
    ensures !IsSimilar(Rgb(200, 200, 200), Rgb(0, 0, 0), 50)
    ensures IsSimilar(Rgb(0, 0, 0), Rgb(0, 0, 0), 0)
    ensures !IsSimilar(Rgb(1, 0, 0), Rgb(0, 0, 0), 0)
  {
  }

  // ---------------------------------------------------------------------
  // The distance as NumPy 2 evaluates it. The pixel channels reach
  // colour_distance as uint8 scalars and the background channels as Python
  // ints; under NumPy 2 promotion the subtraction, the squaring and the sums
  // all stay uint8 and wrap modulo 256 (NumPy 1 promoted them to int64).
  // ---------------------------------------------------------------------

  function Wrap8(x: int): Byte {
    x % 256
  }

  /**
   * colour_distance's radicand computed in uint8 arithmetic: every step wraps,
   * so the result is the true squared distance reduced modulo 256.
   */
  function Uint8SquaredDistance(pixel: Rgb, background: Rgb): (d: Byte)
    requires IsByteColour(pixel) && IsByteColour(background)
    ensures d == SquaredDistance(pixel, background) % 256
  {
    var er, eg, eb := pixel.r - background.r, pixel.g - background.g, pixel.b - background.b;
    WrappedChannel(er);
    WrappedChannel(eg);
    WrappedChannel(eb);
    Sum3Mod(Square(er), Square(eg), Square(eb));
    var dr := Wrap8(Square(Wrap8(er)));
    var dg := Wrap8(Square(Wrap8(eg)));
    var db := Wrap8(Square(Wrap8(eb)));
    Wrap8(Wrap8(dr + dg) + db)
  }

  /**
   * is_similar_colour as written, evaluated with NumPy 2 uint8 arithmetic: it
   * compares the true squared distance modulo 256 with the squared threshold.
   */
  function IsSimilarAsWritten(pixel: Rgb, background: Rgb, threshold: int): (similar: bool)
    requires IsByteColour(pixel) && IsByteColour(background)
    ensures similar <==> 0 <= threshold && SquaredDistance(pixel, background) % 256 <= threshold * threshold
    ensures IsSimilar(pixel, background, threshold) ==> similar
  {
    0 <= threshold && Uint8SquaredDistance(pixel, background) <= threshold * threshold
  }

  lemma ModShift(x: int, k: int)
    ensures (x + 256 * k) % 256 == x % 256
  {
  }

  lemma SquareMod(x: int)
    ensures Square(x % 256) % 256 == Square(x) % 256
  {
    var q := x / 256;
    var m := x % 256;
    assert x == m + 256 * q;
    assert x * x == m * m + 256 * (2 * m * q + 256 * q * q);
    ModShift(m * m, 2 * m * q + 256 * q * q);
  }

  lemma WrappedChannel(x: int)
    ensures Wrap8(Square(Wrap8(x))) == Square(x) % 256
  {
    SquareMod(x);
  }

  lemma AddMod(x: int, y: int)
    ensures (x % 256 + y % 256) % 256 == (x + y) % 256
  {
    ModShift(x % 256 + y % 256, x / 256 + y / 256);
  }

  lemma Sum3Mod(x: nat, y: nat, z: nat)
    ensures Wrap8(Wrap8(x % 256 + y % 256) + z % 256) == (x + y + z) % 256
  {
    AddMod(x, y);
    AddMod(x + y, z);
  }

  /**
   * The wrap makes a light grey pixel look like the black background: its true
   * squared distance 120000 is far above 50 * 50, but modulo 256 it is 192.
   */
  lemma AsWrittenReplacesLightGrey()
    ensures IsSimilarAsWritten(Rgb(200, 200, 200), Rgb(0, 0, 0), 50)
    ensures !IsSimilar(Rgb(200, 200, 200), Rgb(0, 0, 0), 50)
  {
  }

  /** Even a zero threshold lets through a pixel whose true distance is 16. */
  lemma AsWrittenZeroThresholdMatchesSixteen()
    ensures IsSimilarAsWritten(Rgb(16, 0, 0), Rgb(0, 0, 0), 0)
    ensures !IsSimilar(Rgb(16, 0, 0), Rgb(0, 0, 0), 0)
  {
    assert SquaredDistance(Rgb(16, 0, 0), Rgb(0, 0, 0)) == 256;
  }
}
