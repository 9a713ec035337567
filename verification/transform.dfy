/**
 * The per-image transform (script.py, process_image): a boolean mask from
 * each pixel's RGB channels, then a pointwise choice between the opaque
 * replacement colour and the original pixel. Decoding and encoding are not
 * modelled; the transform takes a decoded RGBA grid and returns one.
 */
module Transform {
  import opened Colour
  import opened Results

  /** One RGBA pixel of a decoded image. */
  datatype Pixel = Pixel(r: Byte, g: Byte, b: Byte, a: Byte)

  /** The first three channels of a pixel, the only ones the match reads. */
  function RgbOf(p: Pixel): Rgb {
    Rgb(p.r, p.g, p.b)
  }

  /** The replacement colour with full opacity. */
  function Opaque(c: Rgb): (p: Pixel)
    requires IsByteColour(c)
    ensures RgbOf(p) == c && p.a == 255
  {
    Pixel(c.r, c.g, c.b, 255)
  }

  /** Two grids have the same number of rows and each row the same length. */
  predicate SameShape<A, B>(x: seq<seq<A>>, y: seq<seq<B>>) {
    |x| == |y| && forall i | 0 <= i < |x| :: |x[i]| == |y[i]|
  }

  /** Every row has the width of the first: a decoded image is rectangular. */
  predicate IsGrid<A>(g: seq<seq<A>>) {
    forall i | 0 <= i < |g| :: |g[i]| == |g[0]|
  }

  type Image = g: seq<seq<Pixel>> | IsGrid(g)

  function Height(img: Image): nat {
    |img|
  }

  function Width(img: Image): nat {
    if |img| == 0 then 0 else |img[0]|
  }

  datatype TransformError = EmptyImage | DecodeFailed | EncodeFailed

  /** The mask of script.py:32: true where the pixel's RGB is similar to the background. */
  function ComputeMask(img: Image, background: Rgb, threshold: int): (mask: seq<seq<bool>>)
    ensures SameShape(mask, img)
    ensures forall i, j | 0 <= i < |img| && 0 <= j < |img[i]| ::
              mask[i][j] <==> IsSimilar(RgbOf(img[i][j]), background, threshold)
  {
    seq(|img|, i requires 0 <= i < |img| =>
      seq(|img[i]|, j requires 0 <= j < |img[i]| => IsSimilar(RgbOf(img[i][j]), background, threshold)))
  }

  /** The pointwise select of script.py:35. */
  function Combine(mask: seq<seq<bool>>, img: Image, replacement: Rgb): (out: Image)
    requires SameShape(mask, img) && IsByteColour(replacement)
    ensures SameShape(out, img)
    ensures forall i, j | 0 <= i < |img| && 0 <= j < |img[i]| ::
              out[i][j] == if mask[i][j] then Opaque(replacement) else img[i][j]
  {
    var out := seq(|img|, i requires 0 <= i < |img| =>
      seq(|img[i]|, j requires 0 <= j < |img[i]| => if mask[i][j] then Opaque(replacement) else img[i][j]));
    assert IsGrid(out) by {
      forall i | 0 <= i < |out| ensures |out[i]| == |out[0]| {
        assert |img[i]| == |img[0]|;
      }
    }
    out
  }

  /**
   * process_image on a decoded grid. np.apply_along_axis refuses an array
   * with a zero-length iteration dimension, so an image without pixels is an
   * error that the source catches and reports; otherwise every matched pixel
   * becomes the opaque replacement and every other pixel is kept, alpha included.
   */
  function ProcessImage(img: Image, background: Rgb, threshold: int, replacement: Rgb): (r: Result<Image, TransformError>)
    requires IsByteColour(replacement)
    ensures r.Failure? <==> Height(img) == 0 || Width(img) == 0
    ensures r.Failure? ==> r.error == EmptyImage
    ensures r.Success? ==> SameShape(r.value, img) && Height(r.value) == Height(img) && Width(r.value) == Width(img)
    ensures r.Success? ==> forall i, j | 0 <= i < |img| && 0 <= j < |img[i]| ::
              IsSimilar(RgbOf(img[i][j]), background, threshold) ==> r.value[i][j] == Opaque(replacement)
    ensures r.Success? ==> forall i, j | 0 <= i < |img| && 0 <= j < |img[i]| ::
              !IsSimilar(RgbOf(img[i][j]), background, threshold) ==> r.value[i][j] == img[i][j]
  {
    if Height(img) == 0 || Width(img) == 0 then
      Failure(EmptyImage)
    else
      Success(Combine(ComputeMask(img, background, threshold), img, replacement))
  }

  /** The mask reads only channels 0..2: grids that differ only in alpha have the same mask. */
  lemma MaskIgnoresAlpha(img1: Image, img2: Image, background: Rgb, threshold: int)
    requires SameShape(img1, img2)
    requires forall i, j | 0 <= i < |img1| && 0 <= j < |img1[i]| :: RgbOf(img1[i][j]) == RgbOf(img2[i][j])
    ensures ComputeMask(img1, background, threshold) == ComputeMask(img2, background, threshold)
  {
    var m1, m2 := ComputeMask(img1, background, threshold), ComputeMask(img2, background, threshold);
    forall i | 0 <= i < |m1| ensures m1[i] == m2[i] {
      assert |m1[i]| == |m2[i]|;
    }
  }

  /** Every output pixel is either the opaque replacement or the pixel it replaces, never a blend. */
  lemma OutputPixelIsOneOfTwo(img: Image, background: Rgb, threshold: int, replacement: Rgb)
    requires IsByteColour(replacement)
    requires ProcessImage(img, background, threshold, replacement).Success?
    ensures var out := ProcessImage(img, background, threshold, replacement).value;
            forall i, j | 0 <= i < |img| && 0 <= j < |img[i]| ::
              (out[i][j] == Opaque(replacement) || out[i][j] == img[i][j]) &&
              (out[i][j].a == 255 || out[i][j].a == img[i][j].a)
  {
  }

  /**
   * Running the transform on its own output changes nothing: a kept pixel is
   * still not similar, and a replaced pixel is replaced by itself if at all.
   */
  lemma {:induction false} ProcessImageIdempotent(img: Image, background: Rgb, threshold: int, replacement: Rgb)
    requires IsByteColour(replacement)
    requires ProcessImage(img, background, threshold, replacement).Success?
    ensures var out := ProcessImage(img, background, threshold, replacement).value;
            ProcessImage(out, background, threshold, replacement) == Success(out)
  {
    var out := ProcessImage(img, background, threshold, replacement).value;
    var again := ProcessImage(out, background, threshold, replacement);
    assert again.Success?;
    var out2 := again.value;
    assert |out2| == |out|;
    forall i | 0 <= i < |out| ensures out2[i] == out[i] {
      assert |out2[i]| == |out[i]| == |img[i]|;
      forall j | 0 <= j < |out[i]| ensures out2[i][j] == out[i][j] {
        var p, q := img[i][j], out[i][j];
        if IsSimilar(RgbOf(p), background, threshold) {
          assert q == Opaque(replacement);
        } else {
          assert q == p;
          assert !IsSimilar(RgbOf(q), background, threshold);
        }
      }
    }
    assert out2 == out;
    assert again == Success(out);
  }

  /**
   * The explicit nested-loop form of script.py:31-35: an image without pixels
   * is refused as apply_along_axis refuses it; otherwise, for every position,
   * test the pixel's RGB and write either the opaque replacement or the pixel.
   * It computes exactly what ProcessImage computes.
   */
  method RecolourGrid(img: Image, background: Rgb, threshold: int, replacement: Rgb)
    returns (r: Result<Image, TransformError>)
    requires IsByteColour(replacement)
    ensures r.Failure? <==> Height(img) == 0 || Width(img) == 0
    ensures r.Success? ==> SameShape(r.value, img)
    ensures r.Success? ==> forall i, j | 0 <= i < |img| && 0 <= j < |img[i]| ::
              r.value[i][j] == if IsSimilar(RgbOf(img[i][j]), background, threshold) then Opaque(replacement) else img[i][j]
    ensures r == ProcessImage(img, background, threshold, replacement)
  {
    if Height(img) == 0 || Width(img) == 0 {
      return Failure(EmptyImage);
    }
    var out: seq<seq<Pixel>> := [];
    var i := 0;
    while i < |img|
      invariant 0 <= i <= |img|
      invariant |out| == i
      invariant forall k | 0 <= k < i :: |out[k]| == |img[k]|
      invariant forall k, j | 0 <= k < i && 0 <= j < |img[k]| ::
                  out[k][j] == if IsSimilar(RgbOf(img[k][j]), background, threshold) then Opaque(replacement) else img[k][j]
    {
      var row: seq<Pixel> := [];
      var j := 0;
      while j < |img[i]|
        invariant 0 <= j <= |img[i]|
        invariant |row| == j
        invariant forall l | 0 <= l < j ::
                    row[l] == if IsSimilar(RgbOf(img[i][l]), background, threshold) then Opaque(replacement) else img[i][l]
      {
        var p := img[i][j];
        var q := if IsSimilar(RgbOf(p), background, threshold) then Opaque(replacement) else p;
        row := row + [q];
        j := j + 1;
      }
      out := out + [row];
      i := i + 1;
    }
    assert IsGrid(out) by {
      forall k | 0 <= k < |out| ensures |out[k]| == |out[0]| {
        assert |img[k]| == |img[0]|;
      }
    }
    var expected := ProcessImage(img, background, threshold, replacement).value;
    assert out == expected by {
      forall k | 0 <= k < |out| ensures out[k] == expected[k] {
        assert |out[k]| == |expected[k]|;
      }
    }
    r := Success(out);
  }

  /** The default run: black background, threshold 50, white replacement. */
  lemma DefaultRunExample()
    ensures ProcessImage([[Pixel(10, 5, 8, 255), Pixel(200, 200, 200, 255)]], Rgb(0, 0, 0), 50, Rgb(255, 255, 255))
            == Success([[Pixel(255, 255, 255, 255), Pixel(200, 200, 200, 255)]])
  {
    var img: Image := [[Pixel(10, 5, 8, 255), Pixel(200, 200, 200, 255)]];
    var white, black := Rgb(255, 255, 255), Rgb(0, 0, 0);
    assert IsSimilar(RgbOf(img[0][0]), black, 50) by {
      assert SquaredDistance(Rgb(10, 5, 8), black) == 189;
    }
    assert !IsSimilar(RgbOf(img[0][1]), black, 50) by {
      assert SquaredDistance(Rgb(200, 200, 200), black) == 120000;
    }
    var r := ProcessImage(img, black, 50, white);
    assert r.Success?;
    var out := r.value;
    assert out[0][0] == Opaque(white);
    assert out[0][1] == img[0][1];
    assert out[0] == [Pixel(255, 255, 255, 255), Pixel(200, 200, 200, 255)];
    assert out == [[Pixel(255, 255, 255, 255), Pixel(200, 200, 200, 255)]];
  }
}
