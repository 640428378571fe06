/** Pixel arithmetic of `affinealigner/compute.py`: brightness scaling,
    conversion to bytes and to three-channel images, overlays, channel
    averaging and the intensity-weighted centroid. Values are exact reals;
    float32 rounding is not part of the model.
 */
module Compute {
  import opened Base
  import opened Types

  // ---------------------------------------------------------------------
  // Element-wise helpers
  // ---------------------------------------------------------------------

  /** Applies `f` to every value of a pixel block, keeping its layout. */
  function MapCube(a: seq<seq<seq<real>>>, f: real -> real): (b: seq<seq<seq<real>>>)
    ensures SameLayout(b, a)
    ensures forall r, c, k :: 0 <= r < |a| && 0 <= c < |a[r]| && 0 <= k < |a[r][c]| ==>
              b[r][c][k] == f(a[r][c][k])
  {
    seq(|a|, r requires 0 <= r < |a| =>
      seq(|a[r]|, c requires 0 <= c < |a[r]| =>
        seq(|a[r][c]|, k requires 0 <= k < |a[r][c]| => f(a[r][c][k]))))
  }

  /** Element-wise sum of two blocks of the same layout. */
  function AddCubes(a: seq<seq<seq<real>>>, b: seq<seq<seq<real>>>): (s: seq<seq<seq<real>>>)
    requires SameLayout(a, b)
    ensures SameLayout(s, a)
    ensures forall r, c, k :: 0 <= r < |a| && 0 <= c < |a[r]| && 0 <= k < |a[r][c]| ==>
              s[r][c][k] == a[r][c][k] + b[r][c][k]
  {
    seq(|a|, r requires 0 <= r < |a| =>
      seq(|a[r]|, c requires 0 <= c < |a[r]| =>
        seq(|a[r][c]|, k requires 0 <= k < |a[r][c]| => a[r][c][k] + b[r][c][k])))
  }

  // ---------------------------------------------------------------------
  // std_scale
  // ---------------------------------------------------------------------

  /** One value of `std_scale`: `(v + s) / (2 s)`. */
  function StdScaleValue(v: real, s: real): (u: real)
    requires s != 0.0
    ensures u * (2.0 * s) == v + s
  {
    (v + s) / (2.0 * s)
  }

  /** `std_scale(img, scale)`: a float image of the same shape with every
      value brightness-rescaled. */
  function StdScale(img: Image, s: real): (out: Image)
    requires s != 0.0
    ensures out.dtype == Float32 && SameShape(out, img)
    ensures WellFormed(img) ==> WellFormed(out)
    ensures forall r, c, k :: 0 <= r < |img.data| && 0 <= c < |img.data[r]| && 0 <= k < |img.data[r][c]| ==>
              out.data[r][c][k] * (2.0 * s) == img.data[r][c][k] + s
    ensures forall r, c, k :: 0 <= r < |img.data| && 0 <= c < |img.data[r]| && 0 <= k < |img.data[r][c]| ==>
              out.data[r][c][k] == StdScaleValue(img.data[r][c][k], s)
  {
    Image(Float32, img.ndim, MapCube(img.data, v => StdScaleValue(v, s)))
  }

  /** With a positive scale, `std_scale` sends `-s` to 0 and `s` to 1 and
      keeps the band [-s, s] inside [0, 1], preserving order. */
  lemma StdScaleBand(v: real, w: real, s: real)
    requires s > 0.0
    ensures StdScaleValue(-s, s) == 0.0 && StdScaleValue(s, s) == 1.0
    ensures -s <= v <= s ==> 0.0 <= StdScaleValue(v, s) <= 1.0
    ensures v <= w ==> StdScaleValue(v, s) <= StdScaleValue(w, s)
  {
    var u, t := StdScaleValue(v, s), StdScaleValue(w, s);
    if v <= w {
      assert (t - u) * (2.0 * s) == w - v;
      NonNegativeFactor(t - u, 2.0 * s);
    }
    if -s <= v <= s {
      assert u * (2.0 * s) == v + s;
      NonNegativeFactor(u, 2.0 * s);
      assert (1.0 - u) * (2.0 * s) == s - v;
      NonNegativeFactor(1.0 - u, 2.0 * s);
    }
  }

  lemma NonNegativeFactor(a: real, b: real)
    requires b > 0.0 && a * b >= 0.0
    ensures a >= 0.0
  {
  }

  // ---------------------------------------------------------------------
  // to_uint8, to_rgb24
  // ---------------------------------------------------------------------

  /** A float value stored into uint8 after clamping to [0, 255]: the cast
      truncates the (non-negative) clamped value. */
  function ToByte(v: real): (b: int)
    ensures 0 <= b <= 255
    ensures v < 0.0 ==> b == 0
    ensures v > 255.0 ==> b == 255
    ensures 0.0 <= v <= 255.0 ==> b as real <= v < b as real + 1.0
  {
    if v < 0.0 then 0 else if v > 255.0 then 255 else v.Floor
  }

  /** Bytes pass through `ToByte` unchanged. */
  lemma ToByteOfByte(v: real)
    requires IsByte(v)
    ensures ToByte(v) as real == v
  {
  }

  /** `to_uint8(img, factor)`: a uint8 image is returned as it is; any other
      image is scaled by `factor`, clamped to [0, 255] and truncated. */
  function ToUint8(img: Image, factor: real): (out: Image)
    ensures img.dtype == UInt8 ==> out == img
    ensures img.dtype != UInt8 ==> out.dtype == UInt8 && SameShape(out, img)
    ensures img.dtype != UInt8 ==>
              forall r, c, k :: 0 <= r < |img.data| && 0 <= c < |img.data[r]| && 0 <= k < |img.data[r][c]| ==>
                out.data[r][c][k] == ToByte(img.data[r][c][k] * factor) as real
    ensures WellFormed(img) ==> WellFormed(out) && out.dtype == UInt8
  {
    if img.dtype == UInt8 then img
    else Image(UInt8, img.ndim, MapCube(img.data, v => ToByte(v * factor) as real))
  }

  /** Converting to bytes twice is converting once, whatever the factors. */
  lemma ToUint8Idempotent(img: Image, f: real, g: real)
    requires WellFormed(img)
    ensures ToUint8(ToUint8(img, f), g) == ToUint8(img, f)
  {
  }

  /** Three copies of one value: the pixel of a replicated grayscale image. */
  function Triple(v: real): (p: seq<real>)
    ensures |p| == 3 && p[0] == v && p[1] == v && p[2] == v
  {
    [v, v, v]
  }

  /** `to_rgb24(img, factor)`: a three-dimensional uint8 image is returned as
      it is, any other three-dimensional image goes through `to_uint8`; a
      two-dimensional image becomes three identical channels, each the
      `to_uint8` of the image. */
  function ToRgb24(img: Image, factor: real): (out: Image)
    requires WellFormed(img)
    ensures WellFormed(out) && out.dtype == UInt8 && out.ndim == Three
    ensures img.ndim == Three ==> out == ToUint8(img, factor)
    ensures img.ndim == Three && img.dtype == UInt8 ==> out == img
    ensures img.ndim == Two ==>
              && |out.data| == |img.data|
              && (forall r :: 0 <= r < |img.data| ==> |out.data[r]| == |img.data[r]|)
              && (forall r, c :: 0 <= r < |img.data| && 0 <= c < |img.data[r]| ==>
                    out.data[r][c] == Triple(ToUint8(img, factor).data[r][c][0]))
  {
    if img.ndim == Three then ToUint8(img, factor) else StackGray(ToUint8(img, factor))
  }

  /** `np.stack([img, img, img], axis=2)` of a two-dimensional byte image. */
  function StackGray(u: Image): (out: Image)
    requires WellFormed(u) && u.ndim == Two && u.dtype == UInt8
    ensures WellFormed(out) && out.dtype == UInt8 && out.ndim == Three
    ensures |out.data| == |u.data|
    ensures forall r :: 0 <= r < |u.data| ==> |out.data[r]| == |u.data[r]|
    ensures forall r, c :: 0 <= r < |u.data| && 0 <= c < |u.data[r]| ==> out.data[r][c] == Triple(u.data[r][c][0])
  {
    var d := u.data;
    var stacked := seq(|d|, r requires 0 <= r < |d| =>
                     seq(|d[r]|, c requires 0 <= c < |d[r]| => Triple(d[r][c][0])));
    assert forall r, c :: 0 <= r < |stacked| && 0 <= c < |stacked[r]| ==>
             stacked[r][c] == Triple(d[r][c][0]);
    Image(UInt8, Three, stacked)
  }

  // ---------------------------------------------------------------------
  // to_float_grayscale
  // ---------------------------------------------------------------------

  /** Sum of a vector, left to right. */
  function Sum(v: seq<real>): real
  {
    if |v| == 0 then 0.0 else Sum(v[..|v| - 1]) + v[|v| - 1]
  }

  /** Mean of a non-empty vector. */
  function Mean(v: seq<real>): (m: real)
    requires |v| > 0
    ensures m * (|v| as real) == Sum(v)
  {
    Sum(v) / (|v| as real)
  }

  lemma SumOfTriple(v: real)
    ensures Sum([v, v, v]) == 3.0 * v
  {
    assert [v, v, v][..2] == [v, v];
    assert [v, v][..1] == [v];
    assert [v][..0] == [];
    assert Sum([v]) == v;
    assert Sum([v, v]) == v + v;
  }

  /** A vector of non-negative values has a non-negative sum. */
  lemma {:induction false} SumNonNegative(v: seq<real>)
    requires forall k :: 0 <= k < |v| ==> v[k] >= 0.0
    ensures Sum(v) >= 0.0
  {
    if |v| > 0 {
      SumNonNegative(v[..|v| - 1]);
    }
  }

  /** `to_float_grayscale(img)` as evidently intended: a two-dimensional
      image keeps its values (only its element type becomes float); a
      three-dimensional image is averaged over its channel axis. The code as
      written raises on three-dimensional images instead; see
      `ToFloatGrayscaleAsWritten`. The rest of the model uses this
      definition. */
  function ToFloatGrayscale(img: Image): (g: Image)
    requires WellFormed(img)
    ensures WellFormed(g) && g.dtype == Float32 && g.ndim == Two
    ensures |g.data| == |img.data|
    ensures forall r :: 0 <= r < |img.data| ==> |g.data[r]| == |img.data[r]|
    ensures img.ndim == Two ==> g == img.(dtype := Float32)
    ensures img.ndim == Three ==>
              forall r, c :: 0 <= r < |img.data| && 0 <= c < |img.data[r]| ==>
                g.data[r][c] == [Mean(img.data[r][c])]
  {
    if img.ndim == Two then
      img.(dtype := Float32)
    else
      var d := img.data;
      var avg := seq(|d|, r requires 0 <= r < |d| =>
                   seq(|d[r]|, c requires 0 <= c < |d[r]| => [Mean(d[r][c])]));
      assert forall r, c :: 0 <= r < |avg| && 0 <= c < |avg[r]| ==> avg[r][c] == [Mean(d[r][c])];
      Image(Float32, Two, avg)
  }

  /** `to_float_grayscale(img)` as written: for an image with channels,
      `mean` is given the one-dimensional array `np.arange(2, K)` as its
      axis, which numpy rejects with a TypeError because an axis must be an
      integer or a tuple of integers. Only a two-dimensional image gets
      through, and then it agrees with `ToFloatGrayscale`. */
  function ToFloatGrayscaleAsWritten(img: Image): (r: Result<Image>)
    requires WellFormed(img)
    ensures r.Ok? <==> img.ndim == Two
    ensures r.Ok? ==> r.value == ToFloatGrayscale(img)
    ensures r.Err? ==> r.error == AxisNotScalar
  {
    if img.ndim == Two then Ok(img.(dtype := Float32)) else Err(AxisNotScalar)
  }

  /** A 1 x 1 RGB pixel (30, 60, 90): the code as written raises, where the
      intended channel mean is 60. */
  lemma RgbPixelGrayscaleDiscrepancy()
    ensures var img := Image(UInt8, Three, [[[30.0, 60.0, 90.0]]]);
            && WellFormed(img)
            && ToFloatGrayscaleAsWritten(img) == Err(AxisNotScalar)
            && ToFloatGrayscale(img) == Image(Float32, Two, [[[60.0]]])
  {
    var v := [30.0, 60.0, 90.0];
    assert [30.0][..0] == [] && [30.0, 60.0][..1] == [30.0] && v[..2] == [30.0, 60.0];
    assert Sum([30.0]) == 30.0;
    assert Sum([30.0, 60.0]) == 90.0;
    assert Sum(v) == 180.0;
    assert Mean(v) == 60.0;
    var img := Image(UInt8, Three, [[v]]);
    var g := ToFloatGrayscale(img);
    assert g.data[0][0] == [Mean(v)];
    assert g.data[0] == [[60.0]];
    assert g.data == [[[60.0]]];
  }

  /** Averaging the three replicated channels of `to_rgb24` gives back the
      byte image `to_uint8` produced. */
  lemma GrayscaleOfRgb24(img: Image, factor: real)
    requires WellFormed(img) && img.ndim == Two
    ensures ToFloatGrayscale(ToRgb24(img, factor)) == ToUint8(img, factor).(dtype := Float32)
  {
    var g := ToFloatGrayscale(ToRgb24(img, factor));
    var want := ToUint8(img, factor).(dtype := Float32);
    forall r | 0 <= r < |img.data|
      ensures g.data[r] == want.data[r]
    {
      forall c | 0 <= c < |img.data[r]|
        ensures g.data[r][c] == want.data[r][c]
      {
        GrayscaleOfRgb24Pixel(img, factor, r, c);
      }
    }
    assert g.data == want.data;
  }

  /** One pixel of `GrayscaleOfRgb24`: the mean of three equal channels. */
  lemma GrayscaleOfRgb24Pixel(img: Image, factor: real, r: int, c: int)
    requires WellFormed(img) && img.ndim == Two
    requires 0 <= r < |img.data| && 0 <= c < |img.data[r]|
    ensures |ToFloatGrayscale(ToRgb24(img, factor)).data| == |img.data|
    ensures |ToFloatGrayscale(ToRgb24(img, factor)).data[r]| == |img.data[r]|
    ensures ToFloatGrayscale(ToRgb24(img, factor)).data[r][c] == ToUint8(img, factor).data[r][c]
  {
    var u := ToUint8(img, factor);
    var rgb := ToRgb24(img, factor);
    var v := u.data[r][c][0];
    assert rgb.data[r][c] == Triple(v);
    MeanOfTriple(v);
    assert ToFloatGrayscale(rgb).data[r][c] == [Mean(rgb.data[r][c])];
    assert |u.data[r][c]| == 1;
    assert u.data[r][c] == [v];
  }

  /** The mean of three equal channels is their common value. */
  lemma MeanOfTriple(v: real)
    ensures Mean(Triple(v)) == v
  {
    assert Triple(v) == [v, v, v];
    SumOfTriple(v);
  }

  // ---------------------------------------------------------------------
  // overlay
  // ---------------------------------------------------------------------

  /** `images[n]` holds a value at position (r, c, k). */
  predicate AllHave(images: seq<Image>, r: int, c: int, k: int) {
    forall n :: 0 <= n < |images| ==>
      0 <= r < |images[n].data| && 0 <= c < |images[n].data[r]| && 0 <= k < |images[n].data[r][c]|
  }

  /** Sum of the values at (r, c, k) over a list of images. */
  function SumAt(images: seq<Image>, r: int, c: int, k: int): real
    requires AllHave(images, r, c, k)
  {
    if |images| == 0 then 0.0 else images[0].data[r][c][k] + SumAt(images[1..], r, c, k)
  }

  /** Adds every image of the list onto `acc`, as `overlay`'s loop does. */
  function Accumulate(acc: seq<seq<seq<real>>>, images: seq<Image>): (s: seq<seq<seq<real>>>)
    requires forall n :: 0 <= n < |images| ==> SameLayout(acc, images[n].data)
    ensures SameLayout(s, acc)
    ensures forall r, c, k :: 0 <= r < |acc| && 0 <= c < |acc[r]| && 0 <= k < |acc[r][c]| ==>
              AllHave(images, r, c, k) && s[r][c][k] == acc[r][c][k] + SumAt(images, r, c, k)
    decreases |images|
  {
    if |images| == 0 then acc
    else
      var next := AddCubes(acc, images[0].data);
      assert forall n :: 0 <= n < |images[1..]| ==> SameLayout(next, images[1..][n].data) by {
        forall n | 0 <= n < |images[1..]|
          ensures SameLayout(next, images[1..][n].data)
        {
          assert SameLayout(acc, images[n + 1].data);
        }
      }
      Accumulate(next, images[1..])
  }

  /** Clamps to [0, 255] as `overlay` does before converting to bytes. */
  function Clamp255(v: real): (w: real)
    ensures 0.0 <= w <= 255.0
    ensures 0.0 <= v <= 255.0 ==> w == v
    ensures ToByte(w) == ToByte(v)
  {
    if v < 0.0 then 0.0 else if v > 255.0 then 255.0 else v
  }

  /** Layout agreement chains through a middle block. */
  lemma SameLayoutChain(a: seq<seq<seq<real>>>, b: seq<seq<seq<real>>>, c: seq<seq<seq<real>>>)
    requires SameLayout(a, b) && SameLayout(c, b)
    ensures SameLayout(a, c)
  {
  }

  lemma LayoutMatchesAll(a: seq<seq<seq<real>>>, images: seq<Image>)
    requires |images| >= 1 && SameLayout(a, images[0].data)
    requires forall n :: 0 <= n < |images| ==> SameShape(images[n], images[0])
    ensures forall n :: 0 <= n < |images| ==> SameLayout(a, images[n].data)
  {
    forall n | 0 <= n < |images|
      ensures SameLayout(a, images[n].data)
    {
      SameLayoutChain(a, images[0].data, images[n].data);
    }
  }

  /** A non-byte block laid out like a well-formed image is well formed. */
  lemma WellFormedLikeShape(a: Image, b: Image)
    requires WellFormed(b) && SameShape(a, b) && a.dtype != UInt8
    ensures WellFormed(a)
  {
  }

  /** The float image `overlay` builds before converting to bytes: the
      element-wise sum of all images, clamped to [0, 255]. */
  function ClampedSum(images: seq<Image>): (out: Image)
    requires |images| >= 1
    requires forall n :: 0 <= n < |images| ==> WellFormed(images[n]) && SameShape(images[n], images[0])
    ensures WellFormed(out) && out.dtype == Float32 && SameShape(out, images[0])
    ensures forall r, c, k :: 0 <= r < |images[0].data| && 0 <= c < |images[0].data[r]| && 0 <= k < |images[0].data[r][c]| ==>
              AllHave(images, r, c, k) && out.data[r][c][k] == Clamp255(SumAt(images, r, c, k))
  {
    var out := Image(Float32, images[0].ndim, MapCube(SummedCube(images), Clamp255));
    WellFormedLikeShape(out, images[0]);
    out
  }

  /** `overlaid` after the loop: zeros shaped like the first image plus every
      image. */
  function SummedCube(images: seq<Image>): (s: seq<seq<seq<real>>>)
    requires |images| >= 1
    requires forall n :: 0 <= n < |images| ==> SameShape(images[n], images[0])
    ensures SameLayout(s, images[0].data)
    ensures forall r, c, k :: 0 <= r < |images[0].data| && 0 <= c < |images[0].data[r]| && 0 <= k < |images[0].data[r][c]| ==>
              AllHave(images, r, c, k) && s[r][c][k] == SumAt(images, r, c, k)
  {
    var zeros := MapCube(images[0].data, v => 0.0);
    LayoutMatchesAll(zeros, images);
    Accumulate(zeros, images)
  }

  /** `overlay(*images)`: no image is an error, one image is returned
      unchanged, and two or more images of one shape are summed, clamped and
      converted with `to_rgb24(..., factor=1)`. */
  function Overlay(images: seq<Image>): (res: Result<Image>)
    requires forall n :: 0 <= n < |images| ==> WellFormed(images[n])
    ensures |images| == 0 ==> res == Err(NoImagesToOverlay)
    ensures |images| == 1 ==> res == Ok(images[0])
    ensures |images| >= 2 ==>
              (res.Ok? <==> forall n :: 0 <= n < |images| ==> SameShape(images[n], images[0]))
    ensures |images| >= 2 && res.Err? ==> res.error == ShapeMismatch
    ensures |images| >= 2 && res.Ok? ==>
              res.value == ToRgb24(ClampedSum(images), 1.0) && res.value.dtype == UInt8 && res.value.ndim == Three
  {
    if |images| == 0 then Err(NoImagesToOverlay)
    else if |images| == 1 then Ok(images[0])
    else if exists n :: 0 <= n < |images| && !SameShape(images[n], images[0]) then Err(ShapeMismatch)
    else Ok(ToRgb24(ClampedSum(images), 1.0))
  }

  /** Each value `overlay` returns for two or more images is the element-wise
      sum of the inputs clamped to [0, 255] (and truncated); a grayscale sum
      is replicated into three channels. */
  lemma OverlayIsClampedSum(images: seq<Image>, r: int, c: int)
    requires |images| >= 2
    requires forall n :: 0 <= n < |images| ==> WellFormed(images[n])
    requires Overlay(images).Ok?
    requires 0 <= r < |images[0].data| && 0 <= c < |images[0].data[r]|
    ensures var out := Overlay(images).value;
            && 0 <= r < |out.data| && 0 <= c < |out.data[r]|
            && (images[0].ndim == Three ==>
                  |out.data[r][c]| == |images[0].data[r][c]|
                  && forall k :: 0 <= k < |images[0].data[r][c]| ==>
                       AllHave(images, r, c, k) && out.data[r][c][k] == ToByte(SumAt(images, r, c, k)) as real)
            && (images[0].ndim == Two ==>
                  AllHave(images, r, c, 0) && out.data[r][c] == Triple(ToByte(SumAt(images, r, c, 0)) as real))
  {
    var s := ClampedSum(images);
    var out := Overlay(images).value;
    assert out == ToRgb24(s, 1.0);
    if images[0].ndim == Three {
      assert out == ToUint8(s, 1.0);
      forall k | 0 <= k < |images[0].data[r][c]|
        ensures AllHave(images, r, c, k) && out.data[r][c][k] == ToByte(SumAt(images, r, c, k)) as real
      {
        assert s.data[r][c][k] == Clamp255(SumAt(images, r, c, k));
        assert s.data[r][c][k] * 1.0 == s.data[r][c][k];
      }
    } else {
      assert |images[0].data[r][c]| == 1;
      assert s.data[r][c][0] == Clamp255(SumAt(images, r, c, 0));
      assert ToUint8(s, 1.0).data[r][c][0] == ToByte(s.data[r][c][0] * 1.0) as real;
    }
  }

  // ---------------------------------------------------------------------
  // center_of_mass
  // ---------------------------------------------------------------------

  /** `|a| == |b|` row for row: two 2-D arrays of the same layout. */
  predicate SameLayout2<A, B>(a: seq<seq<A>>, b: seq<seq<B>>) {
    |a| == |b| && forall r :: 0 <= r < |a| ==> |a[r]| == |b[r]|
  }

  /** The single channel of a two-dimensional image as a plane of values. */
  function Plane(g: Image): (p: seq<seq<real>>)
    requires WellFormed(g) && g.ndim == Two
    ensures SameLayout2(p, g.data)
    ensures forall r, c :: 0 <= r < |g.data| && 0 <= c < |g.data[r]| ==> p[r][c] == g.data[r][c][0]
  {
    seq(|g.data|, r requires 0 <= r < |g.data| =>
      seq(|g.data[r]|, c requires 0 <= c < |g.data[r]| => g.data[r][c][0]))
  }

  /** Sum of every value of a plane (`img.sum()`). */
  function Total(p: seq<seq<real>>): real
  {
    Sum(RowSums(p))
  }

  /** The sum of each row of a plane. */
  function RowSums(p: seq<seq<real>>): (s: seq<real>)
    ensures |s| == |p| && forall r :: 0 <= r < |p| ==> s[r] == Sum(p[r])
  {
    seq(|p|, r requires 0 <= r < |p| => Sum(p[r]))
  }

  /** Sum of `G[k] * v[k]` over one row. */
  function RowDot(g: seq<int>, v: seq<real>): real
    requires |g| == |v|
  {
    if |v| == 0 then 0.0 else RowDot(g[..|g| - 1], v[..|v| - 1]) + (g[|g| - 1] as real) * v[|v| - 1]
  }

  /** `(G * p).sum()` for a grid and a plane of the same shape. */
  function Dot(g: Grid, p: seq<seq<real>>): real
    requires SameLayout2(g, p)
  {
    Sum(RowDots(g, p))
  }

  /** The weighted sum of each row of a plane. */
  function RowDots(g: Grid, p: seq<seq<real>>): (s: seq<real>)
    requires SameLayout2(g, p)
    ensures |s| == |p| && forall r :: 0 <= r < |p| ==> s[r] == RowDot(g[r], p[r])
  {
    seq(|p|, r requires 0 <= r < |p| => RowDot(g[r], p[r]))
  }

  /** The single-channel plane `center_of_mass` weighs: the image after
      `to_float_grayscale`. */
  function Gray(img: Image): (g: seq<seq<real>>)
    requires WellFormed(img)
    ensures SameLayout2(g, img.data)
  {
    Plane(ToFloatGrayscale(img))
  }

  /** The grids `center_of_mass` uses: the given ones, or by default those of
      `Coordinates.from_image` on the grayscale image (whose first two
      dimensions are the image's). */
  function GridsFor(img: Image, coords: Option<Coordinates>): (c: Coordinates)
    requires WellFormed(img)
    ensures coords.Some? ==> c == coords.value
    ensures coords.None? ==> c == FromImage(img)
  {
    if coords.Some? then coords.value else FromImage(ToFloatGrayscale(img))
  }

  /** `center_of_mass(img, coords, as_int=False)`. A grid shaped unlike the
      image is an error, and so is a zero total weight (where numpy produces
      NaN or infinity). Otherwise the centroid is the intensity-weighted mean
      of the row grid and of the column grid. */
  function CenterOfMass(img: Image, coords: Option<Coordinates>): (res: Result<Point<real>>)
    requires WellFormed(img)
    ensures var g, c := Gray(img), GridsFor(img, coords);
            && (res.Ok? <==> SameLayout2(c.I, g) && SameLayout2(c.J, g) && Total(g) != 0.0)
            && (res.Err? ==> res.error == (if SameLayout2(c.I, g) && SameLayout2(c.J, g) then NonFiniteCentroid else ShapeMismatch))
            && (res.Ok? ==> res.value == Point(WeightedMean(c.I, g), WeightedMean(c.J, g)))
  {
    var g, c := Gray(img), GridsFor(img, coords);
    if !(SameLayout2(c.I, g) && SameLayout2(c.J, g)) then Err(ShapeMismatch)
    else
      var w := Total(g);
      if w == 0.0 then Err(NonFiniteCentroid)
      else Ok(Point(WeightedMean(c.I, g), WeightedMean(c.J, g)))
  }

  /** `(G * p).sum() / p.sum()`: the mean of the grid values weighted by the
      plane. */
  function WeightedMean(grid: Grid, p: seq<seq<real>>): (m: real)
    requires SameLayout2(grid, p) && Total(p) != 0.0
    ensures m * Total(p) == Dot(grid, p)
  {
    Dot(grid, p) / Total(p)
  }

  /** Python's `round` on a float: the nearest integer, ties to even. */
  function RoundHalfEven(x: real): (n: int)
    ensures -0.5 <= n as real - x <= 0.5
    ensures (n as real - x == 0.5 || x - n as real == 0.5) ==> n % 2 == 0
  {
    var f := x.Floor;
    var d := x - f as real;
    if d < 0.5 then f
    else if d > 0.5 then f + 1
    else if f % 2 == 0 then f
    else f + 1
  }

  /** The two properties of `RoundHalfEven` determine it: no other integer is
      within one half of `x` and even on a tie. */
  lemma RoundHalfEvenUnique(x: real, m: int)
    requires -0.5 <= m as real - x <= 0.5
    requires (m as real - x == 0.5 || x - m as real == 0.5) ==> m % 2 == 0
    ensures m == RoundHalfEven(x)
  {
  }

  /** Rounding never leaves an interval with integer ends. */
  lemma RoundWithin(x: real, lo: int, hi: int)
    requires lo as real <= x <= hi as real
    ensures lo <= RoundHalfEven(x) <= hi
  {
  }

  /** `center_of_mass(img, coords, as_int=True)`: the exact centroid with
      both coordinates rounded half to even. A zero total weight is an
      error here in the source too (`round` of NaN or infinity raises). */
  function CenterOfMassRounded(img: Image, coords: Option<Coordinates>): (res: Result<Point<int>>)
    requires WellFormed(img)
    ensures res.Ok? <==> CenterOfMass(img, coords).Ok?
    ensures res.Err? ==> res.error == CenterOfMass(img, coords).error
    ensures res.Ok? ==>
              var p := CenterOfMass(img, coords).value;
              && -0.5 <= res.value.i as real - p.i <= 0.5
              && -0.5 <= res.value.j as real - p.j <= 0.5
              && ((res.value.i as real - p.i == 0.5 || p.i - res.value.i as real == 0.5) ==> res.value.i % 2 == 0)
              && ((res.value.j as real - p.j == 0.5 || p.j - res.value.j as real == 0.5) ==> res.value.j % 2 == 0)
  {
    var p :- CenterOfMass(img, coords);
    Ok(Point(RoundHalfEven(p.i), RoundHalfEven(p.j)))
  }

  // ---------------------------------------------------------------------
  // Where the centroid can lie
  // ---------------------------------------------------------------------

  /** Every value of the image is non-negative. */
  predicate NonNegativeImage(img: Image) {
    forall r, c, k :: 0 <= r < |img.data| && 0 <= c < |img.data[r]| && 0 <= k < |img.data[r][c]| ==>
      img.data[r][c][k] >= 0.0
  }

  /** Every value of the plane is non-negative. */
  predicate NonNegativePlane(p: seq<seq<real>>) {
    forall r, c :: 0 <= r < |p| && 0 <= c < |p[r]| ==> p[r][c] >= 0.0
  }

  /** Every grid value lies in [lo, hi]. */
  predicate GridWithin(g: Grid, lo: int, hi: int) {
    forall r, c :: 0 <= r < |g| && 0 <= c < |g[r]| ==> lo <= g[r][c] <= hi
  }

  /** A product with a non-negative factor keeps the order of the other. */
  lemma ScaleMonotone(a: real, b: real, x: real)
    requires a <= b && x >= 0.0
    ensures a * x <= b * x
  {
    assert (b - a) * x >= 0.0;
  }

  /** Multiplying a sum distributes. */
  lemma Distribute(l: real, s: real, x: real)
    ensures l * (s + x) == l * s + l * x
  {
  }

  /** With non-negative weights, a weighted row sum is at least the smallest
      grid value times the total weight. */
  lemma {:induction false} RowDotLower(g: seq<int>, v: seq<real>, l: real)
    requires |g| == |v|
    requires forall k :: 0 <= k < |g| ==> l <= g[k] as real
    requires forall k :: 0 <= k < |v| ==> v[k] >= 0.0
    ensures l * Sum(v) <= RowDot(g, v)
  {
    if |v| > 0 {
      var n := |v| - 1;
      var s, x := Sum(v[..n]), v[n];
      assert l * s <= RowDot(g[..n], v[..n]) by {
        RowDotLower(g[..n], v[..n], l);
      }
      ScaleMonotone(l, g[n] as real, x);
      Distribute(l, s, x);
    }
  }

  /** ... and at most the largest grid value times the total weight. */
  lemma {:induction false} RowDotUpper(g: seq<int>, v: seq<real>, h: real)
    requires |g| == |v|
    requires forall k :: 0 <= k < |g| ==> g[k] as real <= h
    requires forall k :: 0 <= k < |v| ==> v[k] >= 0.0
    ensures RowDot(g, v) <= h * Sum(v)
  {
    if |v| > 0 {
      var n := |v| - 1;
      var s, x := Sum(v[..n]), v[n];
      assert RowDot(g[..n], v[..n]) <= h * s by {
        RowDotUpper(g[..n], v[..n], h);
      }
      ScaleMonotone(g[n] as real, h, x);
      Distribute(h, s, x);
    }
  }

  /** Element-wise bounds `l * b[k] <= a[k]` carry over to the sums. */
  lemma {:induction false} SumScaledLower(a: seq<real>, b: seq<real>, l: real)
    requires |a| == |b|
    requires forall k :: 0 <= k < |a| ==> l * b[k] <= a[k]
    ensures l * Sum(b) <= Sum(a)
  {
    if |a| > 0 {
      var n := |a| - 1;
      SumScaledLower(a[..n], b[..n], l);
      Distribute(l, Sum(b[..n]), b[n]);
    }
  }

  /** Element-wise bounds `a[k] <= h * b[k]` carry over to the sums. */
  lemma {:induction false} SumScaledUpper(a: seq<real>, b: seq<real>, h: real)
    requires |a| == |b|
    requires forall k :: 0 <= k < |a| ==> a[k] <= h * b[k]
    ensures Sum(a) <= h * Sum(b)
  {
    if |a| > 0 {
      var n := |a| - 1;
      SumScaledUpper(a[..n], b[..n], h);
      Distribute(h, Sum(b[..n]), b[n]);
    }
  }

  /** The lower bound over a whole plane. */
  lemma DotLower(g: Grid, p: seq<seq<real>>, l: real)
    requires SameLayout2(g, p) && NonNegativePlane(p)
    requires forall r, c :: 0 <= r < |g| && 0 <= c < |g[r]| ==> l <= g[r][c] as real
    ensures l * Total(p) <= Dot(g, p)
  {
    RowsLower(g, p, l);
    DotFromRowsLower(g, p, l);
  }

  /** Row-wise lower bounds add up over the plane. */
  lemma DotFromRowsLower(g: Grid, p: seq<seq<real>>, l: real)
    requires SameLayout2(g, p)
    requires forall r :: 0 <= r < |p| ==> l * RowSums(p)[r] <= RowDots(g, p)[r]
    ensures l * Total(p) <= Dot(g, p)
  {
    SumScaledLower(RowDots(g, p), RowSums(p), l);
  }

  /** The lower bound for every row of a plane. */
  lemma RowsLower(g: Grid, p: seq<seq<real>>, l: real)
    requires SameLayout2(g, p) && NonNegativePlane(p)
    requires forall r, c :: 0 <= r < |g| && 0 <= c < |g[r]| ==> l <= g[r][c] as real
    ensures forall r :: 0 <= r < |p| ==> l * RowSums(p)[r] <= RowDots(g, p)[r]
  {
    forall r | 0 <= r < |p|
      ensures l * RowSums(p)[r] <= RowDots(g, p)[r]
    {
      RowLower(g, p, l, r);
    }
  }

  /** The lower bound for row `r` of a plane. */
  lemma RowLower(g: Grid, p: seq<seq<real>>, l: real, r: int)
    requires SameLayout2(g, p) && NonNegativePlane(p) && 0 <= r < |p|
    requires forall r, c :: 0 <= r < |g| && 0 <= c < |g[r]| ==> l <= g[r][c] as real
    ensures l * RowSums(p)[r] <= RowDots(g, p)[r]
  {
    var gr, pr := g[r], p[r];
    assert forall k :: 0 <= k < |gr| ==> l <= gr[k] as real;
    assert forall k :: 0 <= k < |pr| ==> pr[k] >= 0.0;
    RowDotLower(gr, pr, l);
    assert RowSums(p)[r] == Sum(pr) && RowDots(g, p)[r] == RowDot(gr, pr);
  }

  /** The upper bound over a whole plane. */
  lemma DotUpper(g: Grid, p: seq<seq<real>>, h: real)
    requires SameLayout2(g, p) && NonNegativePlane(p)
    requires forall r, c :: 0 <= r < |g| && 0 <= c < |g[r]| ==> g[r][c] as real <= h
    ensures Dot(g, p) <= h * Total(p)
  {
    RowsUpper(g, p, h);
    DotFromRowsUpper(g, p, h);
  }

  /** Row-wise upper bounds add up over the plane. */
  lemma DotFromRowsUpper(g: Grid, p: seq<seq<real>>, h: real)
    requires SameLayout2(g, p)
    requires forall r :: 0 <= r < |p| ==> RowDots(g, p)[r] <= h * RowSums(p)[r]
    ensures Dot(g, p) <= h * Total(p)
  {
    SumScaledUpper(RowDots(g, p), RowSums(p), h);
  }

  /** The upper bound for every row of a plane. */
  lemma RowsUpper(g: Grid, p: seq<seq<real>>, h: real)
    requires SameLayout2(g, p) && NonNegativePlane(p)
    requires forall r, c :: 0 <= r < |g| && 0 <= c < |g[r]| ==> g[r][c] as real <= h
    ensures forall r :: 0 <= r < |p| ==> RowDots(g, p)[r] <= h * RowSums(p)[r]
  {
    forall r | 0 <= r < |p|
      ensures RowDots(g, p)[r] <= h * RowSums(p)[r]
    {
      RowUpper(g, p, h, r);
    }
  }

  /** The upper bound for row `r` of a plane. */
  lemma RowUpper(g: Grid, p: seq<seq<real>>, h: real, r: int)
    requires SameLayout2(g, p) && NonNegativePlane(p) && 0 <= r < |p|
    requires forall r, c :: 0 <= r < |g| && 0 <= c < |g[r]| ==> g[r][c] as real <= h
    ensures RowDots(g, p)[r] <= h * RowSums(p)[r]
  {
    var gr, pr := g[r], p[r];
    assert forall k :: 0 <= k < |gr| ==> gr[k] as real <= h;
    assert forall k :: 0 <= k < |pr| ==> pr[k] >= 0.0;
    RowDotUpper(gr, pr, h);
    assert RowSums(p)[r] == Sum(pr) && RowDots(g, p)[r] == RowDot(gr, pr);
  }

  /** A non-negative plane has a non-negative total. */
  lemma TotalNonNegative(p: seq<seq<real>>)
    requires NonNegativePlane(p)
    ensures Total(p) >= 0.0
  {
    forall r | 0 <= r < |p|
      ensures RowSums(p)[r] >= 0.0
    {
      SumNonNegative(p[r]);
    }
    SumNonNegative(RowSums(p));
  }

  /** Averaging channels keeps intensities non-negative. */
  lemma GrayNonNegative(img: Image)
    requires WellFormed(img) && NonNegativeImage(img)
    ensures NonNegativePlane(Gray(img))
  {
    var g := ToFloatGrayscale(img);
    forall r, c | 0 <= r < |img.data| && 0 <= c < |img.data[r]|
      ensures Gray(img)[r][c] >= 0.0
    {
      if img.ndim == Three {
        var v := img.data[r][c];
        SumNonNegative(v);
        NonNegativeFactor(Mean(v), |v| as real);
      }
    }
  }

  /** A weighted mean with non-negative weights lies within the range of the
      grid values. */
  lemma WeightedMeanWithin(g: Grid, p: seq<seq<real>>, lo: int, hi: int)
    requires SameLayout2(g, p) && GridWithin(g, lo, hi) && NonNegativePlane(p)
    requires Total(p) != 0.0
    ensures lo as real <= WeightedMean(g, p) <= hi as real
  {
    var t, m := Total(p), WeightedMean(g, p);
    TotalNonNegative(p);
    DotLower(g, p, lo as real);
    DotUpper(g, p, hi as real);
    assert (m - lo as real) * t == m * t - (lo as real) * t;
    NonNegativeFactor(m - lo as real, t);
    assert (hi as real - m) * t == (hi as real) * t - m * t;
    NonNegativeFactor(hi as real - m, t);
  }

  /** With non-negative intensities and a positive total weight, the centroid
      of an image on its own grids lies inside the pixel lattice
      [0, H-1] x [0, W-1]. */
  lemma CentroidWithinImage(img: Image, p: Point<real>)
    requires WellFormed(img) && NonNegativeImage(img)
    requires CenterOfMass(img, None) == Ok(p)
    ensures 0.0 <= p.i <= (Height(img) - 1) as real
    ensures 0.0 <= p.j <= (Width(img) - 1) as real
  {
    var g, c := Gray(img), FromImage(img);
    assert GridsFor(img, None) == c;
    assert SameLayout2(c.I, g) && SameLayout2(c.J, g) && Total(g) != 0.0;
    assert p == Point(WeightedMean(c.I, g), WeightedMean(c.J, g));
    GrayNonNegative(img);
    FromImageWithin(img);
    WeightedMeanWithin(c.I, g, 0, Height(img) - 1);
    WeightedMeanWithin(c.J, g, 0, Width(img) - 1);
  }

  /** The index grids of an image hold rows in [0, H-1] and columns in
      [0, W-1]. */
  lemma FromImageWithin(img: Image)
    requires WellFormed(img)
    ensures GridWithin(FromImage(img).I, 0, Height(img) - 1)
    ensures GridWithin(FromImage(img).J, 0, Width(img) - 1)
  {
    var c := FromImage(img);
    forall r, k | 0 <= r < |c.J| && 0 <= k < |c.J[r]|
      ensures 0 <= c.J[r][k] <= Width(img) - 1
    {
      assert |c.J[r]| == Width(img);
    }
  }

  /** The rounded centroid `align_images` uses is a pixel of the image. */
  lemma RoundedCentroidWithinImage(img: Image, q: Point<int>)
    requires WellFormed(img) && NonNegativeImage(img)
    requires CenterOfMassRounded(img, None) == Ok(q)
    ensures 0 <= q.i < Height(img) && 0 <= q.j < Width(img)
  {
    var p := CenterOfMass(img, None).value;
    CentroidWithinImage(img, p);
    RoundWithin(p.i, 0, Height(img) - 1);
    RoundWithin(p.j, 0, Width(img) - 1);
  }
}
