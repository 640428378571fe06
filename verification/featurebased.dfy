/** Feature matching of `affinealigner/featurebased.py`: the record of one
    image pair's matches, its distance filter and point extraction, the ORB
    pipeline around OpenCV, and the method dispatch.

    OpenCV itself (ORB detection, brute-force cross-checked Hamming
    matching) and numpy's per-row standard deviation are supplied as the
    functions of a `Vision` value; the model takes their results as given.
 */
module FeatureBased {
  import opened Base
  import opened Types
  import opened Compute

  /** A pixel coordinate as OpenCV reports it (`KeyPoint.pt`). */
  datatype XY = XY(x: real, y: real)

  /** A detected keypoint; only its location is used. */
  datatype KeyPoint = KeyPoint(pt: XY)

  /** One descriptor match: the keypoint index in the first (query) image,
      the index in the second (train) image, and the descriptor distance. */
  datatype DMatch = DMatch(queryIdx: int, trainIdx: int, distance: real)

  /** A binary ORB descriptor, one byte per element. */
  type Descriptor = seq<int>

  /** The result of matching two images: both converted images, keypoints and
      descriptors of each, the raw match list and the distance threshold. */
  datatype FeatureAlignment = FeatureAlignment(
    image1: Image, image2: Image,
    kp1: seq<KeyPoint>, desc1: seq<Descriptor>,
    kp2: seq<KeyPoint>, desc2: seq<Descriptor>,
    matches: seq<DMatch>, threshold: real)

  // ---------------------------------------------------------------------
  // The distance filter
  // ---------------------------------------------------------------------

  /** Positions, in increasing order, of the matches strictly below `t`. */
  function SurvivorIndices(ms: seq<DMatch>, t: real): (idx: seq<nat>)
    ensures forall k :: 0 <= k < |idx| ==> idx[k] < |ms| && ms[idx[k]].distance < t
    ensures forall k, l :: 0 <= k < l < |idx| ==> idx[k] < idx[l]
    ensures forall i :: 0 <= i < |ms| && ms[i].distance < t ==> i in idx
    ensures (forall i :: 0 <= i < |ms| ==> ms[i].distance >= t) ==> idx == []
  {
    if |ms| == 0 then []
    else
      var n := |ms| - 1;
      var front := SurvivorIndices(ms[..n], t);
      if ms[n].distance < t then front + [n] else front
  }

  /** The comprehension's filter `[m for m in matches if m.distance < t]`. */
  function Survivors(ms: seq<DMatch>, t: real): (s: seq<DMatch>)
    ensures |s| <= |ms|
    ensures forall k :: 0 <= k < |s| ==> s[k].distance < t
  {
    if |ms| == 0 then []
    else
      var n := |ms| - 1;
      var front := Survivors(ms[..n], t);
      if ms[n].distance < t then front + [ms[n]] else front
  }

  /** The survivors are the matches at the surviving positions, in order. */
  lemma {:induction false} SurvivorsAtIndices(ms: seq<DMatch>, t: real)
    ensures |Survivors(ms, t)| == |SurvivorIndices(ms, t)|
    ensures forall k :: 0 <= k < |Survivors(ms, t)| ==> Survivors(ms, t)[k] == ms[SurvivorIndices(ms, t)[k]]
  {
    if |ms| > 0 {
      var n := |ms| - 1;
      var prefix := ms[..n];
      SurvivorsAtIndices(prefix, t);
      SurvivorsStep(ms, prefix, t);
    }
  }

  /** One step of `SurvivorsAtIndices`: the last match is appended to both
      or to neither. */
  lemma SurvivorsStep(ms: seq<DMatch>, prefix: seq<DMatch>, t: real)
    requires |ms| > 0 && prefix == ms[..|ms| - 1]
    requires |Survivors(prefix, t)| == |SurvivorIndices(prefix, t)|
    requires forall k :: 0 <= k < |Survivors(prefix, t)| ==> Survivors(prefix, t)[k] == prefix[SurvivorIndices(prefix, t)[k]]
    ensures |Survivors(ms, t)| == |SurvivorIndices(ms, t)|
    ensures forall k :: 0 <= k < |Survivors(ms, t)| ==> Survivors(ms, t)[k] == ms[SurvivorIndices(ms, t)[k]]
  {
    var n := |ms| - 1;
    var front, idx := Survivors(prefix, t), SurvivorIndices(prefix, t);
    forall k | 0 <= k < |front|
      ensures front[k] == ms[idx[k]]
    {
      assert idx[k] < n && prefix[idx[k]] == ms[idx[k]];
    }
    if ms[n].distance < t {
      var s, ix := front + [ms[n]], idx + [n];
      assert Survivors(ms, t) == s && SurvivorIndices(ms, t) == ix;
      forall k | 0 <= k < |s|
        ensures s[k] == ms[ix[k]]
      {
        if k < |front| {
          assert s[k] == front[k] && ix[k] == idx[k];
        }
      }
    } else {
      assert Survivors(ms, t) == front && SurvivorIndices(ms, t) == idx;
    }
  }

  /** A match survives exactly when it is in the list and strictly below the
      threshold; one at exactly the threshold is dropped. */
  lemma SurvivorMembership(ms: seq<DMatch>, t: real, m: DMatch)
    ensures m in Survivors(ms, t) <==> m in ms && m.distance < t
  {
    SurvivorsAtIndices(ms, t);
    var s, idx := Survivors(ms, t), SurvivorIndices(ms, t);
    if m in s {
      var k :| 0 <= k < |s| && s[k] == m;
      assert ms[idx[k]] == m;
    }
    if m in ms && m.distance < t {
      var i :| 0 <= i < |ms| && ms[i] == m;
      var k :| 0 <= k < |idx| && idx[k] == i;
      assert s[k] == m;
    }
  }

  /** Filtering at a lower threshold after a higher one is filtering at the
      lower one: raising the threshold never removes a survivor, and the
      survivors keep their order. */
  lemma {:induction false} SurvivorsNested(ms: seq<DMatch>, t1: real, t2: real)
    requires t1 <= t2
    ensures Survivors(Survivors(ms, t2), t1) == Survivors(ms, t1)
  {
    if |ms| > 0 {
      var n := |ms| - 1;
      var x := ms[n];
      SurvivorsNested(ms[..n], t1, t2);
      var front := Survivors(ms[..n], t2);
      if x.distance < t2 {
        var s := front + [x];
        assert Survivors(ms, t2) == s;
        assert s[..|s| - 1] == front && s[|s| - 1] == x;
        assert Survivors(s, t1) == Survivors(front, t1) + (if x.distance < t1 then [x] else []);
      } else {
        assert Survivors(ms, t2) == front;
      }
    }
  }

  /** Raising the threshold keeps every survivor. */
  lemma SurvivorsMonotone(ms: seq<DMatch>, t1: real, t2: real, m: DMatch)
    requires t1 <= t2 && m in Survivors(ms, t1)
    ensures m in Survivors(ms, t2)
  {
    SurvivorMembership(ms, t1, m);
    SurvivorMembership(ms, t2, m);
  }

  // ---------------------------------------------------------------------
  // as_xy
  // ---------------------------------------------------------------------

  /** Python sequence indexing: negative indices count from the end. */
  function PyIndex<T>(s: seq<T>, i: int): (r: Result<T>)
    ensures r.Ok? <==> -|s| <= i < |s|
    ensures 0 <= i < |s| ==> r == Ok(s[i])
    ensures -|s| <= i < 0 ==> r == Ok(s[|s| + i])
    ensures r.Err? ==> r.error == IndexOutOfRange
  {
    if 0 <= i < |s| then Ok(s[i])
    else if -|s| <= i < 0 then Ok(s[|s| + i])
    else Err(IndexOutOfRange)
  }

  /** Which index of a match to follow. */
  datatype Side = Query | Train

  function IndexOf(m: DMatch, side: Side): int {
    if side == Query then m.queryIdx else m.trainIdx
  }

  /** Every match's index on `side` is a valid Python index into `kp`. */
  predicate AllIndexable(kp: seq<KeyPoint>, ms: seq<DMatch>, side: Side) {
    forall k :: 0 <= k < |ms| ==> PyIndex(kp, IndexOf(ms[k], side)).Ok?
  }

  /** `[kp[m.queryIdx].pt for m in ms]` (or `trainIdx`): the keypoint
      locations in match order, or the `IndexError` of the first bad index. */
  function Gather(kp: seq<KeyPoint>, ms: seq<DMatch>, side: Side): (r: Result<seq<XY>>)
    ensures r.Ok? <==> AllIndexable(kp, ms, side)
    ensures r.Err? ==> r.error == IndexOutOfRange
    ensures r.Ok? ==> |r.value| == |ms|
    ensures r.Ok? ==> forall k :: 0 <= k < |ms| ==> r.value[k] == PyIndex(kp, IndexOf(ms[k], side)).value.pt
  {
    if |ms| == 0 then Ok([])
    else
      var p :- PyIndex(kp, IndexOf(ms[0], side));
      var rest :- Gather(kp, ms[1..], side);
      assert forall k :: 1 <= k < |ms| ==> ms[k] == ms[1..][k - 1];
      Ok([p.pt] + rest)
  }

  /** `FeatureAlignment.as_xy`: the locations of the surviving matches in
      the first and in the second image, row for row. `np.stack` of an empty
      list fails, so no survivor is an error, as is a keypoint index out of
      range (the first image's indices are read first). */
  function AsXY(fa: FeatureAlignment): (r: Result<(seq<XY>, seq<XY>)>)
    ensures var s := Survivors(fa.matches, fa.threshold);
            && (r.Ok? <==> |s| > 0 && AllIndexable(fa.kp1, s, Query) && AllIndexable(fa.kp2, s, Train))
            && (|s| == 0 ==> r == Err(EmptyStack))
            && (|s| > 0 && r.Err? ==> r.error == IndexOutOfRange)
            && (r.Ok? ==>
                  var (xy1, xy2) := r.value;
                  && |xy1| == |s| && |xy2| == |s|
                  && (forall k :: 0 <= k < |s| ==> xy1[k] == PyIndex(fa.kp1, s[k].queryIdx).value.pt)
                  && (forall k :: 0 <= k < |s| ==> xy2[k] == PyIndex(fa.kp2, s[k].trainIdx).value.pt))
  {
    var s := Survivors(fa.matches, fa.threshold);
    var xy1 :- Gather(fa.kp1, s, Query);
    if |xy1| == 0 then Err(EmptyStack)
    else
      var xy2 :- Gather(fa.kp2, s, Train);
      Ok((xy1, xy2))
  }

  /** A threshold of zero lets no non-negative distance through, so `as_xy`
      fails on the empty stack. */
  lemma ZeroThresholdRejectsAll(fa: FeatureAlignment)
    requires fa.threshold == 0.0
    requires forall k :: 0 <= k < |fa.matches| ==> fa.matches[k].distance >= 0.0
    ensures Survivors(fa.matches, fa.threshold) == []
    ensures AsXY(fa) == Err(EmptyStack)
  {
    SurvivorsAtIndices(fa.matches, fa.threshold);
  }

  // ---------------------------------------------------------------------
  // The threshold of align_ORB
  // ---------------------------------------------------------------------

  /** The smallest element of a non-empty vector (`ndarray.min()`). */
  function MinOf(v: seq<real>): (m: real)
    requires |v| > 0
    ensures m in v
    ensures forall k :: 0 <= k < |v| ==> m <= v[k]
  {
    if |v| == 1 then v[0]
    else
      var rest := MinOf(v[1..]);
      assert forall k :: 1 <= k < |v| ==> v[k] == v[1..][k - 1];
      if v[0] <= rest then v[0] else rest
  }

  /** `min(des1.std(1).min(), des2.std(1).min()) * threshold_factor`, from the
      per-row standard deviations of both descriptor sets; an empty set has
      no minimum. */
  function Threshold(std1: seq<real>, std2: seq<real>, factor: real): (r: Result<real>)
    ensures r.Ok? <==> |std1| > 0 && |std2| > 0
    ensures r.Err? ==> r.error == EmptyArray
    ensures r.Ok? ==>
              exists m :: (m in std1 || m in std2)
                       && (forall k :: 0 <= k < |std1| ==> m <= std1[k])
                       && (forall k :: 0 <= k < |std2| ==> m <= std2[k])
                       && r.value == m * factor
  {
    if |std1| == 0 || |std2| == 0 then Err(EmptyArray)
    else
      var a, b := MinOf(std1), MinOf(std2);
      var m := if b < a then b else a;
      Ok(m * factor)
  }

  /** With `threshold_factor = 0` the threshold is zero whatever the
      descriptors, so no non-negative distance passes the filter. */
  lemma ZeroFactorThreshold(std1: seq<real>, std2: seq<real>)
    requires |std1| > 0 && |std2| > 0
    ensures Threshold(std1, std2, 0.0) == Ok(0.0)
  {
  }

  // ---------------------------------------------------------------------
  // align_ORB and get_alignment_method
  // ---------------------------------------------------------------------

  /** What `orb.detectAndCompute` returns for one image. */
  datatype Detection = Detection(keypoints: seq<KeyPoint>, descriptors: seq<Descriptor>)

  /** The OpenCV and numpy routines `align_ORB` calls, taken as given:
      `detect(img, feature_size)` is ORB detection with at most
      `feature_size` features, `crossCheckMatch` is
      `BFMatcher(NORM_HAMMING, crossCheck=True).match`, and `rowStd` is the
      standard deviation of one descriptor row. */
  datatype Vision = Vision(
    detect: (Image, Option<int>) -> Detection,
    crossCheckMatch: (seq<Descriptor>, seq<Descriptor>) -> seq<DMatch>,
    rowStd: Descriptor -> real)

  /** `des.std(1)`: the standard deviation of every descriptor row. */
  function RowStds(vision: Vision, des: seq<Descriptor>): (s: seq<real>)
    ensures |s| == |des| && forall k :: 0 <= k < |des| ==> s[k] == vision.rowStd(des[k])
  {
    seq(|des|, k requires 0 <= k < |des| => vision.rowStd(des[k]))
  }

  /** The matcher `get_alignment_method` returns: ORB with its parameters
      bound. */
  datatype Matcher = OrbMatcher(scaleFactor: real, featureSize: Option<int>, thresholdFactor: real)

  /** `get_alignment_method(method, ...)`: 'ORB' gives the ORB matcher with
      the given parameters; any other name is a ValueError. */
  function GetAlignmentMethod(name: string, scaleFactor: real, featureSize: Option<int>, thresholdFactor: real)
    : (r: Result<Matcher>)
    ensures r.Ok? <==> name == "ORB"
    ensures r.Ok? ==> r.value == OrbMatcher(scaleFactor, featureSize, thresholdFactor)
    ensures r.Err? ==> r.error == UnexpectedMethod(name)
  {
    if name == "ORB" then Ok(OrbMatcher(scaleFactor, featureSize, thresholdFactor))
    else Err(UnexpectedMethod(name))
  }

  /** `_convert` inside `align_ORB`: brightness rescaling, then three 8-bit
      channels. */
  function Convert(img: Image, scale: real): (out: Image)
    requires WellFormed(img) && scale != 0.0
    ensures WellFormed(out) && out.dtype == UInt8 && out.ndim == Three
    ensures |out.data| == |img.data| && forall r :: 0 <= r < |img.data| ==> |out.data[r]| == |img.data[r]|
    ensures img.ndim == Three ==>
              forall r, c, k :: 0 <= r < |img.data| && 0 <= c < |img.data[r]| && 0 <= k < |img.data[r][c]| ==>
                |out.data[r][c]| == |img.data[r][c]| &&
                out.data[r][c][k] == ToByte(StdScaleValue(img.data[r][c][k], scale) * 255.0) as real
    ensures img.ndim == Two ==>
              forall r, c :: 0 <= r < |img.data| && 0 <= c < |img.data[r]| ==>
                out.data[r][c] == Triple(ToByte(StdScaleValue(img.data[r][c][0], scale) * 255.0) as real)
  {
    ToRgb24(StdScale(img, scale), 255.0)
  }

  /** `align_ORB(img1, img2, ...)` with the matcher's parameters: both images
      are converted, detected and matched, and the threshold is computed from
      the descriptors. A zero scale (which numpy turns into infinities) and an
      image without descriptors are errors. */
  function AlignOrb(m: Matcher, img1: Image, img2: Image, vision: Vision): (r: Result<FeatureAlignment>)
    requires WellFormed(img1) && WellFormed(img2)
    ensures m.scaleFactor == 0.0 ==> r == Err(NonFiniteScale)
    ensures m.scaleFactor != 0.0 ==>
              var a, b := Convert(img1, m.scaleFactor), Convert(img2, m.scaleFactor);
              var d1, d2 := vision.detect(a, m.featureSize), vision.detect(b, m.featureSize);
              && (r.Ok? <==> |d1.descriptors| > 0 && |d2.descriptors| > 0)
              && (r.Err? ==> r.error == EmptyArray)
              && (r.Ok? ==>
                    && r.value.image1 == a && r.value.image2 == b
                    && r.value.kp1 == d1.keypoints && r.value.kp2 == d2.keypoints
                    && r.value.matches == vision.crossCheckMatch(d1.descriptors, d2.descriptors)
                    && Threshold(RowStds(vision, d1.descriptors), RowStds(vision, d2.descriptors), m.thresholdFactor)
                       == Ok(r.value.threshold))
  {
    if m.scaleFactor == 0.0 then Err(NonFiniteScale)
    else
      var a, b := Convert(img1, m.scaleFactor), Convert(img2, m.scaleFactor);
      var d1, d2 := vision.detect(a, m.featureSize), vision.detect(b, m.featureSize);
      var matches := vision.crossCheckMatch(d1.descriptors, d2.descriptors);
      var t :- Threshold(RowStds(vision, d1.descriptors), RowStds(vision, d2.descriptors), m.thresholdFactor);
      Ok(FeatureAlignment(a, b, d1.keypoints, d1.descriptors, d2.keypoints, d2.descriptors, matches, t))
  }
}
