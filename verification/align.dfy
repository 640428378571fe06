/** The orchestration of `affinealigner/align.py`: choosing the reference
    section by the percentile of the rounded centroid rows, then one affine
    transform per image, the identity at the reference and an estimate
    from the query image onto the reference everywhere else.

    Background subtraction (a scipy Gaussian filter over z-scored values)
    and `affine2d.estimate` are supplied as the functions of a `Backend`
    value, next to the OpenCV routines of `FeatureBased.Vision`.
 */
module Align {
  import opened Base
  import opened Types
  import opened Compute
  import opened FeatureBased

  // ---------------------------------------------------------------------
  // Order statistics of the positions
  // ---------------------------------------------------------------------

  predicate Sorted(a: seq<int>) {
    forall i, j :: 0 <= i < j < |a| ==> a[i] <= a[j]
  }

  /** Inserts `x` into a sorted sequence. */
  function Insert(x: int, a: seq<int>): (b: seq<int>)
    requires Sorted(a)
    ensures Sorted(b) && multiset(b) == multiset(a) + multiset{x}
  {
    if |a| == 0 then [x]
    else if x <= a[0] then
      ConsSorted(x, a);
      [x] + a
    else
      var rest := Insert(x, a[1..]);
      InsertBehindHead(x, a, rest);
      [a[0]] + rest
  }

  /** A sorted sequence stays sorted behind a head no larger than its
      elements. */
  lemma ConsSorted(h: int, t: seq<int>)
    requires Sorted(t) && |t| > 0 && h <= t[0]
    ensures Sorted([h] + t)
  {
    var s := [h] + t;
    forall i, j | 0 <= i < j < |s|
      ensures s[i] <= s[j]
    {
      if i > 0 {
        assert s[i] == t[i - 1] && s[j] == t[j - 1];
      } else {
        assert s[j] == t[j - 1] && t[0] <= t[j - 1];
      }
    }
  }

  /** When `x` goes behind the head of `a`, keeping the head in front of the
      insertion into the tail gives a sorted arrangement of `a` and `x`. */
  lemma InsertBehindHead(x: int, a: seq<int>, rest: seq<int>)
    requires Sorted(a) && |a| > 0 && a[0] < x
    requires Sorted(rest) && multiset(rest) == multiset(a[1..]) + multiset{x}
    ensures Sorted([a[0]] + rest) && multiset([a[0]] + rest) == multiset(a) + multiset{x}
  {
    assert a == [a[0]] + a[1..];
    if |rest| > 0 {
      assert rest[0] in multiset(rest);
      if rest[0] != x {
        assert rest[0] in multiset(a[1..]);
        var k :| 0 <= k < |a[1..]| && a[1..][k] == rest[0];
        assert a[0] <= a[k + 1];
      }
      ConsSorted(a[0], rest);
    }
  }

  /** The ascending arrangement numpy's percentile works on. */
  function Sort(a: seq<int>): (b: seq<int>)
    ensures Sorted(b) && multiset(b) == multiset(a)
    ensures |b| == |a|
  {
    if |a| == 0 then []
    else
      assert a == [a[0]] + a[1..];
      Insert(a[0], Sort(a[1..]))
  }

  /** The first element of the sorted arrangement is the least position and
      the last is the greatest. */
  lemma SortEnds(a: seq<int>)
    requires |a| > 0
    ensures |Sort(a)| == |a|
    ensures Sort(a)[0] in a && Sort(a)[|a| - 1] in a
    ensures forall k :: 0 <= k < |a| ==> Sort(a)[0] <= a[k] <= Sort(a)[|a| - 1]
  {
    var s := Sort(a);
    assert |s| == |a| by {
      assert |s| == |multiset(s)| && |a| == |multiset(a)|;
    }
    assert s[0] in multiset(a) && s[|s| - 1] in multiset(a);
    forall k | 0 <= k < |a|
      ensures s[0] <= a[k] <= s[|a| - 1]
    {
      SortedHolds(s, a, k);
    }
  }

  /** Every element of `a` occurs in its sorted arrangement `s`, so it lies
      between the first and the last element of `s`. */
  lemma SortedHolds(s: seq<int>, a: seq<int>, k: int)
    requires Sorted(s) && multiset(s) == multiset(a) && |s| == |a| && 0 <= k < |a|
    ensures s[0] <= a[k] <= s[|s| - 1]
  {
    assert a[k] in multiset(s);
    var j :| 0 <= j < |s| && s[j] == a[k];
    assert s[0] <= s[j] <= s[|s| - 1];
  }

  /** The least of a non-empty sequence of positions (`ndarray.min()`). */
  function MinPos(a: seq<int>): (m: int)
    requires |a| > 0
    ensures m in a && forall k :: 0 <= k < |a| ==> m <= a[k]
  {
    if |a| == 1 then a[0]
    else
      var rest := MinPos(a[1..]);
      assert forall k :: 1 <= k < |a| ==> a[k] == a[1..][k - 1];
      if a[0] <= rest then a[0] else rest
  }

  /** `np.percentile(a, p)` with the default linear method, on the sorted
      positions: the value at the virtual index `(n - 1) p / 100`,
      interpolated between its neighbours. */
  function Percentile(a: seq<int>, p: real): (v: real)
    requires |a| > 0 && Sorted(a) && 0.0 <= p <= 100.0
    ensures a[0] as real <= v <= a[|a| - 1] as real
    ensures p == 0.0 ==> v == a[0] as real
    ensures p == 100.0 ==> v == a[|a| - 1] as real
  {
    var n := |a|;
    var h := VirtualIndex(n, p);
    var lo := h.Floor;
    var frac := h - lo as real;
    assert 0 <= lo <= n - 1 && 0.0 <= frac < 1.0;
    assert a[0] <= a[lo] <= a[n - 1];
    if lo + 1 < n then
      assert a[lo] <= a[lo + 1] <= a[n - 1];
      Interpolate(a[lo], a[lo + 1], frac)
    else a[lo] as real
  }

  /** The point a fraction `frac` of the way from `x` to `y`. */
  function Interpolate(x: int, y: int, frac: real): (v: real)
    requires x <= y && 0.0 <= frac < 1.0
    ensures x as real <= v <= y as real
    ensures frac == 0.0 ==> v == x as real
  {
    var gap := (y - x) as real;
    ScaleMonotone(0.0, frac, gap);
    ScaleMonotone(frac, 1.0, gap);
    x as real + frac * gap
  }

  /** `(n - 1) p / 100`, which lies in [0, n - 1]. */
  function VirtualIndex(n: nat, p: real): (h: real)
    requires n > 0 && 0.0 <= p <= 100.0
    ensures 0.0 <= h <= (n - 1) as real
    ensures p == 0.0 ==> h == 0.0
    ensures p == 100.0 ==> h == (n - 1) as real
  {
    var m, q := (n - 1) as real, p / 100.0;
    assert 0.0 <= q <= 1.0 && (p == 0.0 ==> q == 0.0) && (p == 100.0 ==> q == 1.0);
    FractionOf(q, m);
    q * m
  }

  /** A fraction in [0, 1] of a non-negative amount lies between none and
      all of it. */
  lemma FractionOf(q: real, m: real)
    requires 0.0 <= q <= 1.0 && m >= 0.0
    ensures 0.0 <= q * m <= m
    ensures q == 0.0 ==> q * m == 0.0
    ensures q == 1.0 ==> q * m == m
  {
    ScaleMonotone(0.0, q, m);
    ScaleMonotone(q, 1.0, m);
  }

  /** `math.ceil`: the least integer not below `x`. */
  function Ceil(x: real): (c: int)
    ensures x <= c as real < x + 1.0
  {
    var f := x.Floor;
    if f as real == x then f else f + 1
  }

  /** The ceiling of a value between two integers stays between them. */
  lemma CeilWithin(x: real, lo: int, hi: int)
    requires lo as real <= x <= hi as real
    ensures lo <= Ceil(x) <= hi
  {
    var c := Ceil(x);
    assert (c - 1) as real < x;
  }

  /** The row of every point. */
  function Positions(points: seq<Point<int>>): (pos: seq<int>)
    ensures |pos| == |points| && forall k :: 0 <= k < |points| ==> pos[k] == points[k].i
  {
    seq(|points|, k requires 0 <= k < |points| => points[k].i)
  }

  /** `np.where(pos == v)[0][0]`: the first index holding `v`; none is an
      IndexError. */
  function FirstIndexOf(pos: seq<int>, v: int): (r: Result<nat>)
    ensures r.Ok? <==> v in pos
    ensures r.Ok? ==> r.value < |pos| && pos[r.value] == v
    ensures r.Ok? ==> forall j :: 0 <= j < r.value ==> pos[j] != v
    ensures r.Err? ==> r.error == NoMatchingPosition(v)
  {
    if |pos| == 0 then Err(NoMatchingPosition(v))
    else if pos[0] == v then Ok(0)
    else
      var rest := FirstIndexOf(pos[1..], v);
      assert v in pos <==> v in pos[1..] by {
        assert pos == [pos[0]] + pos[1..];
      }
      if rest.Err? then rest
      else
        assert forall j :: 1 <= j <= rest.value ==> pos[j] == pos[1..][j - 1];
        Ok(rest.value + 1)
  }

  /** The position `_get_reference_index` looks for when there are not
      exactly two points: the ceiling of the percentile. */
  function Target(pos: seq<int>, p: real): (t: int)
    requires |pos| > 0 && 0.0 <= p <= 100.0
    ensures Sort(pos)[0] <= t <= Sort(pos)[|Sort(pos)| - 1]
  {
    var s := Sort(pos);
    var q := Percentile(s, p);
    CeilWithin(q, s[0], s[|s| - 1]);
    Ceil(q)
  }

  /** `_get_reference_index(points, use_percentile)`. With exactly two
      points the target is the lower row; otherwise it is the ceiling of the
      `p`-th percentile (numpy rejects a percentile outside [0, 100] and an
      empty array). The first index whose row equals the target is
      returned; no such index is an error. */
  function GetReferenceIndex(points: seq<Point<int>>, p: real): (r: Result<nat>)
    ensures r.Ok? ==> r.value < |points|
    ensures |points| == 2 ==>
              && r.Ok?
              && (forall k :: 0 <= k < 2 ==> points[r.value].i <= points[k].i)
              && (forall j :: 0 <= j < r.value ==> points[j].i != points[r.value].i)
    ensures |points| != 2 && !(0.0 <= p <= 100.0) ==> r == Err(PercentileOutOfRange(p))
    ensures |points| == 0 && 0.0 <= p <= 100.0 ==> r == Err(EmptyArray)
    ensures |points| != 2 && |points| > 0 && 0.0 <= p <= 100.0 ==>
              var target := Target(Positions(points), p);
              && (r.Ok? <==> exists k :: 0 <= k < |points| && points[k].i == target)
              && (r.Err? ==> r.error == NoMatchingPosition(target))
              && (r.Ok? ==> points[r.value].i == target)
              && (r.Ok? ==> forall j :: 0 <= j < r.value ==> points[j].i != target)
  {
    var pos := Positions(points);
    if |pos| == 2 then FirstIndexOf(pos, MinPos(pos))
    else if !(0.0 <= p <= 100.0) then Err(PercentileOutOfRange(p))
    else if |pos| == 0 then Err(EmptyArray)
    else FirstIndexOf(pos, Target(pos, p))
  }

  /** At the 0th percentile the target is the least row, which always occurs,
      so the first section holding it is chosen. */
  lemma LowestPercentileSelectsMinimum(points: seq<Point<int>>)
    requires |points| > 0
    ensures GetReferenceIndex(points, 0.0).Ok?
    ensures var k := GetReferenceIndex(points, 0.0).value;
            && (forall j :: 0 <= j < |points| ==> points[k].i <= points[j].i)
            && (forall j :: 0 <= j < k ==> points[j].i != points[k].i)
  {
    var pos := Positions(points);
    if |points| != 2 {
      SortEnds(pos);
      assert Target(pos, 0.0) == Sort(pos)[0];
    }
  }

  /** At the 100th percentile the target is the greatest row, except with
      exactly two sections, where the lower row is chosen whatever the
      percentile. */
  lemma HighestPercentileSelectsMaximum(points: seq<Point<int>>)
    requires |points| > 0 && |points| != 2
    ensures GetReferenceIndex(points, 100.0).Ok?
    ensures var k := GetReferenceIndex(points, 100.0).value;
            && (forall j :: 0 <= j < |points| ==> points[j].i <= points[k].i)
            && (forall j :: 0 <= j < k ==> points[j].i != points[k].i)
  {
    var pos := Positions(points);
    SortEnds(pos);
    assert Target(pos, 100.0) == Sort(pos)[|pos| - 1];
  }

  /** For every percentile in range the target lies between the least and
      the greatest row, so a miss is never "off the end". */
  lemma TargetWithinRows(pos: seq<int>, p: real)
    requires |pos| > 0 && 0.0 <= p <= 100.0
    ensures exists k :: 0 <= k < |pos| && pos[k] <= Target(pos, p)
    ensures exists k :: 0 <= k < |pos| && Target(pos, p) <= pos[k]
  {
    SortEnds(pos);
    var s := Sort(pos);
    var lo :| 0 <= lo < |pos| && pos[lo] == s[0];
    var hi :| 0 <= hi < |pos| && pos[hi] == s[|s| - 1];
    assert pos[lo] <= Target(pos, p);
    assert Target(pos, p) <= pos[hi];
  }

  /** Sections centred on rows 10, 50 and 90 at the default 15th percentile:
      the percentile is 22, its ceiling 22, and no section sits on row 22, so
      the selection fails. */
  lemma ThreeSectionsAtDefaultPercentile(j0: int, j1: int, j2: int)
    ensures GetReferenceIndex([Point(10, j0), Point(50, j1), Point(90, j2)], 15.0)
            == Err(NoMatchingPosition(22))
  {
    ThreeSectionsRows(j0, j1, j2);
    TargetAt15();
    assert 22 !in [10, 50, 90];
  }

  /** The same sections at the 50th percentile: the median row 50 is a
      section, the middle one. */
  lemma ThreeSectionsAtMedian(j0: int, j1: int, j2: int)
    ensures GetReferenceIndex([Point(10, j0), Point(50, j1), Point(90, j2)], 50.0) == Ok(1)
  {
    ThreeSectionsRows(j0, j1, j2);
    TargetAt50();
    assert [10, 50, 90][1] == 50;
  }

  /** The rows of the three example sections. */
  lemma ThreeSectionsRows(j0: int, j1: int, j2: int)
    ensures Positions([Point(10, j0), Point(50, j1), Point(90, j2)]) == [10, 50, 90]
  {
    var q := Positions([Point(10, j0), Point(50, j1), Point(90, j2)]);
    assert q[0] == 10 && q[1] == 50 && q[2] == 90;
  }

  /** Those rows are already in ascending order. */
  lemma ThreeRowsSorted()
    ensures Sort([10, 50, 90]) == [10, 50, 90]
  {
    var a := [10, 50, 90];
    assert Sorted(a) by {
      forall i, j | 0 <= i < j < |a|
        ensures a[i] <= a[j]
      {
      }
    }
    SortedIsOwnSort(a);
  }

  /** Row 22 is searched for at the 15th percentile. */
  lemma TargetAt15()
    ensures Target([10, 50, 90], 15.0) == 22
  {
    ThreeRowsSorted();
    PercentileAt15();
    assert Ceil(22.0) == 22;
  }

  /** Row 50 is searched for at the 50th percentile. */
  lemma TargetAt50()
    ensures Target([10, 50, 90], 50.0) == 50
  {
    ThreeRowsSorted();
    PercentileAt50();
    assert Ceil(50.0) == 50;
  }

  /** numpy's 15th percentile of 10, 50, 90: a virtual index of 0.3, so
      three tenths of the way from 10 to 50. */
  lemma PercentileAt15()
    ensures Sorted([10, 50, 90]) && Percentile([10, 50, 90], 15.0) == 22.0
  {
    var h := VirtualIndex(3, 15.0);
    assert h == 0.3;
    assert h.Floor == 0;
    assert 0.3 * 40.0 == 12.0;
  }

  /** numpy's median of 10, 50, 90 is the middle element exactly. */
  lemma PercentileAt50()
    ensures Sorted([10, 50, 90]) && Percentile([10, 50, 90], 50.0) == 50.0
  {
    var h := VirtualIndex(3, 50.0);
    assert h == 1.0;
    assert h.Floor == 1;
  }

  /** Sorting a sorted sequence changes nothing. */
  lemma SortedIsOwnSort(a: seq<int>)
    requires Sorted(a)
    ensures Sort(a) == a
  {
    var s := Sort(a);
    SortedUnique(s, a);
  }

  /** Two sorted arrangements of the same multiset are equal. */
  lemma {:induction false} SortedUnique(a: seq<int>, b: seq<int>)
    requires Sorted(a) && Sorted(b) && multiset(a) == multiset(b)
    ensures a == b
  {
    if |a| > 0 {
      assert |b| == |multiset(b)| == |multiset(a)| == |a|;
      SortedHeads(a, b);
      SortedTail(a);
      SortedTail(b);
      assert multiset(a[1..]) == multiset(b[1..]);
      SortedUnique(a[1..], b[1..]);
      assert a == [a[0]] + a[1..] && b == [b[0]] + b[1..];
    }
  }

  /** Sorted arrangements of one multiset start with the same element. */
  lemma SortedHeads(a: seq<int>, b: seq<int>)
    requires Sorted(a) && Sorted(b) && multiset(a) == multiset(b) && |a| > 0 && |b| > 0
    ensures a[0] == b[0]
  {
    assert a[0] in multiset(b) && b[0] in multiset(a);
    var i :| 0 <= i < |b| && b[i] == a[0];
    var j :| 0 <= j < |a| && a[j] == b[0];
    assert b[0] <= b[i] && a[0] <= a[j];
  }

  /** Dropping the first element keeps a sequence sorted and removes one
      occurrence of that element. */
  lemma SortedTail(a: seq<int>)
    requires Sorted(a) && |a| > 0
    ensures Sorted(a[1..]) && multiset(a[1..]) == multiset(a) - multiset{a[0]}
  {
    assert a == [a[0]] + a[1..];
  }

  // ---------------------------------------------------------------------
  // align_images
  // ---------------------------------------------------------------------

  /** The collaborators `align_images` relies on beyond OpenCV:
      `subtractBackground(img, dia)` is `compute.subtract_background` and
      `estimate(xy_from, xy_to)` is `affine2d.estimate`, which may fail. */
  datatype Backend = Backend(
    vision: Vision,
    subtractBackground: (Image, real) -> Image,
    estimate: (seq<XY>, seq<XY>) -> Result<Affine>)

  /** Background subtraction returns a proper array for a proper array. */
  ghost predicate ValidBackend(backend: Backend) {
    forall img: Image, dia: real {:trigger backend.subtractBackground(img, dia)} ::
      WellFormed(img) ==> WellFormed(backend.subtractBackground(img, dia))
  }

  predicate AllWellFormed(images: seq<Image>) {
    forall k :: 0 <= k < |images| ==> WellFormed(images[k])
  }

  /** A Python loop that appends one result per element and lets the first
      raised error escape: every value when all succeed, otherwise the error
      of the first failure. */
  function Collect<T>(rs: seq<Result<T>>): (r: Result<seq<T>>)
    ensures r.Ok? <==> forall k :: 0 <= k < |rs| ==> rs[k].Ok?
    ensures r.Ok? ==> |r.value| == |rs| && forall k :: 0 <= k < |rs| ==> r.value[k] == rs[k].value
    ensures r.Err? ==> exists k :: 0 <= k < |rs| && rs[k] == Err(r.error)
                                   && forall j :: 0 <= j < k ==> rs[j].Ok?
  {
    if |rs| == 0 then Ok([])
    else
      var v :- rs[0];
      var rest := Collect(rs[1..]);
      if rest.Err? then
        var k :| 0 <= k < |rs[1..]| && rs[1..][k] == Err(rest.error)
                 && forall j :: 0 <= j < k ==> rs[1..][j].Ok?;
        assert rs[k + 1] == Err(rest.error);
        assert forall j :: 0 <= j < k + 1 ==> rs[j].Ok? by {
          assert forall j :: 1 <= j < k + 1 ==> rs[j] == rs[1..][j - 1];
        }
        Err(rest.error)
      else
        assert forall k :: 1 <= k < |rs| ==> rs[k] == rs[1..][k - 1];
        Ok([v] + rest.value)
  }

  /** The rounded centroid of each image on the given grids, in order. */
  function RoundedCentroids(images: seq<Image>, coords: Coordinates): (rs: seq<Result<Point<int>>>)
    requires AllWellFormed(images)
    ensures |rs| == |images|
    ensures forall k :: 0 <= k < |images| ==> rs[k] == CenterOfMassRounded(images[k], Some(coords))
  {
    seq(|images|, k requires 0 <= k < |images| && AllWellFormed(images) => CenterOfMassRounded(images[k], Some(coords)))
  }

  /** The centroid loop of `align_images`: every image's rounded centroid,
      the first failing image's error aborting the call. */
  function Centroids(images: seq<Image>, coords: Coordinates): (r: Result<seq<Point<int>>>)
    requires AllWellFormed(images)
    ensures r.Ok? <==> forall k :: 0 <= k < |images| ==> CenterOfMassRounded(images[k], Some(coords)).Ok?
    ensures r.Ok? ==> |r.value| == |images|
    ensures r.Ok? ==> forall k :: 0 <= k < |images| ==> r.value[k] == CenterOfMassRounded(images[k], Some(coords)).value
  {
    Collect(RoundedCentroids(images, coords))
  }

  /** A failing centroid loop reports the error of the first image whose
      centroid fails; every image before it succeeded. */
  lemma CentroidsFirstError(images: seq<Image>, coords: Coordinates)
    requires AllWellFormed(images) && Centroids(images, coords).Err?
    ensures exists k :: && 0 <= k < |images|
                        && CenterOfMassRounded(images[k], Some(coords)) == Err(Centroids(images, coords).error)
                        && forall j :: 0 <= j < k ==> CenterOfMassRounded(images[j], Some(coords)).Ok?
  {
    var rs := RoundedCentroids(images, coords);
    assert Centroids(images, coords) == Collect(rs);
    var e := Collect(rs).error;
    var k :| 0 <= k < |rs| && rs[k] == Err(e) && forall j :: 0 <= j < k ==> rs[j].Ok?;
    assert CenterOfMassRounded(images[k], Some(coords)) == Err(e);
    forall j | 0 <= j < k
      ensures CenterOfMassRounded(images[j], Some(coords)).Ok?
    {
      assert rs[j] == CenterOfMassRounded(images[j], Some(coords));
    }
  }

  /** The reference `align_images` picks: the grids come from the first
      image, every image's rounded centroid is taken, and
      `_get_reference_index` chooses among them. */
  function ReferenceIndex(images: seq<Image>, usePercentile: real): (r: Result<nat>)
    requires |images| > 0 && AllWellFormed(images)
    ensures r.Ok? ==> r.value < |images|
    ensures var points := Centroids(images, FromImage(images[0]));
            && (points.Err? ==> r == Err(points.error))
            && (points.Ok? ==> r == GetReferenceIndex(points.value, usePercentile))
  {
    var points :- Centroids(images, FromImage(images[0]));
    GetReferenceIndex(points, usePercentile)
  }

  /** `_estimate(ref, query)`: both images are background-subtracted and
      matched with the reference as the first image; the estimator is then
      given the query's points as the source and the reference's as the
      target, so the transform maps the query onto the reference. */
  function EstimatePair(ref: Image, query: Image, m: Matcher, dia: real, backend: Backend): (r: Result<Affine>)
    requires WellFormed(ref) && WellFormed(query) && ValidBackend(backend)
    ensures var fa := AlignOrb(m, backend.subtractBackground(ref, dia), backend.subtractBackground(query, dia), backend.vision);
            && (fa.Err? ==> r == Err(fa.error))
            && (fa.Ok? && AsXY(fa.value).Err? ==> r == Err(AsXY(fa.value).error))
            && (fa.Ok? && AsXY(fa.value).Ok? ==>
                  var (xyRef, xyQuery) := AsXY(fa.value).value;
                  r == backend.estimate(xyQuery, xyRef))
  {
    var r, q := backend.subtractBackground(ref, dia), backend.subtractBackground(query, dia);
    var fa :- AlignOrb(m, r, q, backend.vision);
    var xy :- AsXY(fa);
    var (xyRef, xyQuery) := xy;
    backend.estimate(xyQuery, xyRef)
  }

  /** The transform for image `k`: the identity at the reference, an
      estimate onto the reference elsewhere. */
  function TransformFor(images: seq<Image>, refidx: nat, k: nat, m: Matcher, dia: real, backend: Backend)
    : (r: Result<Affine>)
    requires refidx < |images| && k < |images| && AllWellFormed(images) && ValidBackend(backend)
    ensures k == refidx ==> r == Ok(Identity)
    ensures k != refidx ==> r == EstimatePair(images[refidx], images[k], m, dia, backend)
  {
    if k == refidx then Ok(Identity) else EstimatePair(images[refidx], images[k], m, dia, backend)
  }

  /** The transform of each image, in order. */
  function PerImageTransforms(images: seq<Image>, refidx: nat, m: Matcher, dia: real, backend: Backend)
    : (rs: seq<Result<Affine>>)
    requires refidx < |images| && AllWellFormed(images) && ValidBackend(backend)
    ensures |rs| == |images|
    ensures forall k :: 0 <= k < |images| ==> rs[k] == TransformFor(images, refidx, k, m, dia, backend)
  {
    seq(|images|, k requires 0 <= k < |images| && refidx < |images| && AllWellFormed(images) && ValidBackend(backend)
                    => TransformFor(images, refidx, k, m, dia, backend))
  }

  /** The transform loop of `align_images`: one transform per image in input
      order, the first failure aborting the call. */
  function Transforms(images: seq<Image>, refidx: nat, m: Matcher, dia: real, backend: Backend)
    : (r: Result<seq<Affine>>)
    requires refidx < |images| && AllWellFormed(images) && ValidBackend(backend)
    ensures r.Ok? <==> forall k :: 0 <= k < |images| ==> TransformFor(images, refidx, k, m, dia, backend).Ok?
    ensures r.Ok? ==> |r.value| == |images|
    ensures r.Ok? ==> forall k :: 0 <= k < |images| ==> r.value[k] == TransformFor(images, refidx, k, m, dia, backend).value
    ensures r.Err? ==> exists k :: 0 <= k < |images|
                         && TransformFor(images, refidx, k, m, dia, backend) == Err(r.error)
                         && forall j :: 0 <= j < k ==> TransformFor(images, refidx, j, m, dia, backend).Ok?
  {
    var rs := PerImageTransforms(images, refidx, m, dia, backend);
    var r := Collect(rs);
    if r.Err? then
      var k :| 0 <= k < |rs| && rs[k] == Err(r.error) && forall j :: 0 <= j < k ==> rs[j].Ok?;
      assert TransformFor(images, refidx, k, m, dia, backend) == Err(r.error);
      r
    else r
  }

  /** `align_images(images, use_percentile, background_dia, scale_factor,
      alignment_method, feature_size, threshold_factor)`. */
  function AlignImages(
    images: seq<Image>, usePercentile: real, backgroundDia: real, scaleFactor: real,
    alignmentMethod: string, featureSize: Option<int>, thresholdFactor: real, backend: Backend)
    : (r: Result<seq<Affine>>)
    requires AllWellFormed(images) && ValidBackend(backend)
    // A single image is answered before the method is even looked at.
    ensures |images| == 1 ==> r == Ok([Identity])
    // Any other count with a method other than 'ORB' fails before any image is read.
    ensures |images| != 1 && alignmentMethod != "ORB" ==> r == Err(UnsupportedMethod(alignmentMethod))
    // No image at all passes the single-image test and then fails on `images[0]`.
    ensures |images| == 0 && alignmentMethod == "ORB" ==> r == Err(IndexOutOfRange)
    ensures r.Ok? ==> |r.value| == |images|
    ensures |images| >= 2 && alignmentMethod == "ORB" ==>
              var m := OrbMatcher(scaleFactor, featureSize, thresholdFactor);
              var ref := ReferenceIndex(images, usePercentile);
              && (ref.Err? ==> r == Err(ref.error))
              && (ref.Ok? ==>
                    && (r.Ok? <==> forall k :: 0 <= k < |images| ==>
                                     TransformFor(images, ref.value, k, m, backgroundDia, backend).Ok?)
                    && (r.Ok? ==> r.value[ref.value] == Identity)
                    && (r.Ok? ==> forall k :: 0 <= k < |images| ==>
                          r.value[k] == TransformFor(images, ref.value, k, m, backgroundDia, backend).value)
                    && (r.Err? ==>
                          exists k :: && 0 <= k < |images|
                                      && TransformFor(images, ref.value, k, m, backgroundDia, backend) == Err(r.error)
                                      && forall j :: 0 <= j < k ==> TransformFor(images, ref.value, j, m, backgroundDia, backend).Ok?))
  {
    if |images| == 1 then Ok([Identity])
    else if alignmentMethod != "ORB" then Err(UnsupportedMethod(alignmentMethod))
    else if |images| == 0 then Err(IndexOutOfRange)
    else
      var m := GetAlignmentMethod(alignmentMethod, scaleFactor, featureSize, thresholdFactor).value;
      var refidx :- ReferenceIndex(images, usePercentile);
      Transforms(images, refidx, m, backgroundDia, backend)
  }
}
