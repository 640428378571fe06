/** Records of `affinealigner/types.py`: centroid points, index grids,
    images and affine matrices.
 */
module Types {

  /** A location in image space: `i` is the row (the anterior-posterior
      axis), `j` the column. `N` is `int` for rounded centroids and `real`
      for exact ones. */
  datatype Point<N> = Point(i: N, j: N)

  /** The point with horizontal coordinate `x` and vertical coordinate `y`:
      `x` is the column and `y` the row. */
  function FromXY<N>(x: N, y: N): (p: Point<N>)
    ensures p.j == x && p.i == y
  {
    Point(y, x)
  }

  /** The horizontal coordinate of a point: the `x` that, with the point's
      row, builds the point again. */
  function X<N>(p: Point<N>): (x: N)
    ensures FromXY(x, p.i) == p
  {
    p.j
  }

  /** The vertical coordinate of a point: the `y` that, with the point's
      column, builds the point again. */
  function Y<N>(p: Point<N>): (y: N)
    ensures FromXY(p.j, y) == p
  {
    p.i
  }

  /** `x` reads the column and `y` the row, and reading a point's (x, y)
      and building a point from them gives it back: the accessors swap the
      axes exactly once. */
  lemma XYRoundTrip<N>(p: Point<N>, x: N, y: N)
    ensures X(p) == p.j && Y(p) == p.i
    ensures FromXY(X(p), Y(p)) == p
    ensures X(FromXY(x, y)) == x && Y(FromXY(x, y)) == y
  {
  }

  /** A 2-D integer array, row-major. */
  type Grid = seq<seq<int>>

  /** `a` is an `h` by `w` rectangle. */
  predicate HasShape<T>(a: seq<seq<T>>, h: int, w: int) {
    |a| == h && forall r :: 0 <= r < |a| ==> |a[r]| == w
  }

  /** The row-index grid `I` and the column-index grid `J` of an image. */
  datatype Coordinates = Coordinates(I: Grid, J: Grid)

  /** Length of `np.arange(n)` for an integer `n`. */
  function ArangeLength(n: int): (len: nat)
    ensures n >= 0 ==> len == n
    ensures n < 0 ==> len == 0
  {
    if n < 0 then 0 else n
  }

  /** `Coordinates.create(width, height)`: an `ij`-indexed meshgrid of
      `arange(height)` and `arange(width)`, so both grids have `height`
      rows and `width` columns even though the width is passed first. */
  function Create(width: int, height: int): (c: Coordinates)
    ensures HasShape(c.I, ArangeLength(height), ArangeLength(width))
    ensures HasShape(c.J, ArangeLength(height), ArangeLength(width))
    ensures forall r, k :: 0 <= r < |c.I| && 0 <= k < |c.I[r]| ==> c.I[r][k] == r
    ensures forall r, k :: 0 <= r < |c.J| && 0 <= k < |c.J[r]| ==> c.J[r][k] == k
  {
    var h := ArangeLength(height);
    var w := ArangeLength(width);
    Coordinates(seq(h, r => seq(w, k => r)), seq(h, r => seq(w, k => k)))
  }

  /** Element type of a numpy array, as far as the aligner distinguishes it. */
  datatype DType = UInt8 | Float32 | OtherDType

  /** Number of array dimensions: a grayscale (H, W) or a channelled (H, W, K) image. */
  datatype Ndim = Two | Three

  /** A numpy image. Every image is stored as H rows of W pixels, each pixel
      a vector of channel values; a two-dimensional image has exactly one
      value per pixel. Values are exact reals. */
  datatype Image = Image(dtype: DType, ndim: Ndim, data: seq<seq<seq<real>>>)

  function Height(img: Image): nat {
    |img.data|
  }

  function Width(img: Image): nat {
    if |img.data| == 0 then 0 else |img.data[0]|
  }

  /** A value an unsigned 8-bit integer can hold. */
  predicate IsByte(v: real) {
    0.0 <= v <= 255.0 && v == v.Floor as real
  }

  /** `a` and `b` have the same nesting lengths at every level. */
  predicate SameLayout(a: seq<seq<seq<real>>>, b: seq<seq<seq<real>>>) {
    && |a| == |b|
    && (forall r :: 0 <= r < |a| ==> |a[r]| == |b[r]|)
    && (forall r, c :: 0 <= r < |a| && 0 <= c < |a[r]| ==> |a[r][c]| == |b[r][c]|)
  }

  /** What numpy guarantees of every array: a rectangular H x W x K block
      (K = 1 for a two-dimensional image, K >= 1 otherwise), and uint8
      values that are bytes. */
  predicate WellFormed(img: Image) {
    var d := img.data;
    && (forall r :: 0 <= r < |d| ==> |d[r]| == Width(img))
    && (forall r, c :: 0 <= r < |d| && 0 <= c < |d[r]| ==> |d[r][c]| == |d[0][0]|)
    && (forall r, c :: 0 <= r < |d| && 0 <= c < |d[r]| ==> |d[r][c]| >= 1)
    && (img.ndim == Two ==> forall r, c :: 0 <= r < |d| && 0 <= c < |d[r]| ==> |d[r][c]| == 1)
    && (img.dtype == UInt8 ==>
          forall r, c, k :: 0 <= r < |d| && 0 <= c < |d[r]| && 0 <= k < |d[r][c]| ==> IsByte(d[r][c][k]))
  }

  /** Two images of the same numpy shape. */
  predicate SameShape(a: Image, b: Image) {
    a.ndim == b.ndim && SameLayout(a.data, b.data)
  }

  /** `Coordinates.from_image(img)`: grids shaped like the image's first two
      dimensions, its W passed as the width and its H as the height. */
  function FromImage(img: Image): (c: Coordinates)
    requires WellFormed(img)
    ensures HasShape(c.I, Height(img), Width(img)) && HasShape(c.J, Height(img), Width(img))
    ensures forall r, k :: 0 <= r < |img.data| && 0 <= k < |img.data[r]| ==> c.I[r][k] == r && c.J[r][k] == k
  {
    Create(Width(img), Height(img))
  }

  /** A 2 x 3 affine matrix. */
  datatype Affine = Affine(rows: seq<seq<real>>)

  /** `affine2d.identity()`. */
  const Identity: Affine := Affine([[1.0, 0.0, 0.0], [0.0, 1.0, 0.0]])
}
