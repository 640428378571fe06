# affinealigner in Dafny

This project models the core of `affinealigner`, a small Python library that computes one affine transform per image for a stack of brain-section images. In each image the top-bottom (row) axis is the brain's anterior–posterior axis.

The pipeline of `align_images` works as follows:
- every image's intensity-weighted centroid is computed and rounded;
- a reference section is picked by a percentile of the centroid rows;
- each other image is background-subtracted, brightness-scaled and converted to RGB24;
- it is then matched against the reference with ORB features;
- matches are filtered by a threshold derived from the descriptors' standard deviations;
- an affine transform is estimated that maps the image onto the reference.

The reference's own transform is the identity.

The model is organised in one module per source file:

- `Base` (base.dfy) holds the errors the Python code raises, as values: a `Result` whose `Err` case names the failure.
- `Types` (types.dfy) covers `types.py`: `Point` with its `x`/`y` accessors, the `Coordinates` index grids, numpy images and the affine-matrix identity.
- `Compute` (compute.dfy) covers `compute.py`:
  - `std_scale`, `to_uint8`, `to_rgb24`, `to_float_grayscale`;
  - `overlay`;
  - `center_of_mass`, with Python's round-half-to-even.
- `FeatureBased` (featurebased.dfy) covers `featurebased.py`:
  - the distance filter and `as_xy` of `FeatureAlignment`;
  - the descriptor threshold of `align_ORB`;
  - `align_ORB` itself;
  - `get_alignment_method`.
- `Align` (align.dfy) covers `align.py`:
  - `_get_reference_index`, including numpy's linear-interpolation percentile and `np.where(...)[0][0]`;
  - `align_images` with its `_estimate` helper.

Images are exact real arrays stored as H rows of W pixels. Each pixel is a vector of channel values; a two-dimensional image has exactly one value per pixel. `WellFormed` states what numpy guarantees of an array: it is rectangular, and uint8 values are bytes.

Two kinds of routine become parameters of the model:
- Library routines the code calls but does not define. OpenCV's ORB detection, the cross-checking Hamming matcher and numpy's row standard deviation are the functions of a `FeatureBased.Vision` value. `affine2d.estimate` is a function of an `Align.Backend` value.
- `compute.subtract_background`, which is defined at compute.py:163-167 but abstracted, because it is built from scipy's Gaussian filter and floating-point z-scoring. It is the other function of an `Align.Backend` value.

The only assumption made about these routines is `Align.ValidBackend`: background subtraction returns a well-formed array for a well-formed one.

The reference search can miss. Take three sections whose rounded centroids lie on rows 10, 50 and 90, at the default 15th percentile. numpy's percentile is 22 and its ceiling is 22. No section lies on row 22, so `np.where(pos == 22)[0][0]` raises `IndexError`. `Align.ThreeSectionsAtDefaultPercentile` proves that the model returns `Err(NoMatchingPosition(22))` here.

The code of `to_float_grayscale` raises on images with channels: see "## Findings". The model uses the evidently intended channel mean.

## Model

| member | source | states |
|---|---|---|
| Types.FromXY | affinealigner/types.py:24-31 | the point built from horizontal `x` and vertical `y` has `x` as its column `j` and `y` as its row `i` |
| Types.X | affinealigner/types.py:25-27 | `x` is the coordinate that, with the point's row, rebuilds the point: its column |
| Types.Y | affinealigner/types.py:29-31 | `y` is the coordinate that, with the point's column, rebuilds the point: its row |
| Types.XYRoundTrip | affinealigner/types.py:24-31 | `x` returns the column `j` and `y` the row `i`; reading a point's `x`, `y` and rebuilding it gives the same point; building a point from `x`, `y` and reading them back gives `x`, `y` |
| Types.ArangeLength | affinealigner/types.py:37 | `np.arange(n)` has `n` elements, and none when `n` is negative |
| Types.Create | affinealigner/types.py:36-38 | both grids have `height` rows and `width` columns (the width is passed first); `I[r][k] = r` and `J[r][k] = k` |
| Types.FromImage | affinealigner/types.py:40-43 | the grids are H by W for an H by W image; `I` holds each pixel's row and `J` its column |
| Compute.StdScaleValue | affinealigner/compute.py:53 | one scaled value `u` satisfies `u * 2s = v + s` |
| Compute.StdScale | affinealigner/compute.py:49-53 | the result is float32 and shaped like the input; every value satisfies `out * 2s = in + s`, that is, it is `StdScaleValue` of the input value; a well-formed image stays well formed |
| Compute.StdScaleBand | affinealigner/compute.py:49-53 | for positive `s`, `-s` maps to 0 and `s` to 1; values in `[-s, s]` map into `[0, 1]`, and the map is monotone |
| Compute.ToByte | affinealigner/compute.py:95-98 | clamping then casting gives a byte: negatives become 0, values above 255 become 255, and values in range are truncated (`b <= v < b + 1`) |
| Compute.ToByteOfByte | affinealigner/compute.py:96-98 | a value that already is a byte passes through unchanged |
| Compute.ToUint8 | affinealigner/compute.py:92-98 | a uint8 image is returned as is; any other image becomes a uint8 image of the same shape whose values are the bytes of `v * factor`; well-formedness is kept |
| Compute.ToUint8Idempotent | affinealigner/compute.py:92-94 | converting to uint8 twice is the same as converting once, whatever the factors |
| Compute.Triple | affinealigner/compute.py:110 | a stacked pixel holds three copies of the one grayscale value |
| Compute.ToRgb24 | affinealigner/compute.py:101-110 | the result is always a well-formed 3-D uint8 image; a 3-D uint8 image is returned unchanged; other 3-D images go through `to_uint8`; a 2-D image becomes three identical channels of its `to_uint8` |
| Compute.StackGray | affinealigner/compute.py:110 | stacking a 2-D byte image three times gives a well-formed 3-D byte image of the same height and width whose pixels are three copies of the original value |
| Compute.Mean | affinealigner/compute.py:88 | the channel mean times the channel count is the channel sum |
| Compute.SumOfTriple | affinealigner/compute.py:88 | three equal channels sum to three times the value |
| Compute.SumNonNegative | affinealigner/compute.py:154 | non-negative values have a non-negative sum |
| Compute.ToFloatGrayscale | affinealigner/compute.py:84-89 | as evidently intended (see "## Findings"): a 2-D image keeps its values as float32; a 3-D image becomes the per-pixel mean over its channels; the result is a well-formed 2-D image with the input's height and width |
| Compute.ToFloatGrayscaleAsWritten | affinealigner/compute.py:84-89 | as written: a 2-D image succeeds and agrees with `ToFloatGrayscale`; any image with channels fails with the TypeError of the array-valued axis |
| Compute.RgbPixelGrayscaleDiscrepancy | affinealigner/compute.py:88 | on the 1 x 1 RGB pixel (30, 60, 90), the code as written fails while the intended grayscale is 60 |
| Compute.GrayscaleOfRgb24 | affinealigner/compute.py:84-110 | for a 2-D image, the intended grayscale of its RGB24 version equals its `to_uint8` bytes |
| Compute.GrayscaleOfRgb24Pixel | affinealigner/compute.py:84-110 | at each pixel of a 2-D image, the intended grayscale of its RGB24 version is its `to_uint8` byte |
| Compute.Accumulate | affinealigner/compute.py:76-78 | after the loop, every value is the starting value plus the sum of that value over all images |
| Compute.Clamp255 | affinealigner/compute.py:79-80 | the clamped value lies in [0, 255], in-range values are unchanged, and clamping does not change the byte later cast from it |
| Compute.ClampedSum | affinealigner/compute.py:76-80 | the float image before conversion is well formed and shaped like the inputs; each value is the clamped element-wise sum of all images |
| Compute.SummedCube | affinealigner/compute.py:76-78 | the accumulated `overlaid` array has the first image's layout, and each value is the sum of the images' values at that position |
| Compute.Overlay | affinealigner/compute.py:69-81 | no image is an error and one image is returned unchanged; two or more images succeed exactly when they share one shape (numpy broadcasting is not modelled) and give `to_rgb24` of the clamped sum with factor 1 |
| Compute.OverlayIsClampedSum | affinealigner/compute.py:76-81 | each output value of an overlay of two or more images is the byte of the clamped element-wise sum; a grayscale sum is replicated into three channels |
| Compute.Plane | affinealigner/compute.py:151 | the grayscale image read as a plane keeps every pixel's single value |
| Compute.Gray | affinealigner/compute.py:151 | the plane `center_of_mass` weighs has the image's rows and columns |
| Compute.GridsFor | affinealigner/compute.py:152-153 | given grids are used as they are; missing grids default to the image's own index grids |
| Compute.CenterOfMass | affinealigner/compute.py:146-156 | succeeds exactly when both grids are shaped like the image and the total weight is non-zero; a grid mismatch and a zero weight are distinct errors; the result is the weighted mean of the row grid and of the column grid |
| Compute.WeightedMean | affinealigner/compute.py:155-156 | the mean times the total weight is the grid-weighted sum |
| Compute.RoundHalfEven | affinealigner/compute.py:158-159 | Python's `round` gives an integer within 0.5 of `x`, and the even one on a tie |
| Compute.RoundHalfEvenUnique | affinealigner/compute.py:158-159 | any integer within 0.5 of `x` that is even on a tie is that rounding |
| Compute.RoundWithin | affinealigner/compute.py:158-159 | rounding a value in `[lo, hi]` with integer bounds stays in `[lo, hi]` |
| Compute.CenterOfMassRounded | affinealigner/compute.py:146-160 | with `as_int`, succeeds exactly when the exact centroid does, with the same error; each coordinate is within 0.5 of the exact one and even when it is exactly 0.5 away, which by `RoundHalfEvenUnique` is Python's `round` |
| Compute.RowDotLower | affinealigner/compute.py:155-156 | in one row, a grid bounded below by `lo` weighs non-negative values to at least `lo` times their sum |
| Compute.RowDotUpper | affinealigner/compute.py:155-156 | in one row, a grid bounded above by `hi` weighs non-negative values to at most `hi` times their sum |
| Compute.SumScaledLower | affinealigner/compute.py:155-156 | rows each at least `lo` times their weight sum add up to at least `lo` times the total |
| Compute.SumScaledUpper | affinealigner/compute.py:155-156 | rows each at most `hi` times their weight sum add up to at most `hi` times the total |
| Compute.DotLower | affinealigner/compute.py:155-156 | over a plane, `(G * img).sum()` is at least `lo * img.sum()` for a grid bounded below by `lo` |
| Compute.DotUpper | affinealigner/compute.py:155-156 | over a plane, `(G * img).sum()` is at most `hi * img.sum()` for a grid bounded above by `hi` |
| Compute.TotalNonNegative | affinealigner/compute.py:154 | a non-negative plane has a non-negative total weight |
| Compute.GrayNonNegative | affinealigner/compute.py:151 | the grayscale of a non-negative image is non-negative |
| Compute.WeightedMeanWithin | affinealigner/compute.py:155-156 | with non-negative weights and a non-zero total, the weighted mean of grid values in `[lo, hi]` lies in `[lo, hi]` |
| Compute.CentroidWithinImage | affinealigner/compute.py:146-156 | the default-grid centroid of a non-negative image lies within `[0, H-1] x [0, W-1]` |
| Compute.FromImageWithin | affinealigner/types.py:36-43 | the default index grids hold rows in `[0, H-1]` and columns in `[0, W-1]` |
| Compute.RoundedCentroidWithinImage | affinealigner/compute.py:146-160 | the rounded default-grid centroid of a non-negative image is a valid pixel index |
| FeatureBased.SurvivorIndices | affinealigner/featurebased.py:22 | the kept positions are exactly those whose distance is strictly below the threshold, in increasing order; none are kept when every distance reaches it |
| FeatureBased.Survivors | affinealigner/featurebased.py:22-23 | the filter keeps at most every match, and every kept match is strictly below the threshold |
| FeatureBased.SurvivorsAtIndices | affinealigner/featurebased.py:22-23 | the filtered matches are exactly the matches at the kept positions, in input order |
| FeatureBased.SurvivorsStep | affinealigner/featurebased.py:22-23 | if the kept matches of all but the last match are the matches at their kept positions, this still holds for the whole list |
| FeatureBased.SurvivorMembership | affinealigner/featurebased.py:22-23 | a match survives exactly when it is in the list and strictly below the threshold |
| FeatureBased.SurvivorsNested | affinealigner/featurebased.py:22-23 | filtering at a lower threshold after a higher one is filtering at the lower one |
| FeatureBased.SurvivorsMonotone | affinealigner/featurebased.py:22-23 | raising the threshold keeps every survivor |
| FeatureBased.PyIndex | affinealigner/featurebased.py:22-23 | Python indexing succeeds exactly for indices in `[-n, n)`; negative indices count from the end; others raise `IndexError` |
| FeatureBased.RowStds | affinealigner/featurebased.py:58 | `des.std(1)` has one deviation per descriptor row |
| FeatureBased.Gather | affinealigner/featurebased.py:22-23 | keypoint locations in match order, succeeding exactly when every index is valid and failing with `IndexError` otherwise |
| FeatureBased.AsXY | affinealigner/featurebased.py:21-24 | succeeds exactly when some match survives and all its indices are valid; no survivor is the empty-stack error; the two arrays pair row for row with the first and the second keypoint of each survivor |
| FeatureBased.ZeroThresholdRejectsAll | affinealigner/featurebased.py:21-24 | with threshold 0 and non-negative distances nothing survives, and `as_xy` fails |
| FeatureBased.MinOf | affinealigner/featurebased.py:58 | the minimum is an element and at most every element |
| FeatureBased.Threshold | affinealigner/featurebased.py:58 | defined exactly when both descriptor sets are non-empty; the value is the least of all row deviations of both sets, times the factor |
| FeatureBased.ZeroFactorThreshold | affinealigner/featurebased.py:58 | a zero factor gives a zero threshold |
| FeatureBased.Convert | affinealigner/featurebased.py:48-49 | the converted image is a well-formed 3-D uint8 image of the input's height and width; each value is the byte of `255 * (v + s) / (2 s)` for the input value `v`, and a 2-D input gives three equal channels |
| FeatureBased.GetAlignmentMethod | affinealigner/featurebased.py:62-79 | 'ORB' gives the ORB matcher with the given parameters, and any other name is a `ValueError` naming it |
| FeatureBased.AlignOrb | affinealigner/featurebased.py:39-59 | both images are std-scaled and converted to RGB24, then detected and cross-check matched; the threshold is computed from both descriptor sets; empty descriptors are an error, and so is scale 0 |
| Align.Insert | affinealigner/align.py:133 | inserting into sorted positions keeps them sorted and adds exactly one occurrence |
| Align.ConsSorted | affinealigner/align.py:133 | a head no larger than the first element of sorted positions keeps them sorted |
| Align.InsertBehindHead | affinealigner/align.py:133 | keeping a smaller head in front of an insertion into the tail gives a sorted arrangement with one more occurrence of the inserted value |
| Align.Sort | affinealigner/align.py:133 | the positions numpy's percentile works on are sorted, as many as the input, and a permutation of it |
| Align.SortEnds | affinealigner/align.py:133 | the sorted positions have the input's length, and their first and last elements are the least and the greatest position |
| Align.SortedHolds | affinealigner/align.py:133 | every position lies between the first and the last of its sorted arrangement |
| Align.SortedUnique | affinealigner/align.py:133 | two sorted arrangements of the same positions are equal |
| Align.SortedHeads | affinealigner/align.py:133 | two sorted arrangements of the same positions start alike |
| Align.SortedTail | affinealigner/align.py:133 | dropping the first sorted position keeps the rest sorted and removes exactly that position |
| Align.SortedIsOwnSort | affinealigner/align.py:133 | sorting already sorted positions changes nothing |
| Align.MinPos | affinealigner/align.py:131 | `pos.min()` is a position and at most every position |
| Align.VirtualIndex | affinealigner/align.py:133 | numpy's virtual index `(n-1) p / 100` lies in `[0, n-1]`; it is 0 at p = 0 and `n-1` at p = 100 |
| Align.Percentile | affinealigner/align.py:133 | the interpolated percentile lies between the least and the greatest position; it is the least at p = 0 and the greatest at p = 100 |
| Align.Interpolate | affinealigner/align.py:133 | linear interpolation a fraction in [0, 1) of the way between two ordered neighbours stays between them, and a zero fraction gives the lower one |
| Align.Ceil | affinealigner/align.py:133 | `math.ceil` is the least integer not below its argument |
| Align.CeilWithin | affinealigner/align.py:133 | the ceiling of a value between two integers stays between them |
| Align.Target | affinealigner/align.py:133 | the row searched for, the ceiling of the percentile, lies between the least and the greatest sorted position |
| Align.Positions | affinealigner/align.py:129 | `pos` holds every point's row, in order |
| Align.FirstIndexOf | affinealigner/align.py:134 | succeeds exactly when the target occurs and gives its first occurrence; otherwise it fails with `IndexError`; the model's error value records the target |
| Align.GetReferenceIndex | affinealigner/align.py:125-134 | with exactly two points, the first point with the lower row; otherwise an out-of-range percentile fails, an empty list fails, and the result is the first point whose row is the ceiling of the percentile, failing exactly when no point has that row |
| Align.LowestPercentileSelectsMinimum | affinealigner/align.py:125-134 | at the 0th percentile the first section with the least row is chosen |
| Align.HighestPercentileSelectsMaximum | affinealigner/align.py:125-134 | at the 100th percentile, unless there are exactly two sections, the first section with the greatest row is chosen |
| Align.TargetWithinRows | affinealigner/align.py:133 | the searched row lies between the least and the greatest centroid row |
| Align.ThreeSectionsAtDefaultPercentile | affinealigner/align.py:125-134 | rows 10, 50, 90 at the 15th percentile search for row 22 and fail |
| Align.ThreeSectionsAtMedian | affinealigner/align.py:125-134 | rows 10, 50, 90 at the 50th percentile choose the middle section |
| Align.TargetAt15 | affinealigner/align.py:133 | for rows 10, 50, 90 the row searched at the 15th percentile is 22 |
| Align.TargetAt50 | affinealigner/align.py:133 | for rows 10, 50, 90 the row searched at the 50th percentile is 50 |
| Align.ThreeSectionsRows | affinealigner/align.py:129 | the three example sections have rows 10, 50 and 90 |
| Align.ThreeRowsSorted | affinealigner/align.py:133 | rows 10, 50, 90 are already sorted, so sorting leaves them unchanged |
| Align.PercentileAt15 | affinealigner/align.py:133 | numpy's 15th percentile of 10, 50, 90 is 22 |
| Align.PercentileAt50 | affinealigner/align.py:133 | numpy's 50th percentile of 10, 50, 90 is 50 |
| Align.Collect | affinealigner/align.py:115-122 | a loop that appends one result per element gives all values when every step succeeds; otherwise it gives the error of the first failing step |
| Align.RoundedCentroids | affinealigner/align.py:99-103 | one rounded centroid per image, on the shared grids |
| Align.Centroids | affinealigner/align.py:99-103 | all rounded centroids on the first image's grids, in order, or the error of the first image whose centroid fails |
| Align.CentroidsFirstError | affinealigner/align.py:99-103 | when the centroids fail, the error is that of an image whose centroid fails while every earlier image succeeds |
| Align.ReferenceIndex | affinealigner/align.py:91-106 | the reference is chosen among the rounded centroids on the first image's grids; a centroid failure aborts; the index is a valid image index |
| Align.EstimatePair | affinealigner/align.py:108-113 | both images are background-subtracted and matched with the reference first; a matching or `as_xy` failure aborts; the estimator maps the query's points onto the reference's |
| Align.TransformFor | affinealigner/align.py:116-120 | the identity at the reference index, and the estimate onto the reference elsewhere |
| Align.PerImageTransforms | affinealigner/align.py:115-121 | one transform result per image, in input order |
| Align.Transforms | affinealigner/align.py:115-122 | one transform per image, in input order, or the error of the first failing image |
| Align.AlignImages | affinealigner/align.py:44-122 | one image gives the identity alone; a method other than 'ORB' fails first; no image fails on `images[0]`; otherwise a reference failure aborts; the result has one transform per image: the identity at the reference and the estimate onto it elsewhere, or the first image's failure |

## Left out

- OpenCV (`ORB_create`, `detectAndCompute`, `BFMatcher.match`), numpy's standard deviation, scipy's Gaussian filter in `compute.subtract_background` and `affine2d.estimate` are library code. They are function parameters of the model, not models.
- `compute.subtract_background` itself is left out because of its floating-point z-scoring and Gaussian filtering. It is the `subtractBackground` parameter, assumed only to return a well-formed array.
- `compute.scale_image`, `get_rgbarray`, `color_grayscale`, `color_mask` and `mask_to_border` are not on the alignment path. They are display helpers.
- `FeatureAlignment.as_image` is left out; it only draws the matches with OpenCV.
- The `affine2d` module, `validation.py` and the package `__init__.py` are not part of this model. Only `affine2d.identity()` appears, as `Types.Identity`.
- Values are exact reals. float32 and float64 rounding, NaN and infinity are not modelled. Where numpy would produce NaN or infinity, the model returns an error instead:
  - a zero total weight in `center_of_mass`;
  - a zero `scale` in `std_scale`.
- Compute.StdScale: requires a non-zero scale instead of producing infinities for scale 0. The caller `FeatureBased.AlignOrb` turns scale 0 into `Err(NonFiniteScale)`.
- Compute.CenterOfMass: a zero total weight gives `Err(NonFiniteCentroid)`. With `as_int=False`, Python instead returns a point holding NaN or infinity. With `as_int=True`, `round` raises, which the error does match.
- Compute.Overlay: images whose shapes differ but broadcast in numpy are reported as `ShapeMismatch` rather than broadcast.
- Compute.CenterOfMass: grids shaped unlike the image are reported as `ShapeMismatch`, even where numpy would broadcast them. This matters in `align_images`, where every image is weighed on the first image's grids.
- Images have two or three dimensions with at least one channel. Arrays of higher rank and zero-channel arrays are not modelled. An image with no rows has width 0.
- `feature_size` is passed to ORB detection as an opaque optional count. OpenCV's behaviour for `None` belongs to the `detect` parameter.
- The dtype of an image is only distinguished as uint8, float32 or other. Integer inputs other than uint8 are treated as exact reals.
- Align.AlignImages: Python takes an iterable and materialises it into a tuple. The model takes the sequence directly.
- Every parameter is explicit; Python's default arguments are not modelled. The defaults are:
  - `use_percentile=15`, `background_dia=7`, `scale_factor=1.8`, `threshold_factor=0.67` and `feature_size=None` of `align_images` (align.py:44-51);
  - `coords=None` and `as_int=True` of `center_of_mass` (compute.py:146-150);
  - `factor=255` of `to_uint8` and `to_rgb24`, and `scale=1` of `std_scale`;
  - `scale_factor=1`, `feature_size=500` and `threshold_factor=0.67` of `align_ORB` and `get_alignment_method`, which `align_images` overrides with its own values.
- Align.GetReferenceIndex: the percentile and its ceiling are computed in exact reals, where numpy uses float64 on the integer rows. Because the ceiling jumps at integers, the searched row can differ. For rows 0 to 100 at percentile 7, float64 gives the virtual index 100 * 0.07 = 7.000000000000001 and the ceiling 8, where the exact value 7 gives 7.
- Compute.CenterOfMass: weighs a 3-D image by the intended channel mean of `Compute.ToFloatGrayscale` and can return a centroid, where the code as written raises TypeError (see "## Findings").
- Compute.Gray: a 3-D image's plane is the intended channel mean, not the TypeError of the code as written (see "## Findings").
- Compute.GrayscaleOfRgb24: states the intended grayscale of an RGB24 image; the code as written raises on it (see "## Findings").
- Compute.GrayscaleOfRgb24Pixel: the same, pixel by pixel (see "## Findings").
- Align.AlignImages: with 3-D images it computes centroids from the intended channel mean and can return transforms, where the code as written raises TypeError in `to_float_grayscale` (see "## Findings").

## Findings

| source | as written | input that shows it | evidently intended | confidence | as-written member | corrected member |
|---|---|---|---|---|---|---|
| affinealigner/compute.py:88 | for an image with more than two dimensions, the channel axes are passed to `mean` as the one-dimensional array `np.arange(2, K)`; numpy accepts only an integer or a tuple of integers as an axis and raises TypeError | the 1 x 1 RGB uint8 image with pixel (30, 60, 90), or two or more RGB images given to `align_images` with method 'ORB' | the mean over the channel axes, 60 for that pixel | medium, from numpy's axis handling; not executed | Compute.ToFloatGrayscaleAsWritten, Compute.RgbPixelGrayscaleDiscrepancy | Compute.ToFloatGrayscale, Compute.GrayscaleOfRgb24 |
