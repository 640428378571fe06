/** Failure values shared by every part of the aligner model.

    The Python code reports failures by raising (ValueError, IndexError, or
    an error from a collaborating library); the model returns them as the
    `Err` case of `Result`, so that every error path is a value a contract
    can talk about.
 */
module Base {

  datatype Error =
    /** Python `IndexError`: an index outside a tuple, list or array. */
    | IndexOutOfRange
    /** `align_images` was given a method other than 'ORB' (ValueError). */
    | UnsupportedMethod(name: string)
    /** `get_alignment_method` was given an unknown method (ValueError). */
    | UnexpectedMethod(name: string)
    /** `overlay` was called with no images (ValueError). */
    | NoImagesToOverlay
    /** `np.stack` was given an empty list (ValueError). */
    | EmptyStack
    /** A reduction (`min`, `percentile`) over a zero-size array. */
    | EmptyArray
    /** `np.percentile` with a percentile outside [0, 100] (ValueError). */
    | PercentileOutOfRange(p: real)
    /** `np.where(pos == target)[0][0]` found no position equal to the target. */
    | NoMatchingPosition(target: int)
    /** A centroid whose total weight is zero (NaN or infinity in numpy). */
    | NonFiniteCentroid
    /** `std_scale` with scale 0 (division by zero in numpy). */
    | NonFiniteScale
    /** Two arrays whose shapes do not agree for an element-wise operation. */
    | ShapeMismatch
    /** numpy given a one-dimensional array where an axis index is expected
        (TypeError). */
    | AxisNotScalar
    /** A failure reported by the affine estimator. */
    | EstimatorFailure(reason: string)

  /** Success carries a value; failure carries the error that aborts the call. */
  datatype Result<+T> = Ok(value: T) | Err(error: Error) {

    predicate IsFailure() {
      Err?
    }

    function PropagateFailure<U>(): Result<U>
      requires Err?
    {
      Err(error)
    }

    function Extract(): T
      requires Ok?
    {
      value
    }
  }

  datatype Option<+T> = None | Some(value: T)
}
