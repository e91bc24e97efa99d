/** Arguments of the clustering sweeps as Python hands them over: the sweeps
    check the dynamic type of each argument with `isinstance` before using it. */
module PyArgs {

  /** A scalar argument, tagged with the type `isinstance` sees. Anything that
      is neither None, an int, a float nor a bool is `PyOther`. */
  datatype PyValue = PyNone | PyInt(i: int) | PyFloat(f: real) | PyBool(b: bool) | PyOther

  /** The data set argument `X`: either not a numpy array at all, or an
      array with the given shape. */
  datatype ArrayArg = NotAnArray | NdArray(shape: seq<nat>)

  /** `isinstance(X, np.ndarray) and len(X.shape) == 2` */
  predicate Is2D(x: ArrayArg) {
    x.NdArray? && |x.shape| == 2
  }

  /** `X.shape[0]`, the number of data points of a 2-D data set. */
  function Rows(x: ArrayArg): nat
    requires Is2D(x)
  {
    x.shape[0]
  }
}
