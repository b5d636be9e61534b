/** Vector256<double> as a value: four lanes of reals. Only the operations the
    reducers use are modelled; the hardware intrinsics themselves are not. */
module Vector256 {
  import MaxSpec

  /** Vector256<double>.Count */
  const Count: nat := 4

  type Vec = v: seq<real> | |v| == Count witness [0.0, 0.0, 0.0, 0.0]

  /** Vector256<double>.Zero */
  function Zero(): Vec
  {
    [0.0, 0.0, 0.0, 0.0]
  }

  /** Vector256.Create(e0, e1, e2, e3): lane k holds ek. */
  function Create(e0: real, e1: real, e2: real, e3: real): Vec
  {
    [e0, e1, e2, e3]
  }

  /** Vector256.Max: the lane-wise maximum. */
  function Max(a: Vec, b: Vec): Vec
  {
    seq(Count, k requires 0 <= k < Count => MaxSpec.Max(a[k], b[k]))
  }

  /** Vector256.LoadUnsafe(ref flat[i]): four contiguous elements. The requires is the
      memory-safety condition the source leaves to its caller. */
  function LoadUnsafe(flat: seq<real>, i: nat): Vec
    requires i + Count <= |flat|
  {
    flat[i..i + Count]
  }
}
