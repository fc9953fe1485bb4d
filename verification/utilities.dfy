/** Shape test for numpy vectors. */
module Utilities {

  /** A numpy array, as far as the model reads it: its shape and its elements in order. */
  datatype NdArray = NdArray(shape: seq<nat>, elements: seq<real>)

  /** `is_ND_vec`: the array's shape is the one-tuple (n,). Only the shape is read. */
  predicate IsNDVec(vec: NdArray, n: int) {
    vec.shape == [n]
  }

  /**
   * The test is exact: a one-dimensional array of another length fails, and so
   * does any array of two or more dimensions, whatever its first dimension.
   */
  lemma IsNDVecExact(vec: NdArray, n: int)
    ensures IsNDVec(vec, n) <==> |vec.shape| == 1 && vec.shape[0] == n
    ensures |vec.shape| == 1 && vec.shape[0] != n ==> !IsNDVec(vec, n)
    ensures |vec.shape| >= 2 ==> !IsNDVec(vec, n)
  {
  }

  /** A one-dimensional numpy array holding `s`. */
  function Vector(s: seq<real>): NdArray {
    NdArray([|s|], s)
  }
}
