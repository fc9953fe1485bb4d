/** The sampled-trajectory record shared by all orbit kinds. */
module OrbitBase {
  import opened Wrappers
  import opened Utilities

  /**
   * `Trajectory`: sample times and x, y coordinates as three numpy arrays,
   * with `n` the length of the time axis, fixed once by the constructor.
   */
  datatype Trajectory = Trajectory(t: NdArray, x: NdArray, y: NdArray, n: nat)
  {
    /** The shape invariant `__post_init__` asserts. */
    predicate Valid() {
      IsNDVec(t, n) && IsNDVec(x, n) && IsNDVec(y, n)
    }
  }

  /**
   * `Trajectory(t, x, y)` with its `__post_init__`: N is the first dimension of
   * `t`, and construction fails (IndexError on a 0-d `t`, AssertionError on a
   * shape mismatch) unless all three arrays have shape exactly (N,). A success
   * keeps the three arrays exactly as given.
   */
  function MakeTrajectory(t: NdArray, x: NdArray, y: NdArray): (r: Option<Trajectory>)
    ensures r.Some? <==> |t.shape| == 1 && x.shape == t.shape && y.shape == t.shape
    ensures r.Some? ==> r.value.Valid() && r.value.n == t.shape[0]
    ensures r.Some? ==> r.value.t == t && r.value.x == x && r.value.y == y
  {
    if |t.shape| == 0 then None
    else
      var n := t.shape[0];
      if IsNDVec(t, n) && IsNDVec(x, n) && IsNDVec(y, n) then Some(Trajectory(t, x, y, n))
      else None
  }

  /** Three vectors of one length always make a trajectory, with nothing truncated or reordered. */
  lemma MakeTrajectoryFromVectors(ts: seq<real>, xs: seq<real>, ys: seq<real>)
    requires |xs| == |ts| && |ys| == |ts|
    ensures var r := MakeTrajectory(Vector(ts), Vector(xs), Vector(ys));
      r.Some? && r.value.n == |ts| &&
      r.value.t.elements == ts && r.value.x.elements == xs && r.value.y.elements == ys
  {
  }
}
