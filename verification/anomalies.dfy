/**
 * Conversions between the true, eccentric and mean anomaly of an elliptic orbit,
 * and the Newton-Raphson solver that inverts Kepler's equation M = E - e sin E.
 * All angles are in radians.
 */
module Anomalies {
  import opened Constants
  import opened Numerics
  import opened Wrappers

  // ---------------------------------------------------------------------------
  // Quadrant correction after arccos
  // ---------------------------------------------------------------------------

  /** `in_quadrant_one_or_two`: the angle, reduced into [0, 2 pi), is at most pi. */
  predicate InQuadrantOneOrTwo(theta: real) {
    PyMod(theta, 2.0 * PI) <= PI
  }

  /** The test does not see whole turns: it is 2 pi-periodic, negative angles included. */
  lemma InQuadrantOneOrTwoPeriodic(theta: real, turns: int)
    ensures InQuadrantOneOrTwo(theta + (turns as real) * (2.0 * PI)) == InQuadrantOneOrTwo(theta)
  {
    PyModShift(theta, 2.0 * PI, turns);
  }

  /** On one turn [0, 2 pi) the test is exactly `theta <= pi`. */
  lemma InQuadrantOneOrTwoOnOneTurn(theta: real)
    requires 0.0 <= theta < 2.0 * PI
    ensures InQuadrantOneOrTwo(theta) <==> theta <= PI
  {
    PyModOfReduced(theta, 2.0 * PI);
  }

  /**
   * `_adj_quadrants_from_arccos`: arccos only yields [0, pi]; when the reference
   * angle lies in the lower half-plane the value is reflected to 2 pi minus it.
   * For a principal value the result lies in the reference angle's half-plane.
   */
  function AdjustQuadrant(solved: real, original: real): (r: real)
    ensures 0.0 <= solved <= PI && InQuadrantOneOrTwo(original) ==> 0.0 <= r <= PI
    ensures 0.0 <= solved <= PI && !InQuadrantOneOrTwo(original) ==> PI <= r <= 2.0 * PI
  {
    if InQuadrantOneOrTwo(original) then solved else PI + (PI - solved)
  }

  /** For a fixed reference angle the correction undoes itself. */
  lemma AdjustQuadrantInvolution(solved: real, original: real)
    ensures AdjustQuadrant(AdjustQuadrant(solved, original), original) == solved
  {
  }

  /**
   * A principal value strictly inside (0, pi) is moved to the same half-plane
   * as the reference angle, as judged by the quadrant test itself.
   */
  lemma AdjustQuadrantSameHalfPlane(solved: real, original: real)
    requires 0.0 < solved < PI
    ensures InQuadrantOneOrTwo(AdjustQuadrant(solved, original)) == InQuadrantOneOrTwo(original)
  {
    var r := AdjustQuadrant(solved, original);
    InQuadrantOneOrTwoOnOneTurn(r);
  }

  /**
   * `_v_adj_quadrants_from_arccos`: the masked in-place form. Every element whose
   * reference angle reduces to more than pi is reflected; the array itself is
   * returned. Since `> pi` is the complement of `<= pi`, each element ends up as
   * the scalar correction of its pair.
   */
  method AdjustQuadrantsInPlace(solved: array<real>, original: seq<real>) returns (r: array<real>)
    requires |original| == solved.Length
    modifies solved
    ensures r == solved
    ensures forall i :: 0 <= i < solved.Length ==>
      solved[i] == AdjustQuadrant(old(solved[i]), original[i])
    ensures forall i :: 0 <= i < solved.Length && InQuadrantOneOrTwo(original[i]) ==>
      solved[i] == old(solved[i])
  {
    forall i | 0 <= i < solved.Length && PyMod(original[i], 2.0 * PI) > PI {
      solved[i] := PI + (PI - solved[i]);
    }
    r := solved;
  }

  // ---------------------------------------------------------------------------
  // Closed-form conversions
  // ---------------------------------------------------------------------------

  /**
   * For an elliptic eccentricity and any cosine value, the denominators of the
   * two arccos formulas are positive and both arccos arguments lie in [-1, 1].
   */
  lemma ArccosArgumentsInRange(e: real, c: real)
    requires 0.0 <= e < 1.0
    requires -1.0 <= c <= 1.0
    ensures 1.0 + e * c > 0.0 && 1.0 - e * c > 0.0
    ensures -1.0 <= (e + c) / (1.0 + e * c) <= 1.0
    ensures -1.0 <= (c - e) / (1.0 - e * c) <= 1.0
  {
    ScaledUnitBound(e, c);
    MulNonNegative(1.0 - e, 1.0 - c);
    MulNonNegative(1.0 + e, 1.0 + c);
    QuotientInUnitRange(e + c, 1.0 + e * c);
    MulNonNegative(1.0 + e, 1.0 - c);
    MulNonNegative(1.0 - e, 1.0 + c);
    QuotientInUnitRange(c - e, 1.0 - e * c);
  }

  /**
   * `true_to_eccentric`: arccos of (e + cos nu) / (1 + e cos nu), corrected into
   * the half-plane of the true anomaly nu.
   */
  function TrueToEccentric(num: Transcendentals, nu: real, e: real): (E: real)
    requires num.Valid()
    requires 0.0 <= e < 1.0
    ensures InQuadrantOneOrTwo(nu) ==> 0.0 <= E <= PI
    ensures !InQuadrantOneOrTwo(nu) ==> PI <= E <= 2.0 * PI
  {
    var c := num.cos(nu);
    ArccosArgumentsInRange(e, c);
    AdjustQuadrant(num.arccos((e + c) / (1.0 + e * c)), nu)
  }

  /** `eccentric_to_mean`: Kepler's equation, which moves E by at most |e|. */
  function EccentricToMean(num: Transcendentals, E: real, e: real): (M: real)
    requires num.Valid()
    ensures Abs(M - E) <= Abs(e)
  {
    var s := num.sin(E);
    assert -1.0 <= s <= 1.0;
    AbsScaledBound(e, s);
    E - e * s
  }

  /** `true_to_mean`: the composition of the two conversions above. */
  function TrueToMean(num: Transcendentals, nu: real, e: real): (M: real)
    requires num.Valid()
    requires 0.0 <= e < 1.0
    ensures InQuadrantOneOrTwo(nu) ==> -e <= M <= PI + e
    ensures !InQuadrantOneOrTwo(nu) ==> PI - e <= M <= 2.0 * PI + e
  {
    EccentricToMean(num, TrueToEccentric(num, nu, e), e)
  }

  /**
   * `eccentric_to_true`: arccos of (cos E - e) / (1 - e cos E), corrected into
   * the half-plane of the eccentric anomaly E.
   */
  function EccentricToTrue(num: Transcendentals, E: real, e: real): (nu: real)
    requires num.Valid()
    requires 0.0 <= e < 1.0
    ensures InQuadrantOneOrTwo(E) ==> 0.0 <= nu <= PI
    ensures !InQuadrantOneOrTwo(E) ==> PI <= nu <= 2.0 * PI
  {
    var c := num.cos(E);
    ArccosArgumentsInRange(e, c);
    AdjustQuadrant(num.arccos((c - e) / (1.0 - e * c)), E)
  }

  // ---------------------------------------------------------------------------
  // Newton-Raphson solution of Kepler's equation
  // ---------------------------------------------------------------------------

  /** Default tolerance and iteration cap of `NR`. */
  const DefaultTolerance: real := 0.0001
  const DefaultMaxIterations: int := 10000

  /** The only solver name `mean_to_eccentric_base` recognises. */
  const NewtonRaphson: string := "Newton-Raphson"

  /**
   * One Newton step for f(E) = E - e sin E - M, with f'(E) = 1 - e cos E: the
   * derivative is positive, and the new estimate is where the tangent line
   * of f at E crosses zero.
   */
  function NewtonStep(num: Transcendentals, M: real, e: real, E: real): (next: real)
    requires num.Valid()
    requires 0.0 <= e < 1.0
    ensures 1.0 - e * num.cos(E) > 0.0
    ensures (E - e * num.sin(E) - M) + (1.0 - e * num.cos(E)) * (next - E) == 0.0
  {
    var c := num.cos(E);
    ScaledUnitBound(e, c);
    var f := E - e * num.sin(E) - M;
    var d := 1.0 - e * c;
    assert (f / d) * d == f;
    E - f / d
  }

  /** The Newton step for a fixed M and e, as a map on estimates. */
  function NewtonMap(num: Transcendentals, M: real, e: real): real -> real
    requires num.Valid()
    requires 0.0 <= e < 1.0
  {
    E => NewtonStep(num, M, e, E)
  }

  /** The k-th iterate of `step` from `start`. */
  function Iterate(step: real -> real, start: real, k: nat): real {
    if k == 0 then start else step(Iterate(step, start, k - 1))
  }

  /** The change made by the (j+1)-th step: the source's `seq_err`. */
  function StepSize(step: real -> real, start: real, j: nat): real {
    Iterate(step, start, j + 1) - Iterate(step, start, j)
  }

  /**
   * What `NR` hands back: the last iterate, the last step `E_current - E_prev`,
   * how many times the loop body ran, and whether it stopped at the cap
   * (where the source prints its failure message).
   */
  datatype NewtonResult = NewtonResult(estimate: real, lastStep: real, iterations: nat, capHit: bool)

  /**
   * The loop of `NR` from a state (`prev`, `cur`, `iter`): stop once the step is
   * within `tol`; otherwise take a step, and stop after it once `iter` reaches
   * `maxIter`. The body therefore runs at most max(maxIter, 1) times.
   */
  function NewtonFrom(step: real -> real, tol: real, maxIter: int,
                      prev: real, cur: real, iter: nat): (r: NewtonResult)
    requires iter < Max(maxIter, 1)
    ensures iter <= r.iterations <= Max(maxIter, 1)
    ensures r.capHit ==> r.iterations == Max(maxIter, 1)
    ensures !r.capHit ==> Abs(r.lastStep) <= tol && r.iterations < Max(maxIter, 1)
    decreases Max(maxIter, 1) - iter
  {
    if Abs(cur - prev) <= tol then
      NewtonResult(cur, cur - prev, iter, false)
    else
      var next := step(cur);
      if iter + 1 >= maxIter then
        NewtonResult(next, next - cur, iter + 1, true)
      else
        NewtonFrom(step, tol, maxIter, cur, next, iter + 1)
  }

  /** The whole of `NR(M, e, tol, max_iter)`, starting from E_prev = M. */
  function Kepler(num: Transcendentals, M: real, e: real, tol: real, maxIter: int): (r: NewtonResult)
    requires num.Valid()
    requires 0.0 <= e < 1.0
    ensures r.iterations <= Max(maxIter, 1)
    ensures r.capHit ==> r.iterations == Max(maxIter, 1)
    ensures !r.capHit ==> Abs(r.lastStep) <= tol
  {
    var step := NewtonMap(num, M, e);
    NewtonFrom(step, tol, maxIter, M, step(M), 0)
  }

  /**
   * The solver returns the (n+1)-th Newton iterate from M, where n is the number
   * of loop iterations, and it did not stop earlier: every earlier step exceeded
   * `tol`.
   */
  lemma KeplerReturnsLastIterate(num: Transcendentals, M: real, e: real, tol: real, maxIter: int)
    requires num.Valid()
    requires 0.0 <= e < 1.0
    ensures var r := Kepler(num, M, e, tol, maxIter);
      var step := NewtonMap(num, M, e);
      r.estimate == Iterate(step, M, r.iterations + 1) &&
      r.lastStep == StepSize(step, M, r.iterations) &&
      forall j :: 0 <= j < r.iterations ==> Abs(StepSize(step, M, j)) > tol
  {
    NewtonFromFollowsIterates(NewtonMap(num, M, e), M, tol, maxIter, 0);
  }

  lemma {:induction false} NewtonFromFollowsIterates(step: real -> real, start: real, tol: real,
                                                     maxIter: int, iter: nat)
    requires iter < Max(maxIter, 1)
    requires forall j :: 0 <= j < iter ==> Abs(StepSize(step, start, j)) > tol
    ensures var r := NewtonFrom(step, tol, maxIter,
                                Iterate(step, start, iter), Iterate(step, start, iter + 1), iter);
      r.estimate == Iterate(step, start, r.iterations + 1) &&
      r.lastStep == StepSize(step, start, r.iterations) &&
      forall j :: 0 <= j < r.iterations ==> Abs(StepSize(step, start, j)) > tol
    decreases Max(maxIter, 1) - iter
  {
    var prev := Iterate(step, start, iter);
    var cur := Iterate(step, start, iter + 1);
    var next := Iterate(step, start, iter + 2);
    assert next == step(cur);
    if Abs(cur - prev) > tol && iter + 1 < maxIter {
      NewtonFromFollowsIterates(step, start, tol, maxIter, iter + 1);
    }
  }

  /** For a circular orbit (e = 0) the solver returns M itself, whatever tol and cap. */
  lemma KeplerCircular(num: Transcendentals, M: real, tol: real, maxIter: int)
    requires num.Valid()
    ensures Kepler(num, M, 0.0, tol, maxIter).estimate == M
  {
    NewtonFromAtFixedPoint(NewtonMap(num, M, 0.0), M, tol, maxIter, 0);
  }

  /** Started at a fixed point of the step, the loop never moves. */
  lemma {:induction false} NewtonFromAtFixedPoint(step: real -> real, x: real, tol: real, maxIter: int, iter: nat)
    requires step(x) == x
    requires iter < Max(maxIter, 1)
    ensures NewtonFrom(step, tol, maxIter, x, x, iter).estimate == x
    decreases Max(maxIter, 1) - iter
  {
    if Abs(x - x) > tol && iter + 1 < maxIter {
      NewtonFromAtFixedPoint(step, x, tol, maxIter, iter + 1);
    }
  }

  /**
   * `NR`: Newton-Raphson for E - e sin E - M = 0. Starting from E_prev = M it
   * iterates while the last step exceeds `tol`, breaking once `iter` reaches
   * `max_iter`. Either way it returns the last iterate; `capHit` reports the
   * break, where the source prints "failed to converge".
   */
  method NR(num: Transcendentals, M: real, e: real, tol: real, maxIter: int) returns (E: real, capHit: bool)
    requires num.Valid()
    requires 0.0 <= e < 1.0
    ensures E == Kepler(num, M, e, tol, maxIter).estimate
    ensures capHit == Kepler(num, M, e, tol, maxIter).capHit
  {
    var prev := M;
    var cur := NewtonStep(num, M, e, M);
    var seqErr := cur - prev;
    var iter: nat := 0;
    capHit := false;
    while Abs(seqErr) > tol
      invariant iter < Max(maxIter, 1)
      invariant seqErr == cur - prev
      invariant NewtonFrom(NewtonMap(num, M, e), tol, maxIter, prev, cur, iter) == Kepler(num, M, e, tol, maxIter)
      invariant !capHit
      decreases Max(maxIter, 1) - iter
    {
      prev := cur;
      cur := NewtonStep(num, M, e, prev);
      seqErr := cur - prev;
      iter := iter + 1;
      if iter >= maxIter {
        capHit := true;
        break;
      }
    }
    E := cur;
  }

  // ---------------------------------------------------------------------------
  // Mean anomaly to eccentric and true anomaly
  // ---------------------------------------------------------------------------

  /**
   * `mean_to_eccentric_base`: only "Newton-Raphson" is known; any other solver
   * name makes the function fall through and return None.
   */
  function MeanToEccentricBase(num: Transcendentals, M: real, e: real, solver: string): (r: Option<real>)
    requires num.Valid()
    requires 0.0 <= e < 1.0
    ensures r.Some? <==> solver == NewtonRaphson
    ensures r.Some? ==> r.value == Kepler(num, M, e, DefaultTolerance, DefaultMaxIterations).estimate
  {
    if solver == NewtonRaphson then Some(Kepler(num, M, e, DefaultTolerance, DefaultMaxIterations).estimate)
    else None
  }

  /**
   * `mean_to_eccentric` on a sequence: a fresh array of the same length whose
   * i-th entry is the scalar solution for M[i], each solved on its own.
   * (A None stored into numpy's float array reads back as NaN.)
   */
  method MeanToEccentric(num: Transcendentals, M: seq<real>, e: real, solver: string)
    returns (E: array<Option<real>>)
    requires num.Valid()
    requires 0.0 <= e < 1.0
    ensures fresh(E)
    ensures E.Length == |M|
    ensures forall i :: 0 <= i < |M| ==> E[i] == MeanToEccentricBase(num, M[i], e, solver)
  {
    ghost var want := seq(|M|, j requires 0 <= j < |M| => MeanToEccentricBase(num, M[j], e, solver));
    E := new Option<real>[|M|](_ => Some(0.0));
    for i := 0 to |M|
      invariant E[..i] == want[..i]
    {
      var Ei: Option<real>;
      if solver == NewtonRaphson {
        var x, _ := NR(num, M[i], e, DefaultTolerance, DefaultMaxIterations);
        Ei := Some(x);
      } else {
        Ei := None;
      }
      assert Ei == want[i];
      E[i] := Ei;
    }
    assert E[..] == want;
  }

  /**
   * `mean_to_true`: solve Kepler's equation, then convert E to nu. None when the
   * solver name is unknown (numpy then fails on the missing value).
   */
  function MeanToTrue(num: Transcendentals, M: real, e: real, solver: string): (r: Option<real>)
    requires num.Valid()
    requires 0.0 <= e < 1.0
    ensures r.Some? <==> solver == NewtonRaphson
    ensures r.Some? ==> 0.0 <= r.value <= 2.0 * PI
  {
    match MeanToEccentricBase(num, M, e, solver)
    case None => None
    case Some(E) => Some(EccentricToTrue(num, E, e))
  }
}
