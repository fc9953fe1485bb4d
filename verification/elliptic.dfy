/**
 * The Keplerian ellipse: derived physical quantities, the kinematic frame at a
 * true anomaly, and time-sampled trajectories. Every query reads the orbit's
 * parameters afresh; nothing is cached.
 */
module Elliptic {
  import opened Constants
  import opened Numerics
  import opened Wrappers
  import opened Anomalies
  import opened Utilities
  import OrbitBase

  /** A two-component numpy vector. */
  datatype Vec2 = Vec2(x: real, y: real)

  function Dot(u: Vec2, v: Vec2): real {
    u.x * v.x + u.y * v.y
  }

  /** The z-component of u x v: 1 for a right-handed orthonormal pair. */
  function Cross(u: Vec2, v: Vec2): real {
    u.x * v.y - u.y * v.x
  }

  /** A 2x2 matrix by entries; `a12` is row 1, column 2. */
  datatype Mat2 = Mat2(a11: real, a12: real, a21: real, a22: real) {
    function Apply(v: Vec2): Vec2 {
      Vec2(a11 * v.x + a12 * v.y, a21 * v.x + a22 * v.y)
    }

    function Det(): real {
      a11 * a22 - a12 * a21
    }
  }

  /** `numpy.linalg.norm` of a 2-vector. */
  function Norm(num: Transcendentals, v: Vec2): (n: real)
    requires num.Valid()
    ensures 0.0 <= n && n * n == Dot(v, v)
  {
    DotNonNegative(v);
    assert num.IsSquareRoot(Dot(v, v));
    num.sqrt(Dot(v, v))
  }

  /**
   * The normalisation inside `unit_tangent`: divide by the norm when it is
   * positive, otherwise hand the vector back unchanged (which happens only
   * for the zero vector).
   */
  function Normalize(num: Transcendentals, v: Vec2): (u: Vec2)
    requires num.Valid()
    ensures v == Vec2(0.0, 0.0) ==> u == v
    ensures v != Vec2(0.0, 0.0) ==> Dot(u, u) == 1.0 && Cross(u, v) == 0.0 && Dot(u, v) > 0.0
  {
    var n := Norm(num, v);
    NormPositive(num, v);
    if n > 0.0 then
      UnitAfterDivision(v, n);
      Vec2(v.x / n, v.y / n)
    else
      v
  }

  function Scale(v: Vec2, k: real): Vec2 {
    Vec2(v.x * k, v.y * k)
  }

  /** The dot product is bilinear in scalings of its arguments. */
  lemma DotScaled(u: Vec2, w: Vec2, k1: real, k2: real)
    ensures Dot(Scale(u, k1), Scale(w, k2)) == Dot(u, w) * (k1 * k2)
  {
  }

  lemma UnitAfterDivision(v: Vec2, n: real)
    requires n > 0.0 && n * n == Dot(v, v)
    ensures var u := Vec2(v.x / n, v.y / n);
      Dot(u, u) == 1.0 && Cross(u, v) == 0.0 && Dot(u, v) > 0.0
  {
    var u := Vec2(v.x / n, v.y / n);
    assert Scale(u, n) == v;
    DotScaled(u, u, n, n);
    SquarePositive(n, Dot(v, v));
    CancelPositive(Dot(u, u), 1.0, Dot(v, v));
    assert Cross(u, v) * n == v.x * v.y - v.y * v.x;
    assert Dot(u, v) * n == Dot(v, v);
    ScaleLower(0.0, Dot(u, v), n);
  }

  lemma DotNonNegative(v: Vec2)
    ensures Dot(v, v) >= 0.0
  {
    SquareNonNegative(v.x, v.x * v.x);
    SquareNonNegative(v.y, v.y * v.y);
  }

  /** Only the zero vector has a zero dot product with itself. */
  lemma DotPositive(v: Vec2)
    ensures v != Vec2(0.0, 0.0) ==> Dot(v, v) > 0.0
  {
    SquareNonNegative(v.x, v.x * v.x);
    SquareNonNegative(v.y, v.y * v.y);
    if v.x != 0.0 {
      SquarePositive(v.x, v.x * v.x);
    } else if v.y != 0.0 {
      SquarePositive(v.y, v.y * v.y);
    }
  }

  /** A non-zero vector has a positive norm. */
  lemma NormPositive(num: Transcendentals, v: Vec2)
    requires num.Valid()
    ensures v != Vec2(0.0, 0.0) ==> Norm(num, v) > 0.0
  {
    if v != Vec2(0.0, 0.0) {
      DotPositive(v);
      RootPositive(Norm(num, v), Dot(v, v));
    }
  }

  /**
   * `EllipticOrbit`: reference true anomaly (at t = 0), eccentricity,
   * semimajor axis in m, argument of periapsis in rad, body and central mass in kg.
   */
  datatype EllipticOrbit = EllipticOrbit(
    referenceTrueAnomalyRad: real,
    eccentricity: real,
    semimajorAxisM: real,
    omegaRad: real,
    massKg: real,
    centerMassKg: real)
  {
    /** The elliptic regime the formulas are written for. */
    predicate Valid() {
      0.0 <= eccentricity < 1.0 && semimajorAxisM > 0.0 && massKg > 0.0 && centerMassKg > 0.0
    }

    /** mu = G (m + M), positive for positive masses. */
    function Mu(): (mu: real)
      ensures massKg + centerMassKg > 0.0 ==> mu > 0.0
    {
      G * (massKg + centerMassKg)
    }

    /** T = 2 pi sqrt(a^3 / mu): positive, and T^2 mu = 4 pi^2 a^3 (Kepler's third law). */
    function OrbitalPeriod(num: Transcendentals): (T: real)
      requires num.Valid() && Valid()
      ensures T > 0.0
      ensures T * T * Mu() == 4.0 * PI * PI * (semimajorAxisM * semimajorAxisM * semimajorAxisM)
    {
      var a := semimajorAxisM;
      var a3 := a * a * a;
      assert a3 > 0.0 by {
        MulPositive(a, a);
        MulPositive(a * a, a);
      }
      DivPositive(a3, Mu());
      assert num.IsSquareRoot(a3 / Mu());
      var s := num.sqrt(a3 / Mu());
      PeriodIdentity(s, a3, Mu());
      2.0 * PI * s
    }

    /** p = a (1 - e^2), in (0, a] for an ellipse. */
    function SemilatusRectum(): (p: real)
      requires Valid()
      ensures 0.0 < p <= semimajorAxisM
      ensures eccentricity == 0.0 ==> p == semimajorAxisM
    {
      ConicLatus(semimajorAxisM, eccentricity)
    }

    /** Periapsis p / (1 + e), which equals a (1 - e). */
    function Periapsis(): (rp: real)
      requires Valid()
      ensures rp == semimajorAxisM * (1.0 - eccentricity)
    {
      var e := eccentricity;
      var a := semimajorAxisM;
      assert SemilatusRectum() == (a * (1.0 - e)) * (1.0 + e);
      SemilatusRectum() / (1.0 + e)
    }

    /** Apoapsis p / (1 - e), which equals a (1 + e). */
    function Apoapsis(): (ra: real)
      requires Valid()
      ensures ra == semimajorAxisM * (1.0 + eccentricity)
    {
      var e := eccentricity;
      var a := semimajorAxisM;
      assert SemilatusRectum() == (a * (1.0 + e)) * (1.0 - e);
      SemilatusRectum() / (1.0 - e)
    }

    /** r = p / (1 + e cos nu): between periapsis and apoapsis, reaching each at the apsides. */
    function Radius(num: Transcendentals, nu: real): (r: real)
      requires num.Valid() && Valid()
      ensures 0.0 < Periapsis() <= r <= Apoapsis()
      ensures num.cos(nu) == 1.0 ==> r == Periapsis()
      ensures num.cos(nu) == -1.0 ==> r == Apoapsis()
      ensures eccentricity == 0.0 ==> r == semimajorAxisM
    {
      var c := num.cos(nu);
      assert -1.0 <= c <= 1.0;
      ScaledUnitBound(eccentricity, c);
      var r := SemilatusRectum() / (1.0 + eccentricity * c);
      RadiusRange(semimajorAxisM, eccentricity, c, SemilatusRectum(), Periapsis(), Apoapsis(), r);
      r
    }

    /**
     * Vis-viva speed v = sqrt(mu (2/r - 1/a)): the radicand is positive because
     * r <= a (1 + e) < 2a, so v > 0 and v^2 is the vis-viva value.
     */
    function OrbitalSpeed(num: Transcendentals, nu: real): (v: real)
      requires num.Valid() && Valid()
      ensures v > 0.0
      ensures v * v == Mu() * (2.0 / Radius(num, nu) - 1.0 / semimajorAxisM)
    {
      var r := Radius(num, nu);
      var a := semimajorAxisM;
      VisVivaRadicandPositive(r, a, Mu());
      assert num.IsSquareRoot(Mu() * (2.0 / r - 1.0 / a));
      var v := num.sqrt(Mu() * (2.0 / r - 1.0 / a));
      assert v != 0.0;
      v
    }

    /**
     * The derivative of the position with respect to nu, before normalisation:
     * (dr/dnu cos th - r sin th, dr/dnu sin th + r cos th) with th = nu + omega.
     */
    function RawTangent(num: Transcendentals, nu: real): (raw: Vec2)
      requires num.Valid() && Valid()
      ensures var dir := Vec2(num.cos(nu + omegaRad), num.sin(nu + omegaRad));
        Dot(raw, dir) == RadiusRate(num, nu) && Cross(dir, raw) == Radius(num, nu)
    {
      var theta := nu + omegaRad;
      var c := num.cos(theta);
      var s := num.sin(theta);
      assert s * s + c * c == 1.0 by { assert num.OnUnitCircle(theta); }
      FrameTangentComponents(RadiusRate(num, nu), Radius(num, nu), c, s);
      FrameTangent(RadiusRate(num, nu), Radius(num, nu), c, s)
    }

    /** dr/dnu = p e sin nu / (1 + e cos nu)^2, as `unit_tangent` computes it. */
    function RadiusRate(num: Transcendentals, nu: real): (dr: real)
      requires num.Valid() && Valid()
      ensures num.sin(nu) >= 0.0 ==> dr >= 0.0
      ensures num.sin(nu) <= 0.0 ==> dr <= 0.0
      ensures eccentricity == 0.0 ==> dr == 0.0
    {
      var e := eccentricity;
      var c := num.cos(nu);
      assert -1.0 <= c <= 1.0;
      ScaledUnitBound(e, c);
      var d := 1.0 + e * c;
      var dd := d * d;
      ProductPositive(d, d, dd);
      var p := SemilatusRectum();
      var sn := num.sin(nu);
      RateSign(p, e, sn, dd);
      (p * e * sn) / dd
    }

    /** `unit_tangent`: the normalised tangent; for an ellipse it always has unit length. */
    function UnitTangent(num: Transcendentals, nu: real): (t: Vec2)
      requires num.Valid() && Valid()
      ensures Dot(t, t) == 1.0
      ensures Cross(t, RawTangent(num, nu)) == 0.0 && Dot(t, RawTangent(num, nu)) > 0.0
    {
      RawTangentNonZero(num, nu);
      Normalize(num, RawTangent(num, nu))
    }

    /** The raw tangent has squared length (dr/dnu)^2 + r^2 >= r^2 > 0, so it is never zero. */
    lemma RawTangentNonZero(num: Transcendentals, nu: real)
      requires num.Valid() && Valid()
      ensures RawTangent(num, nu) != Vec2(0.0, 0.0)
    {
      var theta := nu + omegaRad;
      var c := num.cos(theta);
      var s := num.sin(theta);
      var r := Radius(num, nu);
      assert 0.0 < r;
      assert s * s + c * c == 1.0 by { assert num.OnUnitCircle(theta); }
      var dr := RadiusRate(num, nu);
      FrameTangentNonZero(dr, r, c, s);
    }

    /** `unit_normal`: the tangent turned a quarter turn, (-t_y, t_x). */
    function UnitNormal(num: Transcendentals, nu: real): (n: Vec2)
      requires num.Valid() && Valid()
      ensures Dot(n, UnitTangent(num, nu)) == 0.0
      ensures Dot(n, n) == 1.0
      ensures Cross(UnitTangent(num, nu), n) == 1.0
    {
      var t := UnitTangent(num, nu);
      QuarterTurn(t);
      Vec2(-t.y, t.x)
    }

    /** `velocity_vector`: speed times unit tangent, so it is tangential with length v. */
    function VelocityVector(num: Transcendentals, nu: real): (vel: Vec2)
      requires num.Valid() && Valid()
      ensures Dot(vel, UnitTangent(num, nu)) == OrbitalSpeed(num, nu)
      ensures Dot(vel, UnitNormal(num, nu)) == 0.0
    {
      var v := OrbitalSpeed(num, nu);
      var t := UnitTangent(num, nu);
      ScaledDots(v, t, UnitNormal(num, nu));
      Vec2(v * t.x, v * t.y)
    }

    /** `position_vector`: (r cos(nu + omega), r sin(nu + omega)), at distance r from the focus. */
    function PositionVector(num: Transcendentals, nu: real): (pos: Vec2)
      requires num.Valid() && Valid()
      ensures Dot(pos, pos) == Radius(num, nu) * Radius(num, nu)
      ensures var dir := Vec2(num.cos(nu + omegaRad), num.sin(nu + omegaRad));
        Cross(pos, dir) == 0.0 && Dot(pos, dir) == Radius(num, nu)
    {
      var theta := nu + omegaRad;
      var c := num.cos(theta);
      var s := num.sin(theta);
      assert s * s + c * c == 1.0 by { assert num.OnUnitCircle(theta); }
      PolarLength(Radius(num, nu), c, s);
      PolarDirection(Radius(num, nu), c, s);
      Polar(Radius(num, nu), c, s)
    }

    /**
     * `TN_to_ij_mat`: the matrix whose columns are the unit tangent and unit
     * normal. It sends the local frame's axes to them and is a rotation.
     */
    function TNToIjMat(num: Transcendentals, nu: real): (m: Mat2)
      requires num.Valid() && Valid()
      ensures m.Apply(Vec2(1.0, 0.0)) == UnitTangent(num, nu)
      ensures m.Apply(Vec2(0.0, 1.0)) == UnitNormal(num, nu)
      ensures m.Det() == 1.0
    {
      var t := UnitTangent(num, nu);
      var n := UnitNormal(num, nu);
      Mat2(t.x, n.x, t.y, n.y)
    }

    /** `points`: the coordinates pair, identical to `position_vector`. */
    function Points(num: Transcendentals, nu: real): (xy: (real, real))
      requires num.Valid() && Valid()
      ensures xy.0 == PositionVector(num, nu).x && xy.1 == PositionVector(num, nu).y
    {
      var pos := Polar(Radius(num, nu), num.cos(nu + omegaRad), num.sin(nu + omegaRad));
      (pos.x, pos.y)
    }

    /** Mean anomaly at time t: M0 + (t / T) 2 pi, with M0 from the reference true anomaly. */
    function MeanAnomalyAt(num: Transcendentals, t: real): real
      requires num.Valid() && Valid()
    {
      TrueToMean(num, referenceTrueAnomalyRad, eccentricity) + (t / OrbitalPeriod(num)) * 2.0 * PI
    }

    /** Mean anomaly starts at M0 and gains exactly 2 pi over each period. */
    lemma MeanAnomalyLinear(num: Transcendentals, t: real)
      requires num.Valid() && Valid()
      ensures MeanAnomalyAt(num, 0.0) == TrueToMean(num, referenceTrueAnomalyRad, eccentricity)
      ensures MeanAnomalyAt(num, OrbitalPeriod(num)) == MeanAnomalyAt(num, 0.0) + 2.0 * PI
      ensures MeanAnomalyAt(num, t + OrbitalPeriod(num)) == MeanAnomalyAt(num, t) + 2.0 * PI
    {
      var T := OrbitalPeriod(num);
      DivShiftByDenominator(t, T);
      DivShiftByDenominator(0.0, T);
    }

    /** True anomaly at time t, through `mean_to_true` with the Newton-Raphson solver. */
    function TrueAnomalyAt(num: Transcendentals, t: real): (nu: real)
      requires num.Valid() && Valid()
      ensures 0.0 <= nu <= 2.0 * PI
    {
      MeanToTrue(num, MeanAnomalyAt(num, t), eccentricity, NewtonRaphson).value
    }

    /**
     * `trajectory(t_s)`: for each sample time, the position at the true anomaly
     * reached by then. The times are kept exactly; x and y have the same length
     * and order, each sample computed on its own.
     */
    function Trajectory(num: Transcendentals, ts: seq<real>): (tr: OrbitBase.Trajectory)
      requires num.Valid() && Valid()
      ensures tr.Valid() && tr.n == |ts|
      ensures tr.t == Vector(ts)
      ensures |tr.x.elements| == |ts| && |tr.y.elements| == |ts|
      ensures forall i :: 0 <= i < |ts| ==>
        tr.x.elements[i] == PositionVector(num, TrueAnomalyAt(num, ts[i])).x &&
        tr.y.elements[i] == PositionVector(num, TrueAnomalyAt(num, ts[i])).y
    {
      var xy := seq(|ts|, i requires 0 <= i < |ts| => Points(num, TrueAnomalyAt(num, ts[i])));
      var xs := seq(|ts|, i requires 0 <= i < |ts| => xy[i].0);
      var ys := seq(|ts|, i requires 0 <= i < |ts| => xy[i].1);
      OrbitBase.MakeTrajectoryFromVectors(ts, xs, ys);
      OrbitBase.MakeTrajectory(Vector(ts), Vector(xs), Vector(ys)).value
    }

    /**
     * `trace(N_segments)`: one period sampled at N_segments + 1 evenly spaced
     * times from 0 to T. numpy refuses a negative sample count.
     */
    function Trace(num: Transcendentals, nSegments: int): (r: Option<OrbitBase.Trajectory>)
      requires num.Valid() && Valid()
      ensures r.Some? <==> nSegments >= -1
      ensures r.Some? ==> r.value.Valid() && r.value.n == nSegments + 1
      ensures r.Some? ==> |r.value.t.elements| == nSegments + 1
      ensures r.Some? && nSegments >= 0 ==> r.value.t.elements[0] == 0.0
      ensures r.Some? && nSegments >= 1 ==> r.value.t.elements[nSegments] == OrbitalPeriod(num)
      ensures r.Some? && nSegments >= 1 ==> forall i :: 0 <= i < nSegments ==>
        r.value.t.elements[i + 1] - r.value.t.elements[i] == OrbitalPeriod(num) / (nSegments as real)
      ensures r.Some? ==> r.value == Trajectory(num, r.value.t.elements)
    {
      if nSegments + 1 < 0 then None
      else Some(Trajectory(num, Linspace(0.0, OrbitalPeriod(num), nSegments + 1)))
    }
  }

  /** Turning t a quarter turn gives a vector orthogonal to it, as long, and on its left. */
  lemma QuarterTurn(t: Vec2)
    ensures Dot(Vec2(-t.y, t.x), t) == 0.0
    ensures Dot(Vec2(-t.y, t.x), Vec2(-t.y, t.x)) == Dot(t, t)
    ensures Cross(t, Vec2(-t.y, t.x)) == Dot(t, t)
  {
  }

  /** Dot products of a scaled vector scale with it. */
  lemma ScaledDots(k: real, t: Vec2, n: Vec2)
    ensures Dot(Vec2(k * t.x, k * t.y), t) == k * Dot(t, t)
    ensures Dot(Vec2(k * t.x, k * t.y), n) == k * Dot(t, n)
  {
  }

  /** s^2 = a3 / mu turns T = 2 pi s into T^2 mu = 4 pi^2 a3. */
  lemma PeriodIdentity(s: real, a3: real, mu: real)
    requires mu > 0.0 && a3 > 0.0 && a3 / mu > 0.0
    requires s >= 0.0 && s * s == a3 / mu
    ensures 2.0 * PI * s > 0.0
    ensures (2.0 * PI * s) * (2.0 * PI * s) * mu == 4.0 * PI * PI * a3
  {
    assert (a3 / mu) * mu == a3;
    assert (2.0 * PI * s) * (2.0 * PI * s) * mu == 4.0 * PI * PI * ((s * s) * mu);
    RootPositive(s, a3 / mu);
    MulPositive(2.0 * PI, s);
  }

  /** r <= a (1 + e) < 2a makes 2/r - 1/a, and so mu (2/r - 1/a), positive. */
  lemma VisVivaRadicandPositive(r: real, a: real, mu: real)
    requires 0.0 < r < 2.0 * a && mu > 0.0
    ensures 0.0 < mu * (2.0 / r - 1.0 / a)
  {
    assert 2.0 / r - 1.0 / a == (2.0 * a - r) / (r * a);
    assert r * a > 0.0 by { ScaleLower(0.0, r, a); }
    DivPositive(2.0 * a - r, r * a);
    MulNonNegative(mu, 2.0 / r - 1.0 / a);
    ScaleLower(0.0, 2.0 / r - 1.0 / a, mu);
  }

  /** Kepler's third law: for one mu, T1^2 a2^3 = T2^2 a1^3. */
  lemma KeplerThirdLaw(num: Transcendentals, o1: EllipticOrbit, o2: EllipticOrbit)
    requires num.Valid() && o1.Valid() && o2.Valid()
    requires o1.Mu() == o2.Mu()
    ensures var T1 := o1.OrbitalPeriod(num);
      var T2 := o2.OrbitalPeriod(num);
      var a1 := o1.semimajorAxisM;
      var a2 := o2.semimajorAxisM;
      T1 * T1 * (a2 * a2 * a2) == T2 * T2 * (a1 * a1 * a1)
  {
    var T1 := o1.OrbitalPeriod(num);
    var T2 := o2.OrbitalPeriod(num);
    var a1c := o1.semimajorAxisM * o1.semimajorAxisM * o1.semimajorAxisM;
    var a2c := o2.semimajorAxisM * o2.semimajorAxisM * o2.semimajorAxisM;
    var mu := o1.Mu();
    var k := 4.0 * PI * PI;
    assert T1 * T1 * mu == k * a1c;
    assert T2 * T2 * mu == k * a2c;
    assert (T1 * T1 * a2c) * mu == (T2 * T2 * a1c) * mu by {
      assert (T1 * T1 * a2c) * mu == (T1 * T1 * mu) * a2c;
      assert (T2 * T2 * a1c) * mu == (T2 * T2 * mu) * a1c;
      assert (k * a1c) * a2c == (k * a2c) * a1c;
    }
    ScaleLower(T1 * T1 * a2c, T2 * T2 * a1c, mu);
    ScaleLower(T2 * T2 * a1c, T1 * T1 * a2c, mu);
  }

  /** The two apsides add up to the major axis and are ordered, strictly so off the circle. */
  lemma ApsidesOrdered(o: EllipticOrbit)
    requires o.Valid()
    ensures o.Periapsis() + o.Apoapsis() == 2.0 * o.semimajorAxisM
    ensures 0.0 < o.Periapsis() <= o.Apoapsis()
    ensures o.eccentricity > 0.0 ==> o.Periapsis() < o.Apoapsis()
    ensures o.eccentricity == 0.0 ==> o.Periapsis() == o.semimajorAxisM == o.Apoapsis()
  {
    var a := o.semimajorAxisM;
    var e := o.eccentricity;
    assert a * (1.0 - e) + a * (1.0 + e) == 2.0 * a;
    MulPositive(a, 1.0 - e);
    if e > 0.0 {
      MulPositive(a, e);
    } else {
      MulNonNegative(a, e);
    }
  }

  /** On a circular orbit the speed is the same everywhere: v^2 = mu / a. */
  lemma CircularSpeed(num: Transcendentals, o: EllipticOrbit, nu: real)
    requires num.Valid() && o.Valid() && o.eccentricity == 0.0
    ensures o.OrbitalSpeed(num, nu) * o.OrbitalSpeed(num, nu) == o.Mu() / o.semimajorAxisM
  {
    var a := o.semimajorAxisM;
    assert o.Radius(num, nu) == a;
    assert 2.0 / a - 1.0 / a == 1.0 / a;
    assert o.Mu() * (1.0 / a) == o.Mu() / a;
  }

  /**
   * For 0 <= e < 1 and c in [-1, 1], p / (1 + e c) lies between p / (1 + e)
   * and p / (1 - e), reaching them at c = 1 and c = -1; for e = 0 it is p.
   */
  lemma ConicBounds(p: real, e: real, c: real)
    requires 0.0 < p && 0.0 <= e < 1.0 && -1.0 <= c <= 1.0
    ensures 0.0 < 1.0 + e * c
    ensures 0.0 < p / (1.0 + e) <= p / (1.0 + e * c) <= p / (1.0 - e)
    ensures c == 1.0 ==> p / (1.0 + e * c) == p / (1.0 + e)
    ensures c == -1.0 ==> p / (1.0 + e * c) == p / (1.0 - e)
    ensures e == 0.0 ==> p / (1.0 + e * c) == p
  {
    ScaledUnitBound(e, c);
    DivAntitone(p, 1.0 + e * c, 1.0 + e);
    DivAntitone(p, 1.0 - e, 1.0 + e * c);
    DivPositive(p, 1.0 + e);
  }

  /**
   * The conic radius a (1 - e^2) / (1 + e c) for c in [-1, 1] lies between
   * a (1 - e) and a (1 + e), reaching them at c = 1 and c = -1; for e = 0 it is a.
   */
  lemma RadiusRange(a: real, e: real, c: real, p: real, rp: real, ra: real, r: real)
    requires 0.0 < a && 0.0 <= e < 1.0 && -1.0 <= c <= 1.0
    requires p == a * (1.0 - e * e) && rp == a * (1.0 - e) && ra == a * (1.0 + e)
    requires 1.0 + e * c != 0.0 && r == p / (1.0 + e * c)
    ensures 0.0 < rp <= r <= ra
    ensures c == 1.0 ==> r == rp
    ensures c == -1.0 ==> r == ra
    ensures e == 0.0 ==> r == a
  {
    ScaledUnitBound(e, e);
    MulPositive(a, 1.0 - e * e);
    ConicBounds(p, e, c);
    assert p == rp * (1.0 + e);
    assert p / (1.0 + e) == rp;
    assert p == ra * (1.0 - e);
    assert p / (1.0 - e) == ra;
  }

  /**
   * p = a (1 - e^2) for 0 <= e < 1: positive, at most a, and a itself for a
   * circle.
   */
  function ConicLatus(a: real, e: real): (p: real)
    requires 0.0 < a && 0.0 <= e < 1.0
    ensures 0.0 < p <= a
    ensures e == 0.0 ==> p == a
  {
    MulNonNegative(e, e);
    ScaledUnitBound(e, e);
    assert a * (1.0 - e * e) <= a by {
      MulNonNegative(a, e * e);
      assert a * (1.0 - e * e) == a - a * (e * e);
    }
    MulPositive(a, 1.0 - e * e);
    a * (1.0 - e * e)
  }

  /** p e s / d, for p, d > 0 and e >= 0, has the sign of s and vanishes with e. */
  lemma RateSign(p: real, e: real, s: real, d: real)
    requires 0.0 < p && 0.0 <= e && 0.0 < d
    ensures s >= 0.0 ==> (p * e * s) / d >= 0.0
    ensures s <= 0.0 ==> (p * e * s) / d <= 0.0
    ensures e == 0.0 ==> (p * e * s) / d == 0.0
  {
    NumeratorSign(p, e, s);
    QuotientSign(p * e * s, d);
  }

  /** The point at distance r in the direction (c, s). */
  function Polar(r: real, c: real, s: real): Vec2 {
    Vec2(r * c, r * s)
  }

  /** For a unit direction, the polar point lies at distance |r|. */
  lemma PolarLength(r: real, c: real, s: real)
    requires s * s + c * c == 1.0
    ensures Dot(Polar(r, c, s), Polar(r, c, s)) == r * r
  {
    assert (r * c) * (r * c) + (r * s) * (r * s) == (r * r) * (c * c + s * s);
  }

  /** For a unit direction, the polar point lies along it, at signed distance r. */
  lemma PolarDirection(r: real, c: real, s: real)
    requires s * s + c * c == 1.0
    ensures Cross(Polar(r, c, s), Vec2(c, s)) == 0.0
    ensures Dot(Polar(r, c, s), Vec2(c, s)) == r
  {
    assert Dot(Polar(r, c, s), Vec2(c, s)) == r * (c * c + s * s);
  }

  /**
   * d/dnu of r(nu) (cos th, sin th) with th = nu + omega: the radial rate
   * along (c, s) plus r along the quarter-turned direction (-s, c).
   */
  function FrameTangent(dr: real, r: real, c: real, s: real): Vec2 {
    Vec2(dr * c - r * s, dr * s + r * c)
  }

  /** Its component along (c, s) is dr and its component across, to the left, is r. */
  lemma FrameTangentComponents(dr: real, r: real, c: real, s: real)
    requires s * s + c * c == 1.0
    ensures Dot(FrameTangent(dr, r, c, s), Vec2(c, s)) == dr
    ensures Cross(Vec2(c, s), FrameTangent(dr, r, c, s)) == r
  {
    assert Dot(FrameTangent(dr, r, c, s), Vec2(c, s)) == dr * (c * c + s * s);
    assert Cross(Vec2(c, s), FrameTangent(dr, r, c, s)) == r * (c * c + s * s);
  }

  /** Its squared length is dr^2 + r^2, so it is non-zero whenever r > 0. */
  lemma FrameTangentNonZero(dr: real, r: real, c: real, s: real)
    requires r > 0.0 && s * s + c * c == 1.0
    ensures Dot(FrameTangent(dr, r, c, s), FrameTangent(dr, r, c, s)) == dr * dr + r * r
    ensures FrameTangent(dr, r, c, s) != Vec2(0.0, 0.0)
  {
    var w := FrameTangent(dr, r, c, s);
    calc {
      Dot(w, w);
      (dr * c - r * s) * (dr * c - r * s) + (dr * s + r * c) * (dr * s + r * c);
      (dr * dr) * (c * c + s * s) + (r * r) * (s * s + c * c);
      dr * dr + r * r;
    }
    SquareNonNegative(dr, dr * dr);
    SquarePositive(r, r * r);
    assert Dot(w, w) > 0.0;
  }

  /** The default orbit of the dataclass: circular, a = 1e8 m, 1000 kg around the Earth. */
  const DefaultOrbit: EllipticOrbit := EllipticOrbit(0.0, 0.0, 100000000.0, 0.0, 1000.0, M_EARTH)

  /** The defaults describe a valid orbit, a circle of radius 1e8 m with v^2 = mu / a everywhere. */
  lemma DefaultOrbitCircular(num: Transcendentals, nu: real)
    requires num.Valid()
    ensures DefaultOrbit.Valid()
    ensures DefaultOrbit.Radius(num, nu) == 100000000.0
    ensures DefaultOrbit.OrbitalSpeed(num, nu) * DefaultOrbit.OrbitalSpeed(num, nu) ==
      DefaultOrbit.Mu() / 100000000.0
  {
    CircularSpeed(num, DefaultOrbit, nu);
  }
}
