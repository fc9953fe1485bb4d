/**
 * Validation of one numeric entry field: the parsed number must lie in the
 * interval given by optional lower and upper bounds (closed at a non-strict
 * end, open at a strict end) and is then scaled into the orbit's units.
 *
 * Parsing the text with `float(...)` is not modelled: the input arrives as
 * `Option<real>`, where `None` stands for text that does not parse.
 */
module Parameters {
  import opened Wrappers
  import opened Constants

  /** One end of an admissible interval; `strict` excludes the value itself. */
  datatype Bound = Bound(value: real, strict: bool)

  /** A bound that admits its own value: the dataclass default `strict=False`. */
  function Inclusive(value: real): Bound {
    Bound(value, false)
  }

  /**
   * A numeric parameter of the input panel: its label, the message shown when
   * the input is rejected, the orbit field it writes, the initial entry text,
   * the optional units label, the optional bounds, and the factor that turns
   * the typed value into the stored one.
   */
  datatype FloatParameter = FloatParameter(
    labelText: string,
    errorMsg: string,
    orbitKey: string,
    defaultInput: string,
    units: Option<string>,
    lower: Option<Bound>,
    upper: Option<Bound>,
    factor: real)

  /** The units label: the units when set, otherwise the empty string. */
  function UnitsString(p: FloatParameter): (s: string)
    ensures p.units.Some? ==> s == p.units.value
    ensures p.units.None? ==> s == ""
  {
    if p.units.Some? then p.units.value else ""
  }

  /** x is on the admitted side of an optional lower bound. */
  predicate AboveLower(lower: Option<Bound>, x: real) {
    match lower
    case None => true
    case Some(b) => if b.strict then b.value < x else b.value <= x
  }

  /** x is on the admitted side of an optional upper bound. */
  predicate BelowUpper(upper: Option<Bound>, x: real) {
    match upper
    case None => true
    case Some(b) => if b.strict then x < b.value else x <= b.value
  }

  /** The interval a parameter admits, stated independently of the checks. */
  predicate InInterval(p: FloatParameter, x: real) {
    AboveLower(p.lower, x) && BelowUpper(p.upper, x)
  }

  /**
   * `validate_input`: reject a value below the lower bound or equal to a
   * strict one, then likewise for the upper bound; otherwise return the
   * value times the factor. `None` is a rejection (the method raises).
   */
  function ValidateInput(p: FloatParameter, input: Option<real>): (r: Option<real>)
    ensures r.Some? <==> input.Some? && InInterval(p, input.value)
    ensures r.Some? ==> r.value == input.value * p.factor
  {
    if input.None? then None
    else
      var x := input.value;
      if p.lower.Some? && x < p.lower.value.value then None
      else if p.lower.Some? && p.lower.value.strict && x == p.lower.value.value then None
      else if p.upper.Some? && x > p.upper.value.value then None
      else if p.upper.Some? && p.upper.value.strict && x == p.upper.value.value then None
      else Some(x * p.factor)
  }

  /** Text that does not parse is always rejected. */
  lemma UnparsedRejected(p: FloatParameter)
    ensures ValidateInput(p, None) == None
  {
  }

  /** Without bounds every parsed number is accepted and scaled. */
  lemma UnboundedAcceptsAll(p: FloatParameter, x: real)
    requires p.lower.None? && p.upper.None?
    ensures ValidateInput(p, Some(x)) == Some(x * p.factor)
  {
    var r := ValidateInput(p, Some(x));
    assert InInterval(p, x);
    assert r.Some?;
    assert r.value == x * p.factor;
  }

  /** With the default factor 1.0 an accepted value comes back unchanged. */
  lemma UnitFactorKeepsValue(p: FloatParameter, x: real)
    requires p.factor == 1.0
    ensures ValidateInput(p, Some(x)).Some? ==> ValidateInput(p, Some(x)).value == x
  {
  }

  /** Each bound only constrains its own side: a missing lower bound never rejects from below. */
  lemma RejectionNamesABound(p: FloatParameter, x: real)
    requires ValidateInput(p, Some(x)).None?
    ensures !AboveLower(p.lower, x) || !BelowUpper(p.upper, x)
    ensures p.lower.None? ==> p.upper.Some? && !BelowUpper(p.upper, x)
    ensures p.upper.None? ==> p.lower.Some? && !AboveLower(p.lower, x)
  {
  }

  /** The accepted set is an interval: anything between two accepted inputs is accepted. */
  lemma {:induction false} AcceptedSetConvex(p: FloatParameter, x: real, y: real, z: real)
    requires ValidateInput(p, Some(x)).Some? && ValidateInput(p, Some(y)).Some?
    requires x <= z <= y
    ensures ValidateInput(p, Some(z)).Some?
  {
    assert InInterval(p, x) && InInterval(p, y);
    assert AboveLower(p.lower, z);
    assert BelowUpper(p.upper, z);
  }

  /** The true-anomaly field of the application: degrees in [0, 360), stored in radians. */
  const TrueAnomalyParameter: FloatParameter := FloatParameter(
    "nu", "nu must be in [0, 360)", "reference_true_anomaly_rad", "0.0",
    Some("deg"), Some(Inclusive(0.0)), Some(Bound(360.0, true)), PI / 180.0)

  /** The eccentricity field of the application: [0, 0.99], stored as typed. */
  const EccentricityParameter: FloatParameter := FloatParameter(
    "e", "e must be in [0, 1)", "eccentricity", "0.0",
    None, Some(Inclusive(0.0)), Some(Inclusive(0.99)), 1.0)

  /** An accepted angle in degrees becomes a radian value in [0, 2 pi). */
  lemma TrueAnomalyStoredInRadians(x: real)
    ensures ValidateInput(TrueAnomalyParameter, Some(x)).Some? <==> 0.0 <= x < 360.0
    ensures ValidateInput(TrueAnomalyParameter, Some(x)).Some? ==>
      0.0 <= ValidateInput(TrueAnomalyParameter, Some(x)).value < 2.0 * PI
  {
  }

  /** Every accepted eccentricity lies in the elliptic range [0, 1). */
  lemma EccentricityStaysElliptic(x: real)
    ensures ValidateInput(EccentricityParameter, Some(x)).Some? <==> 0.0 <= x <= 0.99
    ensures ValidateInput(EccentricityParameter, Some(x)).Some? ==>
      0.0 <= ValidateInput(EccentricityParameter, Some(x)).value < 1.0
  {
  }
}
