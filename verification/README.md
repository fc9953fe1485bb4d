# Elliptic orbit model and anomaly solver

This project models the computational core of `orbital_mechanics`, a small
Python package that draws a Keplerian ellipse around a central body:

- the conversions between true, eccentric and mean anomaly, including the
  Newton-Raphson solver for Kepler's equation M = E - e sin E
  (`orbits/anomalies.py`);
- the `EllipticOrbit` record and everything it derives: gravitational
  parameter, period, semi-latus rectum, apsides, radius, vis-viva speed,
  tangent, normal, velocity and position vectors, the tangent/normal frame
  matrix, and time-sampled trajectories (`orbits/elliptic.py`);
- the `Trajectory` record and its shape check (`orbits/orbit_base.py`,
  `utilities.py`);
- the input panel of the Tk application: bounded numeric parameters, their
  validation and unit scaling, and the `render` step that validates every
  entry and commits the values to the viewed orbit only when all were
  accepted (`visualization/tk_app/parameters.py`, `parameters_frame.py`).

numpy's `sin`, `cos`, `arccos` and `sqrt` are not computed. They are a
parameter `num: Numerics.Transcendentals` of every operation that uses them.
`num.Valid()` states the facts the proofs rely on:

- `sin` and `cos` lie in [-1, 1] and satisfy sin^2 + cos^2 = 1;
- `arccos` maps [-1, 1] into [0, pi];
- `sqrt` of a non-negative number is its non-negative square root.

Floating point is modelled by exact reals. Python's `%` is written out as
floored modulo (`Numerics.PyMod`).

The anomaly functions, the orbit quantities and validation are pure. The
following are imperative and use loops or state:

- the solver loop `NR` and the array loop of `mean_to_eccentric`, which fills
  a fresh `array`;
- the masked in-place update of `_v_adj_quadrants_from_arccos`;
- the `ParametersFrame` class, which keeps its rows in a field and rewrites
  their error labels;
- the viewer whose orbit fields `render` sets.

Source behaviour the model keeps as written:

- `NR` stops once the last step is at most `tol` (`abs(seq_err) > tol` keeps
  it running), not strictly below it.
- `NR` reports a missed convergence only by printing. The model returns the
  last iterate and exposes a `capHit` flag beside it; `mean_to_eccentric` and
  its callers ignore the flag, as the code does.
- The loop body of `NR` always runs at least once when the first step exceeds
  `tol`, even for `max_iter <= 0`. The cap is therefore max(`max_iter`, 1).
- The eccentricity field admits [0, 0.99] although its message says
  "[0, 1)".

## Model

| member | source | states |
|---|---|---|
| Numerics.PyMod | orbital_mechanics/orbits/anomalies.py:7 | Python's floored `theta % (2 pi)` is in [0, 2 pi) for a positive modulus |
| Anomalies.InQuadrantOneOrTwo | orbital_mechanics/orbits/anomalies.py:6-10 | the quadrant test: Python's floored angle modulo 2 pi is at most pi; its meaning is stated by the two lemmas below |
| Anomalies.InQuadrantOneOrTwoPeriodic | orbital_mechanics/orbits/anomalies.py:6-10 | the quadrant test is unchanged by adding any whole number of turns, negative angles included |
| Anomalies.InQuadrantOneOrTwoOnOneTurn | orbital_mechanics/orbits/anomalies.py:6-10 | on [0, 2 pi) the test is exactly theta <= pi |
| Anomalies.AdjustQuadrant | orbital_mechanics/orbits/anomalies.py:20-24 | a principal value in [0, pi] stays in [0, pi] in the upper half-plane and is mapped into [pi, 2 pi] in the lower one |
| Anomalies.AdjustQuadrantInvolution | orbital_mechanics/orbits/anomalies.py:20-24 | for a fixed reference angle, applying the correction twice gives back the input |
| Anomalies.AdjustQuadrantSameHalfPlane | orbital_mechanics/orbits/anomalies.py:20-24 | for a value strictly inside (0, pi), the corrected angle passes the quadrant test exactly when the reference angle does |
| Anomalies.AdjustQuadrantsInPlace | orbital_mechanics/orbits/anomalies.py:27-30 | the masked update rewrites the array in place and returns that same array; every element becomes the scalar correction of its pair, and elements in the upper half-plane are untouched |
| Anomalies.ArccosArgumentsInRange | orbital_mechanics/orbits/anomalies.py:35 | for 0 <= e < 1 both denominators 1 +- e cos are positive and both arccos arguments, (e + c)/(1 + ec) here and (c - e)/(1 - ec) at line 51, lie in [-1, 1] |
| Anomalies.TrueToEccentric | orbital_mechanics/orbits/anomalies.py:34-36 | E lies in [0, pi] when nu is in the upper half-plane and in [pi, 2 pi] otherwise |
| Anomalies.EccentricToMean | orbital_mechanics/orbits/anomalies.py:40-41 | Kepler's equation moves E by at most abs(e) |
| Anomalies.TrueToMean | orbital_mechanics/orbits/anomalies.py:45-46 | M lies in [-e, pi + e] for nu in the upper half-plane and in [pi - e, 2 pi + e] otherwise |
| Anomalies.EccentricToTrue | orbital_mechanics/orbits/anomalies.py:50-52 | nu lies in [0, pi] when E is in the upper half-plane and in [pi, 2 pi] otherwise |
| Anomalies.NewtonStep | orbital_mechanics/orbits/anomalies.py:80-85 | the Newton update for f(E) = E - e sin E - M: the derivative 1 - e cos E is positive for 0 <= e < 1, so the division is defined, and the new estimate is the zero of the tangent line of f at E |
| Anomalies.Kepler | orbital_mechanics/orbits/anomalies.py:78-91 | the solver specification started from E_prev = M: at most max(max_iter, 1) loop passes; the cap flag is set only when that many passes ran; without it the last step is within `tol` |
| Anomalies.NewtonFrom | orbital_mechanics/orbits/anomalies.py:83-90 | the solver loop from a state: the iteration count never exceeds max(max_iter, 1); when the cap was not hit, the last step is within `tol` |
| Anomalies.NewtonFromFollowsIterates | orbital_mechanics/orbits/anomalies.py:83-90 | started on consecutive Newton iterates, the loop returns the iterate after its last step, that step is the difference of the last two iterates, and every earlier step exceeded `tol` |
| Anomalies.KeplerReturnsLastIterate | orbital_mechanics/orbits/anomalies.py:78-91 | `NR` returns the (n+1)-th Newton iterate from M after n loop passes, and it did not stop early: each earlier step exceeded `tol` |
| Anomalies.NewtonFromAtFixedPoint | orbital_mechanics/orbits/anomalies.py:83-90 | started at a fixed point of the step, the loop returns that point |
| Anomalies.KeplerCircular | orbital_mechanics/orbits/anomalies.py:78-91 | for e = 0 the solver returns M itself, whatever the tolerance and cap |
| Anomalies.NR | orbital_mechanics/orbits/anomalies.py:78-91 | the imperative loop returns the estimate and cap flag of the solver specification `Kepler` |
| Anomalies.MeanToEccentricBase | orbital_mechanics/orbits/anomalies.py:67-69 | a result exists exactly for the solver name "Newton-Raphson", and it is the solver's estimate at the default tolerance and cap |
| Anomalies.MeanToEccentric | orbital_mechanics/orbits/anomalies.py:56-63 | the sequence form fills a fresh array of the same length whose i-th entry is the scalar result for M[i] |
| Anomalies.MeanToTrue | orbital_mechanics/orbits/anomalies.py:73-74 | defined exactly for the known solver name, and then a true anomaly in [0, 2 pi] |
| Utilities.IsNDVec | orbital_mechanics/utilities.py:3-4 | the shape test `shape == (n,)`; its exactness is `IsNDVecExact` |
| Utilities.IsNDVecExact | orbital_mechanics/utilities.py:3-4 | the shape test holds exactly for one-dimensional arrays of length n; other lengths and more dimensions fail |
| OrbitBase.MakeTrajectory | orbital_mechanics/orbits/orbit_base.py:9-19 | construction succeeds exactly when t is one-dimensional and x and y have its shape; it then keeps the three arrays and N = len(t) |
| OrbitBase.MakeTrajectoryFromVectors | orbital_mechanics/orbits/orbit_base.py:9-19 | three vectors of one length always make a trajectory, with their elements unchanged |
| Elliptic.EllipticOrbit.Mu | orbital_mechanics/orbits/elliptic.py:20-22 | mu = G (m + M) is positive for a positive total mass |
| Elliptic.EllipticOrbit.OrbitalPeriod | orbital_mechanics/orbits/elliptic.py:25-27 | T is positive and T^2 mu = 4 pi^2 a^3 |
| Elliptic.KeplerThirdLaw | orbital_mechanics/orbits/elliptic.py:25-27 | two orbits about the same mu have T1^2 a2^3 = T2^2 a1^3 |
| Elliptic.ConicLatus | orbital_mechanics/orbits/elliptic.py:32 | a (1 - e^2) lies in (0, a] for 0 <= e < 1 and equals a for e = 0 |
| Elliptic.EllipticOrbit.SemilatusRectum | orbital_mechanics/orbits/elliptic.py:30-32 | p lies in (0, a], and p = a on a circle |
| Elliptic.EllipticOrbit.Periapsis | orbital_mechanics/orbits/elliptic.py:35-37 | p / (1 + e) equals a (1 - e) |
| Elliptic.EllipticOrbit.Apoapsis | orbital_mechanics/orbits/elliptic.py:40-42 | p / (1 - e) equals a (1 + e) |
| Elliptic.ApsidesOrdered | orbital_mechanics/orbits/elliptic.py:35-42 | periapsis + apoapsis = 2a; 0 < periapsis <= apoapsis, strictly for e > 0; both equal a on a circle |
| Elliptic.RadiusRange | orbital_mechanics/orbits/elliptic.py:45-46 | a (1 - e^2) / (1 + e c) for c in [-1, 1] lies between a (1 - e) and a (1 + e), reaches them at c = 1 and c = -1, and is a for e = 0 |
| Elliptic.EllipticOrbit.Radius | orbital_mechanics/orbits/elliptic.py:45-46 | r lies between periapsis and apoapsis, equals periapsis where cos nu = 1 and apoapsis where cos nu = -1, and is a on a circle |
| Elliptic.EllipticOrbit.OrbitalSpeed | orbital_mechanics/orbits/elliptic.py:49-50 | v is positive and v^2 = mu (2/r - 1/a) (vis-viva); the radicand is never negative |
| Elliptic.CircularSpeed | orbital_mechanics/orbits/elliptic.py:49-50 | on a circle, v^2 = mu / a at every true anomaly |
| Elliptic.EllipticOrbit.RadiusRate | orbital_mechanics/orbits/elliptic.py:56 | dr/dnu has the sign of sin nu (non-negative on the outbound half, non-positive on the inbound half) and is zero on a circle |
| Elliptic.FrameTangentComponents | orbital_mechanics/orbits/elliptic.py:57-58 | the tangent (dr c - r s, dr s + r c) has component dr along the direction (c, s) and r across it |
| Elliptic.EllipticOrbit.RawTangent | orbital_mechanics/orbits/elliptic.py:55-58 | the unnormalised tangent has radial component dr/dnu along the position direction nu + omega and transverse component r(nu) |
| Elliptic.Norm | orbital_mechanics/orbits/elliptic.py:59 | `np.linalg.norm` is non-negative and its square is the dot product of the vector with itself |
| Elliptic.Normalize | orbital_mechanics/orbits/elliptic.py:59-62 | a non-zero vector becomes a unit vector parallel to it and pointing the same way; the zero vector is returned unchanged |
| Elliptic.FrameTangentNonZero | orbital_mechanics/orbits/elliptic.py:58 | the tangent (dr c - r s, dr s + r c) has squared length dr^2 + r^2 and is non-zero for r > 0 |
| Elliptic.EllipticOrbit.RawTangentNonZero | orbital_mechanics/orbits/elliptic.py:56-59 | the unnormalised tangent is never zero on an ellipse, so the `else` branch of `unit_tangent` is unreachable |
| Elliptic.EllipticOrbit.UnitTangent | orbital_mechanics/orbits/elliptic.py:53-62 | the result has unit length and is parallel to, and points along, the derivative of the position |
| Elliptic.EllipticOrbit.UnitNormal | orbital_mechanics/orbits/elliptic.py:64-66 | the normal is a unit vector orthogonal to the tangent, a quarter turn to its left |
| Elliptic.EllipticOrbit.VelocityVector | orbital_mechanics/orbits/elliptic.py:69-70 | the velocity's tangential component is the orbital speed and its normal component is zero |
| Elliptic.PolarLength | orbital_mechanics/orbits/elliptic.py:74-76 | (r cos th, r sin th) has squared length r^2 |
| Elliptic.PolarDirection | orbital_mechanics/orbits/elliptic.py:74-76 | (r cos th, r sin th) has no component across the direction (cos th, sin th) and component r along it |
| Elliptic.EllipticOrbit.PositionVector | orbital_mechanics/orbits/elliptic.py:73-76 | the position lies at distance r(nu) from the focus, in the direction of the angle nu + omega: it is r times the unit vector (cos(nu + omega), sin(nu + omega)) |
| Elliptic.EllipticOrbit.TNToIjMat | orbital_mechanics/orbits/elliptic.py:79-82 | the matrix sends the local axes to the unit tangent and unit normal and has determinant 1 (a rotation) |
| Elliptic.EllipticOrbit.Points | orbital_mechanics/orbits/elliptic.py:85-88 | `points` gives the same coordinates as `position_vector` |
| Elliptic.EllipticOrbit.MeanAnomalyAt | orbital_mechanics/orbits/elliptic.py:92-93 | the mean anomaly M0 + (t / T) 2 pi at time t; its properties are `MeanAnomalyLinear` |
| Elliptic.EllipticOrbit.MeanAnomalyLinear | orbital_mechanics/orbits/elliptic.py:92-93 | the mean anomaly is M0 at t = 0 and grows by exactly 2 pi over every period |
| Elliptic.EllipticOrbit.TrueAnomalyAt | orbital_mechanics/orbits/elliptic.py:92-94 | the true anomaly reached at any time lies in [0, 2 pi] |
| Elliptic.EllipticOrbit.Trajectory | orbital_mechanics/orbits/elliptic.py:91-96 | a valid trajectory with the sample times kept exactly and, at each index, the position at the true anomaly reached at that time |
| Numerics.Linspace | orbital_mechanics/orbits/elliptic.py:100 | `np.linspace(0, T, n)`: n samples, first 0, last T, and consecutive samples T/(n-1) apart |
| Elliptic.EllipticOrbit.Trace | orbital_mechanics/orbits/elliptic.py:98-101 | defined exactly for N_segments >= -1; N_segments + 1 times from 0 to T in equal steps of T / N_segments, and the trajectory at those times, so x and y are the positions at the true anomalies reached then |
| Elliptic.DefaultOrbitCircular | orbital_mechanics/orbits/elliptic.py:12-17 | the dataclass defaults make a valid orbit: a circle of radius 1e8 m at every true anomaly, flown at the circular speed v^2 = mu / a |
| Parameters.UnitsString | orbital_mechanics/visualization/tk_app/parameters.py:36-40 | the units when set, the empty string otherwise |
| Parameters.ValidateInput | orbital_mechanics/visualization/tk_app/parameters.py:65-77 | accepts exactly the parsed numbers inside the interval of its optional bounds, closed at a non-strict end and open at a strict one, and returns the number times the factor |
| Parameters.UnparsedRejected | orbital_mechanics/visualization/tk_app/parameters.py:66 | text that `float` rejects is always a rejection |
| Parameters.UnboundedAcceptsAll | orbital_mechanics/visualization/tk_app/parameters.py:65-77 | without bounds every number is accepted and scaled |
| Parameters.UnitFactorKeepsValue | orbital_mechanics/visualization/tk_app/parameters.py:63-77 | with the default factor 1.0 an accepted value is returned unchanged |
| Parameters.RejectionNamesABound | orbital_mechanics/visualization/tk_app/parameters.py:67-76 | a rejected number violates a bound that is present |
| Parameters.AcceptedSetConvex | orbital_mechanics/visualization/tk_app/parameters.py:67-76 | anything between two accepted numbers is accepted |
| Parameters.TrueAnomalyStoredInRadians | orbital_mechanics/visualization/tk_app/app_builder.py:32-41 | the nu field accepts exactly [0, 360) degrees and stores a radian value in [0, 2 pi) |
| Parameters.EccentricityStaysElliptic | orbital_mechanics/visualization/tk_app/app_builder.py:42-49 | the e field accepts exactly [0, 0.99] and so never stores a non-elliptic eccentricity |
| ParametersFrame.BuildCollection | orbital_mechanics/visualization/tk_app/parameters.py:42-50 | one parameter's row: label text with " = ", the default entry text, the units string and an empty error label; `CreateCollectionList` states it row by row |
| ParametersFrame.ParametersFrame.CreateCollectionList | orbital_mechanics/visualization/tk_app/parameters_frame.py:22-28 | one row per parameter in list order; row i shows the label with " = ", the default entry text, the units string and an empty error label, on grid row i |
| ParametersFrame.ParametersFrame.constructor | orbital_mechanics/visualization/tk_app/parameters_frame.py:18-19 | the frame starts with exactly the rows `_create_collection_list` builds |
| ParametersFrame.ValsDict | orbital_mechanics/visualization/tk_app/parameters_frame.py:33-37 | the dictionary that the validation loop fills, row by row; its domain and values are `ValsDictDomain` and `ValsDictLastWins` |
| ParametersFrame.ValsDictDomain | orbital_mechanics/visualization/tk_app/parameters_frame.py:33-37 | a key is in `vals_dict` exactly when some accepted row writes that key |
| ParametersFrame.ValsDictLastWins | orbital_mechanics/visualization/tk_app/parameters_frame.py:33-37 | the value under a key comes from the last accepted row writing that key |
| ParametersFrame.ParametersFrame.ValidateRows | orbital_mechanics/visualization/tk_app/parameters_frame.py:33-40 | every row is validated, a rejection does not stop the pass, each error label is cleared or set to the message, `vals_dict` holds the accepted values, and the error flag is set exactly when some row was rejected |
| ParametersFrame.WriteOrbitFields | orbital_mechanics/visualization/tk_app/parameters_frame.py:42-43 | after the `setattr` loop the orbit holds every entry of `vals_dict`, and all other fields are unchanged |
| ParametersFrame.OrbitViewer.Plot | orbital_mechanics/visualization/tk_app/parameters_frame.py:44 | a redraw leaves the orbit as it is |
| ParametersFrame.ParametersFrame.Render | orbital_mechanics/visualization/tk_app/parameters_frame.py:30-44 | every error label reflects its row's validation; if all rows were accepted, the orbit gets `vals_dict` and is plotted once; otherwise the orbit is unchanged and nothing is plotted |
| ParametersFrame.CommitLeavesUnnamedFields | orbital_mechanics/visualization/tk_app/parameters_frame.py:41-43 | a field that no parameter names keeps its presence and value |
| ParametersFrame.CommitSetsNamedFields | orbital_mechanics/visualization/tk_app/parameters_frame.py:41-43 | after an all-accepted commit, a parameter's field holds its validated value unless a later parameter names the same field |

## Left out

- IEEE double arithmetic is not modelled: rounding, overflow, NaN and infinity are absent and every quantity is an exact real.
- numpy's trigonometric functions and square root are not implemented. They enter as the `Transcendentals` parameter, and only the facts listed above are assumed of them.
- The array dispatch of numpy (`np.isscalar`, broadcasting over arrays of true anomalies) is not modelled. Every orbit query is per scalar. The array forms appear only where the code loops or masks: `_v_adj_quadrants_from_arccos` and the loop of `mean_to_eccentric`. `Elliptic.EllipticOrbit.Trajectory` builds its samples one time at a time. This agrees with the vectorised path because `AdjustQuadrantsInPlace` is proved elementwise equal to the scalar correction.
- `adjust_quadrants_from_arccos` is not a separate member. Its two branches are `AdjustQuadrant` and `AdjustQuadrantsInPlace`.
- The print in `NR` when the cap is hit is not modelled. It is replaced by the `capHit` flag that `NR` returns.
- Eccentricities outside [0, 1) are not modelled. The anomaly formulas and `NR` require 0 <= e < 1, and `EllipticOrbit.Valid` requires it together with a positive semimajor axis and positive masses. Negative eccentricities never reach the code: the application's eccentricity field admits only [0, 0.99] and the dataclass default is 0.0. For e >= 1 the code divides by zero (the apoapsis at e = 1) or takes the square root of a negative number.
- A `None` that `mean_to_eccentric_base` returns for an unknown solver name is kept as `None` in the result array. numpy would store it as NaN.
- Parsing the entry text with `float()` is not modelled. It is the `parse` parameter of `Render`, whose `None` stands for a `ValueError`.
- Tk widgets are reduced to their texts and grid rows. The red colour of an error label, widget widths and the frame's own grid placement are not modelled.
- The viewer's drawing (`viewer.py`, `plotter.py`) is not modelled. The orbit is a map from field name to value, and `plot()` is a redraw counter.
- `app_builder.py`, `testing.py` and the `OrbitBase` abstract method are not part of this model. The nu and e parameters of `app_builder.py` are kept as constants.
- The round trips true -> mean -> true and eccentric -> true -> eccentric are not proved. They depend on arccos being the inverse of cos, which `Transcendentals` does not assume, and on the convergence of Newton's method, which is not proved either. What is proved about the solver is which iterate it returns and when it stops.
- `collections` is a public field, and user edits to the entry texts between `render` calls are changes to that field. No method models them.
