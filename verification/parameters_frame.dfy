/**
 * The input panel: one row of widgets per parameter, and `render`, which
 * validates every entry, marks the rejected ones, and writes the values into
 * the viewer's orbit only when all of them were accepted.
 *
 * Widgets are reduced to their texts: a row keeps its name label, entry text,
 * units label, error label and grid row. The viewer's orbit is a map from
 * field name to value, and `plot()` is counted rather than drawn.
 */
module ParametersFrame {
  import opened Wrappers
  import opened Parameters

  /** The four widgets of one parameter row, by their texts, and the grid row they sit on. */
  datatype ParameterCollection = ParameterCollection(
    nameText: string,
    entryText: string,
    unitsText: string,
    errorText: string,
    row: nat)

  /** The row `build_collection` and `set_grid` produce for a parameter. */
  function BuildCollection(p: FloatParameter, row: nat): ParameterCollection {
    ParameterCollection(p.labelText + " = ", p.defaultInput, UnitsString(p), "", row)
  }

  /** The error label after validation: cleared on success, the parameter's message on failure. */
  function ErrorText(p: FloatParameter, outcome: Option<real>): string {
    if outcome.Some? then "" else p.errorMsg
  }

  /** The outcome of validating each row's entry text with its parameter. */
  function Outcomes(params: seq<FloatParameter>, rows: seq<ParameterCollection>, parse: string -> Option<real>): seq<Option<real>>
    requires |params| == |rows|
  {
    seq(|params|, i requires 0 <= i < |params| => ValidateInput(params[i], parse(rows[i].entryText)))
  }

  /** The orbit field each parameter writes, in list order. */
  function Keys(params: seq<FloatParameter>): seq<string> {
    seq(|params|, i requires 0 <= i < |params| => params[i].orbitKey)
  }

  predicate AllAccepted(outcomes: seq<Option<real>>) {
    forall i :: 0 <= i < |outcomes| ==> outcomes[i].Some?
  }

  /**
   * `vals_dict` after the first |keys| rows: each accepted value stored under
   * its key, in order, so that a later row overwrites an earlier one.
   */
  function ValsDict(keys: seq<string>, outcomes: seq<Option<real>>): map<string, real>
    requires |keys| == |outcomes|
    decreases |keys|
  {
    if |keys| == 0 then map[]
    else
      var n := |keys| - 1;
      var m := ValsDict(keys[..n], outcomes[..n]);
      if outcomes[n].Some? then m[keys[n] := outcomes[n].value] else m
  }

  /** Validating one more row adds its value, if accepted, on top of the dictionary so far. */
  lemma ValsDictExtend(keys: seq<string>, outcomes: seq<Option<real>>, i: nat)
    requires |keys| == |outcomes| && i < |keys|
    ensures ValsDict(keys[..i + 1], outcomes[..i + 1]) ==
      if outcomes[i].Some? then ValsDict(keys[..i], outcomes[..i])[keys[i] := outcomes[i].value]
      else ValsDict(keys[..i], outcomes[..i])
  {
    assert keys[..i + 1][..i] == keys[..i] && outcomes[..i + 1][..i] == outcomes[..i];
  }

  /** One more row is all accepted exactly when the earlier ones were and it is too. */
  lemma AllAcceptedExtend(outcomes: seq<Option<real>>, i: nat)
    requires i < |outcomes|
    ensures AllAccepted(outcomes[..i + 1]) <==> AllAccepted(outcomes[..i]) && outcomes[i].Some?
  {
    assert outcomes[..i + 1][i] == outcomes[i];
    assert forall j :: 0 <= j < i ==> outcomes[..i + 1][j] == outcomes[..i][j];
  }

  /** A key is in `vals_dict` exactly when some row with that key was accepted. */
  lemma {:induction false} ValsDictDomain(keys: seq<string>, outcomes: seq<Option<real>>, k: string)
    requires |keys| == |outcomes|
    ensures k in ValsDict(keys, outcomes) <==>
      exists i :: 0 <= i < |keys| && keys[i] == k && outcomes[i].Some?
    decreases |keys|
  {
    if |keys| > 0 {
      var n := |keys| - 1;
      ValsDictDomain(keys[..n], outcomes[..n], k);
      if k in ValsDict(keys, outcomes) && !(outcomes[n].Some? && keys[n] == k) {
        var i :| 0 <= i < n && keys[..n][i] == k && outcomes[..n][i].Some?;
        assert keys[i] == k && outcomes[i].Some?;
      }
      if exists i :: 0 <= i < |keys| && keys[i] == k && outcomes[i].Some? {
        var i :| 0 <= i < |keys| && keys[i] == k && outcomes[i].Some?;
        if i < n {
          assert keys[..n][i] == k && outcomes[..n][i].Some?;
        }
      }
    }
  }

  /**
   * When two accepted rows share a key the later one wins: the value stored
   * under a key is the one from the last accepted row carrying it.
   */
  lemma {:induction false} ValsDictLastWins(keys: seq<string>, outcomes: seq<Option<real>>, i: nat)
    requires |keys| == |outcomes| && i < |keys| && outcomes[i].Some?
    requires forall j :: i < j < |keys| && keys[j] == keys[i] ==> outcomes[j].None?
    ensures keys[i] in ValsDict(keys, outcomes)
    ensures ValsDict(keys, outcomes)[keys[i]] == outcomes[i].value
    decreases |keys|
  {
    var n := |keys| - 1;
    if i < n {
      ValsDictLastWins(keys[..n], outcomes[..n], i);
    }
  }

  /** The application window's viewer, reduced to the orbit fields it plots and a count of redraws. */
  class OrbitViewer {
    var orbit: map<string, real>
    var plots: nat

    constructor(orbit: map<string, real>)
      ensures this.orbit == orbit && plots == 0
    {
      this.orbit := orbit;
      plots := 0;
    }

    /** `plot()`: redraws from the current orbit, which it leaves as it is. */
    method Plot()
      modifies this
      ensures orbit == old(orbit) && plots == old(plots) + 1
    {
      plots := plots + 1;
    }
  }

  /**
   * The commit loop of `render`: `setattr` on the orbit for every key of
   * `vals_dict`. The keys are distinct, so the order of the loop does not matter.
   */
  method WriteOrbitFields(viewer: OrbitViewer, vals: map<string, real>)
    modifies viewer
    ensures viewer.orbit == old(viewer.orbit) + vals
    ensures viewer.plots == old(viewer.plots)
  {
    var remaining := vals.Keys;
    while remaining != {}
      invariant remaining <= vals.Keys
      invariant viewer.orbit == old(viewer.orbit) + map k | k in vals.Keys - remaining :: vals[k]
      invariant viewer.plots == old(viewer.plots)
      decreases remaining
    {
      var k :| k in remaining;
      viewer.orbit := viewer.orbit[k := vals[k]];
      remaining := remaining - {k};
    }
    assert (map k | k in vals.Keys - remaining :: vals[k]) == vals;
  }

  class ParametersFrame {
    const parameters: seq<FloatParameter>
    var collections: seq<ParameterCollection>

    /** One row per parameter. */
    ghost predicate Valid()
      reads this
    {
      |collections| == |parameters|
    }

    /** `__post_init__`: the rows come from `_create_collection_list`. */
    constructor(parameters: seq<FloatParameter>)
      ensures this.parameters == parameters
      ensures Valid()
      ensures forall i :: 0 <= i < |collections| ==> collections[i] == BuildCollection(parameters[i], i)
    {
      this.parameters := parameters;
      new;
      collections := CreateCollectionList();
    }

    /** `_create_collection_list`: one row per parameter, in list order, parameter i on grid row i. */
    method CreateCollectionList() returns (list: seq<ParameterCollection>)
      ensures |list| == |parameters|
      ensures forall i :: 0 <= i < |list| ==> list[i] == BuildCollection(parameters[i], i)
    {
      list := [];
      var i := 0;
      while i < |parameters|
        invariant 0 <= i <= |parameters|
        invariant |list| == i
        invariant forall j :: 0 <= j < i ==> list[j] == BuildCollection(parameters[j], j)
      {
        list := list + [BuildCollection(parameters[i], i)];
        i := i + 1;
      }
    }

    /**
     * The validation pass of `render`: every row is validated (a rejection does
     * not stop the pass) and its error label set; the accepted values are
     * gathered into `vals_dict`, and `error_flag` records any rejection.
     */
    method ValidateRows(parse: string -> Option<real>) returns (errorFlag: bool, vals: map<string, real>)
      requires Valid()
      modifies this
      ensures Valid() && |collections| == |old(collections)|
      ensures forall i :: 0 <= i < |collections| ==>
        collections[i] == old(collections[i]).(errorText :=
          ErrorText(parameters[i], Outcomes(parameters, old(collections), parse)[i]))
      ensures vals == ValsDict(Keys(parameters), Outcomes(parameters, old(collections), parse))
      ensures errorFlag <==> !AllAccepted(Outcomes(parameters, old(collections), parse))
    {
      ghost var outcomes := Outcomes(parameters, collections, parse);
      ghost var keys := Keys(parameters);
      errorFlag := false;
      vals := map[];
      var i := 0;
      while i < |parameters|
        invariant 0 <= i <= |parameters|
        invariant |collections| == |parameters|
        invariant forall j :: 0 <= j < i ==>
          collections[j] == old(collections[j]).(errorText := ErrorText(parameters[j], outcomes[j]))
        invariant forall j :: i <= j < |collections| ==> collections[j] == old(collections[j])
        invariant vals == ValsDict(keys[..i], outcomes[..i])
        invariant errorFlag <==> !AllAccepted(outcomes[..i])
      {
        var val := ValidateInput(parameters[i], parse(collections[i].entryText));
        ValsDictExtend(keys, outcomes, i);
        AllAcceptedExtend(outcomes, i);
        if val.Some? {
          collections := collections[i := collections[i].(errorText := "")];
          vals := vals[parameters[i].orbitKey := val.value];
        } else {
          collections := collections[i := collections[i].(errorText := parameters[i].errorMsg)];
          errorFlag := true;
        }
        i := i + 1;
      }
      assert keys[..i] == keys && outcomes[..i] == outcomes;
    }

    /**
     * `render`: validate every row and set its error label; only if every row
     * was accepted write `vals_dict` into the viewer's orbit and plot once.
     * Entry texts are parsed by `parse`.
     */
    method Render(viewer: OrbitViewer, parse: string -> Option<real>)
      requires Valid()
      modifies this, viewer
      ensures Valid() && |collections| == |old(collections)|
      ensures forall i :: 0 <= i < |collections| ==>
        collections[i] == old(collections[i]).(errorText :=
          ErrorText(parameters[i], Outcomes(parameters, old(collections), parse)[i]))
      ensures AllAccepted(Outcomes(parameters, old(collections), parse)) ==>
        viewer.orbit == old(viewer.orbit) + ValsDict(Keys(parameters), Outcomes(parameters, old(collections), parse)) &&
        viewer.plots == old(viewer.plots) + 1
      ensures !AllAccepted(Outcomes(parameters, old(collections), parse)) ==>
        viewer.orbit == old(viewer.orbit) && viewer.plots == old(viewer.plots)
    {
      var errorFlag, vals := ValidateRows(parse);
      if !errorFlag {
        WriteOrbitFields(viewer, vals);
        viewer.Plot();
      }
    }
  }

  /** A field that no parameter names keeps its presence and value through a commit. */
  lemma CommitLeavesUnnamedFields(orbit: map<string, real>, params: seq<FloatParameter>, outcomes: seq<Option<real>>, k: string)
    requires |outcomes| == |params|
    requires forall i :: 0 <= i < |params| ==> params[i].orbitKey != k
    ensures k in orbit + ValsDict(Keys(params), outcomes) <==> k in orbit
    ensures k in orbit ==> (orbit + ValsDict(Keys(params), outcomes))[k] == orbit[k]
  {
    ValsDictDomain(Keys(params), outcomes, k);
  }

  /**
   * After a commit in which every row was accepted, the field of parameter i
   * holds its validated value unless a later parameter names the same field.
   */
  lemma CommitSetsNamedFields(orbit: map<string, real>, params: seq<FloatParameter>, outcomes: seq<Option<real>>, i: nat)
    requires |outcomes| == |params| && AllAccepted(outcomes) && i < |params|
    requires forall j :: i < j < |params| ==> params[j].orbitKey != params[i].orbitKey
    ensures params[i].orbitKey in orbit + ValsDict(Keys(params), outcomes)
    ensures (orbit + ValsDict(Keys(params), outcomes))[params[i].orbitKey] == outcomes[i].value
  {
    ValsDictLastWins(Keys(params), outcomes, i);
  }
}
