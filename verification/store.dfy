/**
 * The list of custom editors kept by the switcher service and its CRUD
 * operations. A mutating call is modelled as a function returning the
 * `Boolean` outcome together with the list after the call.
 */
module Store {
  import opened Wrappers
  import opened EditorConfig
  import opened Template
  import opened Text

  type Editors = seq<CustomEditorConfig>

  /** No two stored editors share an id. */
  predicate DistinctIds(editors: Editors) {
    forall i, j :: 0 <= i < j < |editors| ==> editors[i].editorId != editors[j].editorId
  }

  /** `indexOfFirst { it.editorId == editorId }`: the first matching index, or -1. */
  function IndexOfFirst(editors: Editors, editorId: string): (r: int)
    ensures -1 <= r < |editors|
    ensures r == -1 <==> !HasId(editors, editorId)
    ensures r >= 0 ==> editors[r].editorId == editorId
    ensures r >= 0 ==> forall j :: 0 <= j < r ==> editors[j].editorId != editorId
  {
    if editors == [] then -1
    else if editors[0].editorId == editorId then 0
    else
      var k := IndexOfFirst(editors[1..], editorId);
      assert HasId(editors, editorId) ==> HasId(editors[1..], editorId) by {
        if HasId(editors, editorId) {
          var i :| 0 <= i < |editors| && editors[i].editorId == editorId;
          assert editors[1..][i - 1] == editors[i];
        }
      }
      if k == -1 then -1 else k + 1
  }

  /** `addCustomEditor(config)`: refuses a taken id first, then an invalid config, else appends. */
  function Add(editors: Editors, config: CustomEditorConfig): (r: (bool, Editors))
    ensures r.0 <==> !HasId(editors, config.editorId) && IsValid(config)
    ensures r.0 ==> r.1 == editors + [config]
    ensures !r.0 ==> r.1 == editors
  {
    if HasId(editors, config.editorId) then (false, editors)
    else if !IsValid(config) then (false, editors)
    else (true, editors + [config])
  }

  /** `updateCustomEditor(editorId, config)`: replaces the first editor with that id; the new id is not checked. */
  function Update(editors: Editors, editorId: string, config: CustomEditorConfig): (r: (bool, Editors))
    ensures r.0 <==> HasId(editors, editorId) && IsValid(config)
    ensures !r.0 ==> r.1 == editors
    ensures |r.1| == |editors|
    ensures r.0 ==> r.1[IndexOfFirst(editors, editorId)] == config
    ensures forall j :: 0 <= j < |editors| && j != IndexOfFirst(editors, editorId) ==> r.1[j] == editors[j]
  {
    var index := IndexOfFirst(editors, editorId);
    if index == -1 then (false, editors)
    else if !IsValid(config) then (false, editors)
    else (true, editors[index := config])
  }

  /** The editors whose id differs from `editorId`, in their original order. */
  function Without(editors: Editors, editorId: string): (r: Editors)
    ensures |r| <= |editors|
    ensures !HasId(r, editorId)
    ensures forall e :: e in r <==> e in editors && e.editorId != editorId
    ensures |r| == |editors| <==> !HasId(editors, editorId)
  {
    if editors == [] then []
    else
      var rest := Without(editors[1..], editorId);
      assert HasId(editors, editorId) <==> editors[0].editorId == editorId || HasId(editors[1..], editorId) by {
        if HasId(editors, editorId) && editors[0].editorId != editorId {
          var i :| 0 <= i < |editors| && editors[i].editorId == editorId;
          assert editors[1..][i - 1] == editors[i];
        }
        if HasId(editors[1..], editorId) {
          var i :| 0 <= i < |editors| - 1 && editors[1..][i].editorId == editorId;
          assert editors[i + 1] == editors[1..][i];
        }
      }
      assert forall e :: e in editors <==> e == editors[0] || e in editors[1..];
      if editors[0].editorId == editorId then rest
      else
        assert forall i :: 0 < i < |rest| + 1 ==> ([editors[0]] + rest)[i] == rest[i - 1];
        [editors[0]] + rest
  }

  /** `deleteCustomEditor(editorId)`: removes every editor with that id and reports whether any was there. */
  function Delete(editors: Editors, editorId: string): (r: (bool, Editors))
    ensures r.0 <==> HasId(editors, editorId)
    ensures r.1 == Without(editors, editorId)
  {
    var removed := Without(editors, editorId);
    (|removed| != |editors|, removed)
  }

  /** `getCustomEditor(editorId)`: the first editor with that id. */
  function Get(editors: Editors, editorId: string): (r: Option<CustomEditorConfig>)
    ensures r.None? <==> !HasId(editors, editorId)
    ensures r.Some? ==> exists i :: 0 <= i < |editors| && editors[i] == r.value && r.value.editorId == editorId
                          && forall j :: 0 <= j < i ==> editors[j].editorId != editorId
  {
    var index := IndexOfFirst(editors, editorId);
    if index == -1 then None else Some(editors[index])
  }

  /** `getEnabledCustomEditors()`: the enabled editors in stored order; the visibility flags play no part. */
  function Enabled(editors: Editors): (r: Editors)
    ensures |r| <= |editors|
    ensures forall e :: e in r <==> e in editors && e.enabled
  {
    if editors == [] then []
    else
      assert forall e :: e in editors <==> e == editors[0] || e in editors[1..];
      if editors[0].enabled then [editors[0]] + Enabled(editors[1..]) else Enabled(editors[1..])
  }

  /**
   * The guards of `switchToCustomEditor`: nothing is launched for an unknown
   * or a disabled editor; otherwise the command is built from the first
   * editor with that id.
   */
  function SwitchToCustomEditor(editors: Editors, editorId: string, filePath: Option<string>,
                                projectPath: Option<string>, line: nat, column: nat): (r: Option<seq<string>>)
    ensures r.Some? <==> HasId(editors, editorId) && Get(editors, editorId).value.enabled
    ensures r.Some? ==> r.value == BuildCustomCommand(Get(editors, editorId).value, filePath, projectPath, line, column)
  {
    match Get(editors, editorId)
    case None => None
    case Some(config) =>
      if !config.enabled then None
      else Some(BuildCustomCommand(config, filePath, projectPath, line, column))
  }

  // ---------------------------------------------------------------------------
  // Filters distribute over concatenation
  // ---------------------------------------------------------------------------

  lemma {:induction false} WithoutAppend(xs: Editors, ys: Editors, editorId: string)
    ensures Without(xs + ys, editorId) == Without(xs, editorId) + Without(ys, editorId)
    decreases |xs|
  {
    if xs == [] {
      assert xs + ys == ys;
    } else {
      assert (xs + ys)[0] == xs[0];
      assert (xs + ys)[1..] == xs[1..] + ys;
      WithoutAppend(xs[1..], ys, editorId);
    }
  }

  lemma {:induction false} WithoutAbsent(editors: Editors, editorId: string)
    requires !HasId(editors, editorId)
    ensures Without(editors, editorId) == editors
    decreases |editors|
  {
    if editors != [] {
      forall i | 0 <= i < |editors| - 1 ensures editors[1..][i].editorId != editorId {
        assert editors[1..][i] == editors[i + 1];
      }
      WithoutAbsent(editors[1..], editorId);
      assert editors[0].editorId != editorId;
      assert editors == [editors[0]] + editors[1..];
    }
  }

  lemma {:induction false} EnabledAppend(xs: Editors, ys: Editors)
    ensures Enabled(xs + ys) == Enabled(xs) + Enabled(ys)
    decreases |xs|
  {
    if xs == [] {
      assert xs + ys == ys;
    } else {
      assert (xs + ys)[0] == xs[0];
      assert (xs + ys)[1..] == xs[1..] + ys;
      EnabledAppend(xs[1..], ys);
    }
  }

  /** Listing the enabled editors of the enabled editors changes nothing. */
  lemma {:induction false} EnabledIdempotent(editors: Editors)
    ensures Enabled(Enabled(editors)) == Enabled(editors)
    decreases |editors|
  {
    if editors != [] {
      EnabledIdempotent(editors[1..]);
      if editors[0].enabled {
        assert Enabled(editors) == [editors[0]] + Enabled(editors[1..]);
        assert ([editors[0]] + Enabled(editors[1..]))[1..] == Enabled(editors[1..]);
      }
    }
  }

  // ---------------------------------------------------------------------------
  // Distinct ids
  // ---------------------------------------------------------------------------

  /** Adding keeps ids distinct: a taken id is refused. */
  lemma AddKeepsIdsDistinct(editors: Editors, config: CustomEditorConfig)
    requires DistinctIds(editors)
    ensures DistinctIds(Add(editors, config).1)
  {
    var r := Add(editors, config);
    if r.0 {
      forall i, j | 0 <= i < j < |r.1| ensures r.1[i].editorId != r.1[j].editorId {
        if j == |editors| {
          assert r.1[i] == editors[i];
        }
      }
    }
  }

  /** A filtered list keeps the relative order, hence distinctness. */
  lemma {:induction false} WithoutKeepsIdsDistinct(editors: Editors, editorId: string)
    requires DistinctIds(editors)
    ensures DistinctIds(Without(editors, editorId))
    decreases |editors|
  {
    if editors != [] {
      var rest := editors[1..];
      assert DistinctIds(rest) by {
        forall i, j | 0 <= i < j < |rest| ensures rest[i].editorId != rest[j].editorId {
          assert rest[i] == editors[i + 1] && rest[j] == editors[j + 1];
        }
      }
      WithoutKeepsIdsDistinct(rest, editorId);
      var w := Without(rest, editorId);
      if editors[0].editorId != editorId {
        forall e | e in w ensures e.editorId != editors[0].editorId {
          var j :| 0 <= j < |rest| && rest[j] == e;
          assert editors[j + 1] == e;
        }
        var r := [editors[0]] + w;
        forall i, j | 0 <= i < j < |r| ensures r[i].editorId != r[j].editorId {
          assert r[j] == w[j - 1];
          assert w[j - 1] in w;
          if i > 0 {
            assert r[i] == w[i - 1];
          }
        }
      }
    }
  }

  lemma DeleteKeepsIdsDistinct(editors: Editors, editorId: string)
    requires DistinctIds(editors)
    ensures DistinctIds(Delete(editors, editorId).1)
  {
    WithoutKeepsIdsDistinct(editors, editorId);
  }

  /** Updating an editor under its own id keeps ids distinct. */
  lemma UpdateKeepsIdsDistinct(editors: Editors, config: CustomEditorConfig)
    requires DistinctIds(editors)
    ensures DistinctIds(Update(editors, config.editorId, config).1)
  {
    var index := IndexOfFirst(editors, config.editorId);
    var r := Update(editors, config.editorId, config).1;
    forall i, j | 0 <= i < j < |r| ensures r[i].editorId != r[j].editorId {
      if i == index {
        assert r[j] == editors[j];
      } else if j == index {
        assert r[i] == editors[i];
      } else {
        assert r[i] == editors[i] && r[j] == editors[j];
      }
    }
  }

  /** `update` does not re-check uniqueness: renaming an editor onto another's id is accepted. */
  lemma UpdateCanDuplicateIds()
    ensures var a := CustomEditorConfig("a", "A", "/a", commandTemplate := "{EXECUTABLE}");
            var b := CustomEditorConfig("b", "B", "/b", commandTemplate := "{EXECUTABLE}");
            var r := Update([a, b], "a", b);
            DistinctIds([a, b]) && r.0 && !DistinctIds(r.1)
  {
    var a := CustomEditorConfig("a", "A", "/a", commandTemplate := "{EXECUTABLE}");
    var b := CustomEditorConfig("b", "B", "/b", commandTemplate := "{EXECUTABLE}");
    Placeholders.TokenSpellings();
    assert OccursAt("{EXECUTABLE}", Placeholders.Token(Placeholders.Executable), 0);
    assert IsValid(b);
    assert [a, b][0].editorId == "a";
    var r := Update([a, b], "a", b);
    assert r.1[0] == b && r.1[1] == b;
  }

  // ---------------------------------------------------------------------------
  // Round trips between the operations
  // ---------------------------------------------------------------------------

  /** A successful add is found again by `get`. */
  lemma AddThenGet(editors: Editors, config: CustomEditorConfig)
    requires Add(editors, config).0
    ensures Get(Add(editors, config).1, config.editorId) == Some(config)
  {
    var r := Add(editors, config).1;
    assert r[|editors|] == config;
    forall j | 0 <= j < |editors| ensures r[j].editorId != config.editorId {
      assert r[j] == editors[j];
    }
  }

  /** Deleting what was just added restores the list. */
  lemma AddThenDelete(editors: Editors, config: CustomEditorConfig)
    requires Add(editors, config).0
    ensures Delete(Add(editors, config).1, config.editorId) == (true, editors)
  {
    WithoutAppend(editors, [config], config.editorId);
    WithoutAbsent(editors, config.editorId);
    assert Without([config], config.editorId) == [] by {
      assert [config][1..] == [];
    }
    assert editors + [] == editors;
    assert (editors + [config])[|editors|] == config;
  }

  /** After a delete the id is gone: `get` finds nothing and nothing is launched. */
  lemma DeleteThenGet(editors: Editors, editorId: string, filePath: Option<string>, projectPath: Option<string>,
                      line: nat, column: nat)
    ensures Get(Delete(editors, editorId).1, editorId) == None
    ensures SwitchToCustomEditor(Delete(editors, editorId).1, editorId, filePath, projectPath, line, column) == None
  {
  }

  /** An update under the editor's own id is what `get` then returns. */
  lemma UpdateThenGet(editors: Editors, config: CustomEditorConfig)
    requires Update(editors, config.editorId, config).0
    ensures Get(Update(editors, config.editorId, config).1, config.editorId) == Some(config)
  {
    var index := IndexOfFirst(editors, config.editorId);
    var r := Update(editors, config.editorId, config).1;
    forall j | 0 <= j < index ensures r[j].editorId != config.editorId {
      assert r[j] == editors[j];
    }
  }

  /** A disabled editor is never launched, whatever the context. */
  lemma DisabledNeverLaunches(editors: Editors, editorId: string, filePath: Option<string>,
                              projectPath: Option<string>, line: nat, column: nat)
    requires Get(editors, editorId).Some? && !Get(editors, editorId).value.enabled
    ensures SwitchToCustomEditor(editors, editorId, filePath, projectPath, line, column) == None
  {
  }
}
