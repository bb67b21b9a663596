/**
 * The edit/diff engine shared by the configuration pages: a scope holds the values being
 * edited and the values last saved, keyed by parameter path
 * (src/components/hooks/useConfigStatus.ts, src/pages/LocationPage.tsx, src/pages/SSLPage.tsx).
 */
module EditSession {
  import opened ConfigTypes

  /** A `Record<string, string>` from parameter path to value. */
  type Values = map<string, string>

  /** One `{editedValues, savedValues, isSaving}` entry. */
  datatype Scope = Scope(edited: Values, saved: Values, isSaving: bool)

  /** One remote call `updateConfig(path, newValue)`. */
  datatype Update = Update(path: string, value: string)

  /** The parameters of the items, item by item and in order within each item. */
  function FlatParams(items: seq<ConfigItem>): (ps: seq<Param>)
    ensures |items| == 0 ==> ps == []
  {
    if |items| == 0 then [] else FlatParams(items[..|items| - 1]) + items[|items| - 1].params
  }

  /**
   * Assigning `acc[param.path] = param.value` for each parameter in turn, skipping those
   * whose path is empty (falsy).
   */
  function Overlay(ps: seq<Param>): (r: Values)
    ensures forall k :: k in r ==> k != ""
  {
    if |ps| == 0 then map[]
    else
      var m := Overlay(ps[..|ps| - 1]);
      var p := ps[|ps| - 1];
      if p.path != "" then m[p.path := p.value] else m
  }

  /**
   * `getInitialValues(block)`: only the block's items are read, never its own params. The
   * keys are the non-empty paths of the item parameters, each holding the value of the last
   * parameter with that path.
   */
  function InitialValues(b: ConfigBlock): (v: Values)
    ensures var ps := FlatParams(b.configItems);
      forall k :: k in v <==> k != "" && exists i :: 0 <= i < |ps| && ps[i].path == k
    ensures var ps := FlatParams(b.configItems);
      forall i :: LastWith(ps, i) && ps[i].path != "" ==> v[ps[i].path] == ps[i].value
  {
    OverlaySpec(FlatParams(b.configItems));
    Overlay(FlatParams(b.configItems))
  }

  /** A parameter position whose path no later parameter repeats. */
  ghost predicate LastWith(ps: seq<Param>, i: int) {
    0 <= i < |ps| && forall j :: i < j < |ps| ==> ps[j].path != ps[i].path
  }

  /**
   * The initial map holds exactly the non-empty paths, and each maps to the value of the
   * last parameter carrying that path.
   */
  lemma {:induction false} OverlaySpec(ps: seq<Param>)
    ensures forall k :: k in Overlay(ps) <==> k != "" && exists i :: 0 <= i < |ps| && ps[i].path == k
    ensures forall i :: LastWith(ps, i) && ps[i].path != "" ==> Overlay(ps)[ps[i].path] == ps[i].value
    decreases |ps|
  {
    if |ps| > 0 {
      var init := ps[..|ps| - 1];
      OverlaySpec(init);
      forall i | LastWith(ps, i) && ps[i].path != ""
        ensures Overlay(ps)[ps[i].path] == ps[i].value
      {
        if i < |ps| - 1 {
          assert LastWith(init, i) by {
            forall j | i < j < |init| ensures init[j].path != init[i].path {
              assert init[j] == ps[j];
            }
          }
        }
      }
      forall k ensures k in Overlay(ps) <==> k != "" && exists i :: 0 <= i < |ps| && ps[i].path == k {
        if k in Overlay(ps) && k != ps[|ps| - 1].path {
          var i :| 0 <= i < |init| && init[i].path == k;
          assert ps[i] == init[i];
        }
        if k != "" && (exists i :: 0 <= i < |ps| && ps[i].path == k) {
          var i :| 0 <= i < |ps| && ps[i].path == k;
          if i < |ps| - 1 {
            assert init[i] == ps[i];
          }
        }
      }
    }
  }

  /** Item parameters contribute in document order: a later item's parameter overrides an earlier one. */
  lemma {:induction false} FlatParamsAppend(a: seq<ConfigItem>, b: seq<ConfigItem>)
    ensures FlatParams(a + b) == FlatParams(a) + FlatParams(b)
    decreases |b|
  {
    if |b| == 0 {
      assert a + b == a;
    } else {
      var b' := b[..|b| - 1];
      assert (a + b)[..|a + b| - 1] == a + b';
      FlatParamsAppend(a, b');
    }
  }

  /** A freshly seeded scope: edited and saved are the same initial map, no save in flight. */
  function Fresh(b: ConfigBlock): (sc: Scope)
    ensures sc.edited == sc.saved && !sc.isSaving
    ensures sc.edited == InitialValues(b)
  {
    Scope(InitialValues(b), InitialValues(b), false)
  }

  /** `editedValues: {...edited, [path]: newValue}`; everything else is kept. */
  function Edit(sc: Scope, path: string, v: string): (r: Scope)
    ensures r.edited.Keys == sc.edited.Keys + {path} && r.edited[path] == v
    ensures forall k :: k in sc.edited && k != path ==> r.edited[k] == sc.edited[k]
    ensures r.saved == sc.saved && r.isSaving == sc.isSaving
  {
    sc.(edited := sc.edited[path := v])
  }

  /** The test inside `some`: the key is unsaved or its saved entry differs. */
  predicate Differs(sc: Scope, k: string)
    requires k in sc.edited
  {
    k !in sc.saved || sc.edited[k] != sc.saved[k]
  }

  /** The keys a save would write. */
  function ChangedKeys(sc: Scope): (ks: set<string>)
    ensures forall k :: k in ks <==> k in sc.edited && Differs(sc, k)
  {
    set k | k in sc.edited && Differs(sc, k)
  }

  /** The `some` test: there are changes exactly when some key would be written. */
  predicate HasChanges(sc: Scope)
    ensures HasChanges(sc) <==> ChangedKeys(sc) != {}
  {
    ChangedKeysWitness(sc);
    exists k :: k in sc.edited && Differs(sc, k)
  }

  lemma ChangedKeysWitness(sc: Scope)
    ensures (exists k :: k in sc.edited && Differs(sc, k)) <==> ChangedKeys(sc) != {}
  {
    if exists k :: k in sc.edited && Differs(sc, k) {
      var k :| k in sc.edited && Differs(sc, k);
      assert k in ChangedKeys(sc);
    }
  }

  /** The path an update targets, with the `/value` suffix taken off. */
  function UpdatedKey(u: Update): string {
    if |u.path| >= 6 then u.path[..|u.path| - 6] else u.path
  }

  /**
   * `changedParams.map(({path, newValue}) => updateConfig(path + "/value", newValue))`:
   * every changed key is written once, with its edited value, at `<key>/value`, and nothing
   * else is written.
   */
  function Updates(sc: Scope): (us: set<Update>)
    ensures forall k :: k in ChangedKeys(sc) ==> Update(k + "/value", sc.edited[k]) in us
    ensures forall u :: u in us ==>
      UpdatedKey(u) in ChangedKeys(sc) && u == Update(UpdatedKey(u) + "/value", sc.edited[UpdatedKey(u)])
    ensures |us| == |ChangedKeys(sc)|
  {
    ImageCount(ChangedKeys(sc), sc);
    ValueSuffixReadBack();
    set k | k in ChangedKeys(sc) :: Update(k + "/value", sc.edited[k])
  }

  /** Taking the `/value` suffix off gives back the key it was appended to. */
  lemma ValueSuffixReadBack()
    ensures forall k: string, v: string :: UpdatedKey(Update(k + "/value", v)) == k
  {
    forall k: string, v: string
      ensures UpdatedKey(Update(k + "/value", v)) == k
    {
      assert (k + "/value")[..|k + "/value"| - 6] == k;
    }
  }

  /** There are changes exactly when some key would be written. */
  lemma HasChangesIffChangedKeys(sc: Scope)
    ensures HasChanges(sc) <==> ChangedKeys(sc) != {}
  {
    if HasChanges(sc) {
      var k :| k in sc.edited && Differs(sc, k);
      assert k in ChangedKeys(sc);
    }
  }

  /** Each update writes the edited value of one changed key, at that key's `/value` path. */
  lemma UpdatesAreChangedKeys(sc: Scope, u: Update)
    ensures u in Updates(sc) <==>
      (UpdatedKey(u) in ChangedKeys(sc) && u == Update(UpdatedKey(u) + "/value", sc.edited[UpdatedKey(u)]))
  {
    if u in Updates(sc) {
      var k :| k in ChangedKeys(sc) && u == Update(k + "/value", sc.edited[k]);
      assert (k + "/value")[..|k + "/value"| - 6] == k;
    }
  }

  /** Exactly one update per changed key: no key is written twice and none is skipped. */
  lemma UpdatesCount(sc: Scope)
    ensures |Updates(sc)| == |ChangedKeys(sc)|
  {
    ImageCount(ChangedKeys(sc), sc);
  }

  lemma {:induction false} ImageCount(ks: set<string>, sc: Scope)
    requires forall k :: k in ks ==> k in sc.edited
    ensures |set k | k in ks :: Update(k + "/value", sc.edited[k])| == |ks|
    decreases |ks|
  {
    var img := set k | k in ks :: Update(k + "/value", sc.edited[k]);
    if ks != {} {
      var k0 :| k0 in ks;
      var rest := ks - {k0};
      ImageCount(rest, sc);
      var img' := set k | k in rest :: Update(k + "/value", sc.edited[k]);
      var u0 := Update(k0 + "/value", sc.edited[k0]);
      assert img == img' + {u0};
      forall k | k in rest
        ensures Update(k + "/value", sc.edited[k]) != u0
      {
        if Update(k + "/value", sc.edited[k]) == u0 {
          SuffixCancel(k, k0, "/value");
        }
      }
    } else {
      assert img == {};
    }
  }

  lemma SuffixCancel(a: string, b: string, suffix: string)
    requires a + suffix == b + suffix
    ensures a == b
  {
    assert a == (a + suffix)[..|a|];
    assert b == (b + suffix)[..|b|];
  }

  /** With nothing changed a save writes nothing, and conversely. */
  lemma NoChangesNoUpdates(sc: Scope)
    ensures Updates(sc) == {} <==> !HasChanges(sc)
  {
    HasChangesIffChangedKeys(sc);
    UpdatesCount(sc);
  }

  /** A freshly seeded scope has nothing to save. */
  lemma FreshHasNoChanges(b: ConfigBlock)
    ensures !HasChanges(Fresh(b))
  {
  }

  /**
   * Editing a clean scope leaves changes exactly when the new value differs from the saved
   * one: typing a value and then typing the saved value back leaves nothing to save.
   */
  lemma EditOfClean(sc: Scope, path: string, v: string)
    requires !HasChanges(sc)
    ensures HasChanges(Edit(sc, path, v)) <==> (path !in sc.saved || sc.saved[path] != v)
  {
    var r := Edit(sc, path, v);
    if HasChanges(r) {
      var k :| k in r.edited && Differs(r, k);
      if k != path {
        assert k in sc.edited && Differs(sc, k);
      }
    }
  }

  /** Editing and then editing back to the saved value restores a clean scope. */
  lemma EditBack(sc: Scope, path: string, v: string)
    requires !HasChanges(sc) && path in sc.saved
    ensures !HasChanges(Edit(Edit(sc, path, v), path, sc.saved[path]))
  {
    var r := Edit(Edit(sc, path, v), path, sc.saved[path]);
    assert r == Edit(sc, path, sc.saved[path]);
    EditOfClean(sc, path, sc.saved[path]);
  }

  /** The state change at the start of a save. */
  function StartSaving(sc: Scope): (r: Scope)
    ensures r.isSaving && r.edited == sc.edited && r.saved == sc.saved
  {
    sc.(isSaving := true)
  }

  /**
   * The state change when the batch settles. On success the saved map becomes a copy of the
   * edited map as it is at that moment; on failure both maps are kept.
   */
  function FinishSaving(sc: Scope, ok: bool): (r: Scope)
    ensures !r.isSaving && r.edited == sc.edited
    ensures r.saved == (if ok then sc.edited else sc.saved)
  {
    if ok then sc.(saved := sc.edited, isSaving := false) else sc.(isSaving := false)
  }

  /** After a successful save there is nothing left to save. */
  lemma SuccessClears(sc: Scope)
    ensures !HasChanges(FinishSaving(sc, true))
  {
  }

  /** After a failed save the pending changes are exactly those before. */
  lemma FailureKeepsChanges(sc: Scope)
    ensures HasChanges(FinishSaving(sc, false)) == HasChanges(sc)
    ensures Updates(FinishSaving(sc, false)) == Updates(sc)
  {
    assert ChangedKeys(FinishSaving(sc, false)) == ChangedKeys(sc);
  }

  /** The save button: enabled exactly when a save would write something and none is in flight. */
  predicate SaveEnabled(sc: Scope)
    ensures SaveEnabled(sc) <==> !sc.isSaving && Updates(sc) != {}
  {
    NoChangesNoUpdates(sc);
    HasChanges(sc) && !sc.isSaving
  }

  /** While a save is in flight the button stays disabled, whatever is edited meanwhile. */
  lemma NoSaveWhileSaving(sc: Scope, path: string, v: string)
    ensures !SaveEnabled(Edit(StartSaving(sc), path, v))
  {
  }
}
