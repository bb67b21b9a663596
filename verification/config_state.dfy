/**
 * The `useConfigState` hook (src/components/hooks/useConfigStatus.ts): a map from scope
 * identifier to edit scope, seeded from one block or a list of blocks.
 */
module ConfigState {
  import opened Wrappers
  import opened Strings
  import opened ConfigTypes
  import opened EditSession

  /** All scopes of the hook, by identifier. */
  type Session = map<string, Scope>

  /** The hook's `config` argument when it is defined: one block or an array of blocks. */
  datatype SeedInput = One(block: ConfigBlock) | Many(blocks: seq<ConfigBlock>)

  /** `${identifierPrefix}-${index}` */
  function ScopeId(prefix: string, i: nat): (id: string)
    ensures prefix + "-" <= id
  {
    prefix + "-" + NatToString(i)
  }

  /** Distinct positions of a list get distinct scope identifiers. */
  lemma ScopeIdInjective(prefix: string, i: nat, j: nat)
    requires ScopeId(prefix, i) == ScopeId(prefix, j)
    ensures i == j
  {
    var p := prefix + "-";
    assert NatToString(i) == ScopeId(prefix, i)[|p|..];
    assert NatToString(j) == ScopeId(prefix, j)[|p|..];
    NatToStringInjective(i, j);
  }

  /** The scopes seeded from the first `n` blocks of a list. */
  function SeedList(bs: seq<ConfigBlock>, prefix: string, n: nat): (s: Session)
    requires n <= |bs|
    ensures forall id :: id in s <==> exists i :: 0 <= i < n && id == ScopeId(prefix, i)
    ensures forall i :: 0 <= i < n ==> s[ScopeId(prefix, i)] == Fresh(bs[i])
    ensures |s| == n
  {
    if n == 0 then map[]
    else
      var s := SeedList(bs, prefix, n - 1);
      NewScopeId(prefix, n - 1);
      s[ScopeId(prefix, n - 1) := Fresh(bs[n - 1])]
  }

  /** The identifier of the next position differs from every earlier one. */
  lemma NewScopeId(prefix: string, n: nat)
    ensures forall i :: 0 <= i < n ==> ScopeId(prefix, i) != ScopeId(prefix, n)
  {
    forall i | 0 <= i < n
      ensures ScopeId(prefix, i) != ScopeId(prefix, n)
    {
      if ScopeId(prefix, i) == ScopeId(prefix, n) {
        ScopeIdInjective(prefix, i, n);
      }
    }
  }

  /**
   * The seeding effect: an undefined config leaves the state alone; otherwise the whole state
   * is replaced, by one scope `prefix` for a single block or `prefix-i` per listed block.
   */
  function Seed(config: Option<SeedInput>, prefix: string, prev: Session): (s: Session)
    ensures config.None? ==> s == prev
    ensures config.Some? && config.value.One? ==> s == map[prefix := Fresh(config.value.block)]
    ensures config.Some? && config.value.Many? ==>
      && (forall id :: id in s <==> exists i :: 0 <= i < |config.value.blocks| && id == ScopeId(prefix, i))
      && (forall i :: 0 <= i < |config.value.blocks| ==>
           s[ScopeId(prefix, i)] == Fresh(config.value.blocks[i]))
      && |s| == |config.value.blocks|
  {
    match config
    case None => prev
    case Some(One(b)) => map[prefix := Fresh(b)]
    case Some(Many(bs)) => SeedList(bs, prefix, |bs|)
  }

  /** Right after seeding, no scope has changes and none is saving. */
  lemma SeedIsClean(config: SeedInput, prefix: string, prev: Session)
    ensures var s := Seed(Some(config), prefix, prev);
      forall id :: id in s ==> !HasChanges(s[id]) && !s[id].isSaving
  {
    var s := Seed(Some(config), prefix, prev);
    forall id | id in s
      ensures !HasChanges(s[id]) && !s[id].isSaving
    {
      match config
      case One(b) =>
        FreshHasNoChanges(b);
      case Many(bs) =>
        var i :| 0 <= i < |bs| && ScopeId(prefix, i) == id;
        FreshHasNoChanges(bs[i]);
    }
  }

  /** Seeding discards every earlier edit: the result does not depend on the previous state. */
  lemma SeedDiscardsPrevious(config: SeedInput, prefix: string, a: Session, b: Session)
    ensures Seed(Some(config), prefix, a) == Seed(Some(config), prefix, b)
  {
  }

  /** `hasSingleState`: there is one scope and every scope is that one. */
  predicate HasSingleState(s: Session)
    ensures HasSingleState(s) <==> exists id :: id in s && forall other :: other in s ==> other == id
  {
    SingleKey(s);
    |s.Keys| == 1
  }

  lemma SingleKey(s: Session)
    ensures |s.Keys| == 1 <==> exists id :: id in s && forall other :: other in s ==> other == id
  {
    if |s.Keys| == 1 {
      OneElement(s.Keys);
    }
    if exists id :: id in s && forall other :: other in s ==> other == id {
      var id :| id in s && forall other :: other in s ==> other == id;
      assert s.Keys == {id};
    }
  }

  lemma OneElement(ks: set<string>)
    requires |ks| == 1
    ensures exists id :: id in ks && forall other :: other in ks ==> other == id
  {
    var id :| id in ks;
    var rest := ks - {id};
    assert ks == rest + {id} && rest * {id} == {};
    assert |rest| == 0;
    assert rest == {};
    forall other | other in ks
      ensures other == id
    {
      assert other !in rest;
    }
  }
  /** A single block always gives a single state; a list does exactly when it has one block. */
  lemma SingleStateAfterSeed(config: SeedInput, prefix: string, prev: Session)
    ensures HasSingleState(Seed(Some(config), prefix, prev)) <==>
      (config.One? || |config.blocks| == 1)
  {
    match config
    case One(b) =>
      assert Seed(Some(config), prefix, prev).Keys == {prefix};
    case Many(bs) =>
  }


  /**
   * `handleParamChange(id, path, v)`. The updater reads `prev[id].editedValues`, which throws
   * for an unknown id: that case is the error result `None`.
   */
  function ParamChange(s: Session, id: string, path: string, v: string): (r: Option<Session>)
    ensures r.Some? <==> id in s
    ensures r.Some? ==> r.value.Keys == s.Keys
    ensures r.Some? ==> forall other :: other in s && other != id ==> r.value[other] == s[other]
    ensures r.Some? ==> r.value[id] == Edit(s[id], path, v)
  {
    if id in s then Some(s[id := Edit(s[id], path, v)]) else None
  }

  /** `hasChanges(id)`: false for an unknown id; otherwise whether a save would write something. */
  predicate ScopeHasChanges(s: Session, id: string)
    ensures ScopeHasChanges(s, id) <==> BeginSave(s, id).1 != {}
  {
    id in s && HasChanges(s[id])
  }

  /**
   * The synchronous part of `handleSave(id)`: nothing for an unknown id; otherwise the scope
   * is marked saving and the batch of updates is computed from the scope as it was.
   */
  function BeginSave(s: Session, id: string): (r: (Session, set<Update>))
    ensures id !in s ==> r == (s, {})
    ensures r.0.Keys == s.Keys
    ensures forall other :: other in s && other != id ==> r.0[other] == s[other]
    ensures id in s ==> r.0[id].isSaving && r.0[id].edited == s[id].edited && r.0[id].saved == s[id].saved
    ensures id in s ==> forall u :: u in r.1 <==>
      exists k :: k in ChangedKeys(s[id]) && u == Update(k + "/value", s[id].edited[k])
    ensures id in s ==> |r.1| == |ChangedKeys(s[id])| && (r.1 == {} <==> !HasChanges(s[id]))
  {
    if id !in s then (s, {})
    else
      UpdatesCount(s[id]);
      NoChangesNoUpdates(s[id]);
      (s[id := StartSaving(s[id])], Updates(s[id]))
  }

  /**
   * The state change when the batch settles; it acts on the scope as it is then, so edits
   * made while the batch was in flight are part of what is marked saved.
   */
  function FinishSave(s: Session, id: string, ok: bool): (r: Session)
    requires id in s
    ensures r.Keys == s.Keys && r[id] == FinishSaving(s[id], ok)
    ensures forall other :: other in s && other != id ==> r[other] == s[other]
  {
    s[id := FinishSaving(s[id], ok)]
  }

  /**
   * A save on a known scope writes one update per changed key. After success no changes
   * remain even if the scope was edited while the save was in flight; after failure the
   * changes are exactly those before the save.
   */
  lemma SaveOutcome(s: Session, id: string, path: string, v: string)
    requires id in s
    ensures |BeginSave(s, id).1| == |ChangedKeys(s[id])|
    ensures var mid := ParamChange(BeginSave(s, id).0, id, path, v).value;
      !ScopeHasChanges(FinishSave(mid, id, true), id)
    ensures ScopeHasChanges(FinishSave(BeginSave(s, id).0, id, false), id) == ScopeHasChanges(s, id)
  {
    UpdatesCount(s[id]);
    var mid := ParamChange(BeginSave(s, id).0, id, path, v).value;
    SuccessClears(mid[id]);
    FailureKeepsChanges(StartSaving(s[id]));
  }

  /** Saving an unknown scope changes nothing and writes nothing. */
  lemma SaveUnknown(s: Session, id: string)
    requires id !in s
    ensures BeginSave(s, id).0 == s && BeginSave(s, id).1 == {}
  {
  }
}
