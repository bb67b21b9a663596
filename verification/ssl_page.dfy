/**
 * The SSL page (src/pages/SSLPage.tsx): a single edit scope held in three separate pieces
 * of state, with its own copies of seed, edit, hasChanges and save.
 */
module SslPage {
  import opened Wrappers
  import opened ConfigTypes
  import opened EditSession

  /**
   * The seeding effect. It runs only when the block is defined (a parsed block always has a
   * `configItems` array), sets edited and saved to the flattened item parameters, and
   * leaves the in-flight flag alone.
   */
  function SslSeed(value: Option<ConfigBlock>, st: Scope): (r: Scope)
    ensures value.None? ==> r == st
    ensures value.Some? ==> r.edited == r.saved == InitialValues(value.value)
    ensures r.isSaving == st.isSaving
  {
    match value
    case None => st
    case Some(b) => Scope(InitialValues(b), InitialValues(b), st.isSaving)
  }

  /** Right after seeding there is nothing to save. */
  lemma SslSeedIsClean(b: ConfigBlock, st: Scope)
    ensures !HasChanges(SslSeed(Some(b), st))
  {
  }

  /** A save in flight: the scope, the batch of updates, and the edited map it was built from. */
  datatype Pending = Pending(state: Scope, updates: set<Update>, snapshot: Values)

  /** The synchronous part of `handleSave`: the flag is set and the batch computed, with the
   *  edited map captured for the success path. There is no guard on an empty batch. */
  function SslBeginSave(st: Scope): (p: Pending)
    ensures p.state.isSaving && p.state.edited == st.edited && p.state.saved == st.saved
    ensures forall u :: u in p.updates <==>
      exists k :: k in ChangedKeys(st) && u == Update(k + "/value", st.edited[k])
    ensures |p.updates| == |ChangedKeys(st)|
    ensures p.updates == {} <==> !HasChanges(st)
    ensures p.snapshot == st.edited
  {
    UpdatesCount(st);
    NoChangesNoUpdates(st);
    Pending(StartSaving(st), Updates(st), st.edited)
  }

  /**
   * When the batch settles: on success the saved map becomes the snapshot taken when the
   * save started, not the edited map as it is now; the flag clears either way.
   */
  function SslFinishSave(st: Scope, snapshot: Values, ok: bool): (r: Scope)
    ensures !r.isSaving && r.edited == st.edited
    ensures r.saved == (if ok then snapshot else st.saved)
  {
    Scope(st.edited, if ok then snapshot else st.saved, false)
  }

  /** With no edit while the save is in flight, success leaves nothing to save. */
  lemma SslSuccessClears(st: Scope)
    ensures var p := SslBeginSave(st); !HasChanges(SslFinishSave(p.state, p.snapshot, true))
  {
  }

  /**
   * An edit made while the save is in flight survives a successful save as a pending change
   * whenever it differs from the captured value, whereas the hook marks it saved.
   */
  lemma SslEditDuringSaveSurvives(st: Scope, path: string, v: string)
    requires path !in st.edited || st.edited[path] != v
    ensures var p := SslBeginSave(st);
      HasChanges(SslFinishSave(Edit(p.state, path, v), p.snapshot, true))
    ensures !HasChanges(FinishSaving(Edit(StartSaving(st), path, v), true))
  {
    var p := SslBeginSave(st);
    var r := SslFinishSave(Edit(p.state, path, v), p.snapshot, true);
    assert path in r.edited && Differs(r, path);
  }

  /** On failure the pending changes are unchanged and the flag clears. */
  lemma SslFailureKeepsChanges(st: Scope)
    ensures var p := SslBeginSave(st);
      var r := SslFinishSave(p.state, p.snapshot, false);
      !r.isSaving && HasChanges(r) == HasChanges(st)
  {
    var p := SslBeginSave(st);
    assert SslFinishSave(p.state, p.snapshot, false) == st.(isSaving := false);
  }

  /** Starting a save disables the save button. */
  lemma SslSaveButton(st: Scope)
    ensures !SaveEnabled(SslBeginSave(st).state)
  {
  }
}
