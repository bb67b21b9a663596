/**
 * The location page (src/pages/LocationPage.tsx): one edit scope per location block of a
 * server, with its own unguarded copies of the hook's operations.
 */
module LocationPage {
  import opened Wrappers
  import opened Strings
  import opened Seqs
  import opened ConfigTypes
  import opened PathBuilder
  import opened EditSession
  import opened ConfigState

  /** The prefix of the location scopes: they are named `location-${index}`. */
  const LocationPrefix: string := "location"

  /**
   * The seeding effect: one scope per location block when the list is defined; the whole
   * state is replaced.
   */
  function SeedLocations(locations: Option<seq<ConfigBlock>>, prev: Session): (s: Session)
    ensures locations.None? ==> s == prev
    ensures locations.Some? ==>
      && (forall id :: id in s <==> exists i :: 0 <= i < |locations.value| && id == ScopeId(LocationPrefix, i))
      && (forall i :: 0 <= i < |locations.value| ==> s[ScopeId(LocationPrefix, i)] == Fresh(locations.value[i]))
      && |s| == |locations.value|
  {
    match locations
    case None => prev
    case Some(locs) => Seed(Some(Many(locs)), LocationPrefix, prev)
  }

  /**
   * `hasChanges(locationId)`: whether the page's save would write something. The page reads
   * `state.editedValues` without checking that the scope exists, so the scope must exist.
   */
  predicate LocationHasChanges(s: Session, id: string)
    requires id in s
    ensures LocationHasChanges(s, id) <==> LocationBeginSave(s, id).1 != {}
  {
    HasChanges(s[id])
  }

  /** On an existing scope the page's test agrees with the hook's guarded one. */
  lemma LocationHasChangesAgrees(s: Session, id: string)
    requires id in s
    ensures LocationHasChanges(s, id) == ScopeHasChanges(s, id)
  {
  }

  /**
   * The synchronous part of `handleSave(locationId)`; like `hasChanges` it reads the scope
   * without a guard. The scope is marked saving and the batch is computed from it.
   */
  function LocationBeginSave(s: Session, id: string): (r: (Session, set<Update>))
    requires id in s
    ensures r.0.Keys == s.Keys && r.0[id].isSaving
    ensures r.0[id].edited == s[id].edited && r.0[id].saved == s[id].saved
    ensures forall other :: other in s && other != id ==> r.0[other] == s[other]
    ensures forall u :: u in r.1 <==>
      exists k :: k in ChangedKeys(s[id]) && u == Update(k + "/value", s[id].edited[k])
    ensures |r.1| == |ChangedKeys(s[id])| && (r.1 == {} <==> !HasChanges(s[id]))
  {
    UpdatesCount(s[id]);
    NoChangesNoUpdates(s[id]);
    (s[id := StartSaving(s[id])], Updates(s[id]))
  }

  /** On an existing scope the page's save behaves as the hook's. */
  lemma LocationSaveAgrees(s: Session, id: string)
    requires id in s
    ensures LocationBeginSave(s, id) == BeginSave(s, id)
  {
  }

  /** `param.path.includes("location")` */
  predicate MentionsLocation(p: Param) {
    Contains(p.path, "location")
  }

  const UnnamedLocation: string := "未命名位置"

  /** `getLocationPath(location)`: an empty or missing value falls back to the placeholder. */
  function LocationLabel(location: ConfigBlock): (name: string)
    ensures name != ""
    ensures var found := Find(location.params, MentionsLocation);
      name == UnnamedLocation <==> (found.None? || found.value.value in {"", UnnamedLocation})
    ensures var found := Find(location.params, MentionsLocation);
      found.Some? && found.value.value != "" ==> name == found.value.value
  {
    match Find(location.params, MentionsLocation)
    case Some(p) => if p.value != "" then p.value else UnnamedLocation
    case None => UnnamedLocation
  }

  /**
   * A parsed location block sits at a path containing `location`, and each of its parameter
   * paths extends the block's path, so the label always comes from its first parameter.
   */
  lemma LabelFromFirstParam(location: ConfigBlock)
    requires Contains(location.path, "location")
    requires forall i :: 0 <= i < |location.params| ==> location.path <= location.params[i].path
    ensures |location.params| == 0 ==> LocationLabel(location) == UnnamedLocation
    ensures |location.params| > 0 && location.params[0].value != "" ==>
      LocationLabel(location) == location.params[0].value
  {
    if |location.params| > 0 {
      var p := location.params[0].path;
      assert p == location.path + p[|location.path|..];
      ContainsExtend(location.path, p[|location.path|..], "location");
    }
  }

  /**
   * The delete entry is disabled while at most one location remains, that is, while the
   * page holds at most one location scope.
   */
  predicate DeleteDisabled(locations: seq<ConfigBlock>)
    ensures DeleteDisabled(locations) <==> |SeedLocations(Some(locations), map[])| <= 1
  {
    |locations| <= 1
  }

  /**
   * Whatever state the page held, the guard reads the number of scopes seeded from the
   * list, and after a permitted delete the reseeded page still holds a location scope.
   */
  lemma DeleteGuard(locations: seq<ConfigBlock>, prev: Session)
    ensures DeleteDisabled(locations) <==> |SeedLocations(Some(locations), prev)| <= 1
    ensures !DeleteDisabled(locations) ==> forall i :: 0 <= i < |locations| ==>
      |SeedLocations(Some(Remove(locations, i)), prev)| >= 1
  {
  }

  /**
   * After the `i`-th location is deleted and the list reseeded, the locations before it keep
   * their scopes and every later one moves down a position: `location-j` holds the block
   * that was at `j + 1`.
   */
  lemma DeleteShiftsScopes(locations: seq<ConfigBlock>, prev: Session, i: nat)
    requires i < |locations|
    ensures forall j :: 0 <= j < i ==>
      SeedLocations(Some(Remove(locations, i)), prev)[ScopeId(LocationPrefix, j)] == Fresh(locations[j])
    ensures forall j :: i <= j < |locations| - 1 ==>
      SeedLocations(Some(Remove(locations, i)), prev)[ScopeId(LocationPrefix, j)] == Fresh(locations[j + 1])
    ensures ScopeId(LocationPrefix, |locations| - 1) !in SeedLocations(Some(Remove(locations, i)), prev)
  {
    var r := Remove(locations, i);
    forall j | 0 <= j < |r|
      ensures SeedLocations(Some(r), prev)[ScopeId(LocationPrefix, j)] == Fresh(if j < i then locations[j] else locations[j + 1])
    {
      SeedAt(r, prev, j);
    }
    LastIdGone(r, prev);
  }

  /** The `j`-th reseeded scope is a fresh scope of the `j`-th block. */
  lemma SeedAt(r: seq<ConfigBlock>, prev: Session, j: nat)
    requires j < |r|
    ensures ScopeId(LocationPrefix, j) in SeedLocations(Some(r), prev)
    ensures SeedLocations(Some(r), prev)[ScopeId(LocationPrefix, j)] == Fresh(r[j])
  {
  }

  /** The reseeded page has no scope at the position past the end of the list. */
  lemma LastIdGone(r: seq<ConfigBlock>, prev: Session)
    ensures ScopeId(LocationPrefix, |r|) !in SeedLocations(Some(r), prev)
  {
    NewScopeId(LocationPrefix, |r|);
  }

  /** The list without its `i`-th location, as the delete action leaves it. */
  function Remove(locations: seq<ConfigBlock>, i: nat): (r: seq<ConfigBlock>)
    requires i < |locations|
    ensures |r| == |locations| - 1
    ensures forall j :: 0 <= j < i ==> r[j] == locations[j]
    ensures forall j :: i <= j < |r| ==> r[j] == locations[j + 1]
  {
    locations[..i] + locations[i + 1..]
  }

  /** `addBlock("/http/children/server/${serverIndex}", "location")` */
  function AddLocationTarget(serverIndex: nat): (r: (string, string))
    ensures r.1 == "location"
  {
    ("/http/children/server/" + NatToString(serverIndex), "location")
  }

  /** The parent of a new location is the path the parser gives the server at that index. */
  lemma AddTargetIsServerPath(serverIndex: nat)
    ensures AddLocationTarget(serverIndex).0 ==
      BuildElementPath(BuildElementPath("", "http", 0, true) + "/children", "server", serverIndex, false)
  {
    var http := BuildElementPath("", "http", 0, true);
    assert http == "/http";
    assert "/http" + "/children" + "/" + "server" + "/" == "/http/children/server/";
  }
}
