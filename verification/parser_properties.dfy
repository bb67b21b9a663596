/**
 * What the parser's pushes amount to. The raw children of a block, read in
 * `Object.entries` order and then array order, form a flat list of slots; each slot is
 * parsed in place (`Place`), and the results are sorted into `configItems` and
 * `childrenBlocks` by `Collect`.
 */
module ParserProperties {
  import opened Wrappers
  import opened Strings
  import opened ConfigTypes
  import opened PathBuilder
  import opened Parser

  /** A raw child with its key and its position in that key's array. */
  datatype Slot = Slot(key: string, index: nat, element: RawElement)

  /** The slots of one key's array, from position `j` on. */
  function ArraySlots(key: string, xs: seq<RawElement>, j: nat): (r: seq<Slot>)
    requires j <= |xs|
    ensures |r| == |xs| - j
    ensures forall n :: 0 <= n < |r| ==> r[n] == Slot(key, j + n, xs[j + n])
    decreases |xs| - j
  {
    if j == |xs| then [] else [Slot(key, j, xs[j])] + ArraySlots(key, xs, j + 1)
  }

  /** All slots of a `children` record, in iteration order. */
  function EntrySlots(entries: seq<RawChildEntry>): (r: seq<Slot>)
    ensures |r| == CountElements(entries)
    ensures forall n :: 0 <= n < |r| ==>
      (exists i :: 0 <= i < |entries| && entries[i].key == r[n].key
        && r[n].index < |entries[i].elements| && entries[i].elements[r[n].index] == r[n].element)
  {
    if |entries| == 0 then []
    else
      var a := ArraySlots(entries[0].key, entries[0].elements, 0);
      var b := EntrySlots(entries[1..]);
      assert forall n :: |a| <= n < |a| + |b| ==> (a + b)[n] == b[n - |a|];
      a + b
  }

  /** The top-level entries: each one is a single element at index 0. */
  function RootSlots(rc: RawConfig): (r: seq<Slot>)
    ensures |r| == |rc|
    ensures forall n :: 0 <= n < |r| ==> r[n] == Slot(rc[n].key, 0, rc[n].element)
  {
    if |rc| == 0 then [] else [Slot(rc[0].key, 0, rc[0].element)] + RootSlots(rc[1..])
  }

  /** Each slot parsed where it stands. */
  function PlaceAll(slots: seq<Slot>, parentPath: string): (r: seq<Placed>)
    ensures |r| == |slots|
    ensures forall n :: 0 <= n < |r| ==> r[n] == Place(slots[n].key, slots[n].element, parentPath, slots[n].index)
  {
    if |slots| == 0 then []
    else [Place(slots[0].key, slots[0].element, parentPath, slots[0].index)] + PlaceAll(slots[1..], parentPath)
  }

  /** The items among the placed children, in order. */
  function ItemsOf(ps: seq<Placed>): seq<ConfigItem> {
    if |ps| == 0 then []
    else (if ps[0].PlacedItem? then [ps[0].item] else []) + ItemsOf(ps[1..])
  }

  /** The blocks placed under `key`, in order. */
  function BlocksOf(ps: seq<Placed>, key: string): seq<ConfigBlock> {
    if |ps| == 0 then []
    else (if ps[0].PlacedBlock? && ps[0].key == key then [ps[0].block] else []) + BlocksOf(ps[1..], key)
  }

  /** Pushing placed children one at a time. */
  function Collect(ps: seq<Placed>, acc: Children): (r: Children)
    ensures r.items == acc.items + ItemsOf(ps)
    ensures |r.items| + TotalBlocks(r.groups) == |acc.items| + TotalBlocks(acc.groups) + |ps|
  {
    if |ps| == 0 then acc
    else
      var r := Collect(ps[1..], AddPlaced(acc, ps[0]));
      assert ItemsOf(ps) == (if ps[0].PlacedItem? then [ps[0].item] else []) + ItemsOf(ps[1..]);
      r
  }

  /** Each key's list is the old list followed by the blocks placed under that key. */
  lemma {:induction false} CollectBlocks(ps: seq<Placed>, acc: Children, k: string)
    ensures BlocksAt(Collect(ps, acc).groups, k) == BlocksAt(acc.groups, k) + BlocksOf(ps, k)
    decreases |ps|
  {
    if |ps| > 0 {
      var next := AddPlaced(acc, ps[0]);
      CollectBlocks(ps[1..], next, k);
      var here := if ps[0].PlacedBlock? && ps[0].key == k then [ps[0].block] else [];
      assert BlocksOf(ps, k) == here + BlocksOf(ps[1..], k);
      match ps[0]
      case PlacedItem(_) =>
        assert next.groups == acc.groups;
      case PlacedBlock(key, b) =>
        assert next.groups == AppendBlock(acc.groups, key, b);
        if key == k {
          assert Lookup(next.groups, k) == Some(BlocksAt(acc.groups, k) + [b]);
        } else {
          assert Lookup(next.groups, k) == Lookup(acc.groups, k);
        }
    }
  }

  /** A key is present afterwards iff it was present before or some block was placed under it. */
  lemma {:induction false} CollectKeys(ps: seq<Placed>, acc: Children, k: string)
    ensures Lookup(Collect(ps, acc).groups, k).Some? <==> Lookup(acc.groups, k).Some? || BlocksOf(ps, k) != []
    decreases |ps|
  {
    if |ps| > 0 {
      var next := AddPlaced(acc, ps[0]);
      CollectKeys(ps[1..], next, k);
      var here := if ps[0].PlacedBlock? && ps[0].key == k then [ps[0].block] else [];
      assert BlocksOf(ps, k) == here + BlocksOf(ps[1..], k);
      assert BlocksOf(ps, k) != [] <==> here != [] || BlocksOf(ps[1..], k) != [];
      match ps[0]
      case PlacedItem(_) =>
        assert next.groups == acc.groups;
      case PlacedBlock(key, b) =>
        assert next.groups == AppendBlock(acc.groups, key, b);
        if key == k {
          assert Lookup(next.groups, k).Some?;
        } else {
          assert Lookup(next.groups, k) == Lookup(acc.groups, k);
        }
    }
  }

  /** Pushing never creates a duplicate key or an empty list. */
  lemma {:induction false} CollectWellFormed(ps: seq<Placed>, acc: Children)
    requires WellFormed(acc.groups)
    ensures WellFormed(Collect(ps, acc).groups)
    decreases |ps|
  {
    if |ps| > 0 {
      if ps[0].PlacedBlock? {
        AppendBlockWellFormed(acc.groups, ps[0].key, ps[0].block);
      }
      CollectWellFormed(ps[1..], AddPlaced(acc, ps[0]));
    }
  }

  lemma {:induction false} CollectAppend(a: seq<Placed>, b: seq<Placed>, acc: Children)
    ensures Collect(a + b, acc) == Collect(b, Collect(a, acc))
    decreases |a|
  {
    if |a| == 0 {
      assert a + b == b;
    } else {
      assert (a + b)[1..] == a[1..] + b;
      CollectAppend(a[1..], b, AddPlaced(acc, a[0]));
    }
  }

  lemma {:induction false} ParseArrayIsCollect(key: string, xs: seq<RawElement>, j: nat, parentPath: string, acc: Children)
    requires j <= |xs|
    ensures ParseArray(key, xs, j, parentPath, acc) == Collect(PlaceAll(ArraySlots(key, xs, j), parentPath), acc)
    decreases |xs| - j
  {
    if j < |xs| {
      var ps := PlaceAll(ArraySlots(key, xs, j), parentPath);
      assert ps[1..] == PlaceAll(ArraySlots(key, xs, j + 1), parentPath);
      ParseArrayIsCollect(key, xs, j + 1, parentPath, AddPlaced(acc, Place(key, xs[j], parentPath, j)));
    }
  }

  lemma {:induction false} PlaceAllAppend(a: seq<Slot>, b: seq<Slot>, parentPath: string)
    ensures PlaceAll(a + b, parentPath) == PlaceAll(a, parentPath) + PlaceAll(b, parentPath)
    decreases |a|
  {
    if |a| == 0 {
      assert a + b == b;
    } else {
      assert (a + b)[1..] == a[1..] + b;
      PlaceAllAppend(a[1..], b, parentPath);
    }
  }

  /** The nested walk of `parseChildren` pushes exactly the flat list of placed slots. */
  lemma {:induction false} ParseEntriesIsCollect(entries: seq<RawChildEntry>, parentPath: string, acc: Children)
    ensures ParseEntries(entries, parentPath, acc) == Collect(PlaceAll(EntrySlots(entries), parentPath), acc)
    decreases |entries|
  {
    if |entries| > 0 {
      var e := entries[0];
      var a := ArraySlots(e.key, e.elements, 0);
      var b := EntrySlots(entries[1..]);
      ParseArrayIsCollect(e.key, e.elements, 0, parentPath, acc);
      var next := ParseArray(e.key, e.elements, 0, parentPath, acc);
      ParseEntriesIsCollect(entries[1..], parentPath, next);
      PlaceAllAppend(a, b, parentPath);
      CollectAppend(PlaceAll(a, parentPath), PlaceAll(b, parentPath), acc);
    }
  }

  lemma {:induction false} ParseRootEntriesIsCollect(rc: RawConfig, acc: Children)
    ensures ParseRootEntries(rc, acc) == Collect(PlaceAll(RootSlots(rc), ""), acc)
    decreases |rc|
  {
    if |rc| > 0 {
      var ps := PlaceAll(RootSlots(rc), "");
      assert ps[1..] == PlaceAll(RootSlots(rc[1..]), "");
      ParseRootEntriesIsCollect(rc[1..], AddPlaced(acc, Place(rc[0].key, rc[0].element, "", 0)));
    }
  }

  /** A placed child is a block exactly when its raw element `is_block`, and sits at its built path. */
  lemma PlaceShape(key: string, e: RawElement, parentPath: string, index: nat)
    ensures Place(key, e, parentPath, index).PlacedBlock? <==> e.isBlock
    ensures e.isBlock ==>
      (Place(key, e, parentPath, index).key == key
        && Place(key, e, parentPath, index).block.path == BuildElementPath(parentPath, key, index, e.unique))
    ensures !e.isBlock ==> Place(key, e, parentPath, index).item.path == BuildElementPath(parentPath, key, index, e.unique)
  {
  }

  /** Children placed into an empty record: lists only for keys that received a block. */
  ghost predicate SortedInto(c: Children, ps: seq<Placed>) {
    && c.items == ItemsOf(ps)
    && (forall k :: BlocksAt(c.groups, k) == BlocksOf(ps, k))
    && (forall k :: Lookup(c.groups, k).Some? <==> BlocksOf(ps, k) != [])
    && WellFormed(c.groups)
    && |c.items| + TotalBlocks(c.groups) == |ps|
  }

  lemma CollectFromEmpty(ps: seq<Placed>)
    ensures SortedInto(Collect(ps, NoChildren), ps)
  {
    forall k
      ensures BlocksAt(Collect(ps, NoChildren).groups, k) == BlocksOf(ps, k)
      ensures Lookup(Collect(ps, NoChildren).groups, k).Some? <==> BlocksOf(ps, k) != []
    {
      CollectBlocks(ps, NoChildren, k);
      CollectKeys(ps, NoChildren, k);
    }
    CollectWellFormed(ps, NoChildren);
  }

  /**
   * A parsed block: path from `PathBuilder`, own parameters at `path/params/<index>` in raw
   * order, and every raw child in exactly one place: items in `configItems`, blocks under
   * their key in `childrenBlocks`, each parsed below `path/children`.
   */
  lemma ParseBlockShape(raw: RawElement, parentPath: string, key: string, index: nat)
    ensures var b := ParseBlock(raw, parentPath, key, index);
      && b.path == BuildElementPath(parentPath, key, index, raw.unique)
      && |b.params| == |raw.params|
      && (forall i :: 0 <= i < |b.params| ==> RecoverParam(b.params[i]) == Some((b.path, raw.params[i])))
      && SortedInto(Children(b.configItems, b.childrenBlocks),
                    PlaceAll(EntrySlots(raw.children), b.path + "/children"))
      && |b.configItems| + TotalBlocks(b.childrenBlocks) == CountElements(raw.children)
  {
    var path := BuildElementPath(parentPath, key, index, raw.unique);
    ParseEntriesIsCollect(raw.children, path + "/children", NoChildren);
    CollectFromEmpty(PlaceAll(EntrySlots(raw.children), path + "/children"));
  }

  /**
   * The root: path `""`, no parameters, and each top-level entry parsed at index 0 under
   * parent path `""` and sorted like any other child.
   */
  lemma ParseRootShape(rc: RawConfig)
    ensures var root := ParseRawConfig(rc);
      && root.path == ""
      && root.params == []
      && SortedInto(Children(root.configItems, root.childrenBlocks), PlaceAll(RootSlots(rc), ""))
      && |root.configItems| + TotalBlocks(root.childrenBlocks) == |rc|
  {
    ParseRootEntriesIsCollect(rc, NoChildren);
    CollectFromEmpty(PlaceAll(RootSlots(rc), ""));
  }

  /** A top-level element is addressed `/key` when unique and `/key/0` otherwise. */
  lemma TopLevelPath(key: string, unique: bool)
    ensures BuildElementPath("", key, 0, unique) == if unique then "/" + key else "/" + key + "/0"
  {
    assert NatToString(0) == "0";
  }

  /** A record with one block entry parses to a root holding just that block. */
  lemma SingleRootBlock(key: string, e: RawElement)
    requires e.isBlock
    ensures ParseRawConfig([RawRootEntry(key, e)]).childrenBlocks == [ChildGroup(key, [ParseBlock(e, "", key, 0)])]
  {
    var rc := [RawRootEntry(key, e)];
    var b := ParseBlock(e, "", key, 0);
    assert AddPlaced(NoChildren, PlacedBlock(key, b)) == Children([], [ChildGroup(key, [b])]);
    assert ParseRootEntries(rc, NoChildren) == ParseRootEntries(rc[1..], Children([], [ChildGroup(key, [b])]));
  }

  /** A block whose only child is one block under `childKey` has just that child block. */
  lemma SingleChildBlock(e: RawElement, parentPath: string, key: string, index: nat, childKey: string, c: RawElement)
    requires c.isBlock && e.children == [RawChildEntry(childKey, [c])]
    ensures var b := ParseBlock(e, parentPath, key, index);
      b.childrenBlocks == [ChildGroup(childKey, [ParseBlock(c, b.path + "/children", childKey, 0)])]
  {
    var b := ParseBlock(e, parentPath, key, index);
    var pp := b.path + "/children";
    var cb := ParseBlock(c, pp, childKey, 0);
    assert ParseEntries(e.children, pp, NoChildren) == ParseArray(childKey, [c], 0, pp, NoChildren);
    assert AddPlaced(NoChildren, PlacedBlock(childKey, cb)) == Children([], [ChildGroup(childKey, [cb])]);
  }

  /**
   * Worked example, first half: a unique `http` block whose only child is one `server`
   * block lands at `/http`, and its server is parsed below `/http/children`.
   */
  lemma HttpOfExample(http: RawElement, server: RawElement)
    requires server.isBlock && http.unique
    requires http.children == [RawChildEntry("server", [server])]
    ensures var h := ParseBlock(http, "", "http", 0);
      && h.path == "/http"
      && h.childrenBlocks == [ChildGroup("server", [ParseBlock(server, "/http/children", "server", 0)])]
  {
    HttpPath();
    SingleChildBlock(http, "", "http", 0, "server", server);
  }

  lemma HttpPath()
    ensures BuildElementPath("", "http", 0, true) == "/http"
    ensures "/http" + "/children" == "/http/children"
  {
    assert "" + "/" + "http" == "/http";
  }

  /**
   * Worked example, second half: a non-unique `server` at position 0 with one parameter of
   * declared index 0 lands at `<parent>/server/0`, its parameter at `<parent>/server/0/params/0`
   * (for `http`, `/http/children/server/0/params/0`).
   */
  lemma ServerOfExample(server: RawElement, parentPath: string)
    requires !server.unique
    requires server.params == [RawParam(0, map[], map[], Str, false, "", "example.com")]
    ensures var s := ParseBlock(server, parentPath, "server", 0);
      && s.path == parentPath + "/server/0"
      && |s.params| == 1
      && s.params[0].path == parentPath + "/server/0/params/0"
      && s.params[0].value == "example.com"
  {
    assert NatToString(0) == "0";
    var s := ParseBlock(server, parentPath, "server", 0);
    assert s.params == [ParseParam(server.params[0], s.path)];
    assert s.params[0].path == s.path + "/params/" + NatToString(0);
  }
}
