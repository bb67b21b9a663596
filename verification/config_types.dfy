/**
 * The configuration tree (src/api/types.ts), as the parser actually fills it:
 * the child-block record is called `childrenBlocks`.
 */
module ConfigTypes {
  import opened Wrappers

  /** Language tag to display string; carried through, never interpreted. */
  type LocalizedText = map<string, string>

  /** The four declared kinds of a parameter value: "bool", "u32", "String", "usize". */
  datatype ParamType = Bool | U32 | Str | USize

  /** A leaf parameter; every value is carried as a string whatever its declared type. */
  datatype Param = Param(
    path: string,
    displayName: LocalizedText,
    desc: LocalizedText,
    paramType: ParamType,
    isRequired: bool,
    default: string,
    value: string)

  /** A non-block element: a path and its parameters. */
  datatype ConfigItem = ConfigItem(
    path: string,
    displayName: LocalizedText,
    desc: LocalizedText,
    params: seq<Param>)

  /**
   * A block: its own parameters, its leaf items, and its child blocks grouped by key.
   * `childrenBlocks` is a JavaScript record, held here as an association list from key to blocks.
   */
  datatype ConfigBlock = ConfigBlock(
    path: string,
    displayName: LocalizedText,
    desc: LocalizedText,
    params: seq<Param>,
    configItems: seq<ConfigItem>,
    childrenBlocks: seq<ChildGroup>)

  /** One entry `key: blocks` of a `childrenBlocks` record. */
  datatype ChildGroup = ChildGroup(key: string, blocks: seq<ConfigBlock>)

  /** `childrenBlocks[key]`: the blocks stored under `key`, if the key is present. */
  function Lookup(groups: seq<ChildGroup>, key: string): Option<seq<ConfigBlock>> {
    if |groups| == 0 then None
    else if groups[0].key == key then Some(groups[0].blocks)
    else Lookup(groups[1..], key)
  }

  /** A lookup succeeds exactly on the keys of the record, and returns the first such list. */
  lemma {:induction false} LookupSpec(groups: seq<ChildGroup>, key: string)
    ensures Lookup(groups, key).Some? <==> exists i :: 0 <= i < |groups| && groups[i].key == key
    ensures Lookup(groups, key).Some? ==>
      (exists i :: 0 <= i < |groups| && groups[i].key == key
        && groups[i].blocks == Lookup(groups, key).value
        && (forall j :: 0 <= j < i ==> groups[j].key != key))
    decreases |groups|
  {
    if |groups| > 0 && groups[0].key != key {
      LookupSpec(groups[1..], key);
      assert forall i :: 1 <= i < |groups| ==> groups[i] == groups[1..][i - 1];
      if Lookup(groups, key).Some? {
        var i :| 0 <= i < |groups[1..]| && groups[1..][i].key == key
          && groups[1..][i].blocks == Lookup(groups, key).value
          && (forall j :: 0 <= j < i ==> groups[1..][j].key != key);
        assert groups[i + 1] == groups[1..][i];
        forall j | 0 <= j < i + 1
          ensures groups[j].key != key
        {
          if j > 0 { assert groups[j] == groups[1..][j - 1]; }
        }
      }
    }
  }

  /** A record is well formed when its keys are distinct and no key holds an empty list. */
  ghost predicate WellFormed(groups: seq<ChildGroup>) {
    && (forall i, j :: 0 <= i < j < |groups| ==> groups[i].key != groups[j].key)
    && (forall i :: 0 <= i < |groups| ==> |groups[i].blocks| > 0)
  }

  /** Number of blocks stored across all keys. */
  function TotalBlocks(groups: seq<ChildGroup>): nat {
    if |groups| == 0 then 0 else |groups[0].blocks| + TotalBlocks(groups[1..])
  }

  /** The list under `key`, or the empty list when the key is absent. */
  function BlocksAt(groups: seq<ChildGroup>, key: string): seq<ConfigBlock> {
    Lookup(groups, key).GetOr([])
  }

  /**
   * `if (!groups[key]) groups[key] = []; groups[key].push(b)`: creates the key, at the end
   * of the record, only when a block of that key is appended.
   */
  function AppendBlock(groups: seq<ChildGroup>, key: string, b: ConfigBlock): (r: seq<ChildGroup>)
    ensures Lookup(r, key) == Some(BlocksAt(groups, key) + [b])
    ensures forall k :: k != key ==> Lookup(r, k) == Lookup(groups, k)
    ensures TotalBlocks(r) == TotalBlocks(groups) + 1
  {
    if |groups| == 0 then
      assert BlocksAt(groups, key) + [b] == [b];
      [ChildGroup(key, [b])]
    else if groups[0].key == key then
      var r := [ChildGroup(key, groups[0].blocks + [b])] + groups[1..];
      assert r[1..] == groups[1..];
      r
    else
      var rest := AppendBlock(groups[1..], key, b);
      var r := [groups[0]] + rest;
      assert r[1..] == rest;
      r
  }

  /** Appending keeps the keys distinct and every list non-empty. */
  lemma {:induction false} AppendBlockWellFormed(groups: seq<ChildGroup>, key: string, b: ConfigBlock)
    requires WellFormed(groups)
    ensures WellFormed(AppendBlock(groups, key, b))
    decreases |groups|
  {
    if |groups| == 0 {
      assert AppendBlock(groups, key, b) == [ChildGroup(key, [b])];
    } else if groups[0].key == key {
      var g := ChildGroup(key, groups[0].blocks + [b]);
      assert AppendBlock(groups, key, b) == [g] + groups[1..];
      TailWellFormed(groups);
      ConsWellFormed(g, groups[1..]);
    } else {
      var tail := groups[1..];
      TailWellFormed(groups);
      AppendBlockWellFormed(tail, key, b);
      AppendBlockKeys(tail, key, b);
      var rest := AppendBlock(tail, key, b);
      forall i | 0 <= i < |rest|
        ensures rest[i].key != groups[0].key
      {
        if rest[i].key != key {
          var j :| 0 <= j < |tail| && tail[j].key == rest[i].key;
          assert tail[j] == groups[j + 1];
        }
      }
      ConsWellFormed(groups[0], rest);
      assert AppendBlock(groups, key, b) == [groups[0]] + rest;
    }
  }

  lemma TailWellFormed(groups: seq<ChildGroup>)
    requires WellFormed(groups) && |groups| > 0
    ensures WellFormed(groups[1..])
    ensures forall i :: 0 <= i < |groups[1..]| ==> groups[1..][i].key != groups[0].key
  {
    assert forall i :: 0 <= i < |groups[1..]| ==> groups[1..][i] == groups[i + 1];
  }

  lemma ConsWellFormed(g: ChildGroup, rest: seq<ChildGroup>)
    requires WellFormed(rest) && |g.blocks| > 0
    requires forall i :: 0 <= i < |rest| ==> rest[i].key != g.key
    ensures WellFormed([g] + rest)
  {
    var r := [g] + rest;
    assert forall i :: 1 <= i < |r| ==> r[i] == rest[i - 1];
  }

  /** Every key after appending was there before, or is the appended key. */
  lemma {:induction false} AppendBlockKeys(groups: seq<ChildGroup>, key: string, b: ConfigBlock)
    ensures forall i :: 0 <= i < |AppendBlock(groups, key, b)| ==>
      AppendBlock(groups, key, b)[i].key == key ||
      exists j :: 0 <= j < |groups| && groups[j].key == AppendBlock(groups, key, b)[i].key
    decreases |groups|
  {
    if |groups| > 0 && groups[0].key != key {
      AppendBlockKeys(groups[1..], key, b);
      var rest := AppendBlock(groups[1..], key, b);
      forall i | 0 <= i < |rest|
        ensures rest[i].key == key || exists j :: 0 <= j < |groups| && groups[j].key == rest[i].key
      {
        if rest[i].key != key {
          var j :| 0 <= j < |groups[1..]| && groups[1..][j].key == rest[i].key;
          assert groups[j + 1].key == rest[i].key;
        }
      }
      assert AppendBlock(groups, key, b) == [groups[0]] + rest;
    }
  }
}
