/**
 * `getValue` (src/api/utils/configHelpers.ts): a dot-separated path resolver over the
 * parsed configuration seen as a JavaScript value.
 */
module ConfigHelpers {
  import opened Wrappers
  import opened Strings
  import opened ConfigTypes

  /** The JavaScript values the resolver walks: objects, arrays and scalars. */
  datatype Json =
    | JObject(fields: map<string, Json>)
    | JArray(elems: seq<Json>)
    | JString(s: string)
    | JNumber(n: int)
    | JBool(b: bool)
    | JNull

  /** One step `record[part]`, defined only when `part in record` holds. */
  function Step(current: Json, part: string): (r: Option<Json>)
    ensures r.Some? ==> current.JObject? || current.JArray?
    ensures current.JObject? ==> (r.Some? <==> part in current.fields)
    ensures current.JObject? && r.Some? ==> r.value == current.fields[part]
  {
    match current
    case JObject(fields) => if part in fields then Some(fields[part]) else None
    case JArray(elems) =>
      if IsIndex(part) && ParseNat(part) < |elems| then Some(elems[ParseNat(part)]) else None
    case _ => None
  }

  /** Follows the parts in order; the first failing step makes the whole walk fail. */
  function GetPath(current: Json, parts: seq<string>): Option<Json> {
    if |parts| == 0 then Some(current)
    else match Step(current, parts[0])
      case None => None
      case Some(next) => GetPath(next, parts[1..])
  }

  /**
   * `getValue(config, path)`: the path is split on `.` only. A scalar has no value under
   * any path, and a dot-free path is a single lookup.
   */
  function GetValue(config: Json, path: string): (r: Option<Json>)
    ensures !config.JObject? && !config.JArray? ==> r.None?
    ensures '.' !in path ==> r == Step(config, path)
  {
    DotFreePath(config, path);
    GetPath(config, Split(path, '.'))
  }

  lemma DotFreePath(config: Json, path: string)
    ensures '.' !in path ==> GetPath(config, Split(path, '.')) == Step(config, path)
  {
    if '.' !in path {
      SingleSegment(path, '.');
      OnePart(config, path);
    }
  }

  /** Walking `a + b` is walking `a`, then walking `b` from where `a` ended. */
  lemma {:induction false} GetPathAppend(current: Json, a: seq<string>, b: seq<string>)
    ensures GetPath(current, a + b) ==
      (match GetPath(current, a)
       case None => None
       case Some(mid) => GetPath(mid, b))
    decreases |a|
  {
    if |a| == 0 {
      assert a + b == b;
    } else {
      assert (a + b)[0] == a[0];
      assert (a + b)[1..] == a[1..] + b;
      match Step(current, a[0])
      case None =>
      case Some(next) => GetPathAppend(next, a[1..], b);
    }
  }

  /** Compositional: `getValue(c, a + "." + b)` resolves `b` from what `a` resolved to. */
  lemma GetValueCompose(config: Json, a: string, b: string)
    ensures GetValue(config, a + "." + b) ==
      (match GetValue(config, a)
       case None => None
       case Some(mid) => GetValue(mid, b))
  {
    assert a + "." + b == a + ['.'] + b;
    SplitAppend(a, b, '.');
    GetPathAppend(config, Split(a, '.'), Split(b, '.'));
  }

  /** A string, number, boolean or null has no keys: every path fails on it. */
  lemma ScalarHasNoPath(v: Json, path: string)
    requires !v.JObject? && !v.JArray?
    ensures GetValue(v, path) == None
  {
  }

  /** A dot-free path is a single key lookup; a missing key gives no value. */
  lemma SingleKeyLookup(config: Json, key: string)
    requires '.' !in key
    ensures GetValue(config, key) == Step(config, key)
    ensures config.JObject? ==> (GetValue(config, key).Some? <==> key in config.fields)
  {
    SingleSegment(key, '.');
    OnePart(config, key);
  }

  lemma OnePart(config: Json, part: string)
    ensures GetPath(config, [part]) == Step(config, part)
  {
    assert [part][1..] == [];
    match Step(config, part)
    case None =>
    case Some(next) => assert GetPath(next, []) == Some(next);
  }

  /** An in-bounds index selects that element; an index past the end gives no value. */
  lemma ArrayIndexLookup(elems: seq<Json>, i: nat)
    ensures GetValue(JArray(elems), NatToString(i)) ==
      (if i < |elems| then Some(elems[i]) else None)
  {
    SingleSegment(NatToString(i), '.');
    OnePart(JArray(elems), NatToString(i));
    IndexRoundTrip(NatToString(i));
  }

  /** Only canonical index strings reach into an array: `"01"` or `"x"` gives no value. */
  lemma ArrayNeedsIndex(elems: seq<Json>, part: string)
    requires !IsIndex(part)
    ensures Step(JArray(elems), part) == None
  {
  }

  /** The parsed tree as the object the parser builds, with the parser's field names. */
  function BlockJson(b: ConfigBlock): (j: Json)
    ensures j.JObject? && j.fields.Keys == BlockKeys
    decreases b, 0
  {
    JObject(map[
      "path" := JString(b.path),
      "display_name" := TextJson(b.displayName),
      "desc" := TextJson(b.desc),
      "params" := JArray(ParamsJson(b.params)),
      "configItems" := JArray(ItemsJson(b.configItems)),
      "childrenBlocks" := JObject(GroupsJson(b.childrenBlocks))])
  }

  /** The fixed field names of a parsed block. */
  const BlockKeys: set<string> :=
    {"path", "display_name", "desc", "params", "configItems", "childrenBlocks"}

  /** The `childrenBlocks` record: each key maps to the array of its blocks. */
  function GroupsJson(groups: seq<ChildGroup>): (m: map<string, Json>)
    decreases groups
  {
    if |groups| == 0 then map[]
    else GroupsJson(groups[1..])[groups[0].key := JArray(BlocksJson(groups[0].blocks))]
  }

  function BlocksJson(bs: seq<ConfigBlock>): (r: seq<Json>)
    ensures |r| == |bs|
    decreases bs
  {
    if |bs| == 0 then [] else [BlockJson(bs[0])] + BlocksJson(bs[1..])
  }

  function TextJson(t: LocalizedText): Json {
    JObject(map k | k in t :: JString(t[k]))
  }

  function ParamJson(p: Param): Json {
    JObject(map[
      "path" := JString(p.path),
      "display_name" := TextJson(p.displayName),
      "desc" := TextJson(p.desc),
      "type" := JString(TypeName(p.paramType)),
      "is_required" := JBool(p.isRequired),
      "default" := JString(p.default),
      "value" := JString(p.value)])
  }

  function TypeName(t: ParamType): string {
    match t
    case Bool => "bool"
    case U32 => "u32"
    case Str => "String"
    case USize => "usize"
  }

  function ParamsJson(ps: seq<Param>): (r: seq<Json>)
    ensures |r| == |ps|
  {
    if |ps| == 0 then [] else [ParamJson(ps[0])] + ParamsJson(ps[1..])
  }

  function ItemJson(it: ConfigItem): Json {
    JObject(map[
      "path" := JString(it.path),
      "display_name" := TextJson(it.displayName),
      "desc" := TextJson(it.desc),
      "params" := JArray(ParamsJson(it.params))])
  }

  function ItemsJson(items: seq<ConfigItem>): (r: seq<Json>)
    ensures |r| == |items|
  {
    if |items| == 0 then [] else [ItemJson(items[0])] + ItemsJson(items[1..])
  }

  /** Each block of a list is rendered at its own position. */
  lemma {:induction false} BlocksJsonAt(bs: seq<ConfigBlock>, i: nat)
    requires i < |bs|
    ensures BlocksJson(bs)[i] == BlockJson(bs[i])
    decreases i
  {
    if i > 0 {
      BlocksJsonAt(bs[1..], i - 1);
    }
  }

  /** A key of the record is present exactly when the association list holds it. */
  lemma {:induction false} GroupsJsonLookup(groups: seq<ChildGroup>, key: string)
    ensures key in GroupsJson(groups) <==> Lookup(groups, key).Some?
    ensures key in GroupsJson(groups) ==>
      GroupsJson(groups)[key] == JArray(BlocksJson(Lookup(groups, key).value))
    decreases |groups|
  {
    if |groups| > 0 && groups[0].key != key {
      GroupsJsonLookup(groups[1..], key);
    }
  }

  /**
   * `getValue(root, "childrenBlocks.<k1>.0.childrenBlocks.<k2>")`: the `k2` list of the first
   * `k1` block, whenever both groups exist.
   */
  lemma NestedGroupLookup(root: ConfigBlock, k1: string, k2: string,
                          outer: seq<ConfigBlock>, inner: seq<ConfigBlock>)
    requires '.' !in k1 && '.' !in k2
    requires Lookup(root.childrenBlocks, k1) == Some(outer) && |outer| > 0
    requires Lookup(outer[0].childrenBlocks, k2) == Some(inner)
    ensures GetValue(BlockJson(root), "childrenBlocks" + "." + (k1 + "." + ("0" + "." + ("childrenBlocks" + "." + k2))))
      == Some(JArray(BlocksJson(inner)))
  {
    var j1 := JObject(GroupsJson(root.childrenBlocks));
    var j2 := JArray(BlocksJson(outer));
    var j3 := BlockJson(outer[0]);
    var j4 := JObject(GroupsJson(outer[0].childrenBlocks));
    GroupsJsonLookup(root.childrenBlocks, k1);
    BlocksJsonAt(outer, 0);
    GroupsJsonLookup(outer[0].childrenBlocks, k2);
    SingleKeyLookup(BlockJson(root), "childrenBlocks");
    SingleKeyLookup(j1, k1);
    ArrayIndexLookup(BlocksJson(outer), 0);
    assert NatToString(0) == "0";
    SingleKeyLookup(j3, "childrenBlocks");
    SingleKeyLookup(j4, k2);
    var p4 := "childrenBlocks" + "." + k2;
    var p3 := "0" + "." + p4;
    var p2 := k1 + "." + p3;
    GetValueCompose(j3, "childrenBlocks", k2);
    GetValueCompose(j2, "0", p4);
    GetValueCompose(j1, k1, p3);
    GetValueCompose(BlockJson(root), "childrenBlocks", p2);
  }

  /** The lookup the server selector performs yields the server list of the first `http` block. */
  lemma ServerListLookup(root: ConfigBlock, https: seq<ConfigBlock>, servers: seq<ConfigBlock>)
    requires Lookup(root.childrenBlocks, "http") == Some(https) && |https| > 0
    requires Lookup(https[0].childrenBlocks, "server") == Some(servers)
    ensures GetValue(BlockJson(root), "childrenBlocks.http.0.childrenBlocks.server")
      == Some(JArray(BlocksJson(servers)))
  {
    ServerListPath();
    NestedGroupLookup(root, "http", "server", https, servers);
  }

  lemma ServerListPath()
    ensures "childrenBlocks.http.0.childrenBlocks.server"
      == "childrenBlocks" + "." + ("http" + "." + ("0" + "." + ("childrenBlocks" + "." + "server")))
  {
  }

  /**
   * The slash paths the pages pass (`/http/children/server/0`, ...) contain no `.` before
   * their first slash, so they are one key lookup that no parsed block has: always undefined.
   */
  lemma SlashPathMisses(b: ConfigBlock, path: string)
    requires |path| > 0 && path[0] == '/'
    ensures GetValue(BlockJson(b), path) == None
  {
    var first := Split(path, '.')[0];
    SplitHead(path, '.');
    assert first !in BlockKeys by {
      assert first[0] == '/';
    }
  }

  /** The first part of a split starts with the string's first character, unless that is the separator. */
  lemma SplitHead(s: string, sep: char)
    requires |s| > 0 && s[0] != sep
    ensures |Split(s, sep)[0]| > 0 && Split(s, sep)[0][0] == s[0]
  {
  }
}
