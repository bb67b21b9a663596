/**
 * The tree parser of src/api/parser.ts: turns the raw wire record into a `ConfigBlock`
 * tree, giving every block, item and parameter its path through `PathBuilder`.
 *
 * The source fills blocks by pushing into mutable arrays while it walks the raw children
 * (`Object.entries` order, then array order). Here that walk is a fold with an
 * accumulator; `Collect` over the flat list of placed children is its reference meaning.
 */
module Parser {
  import opened Wrappers
  import opened ConfigTypes
  import opened PathBuilder

  datatype RawParam = RawParam(
    index: nat,
    displayName: LocalizedText,
    desc: LocalizedText,
    paramType: ParamType,
    isRequired: bool,
    default: string,
    value: string)

  /** A raw element; a missing `children` record is the empty record here (both parse alike). */
  datatype RawElement = RawElement(
    isBlock: bool,
    unique: bool,
    displayName: LocalizedText,
    desc: LocalizedText,
    params: seq<RawParam>,
    children: seq<RawChildEntry>)

  /** One entry `key: elements` of a raw `children` record. */
  datatype RawChildEntry = RawChildEntry(key: string, elements: seq<RawElement>)

  /** One entry `key: element` of the top-level raw record. */
  datatype RawRootEntry = RawRootEntry(key: string, element: RawElement)

  type RawConfig = seq<RawRootEntry>

  /** What has been pushed so far into a block's `configItems` and `childrenBlocks`. */
  datatype Children = Children(items: seq<ConfigItem>, groups: seq<ChildGroup>)

  const NoChildren := Children([], [])

  /** Number of children pushed so far: items plus blocks across all keys. */
  function Size(c: Children): nat {
    |c.items| + TotalBlocks(c.groups)
  }

  /** Number of raw child elements across all keys. */
  function CountElements(entries: seq<RawChildEntry>): nat {
    if |entries| == 0 then 0 else |entries[0].elements| + CountElements(entries[1..])
  }

  /** Reads a parsed parameter back as its owner path and raw form. */
  function RecoverParam(p: Param): Option<(string, RawParam)> {
    match ParamPathParts(p.path)
    case None => None
    case Some((owner, index)) =>
      Some((owner, RawParam(index, p.displayName, p.desc, p.paramType, p.isRequired, p.default, p.value)))
  }

  /** `ParamParser.parse`: the path uses the declared `index`; every other field is copied. */
  function ParseParam(raw: RawParam, parentPath: string): (p: Param)
    ensures RecoverParam(p) == Some((parentPath, raw))
  {
    ParamPathRoundTrip(parentPath, raw.index);
    Param(BuildParamPath(parentPath, raw.index), raw.displayName, raw.desc,
          raw.paramType, raw.isRequired, raw.default, raw.value)
  }

  /** `rawParams.map(p => ParamParser.parse(p, ownerPath))` */
  function ParseParams(raws: seq<RawParam>, ownerPath: string): (ps: seq<Param>)
    ensures |ps| == |raws|
    ensures forall i :: 0 <= i < |ps| ==> RecoverParam(ps[i]) == Some((ownerPath, raws[i]))
  {
    if |raws| == 0 then []
    else [ParseParam(raws[0], ownerPath)] + ParseParams(raws[1..], ownerPath)
  }

  /** `ConfigElementParser.parseItem` */
  function ParseItem(raw: RawElement, parentPath: string, key: string, index: nat): (it: ConfigItem)
    ensures it.path == BuildElementPath(parentPath, key, index, raw.unique)
    ensures |it.params| == |raw.params|
    ensures forall i :: 0 <= i < |it.params| ==> RecoverParam(it.params[i]) == Some((it.path, raw.params[i]))
  {
    var path := BuildElementPath(parentPath, key, index, raw.unique);
    ConfigItem(path, raw.displayName, raw.desc, ParseParams(raw.params, path))
  }

  /** A parsed child, before it is pushed: a leaf item, or a block under its key. */
  datatype Placed = PlacedItem(item: ConfigItem) | PlacedBlock(key: string, block: ConfigBlock)

  /** The push of `parseChildren`/`parseChildBlock`: items to `configItems`, blocks to their key. */
  function AddPlaced(acc: Children, p: Placed): (r: Children)
    ensures acc.items <= r.items && Size(r) == Size(acc) + 1
  {
    match p
    case PlacedItem(it) => Children(acc.items + [it], acc.groups)
    case PlacedBlock(k, b) => Children(acc.items, AppendBlock(acc.groups, k, b))
  }

  /** `ConfigElementParser.parseBlock` for a block reached under `key` at array position `index`. */
  function ParseBlock(raw: RawElement, parentPath: string, key: string, index: nat): (b: ConfigBlock)
    ensures b.path == BuildElementPath(parentPath, key, index, raw.unique)
    ensures |b.params| == |raw.params|
    ensures forall i :: 0 <= i < |b.params| ==> RecoverParam(b.params[i]) == Some((b.path, raw.params[i]))
    ensures |b.configItems| + TotalBlocks(b.childrenBlocks) == CountElements(raw.children)
    decreases raw, 0
  {
    var path := BuildElementPath(parentPath, key, index, raw.unique);
    var kids := ParseEntries(raw.children, path + "/children", NoChildren);
    ConfigBlock(path, raw.displayName, raw.desc, ParseParams(raw.params, path), kids.items, kids.groups)
  }

  /** `parseChildren`, over the record entries in order. */
  function ParseEntries(entries: seq<RawChildEntry>, parentPath: string, acc: Children): (r: Children)
    ensures acc.items <= r.items
    ensures Size(r) == Size(acc) + CountElements(entries)
    decreases entries
  {
    if |entries| == 0 then acc
    else
      var next := ParseArray(entries[0].key, entries[0].elements, 0, parentPath, acc);
      ParseEntries(entries[1..], parentPath, next)
  }

  /** `childArray.forEach((child, index) => ...)`, from position `j` on. */
  function ParseArray(key: string, xs: seq<RawElement>, j: nat, parentPath: string, acc: Children): (r: Children)
    requires j <= |xs|
    ensures acc.items <= r.items
    ensures Size(r) == Size(acc) + |xs| - j
    decreases xs, |xs| - j
  {
    if j == |xs| then acc
    else ParseArray(key, xs, j + 1, parentPath, AddPlaced(acc, Place(key, xs[j], parentPath, j)))
  }

  /** A child element parsed at its position: a block if `is_block`, otherwise an item. */
  function Place(key: string, e: RawElement, parentPath: string, index: nat): (p: Placed)
    ensures p.PlacedBlock? <==> e.isBlock
    ensures p.PlacedBlock? ==> p.key == key && p.block.path == BuildElementPath(parentPath, key, index, e.unique)
    ensures p.PlacedItem? ==> p.item.path == BuildElementPath(parentPath, key, index, e.unique)
    decreases e, 1
  {
    if e.isBlock then PlacedBlock(key, ParseBlock(e, parentPath, key, index))
    else PlacedItem(ParseItem(e, parentPath, key, index))
  }

  /** The synthetic root of `RootConfigParser.parse`. */
  function ParseRoot(rc: RawConfig): (root: ConfigBlock)
    ensures root.path == "" && root.params == []
    ensures |root.configItems| + TotalBlocks(root.childrenBlocks) == |rc|
  {
    var kids := ParseRootEntries(rc, NoChildren);
    ConfigBlock("", map["zh-tw" := "根"], map["zh-tw" := ""], [], kids.items, kids.groups)
  }

  /** Each top-level entry is parsed with parent path `""` and index 0. */
  function ParseRootEntries(rc: RawConfig, acc: Children): (r: Children)
    ensures acc.items <= r.items
    ensures Size(r) == Size(acc) + |rc|
  {
    if |rc| == 0 then acc
    else ParseRootEntries(rc[1..], AddPlaced(acc, Place(rc[0].key, rc[0].element, "", 0)))
  }

  /** `parseRawConfig` */
  function ParseRawConfig(rc: RawConfig): (root: ConfigBlock)
    ensures root.path == "" && root.params == []
    ensures |root.configItems| + TotalBlocks(root.childrenBlocks) == |rc|
  {
    ParseRoot(rc)
  }
}
