/**
 * PathBuilder of src/api/parser.ts: the only place a path string is made.
 * A path is a '/'-separated list of segments; a parameter adds `params/<index>`,
 * an element adds its key and, unless it is unique, its array position.
 */
module PathBuilder {
  import opened Wrappers
  import opened Strings

  /** `${parentPath}/params/${index}` */
  function BuildParamPath(parentPath: string, index: nat): (r: string)
    ensures parentPath <= r && |r| > |parentPath|
  {
    parentPath + "/params/" + NatToString(index)
  }

  /** A parameter path is its owner's segments followed by `params` and the index. */
  lemma ParamPathSegments(parentPath: string, index: nat)
    ensures Split(BuildParamPath(parentPath, index), '/') == Split(parentPath, '/') + ["params", NatToString(index)]
  {
    var d := NatToString(index);
    var p := "params";
    var tail := p + ['/'] + d;
    assert Split(tail, '/') == [p, d] by {
      SplitAppend(p, d, '/');
      SingleSegment(p, '/');
      SingleSegment(d, '/');
    }
    assert parentPath + "/params/" + d == parentPath + ['/'] + tail;
    SplitAppend(parentPath, tail, '/');
  }

  /** `unique ? ${parentPath}/${key} : ${parentPath}/${key}/${index}` */
  function BuildElementPath(parentPath: string, key: string, index: nat, unique: bool): (r: string)
    ensures parentPath <= r && |r| > |parentPath|
  {
    if unique then parentPath + "/" + key
    else parentPath + "/" + key + "/" + NatToString(index)
  }

  /**
   * An element path is its parent's segments, the key's segments, and the index segment
   * exactly when the element is not unique.
   */
  lemma ElementPathSegments(parentPath: string, key: string, index: nat, unique: bool)
    ensures Split(BuildElementPath(parentPath, key, index, unique), '/')
      == Split(parentPath, '/') + Split(key, '/') + (if unique then [] else [NatToString(index)])
  {
    SplitAppend(parentPath, key, '/');
    if !unique {
      var d := NatToString(index);
      SplitAppend(parentPath + "/" + key, d, '/');
      SingleSegment(d, '/');
    }
  }

  /** The index argument plays no part in the path of a unique element. */
  lemma UniqueIgnoresIndex(parentPath: string, key: string, i: nat, j: nat)
    ensures BuildElementPath(parentPath, key, i, true) == BuildElementPath(parentPath, key, j, true)
  {
  }

  /** Non-unique siblings under one key get distinct paths. */
  lemma SiblingPathsDistinct(parentPath: string, key: string, i: nat, j: nat)
    requires i != j
    ensures BuildElementPath(parentPath, key, i, false) != BuildElementPath(parentPath, key, j, false)
  {
    ElementPathSegments(parentPath, key, i, false);
    ElementPathSegments(parentPath, key, j, false);
    var si := Split(BuildElementPath(parentPath, key, i, false), '/');
    var sj := Split(BuildElementPath(parentPath, key, j, false), '/');
    assert si[|si| - 1] == NatToString(i);
    assert sj[|sj| - 1] == NatToString(j);
  }

  /**
   * The inverse of `BuildParamPath`: the owner path and the declared index, read back from
   * a path whose last two segments are `params` and a canonical index.
   */
  function ParamPathParts(path: string): Option<(string, nat)> {
    var parts := Split(path, '/');
    var n := |parts|;
    if n >= 3 && parts[n - 2] == "params" && IsIndex(parts[n - 1]) then
      Some((Join(parts[..n - 2], '/'), ParseNat(parts[n - 1])))
    else
      None
  }

  /** Round trip: a parameter path gives back the owner and index it was built from. */
  lemma ParamPathRoundTrip(owner: string, index: nat)
    ensures ParamPathParts(BuildParamPath(owner, index)) == Some((owner, index))
  {
    ParamPathSegments(owner, index);
    var parts := Split(BuildParamPath(owner, index), '/');
    assert parts[..|parts| - 2] == Split(owner, '/');
  }

  /** And back: whatever `ParamPathParts` accepts is exactly the parameter path it decomposes. */
  lemma ParamPathPartsSound(path: string)
    requires ParamPathParts(path).Some?
    ensures BuildParamPath(ParamPathParts(path).value.0, ParamPathParts(path).value.1) == path
  {
    var parts := Split(path, '/');
    var n := |parts|;
    var init := parts[..n - 2];
    var last := parts[n - 1];
    var owner := Join(init, '/');
    var index := ParseNat(last);
    assert ParamPathParts(path).value == (owner, index);
    assert forall i :: 0 <= i < |init| ==> init[i] == parts[i];
    SplitJoin(init, '/');
    IndexRoundTrip(last);
    var built := BuildParamPath(owner, index);
    ParamPathSegments(owner, index);
    assert Split(built, '/') == init + ["params", last];
    assert init + ["params", last] == parts;
    assert built == Join(Split(built, '/'), '/');
    assert path == Join(parts, '/');
  }
}
