/**
 * The display order of configuration items (src/components/ConfigItemTable.tsx): items are
 * stably sorted by a priority read off the second-to-last segment of their path.
 */
module ItemOrder {
  import opened Strings
  import opened ConfigTypes
  import opened PathBuilder

  /** A priority: the position in `["listen", "server_name"]`, or `Infinity`. */
  datatype Priority = Rank(n: nat) | Lowest

  /** The order the comparator induces: ranks by number, `Infinity` after every rank. */
  predicate Le(a: Priority, b: Priority) {
    b.Lowest? || (a.Rank? && a.n <= b.n)
  }

  /**
   * The sign of `getPriority(a) - getPriority(b)` as the sort reads it: `Infinity - Infinity`
   * is NaN, which the sort treats as 0 (equal).
   */
  function CompareSign(a: Priority, b: Priority): int {
    match (a, b)
    case (Rank(x), Rank(y)) => x - y
    case (Rank(_), Lowest) => -1
    case (Lowest, Rank(_)) => 1
    case (Lowest, Lowest) => 0
  }

  /** The comparator puts `a` no later than `b` exactly when `a` is at most `b` in the order. */
  lemma CompareSignIsOrder(a: Priority, b: Priority)
    ensures CompareSign(a, b) <= 0 <==> Le(a, b)
    ensures CompareSign(a, b) == 0 <==> a == b
  {
  }

  /** `getPriority(path)`: a path with fewer than two non-empty segments ranks lowest. */
  function GetPriority(path: string): (r: Priority)
    ensures r == Rank(0) || r == Rank(1) || r == Lowest
    ensures |NonEmpty(Split(path, '/'))| < 2 ==> r == Lowest
  {
    var parts := NonEmpty(Split(path, '/'));
    if |parts| < 2 then Lowest
    else
      var key := parts[|parts| - 2];
      if key == "listen" then Rank(0)
      else if key == "server_name" then Rank(1)
      else Lowest
  }

  /** The segments `getPriority` sees for an element path built by the parser. */
  lemma ElementParts(parentPath: string, key: string, index: nat, unique: bool)
    requires key != "" && '/' !in key
    ensures NonEmpty(Split(BuildElementPath(parentPath, key, index, unique), '/')) ==
      NonEmpty(Split(parentPath, '/')) + (if unique then [key] else [key, NatToString(index)])
  {
    ElementPathSegments(parentPath, key, index, unique);
    SingleSegment(key, '/');
    var tail := if unique then [key] else [key, NatToString(index)];
    assert Split(key, '/') + (if unique then [] else [NatToString(index)]) == tail;
    assert Split(parentPath, '/') + Split(key, '/') + (if unique then [] else [NatToString(index)])
      == Split(parentPath, '/') + tail;
    NonEmptyAppend(Split(parentPath, '/'), tail);
    NonEmptyKeeps(tail);
  }

  /** A non-unique item under key `listen` or `server_name` gets that key's rank. */
  lemma NonUniquePriority(parentPath: string, key: string, index: nat)
    requires key != "" && '/' !in key
    ensures GetPriority(BuildElementPath(parentPath, key, index, false)) ==
      (if key == "listen" then Rank(0) else if key == "server_name" then Rank(1) else Lowest)
  {
    ElementParts(parentPath, key, index, false);
  }

  /**
   * A unique element of the top-level record sits at `/<key>`: it has a single segment and
   * ranks lowest, a unique `listen` included.
   */
  lemma TopLevelUniquePriority(key: string, index: nat)
    requires key != "" && '/' !in key
    ensures GetPriority(BuildElementPath("", key, index, true)) == Lowest
  {
    ElementParts("", key, index, true);
    assert Split("", '/') == [""];
    assert NonEmpty([""]) == [];
    assert NonEmpty(Split(BuildElementPath("", key, index, true), '/')) == [key];
  }

  /** A unique item's second-to-last segment is the last segment of its parent's path. */
  lemma UniqueUnderSegment(blockPath: string, seg: string, key: string, index: nat)
    requires key != "" && '/' !in key && seg != "" && '/' !in seg
    ensures GetPriority(BuildElementPath(blockPath + "/" + seg, key, index, true)) ==
      (if seg == "listen" then Rank(0) else if seg == "server_name" then Rank(1) else Lowest)
  {
    var parent := blockPath + "/" + seg;
    ElementParts(parent, key, index, true);
    SingleSegment(seg, '/');
    assert parent == blockPath + ['/'] + seg;
    SplitAppend(blockPath, seg, '/');
    NonEmptyAppend(Split(blockPath, '/'), [seg]);
    NonEmptyKeeps([seg]);
  }

  /**
   * A unique item sits directly below `<block>/children`, so its second-to-last segment is
   * `children` and it gets the lowest priority whatever its key, `listen` included.
   */
  lemma UniquePriority(blockPath: string, key: string, index: nat)
    requires key != "" && '/' !in key
    ensures GetPriority(BuildElementPath(blockPath + "/children", key, index, true)) == Lowest
  {
    ChildrenSegment(blockPath);
    UniqueUnderSegment(blockPath, "children", key, index);
  }

  lemma ChildrenSegment(blockPath: string)
    ensures blockPath + "/children" == blockPath + "/" + "children"
    ensures "children" != "" && '/' !in "children"
    ensures "children" != "listen" && "children" != "server_name"
  {
  }

  /** The priority of an item, as the comparator computes it. */
  function PriorityOf(it: ConfigItem): Priority {
    GetPriority(it.path)
  }

  /**
   * `[...configItems].sort((a, b) => getPriority(a.path) - getPriority(b.path))`: a stable
   * sort of a copy (the input itself is left alone). The `listen` items come first, then the
   * `server_name` items, then the rest, each group in input order.
   */
  function SortItems(items: seq<ConfigItem>): (r: seq<ConfigItem>)
    ensures multiset(r) == multiset(items)
    ensures Sorted(r, PriorityOf)
  {
    PrioritiesKnown(items);
    SortIsPermutation(items, PriorityOf);
    SortIsSorted(items, PriorityOf);
    SortBy(items, PriorityOf)
  }

  /** The result keeps each priority group in input order, and no other order does so. */
  lemma SortItemsStableAndUnique(items: seq<ConfigItem>, out: seq<ConfigItem>)
    ensures forall p :: WithPriority(SortItems(items), PriorityOf, p) == WithPriority(items, PriorityOf, p)
    ensures Sorted(out, PriorityOf) && (forall p :: WithPriority(out, PriorityOf, p) == WithPriority(items, PriorityOf, p))
      ==> out == SortItems(items)
  {
    PrioritiesKnown(items);
    PrioritiesKnown(out);
    forall p
      ensures WithPriority(SortItems(items), PriorityOf, p) == WithPriority(items, PriorityOf, p)
    {
      SortIsStable(items, PriorityOf, p);
    }
    if Sorted(out, PriorityOf) && (forall p :: WithPriority(out, PriorityOf, p) == WithPriority(items, PriorityOf, p)) {
      SortIsUnique(items, out, PriorityOf);
    }
  }

  /** `getPriority` yields only 0, 1 or `Infinity`. */
  lemma PrioritiesKnown(items: seq<ConfigItem>)
    ensures AllKnown(items, PriorityOf)
  {
    forall i | 0 <= i < |items|
      ensures Known(PriorityOf(items[i]))
    {
      var _ := GetPriority(items[i].path);
    }
  }

  /** One of the three priorities `getPriority` yields: 0, 1 or `Infinity`. */
  predicate Known(p: Priority) {
    p == Rank(0) || p == Rank(1) || p == Lowest
  }

  /** Every item of the list has one of the three priorities. */
  ghost predicate AllKnown<T>(items: seq<T>, prio: T -> Priority) {
    forall i :: 0 <= i < |items| ==> Known(prio(items[i]))
  }

  /** The items of one priority, in their original order. */
  function WithPriority<T>(items: seq<T>, prio: T -> Priority, p: Priority): (r: seq<T>)
    ensures forall i :: 0 <= i < |r| ==> prio(r[i]) == p
    ensures |r| <= |items|
  {
    if |items| == 0 then []
    else (if prio(items[0]) == p then [items[0]] else []) + WithPriority(items[1..], prio, p)
  }

  /** The three priority groups laid end to end. */
  function SortBy<T>(items: seq<T>, prio: T -> Priority): seq<T> {
    WithPriority(items, prio, Rank(0)) + WithPriority(items, prio, Rank(1)) + WithPriority(items, prio, Lowest)
  }

  /** Non-decreasing priority. */
  ghost predicate Sorted<T>(items: seq<T>, prio: T -> Priority) {
    forall i, j :: 0 <= i < j < |items| ==> Le(prio(items[i]), prio(items[j]))
  }

  /** Filtering distributes over concatenation. */
  lemma {:induction false} WithPriorityAppend<T>(a: seq<T>, b: seq<T>, prio: T -> Priority, p: Priority)
    ensures WithPriority(a + b, prio, p) == WithPriority(a, prio, p) + WithPriority(b, prio, p)
    decreases |a|
  {
    if |a| == 0 {
      assert a + b == b;
    } else {
      assert (a + b)[1..] == a[1..] + b;
      WithPriorityAppend(a[1..], b, prio, p);
    }
  }

  /** A list all of whose items have priority `q` keeps everything under `q` and nothing else. */
  lemma {:induction false} WithPriorityUniform<T>(items: seq<T>, prio: T -> Priority, q: Priority, p: Priority)
    requires forall i :: 0 <= i < |items| ==> prio(items[i]) == q
    ensures WithPriority(items, prio, p) == if p == q then items else []
    decreases |items|
  {
    if |items| > 0 {
      WithPriorityUniform(items[1..], prio, q, p);
    }
  }

  /** The sorted list is a permutation of the input. */
  lemma {:induction false} SortIsPermutation<T>(items: seq<T>, prio: T -> Priority)
    requires AllKnown(items, prio)
    ensures multiset(SortBy(items, prio)) == multiset(items)
    decreases |items|
  {
    if |items| > 0 {
      var x, rest := items[0], items[1..];
      KnownTail(items, prio);
      SortIsPermutation(rest, prio);
      assert items == [x] + rest;
      SortByCons(items, prio);
    }
  }

  /** Sorting a list adds its head to the sort of its tail, as a multiset. */
  lemma SortByCons<T>(items: seq<T>, prio: T -> Priority)
    requires |items| > 0 && Known(prio(items[0]))
    ensures multiset(SortBy(items, prio)) == multiset{items[0]} + multiset(SortBy(items[1..], prio))
  {
    var x, rest := items[0], items[1..];
    var a, b, c := WithPriority(rest, prio, Rank(0)), WithPriority(rest, prio, Rank(1)), WithPriority(rest, prio, Lowest);
    var a', b', c' := WithPriority(items, prio, Rank(0)), WithPriority(items, prio, Rank(1)), WithPriority(items, prio, Lowest);
    MultisetOfThree(a, b, c);
    MultisetOfThree(a', b', c');
    GroupMultiset(items, prio, Rank(0));
    GroupMultiset(items, prio, Rank(1));
    GroupMultiset(items, prio, Lowest);
    assert items[1..] == rest;
    var tail := multiset(a) + multiset(b) + multiset(c);
    assert multiset(SortBy(rest, prio)) == tail;
    if prio(x) == Rank(0) {
      assert multiset(a') + multiset(b') + multiset(c') == multiset{x} + tail;
    } else if prio(x) == Rank(1) {
      assert multiset(a') + multiset(b') + multiset(c') == multiset{x} + tail;
    } else {
      assert multiset(a') + multiset(b') + multiset(c') == multiset{x} + tail;
    }
  }

  /** The group of `p` gains the head exactly when the head has priority `p`. */
  lemma GroupMultiset<T>(items: seq<T>, prio: T -> Priority, p: Priority)
    requires |items| > 0
    ensures multiset(WithPriority(items, prio, p)) ==
      (if prio(items[0]) == p then multiset{items[0]} else multiset{}) + multiset(WithPriority(items[1..], prio, p))
  {
  }

  lemma MultisetOfThree<T>(a: seq<T>, b: seq<T>, c: seq<T>)
    ensures multiset(a + b + c) == multiset(a) + multiset(b) + multiset(c)
  {
  }

  /** The sorted list is in non-decreasing priority. */
  lemma SortIsSorted<T>(items: seq<T>, prio: T -> Priority)
    ensures Sorted(SortBy(items, prio), prio)
  {
    var a, b, c := WithPriority(items, prio, Rank(0)), WithPriority(items, prio, Rank(1)), WithPriority(items, prio, Lowest);
    var out := a + b + c;
    forall i, j | 0 <= i < j < |out|
      ensures Le(prio(out[i]), prio(out[j]))
    {
      assert prio(out[i]) == (if i < |a| then Rank(0) else if i < |a| + |b| then Rank(1) else Lowest);
      assert prio(out[j]) == (if j < |a| then Rank(0) else if j < |a| + |b| then Rank(1) else Lowest);
    }
  }

  /** Stability: the items of each priority appear in the output in their input order. */
  lemma SortIsStable<T>(items: seq<T>, prio: T -> Priority, p: Priority)
    requires AllKnown(items, prio)
    ensures WithPriority(SortBy(items, prio), prio, p) == WithPriority(items, prio, p)
  {
    var a, b, c := WithPriority(items, prio, Rank(0)), WithPriority(items, prio, Rank(1)), WithPriority(items, prio, Lowest);
    WithPriorityAppend(a + b, c, prio, p);
    WithPriorityAppend(a, b, prio, p);
    WithPriorityUniform(a, prio, Rank(0), p);
    WithPriorityUniform(b, prio, Rank(1), p);
    WithPriorityUniform(c, prio, Lowest, p);
    if !Known(p) {
      AbsentPriority(items, prio, p);
    }
  }

  /** A sorted list is its three priority groups laid end to end. */
  lemma {:induction false} SortedIsGroups<T>(out: seq<T>, prio: T -> Priority)
    requires AllKnown(out, prio) && Sorted(out, prio)
    ensures out == SortBy(out, prio)
    decreases |out|
  {
    if |out| > 0 {
      var rest := out[1..];
      SortedSplit(out, prio);
      KnownTail(out, prio);
      SortedIsGroups(rest, prio);
      GroupsCons(out[0], rest, prio);
      assert out == [out[0]] + rest;
    }
  }

  lemma KnownTail<T>(items: seq<T>, prio: T -> Priority)
    requires |items| > 0 && AllKnown(items, prio)
    ensures Known(prio(items[0])) && AllKnown(items[1..], prio)
  {
    forall i | 0 <= i < |items[1..]|
      ensures Known(prio(items[1..][i]))
    {
      assert items[1..][i] == items[i + 1];
    }
  }

  /** The tail of a sorted list is sorted, and its head ranks no later than any of the rest. */
  lemma SortedSplit<T>(out: seq<T>, prio: T -> Priority)
    requires |out| > 0 && Sorted(out, prio)
    ensures Sorted(out[1..], prio)
    ensures forall i :: 0 <= i < |out[1..]| ==> Le(prio(out[0]), prio(out[1..][i]))
  {
    var rest := out[1..];
    forall i, j | 0 <= i < j < |rest|
      ensures Le(prio(rest[i]), prio(rest[j]))
    {
      assert rest[i] == out[i + 1] && rest[j] == out[j + 1];
    }
    forall i | 0 <= i < |rest|
      ensures Le(prio(out[0]), prio(rest[i]))
    {
      assert rest[i] == out[i + 1];
    }
  }

  /** Putting an item that ranks no later than the rest in front of a grouped list keeps it grouped. */
  lemma GroupsCons<T>(x: T, rest: seq<T>, prio: T -> Priority)
    requires Known(prio(x)) && rest == SortBy(rest, prio)
    requires forall i :: 0 <= i < |rest| ==> Le(prio(x), prio(rest[i]))
    ensures [x] + rest == SortBy([x] + rest, prio)
  {
    var out := [x] + rest;
    assert out[1..] == rest;
    var px := prio(x);
    if px == Rank(1) || px == Lowest {
      AbsentPriority(rest, prio, Rank(0));
    }
    if px == Lowest {
      AbsentPriority(rest, prio, Rank(1));
    }
  }

  /** When no item has priority `p`, its group is empty. */
  lemma {:induction false} AbsentPriority<T>(items: seq<T>, prio: T -> Priority, p: Priority)
    requires forall i :: 0 <= i < |items| ==> prio(items[i]) != p
    ensures WithPriority(items, prio, p) == []
    decreases |items|
  {
    if |items| > 0 {
      AbsentPriority(items[1..], prio, p);
    }
  }

  /**
   * The stable sort is the only possible result: any sorted list that keeps each priority
   * group in input order is exactly the concatenation of the groups.
   */
  lemma SortIsUnique<T>(items: seq<T>, out: seq<T>, prio: T -> Priority)
    requires AllKnown(out, prio) && AllKnown(items, prio) && Sorted(out, prio)
    requires forall p :: WithPriority(out, prio, p) == WithPriority(items, prio, p)
    ensures out == SortBy(items, prio)
  {
    SortedIsGroups(out, prio);
    assert WithPriority(out, prio, Rank(0)) == WithPriority(items, prio, Rank(0));
    assert WithPriority(out, prio, Rank(1)) == WithPriority(items, prio, Rank(1));
    assert WithPriority(out, prio, Lowest) == WithPriority(items, prio, Lowest);
  }
}
