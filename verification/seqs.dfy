/** First-match search over sequences, as JavaScript's `Array.prototype.find`. */
module Seqs {
  import opened Wrappers

  /** The position of the first element satisfying `f`, if any. */
  function FindFirst<T>(xs: seq<T>, f: T -> bool): (r: Option<nat>)
    ensures r.Some? ==> r.value < |xs| && f(xs[r.value])
    ensures r.Some? ==> forall j :: 0 <= j < r.value ==> !f(xs[j])
    ensures r.None? ==> forall i :: 0 <= i < |xs| ==> !f(xs[i])
  {
    if |xs| == 0 then None
    else if f(xs[0]) then Some(0)
    else
      match FindFirst(xs[1..], f)
      case None => None
      case Some(i) => Some(i + 1)
  }

  /** `xs.find(f)`: the first element satisfying `f`, if any. */
  function Find<T>(xs: seq<T>, f: T -> bool): (r: Option<T>)
    ensures r.Some? <==> FindFirst(xs, f).Some?
    ensures r.Some? ==> r.value == xs[FindFirst(xs, f).value]
  {
    match FindFirst(xs, f)
    case None => None
    case Some(i) => Some(xs[i])
  }
}
