/** Small helpers shared by the model: an optional value and the first-match search that
    JavaScript's `Array.prototype.find` performs. */
module Util {

  /** An optional value: `None` stands for a property that is `undefined` (or `null`). */
  datatype Option<+T> = None | Some(value: T) {
    function GetOr(default: T): T {
      match this
      case Some(v) => v
      case None => default
    }
  }

  /** The index of the first element of `s` that satisfies `p`, or `None` when no element does.
      `s.find(p)` returns `s[k]` for the `k` found here, and `undefined` for `None`. */
  function FindIndex<T>(s: seq<T>, p: T -> bool): (r: Option<nat>)
    ensures r.Some? ==> r.value < |s| && p(s[r.value])
    ensures r.Some? ==> forall j :: 0 <= j < r.value ==> !p(s[j])
    ensures r.None? <==> forall j :: 0 <= j < |s| ==> !p(s[j])
  {
    if s == [] then None
    else if p(s[0]) then Some(0)
    else
      match FindIndex(s[1..], p)
      case None => None
      case Some(k) => Some(k + 1)
  }
}
