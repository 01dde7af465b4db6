/** The first-match search behind `Array.prototype.find` over a cart and
    behind `findOne` / `findById` over the user collection. */
module Lookup {
  import opened Common

  /** Index of the first element satisfying `matches`, or None. */
  function FirstMatch<T>(s: seq<T>, matches: T -> bool): (r: Option<nat>)
    ensures r.None? <==> forall i :: 0 <= i < |s| ==> !matches(s[i])
    ensures r.Some? ==> r.value < |s| && matches(s[r.value])
    ensures r.Some? ==> forall k :: 0 <= k < r.value ==> !matches(s[k])
  {
    if |s| == 0 then None
    else if matches(s[0]) then Some(0)
    else match FirstMatch(s[1..], matches)
      case None => None
      case Some(i) => Some(i + 1)
  }
}
