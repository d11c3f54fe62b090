/** Linear search, as the loops and single-row queries of the code do it. */
module Search {
  /** The first position whose element satisfies p, or the length. */
  function FirstIndex<T>(s: seq<T>, p: T -> bool): (i: nat)
    ensures i <= |s|
    ensures i < |s| ==> p(s[i])
    ensures forall j :: 0 <= j < i ==> !p(s[j])
  {
    if s == [] then 0 else if p(s[0]) then 0 else FirstIndex(s[1..], p) + 1
  }
}
