/** The one search the model needs in several places: the first element of
    a sequence that satisfies a condition, as Python's `str.find` and an
    SQL query's `.first()` return it. */
module Sequences {
  import opened Records

  function FirstIndex<T>(s: seq<T>, p: T -> bool): (r: Option<nat>)
    ensures r.Some? ==> r.value < |s| && p(s[r.value])
    ensures r.Some? ==> forall j :: 0 <= j < r.value ==> !p(s[j])
    ensures r.None? ==> forall j :: 0 <= j < |s| ==> !p(s[j])
  {
    if s == [] then None
    else if p(s[0]) then Some(0)
    else match FirstIndex(s[1..], p)
         case None => None
         case Some(k) => Some(k + 1)
  }
}
