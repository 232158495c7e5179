/** Optional values, used where the page's code yields `null`/`undefined` or "no match". */
module Wrappers {
  datatype Option<+T> = None | Some(value: T)
}

/** Searching a sequence. */
module Sequences {
  import opened Wrappers

  /** The index of the first `x` in `s`, if any: the index holds `x` and no
      earlier one does; no result means `x` does not occur. */
  function FirstIndex<T(==)>(s: seq<T>, x: T): (r: Option<nat>)
    ensures r.None? ==> x !in s
    ensures r.Some? ==> r.value < |s| && s[r.value] == x &&
                        forall j :: 0 <= j < r.value ==> s[j] != x
  {
    if s == [] then None
    else if s[0] == x then Some(0)
    else match FirstIndex(s[1..], x)
      case None => None
      case Some(k) => Some(k + 1)
  }
}
