/** What several tables need of lists: no repetition within a list, no
    overlap between two lists, and `list.index`. */
module Lists {

  import opened Wrappers

  predicate Distinct<T(==)>(s: seq<T>) {
    forall i, j :: 0 <= i < j < |s| ==> s[i] != s[j]
  }

  predicate Disjoint<T(==)>(a: seq<T>, b: seq<T>) {
    forall i, j :: 0 <= i < |a| && 0 <= j < |b| ==> a[i] != b[j]
  }

  /** Python's `list.index(x)`: the first position holding `x`, or `None`
      where Python raises `ValueError`. */
  function FirstIndex<T(==)>(s: seq<T>, x: T): (i: Option<nat>)
    ensures i.Some? ==> i.value < |s| && s[i.value] == x
    ensures i.Some? ==> forall j :: 0 <= j < i.value ==> s[j] != x
    ensures i.None? ==> x !in s
  {
    if |s| == 0 then None
    else if s[0] == x then Some(0)
    else match FirstIndex(s[1..], x)
      case Some(k) => Some(k + 1)
      case None => None
  }
}
