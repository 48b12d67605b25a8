/** Searching sequences, as `Array.prototype.find` and `querySelector` do. */
module Seqs {
  import opened Wrappers

  /** No element occurs twice in s. */
  predicate Distinct<T(==)>(s: seq<T>) {
    forall i, j :: 0 <= i < j < |s| ==> s[i] != s[j]
  }

  /** The index of the first occurrence of x in s, if there is one. */
  function FirstIndex<T(==)>(s: seq<T>, x: T): (r: Option<nat>)
    ensures r.Some? ==> r.value < |s| && s[r.value] == x
    ensures r.Some? ==> forall j :: 0 <= j < r.value ==> s[j] != x
    ensures r.None? <==> x !in s
  {
    if s == [] then None
    else if s[0] == x then Some(0)
    else match FirstIndex(s[1..], x)
      case None => None
      case Some(k) => Some(k + 1)
  }

  /** In a sequence without repetitions, the first occurrence of s[j] is j itself. */
  lemma FirstIndexOfDistinct<T>(s: seq<T>, j: nat)
    requires Distinct(s) && j < |s|
    ensures FirstIndex(s, s[j]) == Some(j)
  {
  }
}
