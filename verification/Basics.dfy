/** Shared vocabulary: optional values, and sequences that list things once. */
module Basics {

  datatype Option<+T> = None | Some(value: T)

  ghost predicate Distinct<T>(s: seq<T>) {
    forall i, j :: 0 <= i < j < |s| ==> s[i] != s[j]
  }

  /** The sequence lists the elements of the set, each once. */
  ghost predicate Enumerates<T(!new)>(q: seq<T>, s: set<T>) {
    (forall x :: x in q <==> x in s) && Distinct(q)
  }
}
