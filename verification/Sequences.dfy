/** Sequences seen as collections. */
module Sequences {

  function Elements<T>(s: seq<T>): set<T> { set x | x in s }

  ghost predicate NoRepeats<T(!new)>(s: seq<T>) {
    forall i, j :: 0 <= i < j < |s| ==> s[i] != s[j]
  }
}
