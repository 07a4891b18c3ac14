/** Sequences seen as sets. */
module Collections {

  function Elements<T(==)>(xs: seq<T>): set<T> {
    set x | x in xs
  }

  predicate Distinct<T(==)>(xs: seq<T>) {
    forall i, j :: 0 <= i < j < |xs| ==> xs[i] != xs[j]
  }

  function Max(a: nat, b: nat): nat {
    if a < b then b else a
  }
}
