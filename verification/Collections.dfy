/** Small definitions the other modules share. */
module Collections {

  datatype Option<T> = None | Some(value: T)

  predicate NoDuplicates<T(==)>(xs: seq<T>) {
    forall i, j :: 0 <= i < j < |xs| ==> xs[i] != xs[j]
  }

  function Names(xs: seq<string>): (r: set<string>)
    ensures forall x :: x in r <==> x in xs
  {
    set x | x in xs
  }
}
