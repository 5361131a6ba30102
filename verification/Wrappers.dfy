/** Small shared vocabulary. */
module Wrappers {

  datatype Option<+T> = None | Some(value: T)

  function OrElse<T>(a: Option<T>, b: Option<T>): Option<T> {
    if a.Some? then a else b
  }

  function OrDefault<T>(a: Option<T>, b: T): T {
    if a.Some? then a.value else b
  }

  function Max(a: int, b: int): int {
    if a >= b then a else b
  }

  function Min(a: int, b: int): int {
    if a <= b then a else b
  }

  /** The first row with the given key in a column. */
  function FirstIndex<T, K(==)>(rows: seq<T>, column: T -> K, key: K): (i: Option<nat>)
    ensures i.Some? ==> i.value < |rows| && column(rows[i.value]) == key
    ensures i.None? ==> forall j :: 0 <= j < |rows| ==> column(rows[j]) != key
  {
    if rows == [] then None
    else
      var i := FirstIndex(rows[..|rows| - 1], column, key);
      if i.Some? then i else if column(rows[|rows| - 1]) == key then Some(|rows| - 1) else None
  }
}
