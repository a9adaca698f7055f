/** Small shared pieces. */
module Prelude {
  datatype Option<+T> = None | Some(value: T)

  /** The next element of a Python set or dict iteration, in whatever order. */
  method AnyOf<T(==)>(s: set<T>) returns (x: T)
    requires s != {}
    ensures x in s
  {
    if forall y :: y !in s { assert false; }
    x :| x in s;
  }
}
