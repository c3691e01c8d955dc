/** Small generic helpers shared by the rest of the model. */
module Wrappers {

  /** An optional value: an optional field such as a deletion timestamp, or
      an "error or nil" result. */
  datatype Option<+T> = None | Some(value: T)

  /** The set of elements of a sequence. */
  function Elems<T>(s: seq<T>): set<T>
  {
    set x | x in s
  }

  /** True iff no element occurs twice in `s`. */
  predicate NoDuplicates<T(==)>(s: seq<T>)
  {
    forall i, j :: 0 <= i < j < |s| ==> s[i] != s[j]
  }
}
