/** Values that may be absent: the C# code uses `null` for "not found" and for
    "the user cancelled"; the model uses Option instead. */
module Basics {

  datatype Option<T> = None | Some(value: T)

  /** No two positions of `s` hold the same value. */
  predicate Distinct<T(==)>(s: seq<T>) {
    forall i, j :: 0 <= i < j < |s| ==> s[i] != s[j]
  }
}
