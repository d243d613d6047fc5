/** What several modules share: a value that may be missing, and small notions about numbers and lists. */
module Wrappers {
  datatype Option<T> = None | Some(value: T)

  function Min(a: int, b: int): int {
    if a < b then a else b
  }

  ghost predicate Distinct(s: seq<nat>) {
    forall i, j :: 0 <= i < j < |s| ==> s[i] != s[j]
  }
}
