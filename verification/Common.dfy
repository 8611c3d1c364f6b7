/** What several components share. */
module Common {
  datatype Option<+V> = None | Some(value: V)

  /** No element occurs twice. */
  ghost predicate Distinct<T>(s: seq<T>) {
    forall i, j :: 0 <= i < j < |s| ==> s[i] != s[j]
  }
}
