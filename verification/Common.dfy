/** Definitions shared by several models. */
module Common {

  datatype Option<T> = None | Some(value: T)

  ghost predicate NoDup(s: seq<nat>) { forall i, j :: 0 <= i < j < |s| ==> s[i] != s[j] }
}
