/** Shared value types. */
module Basics {
  datatype Option<+T> = None | Some(value: T)

  /** Field names, from the outside in. */
  type Path = seq<string>

  lemma EmptyOrInhabited<T(!new)>(s: set<T>)
    ensures s == {} || exists x :: x in s
  {
    if forall x: T :: x !in s {
      assert s == {};
    }
  }
}
