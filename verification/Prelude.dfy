/** Result shapes shared by every module of the model. */
module Prelude {

  /** A nullable value of the source. */
  datatype Option<+T> = None | Some(value: T)

  /** A call of the source that either returns or throws. */
  datatype Result<+T, +E> = Success(value: T) | Failure(error: E)

  function Lookup<K, V>(m: map<K, V>, k: K): Option<V> {
    if k in m then Some(m[k]) else None
  }

  lemma EmptyWithoutMembers<T>(s: set<T>)
    requires forall x :: x !in s
    ensures s == {}
  {
    assert s == {};
  }

  /** What a loop needs to pick from a set that is not empty. */
  lemma SomeId(s: set<int>)
    requires s != {}
    ensures exists x :: x in s
  {
    if forall x: int :: x !in s {
      EmptyWithoutMembers(s);
    }
  }
}
