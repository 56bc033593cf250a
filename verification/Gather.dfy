/** Loops that gather a list and stop at the first error. */
module Gather {
  import opened Machine

  /** The whole result is what was gathered so far followed by what is still to come. */
  predicate SoFar<T(==), E(==)>(all: Result<seq<T>, E>, done: seq<T>, rest: Result<seq<T>, E>) {
    all == match rest case Err(e) => Err(e) case Ok(later) => Ok(done + later)
  }

  lemma SoFarStart<T, E>(all: Result<seq<T>, E>)
    ensures SoFar(all, [], all)
  {
    assert all.Ok? ==> [] + all.value == all.value;
  }

  lemma SoFarOneMore<T, E>(all: Result<seq<T>, E>, done: seq<T>, next: T, rest: Result<seq<T>, E>)
    requires SoFar(all, done, match rest case Err(e) => Err(e) case Ok(later) => Ok([next] + later))
    ensures SoFar(all, done + [next], rest)
  {
    if rest.Ok? {
      assert done + ([next] + rest.value) == done + [next] + rest.value;
    }
  }

  lemma SoFarErr<T, E>(all: Result<seq<T>, E>, done: seq<T>, e: E)
    requires SoFar(all, done, Err(e))
    ensures all == Err(e)
  {
  }

  lemma SoFarEnd<T, E>(all: Result<seq<T>, E>, done: seq<T>)
    requires SoFar(all, done, Ok([]))
    ensures all == Ok(done)
  {
    assert done + [] == done;
  }
}
