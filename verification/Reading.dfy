/** How the outcome of a reader's call relates to what should be read at its position. */
module Reading {
  import opened Bytes

  /** What a call that takes something promises about its result and about where it leaves the reader. */
  predicate Took<T(==), E(==)>(spec: Result<(T, nat), E>, r: Result<T, E>, position: nat) {
    match spec
    case Ok((v, end)) => r == Ok(v) && position == end
    case Err(fault) => r == Err(fault)
  }

  /** The same for a call that only moves on. */
  predicate Moved<E(==)>(spec: Result<nat, E>, r: Result<(), E>, position: nat) {
    match spec
    case Ok(end) => r == Ok(()) && position == end
    case Err(fault) => r == Err(fault)
  }

  function Discard<T, E>(r: Result<T, E>): Result<(), E> {
    match r
    case Ok(_) => Ok(())
    case Err(fault) => Err(fault)
  }

  /** Two reads fail alike or end at the same place. */
  predicate SameOutcome<T, U, E(==)>(a: Result<(T, nat), E>, b: Result<(U, nat), E>) {
    match a
    case Ok((_, end)) => b.Ok? && b.value.1 == end
    case Err(fault) => b == Err(fault)
  }

  /** `rest` is what is still to come after the items in `done`; `whole` is all of it. */
  predicate Continues<T(==), E(==)>(done: seq<T>, rest: Result<(seq<T>, nat), E>, whole: Result<(seq<T>, nat), E>) {
    match rest
    case Ok((items, end)) => whole == Ok((done + items, end))
    case Err(fault) => whole == Err(fault)
  }

  lemma ContinuesEmpty<T, E>(whole: Result<(seq<T>, nat), E>)
    ensures Continues([], whole, whole)
  {
    if whole.Ok? {
      assert [] + whole.value.0 == whole.value.0;
    }
  }

  lemma ContinuesOne<T, E>(done: seq<T>, item: T, rest: Result<(seq<T>, nat), E>, whole: Result<(seq<T>, nat), E>)
    requires match rest
             case Ok((items, end)) => Continues(done, Ok(([item] + items, end)), whole)
             case Err(fault) => Continues(done, rest, whole)
    ensures Continues(done + [item], rest, whole)
  {
    if rest.Ok? {
      assert done + ([item] + rest.value.0) == done + [item] + rest.value.0;
    }
  }
}
