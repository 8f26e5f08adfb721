/** Types and sequence facts the other modules share. */
module Prelude {

  datatype Option<+T> = None | Some(value: T)

  datatype Result<+T, +E> = Ok(value: T) | Err(error: E)

  lemma LastApart<T>(a: seq<T>, b: seq<T>)
    requires b != []
    ensures a + b == (a + b[..|b| - 1]) + [b[|b| - 1]]
  {}

  lemma LastMember<T>(a: seq<T>, x: T)
    requires a != []
    ensures x in a <==> x in a[..|a| - 1] || x == a[|a| - 1]
  {
    assert a == a[..|a| - 1] + [a[|a| - 1]];
  }
}
