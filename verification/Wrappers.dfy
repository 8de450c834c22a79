/** Values the Go code returns alongside an `error`, and optional columns. */
module Wrappers {

  datatype Option<+T> = None | Some(value: T)

  datatype Result<+T> = Ok(value: T) | Err

  /** A result list with elements put in front of it. */
  function Prepended<T>(xs: seq<T>, r: Result<seq<T>>): Result<seq<T>> {
    if r.Err? then Err else Ok(xs + r.value)
  }

  lemma PrependedNothing<T>(r: Result<seq<T>>)
    ensures Prepended([], r) == r
  {
    if r.Ok? {
      assert [] + r.value == r.value;
    }
  }

  lemma PrependedTwice<T>(a: seq<T>, b: seq<T>, r: Result<seq<T>>)
    ensures Prepended(a, Prepended(b, r)) == Prepended(a + b, r)
  {
    if r.Ok? {
      assert a + (b + r.value) == (a + b) + r.value;
    }
  }
}
