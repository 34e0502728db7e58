/** Option and Result, the failure-carrying values used across the model
    for Python's `None` and for exceptions that propagate to the caller. */
module Wrappers {

  datatype Option<+T> = None | Some(value: T) {
    function GetOr(default: T): T {
      match this
      case Some(v) => v
      case None => default
    }

    /** The value as a list of at most one element. */
    function ToSeq(): (r: seq<T>)
      ensures |r| <= 1
    {
      match this
      case Some(v) => [v]
      case None => []
    }
  }

  datatype Result<+T, +E> = Ok(value: T) | Err(error: E)

  /** The `Some` values of a sequence of options, in order
      (Python's `[p for p in xs if p is not None]`). */
  function Somes<T>(xs: seq<Option<T>>): (r: seq<T>)
    ensures |r| <= |xs|
  {
    if xs == [] then []
    else (if xs[0].Some? then [xs[0].value] else []) + Somes(xs[1..])
  }

  /** A value is kept exactly when it is present in the sequence. */
  lemma {:induction false} SomesMember<T>(xs: seq<Option<T>>)
    ensures forall x :: x in Somes(xs) <==> Some(x) in xs
  {
    if xs != [] {
      SomesMember(xs[1..]);
      assert xs == [xs[0]] + xs[1..];
    }
  }

  lemma SomesAppend<T>(a: seq<Option<T>>, b: seq<Option<T>>)
    ensures Somes(a + b) == Somes(a) + Somes(b)
  {
    if a == [] {
      assert a + b == b;
    } else {
      var h := if a[0].Some? then [a[0].value] else [];
      assert (a + b)[0] == a[0];
      assert (a + b)[1..] == a[1..] + b;
      SomesAppend(a[1..], b);
      calc {
        Somes(a + b);
        h + Somes(a[1..] + b);
        h + (Somes(a[1..]) + Somes(b));
        (h + Somes(a[1..])) + Somes(b);
      }
    }
  }
}
