/** Small value types and sequence functions shared by the other modules. */
module Basics {

  datatype Option<+T> = None | Some(value: T) {
    function GetOr(default: T): T {
      match this
      case Some(v) => v
      case None => default
    }
  }

  /** `TypeError`: the source throws; `Unmodelled`: it does something this model does not say. */
  datatype Outcome<+T> = Done(value: T) | TypeError | Unmodelled {
    predicate IsFailure() { !Done? }

    function PropagateFailure<U>(): Outcome<U>
      requires IsFailure()
    {
      if TypeError? then Outcome<U>.TypeError else Outcome<U>.Unmodelled
    }

    function Extract(): T
      requires Done?
    {
      value
    }
  }

  function Last<T>(s: seq<T>): T
    requires s != []
  {
    s[|s| - 1]
  }

  function Init<T>(s: seq<T>): seq<T>
    requires s != []
  {
    s[..|s| - 1]
  }

  function Reverse<T>(s: seq<T>): (r: seq<T>)
    ensures |r| == |s|
  {
    if s == [] then [] else Reverse(s[1..]) + [s[0]]
  }

  /** The last element of a non-empty sequence comes first in its reversal. */
  lemma {:induction false} ReverseLast<T>(s: seq<T>)
    requires s != []
    ensures Reverse(s) == [Last(s)] + Reverse(Init(s))
  {
    if |s| == 1 {
    } else {
      ReverseLast(s[1..]);
      assert Init(s)[1..] == Init(s[1..]);
    }
  }

  lemma ReverseCons<T>(x: T, s: seq<T>)
    ensures Reverse([x] + s) == Reverse(s) + [x]
  {
    assert ([x] + s)[1..] == s;
  }

  lemma Associate<T>(a: seq<T>, b: seq<T>, c: seq<T>)
    ensures a + (b + c) == (a + b) + c
  {
  }
}
