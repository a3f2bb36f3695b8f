/** Option and Result, the failure-compatible wrappers the rest of the model returns. */
module Wrappers {

  datatype Option<+T> = None | Some(value: T) {
    predicate IsFailure() { None? }

    function PropagateFailure<U>(): Option<U>
      requires None?
    {
      None
    }

    function Extract(): T
      requires Some?
    {
      value
    }
  }

  datatype Result<+T, +E> = Ok(value: T) | Err(error: E) {
    predicate IsFailure() { Err? }

    function PropagateFailure<U>(): Result<U, E>
      requires Err?
    {
      Err(error)
    }

    function Extract(): T
      requires Ok?
    {
      value
    }
  }

  /**
   * Applies `f` to each element in order, stopping at the first failure, the
   * way a Python loop that appends to a list stops at the first exception.
   */
  function MapResult<T, U, E>(xs: seq<T>, f: T -> Result<U, E>): Result<seq<U>, E> {
    if xs == [] then Ok([])
    else
      var init :- MapResult(xs[..|xs| - 1], f);
      var y :- f(xs[|xs| - 1]);
      Ok(init + [y])
  }

  /** Mapping one element further: the prefix's failure, else `f`'s failure, else the result appended. */
  lemma MapResultSnoc<T, U, E>(xs: seq<T>, f: T -> Result<U, E>, i: nat)
    requires i < |xs|
    ensures MapResult(xs[..i + 1], f) ==
      match MapResult(xs[..i], f)
      case Err(e) => Err(e)
      case Ok(init) => (match f(xs[i]) case Err(e) => Err(e) case Ok(y) => Ok(init + [y]))
  {
    assert xs[..i + 1][..i] == xs[..i];
  }

  /** Once a prefix fails, the whole sequence fails the same way. */
  lemma {:induction false} MapResultErr<T, U, E>(xs: seq<T>, f: T -> Result<U, E>, n: nat)
    requires n <= |xs| && MapResult(xs[..n], f).Err?
    ensures MapResult(xs, f) == MapResult(xs[..n], f)
    decreases |xs| - n
  {
    if n < |xs| {
      assert xs[..n + 1][..n] == xs[..n];
      MapResultErr(xs, f, n + 1);
    } else {
      assert xs[..n] == xs;
    }
  }

  /** The mapping succeeds exactly when `f` succeeds on every element. */
  lemma {:induction false} MapResultOk<T, U, E>(xs: seq<T>, f: T -> Result<U, E>)
    ensures MapResult(xs, f).Ok? <==> forall i :: 0 <= i < |xs| ==> f(xs[i]).Ok?
  {
    if xs != [] {
      var n := |xs| - 1;
      var init := xs[..n];
      MapResultOk(init, f);
      assert forall i :: 0 <= i < n ==> init[i] == xs[i];
      if !MapResult(init, f).Ok? {
        var j :| 0 <= j < n && !f(init[j]).Ok?;
        assert !f(xs[j]).Ok?;
      }
    }
  }

  /** A successful mapping has one result per element, in order. */
  lemma {:induction false} MapResultInOrder<T, U, E>(xs: seq<T>, f: T -> Result<U, E>)
    requires MapResult(xs, f).Ok?
    ensures |MapResult(xs, f).value| == |xs|
    ensures forall i :: 0 <= i < |xs| ==> f(xs[i]).Ok? && MapResult(xs, f).value[i] == f(xs[i]).value
  {
    if xs != [] {
      var n := |xs| - 1;
      var init := xs[..n];
      MapResultInOrder(init, f);
      var ys := MapResult(init, f).value + [f(xs[n]).value];
      assert MapResult(xs, f).value == ys;
      forall i | 0 <= i < |xs| ensures f(xs[i]).Ok? && ys[i] == f(xs[i]).value {
        if i < n {
          assert init[i] == xs[i];
        }
      }
    }
  }
}
