/**
 * Failure-compatible Option and Result, and the `collect` of an iterator of
 * results into a result of a sequence that the parser crates use throughout
 * (`iter().map(f).collect::<Result<Vec<_>, _>>()`).
 */
module Wrappers {

  datatype Option<+T> = None | Some(value: T) {
    predicate IsFailure() { None? }

    function PropagateFailure<U>(): Option<U>
      requires None?
    {
      None
    }

    function Extract(): T
      requires Some?
    {
      value
    }

    /** `Option::unwrap_or` */
    function UnwrapOr(default: T): T {
      if Some? then value else default
    }
  }

  datatype Result<+T, +E> = Success(value: T) | Failure(error: E) {
    predicate IsFailure() { Failure? }

    function PropagateFailure<U>(): Result<U, E>
      requires Failure?
    {
      Failure(error)
    }

    function Extract(): T
      requires Success?
    {
      value
    }
  }

  /**
   * Collecting `xs.map(f)` into a `Result<Vec<_>, _>`: the mapped values in
   * order when every call succeeds, otherwise the error of the first call
   * that fails (the calls after it are never made).
   */
  function Collect<A, B, E>(xs: seq<A>, f: A -> Result<B, E>): (r: Result<seq<B>, E>)
    ensures r.Success? <==> forall i :: 0 <= i < |xs| ==> f(xs[i]).Success?
    ensures r.Success? ==> |r.value| == |xs| && forall i :: 0 <= i < |xs| ==> r.value[i] == f(xs[i]).value
    ensures r.Failure? ==> FirstFailure(xs, f, r.error)
  {
    if xs == [] then Success([])
    else
      match f(xs[0])
      case Failure(e) =>
        assert FirstFailureAt(xs, f, e, 0);
        Failure(e)
      case Success(y) =>
        match Collect(xs[1..], f)
        case Failure(e) =>
          assert FirstFailure(xs, f, e) by {
            var k :| FirstFailureAt(xs[1..], f, e, k);
            assert FirstFailureAt(xs, f, e, k + 1);
          }
          Failure(e)
        case Success(ys) =>
          Success([y] + ys)
  }

  /** `f` fails on `xs[k]` with error `e` and succeeds on every element before it. */
  ghost predicate FirstFailureAt<A, B, E>(xs: seq<A>, f: A -> Result<B, E>, e: E, k: int) {
    && 0 <= k < |xs|
    && f(xs[k]) == Failure(e)
    && forall i :: 0 <= i < k ==> f(xs[i]).Success?
  }

  ghost predicate FirstFailure<A, B, E>(xs: seq<A>, f: A -> Result<B, E>, e: E) {
    exists k :: FirstFailureAt(xs, f, e, k)
  }

  /** Collecting a concatenation is collecting the two halves one after the other. */
  lemma {:induction false} CollectAppend<A, B, E>(xs: seq<A>, ys: seq<A>, f: A -> Result<B, E>)
    ensures Collect(xs + ys, f) ==
      match Collect(xs, f)
      case Failure(e) => Failure(e)
      case Success(vs) =>
        match Collect(ys, f)
        case Failure(e) => Failure(e)
        case Success(ws) => Success(vs + ws)
  {
    if xs == [] {
      assert xs + ys == ys;
      match Collect(ys, f)
      case Failure(_) =>
      case Success(ws) => assert [] + ws == ws;
    } else {
      assert (xs + ys)[0] == xs[0];
      assert (xs + ys)[1..] == xs[1..] + ys;
      CollectAppend(xs[1..], ys, f);
      match f(xs[0])
      case Failure(_) =>
      case Success(y) =>
        match Collect(xs[1..], f)
        case Failure(_) =>
        case Success(vs) =>
          match Collect(ys, f)
          case Failure(_) =>
          case Success(ws) =>
            assert [y] + (vs + ws) == ([y] + vs) + ws;
    }
  }

  /** The successful case of `CollectAppend`. */
  lemma CollectAppendSuccess<A, B, E>(xs: seq<A>, ys: seq<A>, f: A -> Result<B, E>)
    requires Collect(xs, f).Success? && Collect(ys, f).Success?
    ensures Collect(xs + ys, f) == Success(Collect(xs, f).value + Collect(ys, f).value)
  {
    CollectAppend(xs, ys, f);
  }

  /** Concatenation regroups freely. */
  lemma AppendAssoc<T>(a: seq<T>, b: seq<T>, c: seq<T>)
    ensures (a + b) + c == a + (b + c)
  {
  }
}
