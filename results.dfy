/** Exceptions of the card game service as values, and the failure-compatible
    types that carry them. */
module Results {

  /** The exceptions the core raises, each with the message it carries. */
  datatype Error =
    | IllegalArgument(message: string)  // java.lang.IllegalArgumentException
    | DeckCreation(message: string)     // DeckCreationException, raised by the deck provider
    | GameNotFound(message: string)     // GameNotFoundException

  datatype Option<+T> = None | Some(value: T)

  /** A value, or the exception that was thrown instead. */
  datatype Result<+T> = Ok(value: T) | Err(error: Error) {
    predicate IsFailure() { Err? }

    function PropagateFailure<U>(): Result<U>
      requires Err?
    {
      Err(error)
    }

    function Extract(): T
      requires Ok?
    {
      value
    }
  }

  /** A `void` call that either returns normally or throws. */
  datatype Outcome = Pass | Fail(error: Error) {
    predicate IsFailure() { Fail? }

    function PropagateFailure<U>(): Result<U>
      requires Fail?
    {
      Err(error)
    }
  }

  /** `xs.stream().map(f)` collected into a list: `f` is applied to the
      elements in order, and the first element for which `f` throws decides
      the exception; later elements are not looked at. */
  function Traverse<A, B>(xs: seq<A>, f: A -> Result<B>): (r: Result<seq<B>>)
    ensures r.Ok? <==> forall i :: 0 <= i < |xs| ==> f(xs[i]).Ok?
    ensures r.Ok? ==> |r.value| == |xs| && forall i :: 0 <= i < |xs| ==> r.value[i] == f(xs[i]).value
    ensures r.Err? ==>
      exists i :: 0 <= i < |xs| && f(xs[i]) == Err(r.error) && forall j :: 0 <= j < i ==> f(xs[j]).Ok?
  {
    if xs == [] then Ok([])
    else
      var y :- f(xs[0]);
      var ys :- Traverse(xs[1..], f);
      Ok([y] + ys)
  }

  /** Mapping a concatenation: the first list's exception wins; otherwise the
      results are concatenated. */
  lemma {:induction false} TraverseAppend<A, B>(xs: seq<A>, ys: seq<A>, f: A -> Result<B>)
    ensures Traverse(xs + ys, f) ==
      match Traverse(xs, f)
      case Err(e) => Err(e)
      case Ok(bs) => (match Traverse(ys, f) case Err(e) => Err(e) case Ok(cs) => Ok(bs + cs))
  {
    if xs == [] {
      assert xs + ys == ys;
      if Traverse(ys, f).Ok? {
        assert [] + Traverse(ys, f).value == Traverse(ys, f).value;
      }
    } else {
      assert (xs + ys)[1..] == xs[1..] + ys;
      TraverseAppend(xs[1..], ys, f);
      if f(xs[0]).Ok? && Traverse(xs[1..], f).Ok? && Traverse(ys, f).Ok? {
        var y, bs, cs := f(xs[0]).value, Traverse(xs[1..], f).value, Traverse(ys, f).value;
        assert [y] + (bs + cs) == ([y] + bs) + cs;
      }
    }
  }

  /** Like `Traverse`, for a step that is also told the position of the
      element it works on: the steps run in order and the first that fails
      decides the outcome. */
  function TraverseIndexed<A, B>(xs: seq<A>, step: (nat, A) -> Result<B>): Result<seq<B>> {
    if xs == [] then Ok([])
    else
      var n := |xs| - 1;
      var ys :- TraverseIndexed(xs[..n], step);
      var y :- step(n, xs[n]);
      Ok(ys + [y])
  }

  /** The outcome of `TraverseIndexed`: it succeeds exactly when every step
      succeeds, with the steps' results in order; otherwise its error is that
      of a step all of whose predecessors succeeded. */
  lemma {:induction false} TraverseIndexedSpec<A, B>(xs: seq<A>, step: (nat, A) -> Result<B>)
    ensures TraverseIndexed(xs, step).Ok? <==> forall i :: 0 <= i < |xs| ==> step(i, xs[i]).Ok?
    ensures TraverseIndexed(xs, step).Ok? ==>
      |TraverseIndexed(xs, step).value| == |xs| &&
      forall i :: 0 <= i < |xs| ==> TraverseIndexed(xs, step).value[i] == step(i, xs[i]).value
    ensures TraverseIndexed(xs, step).Err? ==>
      exists i :: 0 <= i < |xs| && step(i, xs[i]) == Err(TraverseIndexed(xs, step).error) &&
                  forall j :: 0 <= j < i ==> step(j, xs[j]).Ok?
    decreases |xs|
  {
    if xs != [] {
      var n := |xs| - 1;
      TraverseIndexedSpec(xs[..n], step);
      assert forall i :: 0 <= i < n ==> xs[..n][i] == xs[i];
      if TraverseIndexed(xs[..n], step).Ok? && step(n, xs[n]).Err? {
        assert step(n, xs[n]) == Err(TraverseIndexed(xs, step).error);
      }
    }
  }

  /** Once a step has failed, the elements after it are never looked at. */
  lemma {:induction false} TraverseIndexedFailureSticks<A, B>(xs: seq<A>, ys: seq<A>, step: (nat, A) -> Result<B>)
    requires TraverseIndexed(xs, step).Err?
    ensures TraverseIndexed(xs + ys, step) == TraverseIndexed(xs, step)
    decreases |ys|
  {
    if ys == [] {
      assert xs + ys == xs;
    } else {
      var n := |ys| - 1;
      assert (xs + ys)[..|xs + ys| - 1] == xs + ys[..n];
      TraverseIndexedFailureSticks(xs, ys[..n], step);
    }
  }

  /** Steps that all succeed, with known results, give those results. */
  lemma TraverseIndexedAllOk<A, B>(xs: seq<A>, step: (nat, A) -> Result<B>, ys: seq<B>)
    requires |ys| == |xs|
    requires forall k :: 0 <= k < |xs| ==> step(k, xs[k]) == Ok(ys[k])
    ensures TraverseIndexed(xs, step) == Ok(ys)
  {
    TraverseIndexedSpec(xs, step);
    assert TraverseIndexed(xs, step).value == ys;
  }

  /** The step on element `i` is the first to fail: the steps before it
      succeed on the prefix, and its failure is the outcome both for the
      prefix ending with it and for the whole sequence. */
  lemma TraverseIndexedFirstFailure<A, B>(xs: seq<A>, step: (nat, A) -> Result<B>, i: int)
    requires 0 <= i < |xs|
    requires forall k :: 0 <= k < i ==> step(k, xs[k]).Ok?
    requires step(i, xs[i]).Err?
    ensures TraverseIndexed(xs[..i], step).Ok?
    ensures TraverseIndexed(xs[..i + 1], step) == Err(step(i, xs[i]).error)
    ensures TraverseIndexed(xs, step) == Err(step(i, xs[i]).error)
  {
    assert forall k :: 0 <= k < i ==> xs[..i][k] == xs[k];
    TraverseIndexedSpec(xs[..i], step);
    TraverseIndexedFailsAt(xs, i + 1, step);
  }

  /** One more element: if the step on it succeeds its result is appended,
      otherwise its error is the outcome. */
  lemma TraverseIndexedSnoc<A, B>(xs: seq<A>, i: int, step: (nat, A) -> Result<B>)
    requires 1 <= i <= |xs|
    requires TraverseIndexed(xs[..i - 1], step).Ok?
    ensures step(i - 1, xs[i - 1]).Ok? ==>
      TraverseIndexed(xs[..i], step) == Ok(TraverseIndexed(xs[..i - 1], step).value + [step(i - 1, xs[i - 1]).value])
    ensures step(i - 1, xs[i - 1]).Err? ==> TraverseIndexed(xs[..i], step) == Err(step(i - 1, xs[i - 1]).error)
  {
    assert xs[..i][..i - 1] == xs[..i - 1];
  }

  /** The step on the `i`-th element (counting from 1) is the first to fail:
      that failure is the outcome for the whole sequence. */
  lemma TraverseIndexedFailsAt<A, B>(xs: seq<A>, i: int, step: (nat, A) -> Result<B>)
    requires 1 <= i <= |xs|
    requires TraverseIndexed(xs[..i - 1], step).Ok?
    requires step(i - 1, xs[i - 1]).Err?
    ensures TraverseIndexed(xs[..i], step) == Err(step(i - 1, xs[i - 1]).error)
    ensures TraverseIndexed(xs, step) == Err(step(i - 1, xs[i - 1]).error)
  {
    TraverseIndexedSnoc(xs, i, step);
    assert xs == xs[..i] + xs[i..];
    TraverseIndexedFailureSticks(xs[..i], xs[i..], step);
  }
}
