/** Going through a list step by step, stopping at the first step that fails. */
module Walks {
  import opened Outcomes

  function Walk<S, X, E>(s: S, xs: seq<X>, step: (S, X) -> Result<S, E>): Result<S, E> {
    if xs == [] then Ok(s)
    else match step(s, xs[0])
      case Err(e) => Err(e)
      case Ok(t) => Walk(t, xs[1..], step)
  }

  lemma {:induction false} WalkAppend<S, X, E>(s: S, xs: seq<X>, ys: seq<X>, step: (S, X) -> Result<S, E>)
    ensures Walk(s, xs + ys, step)
      == if Walk(s, xs, step).Ok? then Walk(Walk(s, xs, step).value, ys, step) else Walk(s, xs, step)
  {
    if xs == [] {
      assert xs + ys == ys;
    } else {
      assert (xs + ys)[0] == xs[0] && (xs + ys)[1..] == xs[1..] + ys;
      if step(s, xs[0]).Ok? {
        WalkAppend(step(s, xs[0]).value, xs[1..], ys, step);
      }
    }
  }

  /** Related states stay related across one element whenever the first walk takes it. */
  ghost predicate StepsAgree<S(!new), T(!new), X, E, F>(xs: seq<X>, step: (S, X) -> Result<S, E>,
                                                        other: (T, X) -> Result<T, F>, related: (S, T) -> bool)
  {
    forall s, t, x :: x in xs && related(s, t) && step(s, x).Ok?
      ==> other(t, x).Ok? && related(step(s, x).value, other(t, x).value)
  }

  /** When the second walk can follow every step of the first, it follows the whole walk. */
  lemma {:induction false} Simulation<S(!new), T(!new), X, E, F>(s: S, t: T, xs: seq<X>,
      step: (S, X) -> Result<S, E>, other: (T, X) -> Result<T, F>, related: (S, T) -> bool)
    requires StepsAgree(xs, step, other, related) && related(s, t) && Walk(s, xs, step).Ok?
    ensures Walk(t, xs, other).Ok? && related(Walk(s, xs, step).value, Walk(t, xs, other).value)
  {
    if xs != [] {
      assert xs[0] in xs;
      Simulation(step(s, xs[0]).value, other(t, xs[0]).value, xs[1..], step, other, related);
    }
  }

  /** The step looks an item up and appends it. */
  ghost predicate Appends<X(!new), Y(!new), E>(step: (seq<Y>, X) -> Result<seq<Y>, E>, item: X -> Result<Y, E>) {
    forall s, x :: step(s, x) == if item(x).Err? then Err(item(x).error) else Ok(s + [item(x).value])
  }

  /** Such a walk succeeds exactly when every item does, and its result is the list of the items. */
  lemma {:induction false} AppendWalk<X(!new), Y(!new), E>(before: seq<Y>, xs: seq<X>,
      step: (seq<Y>, X) -> Result<seq<Y>, E>, item: X -> Result<Y, E>) returns (ys: seq<Y>)
    requires Appends(step, item)
    ensures Walk(before, xs, step).Ok? <==> forall x :: x in xs ==> item(x).Ok?
    ensures Walk(before, xs, step).Ok? ==>
      && Walk(before, xs, step).value == before + ys
      && |ys| == |xs| && forall i :: 0 <= i < |xs| ==> item(xs[i]) == Ok(ys[i])
    decreases |xs|
  {
    if xs == [] {
      ys := [];
    } else {
      assert xs[0] in xs;
      if item(xs[0]).Err? {
        ys := [];
      } else {
        var y := item(xs[0]).value;
        var rest := AppendWalk(before + [y], xs[1..], step, item);
        ys := [y] + rest;
        assert before + [y] + rest == before + ys;
      }
    }
  }

  /** A failing walk of this kind ends with the error of the first item that fails. */
  lemma {:induction false} FirstError<X(!new), Y(!new), E>(before: seq<Y>, xs: seq<X>,
      step: (seq<Y>, X) -> Result<seq<Y>, E>, item: X -> Result<Y, E>) returns (i: nat)
    requires Appends(step, item) && Walk(before, xs, step).Err?
    ensures i < |xs| && item(xs[i]) == Err(Walk(before, xs, step).error)
    ensures forall k :: 0 <= k < i ==> item(xs[k]).Ok?
    decreases |xs|
  {
    if item(xs[0]).Err? {
      i := 0;
    } else {
      i := FirstError(before + [item(xs[0]).value], xs[1..], step, item);
      assert forall k :: 0 < k <= i ==> xs[k] == xs[1..][k - 1];
      i := i + 1;
    }
  }
}
