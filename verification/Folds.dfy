/** States reached by stepping through a sequence of events. */
module Folds {
  function After<S, E>(step: (S, E) -> S, s: S, es: seq<E>): S
    decreases |es|
  {
    if es == [] then s else After(step, step(s, es[0]), es[1..])
  }

  lemma AfterCons<S, E>(step: (S, E) -> S, s: S, e: E, es: seq<E>)
    ensures After(step, s, [e] + es) == After(step, step(s, e), es)
  {
    assert ([e] + es)[1..] == es;
  }

  lemma AfterOne<S, E>(step: (S, E) -> S, s: S, e: E)
    ensures After(step, s, [e]) == step(s, e)
  {
    assert [e] + [] == [e];
    AfterCons(step, s, e, []);
  }

  lemma {:induction false} AfterAppend<S, E>(step: (S, E) -> S, s: S, es: seq<E>, more: seq<E>)
    ensures After(step, s, es + more) == After(step, After(step, s, es), more)
    decreases |es|
  {
    if es == [] {
      assert es + more == more;
    } else {
      AfterAppend(step, step(s, es[0]), es[1..], more);
      assert es + more == [es[0]] + (es[1..] + more);
      AfterCons(step, s, es[0], es[1..] + more);
    }
  }

  /** The last step on its own. */
  lemma AfterSnoc<S, E>(step: (S, E) -> S, s: S, es: seq<E>, n: nat)
    requires n < |es|
    ensures After(step, s, es[..n + 1]) == step(After(step, s, es[..n]), es[n])
  {
    assert es[..n + 1] == es[..n] + [es[n]];
    AfterAppend(step, s, es[..n], [es[n]]);
    AfterOne(step, After(step, s, es[..n]), es[n]);
  }

  /** Every state reached before the last event is good. */
  ghost predicate GoodBeforeLast<S, E>(step: (S, E) -> S, good: S -> bool, s: S, es: seq<E>) {
    forall n :: 1 <= n < |es| ==> good(After(step, s, es[..n]))
  }

  ghost predicate AllGood<S, E>(step: (S, E) -> S, good: S -> bool, s: S, es: seq<E>) {
    forall n :: 1 <= n <= |es| ==> good(After(step, s, es[..n]))
  }

  lemma GoodAfterFirst<S, E>(step: (S, E) -> S, good: S -> bool, s: S, e: E, rest: seq<E>)
    requires good(step(s, e)) && GoodBeforeLast(step, good, step(s, e), rest)
    ensures GoodBeforeLast(step, good, s, [e] + rest)
  {
    var es := [e] + rest;
    forall n | 1 <= n < |es|
      ensures good(After(step, s, es[..n]))
    {
      assert es[..n] == [e] + rest[..n - 1];
      AfterCons(step, s, e, rest[..n - 1]);
      assert n == 1 ==> rest[..0] == [];
    }
  }

  lemma GoodAppend<S, E>(step: (S, E) -> S, good: S -> bool, s: S, es: seq<E>, more: seq<E>)
    requires AllGood(step, good, s, es) && GoodBeforeLast(step, good, After(step, s, es), more)
    ensures GoodBeforeLast(step, good, s, es + more)
    ensures more == [] || good(After(step, s, es + more)) ==> AllGood(step, good, s, es + more)
  {
    var all := es + more;
    forall n | 1 <= n < |all|
      ensures good(After(step, s, all[..n]))
    {
      if n <= |es| {
        assert all[..n] == es[..n];
      } else {
        assert all[..n] == es + more[..n - |es|];
        AfterAppend(step, s, es, more[..n - |es|]);
      }
    }
    assert all[..|all|] == all;
    assert more == [] ==> all == es;
  }
}
