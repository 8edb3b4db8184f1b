/**
  Why replicas converge: a fold does not depend on the order of its events as long as the events that may come in
  either order commute. The events need not commute in every state, only in the states an invariant describes; the
  invariant may speak about the events still to come.
 */
module Convergence {
  import opened Common

  function Fold<S, E>(step: (S, E) -> S, s: S, es: seq<E>): S
    decreases |es|
  {
    if es == [] then s else Fold(step, step(s, es[0]), es[1..])
  }

  lemma {:induction false} FoldConcat<S, E>(step: (S, E) -> S, s: S, es: seq<E>, fs: seq<E>)
    ensures Fold(step, s, es + fs) == Fold(step, Fold(step, s, es), fs)
    decreases |es|
  {
    if es == [] {
      assert es + fs == fs;
    } else {
      assert (es + fs)[1..] == es[1..] + fs;
      FoldConcat(step, step(s, es[0]), es[1..], fs);
    }
  }

  lemma FoldCons<S, E>(step: (S, E) -> S, s: S, e: E, es: seq<E>)
    ensures Fold(step, s, [e] + es) == Fold(step, step(s, e), es)
  {
    assert ([e] + es)[1..] == es;
  }

  lemma FoldSnoc<S, E>(step: (S, E) -> S, s: S, es: seq<E>, e: E)
    ensures Fold(step, s, es + [e]) == step(Fold(step, s, es), e)
  {
    FoldConcat(step, s, es, [e]);
    assert [e][1..] == [];
  }

  /** No event comes after an event that must follow it. */
  ghost predicate Respects<E>(before: (E, E) -> bool, es: seq<E>) {
    forall i, j :: 0 <= i < j < |es| ==> !before(es[j], es[i])
  }

  /** Nothing that must come before `e` is still to come. */
  ghost predicate Enabled<E>(before: (E, E) -> bool, es: set<E>, e: E) {
    e in es && forall f :: f in es && f != e ==> !before(f, e)
  }

  ghost predicate Preserved<S(!new), E(!new)>(step: (S, E) -> S, inv: (S, set<E>) -> bool, before: (E, E) -> bool) {
    forall s, es, e :: inv(s, es) && Enabled(before, es, e) ==> inv(step(s, e), es - {e})
  }

  /** Two events that may both come next lead to the same state in either order. */
  ghost predicate Commutes<S(!new), E(!new)>(step: (S, E) -> S, inv: (S, set<E>) -> bool, before: (E, E) -> bool) {
    forall s, es, e, f ::
      inv(s, es) && Enabled(before, es, e) && Enabled(before, es, f) && e != f ==>
        step(step(s, e), f) == step(step(s, f), e)
  }

  lemma FirstIsEnabled<E>(before: (E, E) -> bool, es: seq<E>)
    requires es != [] && Respects(before, es)
    ensures Enabled(before, Elems(es), es[0])
  {
    forall f | f in Elems(es) && f != es[0]
      ensures !before(f, es[0])
    {
      var i :| 0 <= i < |es| && es[i] == f;
    }
  }

  /** An event that may come next may as well come first. */
  lemma {:induction false} MoveToFront<S(!new), E(!new)>(step: (S, E) -> S, inv: (S, set<E>) -> bool,
                                                         before: (E, E) -> bool, s: S, es: seq<E>, k: nat)
    requires k < |es| && Distinct(es) && Respects(before, es) && Enabled(before, Elems(es), es[k])
    requires inv(s, Elems(es)) && Preserved(step, inv, before) && Commutes(step, inv, before)
    ensures Fold(step, s, es) == Fold(step, step(s, es[k]), es[..k] + es[k + 1..])
    decreases k
  {
    var e := es[k];
    if k == 0 {
      assert es[..k] + es[k + 1..] == es[1..];
    } else {
      var f, rest := es[0], es[1..];
      assert Elems(rest) == Elems(es) - {f};
      FirstIsEnabled(before, es);
      MoveToFront(step, inv, before, step(s, f), rest, k - 1);
      var tail := rest[..k - 1] + rest[k..];
      assert es[..k] + es[k + 1..] == [f] + tail;
      FoldCons(step, step(s, e), f, tail);
    }
  }

  /** Two orders of the same events that both respect the required order lead to the same state. */
  lemma {:induction false} Converges<S(!new), E(!new)>(step: (S, E) -> S, inv: (S, set<E>) -> bool,
                                                       before: (E, E) -> bool, s: S, p: seq<E>, q: seq<E>)
    requires Distinct(p) && Distinct(q) && Elems(p) == Elems(q)
    requires Respects(before, p) && Respects(before, q)
    requires inv(s, Elems(p)) && Preserved(step, inv, before) && Commutes(step, inv, before)
    ensures Fold(step, s, p) == Fold(step, s, q)
    ensures inv(Fold(step, s, p), {})
    decreases |p|
  {
    DistinctSize(p);
    DistinctSize(q);
    if p == [] {
      assert Elems(p) == {};
    } else {
      var e := p[0];
      assert e in Elems(q);
      var k :| 0 <= k < |q| && q[k] == e;
      FirstIsEnabled(before, p);
      MoveToFront(step, inv, before, s, q, k);
      var rest := q[..k] + q[k + 1..];
      RemoveOne(q, k);
      assert Elems(p[1..]) == Elems(p) - {e};
      Converges(step, inv, before, step(s, e), p[1..], rest);
    }
  }

  lemma RemoveOne<E>(q: seq<E>, k: nat)
    requires k < |q| && Distinct(q)
    ensures var rest := q[..k] + q[k + 1..];
      && Distinct(rest) && Elems(rest) == Elems(q) - {q[k]}
      && (forall i :: 0 <= i < |rest| ==> rest[i] == q[if i < k then i else i + 1])
  {
    var rest := q[..k] + q[k + 1..];
    forall x | x in Elems(q) - {q[k]}
      ensures x in rest
    {
      var i :| 0 <= i < |q| && q[i] == x;
      assert x == rest[if i < k then i else i - 1];
    }
  }
}
