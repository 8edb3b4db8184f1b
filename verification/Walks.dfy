/**
  Why walks over the event graph end although they remember nothing: the summed number of paths that start at the
  queued headers falls with every step.
 */
module Walks {
  import opened EventGraph
  import opened Heap

  /** Every step lowers the rank. */
  ghost predicate Descends(next: HeaderId -> seq<HeaderId>, rank: HeaderId -> nat) {
    forall x, y :: y in next(x) ==> rank(y) < rank(x)
  }

  /** The number of paths that start at `x`. */
  ghost function Paths(next: HeaderId -> seq<HeaderId>, rank: HeaderId -> nat, x: HeaderId): nat
    requires Descends(next, rank)
    decreases rank(x), 1, 0
  {
    assert forall y :: y in next(x) ==> rank(y) < rank(x);
    1 + PathsFrom(next, rank, next(x), rank(x))
  }

  ghost function PathsFrom(next: HeaderId -> seq<HeaderId>, rank: HeaderId -> nat, xs: seq<HeaderId>, bound: nat): nat
    requires Descends(next, rank) && forall x :: x in xs ==> rank(x) < bound
    decreases bound, 0, |xs|
  {
    if xs == [] then 0 else Paths(next, rank, xs[0]) + PathsFrom(next, rank, xs[1..], bound)
  }

  ghost function DownRank(g: Graph): HeaderId -> nat {
    id => if Has(g, id) then |g| - IndexOf(g, id) else 0
  }

  ghost function UpRank(g: Graph): HeaderId -> nat {
    id => if Has(g, id) then IndexOf(g, id) else 0
  }

  lemma GraphDescends(g: Graph)
    ensures Descends(id => Children(g, id), DownRank(g))
    ensures Descends(id => Parents(g, id), UpRank(g))
  {
    forall x, y | y in Children(g, x)
      ensures DownRank(g)(y) < DownRank(g)(x)
    {
      ChildrenMembers(g, x, y);
    }
    forall x, y | y in Parents(g, x)
      ensures UpRank(g)(y) < UpRank(g)(x)
    {
      ParentBefore(g, y, x);
    }
  }

  /** The number of downward paths from a header. */
  ghost function Below(g: Graph, id: HeaderId): nat {
    GraphDescends(g);
    Paths(x => Children(g, x), DownRank(g), id)
  }

  /** The number of upward paths from a header. */
  ghost function Above(g: Graph, id: HeaderId): nat {
    GraphDescends(g);
    Paths(x => Parents(g, x), UpRank(g), id)
  }

  ghost function BelowOf(g: Graph): HeaderId -> nat {
    id => Below(g, id)
  }

  ghost function AboveOf(g: Graph): HeaderId -> nat {
    id => Above(g, id)
  }

  lemma {:induction false} PathsFromIsWeight(next: HeaderId -> seq<HeaderId>, rank: HeaderId -> nat, w: HeaderId -> nat,
                                             xs: seq<HeaderId>, bound: nat)
    requires Descends(next, rank) && forall x :: x in xs ==> rank(x) < bound
    requires forall x :: w(x) == Paths(next, rank, x)
    ensures PathsFrom(next, rank, xs, bound) == Weight(w, xs)
  {
    if xs != [] { PathsFromIsWeight(next, rank, w, xs[1..], bound); }
  }

  /** A step down takes the header itself off the number of paths. */
  lemma BelowStep(g: Graph, id: HeaderId)
    ensures Below(g, id) == 1 + Weight(BelowOf(g), Children(g, id))
  {
    GraphDescends(g);
    var next, rank := (x => Children(g, x)), DownRank(g);
    assert forall y :: y in next(id) ==> rank(y) < rank(id);
    PathsFromIsWeight(next, rank, BelowOf(g), Children(g, id), rank(id));
  }

  lemma AboveStep(g: Graph, id: HeaderId)
    ensures Above(g, id) == 1 + Weight(AboveOf(g), Parents(g, id))
  {
    GraphDescends(g);
    var next, rank := (x => Parents(g, x)), UpRank(g);
    assert forall y :: y in next(id) ==> rank(y) < rank(id);
    PathsFromIsWeight(next, rank, AboveOf(g), Parents(g, id), rank(id));
  }
}
