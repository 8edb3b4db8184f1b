/** What marking a header as known does, and when the set of known headers stays closed under ancestors. */
module Marking {
  import opened EventGraph
  import opened Ancestry
  import opened Heap
  import opened Walks
  import opened SyncResponder

  /** Every parent of a header in the set is in the set. */
  ghost predicate Closed(g: Graph, s: set<HeaderId>) {
    forall x, p :: x in s && p in Parents(g, x) ==> p in s
  }

  lemma {:induction false} MarkGrows(g: Graph, known: set<HeaderId>, queue: seq<HeaderId>)
    ensures known <= Mark(g, known, queue) && forall x :: x in queue ==> x in Mark(g, known, queue)
    decreases Weight(AboveOf(g), queue)
  {
    hide Parents, Above;
    if queue != [] {
      MarkStep(g, known, queue);
      assert forall x :: x in queue <==> x == queue[0] || x in queue[1..];
      if queue[0] in known {
        MarkGrows(g, known, queue[1..] + Parents(g, queue[0]));
      } else {
        MarkGrows(g, known + {queue[0]}, queue[1..]);
      }
    }
  }

  /** The walk does not leave a closed set. */
  lemma {:induction false} MarkWithin(g: Graph, known: set<HeaderId>, queue: seq<HeaderId>, s: set<HeaderId>)
    requires Closed(g, s) && forall x :: x in queue ==> x in s
    ensures Mark(g, known, queue) <= known + s
    decreases Weight(AboveOf(g), queue)
  {
    hide Parents, Above;
    if queue != [] {
      MarkStep(g, known, queue);
      if queue[0] in known {
        MarkWithin(g, known, queue[1..] + Parents(g, queue[0]), s);
      } else {
        MarkWithin(g, known + {queue[0]}, queue[1..], s);
      }
    }
  }

  ghost function AncestorsOf(g: Graph, h: HeaderId): set<HeaderId> {
    set i | 0 <= i < |g| && Reaches(g, g[i].id, h) :: g[i].id
  }

  lemma AncestorsOfMembers(g: Graph, h: HeaderId, x: HeaderId)
    ensures x in AncestorsOf(g, h) <==> Reaches(g, x, h)
  {
    if Reaches(g, x, h) {
      ReachEarlier(g, x, h);
      assert g[IndexOf(g, x)].id == x;
    }
  }

  lemma AncestorsAreClosed(g: Graph, h: HeaderId)
    ensures Closed(g, AncestorsOf(g, h))
  {
    forall x, p | x in AncestorsOf(g, h) && p in Parents(g, x)
      ensures p in AncestorsOf(g, h)
    {
      AncestorsOfMembers(g, h, x);
      ParentBefore(g, p, x);
      ReachSelf(g, p);
      ReachParent(g, p, p, x);
      ReachTrans(g, p, x, h);
      AncestorsOfMembers(g, h, p);
    }
  }

  /** A new header is added alone; otherwise nothing but ancestors of the header is added. */
  lemma MarkBounds(g: Graph, known: set<HeaderId>, h: HeaderId)
    requires Has(g, h)
    ensures h !in known ==> Mark(g, known, [h]) == known + {h}
    ensures known + {h} <= Mark(g, known, [h])
    ensures forall x :: x in Mark(g, known, [h]) ==> x in known || Reaches(g, x, h)
  {
    MarkStep(g, known, [h]);
    MarkGrows(g, known, [h]);
    AncestorsAreClosed(g, h);
    ReachSelf(g, h);
    AncestorsOfMembers(g, h, h);
    MarkWithin(g, known, [h], AncestorsOf(g, h));
    forall x | x in Mark(g, known, [h])
      ensures x in known || Reaches(g, x, h)
    {
      AncestorsOfMembers(g, h, x);
    }
  }

  /** A way up through headers that were marked before, to its end. */
  ghost predicate MarkedWay(g: Graph, known: set<HeaderId>, path: seq<HeaderId>) {
    IsPath(g, path) && forall i :: 0 <= i < |path| - 1 ==> path[i] in known
  }

  /** The walk goes on through marked headers: what lies at the end of a marked way from a queued header is marked. */
  lemma {:induction false} MarkGoesOn(g: Graph, known: set<HeaderId>, queue: seq<HeaderId>, path: seq<HeaderId>)
    requires MarkedWay(g, known, path) && path[0] in queue
    ensures path[|path| - 1] in Mark(g, known, queue)
    decreases Weight(AboveOf(g), queue)
  {
    hide Parents, Above, Has;
    MarkStep(g, known, queue);
    if |path| == 1 {
      MarkGrows(g, known, queue);
    } else if queue[0] == path[0] {
      PathTail(g, path);
      assert path[0] in known;
      assert path[1] in queue[1..] + Parents(g, queue[0]);
      MarkGoesOn(g, known, queue[1..] + Parents(g, queue[0]), path[1..]);
    } else {
      assert path[0] in queue[1..];
      if queue[0] in known {
        assert path[0] in queue[1..] + Parents(g, queue[0]);
        MarkGoesOn(g, known, queue[1..] + Parents(g, queue[0]), path);
      } else {
        MarkGoesOn(g, known + {queue[0]}, queue[1..], path);
      }
    }
  }

  /** Marking a header of a closed set changes nothing. */
  lemma MarkClosed(g: Graph, known: set<HeaderId>, h: HeaderId)
    requires Closed(g, known) && h in known
    ensures Mark(g, known, [h]) == known
  {
    MarkGrows(g, known, [h]);
    MarkWithin(g, known, [h], known);
  }

  /**
    The documented invariant that the known headers are closed under ancestors survives marking a header exactly when
    the header was known already or all its parents were.
   */
  lemma ClosureKeptIff(g: Graph, known: set<HeaderId>, h: HeaderId)
    requires Closed(g, known) && Has(g, h)
    ensures Closed(g, Mark(g, known, [h])) <==> h in known || forall p :: p in Parents(g, h) ==> p in known
  {
    if h in known {
      MarkClosed(g, known, h);
    } else {
      MarkBounds(g, known, h);
      forall p | p in Parents(g, h)
        ensures p != h
      {
        ParentBefore(g, p, h);
      }
      forall p | p in Parents(g, h)
        ensures p in Mark(g, known, [h]) <==> p in known
      {
      }
    }
  }

  /** A new peer that names a tip with a parent breaks the documented invariant at once. */
  lemma ClosureBroken(root: Header, tip: Header)
    requires root.valid && tip.valid && root.id != tip.id && root.parents == [] && tip.parents == [root.id]
    ensures Wf([root, tip])
    ensures Closed([root, tip], {}) && !Closed([root, tip], HandleTheirTips([root, tip], NEW, [tip.id]).theirKnown)
  {
    TwoHeaders(root, tip);
    var g: Graph := [root, tip];
    assert g[1].id == tip.id;
    assert Has(g, tip.id) && IndexOf(g, tip.id) == 1;
    assert root.id in Parents(g, tip.id);
    ClosureKeptIff(g, {}, tip.id);
    assert HandleTips(g, NEW, [tip.id]) == HandleTip(g, NEW, tip.id);
  }

  lemma TwoHeaders(root: Header, tip: Header)
    requires root.valid && tip.valid && root.id != tip.id && root.parents == [] && tip.parents == [root.id]
    ensures Wf([root, tip])
  {
    InsertWf([], root);
    assert Accepts([root], tip) by { assert HasBefore([root], 1, [root][0].id); }
    InsertWf([root], tip);
    assert [root] + [tip] == [root, tip];
  }
}
