/**
  Ancestors in the event graph, and what does not depend on the order in which headers were accepted.
 */
module Ancestry {
  import opened EventGraph

  /** A walk from a header upwards, one parent at a time. */
  ghost predicate IsPath(g: Graph, p: seq<HeaderId>)
  {
    && p != []
    && Has(g, p[0])
    && (forall i :: 0 <= i < |p| - 1 ==> p[i + 1] in Parents(g, p[i]))
  }

  ghost predicate PathTo(g: Graph, p: seq<HeaderId>, d: HeaderId, a: HeaderId)
  {
    IsPath(g, p) && p[0] == d && p[|p| - 1] == a
  }

  /** `a` is `d` or one of its ancestors. */
  ghost predicate Reaches(g: Graph, a: HeaderId, d: HeaderId)
  {
    exists p :: PathTo(g, p, d, a)
  }

  lemma ReachSelf(g: Graph, d: HeaderId)
    requires Has(g, d)
    ensures Reaches(g, d, d)
  {
    assert PathTo(g, [d], d, d);
  }

  lemma PathCons(g: Graph, d: HeaderId, p: seq<HeaderId>)
    requires IsPath(g, p) && p[0] in Parents(g, d)
    ensures IsPath(g, [d] + p)
  {
    ParentBefore(g, p[0], d);
    var p' := [d] + p;
    forall i | 0 <= i < |p'| - 1
      ensures p'[i + 1] in Parents(g, p'[i])
    {
      if i > 0 { assert p[i - 1 + 1] in Parents(g, p[i - 1]); }
    }
  }

  lemma PathTail(g: Graph, p: seq<HeaderId>)
    requires IsPath(g, p) && |p| > 1
    ensures IsPath(g, p[1..]) && p[1] in Parents(g, p[0])
  {
    assert p[0 + 1] in Parents(g, p[0]);
    ParentBefore(g, p[1], p[0]);
    forall i | 0 <= i < |p| - 2
      ensures p[1..][i + 1] in Parents(g, p[1..][i])
    {
      assert p[i + 1 + 1] in Parents(g, p[i + 1]);
    }
  }

  lemma ReachParent(g: Graph, a: HeaderId, q: HeaderId, d: HeaderId)
    requires q in Parents(g, d) && Reaches(g, a, q)
    ensures Reaches(g, a, d)
  {
    var p :| PathTo(g, p, q, a);
    PathCons(g, d, p);
    assert PathTo(g, [d] + p, d, a);
  }

  lemma ReachSplit(g: Graph, a: HeaderId, d: HeaderId) returns (q: HeaderId)
    requires Reaches(g, a, d) && a != d
    ensures q in Parents(g, d) && Reaches(g, a, q)
  {
    var p :| PathTo(g, p, d, a);
    q := p[1];
    PathTail(g, p);
    assert PathTo(g, p[1..], q, a);
  }

  /** Ancestors come earlier, so the graph has no cycle. */
  lemma {:induction false} ReachEarlier(g: Graph, a: HeaderId, d: HeaderId)
    requires Reaches(g, a, d)
    ensures Has(g, a) && Has(g, d) && IndexOf(g, a) <= IndexOf(g, d)
    ensures IndexOf(g, a) == IndexOf(g, d) ==> a == d
    decreases if Has(g, d) then IndexOf(g, d) else 0
  {
    var p :| PathTo(g, p, d, a);
    if a != d {
      var q := ReachSplit(g, a, d);
      ParentBefore(g, q, d);
      ReachEarlier(g, a, q);
    }
  }

  lemma {:induction false} ReachTrans(g: Graph, a: HeaderId, b: HeaderId, c: HeaderId)
    requires Reaches(g, a, b) && Reaches(g, b, c)
    ensures Reaches(g, a, c)
    decreases if Has(g, c) then IndexOf(g, c) else 0
  {
    if b != c {
      var q := ReachSplit(g, b, c);
      ParentBefore(g, q, c);
      ReachTrans(g, a, b, q);
      ReachParent(g, a, q, c);
    }
  }

  /** No two headers are ancestors of each other. */
  lemma Acyclic(g: Graph, a: HeaderId, d: HeaderId)
    requires Reaches(g, a, d) && Reaches(g, d, a)
    ensures a == d
  {
    ReachEarlier(g, a, d);
    ReachEarlier(g, d, a);
  }

  /** The search upwards as a recursion. */
  predicate IsAncestor(g: Graph, a: HeaderId, d: HeaderId)
    requires Has(g, d)
    decreases IndexOf(g, d)
  {
    var ps := Parents(g, d);
    a == d || exists k | 0 <= k < |ps| :: (ParentBefore(g, ps[k], d); IsAncestor(g, a, ps[k]))
  }

  lemma {:induction false} IsAncestorIffReaches(g: Graph, a: HeaderId, d: HeaderId)
    requires Has(g, d)
    ensures IsAncestor(g, a, d) <==> Reaches(g, a, d)
    decreases IndexOf(g, d)
  {
    var ps := Parents(g, d);
    ReachSelf(g, d);
    forall k | 0 <= k < |ps|
      ensures Has(g, ps[k]) && (IsAncestor(g, a, ps[k]) <==> Reaches(g, a, ps[k]))
    {
      ParentBefore(g, ps[k], d);
      IsAncestorIffReaches(g, a, ps[k]);
    }
    if a != d {
      if IsAncestor(g, a, d) {
        var k :| 0 <= k < |ps| && IsAncestor(g, a, ps[k]);
        ReachParent(g, a, ps[k], d);
      }
      if Reaches(g, a, d) {
        var q := ReachSplit(g, a, d);
        var k :| 0 <= k < |ps| && ps[k] == q;
        assert IsAncestor(g, a, ps[k]);
      }
    }
  }

  // ---------- Depth

  /** No walk up to a root is shorter than the depth. */
  lemma {:induction false} DepthIsLowerBound(g: Graph, p: seq<HeaderId>)
    requires IsPath(g, p) && IsRoot(g, p[|p| - 1])
    ensures Depth(g, p[0]) <= |p|
    decreases |p|
  {
    if |p| > 1 {
      PathTail(g, p);
      DepthStep(g, p[1], p[0]);
      DepthIsLowerBound(g, p[1..]);
    }
  }

  /** The depth of a header is the length of its shortest walk up to a root. */
  lemma {:induction false} DepthIsShortest(g: Graph, id: HeaderId) returns (p: seq<HeaderId>)
    requires Has(g, id)
    ensures IsPath(g, p) && p[0] == id && IsRoot(g, p[|p| - 1]) && |p| == Depth(g, id)
    ensures forall p' :: IsPath(g, p') && p'[0] == id && IsRoot(g, p'[|p'| - 1]) ==> |p| <= |p'|
    decreases IndexOf(g, id)
  {
    if Parents(g, id) == [] {
      p := [id];
    } else {
      var q := ShallowParent(g, id);
      var up := DepthIsShortest(g, q);
      PathCons(g, id, up);
      p := [id] + up;
    }
    forall p' | IsPath(g, p') && p'[0] == id && IsRoot(g, p'[|p'| - 1])
      ensures |p| <= |p'|
    {
      DepthIsLowerBound(g, p');
    }
  }

  // ---------- Snapshots of one graph, and the same headers in another order

  /** Every header of `g` is in `g'`, with the same contents. */
  ghost predicate Within(g: Graph, g': Graph) {
    forall h :: h in g ==> h in g'
  }

  lemma WithinParents(g: Graph, g': Graph, id: HeaderId)
    requires Within(g, g') && Has(g, id)
    ensures Has(g', id) && g'[IndexOf(g', id)] == g[IndexOf(g, id)]
    ensures Parents(g', id) == Parents(g, id)
  {
    var i := IndexOf(g, id);
    assert g[i] in g;
    var j :| 0 <= j < |g'| && g'[j] == g[i];
    assert g'[j].id == id;
  }

  lemma ExtendsWithin(g: Graph, g': Graph)
    requires g <= g'
    ensures Within(g, g')
  {
    forall h | h in g
      ensures h in g'
    {
      var i :| 0 <= i < |g| && g[i] == h;
      assert g'[i] == h;
    }
  }

  lemma {:induction false} WithinReaches(g: Graph, g': Graph, a: HeaderId, d: HeaderId)
    requires Within(g, g') && Has(g, d)
    ensures Reaches(g, a, d) <==> Reaches(g', a, d)
    ensures Reaches(g', a, d) ==> Has(g, a)
    decreases IndexOf(g, d)
  {
    WithinParents(g, g', d);
    ReachSelf(g, d);
    ReachSelf(g', d);
    if Reaches(g, a, d) && a != d {
      var q := ReachSplit(g, a, d);
      ParentBefore(g, q, d);
      WithinReaches(g, g', a, q);
      ReachParent(g', a, q, d);
    }
    if Reaches(g', a, d) && a != d {
      var q := ReachSplit(g', a, d);
      ParentBefore(g, q, d);
      WithinReaches(g, g', a, q);
      ReachParent(g, a, q, d);
    }
    if Reaches(g, a, d) { ReachEarlier(g, a, d); }
  }

  lemma {:induction false} WithinDepth(g: Graph, g': Graph, id: HeaderId)
    requires Within(g, g') && Has(g, id)
    ensures Has(g', id) && Depth(g', id) == Depth(g, id)
    decreases IndexOf(g, id)
  {
    WithinParents(g, g', id);
    if Parents(g, id) != [] {
      var p := ShallowParent(g, id);
      var p' := ShallowParent(g', id);
      ParentBefore(g, p', id);
      WithinDepth(g, g', p);
      WithinDepth(g, g', p');
      DepthStep(g, p', id);
      DepthStep(g', p, id);
    }
  }

  ghost predicate SameHeaders(g: Graph, g': Graph) {
    Within(g, g') && Within(g', g)
  }

  /** The comparison of `equal_dags`: roots, tips, edges and nodes. */
  ghost predicate EqualDags(g: Graph, g': Graph)
  {
    Roots(g) == Roots(g') && Tips(g) == Tips(g') && Edges(g) == Edges(g') && Ids(g) == Ids(g')
  }

  lemma WithinSets(g: Graph, g': Graph)
    requires SameHeaders(g, g')
    ensures Roots(g) <= Roots(g') && Tips(g) <= Tips(g') && Edges(g) <= Edges(g') && Ids(g) <= Ids(g')
  {
    forall i | 0 <= i < |g|
      ensures exists j :: 0 <= j < |g'| && g'[j] == g[i]
    {
      assert g[i] in g;
    }
    forall x | x in Tips(g)
      ensures x in Tips(g')
    {
      var i :| 0 <= i < |g| && !HasChild(g, g[i].id) && g[i].id == x;
      var j :| 0 <= j < |g'| && g'[j] == g[i];
      forall k | 0 <= k < |g'|
        ensures x !in g'[k].parents
      {
        assert g'[k] in g;
        var l :| 0 <= l < |g| && g[l] == g'[k];
      }
    }
    forall e | e in Edges(g)
      ensures e in Edges(g')
    {
      var i, p :| 0 <= i < |g| && p in g[i].parents && e == (p, g[i].id);
      var j :| 0 <= j < |g'| && g'[j] == g[i];
      assert p in g'[j].parents;
    }
  }

  /** Replicas that accepted the same headers in any two orders agree on the graph, on every depth and on ancestry. */
  lemma OrderIndependence(g: Graph, g': Graph)
    requires SameHeaders(g, g')
    ensures EqualDags(g, g')
    ensures forall id :: Has(g, id) ==> Has(g', id) && Depth(g, id) == Depth(g', id)
    ensures forall a, d :: Reaches(g, a, d) <==> Reaches(g', a, d)
  {
    WithinSets(g, g');
    WithinSets(g', g);
    forall id | Has(g, id)
      ensures Has(g', id) && Depth(g, id) == Depth(g', id)
    {
      WithinDepth(g, g', id);
    }
    forall a, d
      ensures Reaches(g, a, d) <==> Reaches(g', a, d)
    {
      if Reaches(g, a, d) { ReachEarlier(g, a, d); WithinReaches(g, g', a, d); }
      if Reaches(g', a, d) { ReachEarlier(g', a, d); WithinReaches(g', g, a, d); }
    }
  }

  // ---------- Tips

  /** Every header is an ancestor of a tip, or is one. */
  /** The tips are the headers that nothing descends from. */
  lemma TipsHaveNoDescendants(g: Graph, x: HeaderId)
    requires Has(g, x)
    ensures x in Tips(g) <==> forall d :: Reaches(g, x, d) ==> d == x
  {
    var i := IndexOf(g, x);
    if HasChild(g, x) {
      var j :| 0 <= j < |g| && x in g[j].parents;
      var c := g[j].id;
      assert HasBefore(g, |g|, c);
      assert IndexOf(g, c) == j;
      ParentBefore(g, x, c);
      ReachSelf(g, x);
      ReachParent(g, x, x, c);
      assert Reaches(g, x, c) && c != x;
      assert forall k :: 0 <= k < |g| && g[k].id == x ==> k == i;
    } else {
      assert g[i].id == x;
      forall d | Reaches(g, x, d)
        ensures d == x
      {
        if d != x { NoChildNoDescendant(g, x, d); }
      }
    }
  }

  lemma {:induction false} NoChildNoDescendant(g: Graph, x: HeaderId, d: HeaderId)
    requires Reaches(g, x, d) && d != x
    ensures HasChild(g, x)
    decreases if Has(g, d) then IndexOf(g, d) else 0
  {
    var q := ReachSplit(g, x, d);
    ParentBefore(g, q, d);
    if q == x {
      assert x in g[IndexOf(g, d)].parents;
    } else {
      NoChildNoDescendant(g, x, q);
    }
  }

  /** The roots are the headers without ancestors, and the only ones of depth one. */
  lemma RootsHaveNoAncestors(g: Graph, x: HeaderId)
    requires Has(g, x)
    ensures x in Roots(g) <==> forall a :: Reaches(g, a, x) ==> a == x
    ensures x in Roots(g) <==> Depth(g, x) == 1
  {
    var i := IndexOf(g, x);
    assert g[i].id == x;
    assert forall k :: 0 <= k < |g| && g[k].id == x ==> k == i;
    if Parents(g, x) == [] {
      forall a | Reaches(g, a, x)
        ensures a == x
      {
        if a != x { var _ := ReachSplit(g, a, x); }
      }
    } else {
      var p := ShallowParent(g, x);
      DepthBound(g, p);
      ReachSelf(g, p);
      ReachParent(g, p, p, x);
      ParentBefore(g, p, x);
      assert Reaches(g, p, x) && p != x;
    }
  }

  lemma {:induction false} BelowSomeTip(g: Graph, id: HeaderId) returns (t: HeaderId)
    requires Has(g, id)
    ensures t in Tips(g) && Reaches(g, id, t)
    decreases |g| - IndexOf(g, id)
  {
    var i := IndexOf(g, id);
    if HasChild(g, id) {
      var j :| 0 <= j < |g| && id in g[j].parents;
      var c := g[j].id;
      assert HasBefore(g, |g|, c);
      assert IndexOf(g, c) == j;
      assert id in Parents(g, c);
      ParentBefore(g, id, c);
      t := BelowSomeTip(g, c);
      ReachSelf(g, id);
      ReachParent(g, id, id, c);
      ReachTrans(g, id, c, t);
    } else {
      t := id;
      assert g[i].id == id;
      ReachSelf(g, id);
    }
  }

  /** Two snapshots of one growing graph with the same tips are the same snapshot. */
  lemma EqualTipsEqualGraphs(g: Graph, g': Graph)
    requires g <= g'
    ensures Tips(g) == Tips(g') <==> g == g'
  {
    if Tips(g) == Tips(g') && |g| < |g'| {
      ExtendsWithin(g, g');
      var h := g'[|g'| - 1].id;
      assert HasBefore(g', |g'|, h);
      assert !Has(g, h) by {
        forall k | 0 <= k < |g|
          ensures g[k].id != h
        {
          assert g[k] == g'[k];
        }
      }
      var t := BelowSomeTip(g', h);
      assert t in Tips(g);
      var i :| 0 <= i < |g| && g[i].id == t;
      assert HasBefore(g, |g|, t);
      WithinReaches(g, g', h, t);
    }
  }

  /** An id never stands for two different headers, as with a collision-free hash. */
  ghost predicate IdsDetermineHeaders(g: Graph, g': Graph) {
    forall h, h' :: h in g && h' in g' && h.id == h'.id ==> h == h'
  }

  lemma {:induction false} AncestorsAreShared(g: Graph, g': Graph, a: HeaderId, d: HeaderId)
    requires IdsDetermineHeaders(g, g') && Reaches(g, a, d) && Has(g', d)
    ensures Has(g', a)
    decreases IndexOf(g, d)
  {
    if a != d {
      var q := ReachSplit(g, a, d);
      ParentBefore(g, q, d);
      assert g[IndexOf(g, d)] == g'[IndexOf(g', d)];
      ParentBefore(g', q, d);
      AncestorsAreShared(g, g', a, q);
    }
  }

  lemma TipsCover(g: Graph, g': Graph)
    requires IdsDetermineHeaders(g, g') && Tips(g) <= Tips(g')
    ensures Within(g, g')
  {
    forall h | h in g
      ensures h in g'
    {
      assert HasBefore(g, |g|, h.id);
      var t := BelowSomeTip(g, h.id);
      assert t in Tips(g');
      assert HasBefore(g', |g'|, t);
      AncestorsAreShared(g, g', h.id, t);
      assert g'[IndexOf(g', h.id)] == h;
    }
  }

  /** Any two graphs over the same headers have equal tips exactly when they hold the same headers. */
  lemma EqualTipsSameHeaders(g: Graph, g': Graph)
    requires IdsDetermineHeaders(g, g')
    ensures Tips(g) == Tips(g') <==> SameHeaders(g, g')
  {
    if Tips(g) == Tips(g') {
      TipsCover(g, g');
      forall h', h | h' in g' && h in g && h'.id == h.id
        ensures h' == h
      {
      }
      TipsCover(g', g);
    }
    if SameHeaders(g, g') {
      WithinSets(g, g');
      WithinSets(g', g);
    }
  }
}
