/**
  What the broken closure of the known headers costs: a peer can be sent a header that it has, below a tip that it has
  named.
 */
module Resending {
  import opened Common
  import opened EventGraph
  import opened Ancestry
  import opened Heap
  import opened SyncResponder
  import opened Marking
  import opened SyncDelivery

  /** A chain of four headers, and a fifth on top of the first. */
  const FORKED: seq<Header> := [
    Header(1, [], true, []), Header(2, [1], true, []), Header(3, [2], true, []), Header(4, [3], true, []),
    Header(5, [1], true, [])]

  lemma ForkedIsGraph()
    ensures Wf(FORKED)
  {
    assert FORKED[0].id == 1 && FORKED[1].id == 2 && FORKED[2].id == 3 && FORKED[3].id == 4 && FORKED[4].id == 5;
    assert HasBefore(FORKED, 1, 1) && HasBefore(FORKED, 2, 2) && HasBefore(FORKED, 3, 3) && HasBefore(FORKED, 4, 1);
  }

  function Forked(): Graph {
    ForkedIsGraph();
    FORKED
  }

  lemma ForkedShape()
    ensures var g := Forked();
      && (forall x :: Has(g, x) <==> 1 <= x <= 5)
      && Parents(g, 1) == [] && Parents(g, 2) == [1] && Parents(g, 3) == [2] && Parents(g, 4) == [3]
      && Parents(g, 5) == [1]
      && Tips(g) == {4, 5} && |g| == 5
  {
    var g := Forked();
    assert g[0].id == 1 && g[1].id == 2 && g[2].id == 3 && g[3].id == 4 && g[4].id == 5;
    assert 1 in g[1].parents && 2 in g[2].parents && 3 in g[3].parents;
    assert forall x :: Has(g, x) ==> x in {1, 2, 3, 4, 5};
  }

  lemma ForkedDepths()
    ensures var g := Forked(); DepthOf(g, 1) == 1 && DepthOf(g, 4) == 4 && DepthOf(g, 5) == 2
  {
    hide Forked, DepthOf, Parents, Has;
    ForkedShape();
    var g := Forked();
    RootDepth(g, 1);
    DepthOfChild(g, 2, 1);
    DepthOfChild(g, 3, 2);
    DepthOfChild(g, 4, 3);
    DepthOfChild(g, 5, 1);
  }

  lemma ForkedChildren()
    ensures Children(Forked(), 4) == [] && 2 in Children(Forked(), 1)
  {
    hide Forked, Children;
    ForkedShape();
    var g := Forked();
    ChildrenMembers(g, 1, 2);
    var cs := Children(g, 4);
    assert cs != [] ==> cs[0] in cs;
    forall x
      ensures x !in cs
    {
      ChildrenMembers(g, 4, x);
    }
  }

  /** The peer names tip 4, and is told of headers 5 and 1. */
  function AfterFirst(): Responder {
    Responder({4}, {}, [], [5, 1], [])
  }

  lemma TipTaken(known: set<HeaderId>, r: Responder)
    requires r.sendQueue == [] && r.theirKnown == known
    ensures HandleTheirTips(Forked(), r, [4]) == r.(theirKnown := Mark(Forked(), known, [4]))
  {
    hide Forked, Mark, Children, Has;
    ForkedShape();
    ForkedChildren();
    var g := Forked();
    assert [4][1..] == [];
    assert HandleTips(g, r, [4]) == HandleTip(g, r, 4);
    assert SendEntries(g, []) == [];
  }

  lemma TipsProposed(r: Responder)
    requires r.havesQueue == []
    ensures PrepareOurTips(Forked(), r).havesQueue == [HaveEntry(true, 4, 4, 0), HaveEntry(true, 2, 5, 0)]
  {
    hide Forked, DepthOf;
    ForkedShape();
    ForkedDepths();
    TwoAscending();
    var entries := HaveEntries(Forked(), true, [4, 5], 0);
    assert entries == [HaveEntry(true, 4, 4, 0), HaveEntry(true, 2, 5, 0)];
    assert entries[1..] == [HaveEntry(true, 2, 5, 0)] && entries[1..][1..] == [];
    assert Push(HaveBefore, [], entries[0]) == [entries[0]];
    assert [entries[0]][1..] == [];
    assert Push(HaveBefore, [entries[0]], entries[1]) == [entries[0]] + Push(HaveBefore, [], entries[1]);
  }

  lemma TwoAscending()
    ensures Ascending({4, 5}) == [4, 5]
  {
    var s: set<HeaderId> := {4, 5};
    LeastIsUnique(s);
    assert IsLeast(4, s);
    var t: set<HeaderId> := {5};
    assert s - {4} == t;
    LeastIsUnique(t);
    assert IsLeast(5, t) && t - {5} == {};
  }

  lemma HavesOfFirst(r: Responder)
    requires r == Responder({4}, {}, [], [], [HaveEntry(true, 4, 4, 0), HaveEntry(true, 2, 5, 0)])
    ensures PrepareMoreHaves(Forked(), r) == AfterFirst()
  {
    hide Forked, DepthOf, Parents;
    ForkedShape();
    ForkedDepths();
    var g := Forked();
    var r1 := PopHave(g, r);
    assert r1 == Responder({4}, {}, [], [], [HaveEntry(true, 2, 5, 0)]);
    var parents := HaveEntries(g, false, [1], 1);
    assert parents == [HaveEntry(false, 1, 1, 1)] && parents[1..] == [];
    assert PushAll(HaveBefore, [], parents) == parents;
    var r2 := PopHave(g, r1);
    assert r2 == Responder({4}, {}, [], [5], parents);
    assert HaveEntries(g, false, [], 2) == [];
    var r3 := PopHave(g, r2);
    assert r3 == AfterFirst();
    assert PrepareMoreHaves(g, r2) == PrepareMoreHaves(g, r3);
    assert PrepareMoreHaves(g, r1) == PrepareMoreHaves(g, r2);
  }

  lemma FirstAnswer()
    ensures Answer(NEW, Event(Forked(), Initial([4]))) == (AfterFirst(), [])
  {
    hide Forked, Mark, HandleTheirTips, PrepareMoreHaves, UpdateOurUnknown, Tips, Ascending, Has;
    ForkedShape();
    var g := Forked();
    NoUnknown(g, NEW);
    TipTaken({}, NEW);
    MarkBounds(g, {}, 4);
    var r := Responder({4}, {}, [], [], []);
    assert TakeIn(g, NEW, Initial([4])) == r;
    TipsProposed(r);
    var r1 := PrepareOurTips(g, r);
    assert PrepareOperations(g, r1, []) == (r1, []);
    HavesOfFirst(r1);
  }

  /** Naming tip 4 again marks header 3, and then header 1 is acknowledged. */
  lemma SecondRequest(bits: Bitmap)
    requires !bits[0] && bits[1]
    ensures var r := TakeIn(Forked(), AfterFirst(), Round([4], bits));
      && r.theirKnown == {1, 3, 4} && r.ourUnknown == {}
      && Pending(Forked(), r.sendQueue, 2)
  {
    hide Forked, Children, Has, UpdateOurUnknown, DepthOf, Parents, HandleTheirTips;
    ForkedShape();
    ForkedChildren();
    var g := Forked();
    NoUnknown(g, AfterFirst());
    TipTaken({4}, AfterFirst());
    MarkStep(g, {4}, [4]);
    assert [4][1..] + [3] == [3];
    MarkBounds(g, {4}, 3);
    var known: set<HeaderId> := {3, 4};
    assert {4} + {3} == known;
    var r1 := AfterFirst().(theirKnown := known);
    assert HandleTheirTips(g, AfterFirst(), [4]) == r1;
    assert [5, 1][1..] == [1] && [1][1..] == [] && bits[1..][0] == bits[1];
    assert 1 in Parents(g, 5) && 1 !in known && Parents(g, 5) != [];
    assert HandleHave(g, r1, 5, false) == r1;
    MarkBounds(g, known, 1);
    assert known + {1} == {1, 3, 4};
    var r2 := HandleHave(g, r1, 1, true);
    assert HandleHaves(g, r1, [5, 1], bits) == HandleHaves(g, r2, [], bits[1..][1..]);
    var i :| 0 <= i < |Children(g, 1)| && Children(g, 1)[i] == 2;
    var entries := SendEntries(g, Children(g, 1));
    PushAllMembers(SendBefore, [], entries);
    assert entries[i] in entries && entries[i].id == 2;
    ReachSelf(g, 2);
  }

  /**
    A peer that has headers 1 to 4 names its tip 4 in two requests and truthfully acknowledges header 1. It is then
    sent header 2, an ancestor of its tip, since only 1, 3 and 4 count as known.
   */
  lemma AncestorIsSentAgain(bits: Bitmap)
    requires !bits[0] && bits[1]
    ensures Closed(Forked(), {1, 2, 3, 4})
    ensures var r := Answer(NEW, Event(Forked(), Initial([4]))).0;
      && HonestRequest(r, Round([4], bits), {1, 2, 3, 4})
      && 2 in Answer(r, Event(Forked(), Round([4], bits))).1
  {
    hide Forked, Mark, TakeIn, PrepareMoreHaves, PrepareOperations, Tips, Ascending, Parents, Has, PushAll, Pending;
    ForkedShape();
    FirstAnswer();
    SecondRequest(bits);
    var g := Forked();
    FirstHeld();
    TakeInHeld(g, AfterFirst(), Round([4], bits));
    var r := TakeIn(g, AfterFirst(), Round([4], bits));
    PrepareOurTipsHeld(g, r);
    var r1 := PrepareOurTips(g, r);
    var more := PrepareDelivers(g, r1, []);
    assert [] + more == more;
    OutstandingMembers(g, r1, 2);
    IdsSize(g);
    AllDelivered(g, r1, PrepareOperations(g, r1, []).0, more, 2);
  }

  lemma FirstHeld()
    ensures Held(Forked(), AfterFirst())
  {
    hide Forked;
    ForkedShape();
  }

  lemma AllDelivered(g: Graph, r: Responder, r': Responder, more: seq<HeaderId>, x: HeaderId)
    requires Delivers(g, r, r', more) && x in Outstanding(g, r) && |Ids(g)| <= MAX_DELIVER_HEADERS
    requires |more| == Min(MAX_DELIVER_HEADERS, |Outstanding(g, r)|)
    ensures x in more
  {
    hide Pending;
    DistinctSize(more);
    assert Outstanding(g, r) <= Ids(g);
    SmallerSet(Outstanding(g, r), Ids(g));
    SameSize(Elems(more), Outstanding(g, r));
  }

  lemma SmallerSet<T>(a: set<T>, b: set<T>)
    requires a <= b
    ensures |a| <= |b|
  {
    assert a + (b - a) == b;
    assert |b| == |a| + |b - a|;
  }
}
