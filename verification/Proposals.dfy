/** Which headers the responder proposes, and when it tells the peer to wait. */
module Proposals {
  import opened Common
  import opened EventGraph
  import opened Ancestry
  import opened Bits
  import opened Heap
  import opened Walks
  import opened SyncResponder
  import opened Marking
  import opened SyncDelivery

  /** Only headers that the peer is not known to have. */
  ghost predicate Unknown(r: Responder, path: seq<HeaderId>) {
    forall i :: 0 <= i < |path| ==> !TheyKnow(r, path[i])
  }

  predicate AtDistance(g: Graph, distance: nat, x: HeaderId) {
    IsPowerOfTwoNumber(distance) || DepthOf(g, x) == 1
  }

  /** A way up from the entry through unknown headers ends at `x`, at the right distance. */
  ghost predicate LeadsTo(g: Graph, r: Responder, e: HaveEntry, path: seq<HeaderId>, x: HeaderId) {
    PathTo(g, path, e.id, x) && Unknown(r, path) && AtDistance(g, e.distance + |path| - 1, x)
  }

  ghost predicate ProposedBy(g: Graph, r: Responder, e: HaveEntry, x: HeaderId) {
    exists path :: LeadsTo(g, r, e, path, x)
  }

  ghost predicate Proposable(g: Graph, r: Responder, q: seq<HaveEntry>, x: HeaderId) {
    exists e :: e in q && ProposedBy(g, r, e, x)
  }

  /** The distances at which headers are proposed, and the roots, which always are. */
  lemma ProposedDistances(g: Graph, distance: nat, x: HeaderId)
    requires Has(g, x)
    ensures AtDistance(g, distance, x) <==> ZeroOrPowerOfTwo(distance) || x in Roots(g)
  {
    NumbersThatPass(distance);
    hide Depth, Reaches;
    RootsHaveNoAncestors(g, x);
    assert DepthOf(g, x) == Depth(g, x);
  }

  /** An entry proposes its own header, or leaves it to the entries of the parents. */
  lemma ProposedByStep(g: Graph, r: Responder, e: HaveEntry, x: HeaderId)
    requires Has(g, e.id)
    ensures ProposedBy(g, r, e, x) <==>
      !TheyKnow(r, e.id)
      && ((x == e.id && AtDistance(g, e.distance, x))
          || Proposable(g, r, HaveEntries(g, false, Parents(g, e.id), e.distance + 1), x))
  {
    hide DepthOf, Has, Parents;
    var ps := Parents(g, e.id);
    var entries := HaveEntries(g, false, ps, e.distance + 1);
    if ProposedBy(g, r, e, x) {
      var path :| LeadsTo(g, r, e, path, x);
      if |path| > 1 {
        PathTail(g, path);
        var i :| 0 <= i < |ps| && ps[i] == path[1];
        assert LeadsTo(g, r, entries[i], path[1..], x);
        assert entries[i] in entries;
      }
    }
    if !TheyKnow(r, e.id) && x == e.id && AtDistance(g, e.distance, x) {
      assert LeadsTo(g, r, e, [x], x);
    }
    if !TheyKnow(r, e.id) && Proposable(g, r, entries, x) {
      var e' :| e' in entries && ProposedBy(g, r, e', x);
      var path :| LeadsTo(g, r, e', path, x);
      PathCons(g, e.id, path);
      assert LeadsTo(g, r, e, [e.id] + path, x);
    }
  }

  /** What can be proposed before a pop is proposed by it or can be proposed after it, and nothing else. */
  lemma PopConserves(g: Graph, r: Responder, x: HeaderId)
    requires Held(g, r) && r.havesQueue != []
    ensures var r' := PopHave(g, r);
      (x in r'.sentHaves || Proposable(g, r', r'.havesQueue, x))
        <==> (x in r.sentHaves || Proposable(g, r, r.havesQueue, x))
  {
    hide Parents, Depth, ProposedBy;
    var e, rest, r' := r.havesQueue[0], r.havesQueue[1..], PopHave(g, r);
    var entries := HaveEntries(g, false, Parents(g, e.id), e.distance + 1);
    assert e in r.havesQueue;
    ProposedByStep(g, r, e, x);
    PushAllMembers(HaveBefore, rest, entries);
    assert forall y :: y in r.havesQueue <==> y == e || y in rest;
    forall y
      ensures ProposedBy(g, r', y, x) <==> ProposedBy(g, r, y, x)
    {
      SameProposals(g, r, r', y, x);
    }
  }

  lemma SameProposals(g: Graph, r: Responder, r': Responder, e: HaveEntry, x: HeaderId)
    requires r.theirKnown == r'.theirKnown && r.ourUnknown == r'.ourUnknown
    ensures ProposedBy(g, r, e, x) <==> ProposedBy(g, r', e, x)
  {
    if path :| LeadsTo(g, r, e, path, x) { assert LeadsTo(g, r', e, path, x); }
    if path :| LeadsTo(g, r', e, path, x) { assert LeadsTo(g, r, e, path, x); }
  }

  lemma {:induction false} HavesConserve(g: Graph, r: Responder, x: HeaderId)
    requires Held(g, r) && |r.sentHaves| < MAX_HAVE_HEADERS
    ensures var r' := PrepareMoreHaves(g, r);
      && ((x in r'.sentHaves || Proposable(g, r', r'.havesQueue, x))
          <==> (x in r.sentHaves || Proposable(g, r, r.havesQueue, x)))
      && (|r'.sentHaves| < MAX_HAVE_HEADERS ==> r'.havesQueue == [])
    decreases Weight(HaveWeight(g), r.havesQueue)
  {
    hide Proposable, PopHave, Held, Above;
    if r.havesQueue != [] {
      PopHaveWeight(g, r);
      PopConserves(g, r, x);
      HeldAfterPop(g, r);
      var r' := PopHave(g, r);
      if |r'.sentHaves| < MAX_HAVE_HEADERS { HavesConserve(g, r', x); }
    }
  }

  lemma HeldAfterPop(g: Graph, r: Responder)
    requires Held(g, r) && |r.sentHaves| < MAX_HAVE_HEADERS && r.havesQueue != []
    ensures Held(g, PopHave(g, r)) && |PopHave(g, r).sentHaves| <= MAX_HAVE_HEADERS
  {
    hide Has, Parents, Depth;
    PopHaveHeld(g, r);
  }

  /**
    The proposals are headers at an exponential distance above a queued one, or roots, with nothing in between that the
    peer is known to have; unless the limit is reached, they are all such headers.
   */
  lemma ProposalsExact(g: Graph, r: Responder, x: HeaderId)
    requires Held(g, r)
    ensures var haves := PrepareSentHaves(g, r).sentHaves;
      && (x in haves ==> Proposable(g, r, r.havesQueue, x))
      && (|haves| < MAX_HAVE_HEADERS ==> (x in haves <==> Proposable(g, r, r.havesQueue, x)))
  {
    hide ProposedBy, PrepareMoreHaves, Has, Depth;
    var r0 := r.(sentHaves := []);
    HavesConserve(g, r0, x);
    forall y
      ensures ProposedBy(g, r0, y, x) <==> ProposedBy(g, r, y, x)
    {
      SameProposals(g, r, r0, y, x);
    }
  }

  /** A way up from a tip through unknown headers, as long as a power of two, or of one header, or up to a root. */
  ghost predicate WayFromTip(g: Graph, r: Responder, path: seq<HeaderId>, x: HeaderId) {
    && path != [] && path[0] in Tips(g) && PathTo(g, path, path[0], x) && Unknown(r, path)
    && (ZeroOrPowerOfTwo(|path| - 1) || x in Roots(g))
  }

  lemma TipEntries(g: Graph, r: Responder, x: HeaderId)
    ensures Proposable(g, r, HaveEntries(g, true, Ascending(Tips(g)), 0), x) <==>
      exists path :: WayFromTip(g, r, path, x)
  {
    hide DepthOf, Parents, Tips, Roots, IsPowerOfTwoNumber, Unknown, ZeroOrPowerOfTwo;
    var ids := Ascending(Tips(g));
    var entries := HaveEntries(g, true, ids, 0);
    AscendingMembers(Tips(g));
    if Proposable(g, r, entries, x) {
      var e :| e in entries && ProposedBy(g, r, e, x);
      var path :| LeadsTo(g, r, e, path, x);
      PathEnd(g, path);
      ProposedDistances(g, |path| - 1, x);
      assert e.id in ids;
      assert WayFromTip(g, r, path, x);
    }
    if path :| WayFromTip(g, r, path, x) {
      PathEnd(g, path);
      ProposedDistances(g, |path| - 1, x);
      var k :| 0 <= k < |ids| && ids[k] == path[0];
      assert entries[k] in entries && entries[k].id == path[0] && entries[k].distance == 0;
      assert LeadsTo(g, r, entries[k], path, x);
    }
  }

  lemma {:induction false} PathEnd(g: Graph, path: seq<HeaderId>)
    requires IsPath(g, path)
    ensures Has(g, path[|path| - 1])
    decreases |path|
  {
    if |path| > 1 {
      PathTail(g, path);
      PathEnd(g, path[1..]);
    }
  }

  /**
    What a responder with nothing left in its queue proposes: the tips, and the headers that are a power of two above
    them, and roots, along ways that the peer is not known to have; below the limit all of these.
   */
  lemma ProposedFromTips(g: Graph, r: Responder, x: HeaderId)
    requires Held(g, r) && r.havesQueue == []
    ensures var haves := PrepareSentHaves(g, PrepareOurTips(g, r)).sentHaves;
      && (x in haves ==> exists path :: WayFromTip(g, r, path, x))
      && (|haves| < MAX_HAVE_HEADERS ==> (x in haves <==> exists path :: WayFromTip(g, r, path, x)))
  {
    hide ProposedBy, PrepareMoreHaves, Has, Depth, Tips, Ascending, WayFromTip;
    var r1 := PrepareOurTips(g, r);
    PrepareOurTipsHeld(g, r);
    ProposalsExact(g, r1, x);
    var entries := HaveEntries(g, true, Ascending(Tips(g)), 0);
    PushAllMembers(HaveBefore, r.havesQueue, entries);
    forall e
      ensures ProposedBy(g, r1, e, x) <==> ProposedBy(g, r, e, x)
    {
      SameProposals(g, r, r1, e, x);
    }
    TipEntries(g, r, x);
  }

  // ---------- Waiting

  lemma {:induction false} OperationsKeepHaves(g: Graph, r: Responder, ops: seq<HeaderId>)
    ensures PrepareOperations(g, r, ops).0.havesQueue == r.havesQueue
    decreases Weight(SendWeight(g), r.sendQueue)
  {
    hide Below, Mark, PushAll;
    if r.sendQueue != [] {
      PopSendWeight(g, r, ops);
      var (r', ops') := PopSend(g, r, ops);
      if |ops'| != MAX_DELIVER_HEADERS { OperationsKeepHaves(g, r', ops'); }
    }
  }

  lemma TipIsProposed(g: Graph, r: Responder, q: seq<HaveEntry>, t: HeaderId)
    requires t in Tips(g) && !TheyKnow(r, t)
    ensures Proposable(g, r, PushAll(HaveBefore, q, HaveEntries(g, true, Ascending(Tips(g)), 0)), t)
  {
    hide DepthOf, Parents;
    var ids := Ascending(Tips(g));
    var entries := HaveEntries(g, true, ids, 0);
    AscendingMembers(Tips(g));
    PushAllMembers(HaveBefore, q, entries);
    var k :| 0 <= k < |ids| && ids[k] == t;
    assert entries[k] in entries;
    var i :| 0 <= i < |g| && !HasChild(g, g[i].id) && g[i].id == t;
    assert Has(g, t);
    assert LeadsTo(g, r, entries[k], [t], t);
  }

  /** A response without deliveries and proposals. */
  ghost predicate Waits(g: Graph, r: Responder) {
    Prepare(g, r).1 == [] && Prepare(g, r).0.sentHaves == []
  }

  /** The peer is told to wait only if it counts as having every tip. */
  lemma WaitMeansTipsKnown(g: Graph, r: Responder, t: HeaderId)
    requires Held(g, r) && Waits(g, r) && t in Tips(g)
    ensures TheyKnow(Prepare(g, r).0, t)
  {
    hide PrepareOperations, PrepareMoreHaves, Held, Proposable, Ascending, Tips, PushAll;
    var r1 := PrepareOurTips(g, r);
    PrepareOurTipsHeld(g, r);
    PrepareOperationsHeld(g, r1, []);
    OperationsKeepHaves(g, r1, []);
    var r2 := PrepareOperations(g, r1, []).0;
    HavesKeepKnown(g, r2.(sentHaves := []));
    ProposalsExact(g, r2, t);
    if !TheyKnow(r2, t) { TipIsProposed(g, r2, r.havesQueue, t); }
  }

  /**
    Waiting is sound: if what was sent has arrived, a peer is told to wait only when it has every header of the
    responder.
   */
  lemma WaitMeansNothingMissing(g: Graph, r: Responder, sent: seq<HeaderId>, has: set<HeaderId>)
    requires Held(g, r) && Accounted(Prepare(g, r).0, sent, has) && Closed(g, has)
    requires Waits(g, r) && Elems(sent) <= has
    ensures Ids(g) <= has
  {
    hide Held, Waits, Prepare, Tips, Reaches, Has;
    forall x | x in Ids(g)
      ensures x in has
    {
      IdThere(g, x);
      var t := BelowSomeTip(g, x);
      WaitMeansTipsKnown(g, r, t);
      AncestorsInClosed(g, has, x, t);
    }
  }

  lemma IdThere(g: Graph, x: HeaderId)
    requires x in Ids(g)
    ensures Has(g, x)
  {
  }

  lemma {:induction false} AncestorsInClosed(g: Graph, s: set<HeaderId>, a: HeaderId, d: HeaderId)
    requires Closed(g, s) && Reaches(g, a, d) && d in s
    ensures a in s
    decreases if Has(g, d) then IndexOf(g, d) else 0
  {
    if a != d {
      var q := ReachSplit(g, a, d);
      ParentBefore(g, q, d);
      AncestorsInClosed(g, s, a, q);
    }
  }

  /** Waiting is complete: a peer that counts as having every header is told to wait. */
  lemma AllKnownMeansWait(g: Graph, r: Responder)
    requires Held(g, r) && forall x :: Has(g, x) ==> TheyKnow(r, x)
    ensures Waits(g, r)
  {
    hide PrepareOperations, PrepareMoreHaves, Tips, Ascending, PushAll, Depth, Has, Held;
    var r1 := PrepareOurTips(g, r);
    PrepareOurTipsHeld(g, r);
    var more := PrepareDelivers(g, r1, []);
    NothingOutstanding(g, r1);
    var r2 := PrepareOperations(g, r1, []).0;
    PrepareOperationsHeld(g, r1, []);
    KnownGrows(g, r1, []);
    var haves := PrepareSentHaves(g, r2).sentHaves;
    assert haves != [] ==> haves[0] in haves;
    forall x
      ensures x !in haves
    {
      ProposalsExact(g, r2, x);
      NothingProposable(g, r2, x);
    }
  }

  lemma NothingOutstanding(g: Graph, r: Responder)
    requires forall x :: Has(g, x) ==> TheyKnow(r, x)
    ensures Outstanding(g, r) == {}
  {
    forall i | 0 <= i < |g|
      ensures TheyKnow(r, g[i].id)
    {
      assert Has(g, g[i].id);
    }
  }

  lemma NothingProposable(g: Graph, r: Responder, x: HeaderId)
    requires forall y :: Has(g, y) ==> TheyKnow(r, y)
    ensures !Proposable(g, r, r.havesQueue, x)
  {
    forall e | e in r.havesQueue
      ensures !ProposedBy(g, r, e, x)
    {
      forall path
        ensures !LeadsTo(g, r, e, path, x)
      {
      }
    }
  }

  lemma {:induction false} KnownGrows(g: Graph, r: Responder, ops: seq<HeaderId>)
    ensures var r' := PrepareOperations(g, r, ops).0;
      r.theirKnown <= r'.theirKnown && r'.ourUnknown == r.ourUnknown
    decreases Weight(SendWeight(g), r.sendQueue)
  {
    hide Below, Mark, PushAll;
    if r.sendQueue != [] {
      PopSendWeight(g, r, ops);
      MarkGrows(g, r.theirKnown, [r.sendQueue[0].id]);
      var (r', ops') := PopSend(g, r, ops);
      if |ops'| != MAX_DELIVER_HEADERS { KnownGrows(g, r', ops'); }
    }
  }
}
