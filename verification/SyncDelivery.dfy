/** What the responder delivers over whole runs, while its graph grows between the requests. */
module SyncDelivery {
  import opened Common
  import opened EventGraph
  import opened Ancestry
  import opened Heap
  import opened Walks
  import opened SyncResponder
  import opened Marking

  /** A request of the peer, or the next try for a peer that was told to wait. */
  datatype Request =
    | Initial(tips: seq<HeaderId>)
    | Round(tips: seq<HeaderId>, known: Bitmap)
    | Resume(tips: seq<HeaderId>)

  /** A request together with the snapshot of the graph that it is answered from. */
  datatype Event = Event(snapshot: Graph, request: Request)

  /** Whenever a snapshot comes in, the headers that have arrived meanwhile are dealt with first. */
  function TakeIn(g: Graph, r: Responder, req: Request): Responder {
    var r' := HandleTheirTips(g, UpdateOurUnknown(g, r), req.tips);
    if req.Round? then HandleTheirKnown(g, r', req.known) else r'
  }

  /** As long as the peer names no headers that we miss, there is nothing to catch up with. */
  lemma NoUnknown(g: Graph, r: Responder)
    requires r.ourUnknown == {}
    ensures UpdateOurUnknown(g, r) == r
  {
    assert Arrived(g, r.ourUnknown) == {};
    assert r.ourUnknown - {} == r.ourUnknown;
  }

  function Answer(r: Responder, e: Event): (Responder, seq<HeaderId>) {
    Prepare(e.snapshot, TakeIn(e.snapshot, r, e.request))
  }

  /** The state after a run, and everything delivered in it. */
  function RunSync(r: Responder, es: seq<Event>): (Responder, seq<HeaderId>)
    decreases |es|
  {
    if es == [] then (r, [])
    else
      var (r', sent) := Answer(r, es[0]);
      var (r'', more) := RunSync(r', es[1..]);
      (r'', sent + more)
  }

  ghost predicate Growing(g: Graph, es: seq<Event>)
    decreases |es|
  {
    es == [] || (g <= es[0].snapshot && Growing(es[0].snapshot, es[1..]))
  }

  // ---------- The queues never refer to a missing header

  lemma HeldGrows(g: Graph, g': Graph, r: Responder)
    requires Held(g, r) && g <= g'
    ensures Held(g', r)
  {
    ExtendsWithin(g, g');
    forall id | Has(g, id)
      ensures Has(g', id) && Depth(g', id) == Depth(g, id)
    {
      WithinDepth(g, g', id);
    }
  }

  lemma TakeInHeld(g: Graph, r: Responder, req: Request)
    requires Held(g, r)
    ensures Held(g, TakeIn(g, r, req))
  {
    hide HandleTheirTips, UpdateOurUnknown, Has, Depth;
    UpdateOurUnknownHeld(g, r);
    HandleTheirTipsHeld(g, UpdateOurUnknown(g, r), req.tips);
    var r' := HandleTheirTips(g, UpdateOurUnknown(g, r), req.tips);
    if req.Round? { HandleHavesHeld(g, r', r'.sentHaves, req.known); }
  }

  lemma AnswerHeld(r: Responder, e: Event)
    requires Held(e.snapshot, r)
    ensures Held(e.snapshot, Answer(r, e).0)
  {
    hide TakeIn, Prepare;
    TakeInHeld(e.snapshot, r, e.request);
    PrepareHeld(e.snapshot, TakeIn(e.snapshot, r, e.request));
  }

  ghost function LastSnapshot(g: Graph, es: seq<Event>): Graph {
    if es == [] then g else es[|es| - 1].snapshot
  }

  /** In no run over a growing graph does a look-up of a queued, proposed or known header fail. */
  lemma {:induction false} NothingIsMissing(g: Graph, r: Responder, es: seq<Event>)
    requires Held(g, r) && Growing(g, es)
    ensures Held(LastSnapshot(g, es), RunSync(r, es).0)
    decreases |es|
  {
    hide Answer;
    if es != [] {
      HeldGrows(g, es[0].snapshot, r);
      AnswerHeld(r, es[0]);
      NothingIsMissing(es[0].snapshot, Answer(r, es[0]).0, es[1..]);
    }
  }

  // ---------- What is sent, and what is skipped

  /**
    Nothing was sent twice, everything sent is known to the peer, and all else that counts as known the peer really
    has.
   */
  ghost predicate Accounted(r: Responder, sent: seq<HeaderId>, has: set<HeaderId>) {
    && Distinct(sent)
    && Elems(sent) <= r.theirKnown
    && r.theirKnown <= Elems(sent) + has
    && r.ourUnknown <= has
  }

  lemma MarkAccounted(g: Graph, r: Responder, h: HeaderId, sent: seq<HeaderId>, has: set<HeaderId>)
    requires Accounted(r, sent, has) && Closed(g, has) && h in has
    ensures Accounted(r.(theirKnown := Mark(g, r.theirKnown, [h])), sent, has)
  {
    hide Mark;
    MarkGrows(g, r.theirKnown, [h]);
    MarkWithin(g, r.theirKnown, [h], has);
  }

  lemma {:induction false} HandleTipsAccounted(g: Graph, r: Responder, tips: seq<HeaderId>, sent: seq<HeaderId>,
                                               has: set<HeaderId>)
    requires Accounted(r, sent, has) && Closed(g, has) && forall x :: x in tips ==> x in has
    ensures Accounted(HandleTips(g, r, tips), sent, has)
    ensures HandleTips(g, r, tips).sentHaves == r.sentHaves
    decreases |tips|
  {
    hide Mark;
    if tips != [] {
      MarkAccounted(g, r, tips[0], sent, has);
      HandleTipsAccounted(g, HandleTip(g, r, tips[0]), tips[1..], sent, has);
    }
  }

  /** The bitmap claims only headers the peer has. */
  ghost predicate HonestBits(haves: seq<HeaderId>, bits: seq<bool>, has: set<HeaderId>) {
    forall i :: 0 <= i < |haves| && i < |bits| && bits[i] ==> haves[i] in has
  }

  lemma {:induction false} HandleHavesAccounted(g: Graph, r: Responder, haves: seq<HeaderId>, bits: seq<bool>,
                                                sent: seq<HeaderId>, has: set<HeaderId>)
    requires Accounted(r, sent, has) && Closed(g, has) && HonestBits(haves, bits, has)
    ensures Accounted(HandleHaves(g, r, haves, bits), sent, has)
    decreases |haves|
  {
    hide Mark;
    if haves != [] && bits != [] {
      if bits[0] { MarkAccounted(g, r, haves[0], sent, has); }
      assert HonestBits(haves[1..], bits[1..], has);
      HandleHavesAccounted(g, HandleHave(g, r, haves[0], bits[0]), haves[1..], bits[1..], sent, has);
    }
  }

  lemma {:induction false} MarkAllAccounted(g: Graph, r: Responder, ids: seq<HeaderId>, sent: seq<HeaderId>,
                                            has: set<HeaderId>)
    requires Accounted(r, sent, has) && Closed(g, has) && forall x :: x in ids ==> x in has
    ensures Accounted(r.(theirKnown := MarkAll(g, r.theirKnown, ids)), sent, has)
    decreases |ids|
  {
    hide Mark;
    if ids != [] {
      MarkAccounted(g, r, ids[0], sent, has);
      MarkAllAccounted(g, r.(theirKnown := Mark(g, r.theirKnown, [ids[0]])), ids[1..], sent, has);
    }
  }

  /** Sending: a header that is not known is delivered once; a known one is skipped, and there is a reason. */
  lemma PopSendAccounted(g: Graph, r: Responder, ops: seq<HeaderId>, sent: seq<HeaderId>, has: set<HeaderId>)
    requires Accounted(r, sent + ops, has) && r.sendQueue != [] && Has(g, r.sendQueue[0].id)
    ensures Accounted(PopSend(g, r, ops).0, sent + PopSend(g, r, ops).1, has)
    ensures var id := r.sendQueue[0].id;
      PopSend(g, r, ops).1 == if id in r.theirKnown + r.ourUnknown then ops else ops + [id]
    ensures var id := r.sendQueue[0].id; PopSend(g, r, ops).1 == ops ==> id in sent + ops || id in has
  {
    hide Mark, Has;
    var id := r.sendQueue[0].id;
    if !TheyKnow(r, id) {
      MarkBounds(g, r.theirKnown, id);
      assert sent + (ops + [id]) == (sent + ops) + [id];
      assert Elems(sent + ops + [id]) == Elems(sent + ops) + {id};
    }
  }

  lemma {:induction false} PrepareOperationsAccounted(g: Graph, r: Responder, ops: seq<HeaderId>, sent: seq<HeaderId>,
                                                      has: set<HeaderId>)
    requires Accounted(r, sent + ops, has) && Held(g, r)
    ensures Accounted(PrepareOperations(g, r, ops).0, sent + PrepareOperations(g, r, ops).1, has)
    decreases Weight(SendWeight(g), r.sendQueue)
  {
    hide PopSend, Has, Depth, Accounted;
    if r.sendQueue != [] {
      assert r.sendQueue[0] in r.sendQueue;
      PopSendWeight(g, r, ops);
      PopSendHeld(g, r, ops);
      PopSendAccounted(g, r, ops, sent, has);
      var (r', ops') := PopSend(g, r, ops);
      if |ops'| != MAX_DELIVER_HEADERS { PrepareOperationsAccounted(g, r', ops', sent, has); }
    }
  }

  lemma {:induction false} HavesKeepKnown(g: Graph, r: Responder)
    ensures PrepareMoreHaves(g, r).theirKnown == r.theirKnown && PrepareMoreHaves(g, r).ourUnknown == r.ourUnknown
    ensures PrepareMoreHaves(g, r).sendQueue == r.sendQueue
    decreases Weight(HaveWeight(g), r.havesQueue)
  {
    if r.havesQueue != [] {
      PopHaveWeight(g, r);
      if |PopHave(g, r).sentHaves| != MAX_HAVE_HEADERS { HavesKeepKnown(g, PopHave(g, r)); }
    }
  }

  /** The peer has the tips it names and the proposals it acknowledges. */
  ghost predicate HonestRequest(r: Responder, req: Request, has: set<HeaderId>) {
    && (forall x :: x in req.tips ==> x in has)
    && (req.Round? ==> HonestBits(r.sentHaves, req.known, has))
  }

  ghost predicate HonestRun(r: Responder, es: seq<Event>, has: set<HeaderId>)
    decreases |es|
  {
    es == [] || (HonestRequest(r, es[0].request, has) && HonestRun(Answer(r, es[0]).0, es[1..], has))
  }

  lemma TakeInAccounted(g: Graph, r: Responder, req: Request, sent: seq<HeaderId>, has: set<HeaderId>)
    requires Accounted(r, sent, has) && Closed(g, has) && HonestRequest(r, req, has)
    ensures Accounted(TakeIn(g, r, req), sent, has)
  {
    hide HandleTips, HandleHaves, MarkAll;
    var arrived := Arrived(g, r.ourUnknown);
    AscendingMembers(arrived);
    MarkAllAccounted(g, r, Ascending(arrived), sent, has);
    var r1 := UpdateOurUnknown(g, r);
    HandleTipsAccounted(g, r1, req.tips, sent, has);
    var r2 := HandleTheirTips(g, r1, req.tips);
    if req.Round? { HandleHavesAccounted(g, r2, r2.sentHaves, req.known, sent, has); }
  }

  lemma AnswerAccounted(r: Responder, e: Event, sent: seq<HeaderId>, has: set<HeaderId>)
    requires Accounted(r, sent, has) && Held(e.snapshot, r)
    requires Closed(e.snapshot, has) && HonestRequest(r, e.request, has)
    ensures Accounted(Answer(r, e).0, sent + Answer(r, e).1, has)
  {
    hide TakeIn, PrepareOperations, PrepareMoreHaves, Accounted, Held, PushAll;
    var g := e.snapshot;
    var r' := TakeIn(g, r, e.request);
    TakeInHeld(g, r, e.request);
    TakeInAccounted(g, r, e.request, sent, has);
    PrepareOurTipsHeld(g, r');
    SameAccount(r', PrepareOurTips(g, r'), sent + [], has);
    assert sent + [] == sent;
    PrepareOperationsAccounted(g, PrepareOurTips(g, r'), [], sent, has);
    var (r'', ops) := PrepareOperations(g, PrepareOurTips(g, r'), []);
    HavesKeepKnown(g, r''.(sentHaves := []));
    SameAccount(r'', PrepareSentHaves(g, r''), sent + ops, has);
  }

  lemma SameAccount(r: Responder, r': Responder, sent: seq<HeaderId>, has: set<HeaderId>)
    requires r.theirKnown == r'.theirKnown && r.ourUnknown == r'.ourUnknown
    ensures Accounted(r, sent, has) <==> Accounted(r', sent, has)
  {
  }

  lemma ClosedInPrefix(g: Graph, g': Graph, has: set<HeaderId>)
    requires g <= g' && Closed(g', has)
    ensures Closed(g, has)
  {
    ExtendsWithin(g, g');
    forall x, p | x in has && p in Parents(g, x)
      ensures p in has
    {
      WithinParents(g, g', x);
    }
  }

  lemma {:induction false} LastExtends(g: Graph, es: seq<Event>)
    requires Growing(g, es)
    ensures g <= LastSnapshot(g, es)
    ensures es != [] ==> LastSnapshot(es[0].snapshot, es[1..]) == LastSnapshot(g, es)
    decreases |es|
  {
    if es != [] { LastExtends(es[0].snapshot, es[1..]); }
  }

  /**
    Over whole runs with growing snapshots no header is sent twice, and a header counts as known to the peer, so that
    it is skipped, only if it was sent before or if the peer, whose headers come with all their ancestors, has it.
   */
  lemma {:induction false} DeliveredOnce(g: Graph, r: Responder, es: seq<Event>, sent: seq<HeaderId>,
                                         has: set<HeaderId>)
    requires Growing(g, es) && Held(g, r) && Accounted(r, sent, has)
    requires Closed(LastSnapshot(g, es), has) && HonestRun(r, es, has)
    ensures Accounted(RunSync(r, es).0, sent + RunSync(r, es).1, has)
    decreases |es|
  {
    hide Answer, Accounted, Held;
    if es == [] {
      assert sent + [] == sent;
    } else {
      var g' := es[0].snapshot;
      HeldGrows(g, g', r);
      LastExtends(g, es);
      LastExtends(g', es[1..]);
      ClosedInPrefix(g', LastSnapshot(g, es), has);
      AnswerHeld(r, es[0]);
      AnswerAccounted(r, es[0], sent, has);
      var (r', ops) := Answer(r, es[0]);
      DeliveredOnce(g', r', es[1..], sent + ops, has);
      assert sent + ops + RunSync(r', es[1..]).1 == sent + (ops + RunSync(r', es[1..]).1);
    }
  }

  // ---------- Draining the send queue

  /** At or below a queued header. */
  ghost predicate Pending(g: Graph, q: seq<SendEntry>, x: HeaderId) {
    exists e :: e in q && Reaches(g, e.id, x)
  }

  /** What is still to be delivered. */
  ghost function Outstanding(g: Graph, r: Responder): set<HeaderId> {
    set i | 0 <= i < |g| && Pending(g, r.sendQueue, g[i].id) && !TheyKnow(r, g[i].id) :: g[i].id
  }

  lemma OutstandingMembers(g: Graph, r: Responder, x: HeaderId)
    ensures x in Outstanding(g, r) <==> Pending(g, r.sendQueue, x) && !TheyKnow(r, x)
  {
    if Pending(g, r.sendQueue, x) {
      var e :| e in r.sendQueue && Reaches(g, e.id, x);
      ReachEarlier(g, e.id, x);
      assert g[IndexOf(g, x)].id == x;
    }
  }

  /** The first header below `a` on the way to `x`. */
  lemma {:induction false} ReachChild(g: Graph, a: HeaderId, x: HeaderId) returns (c: HeaderId)
    requires Reaches(g, a, x) && a != x
    ensures IsChild(g, a, c) && Reaches(g, c, x)
    decreases if Has(g, x) then IndexOf(g, x) else 0
  {
    var q := ReachSplit(g, a, x);
    ParentBefore(g, q, x);
    if q == a {
      c := x;
      ReachSelf(g, x);
    } else {
      c := ReachChild(g, a, q);
      ReachParent(g, c, q, x);
    }
  }

  /** Popping a header leaves it and what was pending below it pending or takes it out. */
  lemma PopPending(g: Graph, q: seq<SendEntry>, x: HeaderId)
    requires q != [] && Has(g, q[0].id)
    ensures var q' := PushAll(SendBefore, q[1..], SendEntries(g, Children(g, q[0].id)));
      Pending(g, q, x) <==> x == q[0].id || Pending(g, q', x)
  {
    hide Children, DepthOf, Parents, Has;
    var id := q[0].id;
    var entries := SendEntries(g, Children(g, id));
    var q' := PushAll(SendBefore, q[1..], entries);
    PushAllMembers(SendBefore, q[1..], entries);
    ReachSelf(g, id);
    assert q[0] in q;
    if Pending(g, q, x) && x != id {
      var e :| e in q && Reaches(g, e.id, x);
      if e.id == id {
        var c := ReachChild(g, id, x);
        ChildrenMembers(g, id, c);
        var i :| 0 <= i < |Children(g, id)| && Children(g, id)[i] == c;
        assert entries[i] in entries && entries[i].id == c;
      } else {
        assert e in q[1..];
      }
    }
    if Pending(g, q', x) {
      var e :| e in q' && Reaches(g, e.id, x);
      if e !in q[1..] {
        var i :| 0 <= i < |entries| && entries[i] == e;
        ChildrenMembers(g, id, e.id);
        ReachParent(g, id, id, e.id);
        ReachTrans(g, id, e.id, x);
      } else {
        assert e in q;
      }
    }
  }

  /** One pop: at most one outstanding header is delivered, and nothing else stops being outstanding. */
  lemma PopDelivers(g: Graph, r: Responder, ops: seq<HeaderId>)
    requires Held(g, r) && r.sendQueue != []
    ensures var (r', ops') := PopSend(g, r, ops);
      var id := r.sendQueue[0].id;
      if TheyKnow(r, id) then ops' == ops && Outstanding(g, r') == Outstanding(g, r)
      else ops' == ops + [id] && id in Outstanding(g, r) && Outstanding(g, r') == Outstanding(g, r) - {id}
    ensures var r' := PopSend(g, r, ops).0;
      r.theirKnown <= r'.theirKnown && r'.ourUnknown == r.ourUnknown
      && r'.theirKnown <= r.theirKnown + {r.sendQueue[0].id}
  {
    hide Mark, Children, Reaches, Has, Pending;
    var id := r.sendQueue[0].id;
    assert r.sendQueue[0] in r.sendQueue;
    MarkBounds(g, r.theirKnown, id);
    var (r', ops') := PopSend(g, r, ops);
    forall x
      ensures x in Outstanding(g, r) <==> x in Outstanding(g, r') || (x == id && !TheyKnow(r, id))
      ensures x in Outstanding(g, r') ==> x in Outstanding(g, r) && x != id
    {
      PopPending(g, r.sendQueue, x);
      OutstandingMembers(g, r, x);
      OutstandingMembers(g, r', x);
    }
  }

  /** `more` are different outstanding headers, and the rest is outstanding afterwards. */
  ghost predicate Delivers(g: Graph, r: Responder, r': Responder, more: seq<HeaderId>) {
    && Distinct(more)
    && Elems(more) <= Outstanding(g, r)
    && Outstanding(g, r') == Outstanding(g, r) - Elems(more)
  }

  lemma DeliversNothing(g: Graph, r: Responder)
    ensures Delivers(g, r, r, [])
  {
    assert Elems<HeaderId>([]) == {};
  }

  lemma DeliversOne(g: Graph, r: Responder, r': Responder, id: HeaderId)
    requires id in Outstanding(g, r) && Outstanding(g, r') == Outstanding(g, r) - {id}
    ensures Delivers(g, r, r', [id])
  {
    assert Elems([id]) == {id};
  }

  lemma DeliversConcat(g: Graph, r: Responder, r': Responder, r'': Responder, a: seq<HeaderId>, b: seq<HeaderId>)
    requires Delivers(g, r, r', a) && Delivers(g, r', r'', b)
    ensures Delivers(g, r, r'', a + b)
  {
    hide Outstanding;
    assert Elems(a + b) == Elems(a) + Elems(b);
    assert forall i :: 0 <= i < |a| ==> a[i] in Elems(a);
    assert forall i :: 0 <= i < |b| ==> b[i] in Elems(b);
  }

  lemma DeliversCount(g: Graph, r: Responder, r': Responder, more: seq<HeaderId>)
    requires Delivers(g, r, r', more)
    ensures |Outstanding(g, r)| == |Outstanding(g, r')| + |more|
  {
    hide Outstanding;
    DistinctSize(more);
  }

  lemma NothingQueued(g: Graph, r: Responder)
    requires r.sendQueue == []
    ensures Outstanding(g, r) == {}
  {
  }

  lemma PopStep(g: Graph, r: Responder, ops: seq<HeaderId>) returns (more: seq<HeaderId>)
    requires Held(g, r) && r.sendQueue != []
    ensures PopSend(g, r, ops).1 == ops + more && |more| <= 1 && Delivers(g, r, PopSend(g, r, ops).0, more)
  {
    hide PopSend, Held, Outstanding;
    PopDelivers(g, r, ops);
    var id := r.sendQueue[0].id;
    if TheyKnow(r, id) {
      more := [];
      DeliversNothing(g, r);
    } else {
      more := [id];
      DeliversOne(g, r, PopSend(g, r, ops).0, id);
    }
  }

  /** A batch takes as many of the outstanding headers as fit, each of them once. */
  lemma {:induction false} PrepareDelivers(g: Graph, r: Responder, ops: seq<HeaderId>) returns (more: seq<HeaderId>)
    requires Held(g, r) && |ops| < MAX_DELIVER_HEADERS
    ensures PrepareOperations(g, r, ops).1 == ops + more
    ensures Delivers(g, r, PrepareOperations(g, r, ops).0, more)
    ensures |ops + more| == Min(MAX_DELIVER_HEADERS, |ops| + |Outstanding(g, r)|)
    decreases Weight(SendWeight(g), r.sendQueue)
  {
    hide PopSend, Held, Outstanding, Delivers, Below, HandleTips, Children, Has, Wf, PushAll, Push, Elems;
    if r.sendQueue == [] {
      NothingQueued(g, r);
      DeliversNothing(g, r);
      more := [];
    } else {
      PopSendWeight(g, r, ops);
      PopSendHeld(g, r, ops);
      var first := PopStep(g, r, ops);
      var (r', ops') := PopSend(g, r, ops);
      DeliversCount(g, r, r', first);
      if |ops'| == MAX_DELIVER_HEADERS {
        more := first;
      } else {
        var rest := PrepareDelivers(g, r', ops');
        more := first + rest;
        DeliversConcat(g, r, r', PrepareOperations(g, r', ops').0, first, rest);
        assert ops + more == ops' + rest;
      }
    }
  }

  /** The batches of `n` responses that come after each other. */
  function Batches(g: Graph, r: Responder, n: nat): (Responder, seq<HeaderId>) {
    if n == 0 then (r, [])
    else
      var (r', sent) := Batches(g, r, n - 1);
      var (r'', more) := PrepareOperations(g, r', []);
      (r'', sent + more)
  }

  /**
    Draining: `n` batches deliver different headers at or below the queued ones that the peer is not known to have, as
    many as fit into `n` batches; what they leave is still outstanding.
   */
  lemma {:induction false} BatchesDeliver(g: Graph, r: Responder, n: nat)
    requires Held(g, r)
    ensures var (r', sent) := Batches(g, r, n);
      && Held(g, r')
      && Delivers(g, r, r', sent)
      && |sent| == Min(n * MAX_DELIVER_HEADERS, |Outstanding(g, r)|)
  {
    hide PrepareOperations, Held, Outstanding, Delivers;
    if n == 0 {
      DeliversNothing(g, r);
    } else {
      BatchesDeliver(g, r, n - 1);
      var (r', sent) := Batches(g, r, n - 1);
      PrepareOperationsHeld(g, r', []);
      var more := PrepareDelivers(g, r', []);
      assert [] + more == more;
      DeliversConcat(g, r, r', PrepareOperations(g, r', []).0, sent, more);
      DeliversCount(g, r, r', sent);
    }
  }

  /**
    Draining completely delivers exactly what is outstanding. So of the headers that the peer has, those are sent again
    that are pending and not known to be there; none is sent again if and only if all of them are known.
   */
  lemma SentAgain(g: Graph, r: Responder, n: nat, has: set<HeaderId>)
    requires Held(g, r) && n * MAX_DELIVER_HEADERS >= |Outstanding(g, r)|
    ensures var sent := Batches(g, r, n).1;
      && Elems(sent) == Outstanding(g, r)
      && Elems(sent) * has == Outstanding(g, r) * has
      && (Elems(sent) * has == {} <==> forall x :: x in has && Pending(g, r.sendQueue, x) ==> TheyKnow(r, x))
  {
    hide Pending, Held, Batches, TheyKnow;
    BatchesDeliver(g, r, n);
    var sent := Batches(g, r, n).1;
    DeliversWithin(g, r, Batches(g, r, n).0, sent);
    DistinctSize(sent);
    SameSize(Elems(sent), Outstanding(g, r));
    forall x
      ensures x in Outstanding(g, r) <==> Pending(g, r.sendQueue, x) && !TheyKnow(r, x)
    {
      OutstandingMembers(g, r, x);
    }
    if Elems(sent) * has == {} {
      forall x | x in has && Pending(g, r.sendQueue, x)
        ensures TheyKnow(r, x)
      {
        assert x !in Elems(sent) * has;
      }
    } else {
      var x :| x in Elems(sent) * has;
      assert x in has && Pending(g, r.sendQueue, x) && !TheyKnow(r, x);
    }
  }

  lemma DeliversWithin(g: Graph, r: Responder, r': Responder, sent: seq<HeaderId>)
    requires Delivers(g, r, r', sent)
    ensures Distinct(sent) && Elems(sent) <= Outstanding(g, r)
  {
  }

  lemma {:induction false} BelowSomeRoot(g: Graph, x: HeaderId) returns (root: HeaderId)
    requires Has(g, x)
    ensures root in Roots(g) && Reaches(g, root, x)
    decreases IndexOf(g, x)
  {
    if Parents(g, x) == [] {
      root := x;
      ReachSelf(g, x);
      assert g[IndexOf(g, x)].id == x;
    } else {
      var p := Parents(g, x)[0];
      assert p in Parents(g, x);
      ParentBefore(g, p, x);
      root := BelowSomeRoot(g, p);
      ReachParent(g, root, p, x);
    }
  }

  lemma AllOutstanding(g: Graph)
    ensures Outstanding(g, HandleTheirTips(g, NEW, [])) == Ids(g)
  {
    hide Reaches, DepthOf, Parents;
    var r := HandleTheirTips(g, NEW, []);
    var ids := Ascending(Roots(g));
    AscendingMembers(Roots(g));
    PushAllMembers(SendBefore, [], SendEntries(g, ids));
    forall i | 0 <= i < |g|
      ensures Pending(g, r.sendQueue, g[i].id)
    {
      assert HasBefore(g, |g|, g[i].id);
      var root := BelowSomeRoot(g, g[i].id);
      var k :| 0 <= k < |ids| && ids[k] == root;
      assert SendEntries(g, ids)[k] in SendEntries(g, ids);
    }
  }

  lemma {:induction false} IdsSize(g: seq<Header>)
    requires forall i, j :: 0 <= i < j < |g| ==> g[i].id != g[j].id
    ensures |Ids(g)| == |g|
  {
    if g != [] {
      var n := |g| - 1;
      IdsSize(g[..n]);
      assert Ids(g) == Ids(g[..n]) + {g[n].id};
      assert g[n].id !in Ids(g[..n]);
    }
  }

  lemma SameSize<T>(a: set<T>, b: set<T>)
    requires a <= b && |a| == |b|
    ensures a == b
  {
    assert a + (b - a) == b;
    assert |b| == |a| + |b - a|;
  }

  /** To a new peer without tips, every header of the graph is outstanding, so draining delivers each exactly once. */
  lemma NewPeerGetsEverything(g: Graph, n: nat)
    requires n * MAX_DELIVER_HEADERS >= |g|
    ensures var sent := Batches(g, HandleTheirTips(g, NEW, []), n).1;
      Distinct(sent) && Elems(sent) == Ids(g)
  {
    hide Reaches, Depth, Ascending, Batches;
    var r := HandleTheirTips(g, NEW, []);
    HandleTheirTipsHeld(g, NEW, []);
    BatchesDeliver(g, r, n);
    AllOutstanding(g);
    IdsSize(g);
    var (r', sent) := Batches(g, r, n);
    DistinctSize(sent);
    SameSize(Elems(sent), Ids(g));
  }
}
