/** What a request of a peer makes pending, and what is sent for it once the queue is drained. */
module Intake {
  import opened Common
  import opened EventGraph
  import opened Ancestry
  import opened Heap
  import opened SyncResponder
  import opened Marking
  import opened SyncDelivery

  /** A proper descendant. */
  ghost predicate Under(g: Graph, a: HeaderId, x: HeaderId) {
    a != x && Reaches(g, a, x)
  }

  lemma UnderChildren(g: Graph, a: HeaderId, x: HeaderId)
    ensures Under(g, a, x) <==> exists c :: c in Children(g, a) && Reaches(g, c, x)
  {
    hide Reaches, Children, Parents, Has;
    if Under(g, a, x) {
      var c := ReachChild(g, a, x);
      ChildrenMembers(g, a, c);
    }
    if c :| c in Children(g, a) && Reaches(g, c, x) {
      ChildrenMembers(g, a, c);
      ReachSelf(g, a);
      ReachParent(g, a, a, c);
      ReachTrans(g, a, c, x);
      ReachEarlier(g, c, x);
    }
  }

  /** Queueing headers makes them and what is below them pending. */
  lemma QueuedPending(g: Graph, r: Responder, ids: seq<HeaderId>, x: HeaderId)
    ensures Pending(g, QueueForSending(g, r, ids).sendQueue, x)
      <==> Pending(g, r.sendQueue, x) || exists id :: id in ids && Reaches(g, id, x)
  {
    hide Reaches, DepthOf;
    var entries := SendEntries(g, ids);
    PushAllMembers(SendBefore, r.sendQueue, entries);
    if id :| id in ids && Reaches(g, id, x) {
      var i :| 0 <= i < |ids| && ids[i] == id;
      assert entries[i] in entries;
    }
  }

  /** Naming a header makes pending just what lies below it, or records that we miss it; it then counts as known. */
  lemma TipTakenIn(g: Graph, r: Responder, tip: HeaderId, x: HeaderId)
    ensures var r' := HandleTip(g, r, tip);
      && (Pending(g, r'.sendQueue, x) <==> Pending(g, r.sendQueue, x) || (Has(g, tip) && Under(g, tip, x)))
      && TheyKnow(r', tip) && (TheyKnow(r, x) ==> TheyKnow(r', x))
  {
    hide Reaches, Children, Has, Mark, Pending;
    if Has(g, tip) {
      MarkGrows(g, r.theirKnown, [tip]);
      QueuedPending(g, r.(theirKnown := Mark(g, r.theirKnown, [tip])), Children(g, tip), x);
      UnderChildren(g, tip, x);
    }
  }

  ghost predicate UnderTip(g: Graph, tips: seq<HeaderId>, x: HeaderId) {
    exists tip :: tip in tips && Has(g, tip) && Under(g, tip, x)
  }

  /**
    After tips have been taken in, pending is what was pending before and every header below a tip that we have, and
    nothing else; all tips count as known, and so does whatever counted as known before.
   */
  lemma {:induction false} TipsTakenIn(g: Graph, r: Responder, tips: seq<HeaderId>, x: HeaderId)
    ensures var r' := HandleTips(g, r, tips);
      && (Pending(g, r'.sendQueue, x) <==> Pending(g, r.sendQueue, x) || UnderTip(g, tips, x))
      && (x in tips || TheyKnow(r, x) ==> TheyKnow(r', x))
    decreases |tips|
  {
    hide HandleTip, Pending, Under, Has, TheyKnow;
    if tips != [] {
      TipTakenIn(g, r, tips[0], x);
      TipsTakenIn(g, HandleTip(g, r, tips[0]), tips[1..], x);
      assert forall y :: y in tips <==> y == tips[0] || y in tips[1..];
      assert UnderTip(g, tips, x) <==> (Has(g, tips[0]) && Under(g, tips[0], x)) || UnderTip(g, tips[1..], x);
    }
  }

  /** A peer without tips makes every header pending. */
  lemma NoTipsTakenIn(g: Graph, r: Responder, x: HeaderId)
    requires Has(g, x)
    ensures Pending(g, HandleTheirTips(g, r, []).sendQueue, x)
  {
    hide Reaches, Roots, Ascending, Pending, Has;
    AscendingMembers(Roots(g));
    QueuedPending(g, r, Ascending(Roots(g)), x);
    var root := BelowSomeRoot(g, x);
  }

  // ---------- Bitmaps

  /** The proposal has no parents, or only parents that count as known. */
  ghost predicate Fits(g: Graph, r: Responder, id: HeaderId) {
    IsRoot(g, id) || forall p :: p in Parents(g, id) ==> p in r.theirKnown
  }

  /**
    An acknowledged proposal makes pending what lies below it; one the peer lacks is pending itself if it fits; and
    otherwise nothing changes.
   */
  lemma HaveTakenIn(g: Graph, r: Responder, id: HeaderId, theyKnow: bool, x: HeaderId)
    ensures var r' := HandleHave(g, r, id, theyKnow);
      && (Pending(g, r'.sendQueue, x) <==>
            || Pending(g, r.sendQueue, x)
            || (if theyKnow then Under(g, id, x) else Fits(g, r, id) && Reaches(g, id, x)))
      && (theyKnow ==> TheyKnow(r', id)) && (TheyKnow(r, x) ==> TheyKnow(r', x))
  {
    hide Reaches, Children, Has, Mark, Pending, Parents;
    if theyKnow {
      MarkGrows(g, r.theirKnown, [id]);
      QueuedPending(g, r.(theirKnown := Mark(g, r.theirKnown, [id])), Children(g, id), x);
      UnderChildren(g, id, x);
    } else {
      QueuedPending(g, r, [id], x);
      assert id in [id];
    }
  }

  /** The responder when it comes to the proposal at `k`. */
  ghost function Before(g: Graph, r: Responder, haves: seq<HeaderId>, bits: seq<bool>, k: nat): Responder
    requires k <= |haves| && k <= |bits|
  {
    HandleHaves(g, r, haves[..k], bits[..k])
  }

  /** What the proposal at `k` makes pending. */
  ghost predicate Adds(g: Graph, r: Responder, haves: seq<HeaderId>, bits: seq<bool>, k: nat, x: HeaderId)
    requires k < |haves| && k < |bits|
  {
    if bits[k] then Under(g, haves[k], x)
    else Fits(g, Before(g, r, haves, bits, k), haves[k]) && Reaches(g, haves[k], x)
  }

  ghost predicate AddsSome(g: Graph, r: Responder, haves: seq<HeaderId>, bits: seq<bool>, x: HeaderId) {
    exists k :: 0 <= k < |haves| && k < |bits| && Adds(g, r, haves, bits, k, x)
  }

  lemma BeforeStep(g: Graph, r: Responder, haves: seq<HeaderId>, bits: seq<bool>, k: nat)
    requires 0 < k <= |haves| && k <= |bits|
    ensures Before(g, r, haves, bits, k)
         == Before(g, HandleHave(g, r, haves[0], bits[0]), haves[1..], bits[1..], k - 1)
  {
    hide HandleHave;
    assert haves[..k][1..] == haves[1..][..k - 1] && bits[..k][1..] == bits[1..][..k - 1];
  }

  lemma AddsStep(g: Graph, r: Responder, haves: seq<HeaderId>, bits: seq<bool>, x: HeaderId)
    requires haves != [] && bits != []
    ensures AddsSome(g, r, haves, bits, x) <==>
      || Adds(g, r, haves, bits, 0, x)
      || AddsSome(g, HandleHave(g, r, haves[0], bits[0]), haves[1..], bits[1..], x)
  {
    hide HandleHave, Before, Under, Fits, Reaches;
    var r' := HandleHave(g, r, haves[0], bits[0]);
    forall k | 0 < k < |haves| && k < |bits|
      ensures Adds(g, r, haves, bits, k, x) <==> Adds(g, r', haves[1..], bits[1..], k - 1, x)
    {
      BeforeStep(g, r, haves, bits, k);
    }
    if k :| 0 <= k < |haves| && k < |bits| && Adds(g, r, haves, bits, k, x) {
      if k > 0 { assert Adds(g, r', haves[1..], bits[1..], k - 1, x); }
    }
    if k :| 0 <= k < |haves[1..]| && k < |bits[1..]| && Adds(g, r', haves[1..], bits[1..], k, x) {
      assert Adds(g, r, haves, bits, k + 1, x);
    }
  }

  ghost predicate Acknowledged(haves: seq<HeaderId>, bits: seq<bool>, x: HeaderId) {
    exists k :: 0 <= k < |haves| && k < |bits| && bits[k] && haves[k] == x
  }

  /** After a bitmap has been taken in, pending is what was pending before and what the proposals add. */
  lemma {:induction false} HavesTakenIn(g: Graph, r: Responder, haves: seq<HeaderId>, bits: seq<bool>, x: HeaderId)
    ensures var r' := HandleHaves(g, r, haves, bits);
      && (Pending(g, r'.sendQueue, x) <==> Pending(g, r.sendQueue, x) || AddsSome(g, r, haves, bits, x))
      && (TheyKnow(r, x) || Acknowledged(haves, bits, x) ==> TheyKnow(r', x))
    decreases |haves|
  {
    hide HandleHave, Pending, AddsSome, Under, Fits, Reaches, TheyKnow;
    if haves != [] && bits != [] {
      assert Acknowledged(haves, bits, x) ==> (bits[0] && haves[0] == x) || Acknowledged(haves[1..], bits[1..], x) by {
        if k :| 0 <= k < |haves| && k < |bits| && bits[k] && haves[k] == x {
          assert k > 0 ==> haves[1..][k - 1] == x && bits[1..][k - 1];
        }
      }
      HaveTakenIn(g, r, haves[0], bits[0], x);
      HavesTakenIn(g, HandleHave(g, r, haves[0], bits[0]), haves[1..], bits[1..], x);
      AddsStep(g, r, haves, bits, x);
      assert Before(g, r, haves, bits, 0) == r;
    } else {
      NothingAdded(g, r, haves, bits, x);
    }
  }

  lemma NothingAdded(g: Graph, r: Responder, haves: seq<HeaderId>, bits: seq<bool>, x: HeaderId)
    requires haves == [] || bits == []
    ensures !AddsSome(g, r, haves, bits, x)
  {
  }

  // ---------- Headers that arrived meanwhile

  lemma {:induction false} MarkAllGrows(g: Graph, known: set<HeaderId>, ids: seq<HeaderId>)
    ensures known <= MarkAll(g, known, ids) && forall x :: x in ids ==> x in MarkAll(g, known, ids)
    decreases |ids|
  {
    hide Mark;
    if ids != [] {
      MarkGrows(g, known, [ids[0]]);
      MarkAllGrows(g, Mark(g, known, [ids[0]]), ids[1..]);
    }
  }

  /** What has arrived is missed no longer, and nothing that counted as known is forgotten. */
  lemma ArrivalsTakenIn(g: Graph, r: Responder, x: HeaderId)
    ensures var r' := UpdateOurUnknown(g, r);
      && (x in r'.ourUnknown <==> x in r.ourUnknown && !Has(g, x))
      && (TheyKnow(r, x) ==> TheyKnow(r', x))
      && r'.sendQueue == r.sendQueue && r'.sentHaves == r.sentHaves
  {
    hide Mark, Has;
    var arrived := Arrived(g, r.ourUnknown);
    AscendingMembers(arrived);
    MarkAllGrows(g, r.theirKnown, Ascending(arrived));
  }

  // ---------- Whole requests

  /** The responder after arrivals and tips, when it comes to the bitmap. */
  ghost function AfterTips(g: Graph, r: Responder, req: Request): Responder {
    HandleTheirTips(g, UpdateOurUnknown(g, r), req.tips)
  }

  /** What a request asks for: all headers, or those below its tips, and what its answers to the proposals add. */
  ghost predicate Wanted(g: Graph, r: Responder, req: Request, x: HeaderId) {
    || (if req.tips == [] then Has(g, x) else UnderTip(g, req.tips, x))
    || (req.Round? && AddsSome(g, AfterTips(g, r, req), AfterTips(g, r, req).sentHaves, req.known, x))
  }

  lemma PendingIsHeld(g: Graph, q: seq<SendEntry>, x: HeaderId)
    requires Pending(g, q, x)
    ensures Has(g, x)
  {
    var e :| e in q && Reaches(g, e.id, x);
    ReachEarlier(g, e.id, x);
  }

  /** After a request, pending is what was pending before and what the request asks for. */
  lemma RequestTakenIn(g: Graph, r: Responder, req: Request, x: HeaderId)
    ensures var r' := TakeIn(g, r, req);
      && (Pending(g, r'.sendQueue, x) <==> Pending(g, r.sendQueue, x) || Wanted(g, r, req, x))
      && (TheyKnow(r, x) || x in req.tips ==> TheyKnow(r', x))
  {
    hide Pending, UnderTip, AddsSome, TheyKnow, Has, HandleTips, HandleHaves, Roots, Ascending, UpdateOurUnknown;
    ArrivalsTakenIn(g, r, x);
    var r0 := UpdateOurUnknown(g, r);
    TipsTakenIn(g, r0, req.tips, x);
    if req.tips == [] {
      if Pending(g, AfterTips(g, r, req).sendQueue, x) { PendingIsHeld(g, AfterTips(g, r, req).sendQueue, x); }
      if Has(g, x) { NoTipsTakenIn(g, r0, x); }
      if Pending(g, r.sendQueue, x) { PendingIsHeld(g, r.sendQueue, x); }
      SameKnown(g, r0, x);
    }
    if req.Round? { HavesTakenIn(g, AfterTips(g, r, req), AfterTips(g, r, req).sentHaves, req.known, x); }
  }

  lemma SameKnown(g: Graph, r: Responder, x: HeaderId)
    ensures TheyKnow(HandleTheirTips(g, r, []), x) <==> TheyKnow(r, x)
  {
  }

  /**
    What is sent for a request once the queue is drained: exactly the headers that were pending before or that the
    request asks for, except those that count as known. No header below a tip that the peer names is left out.
   */
  lemma RequestServed(g: Graph, r: Responder, req: Request, n: nat, x: HeaderId)
    requires Held(g, r) && n * MAX_DELIVER_HEADERS >= |Outstanding(g, TakeIn(g, r, req))|
    ensures var r' := TakeIn(g, r, req);
      x in Batches(g, r', n).1 <==> (Pending(g, r.sendQueue, x) || Wanted(g, r, req, x)) && !TheyKnow(r', x)
  {
    hide Pending, Wanted, TheyKnow, TakeIn, Held, Batches, Outstanding;
    var r' := TakeIn(g, r, req);
    TakeInHeld(g, r, req);
    SentAgain(g, r', n, {});
    OutstandingMembers(g, r', x);
    RequestTakenIn(g, r, req, x);
    assert x in Batches(g, r', n).1 <==> x in Elems(Batches(g, r', n).1);
  }

  /** So an honest peer that names tips has, or has been sent, every header below them once the queue is drained. */
  lemma NothingBelowTipsIsMissed(g: Graph, r: Responder, req: Request, sent: seq<HeaderId>, has: set<HeaderId>, n: nat,
                                 x: HeaderId)
    requires Held(g, r) && Accounted(r, sent, has) && Closed(g, has) && HonestRequest(r, req, has)
    requires n * MAX_DELIVER_HEADERS >= |Outstanding(g, TakeIn(g, r, req))|
    requires UnderTip(g, req.tips, x)
    ensures x in has || x in sent || x in Batches(g, TakeIn(g, r, req), n).1
  {
    hide Pending, TakeIn, Held, Batches, Outstanding, UnderTip, HonestRequest, Closed;
    RequestServed(g, r, req, n, x);
    TakeInAccounted(g, r, req, sent, has);
    assert req.tips == [] ==> !UnderTip(g, req.tips, x) by { NoTips(g, x); }
    assert Wanted(g, r, req, x);
  }

  lemma NoTips(g: Graph, x: HeaderId)
    ensures !UnderTip(g, [], x)
  {
  }
}
