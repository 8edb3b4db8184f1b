/** Both queues of the responder are kept in order, so that what is sent and proposed first is what should be. */
module QueueOrder {
  import opened Common
  import opened EventGraph
  import opened Heap
  import opened Walks
  import opened SyncResponder
  import opened SyncDelivery

  /** Shallower headers are sent first, and of two of the same depth the one with the greater id. */
  ghost predicate SentFirst(a: SendEntry, b: SendEntry) {
    a.depth < b.depth || (a.depth == b.depth && a.id >= b.id)
  }

  /** Tips are proposed first, then deeper headers, then those with greater ids, then those farther from a tip. */
  ghost predicate ProposedFirst(a: HaveEntry, b: HaveEntry) {
    || (a.isTip && !b.isTip)
    || (a.isTip == b.isTip && a.depth > b.depth)
    || (a.isTip == b.isTip && a.depth == b.depth && a.id > b.id)
    || (a.isTip == b.isTip && a.depth == b.depth && a.id == b.id && a.distance >= b.distance)
  }

  ghost predicate InOrder(r: Responder) {
    && (forall i, j :: 0 <= i < j < |r.sendQueue| ==> SentFirst(r.sendQueue[i], r.sendQueue[j]))
    && (forall i, j :: 0 <= i < j < |r.havesQueue| ==> ProposedFirst(r.havesQueue[i], r.havesQueue[j]))
  }

  lemma InOrderMeansSorted(r: Responder)
    ensures InOrder(r) <==> Sorted(SendBefore, r.sendQueue) && Sorted(HaveBefore, r.havesQueue)
    ensures TotalOrder(SendBefore) && TotalOrder(HaveBefore)
  {
    forall a, b
      ensures HaveBefore(a, b) <==> ProposedFirst(a, b)
    {
    }
    forall a, b
      ensures SendBefore(a, b) <==> SentFirst(a, b)
    {
    }
  }

  lemma TailSorted<T>(before: (T, T) -> bool, q: seq<T>)
    requires Sorted(before, q) && q != []
    ensures Sorted(before, q[1..])
  {
  }

  lemma QueueForSendingInOrder(g: Graph, r: Responder, ids: seq<HeaderId>)
    requires InOrder(r)
    ensures InOrder(QueueForSending(g, r, ids))
  {
    hide InOrder, Sorted, TotalOrder, SendBefore, HaveBefore;
    InOrderMeansSorted(r);
    PushAllSorted(SendBefore, r.sendQueue, SendEntries(g, ids));
    InOrderMeansSorted(QueueForSending(g, r, ids));
  }

  lemma SameQueues(r: Responder, r': Responder)
    requires InOrder(r) && r'.sendQueue == r.sendQueue && r'.havesQueue == r.havesQueue
    ensures InOrder(r')
  {
  }

  lemma {:induction false} TipsInOrder(g: Graph, r: Responder, tips: seq<HeaderId>)
    requires InOrder(r)
    ensures InOrder(HandleTips(g, r, tips))
    decreases |tips|
  {
    hide InOrder, Mark, Children, PushAll;
    if tips != [] {
      var known := r.(theirKnown := Mark(g, r.theirKnown, [tips[0]]));
      SameQueues(r, known);
      QueueForSendingInOrder(g, known, Children(g, tips[0]));
      SameQueues(r, r.(ourUnknown := r.ourUnknown + {tips[0]}));
      TipsInOrder(g, HandleTip(g, r, tips[0]), tips[1..]);
    }
  }

  lemma {:induction false} HavesInOrder(g: Graph, r: Responder, haves: seq<HeaderId>, bits: seq<bool>)
    requires InOrder(r)
    ensures InOrder(HandleHaves(g, r, haves, bits))
    decreases |haves|
  {
    hide InOrder, Mark, Children, Parents, PushAll;
    if haves != [] && bits != [] {
      var known := r.(theirKnown := Mark(g, r.theirKnown, [haves[0]]));
      SameQueues(r, known);
      QueueForSendingInOrder(g, known, Children(g, haves[0]));
      QueueForSendingInOrder(g, r, [haves[0]]);
      HavesInOrder(g, HandleHave(g, r, haves[0], bits[0]), haves[1..], bits[1..]);
    }
  }

  lemma TakeInInOrder(g: Graph, r: Responder, req: Request)
    requires InOrder(r)
    ensures InOrder(TakeIn(g, r, req))
  {
    hide InOrder, HandleTips, HandleHaves, MarkAll, PushAll, Roots, Ascending;
    var r0 := UpdateOurUnknown(g, r);
    SameQueues(r, r0);
    TipsInOrder(g, r0, req.tips);
    QueueForSendingInOrder(g, r0, Ascending(Roots(g)));
    var r1 := HandleTheirTips(g, r0, req.tips);
    if req.Round? { HavesInOrder(g, r1, r1.sentHaves, req.known); }
  }

  lemma PopSendInOrder(g: Graph, r: Responder, sent: seq<HeaderId>)
    requires InOrder(r) && r.sendQueue != []
    ensures InOrder(PopSend(g, r, sent).0)
  {
    hide InOrder, Sorted, TotalOrder, SendBefore, HaveBefore, Mark, Children;
    InOrderMeansSorted(r);
    TailSorted(SendBefore, r.sendQueue);
    PushAllSorted(SendBefore, r.sendQueue[1..], SendEntries(g, Children(g, r.sendQueue[0].id)));
    InOrderMeansSorted(PopSend(g, r, sent).0);
  }

  lemma PopHaveInOrder(g: Graph, r: Responder)
    requires InOrder(r) && r.havesQueue != []
    ensures InOrder(PopHave(g, r))
  {
    hide InOrder, Sorted, TotalOrder, SendBefore, HaveBefore, Parents;
    var e := r.havesQueue[0];
    InOrderMeansSorted(r);
    TailSorted(HaveBefore, r.havesQueue);
    PushAllSorted(HaveBefore, r.havesQueue[1..], HaveEntries(g, false, Parents(g, e.id), e.distance + 1));
    InOrderMeansSorted(PopHave(g, r));
  }

  lemma {:induction false} OperationsInOrder(g: Graph, r: Responder, sent: seq<HeaderId>)
    requires InOrder(r)
    ensures InOrder(PrepareOperations(g, r, sent).0)
    decreases Weight(SendWeight(g), r.sendQueue)
  {
    hide InOrder, PopSend, Below;
    if r.sendQueue != [] {
      PopSendWeight(g, r, sent);
      PopSendInOrder(g, r, sent);
      var (r', sent') := PopSend(g, r, sent);
      if |sent'| != MAX_DELIVER_HEADERS { OperationsInOrder(g, r', sent'); }
    }
  }

  lemma {:induction false} MoreHavesInOrder(g: Graph, r: Responder)
    requires InOrder(r)
    ensures InOrder(PrepareMoreHaves(g, r))
    decreases Weight(HaveWeight(g), r.havesQueue)
  {
    hide InOrder, PopHave, Above;
    if r.havesQueue != [] {
      PopHaveWeight(g, r);
      PopHaveInOrder(g, r);
      if |PopHave(g, r).sentHaves| != MAX_HAVE_HEADERS { MoreHavesInOrder(g, PopHave(g, r)); }
    }
  }

  lemma PrepareInOrder(g: Graph, r: Responder)
    requires InOrder(r)
    ensures InOrder(Prepare(g, r).0)
  {
    hide InOrder, Sorted, TotalOrder, SendBefore, HaveBefore, PrepareOperations, PrepareMoreHaves, Ascending, Tips;
    var r1 := PrepareOurTips(g, r);
    InOrderMeansSorted(r);
    PushAllSorted(HaveBefore, r.havesQueue, HaveEntries(g, true, Ascending(Tips(g)), 0));
    InOrderMeansSorted(r1);
    OperationsInOrder(g, r1, []);
    var r2 := PrepareOperations(g, r1, []).0;
    SameQueues(r2, r2.(sentHaves := []));
    MoreHavesInOrder(g, r2.(sentHaves := []));
  }

  /** Over whole runs both queues are in order, so that every pop takes the entry that comes first. */
  lemma {:induction false} QueuesStayInOrder(r: Responder, es: seq<Event>)
    requires InOrder(r)
    ensures InOrder(RunSync(r, es).0)
    decreases |es|
  {
    hide InOrder, Answer;
    if es != [] {
      AnswerInOrder(r, es[0]);
      QueuesStayInOrder(Answer(r, es[0]).0, es[1..]);
    }
  }

  lemma AnswerInOrder(r: Responder, e: Event)
    requires InOrder(r)
    ensures InOrder(Answer(r, e).0)
  {
    hide InOrder, TakeIn, Prepare;
    TakeInInOrder(e.snapshot, r, e.request);
    PrepareInOrder(e.snapshot, TakeIn(e.snapshot, r, e.request));
  }
}
