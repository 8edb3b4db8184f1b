/**
  A new replica that syncs with a responder round by round: in which order headers arrive, and for which graphs the
  replica ends up with all of them.
 */
module Replication {
  import opened Common
  import opened EventGraph
  import opened Ancestry
  import opened Heap
  import opened Walks
  import opened SyncResponder
  import opened Marking
  import opened SyncDelivery

  // ---------- The session

  function HeadersOf(g: Graph, ids: seq<HeaderId>): seq<Header> {
    if ids == [] then []
    else (if Has(g, ids[0]) then [g[IndexOf(g, ids[0])]] else []) + HeadersOf(g, ids[1..])
  }

  /** The bitmap of the initiator: which of the proposed headers it has. */
  function BitmapOf(receiver: Graph, haves: seq<HeaderId>): Bitmap {
    seq(MAX_HAVE_HEADERS, i requires 0 <= i < MAX_HAVE_HEADERS => i < |haves| && Has(receiver, haves[i]))
  }

  datatype Session = Session(responder: Responder, receiver: Graph, sent: seq<HeaderId>)

  /** The request of the initiator: its tips, and after the first round also its bitmap. */
  function RequestOf(s: Session): Request {
    var tips := Ascending(Tips(s.receiver));
    if s == START then Initial(tips) else Round(tips, BitmapOf(s.receiver, s.responder.sentHaves))
  }

  /** The responder answers the request from its graph, and the initiator inserts what it gets. */
  function NextRound(g: Graph, s: Session): Session {
    var (r', ops) := Answer(s.responder, Event(g, RequestOf(s)));
    Session(r', InsertAll(s.receiver, HeadersOf(g, ops)), s.sent + ops)
  }

  const START: Session := Session(NEW, [], [])

  function Rounds(g: Graph, k: nat): Session {
    if k == 0 then START else NextRound(g, Rounds(g, k - 1))
  }

  // ---------- Level order

  /** Shallower headers come first, and of two headers of the same depth the one with the greater id. */
  predicate Earlier(g: Graph, x: HeaderId, y: HeaderId) {
    DepthOf(g, x) < DepthOf(g, y) || (DepthOf(g, x) == DepthOf(g, y) && x > y)
  }

  /** A first part of all headers in level order; there is exactly one of each length. */
  ghost predicate LevelPrefix(g: Graph, s: seq<HeaderId>) {
    && (forall x :: x in s ==> Has(g, x))
    && (forall i, j :: 0 <= i < j < |s| ==> Earlier(g, s[i], s[j]))
    && (forall x, y :: x in s && Has(g, y) && y !in s ==> Earlier(g, x, y))
  }

  lemma NextComesFirst(g: Graph, a: seq<HeaderId>, b: seq<HeaderId>, n: nat)
    requires LevelPrefix(g, a) && LevelPrefix(g, b) && n < |a| && n < |b| && a[..n] == b[..n]
    ensures a[n] == b[n] || Earlier(g, b[n], a[n])
  {
    hide DepthOf;
    var x := a[n];
    if x in b {
      var j :| 0 <= j < |b| && b[j] == x;
      assert forall i :: 0 <= i < n ==> a[..n][i] == b[..n][i] && Earlier(g, a[i], a[n]);
      assert j >= n;
    }
  }

  lemma {:induction false} LevelPrefixUnique(g: Graph, a: seq<HeaderId>, b: seq<HeaderId>)
    requires LevelPrefix(g, a) && LevelPrefix(g, b) && |a| <= |b|
    ensures a == b[..|a|]
  {
    hide DepthOf;
    if a != [] {
      var n := |a| - 1;
      LevelPrefixInit(g, a);
      LevelPrefixUnique(g, a[..n], b);
      assert a[..n] == b[..n];
      NextComesFirst(g, a, b, n);
      NextComesFirst(g, b, a, n);
    }
  }

  lemma LevelPrefixInit(g: Graph, s: seq<HeaderId>)
    requires LevelPrefix(g, s) && s != []
    ensures LevelPrefix(g, s[..|s| - 1]) && s[|s| - 1] !in s[..|s| - 1]
  {
    var n := |s| - 1;
    assert forall x :: x in s <==> x in s[..n] || x == s[n];
    forall x | x in s[..n]
      ensures Earlier(g, x, s[n])
    {
      var i :| 0 <= i < n && s[i] == x;
    }
  }

  lemma LevelPrefixSize(g: Graph, s: seq<HeaderId>)
    requires LevelPrefix(g, s)
    ensures |s| <= |g|
    ensures (forall x :: Has(g, x) ==> x in s) <==> |s| == |g|
  {
    hide DepthOf;
    forall i, j | 0 <= i < j < |s|
      ensures s[i] != s[j]
    {
      assert Earlier(g, s[i], s[j]);
    }
    DistinctSize(s);
    IdsSize(g);
    SubsetSize(Elems(s), Ids(g));
    forall x
      ensures Has(g, x) <==> x in Ids(g)
    {
    }
  }

  lemma SubsetSize<T>(a: set<T>, b: set<T>)
    requires a <= b
    ensures |a| <= |b| && (|a| == |b| <==> b <= a)
  {
    assert a + (b - a) == b;
    assert |b| == |a| + |b - a|;
  }

  // ---------- The send queue covers what is unsent

  ghost predicate Queued(q: seq<SendEntry>, x: HeaderId) {
    exists e :: e in q && e.id == x
  }

  /** Queued, or below an unsent parent that gives it its depth. */
  ghost predicate Awaited(g: Graph, q: seq<SendEntry>, sent: seq<HeaderId>, x: HeaderId) {
    Queued(q, x) || exists p :: p in Parents(g, x) && p !in sent && DepthOf(g, x) == 1 + DepthOf(g, p)
  }

  ghost predicate Covered(g: Graph, r: Responder, sent: seq<HeaderId>) {
    && Held(g, r)
    && Sorted(SendBefore, r.sendQueue)
    && r.theirKnown == Elems(sent) && r.ourUnknown == {}
    && LevelPrefix(g, sent)
    && (forall x :: Has(g, x) && x !in sent ==> Awaited(g, r.sendQueue, sent, x))
  }

  lemma SendBeforeIsOrder()
    ensures TotalOrder(SendBefore)
  {
  }

  /** The head of the queue comes before every other unsent header. */
  lemma {:induction false} HeadIsEarliest(g: Graph, r: Responder, sent: seq<HeaderId>, y: HeaderId)
    requires Covered(g, r, sent) && r.sendQueue != []
    requires Has(g, y) && y !in sent && y != r.sendQueue[0].id
    ensures Earlier(g, r.sendQueue[0].id, y)
    decreases DepthOf(g, y)
  {
    hide Depth, LevelPrefix;
    var q := r.sendQueue;
    assert q[0] in q;
    assert Awaited(g, q, sent, y);
    if Queued(q, y) {
      var e :| e in q && e.id == y;
      var i :| 0 <= i < |q| && q[i] == e;
      assert SendBefore(q[0], q[i]);
    } else {
      var p :| p in Parents(g, y) && p !in sent && DepthOf(g, y) == 1 + DepthOf(g, p);
      ParentBefore(g, p, y);
      if p != q[0].id { HeadIsEarliest(g, r, sent, p); }
    }
  }

  lemma PushKeepsCovered(g: Graph, r: Responder, sent: seq<HeaderId>, ids: seq<HeaderId>)
    requires Covered(g, r, sent) && forall x :: x in ids ==> Has(g, x)
    ensures Covered(g, QueueForSending(g, r, ids), sent)
  {
    hide LevelPrefix, Depth, Held;
    var r' := QueueForSending(g, r, ids);
    QueueForSendingHeld(g, r, ids);
    PushAllMembers(SendBefore, r.sendQueue, SendEntries(g, ids));
    SendBeforeIsOrder();
    PushAllSorted(SendBefore, r.sendQueue, SendEntries(g, ids));
    forall x | Has(g, x) && x !in sent
      ensures Awaited(g, r'.sendQueue, sent, x)
    {
      assert Awaited(g, r.sendQueue, sent, x);
      if Queued(r.sendQueue, x) {
        var e :| e in r.sendQueue && e.id == x;
        assert e in r'.sendQueue;
      }
    }
  }

  /** What was awaited before a pop is awaited after it, or has just been sent. */
  lemma PopKeepsAwaited(g: Graph, q: seq<SendEntry>, sent: seq<HeaderId>, sent': seq<HeaderId>, x: HeaderId)
    requires q != [] && Awaited(g, q, sent, x) && x !in sent' && q[0].id in sent'
    requires forall y :: y in sent' <==> y in sent || y == q[0].id
    ensures Awaited(g, PushAll(SendBefore, q[1..], SendEntries(g, Children(g, q[0].id))), sent', x)
  {
    hide Children, DepthOf, Parents;
    var id := q[0].id;
    var entries := SendEntries(g, Children(g, id));
    var q' := PushAll(SendBefore, q[1..], entries);
    PushAllMembers(SendBefore, q[1..], entries);
    if Queued(q, x) {
      var e :| e in q && e.id == x;
      assert e in q[1..] && e in q';
    } else {
      var p :| p in Parents(g, x) && p !in sent && DepthOf(g, x) == 1 + DepthOf(g, p);
      if p == id {
        ChildrenMembers(g, id, x);
        var i :| 0 <= i < |Children(g, id)| && Children(g, id)[i] == x;
        assert entries[i] in entries && entries[i] in q' && entries[i].id == x;
      }
    }
  }

  /** The next header is the earliest unsent one. */
  lemma NextInLevelOrder(g: Graph, r: Responder, sent: seq<HeaderId>)
    requires Covered(g, r, sent) && r.sendQueue != [] && r.sendQueue[0].id !in sent
    ensures LevelPrefix(g, sent + [r.sendQueue[0].id])
  {
    hide DepthOf, Depth;
    var id := r.sendQueue[0].id;
    assert r.sendQueue[0] in r.sendQueue;
    var sent' := sent + [id];
    forall y | Has(g, y) && y !in sent'
      ensures Earlier(g, id, y)
    {
      HeadIsEarliest(g, r, sent, y);
    }
  }

  lemma PopKeepsCovered(g: Graph, r: Responder, ops: seq<HeaderId>, sent: seq<HeaderId>)
    requires Covered(g, r, sent + ops) && r.sendQueue != []
    ensures Covered(g, PopSend(g, r, ops).0, sent + PopSend(g, r, ops).1)
  {
    hide Depth, Held, LevelPrefix, Mark, Children, Awaited;
    var q, id := r.sendQueue, r.sendQueue[0].id;
    assert q[0] in q;
    var (r', ops') := PopSend(g, r, ops);
    PopSendHeld(g, r, ops);
    SendBeforeIsOrder();
    PushAllSorted(SendBefore, q[1..], SendEntries(g, Children(g, id)));
    var all, all' := sent + ops, sent + ops';
    if id !in r.theirKnown {
      HeldHas(g, r, q[0]);
      MarkBounds(g, r.theirKnown, id);
      assert all' == all + [id];
      NextInLevelOrder(g, r, all);
      assert Elems(all + [id]) == Elems(all) + {id};
    }
    assert id in all' && forall y :: y in all' <==> y in all || y == id;
    forall x | Has(g, x) && x !in all'
      ensures Awaited(g, r'.sendQueue, all', x)
    {
      PopKeepsAwaited(g, q, all, all', x);
    }
  }

  lemma HeldHas(g: Graph, r: Responder, e: SendEntry)
    requires Held(g, r) && e in r.sendQueue
    ensures Has(g, e.id)
  {
  }

  /** A batch stops only when it is full or the queue is empty. */
  lemma {:induction false} PrepareKeepsCovered(g: Graph, r: Responder, ops: seq<HeaderId>, sent: seq<HeaderId>)
    requires Covered(g, r, sent + ops) && |ops| < MAX_DELIVER_HEADERS
    ensures var (r', ops') := PrepareOperations(g, r, ops);
      Covered(g, r', sent + ops') && |ops'| <= MAX_DELIVER_HEADERS
      && (|ops'| == MAX_DELIVER_HEADERS || r'.sendQueue == [])
    decreases Weight(SendWeight(g), r.sendQueue)
  {
    hide Covered, Below;
    if r.sendQueue != [] {
      PopSendWeight(g, r, ops);
      PopKeepsCovered(g, r, ops, sent);
      var (r', ops') := PopSend(g, r, ops);
      if |ops'| != MAX_DELIVER_HEADERS { PrepareKeepsCovered(g, r', ops', sent); }
    }
  }

  lemma {:induction false} EmptyQueueMeansAllSent(g: Graph, r: Responder, sent: seq<HeaderId>, x: HeaderId)
    requires Covered(g, r, sent) && r.sendQueue == [] && Has(g, x)
    ensures x in sent
    decreases DepthOf(g, x)
  {
    hide Depth, LevelPrefix, Held;
    if x !in sent {
      assert Awaited(g, r.sendQueue, sent, x);
      var p :| p in Parents(g, x) && p !in sent && DepthOf(g, x) == 1 + DepthOf(g, p);
      ParentBefore(g, p, x);
      EmptyQueueMeansAllSent(g, r, sent, p);
    }
  }

  // ---------- Requests of a replica that has only what it was sent

  /** The replica's headers are headers of `g` that were sent. */
  ghost predicate Received(g: Graph, receiver: Graph, sent: seq<HeaderId>) {
    Within(receiver, g) && Ids(receiver) <= Elems(sent)
  }

  lemma ReceivedIsClosed(g: Graph, receiver: Graph)
    requires Within(receiver, g)
    ensures Closed(g, Ids(receiver))
  {
    forall x, p | x in Ids(receiver) && p in Parents(g, x)
      ensures p in Ids(receiver)
    {
      assert Has(receiver, x);
      WithinParents(receiver, g, x);
      ParentBefore(receiver, p, x);
      assert receiver[IndexOf(receiver, p)].id == p;
    }
  }

  lemma MarkKeepsCovered(g: Graph, r: Responder, receiver: Graph, sent: seq<HeaderId>, x: HeaderId)
    requires Covered(g, r, sent) && Received(g, receiver, sent) && Has(receiver, x)
    ensures Mark(g, r.theirKnown, [x]) == r.theirKnown && Has(g, x)
  {
    hide Mark, Awaited, LevelPrefix;
    ReceivedIsClosed(g, receiver);
    WithinParents(receiver, g, x);
    assert x in Ids(receiver);
    MarkWithin(g, r.theirKnown, [x], Ids(receiver));
    MarkGrows(g, r.theirKnown, [x]);
  }

  lemma {:induction false} TipsKeepCovered(g: Graph, r: Responder, receiver: Graph, sent: seq<HeaderId>,
                                           tips: seq<HeaderId>)
    requires Covered(g, r, sent) && Received(g, receiver, sent) && forall x :: x in tips ==> Has(receiver, x)
    ensures Covered(g, HandleTips(g, r, tips), sent) && HandleTips(g, r, tips).sentHaves == r.sentHaves
    decreases |tips|
  {
    hide Covered, Mark, Children, Has, Received;
    if tips != [] {
      MarkKeepsCovered(g, r, receiver, sent, tips[0]);
      ChildrenHeld(g, tips[0]);
      PushKeepsCovered(g, r, sent, Children(g, tips[0]));
      assert r.(theirKnown := r.theirKnown) == r;
      TipsKeepCovered(g, HandleTip(g, r, tips[0]), receiver, sent, tips[1..]);
    }
  }

  lemma {:induction false} HavesKeepCovered(g: Graph, r: Responder, receiver: Graph, sent: seq<HeaderId>,
                                            haves: seq<HeaderId>, bits: seq<bool>)
    requires Covered(g, r, sent) && Received(g, receiver, sent)
    requires forall x :: x in haves ==> Has(g, x)
    requires forall i :: 0 <= i < |haves| && i < |bits| && bits[i] ==> Has(receiver, haves[i])
    ensures Covered(g, HandleHaves(g, r, haves, bits), sent)
    decreases |haves|
  {
    hide Covered, Mark, Children, Has, Received;
    if haves != [] && bits != [] {
      var id := haves[0];
      if bits[0] { MarkKeepsCovered(g, r, receiver, sent, id); }
      ChildrenHeld(g, id);
      PushKeepsCovered(g, r, sent, Children(g, id));
      PushKeepsCovered(g, r, sent, [id]);
      assert r.(theirKnown := r.theirKnown) == r;
      HavesKeepCovered(g, HandleHave(g, r, id, bits[0]), receiver, sent, haves[1..], bits[1..]);
    }
  }

  // ---------- Rounds

  lemma {:induction false} InsertAllConcat(g: Graph, a: seq<Header>, b: seq<Header>)
    ensures InsertAll(g, a + b) == InsertAll(InsertAll(g, a), b)
    decreases |a|
  {
    if a == [] {
      assert a + b == b;
    } else {
      assert (a + b)[1..] == a[1..] + b;
      InsertAllConcat(Insert(g, a[0]), a[1..], b);
    }
  }

  lemma {:induction false} HeadersOfConcat(g: Graph, a: seq<HeaderId>, b: seq<HeaderId>)
    ensures HeadersOf(g, a + b) == HeadersOf(g, a) + HeadersOf(g, b)
    decreases |a|
  {
    if a == [] {
      assert a + b == b;
    } else {
      assert (a + b)[1..] == a[1..] + b;
      HeadersOfConcat(g, a[1..], b);
    }
  }

  lemma {:induction false} HeadersOfMembers(g: Graph, ids: seq<HeaderId>, h: Header)
    ensures h in HeadersOf(g, ids) ==> h in g && h.id in ids
    decreases |ids|
  {
    if ids != [] { HeadersOfMembers(g, ids[1..], h); }
  }

  /** What ends up in the graph was there or was offered. */
  lemma {:induction false} InsertedOrThere(g: Graph, hs: seq<Header>, h: Header)
    ensures h in InsertAll(g, hs) ==> h in g || h in hs
    decreases |hs|
  {
    if hs != [] { InsertedOrThere(Insert(g, hs[0]), hs[1..], h); }
  }

  lemma ReplicaReceived(g: Graph, sent: seq<HeaderId>)
    ensures Received(g, InsertAll([], HeadersOf(g, sent)), sent)
  {
    var receiver := InsertAll([], HeadersOf(g, sent));
    forall h | h in receiver
      ensures h in g && h.id in sent
    {
      InsertedOrThere([], HeadersOf(g, sent), h);
      HeadersOfMembers(g, sent, h);
    }
    forall x | x in Ids(receiver)
      ensures x in sent
    {
      var i :| 0 <= i < |receiver| && receiver[i].id == x;
      assert receiver[i] in receiver;
    }
  }

  /** The replica holds what it could insert, in the order in which it was sent. */
  ghost predicate InSession(g: Graph, s: Session) {
    Covered(g, s.responder, s.sent) && s.receiver == InsertAll([], HeadersOf(g, s.sent))
  }

  /** To a peer without tips, the roots are queued; every other header waits for a parent. */
  lemma RootsCover(g: Graph)
    ensures Covered(g, HandleTheirTips(g, NEW, []), [])
  {
    hide DepthOf, Depth;
    var r := HandleTheirTips(g, NEW, []);
    var ids := Ascending(Roots(g));
    HandleTheirTipsHeld(g, NEW, []);
    AscendingMembers(Roots(g));
    SendBeforeIsOrder();
    PushAllSorted(SendBefore, [], SendEntries(g, ids));
    PushAllMembers(SendBefore, [], SendEntries(g, ids));
    forall x | Has(g, x)
      ensures Awaited(g, r.sendQueue, [], x)
    {
      RootOrBelow(g, r.sendQueue, ids, x);
    }
  }

  lemma RootOrBelow(g: Graph, q: seq<SendEntry>, ids: seq<HeaderId>, x: HeaderId)
    requires Has(g, x)
    requires forall y :: y in Roots(g) ==> y in ids
    requires forall e :: e in SendEntries(g, ids) ==> e in q
    ensures Awaited(g, q, [], x)
  {
    if Parents(g, x) == [] {
      assert g[IndexOf(g, x)].id == x;
      assert x in ids;
      var k :| 0 <= k < |ids| && ids[k] == x;
      assert SendEntries(g, ids)[k] in SendEntries(g, ids);
    } else {
      var p := ShallowParent(g, x);
      assert p in Parents(g, x) && DepthOf(g, x) == 1 + DepthOf(g, p);
    }
  }

  /** Taking in a request keeps the queue covering what is unsent, or makes it so in the first round. */
  lemma RequestKeepsCovered(g: Graph, s: Session)
    requires s == START || InSession(g, s)
    ensures Covered(g, TakeIn(g, s.responder, RequestOf(s)), s.sent)
  {
    hide Covered, Has, Received, InsertAll, HandleTips, HandleHaves, Ascending, Roots, Tips, Held, UpdateOurUnknown,
      BitmapOf;
    var tips := Ascending(Tips(s.receiver));
    if s == START {
      NoTips();
      NoUnknown(g, NEW);
      RootsCover(g);
    } else {
      CoveredHolds(g, s.responder, s.sent);
      NoUnknown(g, s.responder);
      ReplicaReceived(g, s.sent);
      TipsHeld(s.receiver);
      TipsKeepCovered(g, s.responder, s.receiver, s.sent, tips);
      RootsHeld(g);
      PushKeepsCovered(g, s.responder, s.sent, Ascending(Roots(g)));
      var r := HandleTheirTips(g, s.responder, tips);
      CoveredHolds(g, r, s.sent);
      var bits := BitmapOf(s.receiver, s.responder.sentHaves);
      BitmapIsHonest(s.receiver, s.responder.sentHaves);
      HavesKeepCovered(g, r, s.receiver, s.sent, r.sentHaves, bits);
    }
  }

  lemma BitmapIsHonest(receiver: Graph, haves: seq<HeaderId>)
    ensures var bits := BitmapOf(receiver, haves);
      forall i :: 0 <= i < |haves| && i < |bits| && bits[i] ==> Has(receiver, haves[i])
  {
  }

  /** The initiator names just its tips, and acknowledges just those proposals that it has. */
  lemma RequestTellsAll(s: Session, x: HeaderId, i: nat)
    ensures x in RequestOf(s).tips <==> x in Tips(s.receiver)
    ensures RequestOf(s).Initial? <==> s == START
    ensures RequestOf(s).Round? && i < MAX_HAVE_HEADERS ==>
      var haves := s.responder.sentHaves;
      (RequestOf(s).known[i] <==> i < |haves| && Has(s.receiver, haves[i]))
  {
    AscendingMembers(Tips(s.receiver));
  }

  lemma NoTips()
    ensures Ascending(Tips([])) == []
  {
    assert Tips([]) == {};
  }

  lemma CoveredHolds(g: Graph, r: Responder, sent: seq<HeaderId>)
    requires Covered(g, r, sent)
    ensures Held(g, r) && r.ourUnknown == {} && forall x :: x in r.sentHaves ==> Has(g, x)
  {
  }

  /** The queues of proposals do not matter for what is delivered. */
  lemma SameCover(g: Graph, r: Responder, r': Responder, sent: seq<HeaderId>)
    requires Covered(g, r, sent) && Held(g, r')
    requires r'.theirKnown == r.theirKnown && r'.ourUnknown == r.ourUnknown && r'.sendQueue == r.sendQueue
    ensures Covered(g, r', sent)
  {
    hide Awaited, LevelPrefix, Held;
  }

  lemma PrepareCovered(g: Graph, r: Responder, sent: seq<HeaderId>)
    requires Covered(g, r, sent)
    ensures var (r', ops) := Prepare(g, r);
      Covered(g, r', sent + ops) && |ops| <= MAX_DELIVER_HEADERS
      && (|ops| == MAX_DELIVER_HEADERS || r'.sendQueue == [])
  {
    hide Covered, PrepareOperations, PrepareMoreHaves, Held, Tips, Ascending, PushAll;
    CoveredHolds(g, r, sent);
    PrepareOurTipsHeld(g, r);
    var r1 := PrepareOurTips(g, r);
    SameCover(g, r, r1, sent);
    assert sent + [] == sent;
    PrepareKeepsCovered(g, r1, [], sent);
    var (r2, ops) := PrepareOperations(g, r1, []);
    PrepareOperationsHeld(g, r1, []);
    HavesKeepKnown(g, r2.(sentHaves := []));
    PrepareHeld(g, r);
    SameCover(g, r2, PrepareSentHaves(g, r2), sent + ops);
  }

  lemma RoundKeepsSession(g: Graph, s: Session)
    requires s == START || InSession(g, s)
    ensures var s' := NextRound(g, s);
      InSession(g, s') && s.sent <= s'.sent && |s'.sent| == Min(|s.sent| + MAX_DELIVER_HEADERS, |g|)
  {
    hide Covered, Prepare, TakeIn, InsertAll, RequestOf, HeadersOf;
    var r := TakeIn(g, s.responder, RequestOf(s));
    RequestKeepsCovered(g, s);
    PrepareCovered(g, r, s.sent);
    var (r', ops) := Prepare(g, r);
    HeadersOfConcat(g, s.sent, ops);
    NothingInserted();
    InsertAllConcat([], HeadersOf(g, s.sent), HeadersOf(g, ops));
    RoundCount(g, r', s.sent, ops);
  }

  lemma NothingInserted()
    ensures forall g: Graph :: InsertAll([], HeadersOf(g, [])) == []
  {
  }

  lemma RoundCount(g: Graph, r: Responder, sent: seq<HeaderId>, ops: seq<HeaderId>)
    requires Covered(g, r, sent + ops) && |ops| <= MAX_DELIVER_HEADERS
    requires |ops| == MAX_DELIVER_HEADERS || r.sendQueue == []
    ensures |sent + ops| == Min(|sent| + MAX_DELIVER_HEADERS, |g|)
  {
    hide Held, Awaited, LevelPrefix, Has;
    LevelPrefixSize(g, sent + ops);
    if r.sendQueue == [] {
      forall x | Has(g, x)
        ensures x in sent + ops
      {
        EmptyQueueMeansAllSent(g, r, sent + ops, x);
      }
    }
  }

  /**
    After `k` rounds the responder has sent exactly the first 32k headers in level order, whatever the graph and
    whatever the replica could make of them.
   */
  lemma {:induction false} SentInLevelOrder(g: Graph, k: nat)
    ensures var s := Rounds(g, k);
      && LevelPrefix(g, s.sent)
      && |s.sent| == Min(MAX_DELIVER_HEADERS * k, |g|)
      && s.receiver == InsertAll([], HeadersOf(g, s.sent))
      && (k > 0 ==> InSession(g, s))
  {
    hide NextRound, InsertAll, HeadersOf, Held, Awaited;
    if k == 0 {
      NothingInserted();
    } else {
      SentInLevelOrder(g, k - 1);
      RoundKeepsSession(g, Rounds(g, k - 1));
    }
  }

  // ---------- When the replica ends up complete

  /** Every parent comes before its child in level order. */
  ghost predicate Ascends(g: Graph) {
    forall c, p :: p in Parents(g, c) ==> Earlier(g, p, c)
  }

  lemma {:induction false} AllAccepted(g: Graph, ids: seq<HeaderId>)
    requires Ascends(g) && LevelPrefix(g, ids)
    ensures InsertAll([], HeadersOf(g, ids)) == HeadersOf(g, ids)
    ensures forall x :: x in ids ==> Has(InsertAll([], HeadersOf(g, ids)), x)
    decreases |ids|
  {
    hide DepthOf, Depth;
    if ids != [] {
      var init, x := ids[..|ids| - 1], ids[|ids| - 1];
      LevelPrefixInit(g, ids);
      AllAccepted(g, init);
      assert ids == init + [x];
      HeadersOfConcat(g, init, [x]);
      InsertAllConcat([], HeadersOf(g, init), HeadersOf(g, [x]));
      NextAccepted(g, init, x);
    }
  }

  lemma NextAccepted(g: Graph, init: seq<HeaderId>, x: HeaderId)
    requires Ascends(g) && LevelPrefix(g, init) && LevelPrefix(g, init + [x]) && x !in init
    requires forall y :: y in init ==> Has(InsertAll([], HeadersOf(g, init)), y)
    ensures var r := InsertAll([], HeadersOf(g, init));
      && HeadersOf(g, [x]) == [g[IndexOf(g, x)]] && Accepts(r, g[IndexOf(g, x)])
      && InsertAll(r, HeadersOf(g, [x])) == r + HeadersOf(g, [x])
      && (forall y :: y in init + [x] ==> Has(r + HeadersOf(g, [x]), y))
  {
    hide DepthOf, Depth;
    var r, h := InsertAll([], HeadersOf(g, init)), g[IndexOf(g, x)];
    ReplicaReceived(g, init);
    assert !Has(r, x) by {
      forall i | 0 <= i < |r|
        ensures r[i].id in init
      {
        assert r[i].id in Ids(r);
      }
    }
    forall p | p in h.parents
      ensures Has(r, p)
    {
      assert p in Parents(g, x);
      ParentBefore(g, p, x);
      assert Earlier(g, p, x);
      assert x in init + [x] && p != x;
      assert p in init + [x];
    }
    assert InsertAll(r, [h]) == Insert(r, h);
    forall y | y in init + [x]
      ensures Has(r + [h], y)
    {
      if y == x {
        assert (r + [h])[|r|].id == x;
      } else {
        var i :| 0 <= i < |r| && r[i].id == y;
        assert (r + [h])[i].id == y;
      }
    }
  }

  /** A header that is sent before its parent is refused, and it is never sent again. */
  lemma NeverAccepted(g: Graph, ids: seq<HeaderId>, c: HeaderId, p: HeaderId)
    requires LevelPrefix(g, ids) && c in ids && p in Parents(g, c) && !Earlier(g, p, c)
    ensures !Has(InsertAll([], HeadersOf(g, ids)), c)
  {
    hide DepthOf, Depth, HeadersOf, InsertAll;
    var i :| 0 <= i < |ids| && ids[i] == c;
    var a, b := ids[..i], ids[i + 1..];
    var r := InsertAll([], HeadersOf(g, a));
    RefusedBefore(g, ids, i, p);
    SplitAt(g, ids, i);
    ReplicaReceived(g, a);
    NotRepeated(g, ids, i);
    var all := InsertAll(r, HeadersOf(g, b));
    forall k | 0 <= k < |all|
      ensures all[k].id != c
    {
      InsertedOrThere(r, HeadersOf(g, b), all[k]);
      HeadersOfMembers(g, b, all[k]);
      assert all[k] in r ==> all[k].id in Ids(r);
    }
  }

  lemma SplitAt(g: Graph, ids: seq<HeaderId>, i: nat)
    requires i < |ids|
    ensures var r := InsertAll([], HeadersOf(g, ids[..i]));
      InsertAll([], HeadersOf(g, ids)) == InsertAll(InsertAll(r, HeadersOf(g, [ids[i]])), HeadersOf(g, ids[i + 1..]))
  {
    hide HeadersOf, InsertAll;
    var a, c, b := ids[..i], [ids[i]], ids[i + 1..];
    assert ids == a + (c + b);
    HeadersOfConcat(g, a, c + b);
    HeadersOfConcat(g, c, b);
    InsertAllConcat([], HeadersOf(g, a), HeadersOf(g, c) + HeadersOf(g, b));
    InsertAllConcat(InsertAll([], HeadersOf(g, a)), HeadersOf(g, c), HeadersOf(g, b));
  }

  lemma NotRepeated(g: Graph, ids: seq<HeaderId>, i: nat)
    requires LevelPrefix(g, ids) && i < |ids|
    ensures ids[i] !in ids[..i] && ids[i] !in ids[i + 1..]
  {
    forall j | 0 <= j < |ids| && j != i
      ensures ids[j] != ids[i]
    {
      assert Earlier(g, ids[j], ids[i]) || Earlier(g, ids[i], ids[j]);
    }
  }

  lemma RefusedBefore(g: Graph, ids: seq<HeaderId>, i: nat, p: HeaderId)
    requires LevelPrefix(g, ids) && i < |ids| && p in Parents(g, ids[i]) && !Earlier(g, p, ids[i])
    ensures var r := InsertAll([], HeadersOf(g, ids[..i])); InsertAll(r, HeadersOf(g, [ids[i]])) == r
  {
    hide DepthOf, Depth;
    var c := ids[i];
    var r, h := InsertAll([], HeadersOf(g, ids[..i])), g[IndexOf(g, c)];
    ReplicaReceived(g, ids[..i]);
    assert p !in ids[..i] by {
      forall j | 0 <= j < i
        ensures ids[j] != p
      {
        assert Earlier(g, ids[j], ids[i]);
      }
    }
    assert !Has(r, p) by {
      forall k | 0 <= k < |r|
        ensures r[k].id != p
      {
        assert r[k].id in Ids(r);
      }
    }
    assert p in h.parents && !Accepts(r, h);
    assert HeadersOf(g, [c]) == [h];
    assert InsertAll(r, [h]) == Insert(r, h);
  }

  /**
    Once everything has been sent, the replica has the graph of the responder exactly if every parent comes before
    its child in level order. Otherwise it will never have it, since nothing is sent twice.
   */
  lemma ReplicatesIff(g: Graph, k: nat)
    requires MAX_DELIVER_HEADERS * k >= |g|
    ensures SameHeaders(Rounds(g, k).receiver, g) <==> Ascends(g)
    ensures Ascends(g) ==> EqualDags(Rounds(g, k).receiver, g)
  {
    hide DepthOf, Depth, Rounds, InsertAll, HeadersOf;
    var s := Rounds(g, k);
    SentInLevelOrder(g, k);
    LevelPrefixSize(g, s.sent);
    ReplicaReceived(g, s.sent);
    if Ascends(g) {
      AllAccepted(g, s.sent);
      forall h | h in g
        ensures h in s.receiver
      {
        var i :| 0 <= i < |g| && g[i] == h;
        assert Has(g, h.id) && Has(s.receiver, h.id);
        WithinParents(s.receiver, g, h.id);
        assert s.receiver[IndexOf(s.receiver, h.id)] == h;
      }
      OrderIndependence(s.receiver, g);
    } else {
      var c, p :| p in Parents(g, c) && !Earlier(g, p, c);
      ParentBefore(g, p, c);
      NeverAccepted(g, s.sent, c, p);
      assert g[IndexOf(g, c)] !in s.receiver;
    }
  }

  /** All parents of a header have the same depth. */
  ghost predicate Graded(g: Graph) {
    forall c, p, q :: p in Parents(g, c) && q in Parents(g, c) ==> DepthOf(g, p) == DepthOf(g, q)
  }

  lemma GradedAscends(g: Graph)
    requires Graded(g)
    ensures Ascends(g)
  {
    forall c, p | p in Parents(g, c)
      ensures Earlier(g, p, c)
    {
      ParentBefore(g, p, c);
      var q := ShallowParent(g, c);
      assert DepthOf(g, p) == DepthOf(g, q);
    }
  }

  /** A graded graph is replicated completely, in batches of 32. */
  lemma GradedReplicates(g: Graph, k: nat)
    requires Graded(g) && MAX_DELIVER_HEADERS * k >= |g|
    ensures EqualDags(Rounds(g, k).receiver, g)
  {
    GradedAscends(g);
    ReplicatesIff(g, k);
  }

  /** An accepted header on top of a graph. */
  lemma OnTop(g: Graph, h: Header)
    requires Accepts(g, h)
    ensures var g' := Insert(g, h);
      && Has(g', h.id) && Parents(g', h.id) == h.parents
      && (forall x :: Has(g, x) ==> Has(g', x) && DepthOf(g', x) == DepthOf(g, x))
      && (forall x :: Has(g', x) ==> Has(g, x) || x == h.id)
  {
    hide Depth;
    var g' := Insert(g, h);
    assert g'[|g|].id == h.id;
    ExtendsWithin(g, g');
    forall x | Has(g, x)
      ensures Has(g', x) && DepthOf(g', x) == DepthOf(g, x)
    {
      WithinDepth(g, g', x);
    }
  }

  /** A chain of three headers, and a header that merges its first and its last. */
  const A: Header := Header(1, [], true, [])
  const B: Header := Header(2, [1], true, [])
  const C: Header := Header(3, [2], true, [])
  const M: Header := Header(4, [1, 3], true, [])

  function Skewed(): Graph {
    Insert(Insert(Insert(Insert([], A), B), C), M)
  }

  lemma SkewedDepths()
    ensures 3 in Parents(Skewed(), 4) && DepthOf(Skewed(), 3) == 3 && DepthOf(Skewed(), 4) == 2
    ensures M in Skewed()
  {
    hide DepthOf, Parents, Insert, Has;
    var g1 := Insert([], A);
    NothingThere(1);
    OnTop([], A);
    RootDepth(g1, 1);
    var g2 := Insert(g1, B);
    NothingThere(2);
    OnTop(g1, B);
    DepthOfChild(g2, 2, 1);
    var g3 := Insert(g2, C);
    NothingThere(3);
    OnTop(g2, C);
    DepthOfChild(g3, 3, 2);
    NothingThere(4);
    OnTop(g3, M);
    DepthOfChild(Skewed(), 4, 1);
  }

  lemma NothingThere(x: HeaderId)
    ensures !Has([], x)
  {
  }

  /** The merge is as deep as the second header of the chain, is sent before the third, and never arrives. */
  lemma SkewedIsNotReplicated(k: nat)
    ensures !SameHeaders(Rounds(Skewed(), k).receiver, Skewed())
  {
    hide DepthOf, Parents, NextRound, Skewed;
    SkewedDepths();
    var g := Skewed();
    assert !Earlier(g, 3, 4);
    if k == 0 {
      assert Rounds(g, 0) == START;
    } else {
      SkewedSize();
      ReplicatesIff(g, k);
    }
  }

  lemma SkewedSize()
    ensures |Skewed()| <= 4
  {
  }
}
