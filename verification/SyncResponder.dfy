/**
  The responder of the ECG sync protocol: from the tips and the bitmaps a peer sends it works out which headers to
  deliver and which to propose, with one priority queue for each.
 */
module SyncResponder {
  import opened Bits
  import opened Common
  import opened EventGraph
  import opened Heap
  import opened Walks

  const MAX_DELIVER_HEADERS: nat := 32
  const MAX_HAVE_HEADERS: nat := 32

  datatype SendEntry = SendEntry(depth: nat, id: HeaderId)

  /** The shallowest header first, and the greatest id among equals. */
  predicate SendBefore(a: SendEntry, b: SendEntry) {
    a.depth < b.depth || (a.depth == b.depth && a.id >= b.id)
  }

  datatype HaveEntry = HaveEntry(isTip: bool, depth: nat, id: HeaderId, distance: nat)

  /** Tips first, then the deepest headers. */
  predicate HaveBefore(a: HaveEntry, b: HaveEntry) {
    if a.isTip != b.isTip then a.isTip
    else if a.depth != b.depth then a.depth > b.depth
    else if a.id != b.id then a.id > b.id
    else a.distance >= b.distance
  }

  datatype Responder = Responder(
    theirKnown: set<HeaderId>,
    ourUnknown: set<HeaderId>,
    sendQueue: seq<SendEntry>,
    sentHaves: seq<HeaderId>,
    havesQueue: seq<HaveEntry>)

  const NEW: Responder := Responder({}, {}, [], [], [])

  // ---------- Entries for the queues

  function DepthOf(g: Graph, id: HeaderId): nat {
    if Has(g, id) then Depth(g, id) else 0
  }

  lemma RootDepth(g: Graph, id: HeaderId)
    requires Has(g, id) && Parents(g, id) == []
    ensures DepthOf(g, id) == 1
  {
  }

  lemma DepthOfChild(g: Graph, id: HeaderId, p: HeaderId)
    requires Has(g, id) && p in Parents(g, id)
    requires forall q :: q in Parents(g, id) ==> DepthOf(g, p) <= DepthOf(g, q)
    ensures DepthOf(g, id) == 1 + DepthOf(g, p)
  {
    hide Depth;
    var q := ShallowParent(g, id);
    assert DepthOf(g, p) <= DepthOf(g, q);
  }

  function SendEntries(g: Graph, ids: seq<HeaderId>): seq<SendEntry> {
    seq(|ids|, i requires 0 <= i < |ids| => SendEntry(DepthOf(g, ids[i]), ids[i]))
  }

  function HaveEntries(g: Graph, isTip: bool, ids: seq<HeaderId>, distance: nat): seq<HaveEntry> {
    seq(|ids|, i requires 0 <= i < |ids| => HaveEntry(isTip, DepthOf(g, ids[i]), ids[i], distance))
  }

  // ---------- What the peer knows

  /**
    The walk of `mark_as_known_helper`. A header that is new to the set is added and left alone; only from a header
    that was there already the walk goes on to its parents.
   */
  function Mark(g: Graph, known: set<HeaderId>, queue: seq<HeaderId>): set<HeaderId>
    decreases Weight(AboveOf(g), queue)
  {
    if queue == [] then known
    else
      AboveStep(g, queue[0]);
      WeightOfConcat(AboveOf(g), queue[1..], Parents(g, queue[0]));
      if queue[0] in known then Mark(g, known, queue[1..] + Parents(g, queue[0]))
      else Mark(g, known + {queue[0]}, queue[1..])
  }

  /** Every step of the walk takes at least one path off the paths above the queued headers. */
  lemma MarkStep(g: Graph, known: set<HeaderId>, queue: seq<HeaderId>)
    requires queue != []
    ensures Mark(g, known, queue) == if queue[0] in known then Mark(g, known, queue[1..] + Parents(g, queue[0]))
                                     else Mark(g, known + {queue[0]}, queue[1..])
    ensures Weight(AboveOf(g), queue[1..] + Parents(g, queue[0])) < Weight(AboveOf(g), queue)
    ensures Weight(AboveOf(g), queue[1..]) < Weight(AboveOf(g), queue)
  {
    hide Parents, Above;
    AboveStep(g, queue[0]);
    WeightOfConcat(AboveOf(g), queue[1..], Parents(g, queue[0]));
  }

  function TheyKnow(r: Responder, id: HeaderId): bool {
    id in r.theirKnown || id in r.ourUnknown
  }

  function QueueForSending(g: Graph, r: Responder, ids: seq<HeaderId>): Responder {
    r.(sendQueue := PushAll(SendBefore, r.sendQueue, SendEntries(g, ids)))
  }

  function HandleTip(g: Graph, r: Responder, tip: HeaderId): Responder {
    if Has(g, tip) then
      QueueForSending(g, r.(theirKnown := Mark(g, r.theirKnown, [tip])), Children(g, tip))
    else r.(ourUnknown := r.ourUnknown + {tip})
  }

  function HandleTips(g: Graph, r: Responder, tips: seq<HeaderId>): Responder
    decreases |tips|
  {
    if tips == [] then r else HandleTips(g, HandleTip(g, r, tips[0]), tips[1..])
  }

  function HandleTheirTips(g: Graph, r: Responder, tips: seq<HeaderId>): Responder {
    if tips == [] then QueueForSending(g, r, Ascending(Roots(g))) else HandleTips(g, r, tips)
  }

  function HandleHave(g: Graph, r: Responder, id: HeaderId, theyKnow: bool): Responder {
    if theyKnow then QueueForSending(g, r.(theirKnown := Mark(g, r.theirKnown, [id])), Children(g, id))
    else if IsRoot(g, id) || (forall p :: p in Parents(g, id) ==> p in r.theirKnown) then QueueForSending(g, r, [id])
    else r
  }

  type Bitmap = b: seq<bool> | |b| == MAX_HAVE_HEADERS witness seq(32, _ => false)

  function HandleHaves(g: Graph, r: Responder, haves: seq<HeaderId>, bits: seq<bool>): Responder
    decreases |haves|
  {
    if haves == [] || bits == [] then r else HandleHaves(g, HandleHave(g, r, haves[0], bits[0]), haves[1..], bits[1..])
  }

  function HandleTheirKnown(g: Graph, r: Responder, bits: Bitmap): Responder {
    HandleHaves(g, r, r.sentHaves, bits)
  }

  function MarkAll(g: Graph, known: set<HeaderId>, ids: seq<HeaderId>): set<HeaderId>
    decreases |ids|
  {
    if ids == [] then known else MarkAll(g, Mark(g, known, [ids[0]]), ids[1..])
  }

  function Arrived(g: Graph, unknown: set<HeaderId>): set<HeaderId> {
    set x | x in unknown && Has(g, x)
  }

  /** Headers of the peer that have reached us meanwhile. */
  function UpdateOurUnknown(g: Graph, r: Responder): Responder {
    var arrived := Arrived(g, r.ourUnknown);
    r.(ourUnknown := r.ourUnknown - arrived, theirKnown := MarkAll(g, r.theirKnown, Ascending(arrived)))
  }

  // ---------- What to deliver

  ghost function SendWeight(g: Graph): SendEntry -> nat {
    (e: SendEntry) => Below(g, e.id)
  }

  ghost function HaveWeight(g: Graph): HaveEntry -> nat {
    (e: HaveEntry) => Above(g, e.id)
  }

  lemma {:induction false} SendEntriesWeight(g: Graph, ids: seq<HeaderId>)
    ensures Weight(SendWeight(g), SendEntries(g, ids)) == Weight(BelowOf(g), ids)
  {
    if ids != [] {
      assert SendEntries(g, ids)[1..] == SendEntries(g, ids[1..]);
      SendEntriesWeight(g, ids[1..]);
    }
  }

  lemma {:induction false} HaveEntriesWeight(g: Graph, isTip: bool, ids: seq<HeaderId>, distance: nat)
    ensures Weight(HaveWeight(g), HaveEntries(g, isTip, ids, distance)) == Weight(AboveOf(g), ids)
  {
    if ids != [] {
      assert HaveEntries(g, isTip, ids, distance)[1..] == HaveEntries(g, isTip, ids[1..], distance);
      HaveEntriesWeight(g, isTip, ids[1..], distance);
    }
  }

  function PopSend(g: Graph, r: Responder, sent: seq<HeaderId>): (Responder, seq<HeaderId>)
    requires r.sendQueue != []
  {
    var id := r.sendQueue[0].id;
    var r' := r.(sendQueue := PushAll(SendBefore, r.sendQueue[1..], SendEntries(g, Children(g, id))));
    if TheyKnow(r, id) then (r', sent) else (r'.(theirKnown := Mark(g, r.theirKnown, [id])), sent + [id])
  }

  /** Every pop takes one path off the paths below the queued headers. */
  lemma PopSendWeight(g: Graph, r: Responder, sent: seq<HeaderId>)
    requires r.sendQueue != []
    ensures Weight(SendWeight(g), PopSend(g, r, sent).0.sendQueue) == Weight(SendWeight(g), r.sendQueue) - 1
  {
    var id := r.sendQueue[0].id;
    WeightOfPushAll(SendBefore, SendWeight(g), r.sendQueue[1..], SendEntries(g, Children(g, id)));
    SendEntriesWeight(g, Children(g, id));
    BelowStep(g, id);
  }

  function PrepareOperations(g: Graph, r: Responder, sent: seq<HeaderId>): (Responder, seq<HeaderId>)
    decreases Weight(SendWeight(g), r.sendQueue)
  {
    if r.sendQueue == [] then (r, sent)
    else
      PopSendWeight(g, r, sent);
      var (r', sent') := PopSend(g, r, sent);
      if |sent'| == MAX_DELIVER_HEADERS then (r', sent') else PrepareOperations(g, r', sent')
  }

  // ---------- What to propose

  function PrepareOurTips(g: Graph, r: Responder): Responder {
    r.(havesQueue := PushAll(HaveBefore, r.havesQueue, HaveEntries(g, true, Ascending(Tips(g)), 0)))
  }

  function PopHave(g: Graph, r: Responder): Responder
    requires r.havesQueue != []
  {
    var e, rest := r.havesQueue[0], r.havesQueue[1..];
    if TheyKnow(r, e.id) then r.(havesQueue := rest)
    else r.(
      havesQueue := PushAll(HaveBefore, rest, HaveEntries(g, false, Parents(g, e.id), e.distance + 1)),
      sentHaves := if IsPowerOfTwoNumber(e.distance) || e.depth == 1 then r.sentHaves + [e.id] else r.sentHaves)
  }

  /** Every pop takes at least one path off the paths above the queued headers. */
  lemma PopHaveWeight(g: Graph, r: Responder)
    requires r.havesQueue != []
    ensures Weight(HaveWeight(g), PopHave(g, r).havesQueue) < Weight(HaveWeight(g), r.havesQueue)
  {
    hide Parents, Above, HaveBefore;
    var e, w := r.havesQueue[0], HaveWeight(g);
    var parents := HaveEntries(g, false, Parents(g, e.id), e.distance + 1);
    WeightOfPushAll(HaveBefore, w, r.havesQueue[1..], parents);
    HaveEntriesWeight(g, false, Parents(g, e.id), e.distance + 1);
    AboveStep(g, e.id);
    assert Weight(w, r.havesQueue) == 1 + Weight(w, parents) + Weight(w, r.havesQueue[1..]);
  }

  function PrepareMoreHaves(g: Graph, r: Responder): Responder
    decreases Weight(HaveWeight(g), r.havesQueue)
  {
    if r.havesQueue == [] then r
    else
      PopHaveWeight(g, r);
      var r' := PopHave(g, r);
      if |r'.sentHaves| == MAX_HAVE_HEADERS then r' else PrepareMoreHaves(g, r')
  }

  function PrepareSentHaves(g: Graph, r: Responder): Responder {
    PrepareMoreHaves(g, r.(sentHaves := []))
  }

  /** The state and the delivered headers of one response. */
  function Prepare(g: Graph, r: Responder): (Responder, seq<HeaderId>) {
    var (r', sent) := PrepareOperations(g, PrepareOurTips(g, r), []);
    (PrepareSentHaves(g, r'), sent)
  }

  // ---------- Everything in the queues is in the graph

  /** What the code takes for granted where it calls `expect` and `unreachable!`. */
  ghost predicate Held(g: Graph, r: Responder) {
    && (forall x :: x in r.theirKnown ==> Has(g, x))
    && (forall e :: e in r.sendQueue ==> Has(g, e.id) && e.depth == Depth(g, e.id))
    && (forall e :: e in r.havesQueue ==> Has(g, e.id) && e.depth == Depth(g, e.id))
    && (forall x :: x in r.sentHaves ==> Has(g, x))
    && |r.sentHaves| <= MAX_HAVE_HEADERS
  }

  lemma {:induction false} MarkHeld(g: Graph, known: set<HeaderId>, queue: seq<HeaderId>)
    requires forall x :: x in known ==> Has(g, x)
    requires forall x :: x in queue ==> Has(g, x)
    ensures forall x :: x in Mark(g, known, queue) ==> Has(g, x)
    decreases Weight(AboveOf(g), queue)
  {
    if queue != [] {
      AboveStep(g, queue[0]);
      WeightOfConcat(AboveOf(g), queue[1..], Parents(g, queue[0]));
      if queue[0] in known {
        forall p | p in Parents(g, queue[0])
          ensures Has(g, p)
        {
          ParentBefore(g, p, queue[0]);
        }
        MarkHeld(g, known, queue[1..] + Parents(g, queue[0]));
      } else {
        MarkHeld(g, known + {queue[0]}, queue[1..]);
      }
    }
  }

  lemma QueueForSendingHeld(g: Graph, r: Responder, ids: seq<HeaderId>)
    requires Held(g, r) && forall x :: x in ids ==> Has(g, x)
    ensures Held(g, QueueForSending(g, r, ids))
  {
    hide Depth;
    PushAllMembers(SendBefore, r.sendQueue, SendEntries(g, ids));
  }

  lemma ChildrenHeld(g: Graph, id: HeaderId)
    ensures forall x :: x in Children(g, id) ==> Has(g, x)
  {
    forall x | x in Children(g, id)
      ensures Has(g, x)
    {
      ChildrenMembers(g, id, x);
    }
  }

  lemma ParentsHeld(g: Graph, id: HeaderId)
    ensures forall x :: x in Parents(g, id) ==> Has(g, x)
  {
    forall x | x in Parents(g, id)
      ensures Has(g, x)
    {
      ParentBefore(g, x, id);
    }
  }

  lemma PopSendHeld(g: Graph, r: Responder, sent: seq<HeaderId>)
    requires Held(g, r) && r.sendQueue != []
    ensures Held(g, PopSend(g, r, sent).0)
  {
    hide Depth, Children, Mark;
    var e := r.sendQueue[0];
    assert e in r.sendQueue;
    ChildrenHeld(g, e.id);
    MarkHeld(g, r.theirKnown, [e.id]);
    PushAllMembers(SendBefore, r.sendQueue[1..], SendEntries(g, Children(g, e.id)));
  }

  lemma PopHaveHeld(g: Graph, r: Responder)
    requires Held(g, r) && r.havesQueue != [] && |r.sentHaves| < MAX_HAVE_HEADERS
    ensures Held(g, PopHave(g, r))
  {
    hide Depth, Parents;
    var e := r.havesQueue[0];
    assert e in r.havesQueue;
    ParentsHeld(g, e.id);
    PushAllMembers(HaveBefore, r.havesQueue[1..], HaveEntries(g, false, Parents(g, e.id), e.distance + 1));
  }

  lemma HandleTipHeld(g: Graph, r: Responder, tip: HeaderId)
    requires Held(g, r)
    ensures Held(g, HandleTip(g, r, tip))
  {
    hide Depth, Children, Mark;
    if Has(g, tip) {
      ChildrenHeld(g, tip);
      MarkHeld(g, r.theirKnown, [tip]);
      QueueForSendingHeld(g, r.(theirKnown := Mark(g, r.theirKnown, [tip])), Children(g, tip));
    }
  }

  lemma HandleHaveHeld(g: Graph, r: Responder, id: HeaderId, theyKnow: bool)
    requires Held(g, r) && Has(g, id)
    ensures Held(g, HandleHave(g, r, id, theyKnow))
    ensures HandleHave(g, r, id, theyKnow).sentHaves == r.sentHaves
  {
    hide Depth, Children, Mark;
    ChildrenHeld(g, id);
    MarkHeld(g, r.theirKnown, [id]);
    QueueForSendingHeld(g, r.(theirKnown := Mark(g, r.theirKnown, [id])), Children(g, id));
    QueueForSendingHeld(g, r, [id]);
  }

  lemma PrepareOurTipsHeld(g: Graph, r: Responder)
    requires Held(g, r)
    ensures Held(g, PrepareOurTips(g, r))
  {
    hide Depth;
    TipsHeld(g);
    PushAllMembers(HaveBefore, r.havesQueue, HaveEntries(g, true, Ascending(Tips(g)), 0));
  }

  lemma TipsHeld(g: Graph)
    ensures forall x :: x in Ascending(Tips(g)) ==> Has(g, x)
  {
    AscendingMembers(Tips(g));
    forall x | x in Tips(g)
      ensures Has(g, x)
    {
      var i :| 0 <= i < |g| && !HasChild(g, g[i].id) && g[i].id == x;
    }
  }

  lemma RootsHeld(g: Graph)
    ensures forall x :: x in Ascending(Roots(g)) ==> Has(g, x)
  {
    AscendingMembers(Roots(g));
    forall x | x in Roots(g)
      ensures Has(g, x)
    {
      var i :| 0 <= i < |g| && g[i].parents == [] && g[i].id == x;
    }
  }

  lemma {:induction false} HandleTipsHeld(g: Graph, r: Responder, tips: seq<HeaderId>)
    requires Held(g, r)
    ensures Held(g, HandleTips(g, r, tips))
    decreases |tips|
  {
    hide HandleTip;
    if tips != [] {
      HandleTipHeld(g, r, tips[0]);
      HandleTipsHeld(g, HandleTip(g, r, tips[0]), tips[1..]);
    }
  }

  lemma HandleTheirTipsHeld(g: Graph, r: Responder, tips: seq<HeaderId>)
    requires Held(g, r)
    ensures Held(g, HandleTheirTips(g, r, tips))
  {
    hide HandleTips, Ascending, Roots, Depth;
    HandleTipsHeld(g, r, tips);
    RootsHeld(g);
    QueueForSendingHeld(g, r, Ascending(Roots(g)));
  }

  lemma {:induction false} HandleHavesHeld(g: Graph, r: Responder, haves: seq<HeaderId>, bits: seq<bool>)
    requires Held(g, r) && forall x :: x in haves ==> Has(g, x)
    ensures Held(g, HandleHaves(g, r, haves, bits))
    decreases |haves|
  {
    hide HandleHave;
    if haves != [] && bits != [] {
      HandleHaveHeld(g, r, haves[0], bits[0]);
      HandleHavesHeld(g, HandleHave(g, r, haves[0], bits[0]), haves[1..], bits[1..]);
    }
  }

  lemma {:induction false} MarkAllHeld(g: Graph, known: set<HeaderId>, ids: seq<HeaderId>)
    requires forall x :: x in known ==> Has(g, x)
    requires forall x :: x in ids ==> Has(g, x)
    ensures forall x :: x in MarkAll(g, known, ids) ==> Has(g, x)
    decreases |ids|
  {
    hide Mark;
    if ids != [] {
      MarkHeld(g, known, [ids[0]]);
      MarkAllHeld(g, Mark(g, known, [ids[0]]), ids[1..]);
    }
  }

  lemma UpdateOurUnknownHeld(g: Graph, r: Responder)
    requires Held(g, r)
    ensures Held(g, UpdateOurUnknown(g, r))
  {
    AscendingMembers(Arrived(g, r.ourUnknown));
    MarkAllHeld(g, r.theirKnown, Ascending(Arrived(g, r.ourUnknown)));
  }

  lemma {:induction false} PrepareOperationsHeld(g: Graph, r: Responder, sent: seq<HeaderId>)
    requires Held(g, r)
    ensures Held(g, PrepareOperations(g, r, sent).0)
    decreases Weight(SendWeight(g), r.sendQueue)
  {
    hide PopSend;
    if r.sendQueue != [] {
      PopSendWeight(g, r, sent);
      PopSendHeld(g, r, sent);
      var (r', sent') := PopSend(g, r, sent);
      if |sent'| != MAX_DELIVER_HEADERS { PrepareOperationsHeld(g, r', sent'); }
    }
  }

  lemma {:induction false} PrepareMoreHavesHeld(g: Graph, r: Responder)
    requires Held(g, r) && |r.sentHaves| < MAX_HAVE_HEADERS
    ensures Held(g, PrepareMoreHaves(g, r))
    decreases Weight(HaveWeight(g), r.havesQueue)
  {
    if r.havesQueue != [] {
      PopHaveWeight(g, r);
      PopHaveHeld(g, r);
      if |PopHave(g, r).sentHaves| != MAX_HAVE_HEADERS { PrepareMoreHavesHeld(g, PopHave(g, r)); }
    }
  }

  lemma PrepareHeld(g: Graph, r: Responder)
    requires Held(g, r)
    ensures Held(g, Prepare(g, r).0)
  {
    hide PrepareOperations, PrepareMoreHaves, PrepareOurTips;
    PrepareOurTipsHeld(g, r);
    PrepareOperationsHeld(g, PrepareOurTips(g, r), []);
    var (r', _) := PrepareOperations(g, PrepareOurTips(g, r), []);
    PrepareMoreHavesHeld(g, r'.(sentHaves := []));
  }
}
