/** Neither the order in which a graph library lists neighbours nor that of a queue changes what is marked. */
module WalkOrder {
  import opened EventGraph
  import opened Heap
  import opened Walks
  import opened SyncResponder

  /** What the visit of a header adds to the queue. */
  function Onward(g: Graph, known: set<HeaderId>, h: HeaderId): seq<HeaderId> {
    if h in known then Parents(g, h) else []
  }

  lemma VisitFirst(g: Graph, known: set<HeaderId>, queue: seq<HeaderId>)
    requires queue != []
    ensures Mark(g, known, queue) == Mark(g, known + {queue[0]}, queue[1..] + Onward(g, known, queue[0]))
    ensures Weight(AboveOf(g), queue[1..] + Onward(g, known, queue[0])) < Weight(AboveOf(g), queue)
  {
    hide Parents, Above;
    MarkStep(g, known, queue);
    if queue[0] in known {
      assert known + {queue[0]} == known;
    } else {
      assert queue[1..] + [] == queue[1..];
    }
  }

  function Without(queue: seq<HeaderId>, i: nat): seq<HeaderId>
    requires i < |queue|
  {
    queue[..i] + queue[i + 1..]
  }

  lemma WithoutWeight(g: Graph, known: set<HeaderId>, queue: seq<HeaderId>, i: nat)
    requires i < |queue|
    ensures Weight(AboveOf(g), Without(queue, i) + Onward(g, known, queue[i])) < Weight(AboveOf(g), queue)
  {
    hide Parents, Above, Onward;
    WeightOfWithout(AboveOf(g), queue, i);
    WeightOfConcat(AboveOf(g), Without(queue, i), Onward(g, known, queue[i]));
    OnwardWeight(g, known, queue[i]);
  }

  lemma OnwardWeight(g: Graph, known: set<HeaderId>, h: HeaderId)
    ensures Weight(AboveOf(g), Onward(g, known, h)) < Above(g, h)
  {
    hide Parents, Above;
    AboveStep(g, h);
  }

  /** Two visits put the same headers into the queue in either order. */
  lemma TwoVisits(g: Graph, known: set<HeaderId>, a: HeaderId, b: HeaderId)
    ensures multiset(Onward(g, known, a)) + multiset(Onward(g, known + {a}, b))
         == multiset(Onward(g, known, b)) + multiset(Onward(g, known + {b}, a))
  {
  }

  lemma SameQueues(queue: seq<HeaderId>, i: nat, pa: seq<HeaderId>, pab: seq<HeaderId>, pb: seq<HeaderId>,
                   pba: seq<HeaderId>)
    requires 0 < i < |queue|
    ensures multiset(pa) + multiset(pab) == multiset(pb) + multiset(pba) ==>
      multiset(Without(queue[1..] + pa, i - 1) + pab) == multiset((Without(queue, i) + pb)[1..] + pba)
  {
    var rest := queue[1..i] + queue[i + 1..];
    assert Without(queue[1..] + pa, i - 1) == rest + pa;
    assert (Without(queue, i) + pb)[1..] == rest + pb;
    assert multiset(rest + pa + pab) == multiset(rest) + (multiset(pa) + multiset(pab));
    assert multiset(rest + pb + pba) == multiset(rest) + (multiset(pb) + multiset(pba));
  }

  /** Any header of the queue may be visited first. */
  lemma {:induction false} AnyFirst(g: Graph, known: set<HeaderId>, queue: seq<HeaderId>, i: nat)
    requires i < |queue|
    ensures Mark(g, known, queue)
         == Mark(g, known + {queue[i]}, Without(queue, i) + Onward(g, known, queue[i]))
    decreases Weight(AboveOf(g), queue), 0
  {
    hide Parents, Above, Mark, Onward;
    var a, b := queue[0], queue[i];
    VisitFirst(g, known, queue);
    if i == 0 {
      assert Without(queue, 0) == queue[1..];
    } else {
      var first := queue[1..] + Onward(g, known, a);
      AnyFirst(g, known + {a}, first, i - 1);
      var left := Without(first, i - 1) + Onward(g, known + {a}, b);
      WithoutWeight(g, known + {a}, first, i - 1);
      var second := Without(queue, i) + Onward(g, known, b);
      VisitFirst(g, known + {b}, second);
      var right := second[1..] + Onward(g, known + {b}, a);
      assert known + {a} + {b} == known + {b} + {a};
      SameQueues(queue, i, Onward(g, known, a), Onward(g, known + {a}, b), Onward(g, known, b),
                 Onward(g, known + {b}, a));
      TwoVisits(g, known, a, b);
      MarkAnyOrder(g, known + {a} + {b}, left, right);
    }
  }

  /** The order of the queue makes no difference to what is marked in the end. */
  lemma {:induction false} MarkAnyOrder(g: Graph, known: set<HeaderId>, q: seq<HeaderId>, q': seq<HeaderId>)
    requires multiset(q) == multiset(q')
    ensures Mark(g, known, q) == Mark(g, known, q')
    decreases Weight(AboveOf(g), q), 1
  {
    hide Parents, Above, Onward;
    if q' == [] {
      assert |q| == |multiset(q)|;
    } else {
      hide Mark;
      assert q'[0] in multiset(q);
      var i :| 0 <= i < |q| && q[i] == q'[0];
      AnyFirst(g, known, q, i);
      WithoutWeight(g, known, q, i);
      VisitFirst(g, known, q');
      SameWithout(q, q', i, 0);
      assert q'[..0] + q'[1..] == q'[1..];
      MarkAnyOrder(g, known + {q[i]}, Without(q, i) + Onward(g, known, q[i]), q'[1..] + Onward(g, known, q[i]));
    }
  }

  // ---------- Queues filled from unordered neighbours

  function SendEntryOf(g: Graph): HeaderId -> SendEntry {
    (id: HeaderId) => SendEntry(DepthOf(g, id), id)
  }

  function HaveEntryOf(g: Graph, isTip: bool, distance: nat): HeaderId -> HaveEntry {
    (id: HeaderId) => HaveEntry(isTip, DepthOf(g, id), id, distance)
  }

  lemma SendAnyOrder(g: Graph, q: seq<SendEntry>, ids: seq<HeaderId>, ids': seq<HeaderId>)
    requires multiset(ids) == multiset(ids')
    ensures PushAll(SendBefore, q, SendEntries(g, ids)) == PushAll(SendBefore, q, SendEntries(g, ids'))
  {
    hide DepthOf;
    assert SendEntries(g, ids) == Map(SendEntryOf(g), ids) && SendEntries(g, ids') == Map(SendEntryOf(g), ids');
    MapAnyOrder(SendEntryOf(g), ids, ids');
    SendBeforeIsStrict();
    PushAllAnyOrder(SendBefore, q, SendEntries(g, ids), SendEntries(g, ids'));
  }

  lemma SendBeforeIsStrict()
    ensures StrictAmong(SendBefore)
  {
  }

  lemma HaveAnyOrder(g: Graph, q: seq<HaveEntry>, isTip: bool, ids: seq<HeaderId>, ids': seq<HeaderId>, distance: nat)
    requires multiset(ids) == multiset(ids')
    ensures PushAll(HaveBefore, q, HaveEntries(g, isTip, ids, distance))
         == PushAll(HaveBefore, q, HaveEntries(g, isTip, ids', distance))
  {
    hide DepthOf;
    var f := HaveEntryOf(g, isTip, distance);
    assert HaveEntries(g, isTip, ids, distance) == Map(f, ids) && HaveEntries(g, isTip, ids', distance) == Map(f, ids');
    MapAnyOrder(f, ids, ids');
    HaveBeforeIsStrict();
    PushAllAnyOrder(HaveBefore, q, HaveEntries(g, isTip, ids, distance), HaveEntries(g, isTip, ids', distance));
  }

  lemma HaveBeforeIsStrict()
    ensures StrictAmong(HaveBefore)
  {
  }
}
