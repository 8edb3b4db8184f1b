/**
  The responder as it runs over the stored event graph: sets and queues updated in place by loops that pop until a
  limit is reached. What the graph lists in no particular order ends up in queues that do not depend on the order.
 */
module ResponderLoops {
  import opened Common
  import opened EventGraph
  import opened EcgState
  import opened Bits
  import opened Heap
  import opened Walks
  import opened SyncResponder
  import opened WalkOrder

  function ToSendEntries(pairs: seq<(nat, HeaderId)>): seq<SendEntry> {
    seq(|pairs|, i requires 0 <= i < |pairs| => SendEntry(pairs[i].0, pairs[i].1))
  }

  function ToHaveEntries(isTip: bool, pairs: seq<(nat, HeaderId)>, distance: nat): seq<HaveEntry> {
    seq(|pairs|, i requires 0 <= i < |pairs| => HaveEntry(isTip, pairs[i].0, pairs[i].1, distance))
  }

  lemma SendEntriesOfPairs(g: Graph, pairs: seq<(nat, HeaderId)>)
    requires WithDepths(g, pairs)
    ensures ToSendEntries(pairs) == SendEntries(g, Seconds(pairs))
  {
    hide Depth;
  }

  lemma HaveEntriesOfPairs(g: Graph, isTip: bool, pairs: seq<(nat, HeaderId)>, distance: nat)
    requires WithDepths(g, pairs)
    ensures ToHaveEntries(isTip, pairs, distance) == HaveEntries(g, isTip, Seconds(pairs), distance)
  {
    hide Depth;
  }

  class EcgSyncResponder {
    var theirKnown: set<HeaderId>
    var ourUnknown: set<HeaderId>
    var sendQueue: seq<SendEntry>
    var sentHaves: seq<HeaderId>
    var havesQueue: seq<HaveEntry>

    function State(): Responder
      reads this
    {
      Responder(theirKnown, ourUnknown, sendQueue, sentHaves, havesQueue)
    }

    constructor ()
      ensures State() == NEW
    {
      theirKnown, ourUnknown, sendQueue, sentHaves, havesQueue := {}, {}, [], [], [];
    }

    method MarkAsKnown(st: EcgState, headerId: HeaderId)
      requires st.Valid() && Has(st.log, headerId) && forall x :: x in theirKnown ==> Has(st.log, x)
      modifies this`theirKnown
      ensures theirKnown == Mark(st.log, old(theirKnown), [headerId])
      ensures forall x :: x in theirKnown ==> Has(st.log, x)
    {
      hide Parents, Above, Roots, Tips, DagOf, InfoOf, NodesOf;
      ghost var g := st.log;
      var queue := [headerId];
      while queue != []
        invariant forall x :: x in theirKnown ==> Has(g, x)
        invariant forall x :: x in queue ==> Has(g, x)
        invariant Mark(g, theirKnown, queue) == Mark(g, old(theirKnown), [headerId])
        decreases Weight(AboveOf(g), queue)
      {
        var header := queue[0];
        ghost var known := theirKnown;
        MarkStep(g, known, queue);
        ParentsHeld(g, header);
        queue := queue[1..];
        var isNew := header !in theirKnown;
        theirKnown := theirKnown + {header};
        if !isNew {
          assert theirKnown == known;
          var parents := st.GetParents(header);
          assert multiset(queue + parents.value) == multiset(queue + Parents(g, header));
          MarkAnyOrder(g, known, queue + parents.value, queue + Parents(g, header));
          WeightAnyOrder(AboveOf(g), queue + parents.value, queue + Parents(g, header));
          forall p | p in parents.value
            ensures Has(g, p)
          {
            assert p in multiset(parents.value);
          }
          queue := queue + parents.value;
        }
      }
    }

    /** Queues the children of a header; `get_children_with_depth` never fails here. */
    method QueueChildren(st: EcgState, id: HeaderId)
      requires st.Valid() && Has(st.log, id)
      modifies this`sendQueue
      ensures sendQueue == PushAll(SendBefore, old(sendQueue), SendEntries(st.log, Children(st.log, id)))
    {
      hide DepthOf, Depth, Children, Roots, Tips, DagOf, InfoOf, NodesOf, PushAll;
      var children := st.GetChildrenWithDepth(id);
      SendEntriesOfPairs(st.log, children.value);
      SendAnyOrder(st.log, sendQueue, Seconds(children.value), Children(st.log, id));
      sendQueue := PushAll(SendBefore, sendQueue, ToSendEntries(children.value));
    }

    method QueueRoots(st: EcgState)
      requires st.Valid()
      modifies this`sendQueue
      ensures sendQueue == PushAll(SendBefore, old(sendQueue), SendEntries(st.log, Ascending(Roots(st.log))))
    {
      hide DepthOf, Depth, Tips, DagOf, InfoOf, NodesOf, Ascending, PushAll;
      var ids := Ascending(st.rootNodes);
      RootsHaveDepthOne(st.log);
      var entries := seq(|ids|, i requires 0 <= i < |ids| => SendEntry(1, ids[i]));
      assert entries == SendEntries(st.log, ids);
      sendQueue := PushAll(SendBefore, sendQueue, entries);
    }

    method HandleTheirTips(st: EcgState, tips: seq<HeaderId>)
      requires st.Valid() && Held(st.log, State())
      modifies this
      ensures State() == SyncResponder.HandleTheirTips(st.log, old(State()), tips) && Held(st.log, State())
    {
      hide Depth, Children, Mark, Roots, Tips, DagOf, InfoOf, NodesOf, PushAll, Ascending, Held;
      ghost var g := st.log;
      HandleTheirTipsHeld(g, State(), tips);
      if tips == [] {
        QueueRoots(st);
      }
      for k := 0 to |tips|
        invariant Held(g, State())
        invariant tips == [] ==> State() == SyncResponder.HandleTheirTips(g, old(State()), tips)
        invariant tips != [] ==> HandleTips(g, State(), tips[k..]) == HandleTips(g, old(State()), tips)
      {
        var tip := tips[k];
        assert tips[k..][1..] == tips[k + 1..];
        HandleTipHeld(g, State(), tip);
        KnownHeld(g, State());
        if st.Contains(tip) {
          MarkAsKnown(st, tip);
          QueueChildren(st, tip);
        } else {
          ourUnknown := ourUnknown + {tip};
        }
      }
    }

    method HandleTheirKnown(st: EcgState, bits: Bitmap)
      requires st.Valid() && Held(st.log, State())
      modifies this
      ensures State() == SyncResponder.HandleTheirKnown(st.log, old(State()), bits) && Held(st.log, State())
    {
      hide Depth, Children, Mark, Roots, Tips, DagOf, InfoOf, NodesOf, PushAll, Ascending, Held, Parents;
      ghost var g := st.log;
      var haves := sentHaves;
      KnownHeld(g, State());
      for k := 0 to |haves|
        invariant Held(g, State()) && sentHaves == haves
        invariant HandleHaves(g, State(), haves[k..], bits[k..]) == HandleHaves(g, old(State()), haves, bits)
      {
        var id := haves[k];
        assert haves[k..][1..] == haves[k + 1..] && bits[k..][1..] == bits[k + 1..];
        assert id in sentHaves;
        KnownHeld(g, State());
        HandleHaveHeld(g, State(), id, bits[k]);
        if bits[k] {
          MarkAsKnown(st, id);
          QueueChildren(st, id);
        } else {
          var parents := st.GetParents(id);
          RootIsListed(g, id);
          SameMembers(parents.value, Parents(g, id));
          if id in st.rootNodes || forall p :: p in parents.value ==> p in theirKnown {
            var depth := st.GetHeaderDepth(id);
            assert [SendEntry(depth.value, id)] == SendEntries(g, [id]);
            sendQueue := PushAll(SendBefore, sendQueue, [SendEntry(depth.value, id)]);
          }
        }
      }
    }

    method UpdateOurUnknown(st: EcgState)
      requires st.Valid() && Held(st.log, State())
      modifies this
      ensures State() == SyncResponder.UpdateOurUnknown(st.log, old(State())) && Held(st.log, State())
    {
      hide Depth, Mark, Roots, Tips, DagOf, InfoOf, NodesOf, Ascending, Has;
      ghost var g := st.log;
      UpdateOurUnknownHeld(g, State());
      var arrived := set x | x in ourUnknown && st.Contains(x);
      assert arrived == Arrived(g, ourUnknown);
      var ids := Ascending(arrived);
      AscendingMembers(arrived);
      ourUnknown := ourUnknown - arrived;
      for k := 0 to |ids|
        invariant forall x :: x in theirKnown ==> Has(g, x)
        invariant MarkAll(g, theirKnown, ids[k..]) == MarkAll(g, old(theirKnown), ids)
        invariant State() == old(State()).(theirKnown := theirKnown, ourUnknown := old(ourUnknown) - arrived)
      {
        assert ids[k..][1..] == ids[k + 1..] && ids[k] in arrived;
        MarkAsKnown(st, ids[k]);
      }
    }

    method PrepareOperations(st: EcgState) returns (operations: seq<HeaderId>)
      requires st.Valid() && Held(st.log, State())
      modifies this
      ensures (State(), operations) == SyncResponder.PrepareOperations(st.log, old(State()), [])
      ensures Held(st.log, State())
    {
      hide Depth, Children, Mark, Below, Roots, Tips, DagOf, InfoOf, NodesOf, PushAll, Held;
      ghost var g := st.log;
      PrepareOperationsHeld(g, State(), []);
      operations := [];
      while sendQueue != []
        invariant Held(g, State())
        invariant SyncResponder.PrepareOperations(g, State(), operations)
               == SyncResponder.PrepareOperations(g, old(State()), [])
        decreases Weight(SendWeight(g), sendQueue)
      {
        PopSendWeight(g, State(), operations);
        PopSendHeld(g, State(), operations);
        ghost var (next, sent) := PopSend(g, State(), operations);
        var entry := sendQueue[0];
        assert entry in sendQueue;
        KnownHeld(g, State());
        sendQueue := sendQueue[1..];
        if entry.id !in theirKnown && entry.id !in ourUnknown {
          operations := operations + [entry.id];
          MarkAsKnown(st, entry.id);
        }
        QueueChildren(st, entry.id);
        assert State() == next && operations == sent;
        if |operations| == MAX_DELIVER_HEADERS {
          return;
        }
      }
    }

    method PrepareOurTips(st: EcgState)
      requires st.Valid() && Held(st.log, State())
      modifies this`havesQueue
      ensures State() == SyncResponder.PrepareOurTips(st.log, old(State())) && Held(st.log, State())
    {
      hide Depth, Roots, Tips, DagOf, InfoOf, NodesOf, PushAll, Held, Ascending;
      PrepareOurTipsHeld(st.log, State());
      var ids := Ascending(st.tips);
      TipsHeld(st.log);
      var pairs := st.AddDepths(ids);
      HaveEntriesOfPairs(st.log, true, pairs, 0);
      havesQueue := PushAll(HaveBefore, havesQueue, ToHaveEntries(true, pairs, 0));
    }

    method QueueParents(st: EcgState, id: HeaderId, distance: nat)
      requires st.Valid() && Has(st.log, id)
      modifies this`havesQueue
      ensures havesQueue
           == PushAll(HaveBefore, old(havesQueue), HaveEntries(st.log, false, Parents(st.log, id), distance))
    {
      hide DepthOf, Depth, Parents, Roots, Tips, DagOf, InfoOf, NodesOf, PushAll;
      var parents := st.GetParentsWithDepth(id);
      HaveEntriesOfPairs(st.log, false, parents.value, distance);
      HaveAnyOrder(st.log, havesQueue, false, Seconds(parents.value), Parents(st.log, id), distance);
      havesQueue := PushAll(HaveBefore, havesQueue, ToHaveEntries(false, parents.value, distance));
    }

    method PrepareSentHaves(st: EcgState)
      requires st.Valid() && Held(st.log, State())
      modifies this
      ensures State() == SyncResponder.PrepareSentHaves(st.log, old(State())) && Held(st.log, State())
    {
      hide Depth, DepthOf, Parents, Above, Roots, Tips, DagOf, InfoOf, NodesOf, PushAll, Has;
      ghost var g := st.log;
      sentHaves := [];
      PrepareMoreHavesHeld(g, State());
      ghost var start := State();
      while havesQueue != []
        invariant Held(g, State()) && |sentHaves| < MAX_HAVE_HEADERS
        invariant PrepareMoreHaves(g, State()) == PrepareMoreHaves(g, start)
        decreases Weight(HaveWeight(g), havesQueue)
      {
        PopHaveWeight(g, State());
        PopHaveHeld(g, State());
        ghost var next := PopHave(g, State());
        var entry := havesQueue[0];
        assert entry in havesQueue;
        havesQueue := havesQueue[1..];
        if entry.id !in theirKnown && entry.id !in ourUnknown {
          if IsPowerOfTwoNumber(entry.distance) || entry.depth == 1 {
            sentHaves := sentHaves + [entry.id];
          }
          QueueParents(st, entry.id, entry.distance + 1);
        }
        assert State() == next;
        if |sentHaves| == MAX_HAVE_HEADERS {
          return;
        }
      }
    }

    /** One response; without operations and haves the peer is told to wait. */
    method Respond(st: EcgState) returns (operations: seq<HeaderId>, wait: bool)
      requires st.Valid() && Held(st.log, State())
      modifies this
      ensures (State(), operations) == Prepare(st.log, old(State())) && Held(st.log, State())
      ensures wait == (operations == [] && sentHaves == [])
    {
      hide Held;
      PrepareOurTips(st);
      operations := PrepareOperations(st);
      PrepareSentHaves(st);
      wait := operations == [] && sentHaves == [];
    }
  }

  lemma KnownHeld(g: Graph, r: Responder)
    requires Held(g, r)
    ensures forall x :: x in r.theirKnown ==> Has(g, x)
    ensures forall e :: e in r.sendQueue ==> Has(g, e.id)
    ensures forall x :: x in r.sentHaves ==> Has(g, x)
    ensures |r.sentHaves| <= MAX_HAVE_HEADERS
  {
  }

  lemma RootIsListed(g: Graph, id: HeaderId)
    ensures id in Roots(g) <==> IsRoot(g, id)
  {
    if id in Roots(g) {
      var i :| 0 <= i < |g| && g[i].parents == [] && g[i].id == id;
      assert Has(g, id) && IndexOf(g, id) == i;
    }
    if IsRoot(g, id) { assert g[IndexOf(g, id)].id == id; }
  }

  lemma RootsHaveDepthOne(g: Graph)
    ensures forall x :: x in Ascending(Roots(g)) ==> DepthOf(g, x) == 1
  {
    AscendingMembers(Roots(g));
    forall x | x in Roots(g)
      ensures DepthOf(g, x) == 1
    {
      RootIsListed(g, x);
      RootDepth(g, x);
    }
  }

  lemma SameMembers<T>(xs: seq<T>, ys: seq<T>)
    requires multiset(xs) == multiset(ys)
    ensures forall x :: x in xs <==> x in ys
  {
    forall x
      ensures x in xs <==> x in ys
    {
      assert x in xs <==> x in multiset(xs);
      assert x in ys <==> x in multiset(ys);
    }
  }
}
