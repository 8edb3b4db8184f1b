/** From the sync protocol to the state: a new replica ends up with the state of the responder. */
module EndToEnd {
  import opened EventGraph
  import opened Ancestry
  import opened StoreLoop
  import opened SyncResponder
  import opened Replication

  ghost predicate Decodable<S, Op>(c: Crdt<S, Op>, hs: seq<Header>) {
    forall h :: h in hs ==> c.decode(h.body, h.id).Some?
  }

  /** A store that runs has accepted only headers whose operations it could read. */
  lemma {:induction false} AcceptedAreDecodable<S, Op>(c: Crdt<S, Op>, st: Store<S>, hs: seq<Header>)
    requires st.Running? && Decodable(c, st.graph)
    ensures var r := ReceiveAll(c, st, hs); r.Running? ==> Decodable(c, r.graph)
    decreases |hs|
  {
    if hs != [] {
      var st' := Receive(c, st, hs[0]);
      if st'.Running? {
        AcceptedAreDecodable(c, st', hs[1..]);
      } else {
        PanicStays(c, hs[1..]);
      }
    }
  }

  lemma {:induction false} ReceiveInserts<S, Op>(c: Crdt<S, Op>, st: Store<S>, hs: seq<Header>)
    requires st.Running? && Decodable(c, hs)
    ensures var r := ReceiveAll(c, st, hs); r.Running? && r.graph == InsertAll(st.graph, hs)
    decreases |hs|
  {
    if hs != [] {
      assert hs[0] in hs;
      forall h | h in hs[1..]
        ensures h in hs
      {
      }
      ReceiveInserts(c, Receive(c, st, hs[0]), hs[1..]);
    }
  }

  /**
    A store that has run from the initial state answers a new replica. If every parent comes before its child in level
    order, then after enough rounds the replica, which applies what it is sent as it comes in, holds the same headers
    and the same state.
   */
  lemma ReplicaHoldsTheState<S(!new), Op(!new)>(c: Crdt<S, Op>, s0: S, hs: seq<Header>, k: nat)
    requires var a := ReceiveAll(c, Running([], s0), hs);
      && a.Running? && Ascends(a.graph) && MAX_DELIVER_HEADERS * k >= |a.graph|
      && RefersBack(c, a.graph) && ConcurrentOperationsCommute(c, a.graph)
    requires Local(c) && c.good(s0) && forall t :: t in c.times(s0) ==> t.headerId.None?
    ensures var a := ReceiveAll(c, Running([], s0), hs);
      var b := ReceiveAll(c, Running([], s0), HeadersOf(a.graph, Rounds(a.graph, k).sent));
      b.Running? && EqualDags(b.graph, a.graph) && b.latest == a.latest
  {
    hide Ascends, RefersBack, ConcurrentOperationsCommute, Local, Rounds, HeadersOf, InsertAll, EqualDags, Within;
    var start: Store<S> := Running([], s0);
    var a := ReceiveAll(c, start, hs);
    var sent := HeadersOf(a.graph, Rounds(a.graph, k).sent);
    AcceptedAreDecodable(c, start, hs);
    forall h | h in sent
      ensures c.decode(h.body, h.id).Some?
    {
      HeadersOfMembers(a.graph, Rounds(a.graph, k).sent, h);
    }
    ReceiveInserts(c, start, sent);
    SentInLevelOrder(a.graph, k);
    ReplicatesIff(a.graph, k);
    SameBothWays(Rounds(a.graph, k).receiver, a.graph);
    StrongEventualConsistency(c, s0, hs, sent);
  }

  lemma SameBothWays(g: Graph, g': Graph)
    requires SameHeaders(g, g')
    ensures SameHeaders(g', g)
  {
  }
}
