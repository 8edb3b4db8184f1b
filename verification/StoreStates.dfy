/**
  What the store makes of a CRDT that fails on histories no peers can produce, as the map does: it needs the order of
  the store, not only the law of commutativity.
 */
module StoreStates {
  import opened Common
  import opened EventGraph
  import opened Ancestry
  import opened Time
  import opened CausalOrder
  import opened Convergence
  import opened StoreLoop
  import TwoPhaseMap

  /** An earlier operation of the same header, or an operation of a proper ancestor. */
  ghost function Earlier<Op>(g: Graph): (Applied<Op>, Applied<Op>) -> bool {
    (a: Applied<Op>, b: Applied<Op>) =>
      if a.header == b.header then a.position < b.position else Reaches(g, a.header, b.header)
  }

  /** Replicas with the same headers have applied the same operations, each in an order that respects causality. */
  lemma TracesAgree<S(!new), Op(!new)>(c: Crdt<S, Op>, s0: S, g: Graph, g': Graph)
    requires Local(c) && RefersBack(c, g) && SameHeaders(g, g') && forall t :: t in c.times(s0) ==> t.headerId.None?
    ensures Distinct(Trace(c, g)) && Distinct(Trace(c, g')) && Elems(Trace(c, g)) == Elems(Trace(c, g'))
    ensures Respects(Earlier(g), Trace(c, g)) && Respects(Earlier(g), Trace(c, g'))
    ensures Replay(c, s0, g) == Fold(AppliedStep(c, g), s0, Trace(c, g))
    ensures Replay(c, s0, g') == Fold(AppliedStep(c, g), s0, Trace(c, g'))
  {
    hide Local, Reaches, Trace, Replay;
    OrderIndependence(g, g');
    ExactlyOnceInCausalOrder(c, s0, g);
    TraceRespects(c, s0, g, g);
    ReplicaRefersBack(c, g, g');
    ExactlyOnceInCausalOrder(c, s0, g');
    TraceRespects(c, s0, g, g');
    ReplayUnderFinalGraph(c, s0, g', g);
    FoldOfTrace(c, s0, g', g);
    forall a
      ensures a in Trace(c, g) <==> a in Trace(c, g')
    {
    }
  }

  lemma TraceRespects<S(!new), Op(!new)>(c: Crdt<S, Op>, s0: S, g: Graph, g': Graph)
    requires Local(c) && RefersBack(c, g') && forall t :: t in c.times(s0) ==> t.headerId.None?
    requires forall a, d :: Reaches(g, a, d) <==> Reaches(g', a, d)
    ensures Respects(Earlier(g), Trace(c, g'))
  {
    hide Local, RefersBack, Reaches, Trace, Replay;
    ExactlyOnceInCausalOrder(c, s0, g');
    var trace := Trace(c, g');
    forall i, j | 0 <= i < j < |trace|
      ensures !Earlier(g)(trace[j], trace[i])
    {
      var a := trace[i];
      assert a in trace;
      var h :| h in g' && a in OfHeader(c, h);
      HeaderReachesItself(g', h);
      assert Reaches(g', a.header, a.header);
    }
  }

  lemma HeaderReachesItself(g: Graph, h: Header)
    requires h in g
    ensures Reaches(g, h.id, h.id)
  {
    assert Has(g, h.id);
    ReachSelf(g, h.id);
  }

  lemma ReplicaRefersBack<S(!new), Op(!new)>(c: Crdt<S, Op>, g: Graph, g': Graph)
    requires RefersBack(c, g) && SameHeaders(g, g') && forall a, d :: Reaches(g, a, d) <==> Reaches(g', a, d)
    ensures RefersBack(c, g')
  {
  }

  /**
    Strong eventual consistency for a CRDT whose operations need only commute where the history is valid: `inv` says
    which states may occur while a set of operations is still to come.
   */
  lemma ValidHistoriesConverge<S(!new), Op(!new)>(c: Crdt<S, Op>, s0: S, hs: seq<Header>, hs': seq<Header>,
                                                  inv: (S, set<Applied<Op>>) -> bool)
    requires var a := ReceiveAll(c, Running([], s0), hs);
      var b := ReceiveAll(c, Running([], s0), hs');
      && a.Running? && b.Running? && SameHeaders(a.graph, b.graph) && RefersBack(c, a.graph)
      && inv(s0, Elems(Trace(c, a.graph)))
      && Preserved(AppliedStep(c, a.graph), inv, Earlier(a.graph))
      && Commutes(AppliedStep(c, a.graph), inv, Earlier(a.graph))
    requires Local(c) && forall t :: t in c.times(s0) ==> t.headerId.None?
    ensures var a, b := ReceiveAll(c, Running([], s0), hs).latest, ReceiveAll(c, Running([], s0), hs').latest;
      a == b && inv(a, {})
  {
    hide Local, RefersBack, Replay, Trace;
    var a, b := ReceiveAll(c, Running([], s0), hs), ReceiveAll(c, Running([], s0), hs');
    NothingReplayed(c, s0);
    ReceiveAllIsReplay(c, s0, Running([], s0), hs);
    ReceiveAllIsReplay(c, s0, Running([], s0), hs');
    TracesAgree(c, s0, a.graph, b.graph);
    Converges(AppliedStep(c, a.graph), inv, Earlier(a.graph), s0, Trace(c, a.graph), Trace(c, b.graph));
  }

  lemma NothingReplayed<S, Op>(c: Crdt<S, Op>, s0: S)
    ensures Replay(c, s0, []) == s0
  {
  }

  // ---------- The map in the store

  /** The CRDT of the values of a map. */
  datatype Values<!V, !O> = Values(
    apply: (Relation<OperationId>, V, O) -> V,
    times: V -> set<OperationId>,
    opTimes: O -> set<OperationId>)

  ghost predicate LocalValues<V(!new), O(!new)>(vc: Values<V, O>) {
    && (forall hb, hb', v, o ::
          Agree(hb, hb', vc.times(v) + vc.opTimes(o)) ==> vc.apply(hb, v, o) == vc.apply(hb', v, o))
    && (forall hb, v, o :: vc.times(vc.apply(hb, v, o)) <= vc.times(v) + vc.opTimes(o))
  }

  function Under<V, O>(vc: Values<V, O>, hb: Relation<OperationId>): (V, O) -> V {
    (v, o) => vc.apply(hb, v, o)
  }

  function MapTimes<K, V, O>(vc: Values<V, O>, m: Option<TwoPhaseMap.TwoPMap<K, V>>): set<OperationId> {
    match m
    case None => {}
    case Some(m') => set k, t | k in m'.entries && t in vc.times(m'.entries[k]) :: t
  }

  function MapOpTimes<K, V, O>(vc: Values<V, O>, op: TwoPhaseMap.Op<K, V, O>): set<OperationId> {
    match op
    case Insert(_, v) => vc.times(v)
    case Apply(_, o) => vc.opTimes(o)
    case Delete(_) => {}
  }

  /** The map is left undefined by an operation it fails on. */
  function MapCrdt<K, V, O>(decode: (seq<Byte>, HeaderId) -> Option<seq<TwoPhaseMap.Op<K, V, O>>>, vc: Values<V, O>)
    : Crdt<Option<TwoPhaseMap.TwoPMap<K, V>>, TwoPhaseMap.Op<K, V, O>>
  {
    Crdt(decode, (hb, m, op) => TwoPhaseMap.Then(Under(vc, hb), m, op), m => MapTimes(vc, m),
         op => MapOpTimes(vc, op), m => true)
  }

  lemma MapStepAgrees<K(!new), V(!new), O(!new)>(vc: Values<V, O>, hb: Relation<OperationId>,
      hb': Relation<OperationId>, m: Option<TwoPhaseMap.TwoPMap<K, V>>, op: TwoPhaseMap.Op<K, V, O>)
    requires LocalValues(vc) && Agree(hb, hb', MapTimes(vc, m) + MapOpTimes(vc, op))
    ensures TwoPhaseMap.Then(Under(vc, hb), m, op) == TwoPhaseMap.Then(Under(vc, hb'), m, op)
    ensures MapTimes(vc, TwoPhaseMap.Then(Under(vc, hb), m, op)) <= MapTimes(vc, m) + MapOpTimes(vc, op)
  {
    if m.Some? && op.Apply? && op.key in m.value.entries {
      var v := m.value.entries[op.key];
      assert forall t :: t in vc.times(v) ==> t in MapTimes(vc, m);
      assert Agree(hb, hb', vc.times(v) + vc.opTimes(op.operation));
    }
  }

  lemma MapIsLocal<K(!new), V(!new), O(!new)>(c: Crdt<Option<TwoPhaseMap.TwoPMap<K, V>>, TwoPhaseMap.Op<K, V, O>>,
                                              vc: Values<V, O>)
    requires c == MapCrdt(c.decode, vc) && LocalValues(vc)
    ensures Local(c)
  {
    hide TwoPhaseMap.Then, MapTimes, MapOpTimes;
    forall hb, hb', m, op | Agree(hb, hb', c.times(m) + c.opTimes(op))
      ensures c.apply(hb, m, op) == c.apply(hb', m, op)
    {
      MapStepAgrees(vc, hb, hb', m, op);
    }
    forall hb, m, op
      ensures c.times(c.apply(hb, m, op)) <= c.times(m) + c.opTimes(op)
    {
      MapStepAgrees(vc, hb, hb, m, op);
    }
  }

  ghost function EventOf<K, V, O>(a: Applied<TwoPhaseMap.Op<K, V, O>>): TwoPhaseMap.Event<K, V, O> {
    TwoPhaseMap.Event((a.header, a.position), a.op)
  }

  ghost function EventBefore<K, V, O>(g: Graph): (TwoPhaseMap.Event<K, V, O>, TwoPhaseMap.Event<K, V, O>) -> bool {
    (e: TwoPhaseMap.Event<K, V, O>, f: TwoPhaseMap.Event<K, V, O>) =>
      if e.id.0 == f.id.0 then e.id.1 < f.id.1 else Reaches(g, e.id.0, f.id.0)
  }

  ghost function Events<K, V, O>(trace: seq<Applied<TwoPhaseMap.Op<K, V, O>>>): seq<TwoPhaseMap.Event<K, V, O>> {
    seq(|trace|, i requires 0 <= i < |trace| => EventOf(trace[i]))
  }

  lemma {:induction false} FoldOfEvents<K(!new), V(!new), O(!new)>(
      c: Crdt<Option<TwoPhaseMap.TwoPMap<K, V>>, TwoPhaseMap.Op<K, V, O>>, g: Graph, vc: Values<V, O>,
      m: Option<TwoPhaseMap.TwoPMap<K, V>>, trace: seq<Applied<TwoPhaseMap.Op<K, V, O>>>)
    requires c == MapCrdt(c.decode, vc)
    ensures Fold(AppliedStep(c, g), m, trace) == Fold(TwoPhaseMap.Step(Under(vc, Before(g))), m, Events(trace))
    decreases |trace|
  {
    if trace != [] {
      assert Events(trace)[1..] == Events(trace[1..]);
      FoldOfEvents(c, g, vc, AppliedStep(c, g)(m, trace[0]), trace[1..]);
    }
  }

  lemma EventsKeepOrder<K(!new), V(!new), O(!new)>(g: Graph, trace: seq<Applied<TwoPhaseMap.Op<K, V, O>>>,
                                                   trace': seq<Applied<TwoPhaseMap.Op<K, V, O>>>)
    requires Distinct(trace) && Elems(trace) == Elems(trace') && Respects(Earlier(g), trace)
    ensures Distinct(Events(trace)) && Elems(Events(trace)) == Elems(Events(trace'))
    ensures Respects(EventBefore(g), Events(trace))
  {
    hide Reaches;
    forall e
      ensures e in Events(trace) <==> Applied(e.id.0, e.id.1, e.op) in Elems(trace)
      ensures e in Events(trace') <==> Applied(e.id.0, e.id.1, e.op) in Elems(trace')
    {
      EventsMembers(trace, e);
      EventsMembers(trace', e);
    }
  }

  lemma EventsMembers<K(!new), V(!new), O(!new)>(trace: seq<Applied<TwoPhaseMap.Op<K, V, O>>>,
                                                 e: TwoPhaseMap.Event<K, V, O>)
    ensures e in Events(trace) <==> Applied(e.id.0, e.id.1, e.op) in Elems(trace)
  {
    if e in Events(trace) {
      var i :| 0 <= i < |trace| && Events(trace)[i] == e;
      assert trace[i] == Applied(e.id.0, e.id.1, e.op);
    }
    if Applied(e.id.0, e.id.1, e.op) in trace {
      var i :| 0 <= i < |trace| && trace[i] == Applied(e.id.0, e.id.1, e.op);
      assert Events(trace)[i] == e;
    }
  }

  /**
    Two stores of a map that accepted the same headers hold the same map, and no operation failed, if keys are
    inserted once and updated after that, and the values converge under their own updates in the causal order of the
    store.
   */
  lemma MapStoresConverge<K(!new), V(!new), O(!new)>(
      c: Crdt<Option<TwoPhaseMap.TwoPMap<K, V>>, TwoPhaseMap.Op<K, V, O>>, vc: Values<V, O>,
      vinv: (V, set<TwoPhaseMap.Event<K, V, O>>) -> bool, m0: TwoPhaseMap.TwoPMap<K, V>, g: Graph, g': Graph)
    requires c == MapCrdt(c.decode, vc) && LocalValues(vc) && SameHeaders(g, g') && RefersBack(c, g)
    requires forall t :: t in MapTimes(vc, Some(m0)) ==> t.headerId.None?
    requires TwoPhaseMap.ValidHistory(EventBefore(g), m0, Elems(Events(Trace(c, g))))
    requires TwoPhaseMap.ValidValues(vinv, m0, Elems(Events(Trace(c, g))))
    requires TwoPhaseMap.Lawful(Under(vc, Before(g)), vinv, EventBefore<K, V, O>(g))
    ensures Replay(c, Some(m0), g) == Replay(c, Some(m0), g') && Replay(c, Some(m0), g).Some?
  {
    hide Trace, Replay, Events, EventBefore, Reaches, Earlier, TwoPhaseMap.Then, MapTimes, RefersBack, LocalValues;
    MapIsLocal(c, vc);
    TracesAgree(c, Some(m0), g, g');
    FoldOfEvents(c, g, vc, Some(m0), Trace(c, g));
    FoldOfEvents(c, g, vc, Some(m0), Trace(c, g'));
    EventsKeepOrder(g, Trace(c, g), Trace(c, g'));
    EventsKeepOrder(g, Trace(c, g'), Trace(c, g));
    TwoPhaseMap.TwoPhaseMapConvergence(Under(vc, Before(g)), vinv, EventBefore(g), m0, Events(Trace(c, g)),
                                       Events(Trace(c, g')));
  }
}
