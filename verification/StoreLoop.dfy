/**
  The loop that accepts headers and applies their operations, for any CRDT, and its strong eventual consistency.
 */
module StoreLoop {
  import opened Common
  import opened EventGraph
  import opened Ancestry
  import opened EcgState
  import opened Time
  import opened CausalOrder
  import opened Convergence

  /**
    A CRDT as the store sees it. `decode` reads the operations of a header from its raw body and gives them their
    times; it fails on malformed bytes. `apply` may ask the causal state about times. `times` and `opTimes` are the
    times that occur in a state and in an operation; `good` are the states the CRDT can be in.
   */
  datatype Crdt<!S, !Op> = Crdt(
    decode: (seq<Byte>, HeaderId) -> Option<seq<Op>>,
    apply: (Relation<OperationId>, S, Op) -> S,
    times: S -> set<OperationId>,
    opTimes: Op -> set<OperationId>,
    good: S -> bool)

  datatype Store<S> = Running(graph: Graph, latest: S) | Panicked

  function ApplyOperations<S, Op>(c: Crdt<S, Op>, hb: Relation<OperationId>, s: S, ops: seq<Op>): S
    decreases |ops|
  {
    if ops == [] then s else ApplyOperations(c, hb, c.apply(hb, s, ops[0]), ops[1..])
  }

  /** One delivered header: parsed first, then offered to the graph, and applied only if it was accepted. */
  function Receive<S, Op>(c: Crdt<S, Op>, st: Store<S>, h: Header): Store<S> {
    match st
    case Panicked => Panicked
    case Running(g, s) =>
      match c.decode(h.body, h.id)
      case None => Panicked
      case Some(ops) =>
        if Accepts(g, h) then
          var g' := Insert(g, h);
          Running(g', ApplyOperations(c, Before(g'), s, ops))
        else st
  }

  function ReceiveAll<S, Op>(c: Crdt<S, Op>, st: Store<S>, hs: seq<Header>): Store<S>
    decreases |hs|
  {
    if hs == [] then st else ReceiveAll(c, Receive(c, st, hs[0]), hs[1..])
  }

  /** The loop of `handle_received_ecg_operations` over the graph and the state of a syncing store. */
  class SyncingStore<!S, !Op> {
    const crdt: Crdt<S, Op>
    const ecgState: EcgState
    var latestState: S

    constructor (crdt: Crdt<S, Op>, ecgState: EcgState, latestState: S)
      ensures this.crdt == crdt && this.ecgState == ecgState && this.latestState == latestState
    {
      this.crdt, this.ecgState, this.latestState := crdt, ecgState, latestState;
    }

    ghost function State(): Store<S>
      reads this, ecgState
    {
      Running(ecgState.log, latestState)
    }

    method HandleReceivedOperations(hs: seq<Header>) returns (ok: bool)
      requires ecgState.Valid() && |ecgState.log| + |hs| < U64_MAX
      modifies this, ecgState
      ensures ecgState.Valid()
      ensures (if ok then State() else Panicked) == ReceiveAll(crdt, old(State()), hs)
    {
      ghost var expected := ReceiveAll(crdt, State(), hs);
      var k := 0;
      while k < |hs|
        invariant 0 <= k <= |hs|
        invariant ecgState.Valid() && |ecgState.log| + |hs| - k < U64_MAX
        invariant ReceiveAll(crdt, State(), hs[k..]) == expected
      {
        hide HappensBefore;
        var header := hs[k];
        assert hs[k..][1..] == hs[k + 1..];
        ghost var before := State();
        var operations := crdt.decode(header.body, header.id);
        if operations.None? {
          PanicStays(crdt, hs[k + 1..]);
          return false;
        }
        var success := ecgState.InsertHeader(header);
        if success {
          latestState := ApplyOne(operations.value);
        }
        assert State() == Receive(crdt, before, header);
        k := k + 1;
      }
      ok := true;
    }

    /** The causal state is the graph as it stands, with the new header in it. */
    method ApplyOne(operations: seq<Op>) returns (s: S)
      requires ecgState.Valid()
      ensures s == ApplyOperations(crdt, Before(ecgState.log), latestState, operations)
    {
      var hb := Before(ecgState.Snapshot());
      s := latestState;
      var k := 0;
      while k < |operations|
        invariant 0 <= k <= |operations|
        invariant ApplyOperations(crdt, hb, s, operations[k..])
               == ApplyOperations(crdt, hb, latestState, operations)
      {
        assert operations[k..][1..] == operations[k + 1..];
        s := crdt.apply(hb, s, operations[k]);
        k := k + 1;
      }
    }
  }

  lemma {:induction false} PanicStays<S, Op>(c: Crdt<S, Op>, hs: seq<Header>)
    ensures ReceiveAll(c, Panicked, hs) == Panicked
    decreases |hs|
  {
    if hs != [] { PanicStays(c, hs[1..]); }
  }

  // ---------- What is asked of the CRDT

  ghost predicate Agree(hb: Relation<OperationId>, hb': Relation<OperationId>, ts: set<OperationId>) {
    forall a, b :: a in ts && b in ts ==> hb(a, b) == hb'(a, b)
  }

  /** `apply` can only compare times it was given, and invents none. */
  ghost predicate Local<S(!new), Op(!new)>(c: Crdt<S, Op>) {
    && (forall hb, hb', s, op ::
          Agree(hb, hb', c.times(s) + c.opTimes(op)) ==> c.apply(hb, s, op) == c.apply(hb', s, op))
    && (forall hb, s, op :: c.times(c.apply(hb, s, op)) <= c.times(s) + c.opTimes(op))
    && (forall hb, s, op :: c.good(s) ==> c.good(c.apply(hb, s, op)))
  }

  function Operations<S, Op>(c: Crdt<S, Op>, h: Header): seq<Op> {
    match c.decode(h.body, h.id)
    case None => []
    case Some(ops) => ops
  }

  /** Operations refer to their own header and to its ancestors only. */
  ghost predicate RefersBack<S(!new), Op(!new)>(c: Crdt<S, Op>, g: Graph) {
    forall h, op, t :: h in g && op in Operations(c, h) && t in c.opTimes(op) ==>
      t.headerId.None? || Reaches(g, t.headerId.value, h.id)
  }

  /** No operation of either header happened before one of the other. */
  ghost predicate ConcurrentHeaders(g: Graph, h: Header, h': Header) {
    forall i: Byte, j: Byte :: Concurrent(Before(g), OperationId(Some(h.id), i), OperationId(Some(h'.id), j))
  }

  /** The law of commutativity, asked only of operations that are concurrent in this graph. */
  ghost predicate ConcurrentOperationsCommute<S(!new), Op(!new)>(c: Crdt<S, Op>, g: Graph) {
    forall h, h', op, op', s ::
      h in g && h' in g && h != h' && ConcurrentHeaders(g, h, h')
      && op in Operations(c, h) && op' in Operations(c, h') && c.good(s) ==>
        c.apply(Before(g), c.apply(Before(g), s, op), op') == c.apply(Before(g), c.apply(Before(g), s, op'), op)
  }

  // ---------- The state is a function of the accepted headers in their order

  function Replay<S, Op>(c: Crdt<S, Op>, s0: S, g: Graph): S
    decreases |g|
  {
    if |g| == 0 then s0
    else
      var n := |g| - 1;
      ApplyOperations(c, Before(g), Replay(c, s0, Prefix(g, n)), Operations(c, g[n]))
  }

  lemma {:induction false} ReceiveAllIsReplay<S, Op>(c: Crdt<S, Op>, s0: S, st: Store<S>, hs: seq<Header>)
    requires st.Running? && st.latest == Replay(c, s0, st.graph)
    requires forall h :: h in st.graph ==> c.decode(h.body, h.id).Some?
    ensures var r := ReceiveAll(c, st, hs);
      r.Running? ==> r.latest == Replay(c, s0, r.graph) && forall h :: h in r.graph ==> c.decode(h.body, h.id).Some?
    decreases |hs|
  {
    if hs != [] {
      var h := hs[0];
      var st' := Receive(c, st, h);
      if st'.Running? {
        if Accepts(st.graph, h) {
          var n := |st.graph|;
          assert st'.graph == st.graph + [h];
          assert Prefix(st'.graph, n) == st.graph;
        }
        ReceiveAllIsReplay(c, s0, st', hs[1..]);
      } else {
        PanicStays(c, hs[1..]);
      }
    }
  }

  /** The loop fails only on a header that does not parse, and otherwise accepts what the graph accepts, in turn. */
  lemma {:induction false} ReceivesInTurn<S, Op>(c: Crdt<S, Op>, st: Store<S>, hs: seq<Header>)
    requires st.Running?
    ensures var r := ReceiveAll(c, st, hs);
      && (r.Running? <==> forall h :: h in hs ==> c.decode(h.body, h.id).Some?)
      && (r.Running? ==> r.graph == InsertAll(st.graph, hs))
    decreases |hs|
  {
    if hs != [] {
      var st' := Receive(c, st, hs[0]);
      assert forall h :: h in hs <==> h == hs[0] || h in hs[1..];
      if st'.Running? {
        ReceivesInTurn(c, st', hs[1..]);
      } else {
        PanicStays(c, hs[1..]);
      }
    }
  }

  ghost predicate KnownTimes(g: Graph, ts: set<OperationId>) {
    forall t :: t in ts ==> Known(g, t)
  }

  lemma {:induction false} ApplyOperationsAgree<S(!new), Op(!new)>(c: Crdt<S, Op>, hb: Relation<OperationId>,
      hb': Relation<OperationId>, s: S, ops: seq<Op>, ts: set<OperationId>)
    requires Local(c) && Agree(hb, hb', ts)
    requires c.times(s) <= ts && forall op :: op in ops ==> c.opTimes(op) <= ts
    ensures ApplyOperations(c, hb, s, ops) == ApplyOperations(c, hb', s, ops)
    ensures c.times(ApplyOperations(c, hb, s, ops)) <= ts
    ensures c.good(s) ==> c.good(ApplyOperations(c, hb, s, ops))
    decreases |ops|
  {
    if ops != [] {
      assert Agree(hb, hb', c.times(s) + c.opTimes(ops[0]));
      ApplyOperationsAgree(c, hb, hb', c.apply(hb, s, ops[0]), ops[1..], ts);
    }
  }

  /** The operations of one header, under the causal state of the whole graph. */
  ghost function HeaderStep<S, Op>(c: Crdt<S, Op>, g: Graph): (S, Header) -> S {
    (s, h) => ApplyOperations(c, Before(g), s, Operations(c, h))
  }

  /** The times that occur in a list of operations. */
  ghost function OperationTimes<S, Op>(c: Crdt<S, Op>, ops: seq<Op>): set<OperationId> {
    set op, t | op in ops && t in c.opTimes(op) :: t
  }

  /** When the last header of `g` is applied, every time in sight is known, so growth cannot reorder any two of them. */
  lemma TimesKnown<S(!new), Op(!new)>(c: Crdt<S, Op>, init: Graph, g: Graph, final: Graph, s: S)
    requires RefersBack(c, final) && Within(g, final)
    requires |g| > 0 && init == Prefix(g, |g| - 1) && KnownTimes(init, c.times(s))
    ensures var ts := c.times(s) + OperationTimes(c, Operations(c, g[|g| - 1]));
      KnownTimes(g, ts) && Agree(Before(g), Before(final), ts)
  {
    var h := g[|g| - 1];
    var ts := c.times(s) + OperationTimes(c, Operations(c, h));
    assert h in g && h in final && Has(g, h.id);
    forall t | t in ts
      ensures Known(g, t)
    {
      if t in c.times(s) {
        assert Known(init, t);
        KnownGrows(init, g, t);
      } else if t.headerId.Some? {
        WithinReaches(g, final, t.headerId.value, h.id);
      }
    }
    forall a, b | a in ts && b in ts
      ensures Before(g)(a, b) == Before(final)(a, b)
    {
      HappensBeforeIsStable(g, final, a, b);
    }
  }

  /** It makes no difference that each header was applied under the graph as it was at that moment. */
  lemma {:induction false} ReplayUnderFinalGraph<S(!new), Op(!new)>(c: Crdt<S, Op>, s0: S, g: Graph, final: Graph)
    requires Local(c) && RefersBack(c, final) && Within(g, final)
    requires forall t :: t in c.times(s0) ==> t.headerId.None?
    ensures Replay(c, s0, g) == Fold(HeaderStep(c, final), s0, g)
    ensures KnownTimes(g, c.times(Replay(c, s0, g)))
    decreases |g|
  {
    if |g| > 0 {
      var n := |g| - 1;
      var init, h := Prefix(g, n), g[n];
      assert forall x :: x in init ==> x in g;
      ReplayUnderFinalGraph(c, s0, init, final);
      var s, ops := Replay(c, s0, init), Operations(c, h);
      var ts := c.times(s) + OperationTimes(c, ops);
      TimesKnown(c, init, g, final, s);
      ApplyOperationsAgree(c, Before(g), Before(final), s, ops, ts);
      assert g == init + [h];
      FoldSnoc(HeaderStep(c, final), s0, init, h);
    }
  }

  lemma KnownGrows(g: Graph, g': Graph, t: OperationId)
    requires Within(g, g') && Known(g, t)
    ensures Known(g', t)
  {
    if t.headerId.Some? { WithinParents(g, g', t.headerId.value); }
  }

  // ---------- Strong eventual consistency

  lemma {:induction false} CommuteOne<S(!new), Op(!new)>(c: Crdt<S, Op>, g: Graph, s: S, op: Op, ops: seq<Op>)
    requires Local(c) && c.good(s)
    requires forall op', s :: op' in ops && c.good(s) ==>
      c.apply(Before(g), c.apply(Before(g), s, op), op') == c.apply(Before(g), c.apply(Before(g), s, op'), op)
    ensures ApplyOperations(c, Before(g), c.apply(Before(g), s, op), ops)
         == c.apply(Before(g), ApplyOperations(c, Before(g), s, ops), op)
    decreases |ops|
  {
    if ops != [] {
      CommuteOne(c, g, c.apply(Before(g), s, ops[0]), op, ops[1..]);
    }
  }

  lemma {:induction false} CommuteAll<S(!new), Op(!new)>(c: Crdt<S, Op>, g: Graph, s: S, ops: seq<Op>, ops': seq<Op>)
    requires Local(c) && c.good(s)
    requires forall op, op', s :: op in ops && op' in ops' && c.good(s) ==>
      c.apply(Before(g), c.apply(Before(g), s, op), op') == c.apply(Before(g), c.apply(Before(g), s, op'), op)
    ensures ApplyOperations(c, Before(g), ApplyOperations(c, Before(g), s, ops), ops')
         == ApplyOperations(c, Before(g), ApplyOperations(c, Before(g), s, ops'), ops)
    decreases |ops|
  {
    if ops != [] {
      var s1 := c.apply(Before(g), s, ops[0]);
      CommuteAll(c, g, s1, ops[1..], ops');
      CommuteOne(c, g, s, ops[0], ops');
    }
  }

  /** `h` is a proper ancestor of `h'`. */
  ghost function ProperAncestor(g: Graph): (Header, Header) -> bool {
    (h: Header, h': Header) => h.id != h'.id && Reaches(g, h.id, h'.id)
  }

  ghost function GoodAndMember<S, Op>(c: Crdt<S, Op>, g: Graph): (S, set<Header>) -> bool {
    (s, hs) => c.good(s) && hs <= Elems(g)
  }

  lemma UnrelatedAreConcurrent(g: Graph, h: Header, h': Header)
    requires h.id != h'.id && !ProperAncestor(g)(h, h') && !ProperAncestor(g)(h', h)
    ensures ConcurrentHeaders(g, h, h')
  {
    forall i: Byte, j: Byte
      ensures Concurrent(Before(g), OperationId(Some(h.id), i), OperationId(Some(h'.id), j))
    {
      HappensBeforeIsAncestry(g, OperationId(Some(h.id), i), OperationId(Some(h'.id), j));
      HappensBeforeIsAncestry(g, OperationId(Some(h'.id), j), OperationId(Some(h.id), i));
    }
  }

  lemma HeadersCommute<S(!new), Op(!new)>(c: Crdt<S, Op>, g: Graph)
    requires Local(c) && ConcurrentOperationsCommute(c, g)
    ensures Preserved(HeaderStep(c, g), GoodAndMember(c, g), ProperAncestor(g))
    ensures Commutes(HeaderStep(c, g), GoodAndMember(c, g), ProperAncestor(g))
  {
    var step, inv, before := HeaderStep(c, g), GoodAndMember(c, g), ProperAncestor(g);
    forall s, hs, h | inv(s, hs) && Enabled(before, hs, h)
      ensures inv(step(s, h), hs - {h})
    {
      ApplyOperationsAgree(c, Before(g), Before(g), s, Operations(c, h),
                           c.times(s) + OperationTimes(c, Operations(c, h)));
    }
    forall s, hs, h, h' | inv(s, hs) && Enabled(before, hs, h) && Enabled(before, hs, h') && h != h'
      ensures step(step(s, h), h') == step(step(s, h'), h)
    {
      var i :| 0 <= i < |g| && g[i] == h;
      var j :| 0 <= j < |g| && g[j] == h';
      assert h.id != h'.id;
      UnrelatedAreConcurrent(g, h, h');
      CommuteAll(c, g, s, Operations(c, h), Operations(c, h'));
    }
  }

  lemma GraphRespectsAncestry(g: Graph, final: Graph)
    requires SameHeaders(g, final)
    ensures Distinct(g) && Elems(g) == Elems(final)
    ensures Respects(ProperAncestor(final), g)
  {
    forall i, j | 0 <= i < j < |g|
      ensures !ProperAncestor(final)(g[j], g[i])
    {
      if Reaches(final, g[j].id, g[i].id) {
        assert Has(g, g[i].id) && Has(g, g[j].id);
        WithinReaches(g, final, g[j].id, g[i].id);
        ReachEarlier(g, g[j].id, g[i].id);
      }
    }
  }

  /** Graphs with the same headers replay to the same state. */
  lemma ReplaysConverge<S(!new), Op(!new)>(c: Crdt<S, Op>, s0: S, g: Graph, g': Graph)
    requires SameHeaders(g, g') && RefersBack(c, g) && ConcurrentOperationsCommute(c, g)
    requires Local(c) && c.good(s0) && forall t :: t in c.times(s0) ==> t.headerId.None?
    ensures Replay(c, s0, g) == Replay(c, s0, g')
  {
    ReplayUnderFinalGraph(c, s0, g, g);
    ReplayUnderFinalGraph(c, s0, g', g);
    GraphRespectsAncestry(g, g);
    GraphRespectsAncestry(g', g);
    HeadersCommute(c, g);
    Converges(HeaderStep(c, g), GoodAndMember(c, g), ProperAncestor(g), s0, g, g');
  }

  /**
    Replicas with the same initial state that have accepted the same headers hold the same state, whatever was
    delivered to each of them, in whatever order, and however often.
   */
  lemma StrongEventualConsistency<S(!new), Op(!new)>(c: Crdt<S, Op>, s0: S, hs: seq<Header>, hs': seq<Header>)
    requires var a := ReceiveAll(c, Running([], s0), hs);
      var b := ReceiveAll(c, Running([], s0), hs');
      && a.Running? && b.Running? && SameHeaders(a.graph, b.graph)
      && RefersBack(c, a.graph) && ConcurrentOperationsCommute(c, a.graph)
    requires Local(c) && c.good(s0) && forall t :: t in c.times(s0) ==> t.headerId.None?
    ensures ReceiveAll(c, Running([], s0), hs).latest == ReceiveAll(c, Running([], s0), hs').latest
  {
    var a, b := ReceiveAll(c, Running([], s0), hs), ReceiveAll(c, Running([], s0), hs');
    ReceiveAllIsReplay(c, s0, Running([], s0), hs);
    ReceiveAllIsReplay(c, s0, Running([], s0), hs');
    ReplaysConverge(c, s0, a.graph, b.graph);
  }

  // ---------- Exactly once, and causes first

  /** An operation with the header it came in and its place in that header. */
  datatype Applied<Op> = Applied(header: HeaderId, position: nat, op: Op)

  function OfHeader<S, Op>(c: Crdt<S, Op>, h: Header): seq<Applied<Op>> {
    var ops := Operations(c, h);
    seq(|ops|, i requires 0 <= i < |ops| => Applied(h.id, i, ops[i]))
  }

  /** The operations a replica has applied, in order. */
  function Trace<S, Op>(c: Crdt<S, Op>, g: Graph): seq<Applied<Op>>
    decreases |g|
  {
    if |g| == 0 then [] else Trace(c, Prefix(g, |g| - 1)) + OfHeader(c, g[|g| - 1])
  }

  ghost function AppliedStep<S, Op>(c: Crdt<S, Op>, g: Graph): (S, Applied<Op>) -> S {
    (s: S, a: Applied<Op>) => c.apply(Before(g), s, a.op)
  }

  lemma {:induction false} FoldOfHeader<S, Op>(c: Crdt<S, Op>, g: Graph, s: S, h: Header, k: nat)
    requires k <= |Operations(c, h)|
    ensures Fold(AppliedStep(c, g), s, OfHeader(c, h)[k..])
         == ApplyOperations(c, Before(g), s, Operations(c, h)[k..])
    decreases |Operations(c, h)| - k
  {
    var ops := Operations(c, h);
    if k < |ops| {
      assert OfHeader(c, h)[k..][1..] == OfHeader(c, h)[k + 1..];
      assert ops[k..][1..] == ops[k + 1..];
      FoldOfHeader(c, g, c.apply(Before(g), s, ops[k]), h, k + 1);
    }
  }

  lemma {:induction false} FoldOfTrace<S, Op>(c: Crdt<S, Op>, s0: S, g: Graph, final: Graph)
    ensures Fold(AppliedStep(c, final), s0, Trace(c, g)) == Fold(HeaderStep(c, final), s0, g)
    decreases |g|
  {
    if |g| > 0 {
      var init, h := Prefix(g, |g| - 1), g[|g| - 1];
      FoldOfTrace(c, s0, init, final);
      FoldConcat(AppliedStep(c, final), s0, Trace(c, init), OfHeader(c, h));
      assert g == init + [h];
      FoldSnoc(HeaderStep(c, final), s0, init, h);
      FoldOfHeader(c, final, Fold(HeaderStep(c, final), s0, init), h, 0);
      assert OfHeader(c, h)[0..] == OfHeader(c, h) && Operations(c, h)[0..] == Operations(c, h);
    }
  }

  /** `b` is a later operation than `a` of the header at `n`, or an operation of a header accepted later. */
  ghost predicate LaterOperation<Op>(g: Graph, n: nat, a: Applied<Op>, b: Applied<Op>)
    requires n < |g|
  {
    if b.header == g[n].id then b.position > a.position else exists m :: n < m < |g| && b.header == g[m].id
  }

  /** Where the operations of the trace come from. */
  lemma {:induction false} TraceEntry<S, Op>(c: Crdt<S, Op>, g: Graph, k: nat) returns (n: nat)
    requires k < |Trace(c, g)|
    ensures n < |g| && Trace(c, g)[k] in OfHeader(c, g[n])
    ensures forall i :: k < i < |Trace(c, g)| ==>
      LaterOperation(g, n, Trace(c, g)[k], Trace(c, g)[i])
    decreases |g|
  {
    var last := |g| - 1;
    var init := Prefix(g, last);
    var t := Trace(c, init);
    if k < |t| {
      n := TraceEntry(c, init, k);
      forall i | k < i < |Trace(c, g)|
        ensures LaterOperation(g, n, Trace(c, g)[k], Trace(c, g)[i])
      {
        if i < |t| {
          assert Trace(c, g)[i] == t[i];
          assert LaterOperation(init, n, t[k], t[i]);
          if t[i].header != g[n].id {
            var m :| n < m < |init| && t[i].header == init[m].id;
            assert g[m].id == t[i].header;
          }
        } else {
          assert Trace(c, g)[i].header == g[last].id;
        }
      }
    } else {
      n := last;
      assert Trace(c, g)[k] == OfHeader(c, g[n])[k - |t|];
    }
  }

  lemma {:induction false} TraceComplete<S, Op>(c: Crdt<S, Op>, g: Graph, n: nat, a: Applied<Op>)
    requires n < |g| && a in OfHeader(c, g[n])
    ensures a in Trace(c, g)
    decreases |g|
  {
    if n < |g| - 1 { TraceComplete(c, Prefix(g, |g| - 1), n, a); }
  }

  /**
    The state is the result of the trace. The trace holds every operation of every accepted header, none twice, and
    an operation of an ancestor never comes after one of a descendant.
   */
  lemma ExactlyOnceInCausalOrder<S(!new), Op(!new)>(c: Crdt<S, Op>, s0: S, g: Graph)
    requires Local(c) && RefersBack(c, g) && forall t :: t in c.times(s0) ==> t.headerId.None?
    ensures Replay(c, s0, g) == Fold(AppliedStep(c, g), s0, Trace(c, g))
    ensures forall a :: a in Trace(c, g) <==> exists h :: h in g && a in OfHeader(c, h)
    ensures forall i, j :: 0 <= i < j < |Trace(c, g)| ==>
      var a, b := Trace(c, g)[i], Trace(c, g)[j];
      && (a.header, a.position) != (b.header, b.position)
      && (Reaches(g, b.header, a.header) ==> b.header == a.header && a.position < b.position)
  {
    ReplayUnderFinalGraph(c, s0, g, g);
    FoldOfTrace(c, s0, g, g);
    forall a
      ensures a in Trace(c, g) <==> exists h :: h in g && a in OfHeader(c, h)
    {
      if a in Trace(c, g) {
        var k :| 0 <= k < |Trace(c, g)| && Trace(c, g)[k] == a;
        var n := TraceEntry(c, g, k);
        assert g[n] in g;
      }
      if h :| h in g && a in OfHeader(c, h) {
        var n :| 0 <= n < |g| && g[n] == h;
        TraceComplete(c, g, n, a);
      }
    }
    forall i, j | 0 <= i < j < |Trace(c, g)|
      ensures var a, b := Trace(c, g)[i], Trace(c, g)[j];
        && (a.header, a.position) != (b.header, b.position)
        && (Reaches(g, b.header, a.header) ==> b.header == a.header && a.position < b.position)
    {
      var n := TraceEntry(c, g, i);
      assert Trace(c, g)[i].header == g[n].id;
      if Reaches(g, Trace(c, g)[j].header, g[n].id) {
        ReachEarlier(g, Trace(c, g)[j].header, g[n].id);
      }
    }
  }
}
