/** Registers in the store, with the operation ids of the event graph as their times. */
module StoreRegisters {
  import opened Common
  import opened EventGraph
  import opened Ancestry
  import opened Time
  import opened CausalOrder
  import opened Convergence
  import opened StoreLoop
  import opened Registers
  import opened StoreStates
  import TwoPhaseMap

  type Write<A> = Lww<OperationId, A>

  function RegisterTimes<A>(r: Option<Write<A>>): set<OperationId> {
    if r.None? then {} else {r.value.time}
  }

  /** The register is left undefined by a write with its own time. */
  function RegisterCrdt<A>(decode: (seq<Byte>, HeaderId) -> Option<seq<Write<A>>>): Crdt<Option<Write<A>>, Write<A>> {
    Crdt(decode, (hb, r, w) => Step(hb, CompareIds, r, w), r => RegisterTimes(r), (w: Write<A>) => {w.time}, r => true)
  }

  lemma RegisterStepAgrees<A(!new)>(hb: Relation<OperationId>, hb': Relation<OperationId>, r: Option<Write<A>>,
                                    w: Write<A>)
    requires Agree(hb, hb', RegisterTimes(r) + {w.time})
    ensures Step(hb, CompareIds, r, w) == Step(hb', CompareIds, r, w)
    ensures RegisterTimes(Step(hb, CompareIds, r, w)) <= RegisterTimes(r) + {w.time}
  {
    hide CompareIds;
  }

  lemma RegisterIsLocal<A(!new)>(c: Crdt<Option<Write<A>>, Write<A>>)
    requires c == RegisterCrdt(c.decode)
    ensures Local(c)
  {
    hide Step, RegisterTimes;
    forall hb, hb', r, w | Agree(hb, hb', c.times(r) + c.opTimes(w))
      ensures c.apply(hb, r, w) == c.apply(hb', r, w)
    {
      RegisterStepAgrees(hb, hb', r, w);
    }
    forall hb, r, w
      ensures c.times(c.apply(hb, r, w)) <= c.times(r) + c.opTimes(w)
    {
      RegisterStepAgrees(hb, hb, r, w);
    }
  }

  /** Every write carries the id of its own operation. */
  ghost predicate OwnTimes<A(!new)>(trace: seq<Applied<Write<A>>>) {
    forall a :: a in trace ==> a.position < 256 && a.op.time == OperationId(Some(a.header), a.position)
  }

  ghost function WritesOf<A>(trace: seq<Applied<Write<A>>>): seq<Write<A>> {
    seq(|trace|, i requires 0 <= i < |trace| => trace[i].op)
  }

  lemma {:induction false} FoldOfWrites<A(!new)>(c: Crdt<Option<Write<A>>, Write<A>>, g: Graph, r: Option<Write<A>>,
                                                 trace: seq<Applied<Write<A>>>)
    requires c == RegisterCrdt(c.decode)
    ensures Fold(AppliedStep(c, g), r, trace) == ApplyAll(Before(g), CompareIds, r, WritesOf(trace))
    decreases |trace|
  {
    if trace != [] {
      assert WritesOf(trace)[1..] == WritesOf(trace[1..]);
      FoldOfWrites(c, g, AppliedStep(c, g)(r, trace[0]), trace[1..]);
    }
  }

  /** Between two writes, happens-before is the causal order of the operations. */
  lemma WriteBefore<A(!new)>(g: Graph, trace: seq<Applied<Write<A>>>, a: Applied<Write<A>>, b: Applied<Write<A>>)
    requires OwnTimes(trace) && a in trace && b in trace
    ensures HappensBefore(g, a.op.time, b.op.time) <==> Earlier(g)(a, b)
  {
    if a.header != b.header { HappensBeforeIsAncestry(g, a.op.time, b.op.time); }
  }

  lemma WritesInCausalOrder<A(!new)>(g: Graph, r0: Write<A>, trace: seq<Applied<Write<A>>>)
    requires OwnTimes(trace) && Distinct(trace) && Respects(Earlier(g), trace) && r0.time.headerId.None?
    ensures var ws := [r0] + WritesOf(trace);
      && (forall i, j :: 0 <= i < j < |ws| ==> !Before(g)(ws[j].time, ws[i].time))
    requires forall i, j :: 0 <= i < j < |trace| ==>
      (trace[i].header, trace[i].position) != (trace[j].header, trace[j].position)
    ensures DistinctTimes([r0] + WritesOf(trace))
  {
    hide Reaches, HappensBefore;
    var ws := [r0] + WritesOf(trace);
    forall i, j | 0 <= i < j < |ws|
      ensures !Before(g)(ws[j].time, ws[i].time) && ws[i].time != ws[j].time
    {
      var b := trace[j - 1];
      assert b in trace;
      if i == 0 {
        InitialIsFirst(g, ws[j].time, r0.time);
      } else {
        var a := trace[i - 1];
        assert a in trace;
        WriteBefore(g, trace, b, a);
      }
    }
  }

  lemma InitialIsFirst(g: Graph, t: OperationId, t0: OperationId)
    requires t.headerId.Some? && t0.headerId.None?
    ensures !HappensBefore(g, t, t0) && HappensBefore(g, t0, t)
  {
  }

  lemma TracePositions<S(!new), Op(!new)>(c: Crdt<S, Op>, s0: S, g: Graph)
    requires Local(c) && RefersBack(c, g) && forall t :: t in c.times(s0) ==> t.headerId.None?
    ensures var trace := Trace(c, g);
      forall i, j :: 0 <= i < j < |trace| ==>
        (trace[i].header, trace[i].position) != (trace[j].header, trace[j].position)
  {
    hide Local, RefersBack, Trace, Reaches, Replay;
    ExactlyOnceInCausalOrder(c, s0, g);
  }

  /**
    In a store whose writes carry the ids of their own operations, the register holds the initial value or one of the
    writes of the accepted headers, and no write of an accepted header happened after it.
   */
  lemma RegisterStoreIsMaximal<A(!new)>(c: Crdt<Option<Write<A>>, Write<A>>, r0: Write<A>, g: Graph)
    requires c == RegisterCrdt(c.decode) && RefersBack(c, g) && r0.time.headerId.None? && OwnTimes(Trace(c, g))
    ensures var r := Replay(c, Some(r0), g);
      && r.Some? && (r.value == r0 || exists a :: a in Trace(c, g) && a.op == r.value)
      && (forall a :: a in Trace(c, g) ==> !HappensBefore(g, r.value.time, a.op.time))
      && (Trace(c, g) != [] ==> r.value != r0)
  {
    hide HappensBefore, Replay, Trace, RefersBack, OwnTimes, WritesOf, Earlier;
    RegisterIsLocal(c);
    SameAsItself(g);
    TracesAgree(c, Some(r0), g, g);
    TracePositions(c, Some(r0), g);
    var trace := Trace(c, g);
    var ws := [r0] + WritesOf(trace);
    FoldOfWrites(c, g, Some(r0), trace);
    WritesInCausalOrder(g, r0, trace);
    HappensBeforeIsOrder(g);
    CompareIdsIsOrder();
    RegisterIsMaximal(Before(g), CompareIds, ws);
    assert ws[1..] == WritesOf(trace);
    var r := Replay(c, Some(r0), g).value;
    WritesMembers(trace, r);
    forall a | a in trace
      ensures !HappensBefore(g, r.time, a.op.time)
      ensures HappensBefore(g, r0.time, a.op.time)
    {
      WritesMembers(trace, a.op);
      TimeOfWrite(trace, a);
      InitialIsFirst(g, a.op.time, r0.time);
    }
    assert trace != [] ==> trace[0] in trace;
  }

  lemma SameAsItself(g: Graph)
    ensures SameHeaders(g, g)
  {
  }

  lemma TimeOfWrite<A(!new)>(trace: seq<Applied<Write<A>>>, a: Applied<Write<A>>)
    requires OwnTimes(trace) && a in trace
    ensures a.op.time.headerId.Some?
  {
  }

  lemma WritesMembers<A(!new)>(trace: seq<Applied<Write<A>>>, w: Write<A>)
    ensures w in WritesOf(trace) <==> exists a :: a in trace && a.op == w
  {
    if a :| a in trace && a.op == w {
      var i :| 0 <= i < |trace| && trace[i] == a;
      assert WritesOf(trace)[i] == w;
    }
  }

  // ---------- Convergence of registers

  /** Writes to come with different times, all in use, and none of them that of the register. */
  ghost function RegisterInv<A>(ts: set<OperationId>): (Option<Write<A>>, set<Applied<Write<A>>>) -> bool {
    (r: Option<Write<A>>, es: set<Applied<Write<A>>>) =>
      && r.Some? && r.value.time in ts
      && (forall e :: e in es ==> e.op.time in ts && e.op.time != r.value.time)
      && (forall e, f :: e in es && f in es && e != f ==> e.op.time != f.op.time)
  }

  /**
    Two register stores that accepted the same headers hold the same value whenever the operation ids in use have no
    inversion in the causal order of the store.
   */
  lemma RegisterStoresConverge<A(!new)>(c: Crdt<Option<Write<A>>, Write<A>>, r0: Write<A>, g: Graph, g': Graph,
                                        ts: set<OperationId>)
    requires c == RegisterCrdt(c.decode) && RefersBack(c, g) && SameHeaders(g, g')
    requires r0.time.headerId.None? && OwnTimes(Trace(c, g))
    requires r0.time in ts && forall a :: a in Trace(c, g) ==> a.op.time in ts
    requires NoInversionAmong(Before(g), CompareIds, ts)
    ensures Replay(c, Some(r0), g) == Replay(c, Some(r0), g')
  {
    hide HappensBefore, Replay, Trace, RefersBack, CompareIds, Reaches, Step;
    RegisterIsLocal(c);
    TracesAgree(c, Some(r0), g, g');
    TracePositions(c, Some(r0), g);
    HappensBeforeIsOrder(g);
    CompareIdsIsOrder();
    var inv, step, before := RegisterInv<A>(ts), AppliedStep(c, g), Earlier<Write<A>>(g);
    var trace := Trace(c, g);
    forall e | e in trace
      ensures e.op.time in ts && e.op.time != r0.time
    {
      TimeOfWrite(trace, e);
    }
    forall e, f | e in trace && f in trace && e != f
      ensures e.op.time != f.op.time
    {
      DifferentTimes(trace, e, f);
    }
    forall r, es, e | inv(r, es) && Enabled(before, es, e)
      ensures inv(step(r, e), es - {e})
    {
      StepKeepsOne(Before(g), r, e.op);
    }
    forall r, es, e, f | inv(r, es) && Enabled(before, es, e) && Enabled(before, es, f) && e != f
      ensures step(step(r, e), f) == step(step(r, f), e)
    {
      StepTwice(Before(g), ts, r, e.op, f.op);
    }
    Converges(step, inv, before, Some(r0), trace, Trace(c, g'));
  }

  lemma DifferentTimes<A(!new)>(trace: seq<Applied<Write<A>>>, e: Applied<Write<A>>, f: Applied<Write<A>>)
    requires OwnTimes(trace) && e in trace && f in trace && e != f
    requires forall i, j :: 0 <= i < j < |trace| ==>
      (trace[i].header, trace[i].position) != (trace[j].header, trace[j].position)
    ensures e.op.time != f.op.time
  {
    var i :| 0 <= i < |trace| && trace[i] == e;
    var j :| 0 <= j < |trace| && trace[j] == f;
    assert i < j || j < i;
  }

  lemma StepKeepsOne<A(!new)>(hb: Relation<OperationId>, r: Option<Write<A>>, w: Write<A>)
    requires StrictPartialOrder(hb) && TotalOrder(CompareIds) && r.Some? && r.value.time != w.time
    ensures Step(hb, CompareIds, r, w) == r || Step(hb, CompareIds, r, w) == Some(w)
  {
    hide CompareIds;
    Antisymmetric(hb, CompareIds, r.value.time, w.time);
  }

  lemma StepTwice<A(!new)>(hb: Relation<OperationId>, ts: set<OperationId>, r: Option<Write<A>>, w: Write<A>,
                           w': Write<A>)
    requires StrictPartialOrder(hb) && TotalOrder(CompareIds) && NoInversionAmong(hb, CompareIds, ts)
    requires r.Some? && r.value.time in ts && w.time in ts && w'.time in ts
    requires w.time != w'.time && r.value.time != w.time && r.value.time != w'.time
    ensures Step(hb, CompareIds, Step(hb, CompareIds, r, w), w') == Step(hb, CompareIds, Step(hb, CompareIds, r, w'), w)
  {
    hide CompareIds;
    WritesCommute(hb, CompareIds, ts, r.value, w, w');
  }

  // ---------- A map of registers

  function RegisterValues<A>(): Values<Option<Write<A>>, Write<A>> {
    Values((hb, r, w) => Step(hb, CompareIds, r, w), r => RegisterTimes(r), (w: Write<A>) => {w.time})
  }

  /** As `RegisterInv`, for the updates of one key of a map. */
  ghost function ValueInv<K, A>(ts: set<OperationId>)
    : (Option<Write<A>>, set<TwoPhaseMap.Event<K, Option<Write<A>>, Write<A>>>) -> bool
  {
    (r: Option<Write<A>>, es: set<TwoPhaseMap.Event<K, Option<Write<A>>, Write<A>>>) =>
      && r.Some? && r.value.time in ts
      && (forall e :: e in es ==> e.op.Apply? && e.op.operation.time in ts && e.op.operation.time != r.value.time)
      && (forall e, f :: e in es && f in es && e != f ==> e.op.operation.time != f.op.operation.time)
  }

  /** Registers are lawful values of a map whenever the times in use have no inversion. */
  lemma RegistersAreLawful<K(!new), A(!new)>(g: Graph, ts: set<OperationId>)
    requires NoInversionAmong(Before(g), CompareIds, ts)
    ensures LocalValues(RegisterValues<A>())
    ensures TwoPhaseMap.Lawful(Under(RegisterValues<A>(), Before(g)), ValueInv<K, A>(ts),
                               EventBefore<K, Option<Write<A>>, Write<A>>(g))
  {
    hide CompareIds, Step, RegisterTimes, HappensBefore, Reaches;
    HappensBeforeIsOrder(g);
    CompareIdsIsOrder();
    var vc := RegisterValues<A>();
    forall hb, hb', r, w | Agree(hb, hb', vc.times(r) + vc.opTimes(w))
      ensures vc.apply(hb, r, w) == vc.apply(hb', r, w)
    {
      RegisterStepAgrees(hb, hb', r, w);
    }
    forall hb, r, w
      ensures vc.times(vc.apply(hb, r, w)) <= vc.times(r) + vc.opTimes(w)
    {
      RegisterStepAgrees(hb, hb, r, w);
    }
    var inv, before := ValueInv<K, A>(ts), EventBefore<K, Option<Write<A>>, Write<A>>(g);
    var step := TwoPhaseMap.UpdateStep<K, Option<Write<A>>, Write<A>>(Under(vc, Before(g)));
    forall r, es, e | inv(r, es) && Enabled(before, es, e)
      ensures inv(step(r, e), es - {e})
    {
      StepKeepsOne(Before(g), r, e.op.operation);
    }
    forall r, es, e, f | inv(r, es) && Enabled(before, es, e) && Enabled(before, es, f) && e != f
      ensures step(step(r, e), f) == step(step(r, f), e)
    {
      StepTwice(Before(g), ts, r, e.op.operation, f.op.operation);
    }
  }

  /** So two stores of a map of registers that accepted the same headers hold the same map. */
  lemma RegisterMapStoresConverge<K(!new), A(!new)>(
      c: Crdt<Option<TwoPhaseMap.TwoPMap<K, Option<Write<A>>>>, TwoPhaseMap.Op<K, Option<Write<A>>, Write<A>>>,
      m0: TwoPhaseMap.TwoPMap<K, Option<Write<A>>>, g: Graph, g': Graph, ts: set<OperationId>)
    requires c == MapCrdt(c.decode, RegisterValues<A>()) && SameHeaders(g, g') && RefersBack(c, g)
    requires forall t :: t in MapTimes(RegisterValues<A>(), Some(m0)) ==> t.headerId.None?
    requires TwoPhaseMap.ValidHistory(EventBefore(g), m0, Elems(Events(Trace(c, g))))
    requires TwoPhaseMap.ValidValues(ValueInv<K, A>(ts), m0, Elems(Events(Trace(c, g))))
    requires NoInversionAmong(Before(g), CompareIds, ts)
    ensures Replay(c, Some(m0), g) == Replay(c, Some(m0), g') && Replay(c, Some(m0), g).Some?
  {
    hide Replay, Trace, Events, MapTimes, RefersBack;
    RegistersAreLawful<K, A>(g, ts);
    MapStoresConverge(c, RegisterValues<A>(), ValueInv<K, A>(ts), m0, g, g');
  }
}
