/** Texts in the store, over the operation ids of the event graph or over a clock of their own. */
module StoreTexts {
  import opened Common
  import opened EventGraph
  import opened Ancestry
  import opened Time
  import opened CausalOrder
  import opened Convergence
  import opened StoreLoop
  import opened StoreStates
  import CausalTree

  ghost function OpsOf<Op>(trace: seq<Applied<Op>>): seq<Op> {
    seq(|trace|, i requires 0 <= i < |trace| => trace[i].op)
  }

  /** Every atom has its own id, and an atom is inserted below one that its author had seen. */
  ghost predicate WellAuthored<T(!new), A(!new)>(g: Graph, trace: seq<Applied<CausalTree.TreeOp<T, A>>>) {
    forall x, y :: x in trace && y in trace ==>
      && (x != y ==> x.op.atom.id != y.op.atom.id)
      && (x.op.atom.id == y.op.parentId ==> Earlier(g)(x, y))
  }

  lemma SameAuthors<T(!new), A(!new)>(g: Graph, trace: seq<Applied<CausalTree.TreeOp<T, A>>>,
                                      trace': seq<Applied<CausalTree.TreeOp<T, A>>>)
    requires WellAuthored(g, trace) && Elems(trace) == Elems(trace')
    ensures WellAuthored(g, trace')
  {
    hide Earlier;
    forall x | x in trace'
      ensures x in trace
    {
      assert x in Elems(trace');
    }
  }

  lemma OpsKeepOrder<T(!new), A(!new)>(g: Graph, trace: seq<Applied<CausalTree.TreeOp<T, A>>>,
                                       trace': seq<Applied<CausalTree.TreeOp<T, A>>>)
    requires Distinct(trace) && Elems(trace) == Elems(trace') && Respects(Earlier(g), trace) && WellAuthored(g, trace)
    ensures Distinct(OpsOf(trace)) && Elems(OpsOf(trace)) == Elems(OpsOf(trace'))
    ensures Respects(CausalTree.Parenthood(), OpsOf(trace))
  {
    hide Earlier;
    forall i, j | 0 <= i < j < |trace|
      ensures OpsOf(trace)[i] != OpsOf(trace)[j] && !CausalTree.Parenthood()(OpsOf(trace)[j], OpsOf(trace)[i])
    {
      assert trace[i] in trace && trace[j] in trace;
    }
    OpsSubset(trace, trace');
    OpsSubset(trace', trace);
  }

  lemma OpsSubset<Op(!new)>(trace: seq<Applied<Op>>, trace': seq<Applied<Op>>)
    requires Elems(trace) <= Elems(trace')
    ensures Elems(OpsOf(trace)) <= Elems(OpsOf(trace'))
  {
    forall op | op in OpsOf(trace)
      ensures op in OpsOf(trace')
    {
      var i :| 0 <= i < |trace| && OpsOf(trace)[i] == op;
      assert trace[i] in Elems(trace');
      var j :| 0 <= j < |trace'| && trace'[j] == trace[i];
      assert OpsOf(trace')[j] == op;
    }
  }

  lemma OpIdsOf<T(!new), A(!new)>(trace: seq<Applied<CausalTree.TreeOp<T, A>>>, ts: set<T>)
    requires forall a :: a in trace ==> a.op.atom.id in ts
    ensures CausalTree.OpIds(OpsOf(trace)) <= ts
  {
  }

  /** Fewer times have no more inversions. */
  lemma FewerTimes<T(!new)>(hb: Relation<T>, ord: Comparison<T>, ts: set<T>, ts': set<T>)
    requires ts <= ts' && NoInversionAmong(hb, ord, ts')
    ensures NoInversionAmong(hb, ord, ts)
  {
  }

  // ---------- Over the event graph

  type Text<A> = CausalTree.Tree<OperationId, A>

  type TextOp<A> = CausalTree.TreeOp<OperationId, A>

  function TextTimes<A>(t: Option<Text<A>>): set<OperationId> {
    if t.None? then {} else CausalTree.TreeIds(t.value)
  }

  /** The text is left undefined by an operation it fails on. */
  function TextCrdt<A>(decode: (seq<Byte>, HeaderId) -> Option<seq<TextOp<A>>>): Crdt<Option<Text<A>>, TextOp<A>> {
    Crdt(decode, (hb, t, op) => CausalTree.Apply(Tiebreak(hb, CompareIds), t, op), t => TextTimes(t),
         (op: TextOp<A>) => {op.atom.id}, t => true)
  }

  lemma TextStepAgrees<A(!new)>(hb: Relation<OperationId>, hb': Relation<OperationId>, t: Option<Text<A>>,
                                op: TextOp<A>)
    requires Agree(hb, hb', TextTimes(t) + {op.atom.id})
    ensures CausalTree.Apply(Tiebreak(hb, CompareIds), t, op) == CausalTree.Apply(Tiebreak(hb', CompareIds), t, op)
    ensures TextTimes(CausalTree.Apply(Tiebreak(hb, CompareIds), t, op)) <= TextTimes(t) + {op.atom.id}
  {
    hide CompareIds, CausalTree.Apply, CausalTree.TreeIds;
    if t.Some? {
      var ts := TextTimes(t) + {op.atom.id};
      CausalTree.ApplyAmong(Tiebreak(hb, CompareIds), Tiebreak(hb', CompareIds), ts, t.value, op);
    } else {
      NothingApplied(Tiebreak(hb, CompareIds), op);
      NothingApplied(Tiebreak(hb', CompareIds), op);
    }
  }

  lemma NothingApplied<A(!new)>(cmp: Comparison<OperationId>, op: TextOp<A>)
    ensures CausalTree.Apply<OperationId, A>(cmp, None, op) == None
  {
  }

  lemma TextIsLocal<A(!new)>(c: Crdt<Option<Text<A>>, TextOp<A>>)
    requires c == TextCrdt(c.decode)
    ensures Local(c)
  {
    hide CausalTree.Apply, TextTimes;
    forall hb, hb', t, op | Agree(hb, hb', c.times(t) + c.opTimes(op))
      ensures c.apply(hb, t, op) == c.apply(hb', t, op)
    {
      TextStepAgrees(hb, hb', t, op);
    }
    forall hb, t, op
      ensures c.times(c.apply(hb, t, op)) <= c.times(t) + c.opTimes(op)
    {
      TextStepAgrees(hb, hb, t, op);
    }
  }

  lemma {:induction false} FoldOfText<A(!new)>(c: Crdt<Option<Text<A>>, TextOp<A>>, g: Graph, t: Option<Text<A>>,
                                               trace: seq<Applied<TextOp<A>>>)
    requires c == TextCrdt(c.decode)
    ensures Fold(AppliedStep(c, g), t, trace)
         == Fold(CausalTree.ApplyStep(Tiebreak(Before(g), CompareIds)), t, OpsOf(trace))
    decreases |trace|
  {
    if trace != [] {
      assert OpsOf(trace)[1..] == OpsOf(trace[1..]);
      FoldOfText(c, g, AppliedStep(c, g)(t, trace[0]), trace[1..]);
    }
  }

  /**
    Two stores of a text that accepted the same headers hold the same text, and no insertion failed, whenever the
    operation ids in use have no inversion in the causal order of the store.
   */
  lemma TextStoresConverge<A(!new)>(c: Crdt<Option<Text<A>>, TextOp<A>>, t0: Text<A>, g: Graph, g': Graph,
                                    ts: set<OperationId>)
    requires c == TextCrdt(c.decode) && SameHeaders(g, g') && RefersBack(c, g) && WellAuthored(g, Trace(c, g))
    requires forall t :: t in CausalTree.TreeIds(t0) ==> t.headerId.None?
    requires CausalTree.SortedTree(Tiebreak(Before(g), CompareIds), t0)
    requires CausalTree.ValidRemainder(t0, Elems(OpsOf(Trace(c, g))))
    requires CausalTree.TreeIds(t0) <= ts && forall a :: a in Trace(c, g) ==> a.op.atom.id in ts
    requires NoInversionAmong(Before(g), CompareIds, ts)
    ensures Replay(c, Some(t0), g) == Replay(c, Some(t0), g') && Replay(c, Some(t0), g).Some?
  {
    hide Trace, Replay, OpsOf, Reaches, Earlier, CausalTree.Apply, HappensBefore, CompareIds, RefersBack,
      CausalTree.TreeIds, CausalTree.OpIds;
    TextIsLocal(c);
    TracesAgree(c, Some(t0), g, g');
    FoldOfText(c, g, Some(t0), Trace(c, g));
    FoldOfText(c, g, Some(t0), Trace(c, g'));
    SameAuthors(g, Trace(c, g), Trace(c, g'));
    OpsKeepOrder(g, Trace(c, g), Trace(c, g'));
    OpsKeepOrder(g, Trace(c, g'), Trace(c, g));
    HappensBeforeIsOrder(g);
    CompareIdsIsOrder();
    OpIdsOf(Trace(c, g), ts);
    FewerTimes(Before(g), CompareIds, CausalTree.TreeIds(t0) + CausalTree.OpIds(OpsOf(Trace(c, g))), ts);
    CausalTree.CausalTreeConvergence(Before(g), CompareIds, t0, OpsOf(Trace(c, g)), OpsOf(Trace(c, g')));
  }

  // ---------- Over a clock of its own

  /** Text whose atoms carry times such as Lamport timestamps, which the event graph does not compare. */
  function ClockTextCrdt<T(==), A>(decode: (seq<Byte>, HeaderId) -> Option<seq<CausalTree.TreeOp<T, A>>>,
                                   cmp: Comparison<T>)
    : Crdt<Option<CausalTree.Tree<T, A>>, CausalTree.TreeOp<T, A>>
  {
    Crdt(decode, (hb, t, op) => CausalTree.Apply(cmp, t, op), t => {}, op => {}, t => true)
  }

  lemma {:induction false} FoldOfOps<T(!new), A(!new)>(c: Crdt<Option<CausalTree.Tree<T, A>>, CausalTree.TreeOp<T, A>>,
      g: Graph, cmp: Comparison<T>, t: Option<CausalTree.Tree<T, A>>, trace: seq<Applied<CausalTree.TreeOp<T, A>>>)
    requires c == ClockTextCrdt(c.decode, cmp)
    ensures Fold(AppliedStep(c, g), t, trace) == Fold(CausalTree.ApplyStep(cmp), t, OpsOf(trace))
    decreases |trace|
  {
    if trace != [] {
      assert OpsOf(trace)[1..] == OpsOf(trace[1..]);
      FoldOfOps(c, g, cmp, AppliedStep(c, g)(t, trace[0]), trace[1..]);
    }
  }

  lemma ClockTextStoresConverge<T(!new), A(!new)>(c: Crdt<Option<CausalTree.Tree<T, A>>, CausalTree.TreeOp<T, A>>,
      hb: Relation<T>, ord: Comparison<T>, t0: CausalTree.Tree<T, A>, g: Graph, g': Graph, ts: set<T>)
    requires StrictPartialOrder(hb) && TotalOrder(ord) && NoInversionAmong(hb, ord, ts)
    requires c == ClockTextCrdt(c.decode, Tiebreak(hb, ord)) && SameHeaders(g, g') && WellAuthored(g, Trace(c, g))
    requires CausalTree.SortedTree(Tiebreak(hb, ord), t0)
    requires CausalTree.ValidRemainder(t0, Elems(OpsOf(Trace(c, g))))
    requires CausalTree.TreeIds(t0) <= ts && forall a :: a in Trace(c, g) ==> a.op.atom.id in ts
    ensures Replay(c, Some(t0), g) == Replay(c, Some(t0), g') && Replay(c, Some(t0), g).Some?
  {
    hide Trace, Replay, OpsOf, Reaches, Earlier, CausalTree.Apply, CausalTree.TreeIds, CausalTree.OpIds;
    TracesAgree(c, Some(t0), g, g');
    FoldOfOps(c, g, Tiebreak(hb, ord), Some(t0), Trace(c, g));
    FoldOfOps(c, g, Tiebreak(hb, ord), Some(t0), Trace(c, g'));
    SameAuthors(g, Trace(c, g), Trace(c, g'));
    OpsKeepOrder(g, Trace(c, g), Trace(c, g'));
    OpsKeepOrder(g, Trace(c, g'), Trace(c, g));
    OpIdsOf(Trace(c, g), ts);
    FewerTimes(hb, ord, CausalTree.TreeIds(t0) + CausalTree.OpIds(OpsOf(Trace(c, g))), ts);
    CausalTree.CausalTreeConvergence(hb, ord, t0, OpsOf(Trace(c, g)), OpsOf(Trace(c, g')));
  }
}
