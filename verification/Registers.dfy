/** The last-writer-wins register. */
module Registers {
  import opened Common
  import opened EventGraph
  import opened Ancestry
  import opened Time
  import opened CausalOrder

  datatype Lww<T, A> = Lww(time: T, value: A)

  /** Keeps the later of the register and the write; `None` is the failure on equal times. */
  function Apply<T, A>(hb: Relation<T>, cmp: Comparison<T>, reg: Lww<T, A>, op: Lww<T, A>): Option<Lww<T, A>> {
    match CompareWithTiebreak(hb, cmp, reg.time, op.time)
    case Less => Some(op)
    case Greater => Some(reg)
    case Equal => None
  }

  function Step<T, A>(hb: Relation<T>, cmp: Comparison<T>, reg: Option<Lww<T, A>>, op: Lww<T, A>): Option<Lww<T, A>> {
    match reg
    case None => None
    case Some(r) => Apply(hb, cmp, r, op)
  }

  /** A write fails exactly if it has the time of the register. */
  lemma FailsOnSameTime<T(!new), A>(hb: Relation<T>, cmp: Comparison<T>, reg: Lww<T, A>, op: Lww<T, A>)
    requires StrictPartialOrder(hb) && TotalOrder(cmp)
    ensures Apply(hb, cmp, reg, op).None? <==> reg.time == op.time
  {
    Antisymmetric(hb, cmp, reg.time, op.time);
  }

  function ApplyAll<T, A>(hb: Relation<T>, cmp: Comparison<T>, reg: Option<Lww<T, A>>, ops: seq<Lww<T, A>>)
    : Option<Lww<T, A>>
    decreases |ops|
  {
    if ops == [] then reg else ApplyAll(hb, cmp, Step(hb, cmp, reg, ops[0]), ops[1..])
  }

  ghost predicate DistinctTimes<T, A>(ws: seq<Lww<T, A>>) {
    forall i, j :: 0 <= i < j < |ws| ==> ws[i].time != ws[j].time
  }

  // ---------- The law of commutativity

  /** Two concurrent writes may be applied in either order, whatever the register holds. */
  ghost predicate LawCommutativity<T(!new), A(!new)>(hb: Relation<T>, cmp: Comparison<T>) {
    forall x: Lww<T, A>, w: Lww<T, A>, w': Lww<T, A> ::
      Concurrent(hb, w.time, w'.time) && w.time != w'.time && x.time != w.time && x.time != w'.time ==>
        Step(hb, cmp, Apply(hb, cmp, x, w), w') == Step(hb, cmp, Apply(hb, cmp, x, w'), w)
  }

  /** The law for one register and two writes needs only that their three times have no inversion. */
  lemma WritesCommute<T(!new), A>(hb: Relation<T>, cmp: Comparison<T>, ts: set<T>, x: Lww<T, A>, w: Lww<T, A>,
                                  w': Lww<T, A>)
    requires StrictPartialOrder(hb) && TotalOrder(cmp) && NoInversionAmong(hb, cmp, ts)
    requires x.time in ts && w.time in ts && w'.time in ts
    requires w.time != w'.time && x.time != w.time && x.time != w'.time
    ensures Step(hb, cmp, Apply(hb, cmp, x, w), w') == Step(hb, cmp, Apply(hb, cmp, x, w'), w)
  {
    AmongIsOrder(hb, cmp, ts);
    var among := Among(hb, cmp, ts);
    assert among(x.time, w.time) == CompareWithTiebreak(hb, cmp, x.time, w.time);
    assert among(x.time, w'.time) == CompareWithTiebreak(hb, cmp, x.time, w'.time);
    assert among(w.time, w'.time) == CompareWithTiebreak(hb, cmp, w.time, w'.time);
    assert among(w'.time, w.time) == CompareWithTiebreak(hb, cmp, w'.time, w.time);
    assert among(w.time, x.time) == CompareWithTiebreak(hb, cmp, w.time, x.time);
    assert among(w'.time, x.time) == CompareWithTiebreak(hb, cmp, w'.time, x.time);
  }

  /** The register obeys the law exactly when the fallback order inverts nothing. */
  lemma LawIffNoInversion<T(!new), A(!new)>(hb: Relation<T>, cmp: Comparison<T>, v: A)
    requires StrictPartialOrder(hb) && TotalOrder(cmp)
    ensures LawCommutativity<T, A>(hb, cmp) <==> NoInversion(hb, cmp)
  {
    if LawCommutativity<T, A>(hb, cmp) {
      forall a, b, c
        ensures !Inverts(hb, cmp, a, b, c)
      {
        if Inverts(hb, cmp, a, b, c) { InversionBreaksLaw(hb, cmp, v, v, v, a, b, c); }
      }
    }
    if NoInversion(hb, cmp) {
      forall x: Lww<T, A>, w: Lww<T, A>, w': Lww<T, A> |
        Concurrent(hb, w.time, w'.time) && w.time != w'.time && x.time != w.time && x.time != w'.time
        ensures Step(hb, cmp, Apply(hb, cmp, x, w), w') == Step(hb, cmp, Apply(hb, cmp, x, w'), w)
      {
        WritesCommute(hb, cmp, {x.time, w.time, w'.time}, x, w, w');
      }
    }
  }

  /** From a register holding `a`, the two orders of the concurrent writes `b` and `c` leave different writes. */
  lemma InversionBreaksLaw<T(!new), A(!new)>(hb: Relation<T>, cmp: Comparison<T>, u: A, v: A, w: A, a: T, b: T, c: T)
    requires StrictPartialOrder(hb) && TotalOrder(cmp) && Inverts(hb, cmp, a, b, c)
    ensures Step(hb, cmp, Apply(hb, cmp, Lww(a, u), Lww(b, v)), Lww(c, w)) == Some(Lww(c, w))
    ensures Step(hb, cmp, Apply(hb, cmp, Lww(a, u), Lww(c, w)), Lww(b, v)) == Some(Lww(b, v))
    ensures !LawCommutativity<T, A>(hb, cmp)
  {
    Antisymmetric(hb, cmp, a, c);
    Antisymmetric(hb, cmp, b, c);
    Antisymmetric(hb, cmp, a, b);
    var x: Lww<T, A>, y: Lww<T, A>, z: Lww<T, A> := Lww(a, u), Lww(b, v), Lww(c, w);
    assert Concurrent(hb, y.time, z.time) && y.time != z.time && x.time != y.time && x.time != z.time;
  }

  // ---------- Over any causal state

  /**
    A register that takes its writes in causal order is never left with a value that happened before another write:
    the comparison need not be transitive for this.
   */
  lemma {:induction false} RegisterIsMaximal<T(!new), A>(hb: Relation<T>, cmp: Comparison<T>, ws: seq<Lww<T, A>>)
    requires StrictPartialOrder(hb) && TotalOrder(cmp)
    requires ws != [] && DistinctTimes(ws)
    requires forall i, j :: 0 <= i < j < |ws| ==> !hb(ws[j].time, ws[i].time)
    ensures var r := ApplyAll(hb, cmp, Some(ws[0]), ws[1..]);
      r.Some? && r.value in ws && forall w :: w in ws ==> !hb(r.value.time, w.time)
    decreases |ws|
  {
    if |ws| > 1 {
      var n := |ws| - 1;
      var init := ws[..n];
      RegisterIsMaximal(hb, cmp, init);
      assert ws[1..] == init[1..] + [ws[n]];
      ApplyAllSnoc(hb, cmp, Some(ws[0]), init[1..], ws[n]);
      var r := ApplyAll(hb, cmp, Some(ws[0]), init[1..]).value;
      var i :| 0 <= i < n && init[i] == r;
      assert ws[i] == r;
      Antisymmetric(hb, cmp, r.time, ws[n].time);
      var s := ApplyAll(hb, cmp, Some(ws[0]), ws[1..]).value;
      assert s == r || s == ws[n];
      forall w | w in ws
        ensures !hb(s.time, w.time)
      {
        var j :| 0 <= j < |ws| && ws[j] == w;
        if j < n { assert init[j] == w; }
      }
    }
  }

  lemma {:induction false} ApplyAllSnoc<T, A>(hb: Relation<T>, cmp: Comparison<T>, reg: Option<Lww<T, A>>,
                                              ops: seq<Lww<T, A>>, op: Lww<T, A>)
    ensures ApplyAll(hb, cmp, reg, ops + [op]) == Step(hb, cmp, ApplyAll(hb, cmp, reg, ops), op)
    decreases |ops|
  {
    if ops == [] {
      assert (ops + [op])[1..] == [];
    } else {
      assert (ops + [op])[1..] == ops[1..] + [op];
      ApplyAllSnoc(hb, cmp, Step(hb, cmp, reg, ops[0]), ops[1..], op);
    }
  }

  // ---------- Over Lamport time

  ghost predicate IsLatest<A>(w: Lww<LamportTimestamp, A>, ws: seq<Lww<LamportTimestamp, A>>) {
    w in ws && forall x :: x in ws ==> x == w || LamportCmp(x.time, w.time) == Less
  }

  /** Writes with distinct Lamport times leave the latest one, so their order does not matter. */
  lemma {:induction false} LamportRegisterIsLatest<A(!new)>(ws: seq<Lww<LamportTimestamp, A>>)
    requires ws != [] && DistinctTimes(ws)
    ensures var r := ApplyAll(LamportHappensBefore, LamportCmp, Some(ws[0]), ws[1..]);
      r.Some? && IsLatest(r.value, ws)
    decreases |ws|
  {
    if |ws| > 1 {
      var n := |ws| - 1;
      var init := ws[..n];
      LamportRegisterIsLatest(init);
      assert ws[1..] == init[1..] + [ws[n]];
      ApplyAllSnoc(LamportHappensBefore, LamportCmp, Some(ws[0]), init[1..], ws[n]);
      var r := ApplyAll(LamportHappensBefore, LamportCmp, Some(ws[0]), init[1..]).value;
      LatestOfOneMore(init, ws[n], r);
      assert ws == init + [ws[n]];
    }
  }

  lemma LatestOfOneMore<A>(ws: seq<Lww<LamportTimestamp, A>>, w: Lww<LamportTimestamp, A>,
                           r: Lww<LamportTimestamp, A>)
    requires IsLatest(r, ws) && forall x :: x in ws ==> x.time != w.time
    ensures var s := Apply(LamportHappensBefore, LamportCmp, r, w); s.Some? && IsLatest(s.value, ws + [w])
  {
    LamportComparison();
  }

  /** There is only one latest write. */
  lemma LatestIsUnique<A>(w: Lww<LamportTimestamp, A>, w': Lww<LamportTimestamp, A>,
                          ws: seq<Lww<LamportTimestamp, A>>)
    requires IsLatest(w, ws) && IsLatest(w', ws)
    ensures w == w'
  {
    assert LamportCmp(w.time, w'.time) == Less ==> LamportCmp(w'.time, w.time) == Greater;
  }

  lemma LamportConvergence<A(!new)>(ws: seq<Lww<LamportTimestamp, A>>, ws': seq<Lww<LamportTimestamp, A>>)
    requires ws != [] && DistinctTimes(ws) && DistinctTimes(ws') && multiset(ws) == multiset(ws')
    ensures ws' != []
    ensures ApplyAll(LamportHappensBefore, LamportCmp, Some(ws[0]), ws[1..])
         == ApplyAll(LamportHappensBefore, LamportCmp, Some(ws'[0]), ws'[1..])
  {
    assert forall w :: w in ws <==> w in multiset(ws);
    assert forall w :: w in ws' <==> w in multiset(ws');
    assert ws[0] in ws';
    LamportRegisterIsLatest(ws);
    LamportRegisterIsLatest(ws');
    var r := ApplyAll(LamportHappensBefore, LamportCmp, Some(ws[0]), ws[1..]).value;
    var r' := ApplyAll(LamportHappensBefore, LamportCmp, Some(ws'[0]), ws'[1..]).value;
    assert IsLatest(r, ws');
    LatestIsUnique(r, r', ws');
  }

  // ---------- Over event graph time

  /** Header 1 follows header 5; header 3 is concurrent with both, and its id lies between theirs. */
  const FORK: seq<Header> := [Header(5, [], true, []), Header(3, [], true, []), Header(1, [5], true, [])]

  lemma ForkIsGraph()
    ensures Wf(FORK)
  {
    assert FORK[0].id == 5 && FORK[1].id == 3 && FORK[2].id == 1;
    assert HasBefore(FORK, 2, 5);
  }

  function Fork(): Graph {
    ForkIsGraph();
    FORK
  }

  function IdOfWrite(id: HeaderId): OperationId {
    OperationId(Some(id), 0)
  }

  function Write(id: HeaderId): Lww<OperationId, nat> {
    Lww(IdOfWrite(id), id)
  }

  /** The fork arranges three operation ids in a circle. */
  lemma ForkInverts()
    ensures Inverts(Before(Fork()), CompareIds, IdOfWrite(5), IdOfWrite(1), IdOfWrite(3))
  {
    var g := Fork();
    assert g[0].id == 5 && g[1].id == 3 && g[2].id == 1;
    assert Has(g, 1) && Has(g, 3) && Has(g, 5);
    assert Parents(g, 1) == [5] && Parents(g, 3) == [] && Parents(g, 5) == [];
    assert IsAncestor(g, 5, 5);
    assert IsAncestor(g, 5, Parents(g, 1)[0]);
  }

  /**
    Hash-based operation ids do not obey the law: both delivery orders of the fork respect causality, yet they leave
    different values.
   */
  lemma EcgRegistersDiverge()
    ensures ApplyAll(Before(Fork()), CompareIds, Some(Write(5)), [Write(1), Write(3)]) == Some(Write(3))
    ensures ApplyAll(Before(Fork()), CompareIds, Some(Write(5)), [Write(3), Write(1)]) == Some(Write(1))
    ensures !LawCommutativity<OperationId, nat>(Before(Fork()), CompareIds)
  {
    hide Fork, HappensBefore, CompareIds;
    var hb := Before(Fork());
    HappensBeforeIsOrder(Fork());
    CompareIdsIsOrder();
    ForkInverts();
    InversionBreaksLaw(hb, CompareIds, 5, 1, 3, Write(5).time, Write(1).time, Write(3).time);
    assert [Write(1), Write(3)][1..] == [Write(3)] && [Write(3), Write(1)][1..] == [Write(1)];
  }
}
