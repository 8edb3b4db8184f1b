/** Causal state, comparison with a tiebreak, and Lamport time. */
module Time {
  import opened Common

  type Relation<!T> = (T, T) -> bool
  type Comparison<!T> = (T, T) -> Ordering

  ghost predicate Concurrent<T>(hb: Relation<T>, t1: T, t2: T) {
    !hb(t1, t2) && !hb(t2, t1)
  }

  /** Causality decides; concurrent times fall back on the total order of `Ord`. */
  function CompareWithTiebreak<T>(hb: Relation<T>, cmp: Comparison<T>, t1: T, t2: T): Ordering {
    if hb(t1, t2) then Less
    else if hb(t2, t1) then Greater
    else cmp(t1, t2)
  }

  function Tiebreak<T>(hb: Relation<T>, cmp: Comparison<T>): Comparison<T> {
    (t1, t2) => CompareWithTiebreak(hb, cmp, t1, t2)
  }

  ghost predicate StrictPartialOrder<T(!new)>(hb: Relation<T>) {
    && (forall a :: !hb(a, a))
    && (forall a, b, c :: hb(a, b) && hb(b, c) ==> hb(a, c))
  }

  ghost predicate TotalOrder<T(!new)>(cmp: Comparison<T>) {
    && (forall a, b :: cmp(a, b) == Equal <==> a == b)
    && (forall a, b :: cmp(a, b) == Less <==> cmp(b, a) == Greater)
    && (forall a, b, c :: cmp(a, b) == Less && cmp(b, c) == Less ==> cmp(a, c) == Less)
  }

  ghost predicate Transitive<T(!new)>(hb: Relation<T>, cmp: Comparison<T>) {
    forall a, b, c ::
      CompareWithTiebreak(hb, cmp, a, b) == Less && CompareWithTiebreak(hb, cmp, b, c) == Less ==>
        CompareWithTiebreak(hb, cmp, a, c) == Less
  }

  /** `c` is concurrent with both ends of `a` before `b`, but the fallback puts it after `b` and before `a`. */
  ghost predicate Inverts<T>(hb: Relation<T>, cmp: Comparison<T>, a: T, b: T, c: T) {
    && hb(a, b) && Concurrent(hb, a, c) && Concurrent(hb, b, c)
    && cmp(b, c) == Less && cmp(c, a) == Less
  }

  ghost predicate NoInversion<T(!new)>(hb: Relation<T>, cmp: Comparison<T>) {
    forall a, b, c :: !Inverts(hb, cmp, a, b, c)
  }

  /** The comparison is antisymmetric, and calls two times equal only if they are. */
  lemma Antisymmetric<T(!new)>(hb: Relation<T>, cmp: Comparison<T>, a: T, b: T)
    requires StrictPartialOrder(hb) && TotalOrder(cmp)
    ensures CompareWithTiebreak(hb, cmp, a, b) == Less <==> CompareWithTiebreak(hb, cmp, b, a) == Greater
    ensures CompareWithTiebreak(hb, cmp, a, b) == Equal <==> a == b
  {
    assert hb(a, b) && hb(b, a) ==> hb(a, a);
  }

  /** It is a strict total order exactly when no concurrent time is squeezed in backwards. */
  lemma TransitiveIffNoInversion<T(!new)>(hb: Relation<T>, cmp: Comparison<T>)
    requires StrictPartialOrder(hb) && TotalOrder(cmp)
    ensures Transitive(hb, cmp) <==> NoInversion(hb, cmp)
  {
    if Transitive(hb, cmp) {
      forall a, b, c
        ensures !Inverts(hb, cmp, a, b, c)
      {
        Antisymmetric(hb, cmp, a, b);
        assert CompareWithTiebreak(hb, cmp, b, c) == Less && CompareWithTiebreak(hb, cmp, c, a) == Less ==>
               CompareWithTiebreak(hb, cmp, b, a) == Less;
      }
    }
    if NoInversion(hb, cmp) {
      forall a, b, c | CompareWithTiebreak(hb, cmp, a, b) == Less && CompareWithTiebreak(hb, cmp, b, c) == Less
        ensures CompareWithTiebreak(hb, cmp, a, c) == Less
      {
        Antisymmetric(hb, cmp, a, b);
        Antisymmetric(hb, cmp, a, c);
        Antisymmetric(hb, cmp, b, c);
        assert !Inverts(hb, cmp, a, b, c) && !Inverts(hb, cmp, b, c, a) && !Inverts(hb, cmp, c, a, b);
      }
    }
  }

  /** A fallback order that agrees with causality leaves nothing to break a tie against. */
  lemma ExtendingFallback<T(!new)>(hb: Relation<T>, cmp: Comparison<T>)
    requires TotalOrder(cmp) && forall a, b :: hb(a, b) ==> cmp(a, b) == Less
    ensures forall a, b :: CompareWithTiebreak(hb, cmp, a, b) == cmp(a, b)
    ensures NoInversion(hb, cmp)
  {
    forall a, b
      ensures CompareWithTiebreak(hb, cmp, a, b) == cmp(a, b)
    {
      if hb(b, a) { assert cmp(b, a) == Less; }
    }
    forall a, b, c
      ensures !Inverts(hb, cmp, a, b, c)
    {
      assert cmp(b, c) == Less && cmp(c, a) == Less ==> cmp(b, a) == Less;
      assert hb(a, b) ==> cmp(a, b) == Less;
    }
  }

  // ---------- The times in use

  ghost predicate NoInversionAmong<T>(hb: Relation<T>, cmp: Comparison<T>, ts: set<T>) {
    forall a, b, c :: a in ts && b in ts && c in ts ==> !Inverts(hb, cmp, a, b, c)
  }

  /** The comparison with a tiebreak among the times in use, which are put before all others. */
  ghost function Among<T>(hb: Relation<T>, cmp: Comparison<T>, ts: set<T>): Comparison<T> {
    (a, b) =>
      if a in ts && b in ts then CompareWithTiebreak(hb, cmp, a, b)
      else if a in ts then Less
      else if b in ts then Greater
      else cmp(a, b)
  }

  lemma AmongStep<T(!new)>(hb: Relation<T>, cmp: Comparison<T>, ts: set<T>, a: T, b: T, c: T)
    requires StrictPartialOrder(hb) && TotalOrder(cmp) && NoInversionAmong(hb, cmp, ts)
    requires a in ts && b in ts && c in ts
    requires CompareWithTiebreak(hb, cmp, a, b) == Less && CompareWithTiebreak(hb, cmp, b, c) == Less
    ensures CompareWithTiebreak(hb, cmp, a, c) == Less
  {
    Antisymmetric(hb, cmp, a, b);
    Antisymmetric(hb, cmp, a, c);
    Antisymmetric(hb, cmp, b, c);
    assert !Inverts(hb, cmp, a, b, c) && !Inverts(hb, cmp, b, c, a) && !Inverts(hb, cmp, c, a, b);
  }

  /** Without inversions among the times in use, the comparison totally orders them. */
  lemma AmongIsOrder<T(!new)>(hb: Relation<T>, cmp: Comparison<T>, ts: set<T>)
    requires StrictPartialOrder(hb) && TotalOrder(cmp) && NoInversionAmong(hb, cmp, ts)
    ensures TotalOrder(Among(hb, cmp, ts))
  {
    var among := Among(hb, cmp, ts);
    forall a, b
      ensures among(a, b) == Equal <==> a == b
      ensures among(a, b) == Less <==> among(b, a) == Greater
    {
      Antisymmetric(hb, cmp, a, b);
    }
    forall a, b, c | among(a, b) == Less && among(b, c) == Less
      ensures among(a, c) == Less
    {
      if a in ts && b in ts && c in ts { AmongStep(hb, cmp, ts, a, b, c); }
    }
  }

  // ---------- Lamport timestamps

  datatype LamportTimestamp = LamportTimestamp(timestamp: nat, id: nat)

  predicate LamportHappensBefore(t1: LamportTimestamp, t2: LamportTimestamp) {
    t1.id == t2.id && t1.timestamp < t2.timestamp
  }

  function LamportCmp(t1: LamportTimestamp, t2: LamportTimestamp): Ordering {
    if t1.timestamp < t2.timestamp then Less
    else if t2.timestamp < t1.timestamp then Greater
    else if t1.id < t2.id then Less
    else if t1.id == t2.id then Equal
    else Greater
  }

  /** Over Lamport time the comparison with a tiebreak is the total order itself. */
  lemma LamportComparison()
    ensures StrictPartialOrder(LamportHappensBefore) && TotalOrder(LamportCmp)
    ensures forall a, b :: CompareWithTiebreak(LamportHappensBefore, LamportCmp, a, b) == LamportCmp(a, b)
    ensures Transitive(LamportHappensBefore, LamportCmp)
    ensures forall a, b :: LamportCmp(a, b) == Less <==>
      a.timestamp < b.timestamp || (a.timestamp == b.timestamp && a.id < b.id)
  {
    ExtendingFallback(LamportHappensBefore, LamportCmp);
    TransitiveIffNoInversion(LamportHappensBefore, LamportCmp);
  }
}

/** Happens-before on operations of an event graph. */
module CausalOrder {
  import opened Common
  import opened EventGraph
  import opened Ancestry
  import opened EcgState
  import opened Time

  /** An operation of a header, or of the initial state. */
  datatype OperationId = OperationId(headerId: Option<HeaderId>, position: Byte)

  /** A time as it is stored: an operation of the header being read, or of another header. */
  datatype CausalTime = Current(operationPosition: Byte) | At(time: OperationId)

  function ConcretizeTime(src: CausalTime, currentHeader: HeaderId): OperationId {
    match src
    case Current(position) => OperationId(Some(currentHeader), position)
    case At(t) => t
  }

  predicate HappensBefore(g: Graph, a: OperationId, b: OperationId) {
    if a.headerId == b.headerId then a.position < b.position
    else match (a.headerId, b.headerId)
      case (None, _) => true
      case (Some(_), None) => false
      case (Some(ah), Some(bh)) => Has(g, bh) && IsAncestor(g, ah, bh)
  }

  /** Between operations of different headers, it is ancestry. */
  lemma HappensBeforeIsAncestry(g: Graph, a: OperationId, b: OperationId)
    requires a.headerId.Some? && b.headerId.Some? && a.headerId != b.headerId
    ensures HappensBefore(g, a, b) <==> Reaches(g, a.headerId.value, b.headerId.value)
  {
    if Has(g, b.headerId.value) {
      IsAncestorIffReaches(g, a.headerId.value, b.headerId.value);
    } else if Reaches(g, a.headerId.value, b.headerId.value) {
      ReachEarlier(g, a.headerId.value, b.headerId.value);
    }
  }

  function Before(g: Graph): Relation<OperationId> {
    (a, b) => HappensBefore(g, a, b)
  }

  /** `Ord` as derived: first the header id, with `None` below every header, then the position. */
  function CompareIds(a: OperationId, b: OperationId): Ordering {
    var ka, kb := HeaderKey(a.headerId), HeaderKey(b.headerId);
    if ka < kb then Less
    else if ka > kb then Greater
    else if a.position < b.position then Less
    else if a.position == b.position then Equal
    else Greater
  }

  function HeaderKey(h: Option<HeaderId>): int {
    match h
    case None => -1
    case Some(id) => id
  }

  ghost predicate Known(g: Graph, t: OperationId) {
    t.headerId.Some? ==> Has(g, t.headerId.value)
  }

  /** The query as it is run: it has no answer only if a header id that must be looked up is unknown. */
  method QueryHappensBefore(st: EcgState, a: OperationId, b: OperationId) returns (r: Option<bool>)
    requires st.Valid()
    ensures Known(st.log, a) && Known(st.log, b) ==> r.Some?
    ensures r.Some? ==> (r.value <==> HappensBefore(st.log, a, b))
  {
    if a.headerId == b.headerId {
      r := Some(a.position < b.position);
    } else if a.headerId.Some? {
      if b.headerId.Some? {
        r := st.IsAncestorOf(a.headerId.value, b.headerId.value);
        HappensBeforeIsAncestry(st.log, a, b);
      } else {
        r := Some(false);
      }
    } else {
      r := Some(true);
    }
  }

  lemma HappensBeforeTransitive(g: Graph, a: OperationId, b: OperationId, c: OperationId)
    requires HappensBefore(g, a, b) && HappensBefore(g, b, c)
    ensures HappensBefore(g, a, c)
  {
    match (a.headerId, b.headerId, c.headerId)
    case (Some(x), Some(y), Some(z)) =>
      if x != y && y != z {
        HappensBeforeIsAncestry(g, a, b);
        HappensBeforeIsAncestry(g, b, c);
        if x != z { HappensBeforeIsAncestry(g, a, c); }
        ReachTrans(g, x, y, z);
        if x == z { Acyclic(g, x, y); }
      }
    case _ =>
  }

  /** In every graph, happens-before is a strict partial order. */
  lemma HappensBeforeIsOrder(g: Graph)
    ensures StrictPartialOrder(Before(g))
  {
    forall a, b, c | Before(g)(a, b) && Before(g)(b, c)
      ensures Before(g)(a, c)
    {
      HappensBeforeTransitive(g, a, b, c);
    }
  }

  lemma CompareIdsIsOrder()
    ensures TotalOrder(CompareIds)
    ensures forall a, b :: CompareIds(a, b) == Less <==>
      || (a.headerId.None? && b.headerId.Some?)
      || (a.headerId.Some? && b.headerId.Some? && a.headerId.value < b.headerId.value)
      || (a.headerId == b.headerId && a.position < b.position)
  {
    forall a, b
      ensures CompareIds(a, b) == Equal <==> a == b
    {
      if HeaderKey(a.headerId) == HeaderKey(b.headerId) {
        assert a.headerId == b.headerId;
      }
    }
  }

  /** What happened before a known operation never changes while the graph grows or is rebuilt in another order. */
  lemma HappensBeforeIsStable(g: Graph, g': Graph, a: OperationId, b: OperationId)
    requires Within(g, g') && Known(g, b)
    ensures HappensBefore(g, a, b) <==> HappensBefore(g', a, b)
  {
    if a.headerId.Some? && b.headerId.Some? && a.headerId != b.headerId {
      HappensBeforeIsAncestry(g, a, b);
      HappensBeforeIsAncestry(g', a, b);
      WithinReaches(g, g', a.headerId.value, b.headerId.value);
    }
  }

  /**
    The times of a new header: they are new, nothing known happened after them, and what happened before them is what
    came with the initial state or belongs to an ancestor of a parent.
   */
  lemma NewTimes(g: Graph, h: Header, position: Byte, t: OperationId)
    requires Accepts(g, h) && Known(g, t)
    ensures var g', now := Insert(g, h), ConcretizeTime(Current(position), h.id);
      && now != t && ConcretizeTime(At(t), h.id) == t
      && !HappensBefore(g', now, t)
      && (HappensBefore(g', t, now) <==>
            t.headerId.None? || exists p :: p in h.parents && Reaches(g, t.headerId.value, p))
  {
    hide IsAncestor;
    var g', now := Insert(g, h), ConcretizeTime(Current(position), h.id);
    if t.headerId.Some? {
      var x := t.headerId.value;
      ExtendsWithin(g, g');
      NewHeader(g, h);
      HappensBeforeIsAncestry(g', now, t);
      WithinReaches(g, g', h.id, x);
      if Reaches(g, h.id, x) { ReachEarlier(g, h.id, x); }
      HappensBeforeIsAncestry(g', t, now);
      if Reaches(g', x, h.id) {
        var q := ReachSplit(g', x, h.id);
        WithinReaches(g, g', x, q);
      }
      if p :| p in h.parents && Reaches(g, x, p) {
        WithinReaches(g, g', x, p);
        ReachParent(g', x, p, h.id);
      }
    }
  }

  lemma NewHeader(g: Graph, h: Header)
    requires Accepts(g, h)
    ensures Has(Insert(g, h), h.id) && Parents(Insert(g, h), h.id) == h.parents
  {
    var g' := Insert(g, h);
    assert g'[|g|].id == h.id;
  }
}
