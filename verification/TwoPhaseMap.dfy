/** The two-phase map: a key may be inserted once, updated, and deleted for good. */
module TwoPhaseMap {
  import opened Common
  import opened Convergence

  datatype TwoPMap<K, V> = TwoPMap(entries: map<K, V>, tombstones: set<K>)

  datatype Op<K, V, O> =
    | Insert(key: K, value: V)
    | Apply(key: K, operation: O)
    | Delete(key: K)

  /**
    Operations on a deleted key do nothing. `None` is the failure on inserting a key twice or updating a missing one.
   */
  function ApplyOp<K, V, O>(update: (V, O) -> V, m: TwoPMap<K, V>, op: Op<K, V, O>): Option<TwoPMap<K, V>> {
    if op.key in m.tombstones then Some(m)
    else match op
      case Insert(key, value) =>
        if key in m.entries then None else Some(m.(entries := m.entries[key := value]))
      case Apply(key, operation) =>
        if key in m.entries then Some(m.(entries := m.entries[key := update(m.entries[key], operation)])) else None
      case Delete(key) =>
        Some(TwoPMap(m.entries - {key}, m.tombstones + {key}))
  }

  function Then<K(==), V, O>(update: (V, O) -> V, m: Option<TwoPMap<K, V>>, op: Op<K, V, O>): Option<TwoPMap<K, V>> {
    if m.None? then None else ApplyOp(update, m.value, op)
  }

  /** An operation as delivered: header and position make equal operations of different headers different events. */
  datatype Event<K, V, O> = Event(id: (nat, nat), op: Op<K, V, O>)

  ghost function Step<K, V, O>(update: (V, O) -> V): (Option<TwoPMap<K, V>>, Event<K, V, O>) -> Option<TwoPMap<K, V>> {
    (m: Option<TwoPMap<K, V>>, e: Event<K, V, O>) => Then(update, m, e.op)
  }

  ghost predicate Disjoint<K, V>(m: TwoPMap<K, V>) {
    m.entries.Keys !! m.tombstones
  }

  /** Whatever is applied, live keys and tombstones stay disjoint and tombstones stay: a deleted key never returns. */
  lemma {:induction false} DeletedStaysDeleted<K(!new), V(!new), O(!new)>(update: (V, O) -> V,
      m: TwoPMap<K, V>, es: seq<Event<K, V, O>>)
    requires Disjoint(m)
    ensures var r := Fold(Step(update), Some(m), es);
      r.Some? ==> Disjoint(r.value) && m.tombstones <= r.value.tombstones && m.tombstones !! r.value.entries.Keys
    decreases |es|
  {
    if es != [] {
      var r := ApplyOp(update, m, es[0].op);
      if r.None? {
        FailureStays(update, es[1..]);
      } else {
        DeletedStaysDeleted(update, r.value, es[1..]);
      }
    }
  }

  lemma {:induction false} FailureStays<K, V, O>(update: (V, O) -> V, es: seq<Event<K, V, O>>)
    ensures Fold(Step<K, V, O>(update), None, es) == None
    decreases |es|
  {
    if es != [] { FailureStays(update, es[1..]); }
  }

  // ---------- Causally valid histories

  /** Keys are inserted once, and an update of a key follows its insertion. */
  ghost predicate ValidHistory<K, V, O>(before: (Event<K, V, O>, Event<K, V, O>) -> bool, m: TwoPMap<K, V>,
                                        es: set<Event<K, V, O>>)
  {
    && Disjoint(m)
    && (forall e :: e in es && e.op.Insert? ==> e.op.key !in m.entries)
    && (forall e, f :: e in es && f in es && e != f && e.op.Insert? && f.op.Insert? ==> e.op.key != f.op.key)
    && (forall e :: e in es && e.op.Apply? ==>
          || e.op.key in m.entries || e.op.key in m.tombstones
          || exists i :: i in es && i.op.Insert? && i.op.key == e.op.key && before(i, e))
  }

  /** The updates of one key among the events. */
  ghost function Updates<K, V, O>(es: set<Event<K, V, O>>, k: K): set<Event<K, V, O>> {
    set e | e in es && e.op.Apply? && e.op.key == k
  }

  ghost function UpdateStep<K, V, O>(update: (V, O) -> V): (V, Event<K, V, O>) -> V {
    (v: V, e: Event<K, V, O>) => if e.op.Apply? then update(v, e.op.operation) else v
  }

  /**
    The values are a CRDT of their own: `vinv` says which values may occur while a set of updates of their key is still
    to come, and updates that may both come next commute on such values.
   */
  ghost predicate Lawful<K(!new), V(!new), O(!new)>(update: (V, O) -> V, vinv: (V, set<Event<K, V, O>>) -> bool,
      before: (Event<K, V, O>, Event<K, V, O>) -> bool)
  {
    Preserved(UpdateStep(update), vinv, before) && Commutes(UpdateStep(update), vinv, before)
  }

  /** Every live value, and every value still to be inserted, may meet the updates of its key that are to come. */
  ghost predicate ValidValues<K, V, O>(vinv: (V, set<Event<K, V, O>>) -> bool, m: TwoPMap<K, V>,
                                       es: set<Event<K, V, O>>)
  {
    && (forall k :: k in m.entries ==> vinv(m.entries[k], Updates(es, k)))
    && (forall i :: i in es && i.op.Insert? && i.op.key !in m.tombstones ==> vinv(i.op.value, Updates(es, i.op.key)))
  }

  ghost function Inv<K, V, O>(before: (Event<K, V, O>, Event<K, V, O>) -> bool,
                              vinv: (V, set<Event<K, V, O>>) -> bool)
    : (Option<TwoPMap<K, V>>, set<Event<K, V, O>>) -> bool
  {
    (m: Option<TwoPMap<K, V>>, es: set<Event<K, V, O>>) =>
      m.Some? && ValidHistory(before, m.value, es) && ValidValues(vinv, m.value, es)
  }

  lemma UpdatesShrink<K, V, O>(es: set<Event<K, V, O>>, e: Event<K, V, O>, k: K)
    ensures Updates(es - {e}, k) == if e.op.Apply? && e.op.key == k then Updates(es, k) - {e} else Updates(es, k)
  {
  }

  lemma ValuesStayValid<K(!new), V(!new), O(!new)>(update: (V, O) -> V, vinv: (V, set<Event<K, V, O>>) -> bool,
      before: (Event<K, V, O>, Event<K, V, O>) -> bool, m: TwoPMap<K, V>, es: set<Event<K, V, O>>, e: Event<K, V, O>)
    requires ValidHistory(before, m, es) && ValidValues(vinv, m, es) && Enabled(before, es, e)
    requires Lawful(update, vinv, before)
    ensures var r := ApplyOp(update, m, e.op); r.Some? && ValidValues(vinv, r.value, es - {e})
  {
    StepPreserves(update, before, m, es, e);
    var m' := ApplyOp(update, m, e.op).value;
    forall k | k in m'.entries
      ensures vinv(m'.entries[k], Updates(es - {e}, k))
    {
      UpdatesShrink(es, e, k);
      if e.op.Apply? && e.op.key == k {
        assert k !in m.tombstones && k in m.entries;
        assert Enabled(before, Updates(es, k), e);
        assert UpdateStep<K, V, O>(update)(m.entries[k], e) == m'.entries[k];
      }
    }
    forall i | i in es - {e} && i.op.Insert? && i.op.key !in m'.tombstones
      ensures vinv(i.op.value, Updates(es - {e}, i.op.key))
    {
      UpdatesShrink(es, e, i.op.key);
      InsertedFirst(before, m, es, e, i);
    }
  }

  /** While a key is still to be inserted, none of its updates can come. */
  lemma InsertedFirst<K(!new), V(!new), O(!new)>(before: (Event<K, V, O>, Event<K, V, O>) -> bool, m: TwoPMap<K, V>,
      es: set<Event<K, V, O>>, e: Event<K, V, O>, i: Event<K, V, O>)
    requires ValidHistory(before, m, es) && Enabled(before, es, e)
    requires i in es && i.op.Insert? && i.op.key !in m.tombstones
    ensures !(e.op.Apply? && e.op.key == i.op.key)
  {
    assert forall j :: j in es && j.op.Insert? && j.op.key == i.op.key ==> j == i;
    assert i != e ==> !before(i, e);
  }

  lemma StepPreserves<K(!new), V(!new), O(!new)>(update: (V, O) -> V,
      before: (Event<K, V, O>, Event<K, V, O>) -> bool, m: TwoPMap<K, V>, es: set<Event<K, V, O>>, e: Event<K, V, O>)
    requires ValidHistory(before, m, es) && Enabled(before, es, e)
    ensures var r := ApplyOp(update, m, e.op); r.Some? && ValidHistory(before, r.value, es - {e})
  {
    var r := ApplyOp(update, m, e.op);
    assert r.Some?;
    var m' := r.value;
    forall f | f in es - {e} && f.op.Apply?
      ensures f.op.key in m'.entries || f.op.key in m'.tombstones
           || exists i :: i in es - {e} && i.op.Insert? && i.op.key == f.op.key && before(i, f)
    {
      if f.op.key !in m.entries && f.op.key !in m.tombstones {
        var i :| i in es && i.op.Insert? && i.op.key == f.op.key && before(i, f);
        assert i == e || i in es - {e};
      }
    }
  }

  /** What makes an operation on a live key applicable. */
  ghost predicate Applicable<K, V, O>(m: TwoPMap<K, V>, op: Op<K, V, O>) {
    op.key in m.tombstones || match op
      case Insert(key, _) => key !in m.entries
      case Apply(key, _) => key in m.entries
      case Delete(_) => true
  }

  lemma OtherKeysCommute<K, V, O>(update: (V, O) -> V, m: TwoPMap<K, V>, a: Op<K, V, O>, b: Op<K, V, O>)
    requires Applicable(m, a) && Applicable(m, b) && a.key != b.key
    ensures Then(update, ApplyOp(update, m, a), b) == Then(update, ApplyOp(update, m, b), a)
  {
    var ab, ba := Then(update, ApplyOp(update, m, a), b).value, Then(update, ApplyOp(update, m, b), a).value;
    assert ab.tombstones == ba.tombstones;
    assert ab.entries == ba.entries;
  }

  lemma OneKeyCommutes<K, V, O>(update: (V, O) -> V, m: TwoPMap<K, V>, a: Op<K, V, O>, b: Op<K, V, O>)
    requires Applicable(m, a) && Applicable(m, b) && a.key == b.key
    requires a.key !in m.tombstones ==> !(a.Insert? && b.Insert?)
    requires a.Apply? && b.Apply? && a.key in m.entries ==>
      update(update(m.entries[a.key], a.operation), b.operation)
      == update(update(m.entries[a.key], b.operation), a.operation)
    ensures Then(update, ApplyOp(update, m, a), b) == Then(update, ApplyOp(update, m, b), a)
  {
    if a.key !in m.tombstones {
      var ab, ba := Then(update, ApplyOp(update, m, a), b).value, Then(update, ApplyOp(update, m, b), a).value;
      assert ab.entries == ba.entries;
    }
  }

  lemma StepsCommute<K(!new), V(!new), O(!new)>(update: (V, O) -> V, vinv: (V, set<Event<K, V, O>>) -> bool,
      before: (Event<K, V, O>, Event<K, V, O>) -> bool, m: TwoPMap<K, V>, es: set<Event<K, V, O>>,
      e: Event<K, V, O>, f: Event<K, V, O>)
    requires ValidHistory(before, m, es) && ValidValues(vinv, m, es) && Lawful(update, vinv, before)
    requires Enabled(before, es, e) && Enabled(before, es, f) && e != f
    ensures Then(update, ApplyOp(update, m, e.op), f.op) == Then(update, ApplyOp(update, m, f.op), e.op)
  {
    StepPreserves(update, before, m, es, e);
    StepPreserves(update, before, m, es, f);
    assert !before(e, f) && !before(f, e);
    if e.op.key == f.op.key {
      if e.op.Apply? && f.op.Apply? && e.op.key in m.entries {
        var k := e.op.key;
        var step := UpdateStep<K, V, O>(update);
        assert Enabled(before, Updates(es, k), e) && Enabled(before, Updates(es, k), f);
        assert step(step(m.entries[k], e), f) == step(step(m.entries[k], f), e);
      }
      OneKeyCommutes(update, m, e.op, f.op);
    } else {
      OtherKeysCommute(update, m, e.op, f.op);
    }
  }

  /**
    Any two causally valid orders of the same insertions, updates and deletions succeed and give the same map, if the
    values converge under their own updates.
   */
  lemma TwoPhaseMapConvergence<K(!new), V(!new), O(!new)>(update: (V, O) -> V,
      vinv: (V, set<Event<K, V, O>>) -> bool, before: (Event<K, V, O>, Event<K, V, O>) -> bool, m: TwoPMap<K, V>,
      p: seq<Event<K, V, O>>, q: seq<Event<K, V, O>>)
    requires ValidHistory(before, m, Elems(p)) && ValidValues(vinv, m, Elems(p)) && Lawful(update, vinv, before)
    requires Distinct(p) && Distinct(q) && Elems(p) == Elems(q)
    requires Respects(before, p) && Respects(before, q)
    ensures Fold(Step(update), Some(m), p) == Fold(Step(update), Some(m), q)
    ensures Fold(Step(update), Some(m), p).Some?
  {
    var step, inv := Step<K, V, O>(update), Inv(before, vinv);
    forall s, es, e | inv(s, es) && Enabled(before, es, e)
      ensures inv(step(s, e), es - {e})
    {
      StepPreserves(update, before, s.value, es, e);
      ValuesStayValid(update, vinv, before, s.value, es, e);
    }
    forall s, es, e, f | inv(s, es) && Enabled(before, es, e) && Enabled(before, es, f) && e != f
      ensures step(step(s, e), f) == step(step(s, f), e)
    {
      StepsCommute(update, vinv, before, s.value, es, e, f);
    }
    Converges(step, inv, before, Some(m), p, q);
  }

  // ---------- Updates that commute on every value

  /** Concurrent updates of one key in the history commute as updates of any value. */
  ghost predicate UpdatesCommute<K(!new), V(!new), O(!new)>(update: (V, O) -> V,
      before: (Event<K, V, O>, Event<K, V, O>) -> bool, es: set<Event<K, V, O>>)
  {
    forall e, f, v ::
      e in es && f in es && e.op.Apply? && f.op.Apply? && e.op.key == f.op.key && !before(e, f) && !before(f, e) ==>
        update(update(v, e.op.operation), f.op.operation) == update(update(v, f.op.operation), e.op.operation)
  }

  /** Updates of one key from the history. */
  ghost function OfOneKey<K, V, O>(es: set<Event<K, V, O>>): (V, set<Event<K, V, O>>) -> bool {
    (v: V, us: set<Event<K, V, O>>) =>
      us <= es && forall e, f :: e in us && f in us ==> e.op.Apply? && f.op.Apply? && e.op.key == f.op.key
  }

  lemma CommutingUpdatesConverge<K(!new), V(!new), O(!new)>(update: (V, O) -> V,
      before: (Event<K, V, O>, Event<K, V, O>) -> bool, m: TwoPMap<K, V>,
      p: seq<Event<K, V, O>>, q: seq<Event<K, V, O>>)
    requires ValidHistory(before, m, Elems(p)) && UpdatesCommute(update, before, Elems(p))
    requires Distinct(p) && Distinct(q) && Elems(p) == Elems(q)
    requires Respects(before, p) && Respects(before, q)
    ensures Fold(Step(update), Some(m), p) == Fold(Step(update), Some(m), q)
    ensures Fold(Step(update), Some(m), p).Some?
  {
    var vinv := OfOneKey<K, V, O>(Elems(p));
    TwoPhaseMapConvergence(update, vinv, before, m, p, q);
  }

  // ---------- The value of a key

  /** An operation fails exactly if it inserts a key that is there or updates one that is not, and was not deleted. */
  lemma FailsIff<K, V, O>(update: (V, O) -> V, m: TwoPMap<K, V>, op: Op<K, V, O>)
    ensures ApplyOp(update, m, op).None? <==>
      && op.key !in m.tombstones
      && ((op.Insert? && op.key in m.entries) || (op.Apply? && op.key !in m.entries))
  {
  }

  /** The operations of a key that update it, in order. */
  function UpdatesOf<K(==), V, O>(es: seq<Event<K, V, O>>, k: K): seq<O> {
    if es == [] then []
    else (if es[0].op.Apply? && es[0].op.key == k then [es[0].op.operation] else []) + UpdatesOf(es[1..], k)
  }

  ghost predicate DeletedIn<K, V, O>(es: seq<Event<K, V, O>>, k: K) {
    exists e :: e in es && e.op.Delete? && e.op.key == k
  }

  ghost predicate InsertedIn<K, V, O>(es: seq<Event<K, V, O>>, k: K) {
    exists e :: e in es && e.op.Insert? && e.op.key == k
  }

  lemma {:induction false} GoneKey<K(!new), V(!new), O(!new)>(update: (V, O) -> V, m: TwoPMap<K, V>,
                                                              es: seq<Event<K, V, O>>, k: K)
    requires Disjoint(m) && k in m.tombstones && Fold(Step(update), Some(m), es).Some?
    ensures var m' := Fold(Step(update), Some(m), es).value; k in m'.tombstones && k !in m'.entries
  {
    DeletedStaysDeleted(update, m, es);
  }

  /** A live key stays until it is deleted, and then holds its value with all later updates applied in order. */
  lemma {:induction false} LiveKey<K(!new), V(!new), O(!new)>(update: (V, O) -> V, m: TwoPMap<K, V>,
                                                              es: seq<Event<K, V, O>>, k: K)
    requires Disjoint(m) && k in m.entries && Fold(Step(update), Some(m), es).Some?
    ensures var m' := Fold(Step(update), Some(m), es).value;
      if DeletedIn(es, k) then k in m'.tombstones && k !in m'.entries
      else k in m'.entries && m'.entries[k] == Fold(update, m.entries[k], UpdatesOf(es, k))
    decreases |es|
  {
    if es != [] {
      var e := es[0];
      var r := ApplyOp(update, m, e.op);
      if r.None? {
        FailureStays(update, es[1..]);
      } else if e.op.Delete? && e.op.key == k {
        assert e in es;
        GoneKey(update, r.value, es[1..], k);
      } else {
        LiveKey(update, r.value, es[1..], k);
        assert forall x :: x in es <==> x == e || x in es[1..];
        if e.op.Apply? && e.op.key == k {
          assert UpdatesOf(es, k)[1..] == UpdatesOf(es[1..], k);
        } else {
          assert [] + UpdatesOf(es[1..], k) == UpdatesOf(es[1..], k);
        }
      }
    }
  }

  /** A key gets among the tombstones only by a deletion. */
  lemma {:induction false} NotDeleted<K(!new), V(!new), O(!new)>(update: (V, O) -> V, m: TwoPMap<K, V>,
                                                                     es: seq<Event<K, V, O>>, k: K)
    requires Disjoint(m) && k !in m.tombstones && Fold(Step(update), Some(m), es).Some? && !DeletedIn(es, k)
    ensures k !in Fold(Step(update), Some(m), es).value.tombstones
    decreases |es|
  {
    if es != [] {
      assert forall x :: x in es <==> x == es[0] || x in es[1..];
      var r := ApplyOp(update, m, es[0].op);
      if r.None? {
        FailureStays(update, es[1..]);
      } else {
        NotDeleted(update, r.value, es[1..], k);
      }
    }
  }

  /**
    A key that was not there: in a run that does not fail it is there at the end exactly if it was inserted and not
    deleted, and then its value is the inserted one with all updates of the key applied in order.
   */
  lemma {:induction false} NewKey<K(!new), V(!new), O(!new)>(update: (V, O) -> V, m: TwoPMap<K, V>,
                                                             es: seq<Event<K, V, O>>, k: K)
    requires Disjoint(m) && k !in m.entries && k !in m.tombstones && Fold(Step(update), Some(m), es).Some?
    ensures var m' := Fold(Step(update), Some(m), es).value;
      && (k in m'.tombstones <==> DeletedIn(es, k))
      && (k in m'.entries <==> InsertedIn(es, k) && !DeletedIn(es, k))
      && (k in m'.entries ==> exists e ::
            e in es && e.op.Insert? && e.op.key == k && m'.entries[k] == Fold(update, e.op.value, UpdatesOf(es, k)))
    decreases |es|
  {
    if es != [] {
      var e := es[0];
      assert forall x :: x in es <==> x == e || x in es[1..];
      var r := ApplyOp(update, m, e.op);
      if r.None? {
        FailureStays(update, es[1..]);
      } else if e.op.key != k {
        NewKey(update, r.value, es[1..], k);
        assert [] + UpdatesOf(es[1..], k) == UpdatesOf(es[1..], k);
      } else if e.op.Delete? {
        GoneKey(update, r.value, es[1..], k);
      } else {
        LiveKey(update, r.value, es[1..], k);
        assert [] + UpdatesOf(es[1..], k) == UpdatesOf(es[1..], k);
        if !DeletedIn(es[1..], k) { NotDeleted(update, r.value, es[1..], k); }
      }
    }
  }

  // ---------- One key at a time

  datatype Entry<V> = Absent | Live(value: V) | Deleted

  function Lookup<K, V>(m: TwoPMap<K, V>, k: K): Entry<V> {
    if k in m.tombstones then Deleted else if k in m.entries then Live(m.entries[k]) else Absent
  }

  /** The history of a single key: absent, then one value and its updates, then deleted for good. */
  function EntryAfter<K(==), V, O>(update: (V, O) -> V, entry: Entry<V>, es: seq<Event<K, V, O>>, k: K): Entry<V>
    decreases |es|
  {
    if es == [] then entry
    else
      var rest := es[1..];
      if es[0].op.key != k then EntryAfter(update, entry, rest, k)
      else match (entry, es[0].op)
        case (Absent, Insert(_, v)) => EntryAfter(update, Live(v), rest, k)
        case (Live(v), Apply(_, o)) => EntryAfter(update, Live(update(v, o)), rest, k)
        case (_, Delete(_)) => EntryAfter(update, Deleted, rest, k)
        case (_, _) => EntryAfter(update, entry, rest, k)
  }

  /** A run that does not fail treats every key by itself. */
  lemma {:induction false} KeysAreIndependent<K(!new), V(!new), O(!new)>(update: (V, O) -> V, m: TwoPMap<K, V>,
      es: seq<Event<K, V, O>>, k: K)
    requires Disjoint(m) && Fold(Step(update), Some(m), es).Some?
    ensures Lookup(Fold(Step(update), Some(m), es).value, k) == EntryAfter(update, Lookup(m, k), es, k)
    decreases |es|
  {
    if es != [] {
      var r := ApplyOp(update, m, es[0].op);
      if r.None? {
        FailureStays(update, es[1..]);
      } else {
        KeysAreIndependent(update, r.value, es[1..], k);
      }
    }
  }
}
