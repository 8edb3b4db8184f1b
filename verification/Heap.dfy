/** A priority queue as the sequence of its entries in the order in which they are popped. */
module Heap {

  /** Inserts `x` before the first entry it may precede. */
  function Push<T>(before: (T, T) -> bool, q: seq<T>, x: T): seq<T> {
    if q == [] || before(x, q[0]) then [x] + q else [q[0]] + Push(before, q[1..], x)
  }

  function PushAll<T>(before: (T, T) -> bool, q: seq<T>, xs: seq<T>): seq<T>
    decreases |xs|
  {
    if xs == [] then q else PushAll(before, Push(before, q, xs[0]), xs[1..])
  }

  ghost predicate TotalOrder<T(!new)>(before: (T, T) -> bool) {
    && (forall a, b :: before(a, b) || before(b, a))
    && (forall a, b, c :: before(a, b) && before(b, c) ==> before(a, c))
  }

  ghost predicate Sorted<T>(before: (T, T) -> bool, q: seq<T>) {
    forall i, j :: 0 <= i < j < |q| ==> before(q[i], q[j])
  }

  lemma {:induction false} PushMembers<T>(before: (T, T) -> bool, q: seq<T>, x: T)
    ensures forall y :: y in Push(before, q, x) <==> y == x || y in q
  {
    if q != [] && !before(x, q[0]) {
      PushMembers(before, q[1..], x);
      assert forall y :: y in q <==> y == q[0] || y in q[1..];
    }
  }

  lemma {:induction false} PushAllMembers<T>(before: (T, T) -> bool, q: seq<T>, xs: seq<T>)
    ensures forall y :: y in PushAll(before, q, xs) <==> y in q || y in xs
    decreases |xs|
  {
    if xs != [] {
      PushMembers(before, q, xs[0]);
      PushAllMembers(before, Push(before, q, xs[0]), xs[1..]);
      assert forall y :: y in xs <==> y == xs[0] || y in xs[1..];
    }
  }

  lemma {:induction false} PushSorted<T(!new)>(before: (T, T) -> bool, q: seq<T>, x: T)
    requires TotalOrder(before) && Sorted(before, q)
    ensures Sorted(before, Push(before, q, x))
  {
    if q != [] && !before(x, q[0]) {
      PushSorted(before, q[1..], x);
      PushMembers(before, q[1..], x);
      var tail := Push(before, q[1..], x);
      forall j | 0 <= j < |tail|
        ensures before(q[0], tail[j])
      {
        assert tail[j] in tail;
      }
    }
  }

  lemma {:induction false} PushAllSorted<T(!new)>(before: (T, T) -> bool, q: seq<T>, xs: seq<T>)
    requires TotalOrder(before) && Sorted(before, q)
    ensures Sorted(before, PushAll(before, q, xs))
    decreases |xs|
  {
    if xs != [] {
      PushSorted(before, q, xs[0]);
      PushAllSorted(before, Push(before, q, xs[0]), xs[1..]);
    }
  }

  // ---------- The order of pushes

  ghost predicate StrictAmong<T(!new)>(before: (T, T) -> bool) {
    TotalOrder(before) && forall a, b :: before(a, b) && before(b, a) ==> a == b
  }

  lemma {:induction false} PushesCommute<T(!new)>(before: (T, T) -> bool, q: seq<T>, x: T, y: T)
    requires StrictAmong(before)
    ensures Push(before, Push(before, q, x), y) == Push(before, Push(before, q, y), x)
  {
    if q == [] {
      assert [x][1..] == [] && [y][1..] == [];
      assert [x] + q == [x] && [y] + q == [y];
    } else {
      assert ([x] + q)[1..] == q && ([y] + q)[1..] == q;
      PushesCommute(before, q[1..], x, y);
      var px, py := Push(before, q[1..], x), Push(before, q[1..], y);
      assert ([q[0]] + px)[1..] == px && ([q[0]] + py)[1..] == py;
    }
  }

  lemma {:induction false} PushEarlier<T(!new)>(before: (T, T) -> bool, q: seq<T>, xs: seq<T>, i: nat)
    requires StrictAmong(before) && i < |xs|
    ensures PushAll(before, q, xs) == PushAll(before, Push(before, q, xs[i]), xs[..i] + xs[i + 1..])
    decreases i
  {
    if i == 0 {
      assert xs[..0] + xs[1..] == xs[1..];
    } else {
      var q', rest := Push(before, q, xs[0]), xs[..i] + xs[i + 1..];
      PushEarlier(before, q', xs[1..], i - 1);
      assert xs[1..][..i - 1] + xs[1..][i..] == rest[1..];
      PushesCommute(before, q, xs[0], xs[i]);
    }
  }

  lemma MultisetWithout<T>(xs: seq<T>, i: nat)
    requires i < |xs|
    ensures multiset(xs) == multiset(xs[..i] + xs[i + 1..]) + multiset{xs[i]}
  {
    assert xs == xs[..i] + ([xs[i]] + xs[i + 1..]);
    assert multiset(xs) == multiset(xs[..i]) + (multiset{xs[i]} + multiset(xs[i + 1..]));
    assert multiset(xs[..i] + xs[i + 1..]) == multiset(xs[..i]) + multiset(xs[i + 1..]);
  }

  lemma SameWithout<T>(xs: seq<T>, ys: seq<T>, i: nat, j: nat)
    requires multiset(xs) == multiset(ys) && i < |xs| && j < |ys| && xs[i] == ys[j]
    ensures multiset(xs[..i] + xs[i + 1..]) == multiset(ys[..j] + ys[j + 1..])
  {
    MultisetWithout(xs, i);
    MultisetWithout(ys, j);
    var a, b := multiset(xs[..i] + xs[i + 1..]), multiset(ys[..j] + ys[j + 1..]);
    assert a == a + multiset{xs[i]} - multiset{xs[i]};
    assert b == b + multiset{xs[i]} - multiset{xs[i]};
  }

  /** The order in which entries are pushed makes no difference. */
  lemma {:induction false} PushAllAnyOrder<T(!new)>(before: (T, T) -> bool, q: seq<T>, xs: seq<T>, ys: seq<T>)
    requires StrictAmong(before) && multiset(xs) == multiset(ys)
    ensures PushAll(before, q, xs) == PushAll(before, q, ys)
    decreases |xs|
  {
    if xs == [] {
      assert |ys| == |multiset(ys)|;
    } else {
      assert xs[0] in multiset(ys);
      var i :| 0 <= i < |ys| && ys[i] == xs[0];
      PushEarlier(before, q, ys, i);
      SameWithout(xs, ys, 0, i);
      assert xs[..0] + xs[1..] == xs[1..];
      PushAllAnyOrder(before, Push(before, q, xs[0]), xs[1..], ys[..i] + ys[i + 1..]);
    }
  }

  function Map<A, B>(f: A -> B, xs: seq<A>): seq<B> {
    seq(|xs|, i requires 0 <= i < |xs| => f(xs[i]))
  }

  lemma MapWithout<A, B>(f: A -> B, xs: seq<A>, i: nat)
    requires i < |xs|
    ensures Map(f, xs)[..i] + Map(f, xs)[i + 1..] == Map(f, xs[..i] + xs[i + 1..])
    ensures multiset(Map(f, xs)) == multiset(Map(f, xs[..i] + xs[i + 1..])) + multiset{f(xs[i])}
  {
    MultisetWithout(Map(f, xs), i);
    assert Map(f, xs)[..i] + Map(f, xs)[i + 1..] == Map(f, xs[..i] + xs[i + 1..]);
  }

  lemma {:induction false} MapAnyOrder<A, B>(f: A -> B, xs: seq<A>, ys: seq<A>)
    requires multiset(xs) == multiset(ys)
    ensures multiset(Map(f, xs)) == multiset(Map(f, ys))
    decreases |xs|
  {
    hide Map;
    if xs == [] {
      assert |ys| == |multiset(ys)|;
    } else {
      assert xs[0] in multiset(ys);
      var i :| 0 <= i < |ys| && ys[i] == xs[0];
      SameWithout(xs, ys, 0, i);
      MapAnyOrder(f, xs[..0] + xs[1..], ys[..i] + ys[i + 1..]);
      MapWithout(f, xs, 0);
      MapWithout(f, ys, i);
    }
  }

  // ---------- The summed weight of the entries

  ghost function Weight<T>(w: T -> nat, q: seq<T>): nat {
    if q == [] then 0 else w(q[0]) + Weight(w, q[1..])
  }

  lemma WeightOfCons<T>(w: T -> nat, x: T, xs: seq<T>)
    ensures Weight(w, [x] + xs) == w(x) + Weight(w, xs)
  {
    assert ([x] + xs)[1..] == xs;
  }

  lemma {:induction false} WeightOfPush<T>(before: (T, T) -> bool, w: T -> nat, q: seq<T>, x: T)
    ensures Weight(w, Push(before, q, x)) == Weight(w, q) + w(x)
  {
    if q != [] && !before(x, q[0]) {
      WeightOfPush(before, w, q[1..], x);
      var q' := Push(before, q, x);
      assert q'[1..] == Push(before, q[1..], x);
    } else {
      assert ([x] + q)[1..] == q;
    }
  }

  lemma {:induction false} WeightOfPushAll<T>(before: (T, T) -> bool, w: T -> nat, q: seq<T>, xs: seq<T>)
    ensures Weight(w, PushAll(before, q, xs)) == Weight(w, q) + Weight(w, xs)
    decreases |xs|
  {
    if xs != [] {
      WeightOfPush(before, w, q, xs[0]);
      WeightOfPushAll(before, w, Push(before, q, xs[0]), xs[1..]);
    }
  }

  lemma {:induction false} WeightOfConcat<T>(w: T -> nat, a: seq<T>, b: seq<T>)
    ensures Weight(w, a + b) == Weight(w, a) + Weight(w, b)
  {
    if a == [] {
      assert a + b == b;
    } else {
      assert (a + b)[1..] == a[1..] + b;
      WeightOfConcat(w, a[1..], b);
    }
  }

  lemma WeightOfWithout<T>(w: T -> nat, xs: seq<T>, i: nat)
    requires i < |xs|
    ensures Weight(w, xs) == Weight(w, xs[..i] + xs[i + 1..]) + w(xs[i])
  {
    hide Weight;
    var tail := [xs[i]] + xs[i + 1..];
    assert xs == xs[..i] + tail;
    WeightOfConcat(w, xs[..i], tail);
    WeightOfCons(w, xs[i], xs[i + 1..]);
    WeightOfConcat(w, xs[..i], xs[i + 1..]);
  }

  lemma {:induction false} WeightAnyOrder<T>(w: T -> nat, xs: seq<T>, ys: seq<T>)
    requires multiset(xs) == multiset(ys)
    ensures Weight(w, xs) == Weight(w, ys)
    decreases |xs|
  {
    hide Weight;
    if xs == [] {
      assert |ys| == |multiset(ys)|;
      assert ys == xs;
    } else {
      assert xs[0] in multiset(ys);
      var i :| 0 <= i < |ys| && ys[i] == xs[0];
      SameWithout(xs, ys, 0, i);
      WeightOfWithout(w, xs, 0);
      WeightOfWithout(w, ys, i);
      WeightAnyOrder(w, xs[..0] + xs[1..], ys[..i] + ys[i + 1..]);
    }
  }
}
