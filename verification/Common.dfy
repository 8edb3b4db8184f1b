/** Stock datatypes shared by the model. */
module Common {

  datatype Option<+T> = None | Some(value: T)

  datatype Ordering = Less | Equal | Greater

  /** One byte of a buffer. */
  type Byte = b: int | 0 <= b < 256

  ghost function Elems<T>(s: seq<T>): set<T> {
    set x | x in s
  }

  ghost predicate Distinct<T>(s: seq<T>) {
    forall i, j :: 0 <= i < j < |s| ==> s[i] != s[j]
  }

  function Min(a: nat, b: nat): nat {
    if a <= b then a else b
  }

  /** A sequence without repetitions has as many elements as its element set. */
  lemma {:induction false} DistinctSize<T>(s: seq<T>)
    requires Distinct(s)
    ensures |Elems(s)| == |s|
  {
    if s != [] {
      var n := |s| - 1;
      DistinctSize(s[..n]);
      assert s == s[..n] + [s[n]];
      assert Elems(s) == Elems(s[..n]) + {s[n]};
      assert s[n] !in Elems(s[..n]);
    }
  }

  // ---------- Iterating over a sorted set

  predicate IsLeast(m: nat, s: set<nat>) {
    m in s && forall x :: x in s ==> m <= x
  }

  /** The numbers of a set in ascending order, as a sorted set is iterated. */
  function Ascending(s: set<nat>): seq<nat> {
    if s == {} then []
    else
      LeastIsUnique(s);
      var m :| IsLeast(m, s);
      [m] + Ascending(s - {m})
  }

  lemma {:induction false} LeastExists(s: set<nat>) returns (m: nat)
    requires s != {}
    ensures IsLeast(m, s)
  {
    var y :| y in s;
    m := y;
    var rest := s - {y};
    if rest != {} {
      var l := LeastExists(rest);
      if l < y { m := l; }
    }
    forall x | x in s
      ensures m <= x
    {
      assert x == y || x in rest;
    }
  }

  lemma LeastIsUnique(s: set<nat>)
    requires s != {}
    ensures exists m :: IsLeast(m, s)
    ensures forall m, m' :: IsLeast(m, s) && IsLeast(m', s) ==> m == m'
  {
    var _ := LeastExists(s);
  }

  lemma {:induction false} AscendingMembers(s: set<nat>)
    ensures forall x :: x in Ascending(s) <==> x in s
  {
    if s != {} {
      LeastIsUnique(s);
      var m :| IsLeast(m, s);
      assert m in s;
      AscendingMembers(s - {m});
    }
  }

  lemma {:induction false} AscendingOnce(s: set<nat>)
    ensures multiset(Ascending(s)) == multiset(s)
  {
    if s != {} {
      LeastIsUnique(s);
      var m :| IsLeast(m, s);
      AscendingOnce(s - {m});
      assert multiset(s) == multiset(s - {m}) + multiset{m};
    }
  }

  lemma {:induction false} AscendingDistinct(s: set<nat>)
    ensures Distinct(Ascending(s))
  {
    if s != {} {
      LeastIsUnique(s);
      var m :| IsLeast(m, s);
      AscendingDistinct(s - {m});
      AscendingMembers(s - {m});
    }
  }
}
