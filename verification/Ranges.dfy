/** Compression of the indices of a request into ranges. */
module Ranges {
  import opened Common

  /** The indices from `start` up to but not including `end`. */
  datatype Range = Range(start: nat, end: nat)

  function FlattenRange(r: Range): seq<nat> {
    if r.start >= r.end then [] else seq(r.end - r.start, i requires 0 <= i => r.start + i)
  }

  function Flatten(rs: seq<Range>): seq<nat> {
    if rs == [] then [] else FlattenRange(rs[0]) + Flatten(rs[1..])
  }

  /** A range has its start and leaves out its end. */
  lemma {:induction false} FlattenMembers(rs: seq<Range>, i: nat)
    ensures i in Flatten(rs) <==> exists r :: r in rs && r.start <= i < r.end
  {
    if rs != [] {
      FlattenMembers(rs[1..], i);
      var r := rs[0];
      if r.start <= i < r.end { assert FlattenRange(r)[i - r.start] == i; }
      assert forall x :: x in rs <==> x == r || x in rs[1..];
    }
  }

  /** What is still to be yielded, given the range being built and the indices still to come. */
  function Compress(current: Option<Range>, xs: seq<nat>): seq<Range>
    decreases |xs|
  {
    if xs == [] then
      match current
      case None => []
      case Some(r) => [r]
    else match current
      case None => Compress(Some(Range(xs[0], xs[0] + 1)), xs[1..])
      case Some(r) =>
        if r.end == xs[0] then Compress(Some(Range(r.start, xs[0] + 1)), xs[1..])
        else [r] + Compress(Some(Range(xs[0], xs[0] + 1)), xs[1..])
  }

  class CompressConsecutive {
    var current: Option<Range>
    var inner: seq<nat>

    constructor (xs: seq<nat>)
      ensures current == None && inner == xs
    {
      current, inner := None, xs;
    }

    /** Yields the ranges one by one, and `None` once they are exhausted. */
    method Next() returns (r: Option<Range>)
      modifies this
      ensures r.None? ==> old(Compress(current, inner)) == [] && Compress(current, inner) == []
      ensures r.Some? ==> old(Compress(current, inner)) == [r.value] + Compress(current, inner)
    {
      ghost var all := Compress(current, inner);
      while inner != []
        invariant Compress(current, inner) == all
        decreases |inner|
      {
        var x := inner[0];
        inner := inner[1..];
        match current {
          case Some(range) =>
            if range.end == x {
              current := Some(Range(range.start, x + 1));
            } else {
              current := Some(Range(x, x + 1));
              return Some(range);
            }
          case None =>
            current := Some(Range(x, x + 1));
        }
      }
      r := current;
      current := None;
    }
  }

  /** No range is empty and none continues the one before it. */
  ghost predicate Maximal(rs: seq<Range>) {
    && (forall i :: 0 <= i < |rs| ==> rs[i].start < rs[i].end)
    && (forall i :: 0 <= i < |rs| - 1 ==> rs[i].end != rs[i + 1].start)
  }

  lemma {:induction false} FlattenCompressFrom(r: Range, xs: seq<nat>)
    requires r.start < r.end
    ensures var rs := Compress(Some(r), xs);
      Flatten(rs) == FlattenRange(r) + xs && Maximal(rs) && rs != [] && rs[0].start == r.start
    decreases |xs|
  {
    hide Flatten, FlattenRange;
    if xs == [] {
      MaximalCons(r, []);
      FlattenNothing();
      assert [r] + [] == [r];
    } else {
      var x := xs[0];
      OneMore(r, x);
      assert FlattenRange(r) + xs == FlattenRange(r) + [x] + xs[1..];
      if r.end == x {
        FlattenCompressFrom(Range(r.start, x + 1), xs[1..]);
      } else {
        FlattenCompressFrom(Range(x, x + 1), xs[1..]);
        MaximalCons(r, Compress(Some(Range(x, x + 1)), xs[1..]));
        assert FlattenRange(r) + ([x] + xs[1..]) == FlattenRange(r) + [x] + xs[1..];
      }
    }
  }

  lemma FlattenNothing()
    ensures Flatten([]) == [] && Maximal([])
  {
  }

  lemma OneMore(r: Range, x: nat)
    requires r.start < r.end
    ensures FlattenRange(Range(x, x + 1)) == [x]
    ensures r.end == x ==> FlattenRange(Range(r.start, x + 1)) == FlattenRange(r) + [x]
  {
  }

  /** Flattening the ranges of a request gives back exactly the requested indices, whatever their order. */
  lemma FlattenCompress(xs: seq<nat>)
    ensures Flatten(Compress(None, xs)) == xs && Maximal(Compress(None, xs))
  {
    if xs != [] {
      FlattenCompressFrom(Range(xs[0], xs[0] + 1), xs[1..]);
      assert FlattenRange(Range(xs[0], xs[0] + 1)) == [xs[0]];
    }
  }

  lemma FirstIndex(rs: seq<Range>)
    requires Maximal(rs)
    ensures rs == [] <==> Flatten(rs) == []
    ensures rs != [] ==> Flatten(rs)[0] == rs[0].start
  {
    if rs != [] { assert FlattenRange(rs[0])[0] == rs[0].start; }
  }

  lemma MaximalCons(r: Range, rs: seq<Range>)
    requires r.start < r.end && Maximal(rs) && (rs != [] ==> r.end != rs[0].start)
    ensures Maximal([r] + rs) && Flatten([r] + rs) == FlattenRange(r) + Flatten(rs)
  {
    var rs' := [r] + rs;
    assert rs'[1..] == rs;
    forall i | 0 <= i < |rs'| - 1
      ensures rs'[i].end != rs'[i + 1].start
    {
      if i > 0 { assert rs[i - 1].end != rs[i - 1 + 1].start; }
    }
  }

  /** And the compressed form is the only one whose ranges are not empty and do not touch. */
  lemma {:induction false} MaximalIsUnique(rs: seq<Range>, rs': seq<Range>)
    requires Maximal(rs) && Maximal(rs') && Flatten(rs) == Flatten(rs')
    ensures rs == rs'
    decreases |rs|
  {
    FirstIndex(rs);
    FirstIndex(rs');
    if rs != [] && rs' != [] {
      var a, b, f := rs[0], rs'[0], Flatten(rs);
      if a.end < b.end {
        HeadEnds(rs, rs');
      } else if b.end < a.end {
        HeadEnds(rs', rs);
      }
      assert FlattenRange(a) == FlattenRange(b);
      assert Flatten(rs[1..]) == f[|FlattenRange(a)|..] == Flatten(rs'[1..]);
      MaximalIsUnique(rs[1..], rs'[1..]);
    }
  }

  /** A first range cannot stop inside the first range of another way to write the same indices. */
  lemma HeadEnds(rs: seq<Range>, rs': seq<Range>)
    requires rs != [] && rs' != [] && Maximal(rs) && Maximal(rs') && rs[0].start == rs'[0].start
    requires rs[0].end < rs'[0].end
    ensures Flatten(rs) != Flatten(rs')
  {
    var k := rs[0].end - rs[0].start;
    assert Flatten(rs')[k] == rs'[0].start + k;
    if |rs| == 1 {
      assert Flatten(rs[1..]) == [];
    } else {
      assert Flatten(rs[1..]) == FlattenRange(rs[1]) + Flatten(rs[1..][1..]);
      assert |Flatten(rs)| > k && Flatten(rs)[k] == rs[1].start;
      assert rs[0].end != rs[0 + 1].start;
    }
  }

  // ---------- Splitting into requests

  /** One request for every `size` indices. */
  function Requests(xs: seq<nat>, size: nat): seq<seq<Range>>
    requires size > 0
    decreases |xs|
  {
    if xs == [] then []
    else if |xs| <= size then [Compress(None, xs)]
    else [Compress(None, xs[..size])] + Requests(xs[size..], size)
  }

  /** All requests but the last are full, and each names its indices by maximal ranges. */
  lemma {:induction false} RequestsAreFull(xs: seq<nat>, size: nat)
    requires size > 0
    ensures forall i :: 0 <= i < |Requests(xs, size)| - 1 ==> |Flatten(Requests(xs, size)[i])| == size
    ensures forall i :: 0 <= i < |Requests(xs, size)| ==> Maximal(Requests(xs, size)[i])
    decreases |xs|
  {
    hide Maximal;
    if |xs| > size {
      FlattenCompress(xs[..size]);
      RequestsAreFull(xs[size..], size);
    } else {
      FlattenCompress(xs);
    }
  }

  function FlattenRequests(reqs: seq<seq<Range>>): seq<nat> {
    if reqs == [] then [] else Flatten(reqs[0]) + FlattenRequests(reqs[1..])
  }

  /** Together the requests ask for every index once and in order; there are none only if nothing is needed. */
  lemma {:induction false} RequestsCover(xs: seq<nat>, size: nat)
    requires size > 0
    ensures FlattenRequests(Requests(xs, size)) == xs
    ensures Requests(xs, size) == [] <==> xs == []
    ensures forall i :: 0 <= i < |Requests(xs, size)| ==> 0 < |Flatten(Requests(xs, size)[i])| <= size
    decreases |xs|
  {
    if xs != [] {
      var head := if |xs| <= size then xs else xs[..size];
      var tail := if |xs| <= size then [] else xs[size..];
      assert xs == head + tail;
      FlattenCompress(head);
      RequestsCover(tail, size);
      var reqs := Requests(xs, size);
      assert reqs == [Compress(None, head)] + Requests(tail, size);
      assert reqs[1..] == Requests(tail, size);
    }
  }
}
