/**
  The event graph (ECG) as a value.

  The headers accepted so far, in the order of their acceptance, determine the whole graph: a header lists its
  parents, so the edges, the root nodes, the tips and the depths are functions of this sequence. The sequence is also
  how a growing graph is described: a later snapshot extends an earlier one.
 */
module EventGraph {
  import opened Common

  /** Header ids are digests; digests are compared as big-endian numbers. */
  type HeaderId = nat

  /** A header, its id, the verdict of `validate_header`, and the raw operations it is delivered with. */
  datatype Header = Header(id: HeaderId, parents: seq<HeaderId>, valid: bool, body: seq<Byte>)

  predicate HasBefore(g: seq<Header>, n: nat, id: HeaderId)
    requires n <= |g|
  {
    exists i :: 0 <= i < n && g[i].id == id
  }

  predicate Has(g: seq<Header>, id: HeaderId) {
    HasBefore(g, |g|, id)
  }

  ghost function Ids(g: seq<Header>): set<HeaderId> {
    set i | 0 <= i < |g| :: g[i].id
  }

  /** What every run of `insert_header` produces: valid headers, no id twice, parents first. */
  predicate Wf(g: seq<Header>) {
    && (forall i, j :: 0 <= i < j < |g| ==> g[i].id != g[j].id)
    && (forall i :: 0 <= i < |g| ==> g[i].valid)
    && (forall i, p :: 0 <= i < |g| && p in g[i].parents ==> HasBefore(g, i, p))
  }

  type Graph = g: seq<Header> | Wf(g) witness []

  function IndexOf(g: Graph, id: HeaderId): (i: nat)
    requires Has(g, id)
    ensures i < |g| && g[i].id == id
  {
    var i :| 0 <= i < |g| && g[i].id == id;
    i
  }

  function Parents(g: Graph, id: HeaderId): seq<HeaderId>
  {
    if Has(g, id) then g[IndexOf(g, id)].parents else []
  }

  lemma ParentBefore(g: Graph, p: HeaderId, id: HeaderId)
    requires p in Parents(g, id)
    ensures Has(g, id) && Has(g, p) && IndexOf(g, p) < IndexOf(g, id)
  {
    var i := IndexOf(g, id);
    assert HasBefore(g, i, p);
  }

  // ---------- Growing the graph

  predicate Accepts(g: Graph, h: Header) {
    && h.valid
    && !Has(g, h.id)
    && (forall p :: p in h.parents ==> Has(g, p))
  }

  function Insert(g: Graph, h: Header): (g': Graph)
    ensures g' == if Accepts(g, h) then g + [h] else g
  {
    InsertWf(g, h);
    if Accepts(g, h) then g + [h] else g
  }

  function InsertAll(g: Graph, hs: seq<Header>): Graph
    decreases |hs|
  {
    if hs == [] then g else InsertAll(Insert(g, hs[0]), hs[1..])
  }

  lemma InsertWf(g: Graph, h: Header)
    ensures Accepts(g, h) ==> Wf(g + [h])
  {
    if Accepts(g, h) {
      var g' := g + [h];
      forall i, p | 0 <= i < |g'| && p in g'[i].parents
        ensures HasBefore(g', i, p)
      {
        var n := if i < |g| then i else |g|;
        assert HasBefore(g, n, p);
        var j :| 0 <= j < n && g[j].id == p;
        assert g'[j].id == p;
      }
    }
  }

  lemma {:induction false} InsertAllExtends(g: Graph, hs: seq<Header>)
    ensures g <= InsertAll(g, hs)
    decreases |hs|
  {
    if hs != [] { InsertAllExtends(Insert(g, hs[0]), hs[1..]); }
  }

  lemma PrefixWf(g: Graph, n: nat)
    requires n <= |g|
    ensures Wf(g[..n])
  {
    forall i, p | 0 <= i < n && p in g[..n][i].parents
      ensures HasBefore(g[..n], i, p)
    {
      assert HasBefore(g, i, p);
      var j :| 0 <= j < i && g[j].id == p;
      assert g[..n][j].id == p;
    }
  }

  function Prefix(g: Graph, n: nat): Graph
    requires n <= |g|
  {
    PrefixWf(g, n);
    g[..n]
  }

  /** A header of the graph would have been accepted by what was there before it. */
  lemma AcceptedInTurn(g: Graph, n: nat)
    requires n < |g|
    ensures Accepts(Prefix(g, n), g[n])
    ensures Prefix(g, n) + [g[n]] == Prefix(g, n + 1)
  {
    forall p | p in g[n].parents
      ensures Has(Prefix(g, n), p)
    {
      assert HasBefore(g, n, p);
      var j :| 0 <= j < n && g[j].id == p;
      assert g[..n][j].id == p;
    }
  }

  /** Inserting a graph's own headers one by one rebuilds it: nothing is ever rejected. */
  lemma {:induction false} Rebuild(g: Graph, n: nat)
    requires n <= |g|
    ensures InsertAll(Prefix(g, n), g[n..]) == g
    decreases |g| - n
  {
    if n < |g| {
      AcceptedInTurn(g, n);
      assert g[n..][1..] == g[n + 1..];
      Rebuild(g, n + 1);
    }
  }

  // ---------- Roots, tips, depths and edges

  predicate IsRoot(g: Graph, id: HeaderId)
  {
    Has(g, id) && Parents(g, id) == []
  }

  ghost predicate IsChild(g: Graph, p: HeaderId, c: HeaderId)
  {
    p in Parents(g, c)
  }

  predicate HasChild(g: Graph, id: HeaderId) {
    exists i :: 0 <= i < |g| && id in g[i].parents
  }

  function Roots(g: Graph): set<HeaderId>
  {
    set i | 0 <= i < |g| && g[i].parents == [] :: g[i].id
  }

  function Tips(g: Graph): set<HeaderId>
  {
    set i | 0 <= i < |g| && !HasChild(g, g[i].id) :: g[i].id
  }

  ghost function Edges(g: Graph): set<(HeaderId, HeaderId)>
  {
    set i, p | 0 <= i < |g| && p in g[i].parents :: (p, g[i].id)
  }

  /** One for a root, and one more than the least depth among the parents otherwise. */
  function Depth(g: Graph, id: HeaderId): nat
    requires Has(g, id)
    decreases IndexOf(g, id), |Parents(g, id)| + 1
  {
    var ps := Parents(g, id);
    if ps == [] then 1
    else
      var i := IndexOf(g, id);
      assert forall p :: p in ps ==> HasBefore(g, i, p);
      1 + MinDepth(g, ps, i)
  }

  function MinDepth(g: Graph, ps: seq<HeaderId>, bound: nat): nat
    requires ps != []
    requires forall p :: p in ps ==> Has(g, p) && IndexOf(g, p) < bound
    decreases bound, |ps|
  {
    var d := Depth(g, ps[0]);
    if |ps| == 1 then d else Min(d, MinDepth(g, ps[1..], bound))
  }

  lemma {:induction false} MinDepthIsLeast(g: Graph, ps: seq<HeaderId>, bound: nat) returns (q: HeaderId)
    requires ps != []
    requires forall p :: p in ps ==> Has(g, p) && IndexOf(g, p) < bound
    ensures forall p :: p in ps ==> MinDepth(g, ps, bound) <= Depth(g, p)
    ensures q in ps && MinDepth(g, ps, bound) == Depth(g, q)
    decreases |ps|
  {
    q := ps[0];
    if |ps| > 1 {
      var r := MinDepthIsLeast(g, ps[1..], bound);
      if Depth(g, r) < Depth(g, q) { q := r; }
      assert forall p :: p in ps ==> p == ps[0] || p in ps[1..];
    }
  }

  /** Some parent realises the depth. */
  lemma ShallowParent(g: Graph, id: HeaderId) returns (q: HeaderId)
    requires Has(g, id) && Parents(g, id) != []
    ensures q in Parents(g, id) && Has(g, q) && IndexOf(g, q) < IndexOf(g, id)
    ensures Depth(g, id) == 1 + Depth(g, q)
    ensures forall p :: p in Parents(g, id) ==> Has(g, p) && Depth(g, id) <= 1 + Depth(g, p)
  {
    var ps, i := Parents(g, id), IndexOf(g, id);
    assert forall p :: p in ps ==> HasBefore(g, i, p);
    q := MinDepthIsLeast(g, ps, i);
  }

  lemma DepthStep(g: Graph, p: HeaderId, id: HeaderId)
    requires p in Parents(g, id)
    ensures Has(g, p) && Has(g, id) && Depth(g, id) <= 1 + Depth(g, p)
  {
    ParentBefore(g, p, id);
    var _ := ShallowParent(g, id);
  }

  /** A depth counts headers, so it is at least one and never exceeds the number of headers. */
  lemma {:induction false} DepthBound(g: Graph, id: HeaderId)
    requires Has(g, id)
    ensures 1 <= Depth(g, id) <= IndexOf(g, id) + 1
    decreases IndexOf(g, id)
  {
    if Parents(g, id) != [] {
      var p := ShallowParent(g, id);
      DepthBound(g, p);
    }
  }

  // ---------- Children

  /** `c` once for every occurrence of `id` in `ps`. */
  function Copies(ps: seq<HeaderId>, id: HeaderId, c: HeaderId): seq<HeaderId> {
    if ps == [] then [] else (if ps[0] == id then [c] else []) + Copies(ps[1..], id, c)
  }

  function ChildrenUpTo(g: Graph, id: HeaderId, n: nat): seq<HeaderId>
    requires n <= |g|
  {
    if n == 0 then [] else ChildrenUpTo(g, id, n - 1) + Copies(g[n - 1].parents, id, g[n - 1].id)
  }

  /** The children of a header, once for every edge. */
  function Children(g: Graph, id: HeaderId): seq<HeaderId> {
    ChildrenUpTo(g, id, |g|)
  }

  lemma {:induction false} CopiesMembers(ps: seq<HeaderId>, id: HeaderId, c: HeaderId, x: HeaderId)
    ensures x in Copies(ps, id, c) <==> x == c && id in ps
  {
    if ps != [] {
      CopiesMembers(ps[1..], id, c, x);
      assert id in ps <==> ps[0] == id || id in ps[1..];
    }
  }

  lemma {:induction false} ChildrenUpToMembers(g: Graph, id: HeaderId, n: nat, x: HeaderId)
    requires n <= |g|
    ensures x in ChildrenUpTo(g, id, n) <==> exists i :: 0 <= i < n && g[i].id == x && id in g[i].parents
  {
    if n > 0 {
      ChildrenUpToMembers(g, id, n - 1, x);
      CopiesMembers(g[n - 1].parents, id, g[n - 1].id, x);
    }
  }

  lemma ChildrenMembers(g: Graph, id: HeaderId, x: HeaderId)
    ensures x in Children(g, id) <==> IsChild(g, id, x)
    ensures x in Children(g, id) ==> Has(g, x) && Has(g, id) && IndexOf(g, id) < IndexOf(g, x)
  {
    ChildrenUpToMembers(g, id, |g|, x);
    if x in Children(g, id) {
      var i :| 0 <= i < |g| && g[i].id == x && id in g[i].parents;
      assert Has(g, x) && IndexOf(g, x) == i;
    }
    if IsChild(g, id, x) {
      ParentBefore(g, id, x);
      assert g[IndexOf(g, x)].id == x;
    }
  }

  lemma {:induction false} ChildrenUpToPrefix(g: Graph, g': Graph, id: HeaderId, n: nat)
    requires n <= |g| && g <= g'
    ensures ChildrenUpTo(g, id, n) == ChildrenUpTo(g', id, n)
  {
    if n > 0 {
      ChildrenUpToPrefix(g, g', id, n - 1);
      assert g[n - 1] == g'[n - 1];
    }
  }
}
