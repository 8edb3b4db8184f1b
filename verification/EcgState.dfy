/**
  The stored form of the event graph: a dependency graph with edges in both directions, a table of node records, and
  the sets of root nodes and tips, all updated in place by `insert_header`. Edges name the header id that is the
  weight of the node at the other end instead of its index.
 */
module EcgState {
  import opened Common
  import opened EventGraph
  import opened Ancestry

  const U64_MAX: nat := 0xFFFF_FFFF_FFFF_FFFF

  /** A node of the dependency graph: the nodes at the other end of its edges. */
  datatype DagNode = DagNode(parents: seq<HeaderId>, children: seq<HeaderId>)

  datatype NodeInfo = NodeInfo(depth: nat, header: Header)

  function NodesOf(g: Graph): seq<HeaderId> {
    seq(|g|, i requires 0 <= i < |g| => g[i].id)
  }

  function Seconds(pairs: seq<(nat, HeaderId)>): seq<HeaderId> {
    seq(|pairs|, i requires 0 <= i < |pairs| => pairs[i].1)
  }

  ghost predicate WithDepths(g: Graph, pairs: seq<(nat, HeaderId)>) {
    forall i :: 0 <= i < |pairs| ==> Has(g, pairs[i].1) && pairs[i].0 == Depth(g, pairs[i].1)
  }

  predicate Recorded(nodes: seq<HeaderId>, info: map<HeaderId, NodeInfo>) {
    forall i :: 0 <= i < |nodes| ==> nodes[i] in info
  }

  function HeadersAt(nodes: seq<HeaderId>, info: map<HeaderId, NodeInfo>): seq<Header>
    requires Recorded(nodes, info)
  {
    seq(|nodes|, i requires 0 <= i < |nodes| => info[nodes[i]].header)
  }

  /** The node indices and the table of node records hold the headers in the order of their acceptance. */
  lemma NodesAreLog(g: Graph, nodes: seq<HeaderId>, info: map<HeaderId, NodeInfo>)
    requires nodes == NodesOf(g) && info == InfoOf(g)
    ensures Recorded(nodes, info) && HeadersAt(nodes, info) == g
  {
    hide InfoOf, Depth;
    forall i | 0 <= i < |nodes|
      ensures nodes[i] in info && info[nodes[i]].header == g[i]
    {
      assert g[i].id == nodes[i];
      TableEntries(g, nodes[i]);
    }
  }

  /** The dependency graph that a sequence of accepted headers determines. */
  ghost function DagOf(g: Graph): map<HeaderId, DagNode> {
    map id | id in Ids(g) :: DagNode(Parents(g, id), Children(g, id))
  }

  ghost function InfoOf(g: Graph): map<HeaderId, NodeInfo> {
    map id | id in Ids(g) :: (IdsHas(g, id); NodeInfo(Depth(g, id), g[IndexOf(g, id)]))
  }

  lemma IdsHas(g: Graph, id: HeaderId)
    ensures id in Ids(g) <==> Has(g, id)
    ensures id in Roots(g) ==> Has(g, id)
  {
  }

  /** What the tables hold for one header id. */
  lemma TableEntries(g: Graph, id: HeaderId)
    ensures (id in DagOf(g) <==> Has(g, id)) && (id in InfoOf(g) <==> Has(g, id))
    ensures Has(g, id) ==> DagOf(g)[id] == DagNode(Parents(g, id), Children(g, id))
    ensures Has(g, id) ==> InfoOf(g)[id] == NodeInfo(Depth(g, id), g[IndexOf(g, id)])
    ensures id in Roots(g) ==> Has(g, id)
  {
    IdsHas(g, id);
  }

  // ---------- One more header

  lemma HasGrows(g: Graph, h: Header)
    requires Accepts(g, h)
    ensures Within(g, Insert(g, h))
    ensures forall id :: Has(Insert(g, h), id) <==> Has(g, id) || id == h.id
    ensures IndexOf(Insert(g, h), h.id) == |g|
  {
    var g' := Insert(g, h);
    ExtendsWithin(g, g');
    assert g'[|g|] == h;
    forall id
      ensures Has(g', id) <==> Has(g, id) || id == h.id
    {
      if Has(g, id) { assert g'[IndexOf(g, id)].id == id; }
    }
  }

  ghost predicate IsNewDepth(g: Graph, h: Header, depth: nat)
    requires Accepts(g, h)
  {
    if h.parents == [] then depth == 1
    else
      && (forall p :: p in h.parents ==> depth <= 1 + Depth(g, p))
      && (exists p :: p in h.parents && depth == 1 + Depth(g, p))
  }

  lemma NewDepth(g: Graph, h: Header, depth: nat)
    requires Accepts(g, h) && Within(g, Insert(g, h))
    requires Has(Insert(g, h), h.id) && Parents(Insert(g, h), h.id) == h.parents
    requires IsNewDepth(g, h, depth)
    ensures Depth(Insert(g, h), h.id) == depth
  {
    var g' := Insert(g, h);
    if h.parents != [] {
      var p := ShallowParent(g', h.id);
      var p' :| p' in h.parents && depth == 1 + Depth(g, p');
      WithinDepth(g, g', p);
      WithinDepth(g, g', p');
    }
  }

  lemma InfoGrows(g: Graph, h: Header, depth: nat)
    requires Accepts(g, h)
    requires IsNewDepth(g, h, depth)
    ensures InfoOf(Insert(g, h)) == InfoOf(g)[h.id := NodeInfo(depth, h)]
  {
    var g' := Insert(g, h);
    HasGrows(g, h);
    NewDepth(g, h, depth);
    forall id
      ensures id in InfoOf(g') <==> id in InfoOf(g) || id == h.id
    {
      IdsHas(g, id);
      IdsHas(g', id);
    }
    forall id | Has(g, id)
      ensures Depth(g', id) == Depth(g, id) && g'[IndexOf(g', id)] == g[IndexOf(g, id)]
    {
      WithinDepth(g, g', id);
      WithinParents(g, g', id);
    }
  }

  lemma HasChildGrows(g: Graph, h: Header, id: HeaderId)
    requires Accepts(g, h)
    ensures HasChild(Insert(g, h), id) <==> HasChild(g, id) || id in h.parents
  {
    var g' := Insert(g, h);
    assert g'[|g|] == h;
    if HasChild(g, id) {
      var i :| 0 <= i < |g| && id in g[i].parents;
      assert id in g'[i].parents;
    }
  }

  lemma Childless(g: Graph, id: HeaderId)
    requires !Has(g, id)
    ensures !HasChild(g, id)
    ensures Children(g, id) == []
  {
    forall i | 0 <= i < |g|
      ensures id !in g[i].parents
    {
      assert !HasBefore(g, i, id);
    }
    if Children(g, id) != [] { ChildrenMembers(g, id, Children(g, id)[0]); }
  }

  lemma SetsGrow(g: Graph, h: Header)
    requires Accepts(g, h)
    ensures Roots(Insert(g, h)) == Roots(g) + (if h.parents == [] then {h.id} else {})
    ensures Tips(Insert(g, h)) == (Tips(g) - Elems(h.parents)) + {h.id}
  {
    var g' := Insert(g, h);
    Childless(g, h.id);
    HasChildGrows(g, h, h.id);
    assert g'[|g|] == h;
    assert forall i :: 0 <= i < |g| ==> g'[i] == g[i];
    forall x
      ensures x in Tips(g') <==> x in (Tips(g) - Elems(h.parents)) + {h.id}
    {
      HasChildGrows(g, h, x);
      if x in Tips(g) {
        var i :| 0 <= i < |g| && !HasChild(g, g[i].id) && g[i].id == x;
        assert g'[i].id == x;
      }
    }
    forall x
      ensures x in Roots(g') <==> x in Roots(g) + (if h.parents == [] then {h.id} else {})
    {
      if x in Roots(g) {
        var i :| 0 <= i < |g| && g[i].parents == [] && g[i].id == x;
        assert g'[i].id == x;
      }
    }
  }

  /** The children lists after adding a node and the edges from the listed parents. */
  ghost predicate EdgesAdded(dag: map<HeaderId, DagNode>, dag': map<HeaderId, DagNode>,
                             parents: seq<HeaderId>, c: HeaderId)
  {
    && (forall id :: id in dag' <==> id in dag || id == c)
    && (forall id :: id in dag && id != c ==>
          dag'[id] == DagNode(dag[id].parents, dag[id].children + Copies(parents, id, c)))
    && dag'[c] == DagNode(parents, [])
  }

  lemma DagGrows(dag: map<HeaderId, DagNode>, g: Graph, h: Header)
    requires Accepts(g, h) && EdgesAdded(DagOf(g), dag, h.parents, h.id)
    ensures dag == DagOf(Insert(g, h))
  {
    var g' := Insert(g, h);
    HasGrows(g, h);
    assert g'[|g|] == h;
    forall id
      ensures id in dag <==> id in DagOf(g')
    {
      IdsHas(g, id);
      IdsHas(g', id);
    }
    forall id | id in dag
      ensures dag[id] == DagNode(Parents(g', id), Children(g', id))
    {
      ChildrenUpToPrefix(g, g', id, |g|);
      if id == h.id {
        Childless(g, id);
        OwnCopies(g, h);
      } else {
        WithinParents(g, g', id);
      }
    }
  }

  lemma OwnCopies(g: Graph, h: Header)
    requires Accepts(g, h)
    ensures Copies(h.parents, h.id, h.id) == []
  {
    if Copies(h.parents, h.id, h.id) != [] {
      CopiesMembers(h.parents, h.id, h.id, Copies(h.parents, h.id, h.id)[0]);
    }
  }

  lemma SmallerSet<T>(a: set<T>, b: set<T>)
    requires a < b
    ensures |a| < |b|
  {
    assert b == a + (b - a);
    assert |b| == |a| + |b - a|;
  }

  lemma ReachOneUp(g: Graph, p: HeaderId, n: HeaderId, d: HeaderId)
    requires p in Parents(g, n) && Reaches(g, n, d)
    ensures Has(g, p) && Reaches(g, p, d)
  {
    ParentBefore(g, p, n);
    ReachSelf(g, p);
    ReachParent(g, p, p, n);
    ReachTrans(g, p, n, d);
  }

  /** A set of headers closed under taking parents contains every ancestor of its members. */
  lemma {:induction false} ClosedUnderReach(g: Graph, visited: set<HeaderId>, a: HeaderId, d: HeaderId)
    requires Reaches(g, a, d) && d in visited
    requires forall n, p :: n in visited && p in Parents(g, n) ==> p in visited
    ensures a in visited
    decreases if Has(g, d) then IndexOf(g, d) else 0
  {
    if a != d {
      var q := ReachSplit(g, a, d);
      ParentBefore(g, q, d);
      ClosedUnderReach(g, visited, a, q);
    }
  }

  /** What the breadth-first search knows: whatever it has marked but no longer has queued is not the target. */
  ghost predicate Searching(g: Graph, a: HeaderId, d: HeaderId, queued: set<HeaderId>, visited: set<HeaderId>)
  {
    && d in visited && queued <= visited
    && (forall n :: n in visited ==> Reaches(g, n, d))
    && (a in visited ==> a in queued)
    && (forall n, p :: n in visited && n !in queued && p in Parents(g, n) ==> p in visited)
  }

  lemma SearchStep(g: Graph, a: HeaderId, d: HeaderId, queued: set<HeaderId>, visited: set<HeaderId>, n: HeaderId,
                   others: set<HeaderId>)
    requires Searching(g, a, d, queued, visited)
    requires n in queued && n != a && queued == others + {n}
    ensures Searching(g, a, d, others + (Elems(Parents(g, n)) - visited), visited + Elems(Parents(g, n)))
  {
    forall p | p in Parents(g, n)
      ensures Reaches(g, p, d)
    {
      ReachOneUp(g, p, n, d);
    }
  }

  /** The inner loop of the search: the parents not seen before are marked and queued. */
  method VisitAll(parents: seq<HeaderId>, queue: seq<HeaderId>, visited: set<HeaderId>)
    returns (queue': seq<HeaderId>, visited': set<HeaderId>)
    ensures visited' == visited + Elems(parents)
    ensures Elems(queue') == Elems(queue) + (Elems(parents) - visited)
    ensures visited' == visited ==> queue' == queue
  {
    queue', visited' := queue, visited;
    var k := 0;
    while k < |parents|
      invariant 0 <= k <= |parents|
      invariant visited' == visited + Elems(parents[..k])
      invariant Elems(queue') == Elems(queue) + (Elems(parents[..k]) - visited)
      invariant visited' == visited ==> queue' == queue
    {
      var pid := parents[k];
      assert Elems(parents[..k + 1]) == Elems(parents[..k]) + {pid} by {
        assert parents[..k + 1] == parents[..k] + [pid];
      }
      if pid !in visited' {
        visited' := visited' + {pid};
        assert Elems(queue' + [pid]) == Elems(queue') + {pid};
        queue' := queue' + [pid];
      }
      k := k + 1;
    }
    assert parents[..k] == parents;
  }

  /** Adds a node to the dependency graph together with one edge for every listed parent. */
  method AddEdges(dag: map<HeaderId, DagNode>, id: HeaderId, parents: seq<HeaderId>)
    returns (dag': map<HeaderId, DagNode>)
    requires id !in parents && forall p :: p in parents ==> p in dag
    ensures EdgesAdded(dag, dag', parents, id)
  {
    dag' := dag[id := DagNode(parents, [])];
    var k := 0;
    while k < |parents|
      invariant 0 <= k <= |parents|
      invariant forall i :: i in dag' <==> i in dag || i == id
      invariant dag'[id] == DagNode(parents, [])
      invariant forall i :: i in dag && i != id ==>
        && dag'[i].parents == dag[i].parents
        && dag'[i].children + Copies(parents[k..], i, id) == dag[i].children + Copies(parents, i, id)
    {
      var p := parents[k];
      assert p in parents;
      var node := dag'[p];
      assert parents[k..][1..] == parents[k + 1..];
      assert node.children + ([id] + Copies(parents[k + 1..], p, id))
          == node.children + [id] + Copies(parents[k + 1..], p, id);
      dag' := dag'[p := node.(children := node.children + [id])];
      k := k + 1;
    }
  }

  method AddNode(dag: map<HeaderId, DagNode>, h: Header, ghost g: Graph) returns (dag': map<HeaderId, DagNode>)
    requires dag == DagOf(g) && Accepts(g, h)
    ensures dag' == DagOf(Insert(g, h))
  {
    forall p | p in h.parents
      ensures p in dag && p != h.id
    {
      IdsHas(g, p);
    }
    dag' := AddEdges(dag, h.id, h.parents);
    DagGrows(dag', g, h);
  }

  method RemoveAll(tips: set<HeaderId>, parents: seq<HeaderId>) returns (rest: set<HeaderId>)
    ensures rest == tips - Elems(parents)
  {
    rest := tips;
    var k := 0;
    while k < |parents|
      invariant 0 <= k <= |parents|
      invariant rest == tips - Elems(parents[..k])
    {
      assert parents[..k + 1] == parents[..k] + [parents[k]];
      rest := rest - {parents[k]};
      k := k + 1;
    }
    assert parents[..k] == parents;
  }

  // ---------- The object

  class EcgState {
    /** The node weights in the order of the node indices, and the edges. */
    var nodes: seq<HeaderId>
    var dependencyGraph: map<HeaderId, DagNode>
    var rootNodes: set<HeaderId>
    var nodeInfo: map<HeaderId, NodeInfo>
    var tips: set<HeaderId>

    /** The accepted headers in the order of their acceptance. */
    ghost var log: Graph

    ghost predicate Valid()
      reads this
    {
      && nodes == NodesOf(log)
      && dependencyGraph == DagOf(log)
      && nodeInfo == InfoOf(log)
      && rootNodes == Roots(log)
      && tips == Tips(log)
    }

    constructor ()
      ensures Valid() && log == []
    {
      nodes, dependencyGraph, rootNodes, nodeInfo, tips, log := [], map[], {}, map[], {}, [];
    }

    function Contains(id: HeaderId): (r: bool)
      requires Valid()
      reads this
      ensures r <==> Has(log, id)
    {
      IdsHas(log, id);
      id in nodeInfo
    }

    /** The parents in some order: that of the edges in the graph library is left open. */
    method GetParents(id: HeaderId) returns (r: Option<seq<HeaderId>>)
      requires Valid()
      ensures r.Some? <==> Has(log, id)
      ensures r.Some? ==> multiset(r.value) == multiset(Parents(log, id))
    {
      TableEntries(log, id);
      r := if id in nodeInfo then Some(dependencyGraph[id].parents) else None;
    }

    /** The parents with their depths, in some order. */
    method GetParentsWithDepth(id: HeaderId) returns (r: Option<seq<(nat, HeaderId)>>)
      requires Valid()
      ensures r.Some? <==> Has(log, id)
      ensures r.Some? ==> WithDepths(log, r.value) && multiset(Seconds(r.value)) == multiset(Parents(log, id))
    {
      TableEntries(log, id);
      if id !in nodeInfo { return None; }
      var parents := dependencyGraph[id].parents;
      forall p | p in parents
        ensures Has(log, p)
      {
        ParentBefore(log, p, id);
      }
      var pairs := AddDepths(parents);
      r := Some(pairs);
    }

    /** The children with their depths, once for every edge, in some order. */
    method GetChildrenWithDepth(id: HeaderId) returns (r: Option<seq<(nat, HeaderId)>>)
      requires Valid()
      ensures r.Some? <==> Has(log, id)
      ensures r.Some? ==> WithDepths(log, r.value) && multiset(Seconds(r.value)) == multiset(Children(log, id))
    {
      TableEntries(log, id);
      if id !in nodeInfo { return None; }
      var children := dependencyGraph[id].children;
      forall c | c in children
        ensures Has(log, c)
      {
        ChildrenMembers(log, id, c);
      }
      var pairs := AddDepths(children);
      r := Some(pairs);
    }

    method AddDepths(ids: seq<HeaderId>) returns (pairs: seq<(nat, HeaderId)>)
      requires Valid() && forall id :: id in ids ==> Has(log, id)
      ensures WithDepths(log, pairs) && Seconds(pairs) == ids
    {
      hide DagOf, InfoOf, Depth, Roots, Tips;
      pairs := [];
      for k := 0 to |ids|
        invariant WithDepths(log, pairs) && Seconds(pairs) == ids[..k]
      {
        assert ids[k] in ids;
        TableEntries(log, ids[k]);
        pairs := pairs + [(nodeInfo[ids[k]].depth, ids[k])];
      }
    }

    /** The accepted headers in the order of their node indices. */
    function Snapshot(): (g: Graph)
      requires Valid()
      reads this
      ensures g == log
    {
      NodesAreLog(log, nodes, nodeInfo);
      HeadersAt(nodes, nodeInfo)
    }

    function GetHeaderDepth(id: HeaderId): (r: Option<nat>)
      requires Valid()
      reads this
      ensures r == if Has(log, id) then Some(Depth(log, id)) else None
    {
      IdsHas(log, id);
      if id in nodeInfo then Some(nodeInfo[id].depth) else None
    }

    /** Looks up every parent, or reports that one is missing; the depth is the least one found. */
    method LookUpParents(parents: seq<HeaderId>) returns (found: bool, depth: nat)
      requires Valid() && parents != [] && |log| < U64_MAX
      ensures found == forall p :: p in parents ==> Has(log, p)
      ensures found ==> (forall p :: p in parents ==> depth <= Depth(log, p))
      ensures found ==> (exists p :: p in parents && depth == Depth(log, p))
    {
      hide DagOf, InfoOf, Roots, Tips, Depth;
      depth := U64_MAX;
      var k := 0;
      while k < |parents|
        invariant 0 <= k <= |parents|
        invariant forall j :: 0 <= j < k ==> Has(log, parents[j]) && depth <= Depth(log, parents[j])
        invariant if k == 0 then depth == U64_MAX else exists j :: 0 <= j < k && depth == Depth(log, parents[j])
      {
        var p := parents[k];
        TableEntries(log, p);
        if p !in nodeInfo { return false, 0; }
        DepthBound(log, p);
        depth := Min(depth, nodeInfo[p].depth);
        k := k + 1;
      }
      found := true;
    }

    /** A header with parents: one more than their least depth, or a report that one of them is unknown. */
    method DepthBelow(header: Header) returns (found: bool, depth: nat)
      requires Valid() && header.parents != [] && |log| < U64_MAX && header.valid && !Has(log, header.id)
      ensures found == Accepts(log, header)
      ensures found ==> IsNewDepth(log, header, depth)
    {
      var ok, least := LookUpParents(header.parents);
      found, depth := ok, least + 1;
    }

    /**
      Accepts a header exactly when it is valid, new and all its parents are known, and then everything stored is what
      the longer sequence of accepted headers determines. A rejected header changes nothing.
     */
    method InsertHeader(header: Header) returns (ok: bool)
      requires Valid() && |log| < U64_MAX
      modifies this
      ensures Valid()
      ensures ok == Accepts(old(log), header)
      ensures ok <==> header.valid && !Has(old(log), header.id) && forall p :: p in header.parents ==> Has(old(log), p)
      ensures log == Insert(old(log), header)
      ensures log == if ok then old(log) + [header] else old(log)
      ensures !ok ==> unchanged(this)
    {
      hide InfoOf, DagOf, Roots, Tips, Depth, MinDepth, Parents, Children, Ids, IndexOf;
      if !header.valid { return false; }
      TableEntries(log, header.id);
      if header.id in nodeInfo { return false; }
      var depth := 1;
      if header.parents == [] {
        if header.id in rootNodes { assert false; }
        SetsGrow(log, header);
        rootNodes := rootNodes + {header.id};
        tips := tips + {header.id};
      } else {
        var found, below := DepthBelow(header);
        if !found { return false; }
        depth := below;
        SetsGrow(log, header);
        var rest := RemoveAll(tips, header.parents);
        tips := rest + {header.id};
      }
      InfoGrows(log, header, depth);
      dependencyGraph := AddNode(dependencyGraph, header, log);
      nodes := nodes + [header.id];
      nodeInfo := nodeInfo[header.id := NodeInfo(depth, header)];
      log := Insert(log, header);
      ok := true;
    }

    /** Breadth-first search upwards, with a visited set. */
    method IsAncestorOf(ancestor: HeaderId, descendent: HeaderId) returns (r: Option<bool>)
      requires Valid()
      ensures r.Some? <==> Has(log, ancestor) && Has(log, descendent)
      ensures r.Some? ==> (r.value <==> Reaches(log, ancestor, descendent))
    {
      hide DagOf, Roots, Tips, Depth, MinDepth, Children, Ids, IndexOf;
      TableEntries(log, ancestor);
      TableEntries(log, descendent);
      if ancestor !in nodeInfo || descendent !in nodeInfo { return None; }
      var queue, visited := [descendent], {descendent};
      ghost var all := dependencyGraph.Keys;
      ReachSelf(log, descendent);
      while queue != []
        invariant visited <= all
        invariant Searching(log, ancestor, descendent, Elems(queue), visited)
        decreases |all - visited|, |queue|
      {
        var nid := queue[0];
        if nid == ancestor { return Some(true); }
        ghost var visited0 := visited;
        assert Elems(queue) == Elems(queue[1..]) + {nid};
        SearchStep(log, ancestor, descendent, Elems(queue), visited, nid, Elems(queue[1..]));
        TableEntries(log, nid);
        var parents := dependencyGraph[nid].parents;
        forall p | p in parents
          ensures p in all
        {
          ParentBefore(log, p, nid);
          TableEntries(log, p);
        }
        queue, visited := VisitAll(parents, queue[1..], visited);
        if visited != visited0 { SmallerSet(all - visited, all - visited0); }
      }
      r := Some(false);
      if Reaches(log, ancestor, descendent) {
        ClosedUnderReach(log, visited, ancestor, descendent);
      }
    }
  }
}
