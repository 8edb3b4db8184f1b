/** The flat binary Merkle tree: nodes in breadth-first order with the root at index 0. */
module Merkle {
  import opened Common

  /** A digest, read as a number. Without a bound on it, hash functions without collisions exist. */
  type Digest = nat

  /** The two uses of the hash function: on a chunk of bytes, and on the digests of two children. */
  datatype Hashing = Hashing(chunk: seq<Byte> -> Digest, node: (Digest, Digest) -> Digest)

  ghost predicate NodesCollisionFree(h: Hashing) {
    forall a, b, c, d :: h.node(a, b) == h.node(c, d) ==> a == c && b == d
  }

  ghost predicate ChunksCollisionFree(h: Hashing) {
    forall a, b :: h.chunk(a) == h.chunk(b) ==> a == b
  }

  function Pow2(k: nat): (p: nat)
    ensures p >= 1
  {
    if k == 0 then 1 else 2 * Pow2(k - 1)
  }

  lemma {:induction false} Pow2Monotone(j: nat, k: nat)
    requires j <= k
    ensures Pow2(j) <= Pow2(k)
    decreases k
  {
    if j < k { Pow2Monotone(j, k - 1); }
  }

  /** The logarithm of the next power of two. */
  function CeilLog2(n: nat): (k: nat)
    requires n >= 1
    ensures n <= Pow2(k)
    ensures k > 0 ==> Pow2(k - 1) < n
  {
    if n == 1 then 0 else 1 + CeilLog2((n + 1) / 2)
  }

  function NodeCount(leafCount: nat): nat
    requires leafCount >= 1
  {
    2 * leafCount - 1
  }

  predicate IsLeaf(leafCount: nat, index: nat)
    requires leafCount >= 1
  {
    index >= leafCount - 1
  }

  function IndexForLeaf(leafCount: nat, leafIndex: nat): (index: nat)
    requires leafIndex < leafCount
    ensures leafCount - 1 <= index < NodeCount(leafCount)
  {
    var start := Pow2(CeilLog2(leafCount)) - 1;
    var index := start + leafIndex;
    if index >= NodeCount(leafCount) then index - leafCount else index
  }

  /** Which leaf a leaf slot holds. */
  function LeafAt(leafCount: nat, index: nat): (i: nat)
    requires leafCount >= 1 && leafCount - 1 <= index < NodeCount(leafCount)
    ensures i < leafCount
  {
    var start := Pow2(CeilLog2(leafCount)) - 1;
    if index >= start then index - start else index + leafCount - start
  }

  /** The leaves and the leaf slots correspond one to one. */
  lemma LeafSlots(leafCount: nat, leafIndex: nat, index: nat)
    requires leafIndex < leafCount && leafCount - 1 <= index < NodeCount(leafCount)
    ensures LeafAt(leafCount, IndexForLeaf(leafCount, leafIndex)) == leafIndex
    ensures IndexForLeaf(leafCount, LeafAt(leafCount, index)) == index
  {
  }

  // ---------- Building

  /** The digest that belongs at an index. */
  function NodeAt(h: Hashing, leaves: seq<Digest>, index: nat): Digest
    requires leaves != [] && index < NodeCount(|leaves|)
    decreases NodeCount(|leaves|) - index
  {
    if IsLeaf(|leaves|, index) then leaves[LeafAt(|leaves|, index)]
    else h.node(NodeAt(h, leaves, 2 * index + 1), NodeAt(h, leaves, 2 * index + 2))
  }

  lemma NodeAtUnfolds(h: Hashing, leaves: seq<Digest>, index: nat)
    requires leaves != [] && index < NodeCount(|leaves|)
    ensures IsLeaf(|leaves|, index) ==> NodeAt(h, leaves, index) == leaves[LeafAt(|leaves|, index)]
    ensures !IsLeaf(|leaves|, index) ==>
      2 * index + 2 < NodeCount(|leaves|)
      && NodeAt(h, leaves, index) == h.node(NodeAt(h, leaves, 2 * index + 1), NodeAt(h, leaves, 2 * index + 2))
  {
  }

  function Build(h: Hashing, leaves: seq<Digest>): seq<Digest>
    requires leaves != []
  {
    seq(NodeCount(|leaves|), i requires 0 <= i < NodeCount(|leaves|) => NodeAt(h, leaves, i))
  }

  ghost predicate BranchHashed(h: Hashing, nodes: seq<Digest>, i: nat)
    requires 2 * i + 2 < |nodes|
  {
    nodes[i] == h.node(nodes[2 * i + 1], nodes[2 * i + 2])
  }

  /** Every branch is the hash of the two slots below it. */
  ghost predicate Hashed(h: Hashing, nodes: seq<Digest>) {
    forall i: nat :: 2 * i + 2 < |nodes| ==> BranchHashed(h, nodes, i)
  }

  /** The shape of a built tree, which determines it. */
  lemma BuildLayout(h: Hashing, leaves: seq<Digest>, nodes: seq<Digest>)
    requires leaves != []
    ensures nodes == Build(h, leaves) <==>
      && |nodes| == 2 * |leaves| - 1
      && Hashed(h, nodes)
      && (forall i :: 0 <= i < |leaves| ==> nodes[IndexForLeaf(|leaves|, i)] == leaves[i])
  {
    var n := |leaves|;
    if
      && |nodes| == NodeCount(n) && Hashed(h, nodes)
      && forall i :: 0 <= i < n ==> nodes[IndexForLeaf(n, i)] == leaves[i]
    {
      forall i | 0 <= i < |nodes|
        ensures nodes[i] == NodeAt(h, leaves, i)
      {
        HashedDetermines(h, leaves, nodes, i);
      }
    }
    if nodes == Build(h, leaves) {
      forall i | 0 <= i < n
        ensures nodes[IndexForLeaf(n, i)] == leaves[i]
      {
        LeafSlots(n, i, IndexForLeaf(n, i));
      }
    }
  }

  lemma {:induction false} HashedDetermines(h: Hashing, leaves: seq<Digest>, nodes: seq<Digest>, i: nat)
    requires leaves != [] && |nodes| == NodeCount(|leaves|) && Hashed(h, nodes) && i < |nodes|
    requires forall j :: 0 <= j < |leaves| ==> nodes[IndexForLeaf(|leaves|, j)] == leaves[j]
    ensures nodes[i] == NodeAt(h, leaves, i)
    decreases |nodes| - i
  {
    if IsLeaf(|leaves|, i) {
      LeafSlots(|leaves|, 0, i);
      assert nodes[IndexForLeaf(|leaves|, LeafAt(|leaves|, i))] == leaves[LeafAt(|leaves|, i)];
    } else {
      assert BranchHashed(h, nodes, i);
      HashedDetermines(h, leaves, nodes, 2 * i + 1);
      HashedDetermines(h, leaves, nodes, 2 * i + 2);
    }
  }

  /** Trees of one size with the same root are equal, if nodes do not collide. */
  lemma {:induction false} RootDetermines(h: Hashing, nodes: seq<Digest>, nodes': seq<Digest>, i: nat)
    requires NodesCollisionFree(h) && Hashed(h, nodes) && Hashed(h, nodes')
    requires |nodes| == |nodes'| && |nodes| % 2 == 1 && i < |nodes|
    requires nodes[0] == nodes'[0]
    ensures nodes[i] == nodes'[i]
    decreases i
  {
    if i > 0 {
      var p := (i - 1) / 2;
      RootDetermines(h, nodes, nodes', p);
      assert 2 * p + 2 < |nodes|;
      assert BranchHashed(h, nodes, p) && BranchHashed(h, nodes', p);
    }
  }

  /** How many leaves have been placed when the slots from `index` on in a layer are still empty. */
  ghost function Placed(n: nat, bottom: nat, layer: nat, index: nat): int {
    if layer == bottom then index - (Pow2(bottom) - 1)
    else if layer + 1 == bottom then 2 * n - Pow2(bottom) + (if index < n - 1 then 0 else index - (n - 1))
    else n
  }

  /** From `from` up to `to` every slot is empty, and from `to` on every slot holds its digest. */
  ghost predicate FilledFrom(h: Hashing, leaves: seq<Digest>, slots: array<Option<Digest>>, to: nat)
    requires leaves != []
    reads slots
  {
    && slots.Length == NodeCount(|leaves|)
    && (forall j :: 0 <= j < to && j < slots.Length ==> slots[j] == None)
    && (forall j :: to <= j < slots.Length ==> slots[j] == Some(NodeAt(h, leaves, j)))
  }

  /** One layer, from left to right: every slot was empty, and each leaf slot takes the next leaf. */
  method FillLayer(h: Hashing, leaves: seq<Digest>, slots: array<Option<Digest>>, ghost bottom: nat, layer: nat,
                   next0: nat)
    returns (next: nat)
    requires leaves != [] && bottom == CeilLog2(|leaves|) && layer <= bottom
    requires FilledFrom(h, leaves, slots, Pow2(layer + 1) - 1)
    requires next0 == Placed(|leaves|, bottom, layer, Pow2(layer) - 1)
    modifies slots
    ensures FilledFrom(h, leaves, slots, Pow2(layer) - 1)
    ensures next == Placed(|leaves|, bottom, layer, Min(Pow2(layer + 1) - 1, NodeCount(|leaves|)))
  {
    hide NodeAt, CeilLog2, LeafAt, Placed, Pow2;
    var n := |leaves|;
    var start, end := Pow2(layer) - 1, Min(Pow2(layer + 1) - 1, NodeCount(n));
    LayerBounds(n, bottom, layer);
    next := next0;
    var i := start;
    while i < end
      invariant start <= i <= end
      invariant forall j :: 0 <= j < start ==> slots[j] == None
      invariant forall j :: i <= j < end ==> slots[j] == None
      invariant forall j :: start <= j < i ==> slots[j] == Some(NodeAt(h, leaves, j))
      invariant forall j :: end <= j < slots.Length ==> slots[j] == Some(NodeAt(h, leaves, j))
      invariant next == Placed(n, bottom, layer, i)
    {
      assert slots[i] == None;
      NodeAtUnfolds(h, leaves, i);
      if IsLeaf(n, i) {
        LeafPlaces(n, bottom, layer, i);
        slots[i] := Some(leaves[next]);
        next := next + 1;
      } else {
        BranchPlaces(n, bottom, layer, i);
        var left, right := slots[2 * i + 1].value, slots[2 * i + 2].value;
        slots[i] := Some(h.node(left, right));
      }
      i := i + 1;
    }
  }

  /** Fills every slot of the tree once, layer by layer from the bottom, and takes every leaf once. */
  method FromLeaves(h: Hashing, leaves: seq<Digest>) returns (nodes: seq<Digest>)
    requires leaves != []
    ensures nodes == Build(h, leaves)
  {
    hide NodeAt, CeilLog2, LeafAt, Placed, Pow2;
    var n := |leaves|;
    var slots := new Option<Digest>[NodeCount(n)](_ => None);
    var bottom := CeilLog2(n);
    var next, layers := 0, bottom + 1;
    Pow2Above(n, bottom);
    while layers > 0
      invariant 0 <= layers <= bottom + 1
      invariant FilledFrom(h, leaves, slots, Pow2(layers) - 1)
      invariant next == (if layers == bottom + 1 then 0 else if layers == bottom then 2 * n - Pow2(bottom) else n)
    {
      layers := layers - 1;
      LayerBounds(n, bottom, layers);
      next := FillLayer(h, leaves, slots, bottom, layers, next);
    }
    AllPlaced(n, bottom);
    assert next == n;
    nodes := [];
    var k := 0;
    while k < slots.Length
      invariant 0 <= k <= slots.Length
      invariant |nodes| == k && forall j :: 0 <= j < k ==> nodes[j] == NodeAt(h, leaves, j)
    {
      nodes := nodes + [slots[k].value];
      k := k + 1;
    }
  }

  lemma Pow2Above(n: nat, bottom: nat)
    requires n >= 1 && bottom == CeilLog2(n)
    ensures Pow2(bottom + 1) - 1 >= NodeCount(n)
  {
  }

  lemma AllPlaced(n: nat, bottom: nat)
    requires n >= 1 && bottom == CeilLog2(n)
    ensures Pow2(0) == 1
    ensures bottom == 0 ==> 2 * n - Pow2(bottom) == n
  {
  }

  lemma LayerBounds(n: nat, bottom: nat, layer: nat)
    requires n >= 1 && bottom == CeilLog2(n) && layer <= bottom
    ensures Pow2(layer + 1) == 2 * Pow2(layer)
    ensures Pow2(layer) - 1 <= NodeCount(n)
    ensures layer < bottom ==> Pow2(layer + 1) - 1 <= NodeCount(n) && Pow2(layer) - 1 <= n - 1
    ensures layer + 1 < bottom ==> Pow2(layer + 1) - 1 <= n - 1
    ensures layer == bottom ==> Pow2(layer) - 1 >= n - 1
    ensures Placed(n, bottom, layer, Pow2(layer) - 1)
         == (if layer == bottom then 0 else if layer + 1 == bottom then 2 * n - Pow2(bottom) else n)
    ensures Placed(n, bottom, layer, Min(Pow2(layer + 1) - 1, NodeCount(n)))
         == (if layer == bottom then 2 * n - Pow2(bottom) else n)
  {
    if layer < bottom { Pow2Monotone(layer, bottom - 1); }
    if layer + 1 < bottom { Pow2Monotone(layer + 1, bottom - 1); }
  }

  lemma LeafPlaces(n: nat, bottom: nat, layer: nat, i: nat)
    requires n >= 1 && bottom == CeilLog2(n) && layer <= bottom
    requires Pow2(layer) - 1 <= i < Min(Pow2(layer + 1) - 1, NodeCount(n)) && IsLeaf(n, i)
    ensures Placed(n, bottom, layer, i) == LeafAt(n, i)
    ensures Placed(n, bottom, layer, i + 1) == Placed(n, bottom, layer, i) + 1
  {
    LayerBounds(n, bottom, layer);
  }

  lemma BranchPlaces(n: nat, bottom: nat, layer: nat, i: nat)
    requires n >= 1 && bottom == CeilLog2(n) && layer <= bottom
    requires Pow2(layer) - 1 <= i < Min(Pow2(layer + 1) - 1, NodeCount(n)) && !IsLeaf(n, i)
    ensures Placed(n, bottom, layer, i + 1) == Placed(n, bottom, layer, i)
  {
    LayerBounds(n, bottom, layer);
  }

  // ---------- Chunks

  function Leaves(h: Hashing, chunks: seq<seq<Byte>>): seq<Digest> {
    seq<Digest>(|chunks|, i requires 0 <= i < |chunks| => h.chunk(chunks[i]))
  }

  /** The tree of no chunks is the tree of one empty chunk. */
  function ChunkTree(h: Hashing, chunks: seq<seq<Byte>>): seq<Digest> {
    Build(h, Leaves(h, if chunks == [] then [[]] else chunks))
  }

  /** The root of the tree of a single chunk is its hash, and so is that of no chunks, which counts as an empty one. */
  lemma SmallTrees(h: Hashing, chunk: seq<Byte>)
    ensures ChunkTree(h, [chunk]) == [h.chunk(chunk)]
    ensures ChunkTree(h, []) == [h.chunk([])]
  {
    assert Leaves(h, [chunk]) == [h.chunk(chunk)] && Leaves(h, [[]]) == [h.chunk([])];
    BuildLayout(h, [h.chunk(chunk)], [h.chunk(chunk)]);
    BuildLayout(h, [h.chunk([])], [h.chunk([])]);
  }

  method FromChunks(h: Hashing, chunks: seq<seq<Byte>>) returns (nodes: seq<Digest>)
    ensures nodes == ChunkTree(h, chunks)
  {
    var leaves := Leaves(h, chunks);
    if leaves == [] {
      leaves := Leaves(h, [[]]);
    }
    nodes := FromLeaves(h, leaves);
  }

  function LeafCount(nodes: seq<Digest>): nat {
    (|nodes| + 1) / 2
  }

  predicate ValidateChunk(h: Hashing, nodes: seq<Digest>, leafIndex: nat, chunk: seq<Byte>)
    requires |nodes| % 2 == 1 && leafIndex < LeafCount(nodes)
  {
    nodes[IndexForLeaf(LeafCount(nodes), leafIndex)] == h.chunk(chunk)
  }

  /** A chunk passes exactly if it is the one the tree was built from. */
  lemma ValidChunkIsOriginal(h: Hashing, chunks: seq<seq<Byte>>, leafIndex: nat, chunk: seq<Byte>)
    requires ChunksCollisionFree(h) && leafIndex < |chunks|
    ensures var nodes := ChunkTree(h, chunks);
      |nodes| == 2 * |chunks| - 1 && (ValidateChunk(h, nodes, leafIndex, chunk) <==> chunk == chunks[leafIndex])
  {
    hide NodeAt, CeilLog2, LeafAt, IndexForLeaf, Hashed;
    BuildLayout(h, Leaves(h, chunks), ChunkTree(h, chunks));
  }
}
