/**
  A store on its way from an id to its full state: metadata, then the Merkle tree, then the blocks of the initial
  state, each checked against what came before.
 */
module Download {
  import opened Common
  import opened EventGraph
  import opened StoreIds
  import opened StoreLoop
  import opened Merkle
  import opened PartialMerkle
  import opened Blocks
  import opened Ranges

  const MERKLE_REQUEST_LIMIT: nat := 16
  const BLOCK_REQUEST_LIMIT: nat := 16

  /** The parts that come from elsewhere: hashes, the parser of the initial state, and the CRDT. */
  datatype Env<!S, !Op> = Env(
    hashing: Hashing,
    hash: seq<Byte> -> StoreId,
    parse: Bytes -> Option<S>,
    crdt: Crdt<S, Op>)
  {
    function IdOf(m: Metadata): StoreId {
      StoreIdOf(hash, m)
    }
  }

  datatype Phase<S> =
    | DownloadingMetadata(storeId: StoreId)
    | DownloadingMerkle(metadata: Metadata, partial: Nodes)
    | DownloadingInitialState(metadata: Metadata, tree: Nodes', blocks: seq<Option<Bytes>>)
    | Syncing(metadata: Metadata, tree: Nodes', initialState: Bytes, ecg: Graph, latest: S)
    | Crashed

  /** A complete tree. */
  type Nodes' = s: seq<Digest> | |s| % 2 == 1 witness [0]

  datatype Command =
    | ReceivedMetadata(metadata: Metadata)
    | ReceivedMerkleHashes(ranges: seq<Range>, hashes: seq<Digest>)
    | ReceivedBlocks(blockRanges: seq<Range>, blocks: seq<Option<Bytes>>)
    | ReceivedOperations(operations: seq<Header>)
    | ApplyLocally(header: Header)

  function CurrentId<S, Op>(env: Env<S, Op>, st: Phase<S>): StoreId
    requires !st.Crashed?
  {
    if st.DownloadingMetadata? then st.storeId else env.IdOf(st.metadata)
  }

  // ---------- Transitions

  /** The state parses, or the store is unusable. */
  function ToSyncing<S, Op>(env: Env<S, Op>, m: Metadata, tree: Nodes', blocks: seq<Option<Bytes>>): Phase<S> {
    var bytes := Concat(Present(blocks));
    match env.parse(bytes)
    case None => Crashed
    case Some(s) => Syncing(m, tree, bytes, [], s)
  }

  function Present(blocks: seq<Option<Bytes>>): seq<Bytes> {
    if blocks == [] then []
    else Present(blocks[..|blocks| - 1]) + (match blocks[|blocks| - 1] case None => [] case Some(b) => [b])
  }

  function ToInitialState<S, Op>(env: Env<S, Op>, m: Metadata, partial: Nodes): Phase<S> {
    match TryComplete(partial)
    case None => DownloadingMerkle(m, partial)
    case Some(tree) =>
      var blocks := seq(BlockCount(m.initialStateSize), _ => None);
      if m.initialStateSize == 0 then ToSyncing(env, m, tree, blocks) else DownloadingInitialState(m, tree, blocks)
  }

  /**
    Metadata that hashes to our store id (re)starts the download, whatever the phase was. A tree without leaves cannot
    be allocated.
   */
  function OnMetadata<S, Op>(env: Env<S, Op>, st: Phase<S>, m: Metadata): Phase<S>
    requires !st.Crashed?
  {
    if env.IdOf(m) != CurrentId(env, st) then st
    else
      var count := BlockCount(m.initialStateSize);
      if count == 0 then Crashed
      else
        var partial := NewWithCapacity(m.merkleRoot, count);
        if count <= 1 then ToInitialState(env, m, partial) else DownloadingMerkle(m, partial)
  }

  function Proposals(ids: seq<nat>, hashes: seq<Digest>): seq<Proposal>
    requires |ids| == |hashes|
  {
    seq(|ids|, i requires 0 <= i < |ids| => Proposal(ids[i], hashes[i]))
  }

  function OnMerkleHashes<S, Op>(env: Env<S, Op>, st: Phase<S>, ids: seq<nat>, hashes: seq<Digest>): Phase<S>
    requires !st.Crashed?
  {
    if |ids| != |hashes| || !st.DownloadingMerkle? then st
    else ToInitialState(env, st.metadata, SetAll(env.hashing, st.partial, Proposals(ids, hashes)))
  }

  /** Takes one block if its place is empty and it fits the tree; `None` is an index out of range. */
  function TakeBlock(h: Hashing, tree: Nodes', blocks: seq<Option<Bytes>>, i: nat, b: Option<Bytes>)
    : Option<seq<Option<Bytes>>>
  {
    if b.None? then Some(blocks)
    else if i >= |blocks| then None
    else if blocks[i].None? then
      if i >= LeafCount(tree) then None
      else if ValidateChunk(h, tree, i, b.value) then Some(blocks[i := b])
      else Some(blocks)
    else Some(blocks)
  }

  function TakeBlocks(h: Hashing, tree: Nodes', blocks: seq<Option<Bytes>>, ids: seq<nat>, bs: seq<Option<Bytes>>)
    : Option<seq<Option<Bytes>>>
    requires |ids| == |bs|
    decreases |ids|
  {
    if ids == [] then Some(blocks)
    else match TakeBlock(h, tree, blocks, ids[0], bs[0])
      case None => None
      case Some(blocks') => TakeBlocks(h, tree, blocks', ids[1..], bs[1..])
  }

  predicate AnyMissing(blocks: seq<Option<Bytes>>) {
    exists i :: 0 <= i < |blocks| && blocks[i].None?
  }

  function OnBlocks<S, Op>(env: Env<S, Op>, st: Phase<S>, ids: seq<nat>, bs: seq<Option<Bytes>>): Phase<S>
    requires !st.Crashed?
  {
    if |ids| != |bs| || !st.DownloadingInitialState? then st
    else match TakeBlocks(env.hashing, st.tree, st.blocks, ids, bs)
      case None => Crashed
      case Some(blocks) =>
        if AnyMissing(blocks) then st.(blocks := blocks) else ToSyncing(env, st.metadata, st.tree, blocks)
  }

  function AfterOperations<S>(st: Phase<S>, r: Store<S>): Phase<S>
    requires st.Syncing?
  {
    match r
    case Panicked => Crashed
    case Running(ecg, latest) => st.(ecg := ecg, latest := latest)
  }

  function Execute<S, Op>(env: Env<S, Op>, st: Phase<S>, cmd: Command): Phase<S> {
    if st.Crashed? then Crashed
    else match cmd
      case ReceivedMetadata(m) => OnMetadata(env, st, m)
      case ReceivedMerkleHashes(ranges, hashes) => OnMerkleHashes(env, st, Flatten(ranges), hashes)
      case ReceivedBlocks(ranges, blocks) => OnBlocks(env, st, Flatten(ranges), blocks)
      case ReceivedOperations(hs) =>
        if st.Syncing? then AfterOperations(st, ReceiveAll(env.crdt, Running(st.ecg, st.latest), hs)) else Crashed
      case ApplyLocally(h) =>
        if !st.Syncing? then st
        else if Accepts(st.ecg, h) then AfterOperations(st, Receive(env.crdt, Running(st.ecg, st.latest), h))
        else Crashed
  }

  function Run<S, Op>(env: Env<S, Op>, st: Phase<S>, cmds: seq<Command>): Phase<S>
    decreases |cmds|
  {
    if cmds == [] then st else Run(env, Execute(env, st, cmds[0]), cmds[1..])
  }

  // ---------- What holds in every phase, whatever peers send

  ghost predicate PhaseInv<S, Op>(env: Env<S, Op>, id: StoreId, st: Phase<S>) {
    match st
    case DownloadingMetadata(storeId) => storeId == id
    case DownloadingMerkle(m, partial) =>
      && env.IdOf(m) == id && BlockCount(m.initialStateSize) >= 1
      && |partial| == NodeCount(BlockCount(m.initialStateSize)) && partial[0] == Verified(m.merkleRoot)
      && Inv(env.hashing, partial) && MissingIndices(partial) != []
    case DownloadingInitialState(m, tree, blocks) =>
      && env.IdOf(m) == id && BlockCount(m.initialStateSize) >= 1
      && |tree| == NodeCount(BlockCount(m.initialStateSize)) && |blocks| == BlockCount(m.initialStateSize)
      && tree[0] == m.merkleRoot && Hashed(env.hashing, tree)
      && AnyMissing(blocks)
    case Syncing(m, _, _, _, _) => env.IdOf(m) == id
    case Crashed => true
  }

  lemma CompletedIsHashed(h: Hashing, s: Nodes)
    requires Inv(h, s) && TryComplete(s).Some?
    ensures Hashed(h, TryComplete(s).value) && |TryComplete(s).value| == |s| && TryComplete(s).value[0] == s[0].digest
  {
    forall i: nat | 2 * i + 2 < |s|
      ensures BranchHashed(h, TryComplete(s).value, i)
    {
      assert IsBranch(s, i) && PairSound(h, s, i);
    }
  }

  lemma ToInitialStateInv<S, Op>(env: Env<S, Op>, id: StoreId, m: Metadata, partial: Nodes)
    requires env.IdOf(m) == id && BlockCount(m.initialStateSize) >= 1 && Inv(env.hashing, partial)
    requires |partial| == NodeCount(BlockCount(m.initialStateSize)) && partial[0] == Verified(m.merkleRoot)
    ensures PhaseInv(env, id, ToInitialState(env, m, partial))
  {
    CompleteIffNothingMissing(env.hashing, partial);
    if TryComplete(partial).Some? {
      CompletedIsHashed(env.hashing, partial);
      var st := ToInitialState(env, m, partial);
      assert st.blocks[0].None?;
    }
  }

  lemma {:induction false} TakeBlocksLength(h: Hashing, tree: Nodes', blocks: seq<Option<Bytes>>, ids: seq<nat>,
                                            bs: seq<Option<Bytes>>)
    requires |ids| == |bs|
    ensures var r := TakeBlocks(h, tree, blocks, ids, bs); r.Some? ==> |r.value| == |blocks|
    decreases |ids|
  {
    if ids != [] {
      var r := TakeBlock(h, tree, blocks, ids[0], bs[0]);
      if r.Some? { TakeBlocksLength(h, tree, r.value, ids[1..], bs[1..]); }
    }
  }

  lemma ExecuteKeepsInv<S, Op>(env: Env<S, Op>, id: StoreId, st: Phase<S>, cmd: Command)
    requires PhaseInv(env, id, st)
    ensures PhaseInv(env, id, Execute(env, st, cmd))
  {
    if !st.Crashed? {
      match cmd
      case ReceivedMetadata(m) =>
        var count := BlockCount(m.initialStateSize);
        if env.IdOf(m) == id && count > 0 {
          var partial := NewWithCapacity(m.merkleRoot, count);
          NewIsInv(env.hashing, m.merkleRoot, count);
          if count <= 1 {
            ToInitialStateInv(env, id, m, partial);
          } else {
            MissingUpToMembers(partial, |partial|);
            assert partial[1].Missing?;
          }
        }
      case ReceivedMerkleHashes(ranges, hashes) =>
        if |Flatten(ranges)| == |hashes| && st.DownloadingMerkle? {
          var ps := Proposals(Flatten(ranges), hashes);
          RunKeepsInv(env.hashing, st.partial, ps);
          ToInitialStateInv(env, id, st.metadata, SetAll(env.hashing, st.partial, ps));
        }
      case ReceivedBlocks(ranges, blocks) =>
        if |Flatten(ranges)| == |blocks| && st.DownloadingInitialState? {
          TakeBlocksLength(env.hashing, st.tree, st.blocks, Flatten(ranges), blocks);
        }
      case _ =>
    }
  }

  /**
    Over every sequence of commands the store id never changes, a store that downloads its Merkle tree misses a node,
    and one that downloads its initial state misses a block.
   */
  lemma {:induction false} PhaseInvariants<S, Op>(env: Env<S, Op>, id: StoreId, st: Phase<S>, cmds: seq<Command>)
    requires PhaseInv(env, id, st)
    ensures PhaseInv(env, id, Run(env, st, cmds))
    ensures !Run(env, st, cmds).Crashed? ==> CurrentId(env, Run(env, st, cmds)) == id
    decreases |cmds|
  {
    if cmds != [] {
      ExecuteKeepsInv(env, id, st, cmds[0]);
      PhaseInvariants(env, id, Execute(env, st, cmds[0]), cmds[1..]);
    }
  }

  // ---------- What one response does

  /** Every node but the root is missing. */
  ghost predicate Untouched(partial: Nodes, root: Digest) {
    partial[0] == Verified(root) && forall j :: 0 < j < |partial| ==> partial[j].Missing?
  }

  /**
    Metadata that is not ours changes nothing. Our own starts the download anew, whatever the phase: from an empty tree,
    or at once with the blocks if a single one is all there is; without any block it is a failure.
   */
  lemma MetadataDecides<S, Op>(env: Env<S, Op>, st: Phase<S>, m: Metadata)
    requires !st.Crashed?
    ensures var st', count := Execute(env, st, ReceivedMetadata(m)), BlockCount(m.initialStateSize);
      if env.IdOf(m) != CurrentId(env, st) then st' == st
      else if count == 0 then st'.Crashed?
      else if count == 1 then st' == DownloadingInitialState(m, [m.merkleRoot], [None])
      else
        && st'.DownloadingMerkle? && st'.metadata == m && |st'.partial| == 2 * count - 1
        && Untouched(st'.partial, m.merkleRoot)
  {
    hide ToSyncing;
    if BlockCount(m.initialStateSize) == 1 {
      var partial := NewWithCapacity(m.merkleRoot, 1);
      assert Complete(partial);
      assert TryComplete(partial).value == [m.merkleRoot];
      assert seq<Option<Bytes>>(1, _ => None) == [None];
    }
  }

  /** A response that does not give as many answers as it names indices changes nothing, and neither does a late one. */
  lemma MalformedIsIgnored<S, Op>(env: Env<S, Op>, st: Phase<S>, ranges: seq<Range>, hashes: seq<Digest>,
                                  blocks: seq<Option<Bytes>>)
    requires !st.Crashed?
    ensures |Flatten(ranges)| != |hashes| || !st.DownloadingMerkle? ==>
      Execute(env, st, ReceivedMerkleHashes(ranges, hashes)) == st
    ensures |Flatten(ranges)| != |blocks| || !st.DownloadingInitialState? ==>
      Execute(env, st, ReceivedBlocks(ranges, blocks)) == st
  {
  }

  /** A block among the answers that is valid for its index. */
  ghost predicate Offers(h: Hashing, tree: Nodes', ids: seq<nat>, bs: seq<Option<Bytes>>, i: nat, b: Option<Bytes>)
    requires |ids| == |bs| && i < LeafCount(tree)
  {
    b.Some? && exists k :: 0 <= k < |ids| && ids[k] == i && bs[k] == b && ValidateChunk(h, tree, i, b.value)
  }

  /**
    What blocks do: one for an index out of range is a failure; otherwise a block that is there stays, and a missing
    one is there afterwards exactly if a valid one is among the answers, and then it is such a one.
   */
  lemma {:induction false} BlocksTaken(h: Hashing, tree: Nodes', blocks: seq<Option<Bytes>>, ids: seq<nat>,
                                       bs: seq<Option<Bytes>>)
    requires |ids| == |bs| && |blocks| <= LeafCount(tree)
    ensures var r := TakeBlocks(h, tree, blocks, ids, bs);
      && (r.None? <==> exists k :: 0 <= k < |ids| && bs[k].Some? && ids[k] >= |blocks|)
      && (r.Some? ==> |r.value| == |blocks|)
      && (r.Some? ==> forall i :: 0 <= i < |blocks| ==>
            if blocks[i].Some? then r.value[i] == blocks[i]
            else if r.value[i].Some? then Offers(h, tree, ids, bs, i, r.value[i])
            else forall b :: !Offers(h, tree, ids, bs, i, b))
    decreases |ids|
  {
    hide ValidateChunk, LeafCount;
    if ids != [] {
      var first := TakeBlock(h, tree, blocks, ids[0], bs[0]);
      if first.Some? {
        BlocksTaken(h, tree, first.value, ids[1..], bs[1..]);
        assert forall k :: 0 < k < |ids| ==> ids[k] == ids[1..][k - 1] && bs[k] == bs[1..][k - 1];
        forall i, b | 0 <= i < |blocks|
          ensures Offers(h, tree, ids, bs, i, b) <==>
            || Offers(h, tree, ids[1..], bs[1..], i, b)
            || (ids[0] == i && bs[0] == b && b.Some? && ValidateChunk(h, tree, i, b.value))
        {
          OffersFirst(h, tree, ids, bs, i, b);
        }
      }
    }
  }

  lemma OffersFirst(h: Hashing, tree: Nodes', ids: seq<nat>, bs: seq<Option<Bytes>>, i: nat, b: Option<Bytes>)
    requires |ids| == |bs| && i < LeafCount(tree) && ids != []
    ensures Offers(h, tree, ids, bs, i, b) <==>
      || Offers(h, tree, ids[1..], bs[1..], i, b)
      || (ids[0] == i && bs[0] == b && b.Some? && ValidateChunk(h, tree, i, b.value))
  {
    hide ValidateChunk, LeafCount;
    if Offers(h, tree, ids, bs, i, b) {
      var k :| 0 <= k < |ids| && ids[k] == i && bs[k] == b && ValidateChunk(h, tree, i, b.value);
      if k > 0 { assert ids[1..][k - 1] == i && bs[1..][k - 1] == b; }
    }
    if Offers(h, tree, ids[1..], bs[1..], i, b) {
      var k :| 0 <= k < |ids[1..]| && ids[1..][k] == i && bs[1..][k] == b && ValidateChunk(h, tree, i, b.value);
      assert ids[k + 1] == i && bs[k + 1] == b;
    }
  }

  // ---------- Progress reports and requests

  function Downloaded(blocks: seq<Option<Bytes>>): nat {
    if blocks == [] then 0
    else Downloaded(blocks[..|blocks| - 1]) + (if blocks[|blocks| - 1].Some? then 1 else 0)
  }

  function Percent<S>(st: Phase<S>): nat {
    if !st.DownloadingInitialState? || st.metadata.initialStateSize == 0 then 0
    else 100 * Downloaded(st.blocks) * BLOCK_SIZE / st.metadata.initialStateSize
  }

  lemma {:induction false} DownloadedBound(blocks: seq<Option<Bytes>>)
    ensures Downloaded(blocks) <= |blocks|
    ensures AnyMissing(blocks) ==> Downloaded(blocks) < |blocks|
  {
    if blocks != [] {
      var init := blocks[..|blocks| - 1];
      DownloadedBound(init);
      if AnyMissing(blocks) && blocks[|blocks| - 1].Some? {
        var i :| 0 <= i < |blocks| && blocks[i].None?;
        assert init[i].None?;
      }
    }
  }

  /** The reported percentage never reaches 100 while downloading. */
  lemma PercentBelow100<S, Op>(env: Env<S, Op>, id: StoreId, st: Phase<S>)
    requires PhaseInv(env, id, st)
    ensures Percent(st) < 100
  {
    if st.DownloadingInitialState? && st.metadata.initialStateSize != 0 {
      DownloadedBound(st.blocks);
      var d: nat, size: nat := Downloaded(st.blocks), st.metadata.initialStateSize;
      assert d * BLOCK_SIZE < size;
      assert 100 * d * BLOCK_SIZE < 100 * size;
      QuotientBelow(100 * d * BLOCK_SIZE, size, 100);
    }
  }

  /** The percentage is that of the bytes of full blocks that are there, rounded down. */
  lemma PercentExact<S, Op>(env: Env<S, Op>, id: StoreId, st: Phase<S>)
    requires PhaseInv(env, id, st)
    ensures st.DownloadingInitialState? ==>
      var present := set i | 0 <= i < |st.blocks| && st.blocks[i].Some?;
      var size := st.metadata.initialStateSize;
      Percent(st) * size <= 100 * |present| * BLOCK_SIZE < (Percent(st) + 1) * size
    ensures !st.DownloadingInitialState? ==> Percent(st) == 0
  {
    if st.DownloadingInitialState? {
      DownloadedCounts(st.blocks);
      var size: nat := st.metadata.initialStateSize;
      assert size > 0;
      DivisionBounds(100 * Downloaded(st.blocks) * BLOCK_SIZE, size);
    }
  }

  lemma DivisionBounds(a: nat, b: nat)
    requires b > 0
    ensures a / b * b <= a < (a / b + 1) * b
  {
  }

  lemma {:induction false} DownloadedCounts(blocks: seq<Option<Bytes>>)
    ensures Downloaded(blocks) == |set i | 0 <= i < |blocks| && blocks[i].Some?|
    decreases |blocks|
  {
    var present := set i | 0 <= i < |blocks| && blocks[i].Some?;
    if blocks != [] {
      var n := |blocks| - 1;
      var before := set i | 0 <= i < n && blocks[..n][i].Some?;
      DownloadedCounts(blocks[..n]);
      assert present == if blocks[n].Some? then before + {n} else before;
    }
  }

  lemma QuotientBelow(a: nat, b: nat, k: nat)
    requires b > 0 && a < k * b
    ensures a / b < k
  {
    var q := a / b;
    assert q * b <= a;
    if k <= q { ProductsGrow(k, q, b); }
  }

  lemma ProductsGrow(k: nat, q: nat, b: nat)
    requires k <= q
    ensures k * b <= q * b
  {
  }

  function MissingBlocksUpTo(blocks: seq<Option<Bytes>>, n: nat): seq<nat>
    requires n <= |blocks|
  {
    if n == 0 then []
    else MissingBlocksUpTo(blocks, n - 1) + (if blocks[n - 1].None? then [n - 1] else [])
  }

  lemma {:induction false} MissingBlocksMembers(blocks: seq<Option<Bytes>>, n: nat)
    requires n <= |blocks|
    ensures forall i :: i in MissingBlocksUpTo(blocks, n) <==> 0 <= i < n && blocks[i].None?
  {
    if n > 0 { MissingBlocksMembers(blocks, n - 1); }
  }

  /** The indices a phase still needs. */
  function Needed<S>(st: Phase<S>): seq<nat> {
    match st
    case DownloadingMerkle(_, partial) => MissingIndices(partial)
    case DownloadingInitialState(_, _, blocks) => MissingBlocksUpTo(blocks, |blocks|)
    case _ => []
  }

  /** The requests a store would like to send, before they are dealt out to peers in some order. */
  function SyncRequests<S>(st: Phase<S>): seq<seq<Range>> {
    Requests(Needed(st), if st.DownloadingMerkle? then MERKLE_REQUEST_LIMIT else BLOCK_REQUEST_LIMIT)
  }

  /** There is always something to request, no request is over the limit, and together they ask for what is missing. */
  lemma RequestsAreExact<S, Op>(env: Env<S, Op>, id: StoreId, st: Phase<S>)
    requires PhaseInv(env, id, st) && (st.DownloadingMerkle? || st.DownloadingInitialState?)
    ensures SyncRequests(st) != []
    ensures FlattenRequests(SyncRequests(st)) == Needed(st)
    ensures forall i :: 0 <= i < |SyncRequests(st)| ==> 0 < |Flatten(SyncRequests(st)[i])| <= 16
    ensures forall i :: i in Needed(st) <==>
      if st.DownloadingMerkle? then 0 <= i < |st.partial| && st.partial[i].Missing?
      else 0 <= i < |st.blocks| && st.blocks[i].None?
  {
    RequestsCover(Needed(st), 16);
    if st.DownloadingMerkle? {
      MissingUpToMembers(st.partial, |st.partial|);
    } else {
      MissingBlocksMembers(st.blocks, |st.blocks|);
    }
  }

  // ---------- What the creator of the store published

  function MetadataOf(h: Hashing, nonce: Bytes32, version: Byte, storeType: Bytes32, bytes: Bytes): Metadata
    requires |bytes| < 0x1_0000_0000_0000_0000
  {
    Metadata(nonce, version, storeType, |bytes|, ChunkTree(h, Chunks(bytes))[0])
  }

  /** The metadata belongs to these bytes, which are not empty: even an empty state serializes to some byte. */
  ghost predicate Published(h: Hashing, m: Metadata, bytes: Bytes) {
    bytes != [] && m.initialStateSize == |bytes| && m.merkleRoot == ChunkTree(h, Chunks(bytes))[0]
  }

  /** Creating a store publishes its metadata. */
  lemma CreatorPublishes(h: Hashing, nonce: Bytes32, version: Byte, storeType: Bytes32, bytes: Bytes)
    requires bytes != [] && |bytes| < 0x1_0000_0000_0000_0000
    ensures Published(h, MetadataOf(h, nonce, version, storeType, bytes), bytes)
    ensures BlockCount(MetadataOf(h, nonce, version, storeType, bytes).initialStateSize) == |Chunks(bytes)| >= 1
  {
  }

  ghost predicate CollisionFree<S(!new), Op(!new)>(env: Env<S, Op>) {
    NodesCollisionFree(env.hashing) && ChunksCollisionFree(env.hashing) && HashCollisionFree(env.hash)
  }

  /** Nothing but the published metadata, tree and bytes has been taken over. */
  ghost predicate Faithful<S, Op>(env: Env<S, Op>, m: Metadata, bytes: Bytes, st: Phase<S>) {
    PhaseInv(env, env.IdOf(m), st) &&
    match st
    case DownloadingMetadata(_) => true
    case DownloadingMerkle(m', _) => m' == m
    case DownloadingInitialState(m', tree, blocks) =>
      && m' == m && tree == ChunkTree(env.hashing, Chunks(bytes)) && |blocks| == |Chunks(bytes)|
      && (forall i :: 0 <= i < |blocks| && blocks[i].Some? ==> blocks[i].value == Chunks(bytes)[i])
    case Syncing(m', tree, initialState, _, _) =>
      m' == m && tree == ChunkTree(env.hashing, Chunks(bytes)) && initialState == bytes
    case Crashed => true
  }

  /** A complete tree under the published root is the published tree. */
  lemma TreeIsPublished<S(!new), Op(!new)>(env: Env<S, Op>, m: Metadata, bytes: Bytes, partial: Nodes)
    requires CollisionFree(env) && Published(env.hashing, m, bytes) && Inv(env.hashing, partial)
    requires |partial| == NodeCount(BlockCount(m.initialStateSize)) && partial[0] == Verified(m.merkleRoot)
    requires TryComplete(partial).Some?
    ensures TryComplete(partial).value == ChunkTree(env.hashing, Chunks(bytes))
  {
    CompletedIsOriginal(env.hashing, partial, Leaves(env.hashing, Chunks(bytes)));
  }

  lemma ToInitialStateFaithful<S(!new), Op(!new)>(env: Env<S, Op>, m: Metadata, bytes: Bytes, partial: Nodes)
    requires CollisionFree(env) && Published(env.hashing, m, bytes) && Inv(env.hashing, partial)
    requires |partial| == NodeCount(BlockCount(m.initialStateSize)) && partial[0] == Verified(m.merkleRoot)
    ensures Faithful(env, m, bytes, ToInitialState(env, m, partial))
  {
    ToInitialStateInv(env, env.IdOf(m), m, partial);
    if TryComplete(partial).Some? { TreeIsPublished(env, m, bytes, partial); }
  }

  lemma {:induction false} TakeBlocksFaithful<S(!new), Op(!new)>(env: Env<S, Op>, bytes: Bytes, tree: Nodes',
      blocks: seq<Option<Bytes>>, ids: seq<nat>, bs: seq<Option<Bytes>>)
    requires CollisionFree(env) && bytes != [] && tree == ChunkTree(env.hashing, Chunks(bytes))
    requires |ids| == |bs| && |blocks| == |Chunks(bytes)|
    requires forall i :: 0 <= i < |blocks| && blocks[i].Some? ==> blocks[i].value == Chunks(bytes)[i]
    ensures var r := TakeBlocks(env.hashing, tree, blocks, ids, bs);
      r.Some? ==> (|r.value| == |blocks|
        && forall i :: 0 <= i < |blocks| && r.value[i].Some? ==> r.value[i].value == Chunks(bytes)[i])
    decreases |ids|
  {
    if ids != [] {
      if bs[0].Some? && ids[0] < |blocks| {
        ValidChunkIsOriginal(env.hashing, Chunks(bytes), ids[0], bs[0].value);
      }
      var r := TakeBlock(env.hashing, tree, blocks, ids[0], bs[0]);
      if r.Some? { TakeBlocksFaithful(env, bytes, tree, r.value, ids[1..], bs[1..]); }
    }
  }

  lemma {:induction false} AllPresent(blocks: seq<Option<Bytes>>, chunks: seq<Bytes>)
    requires |blocks| == |chunks| && !AnyMissing(blocks)
    requires forall i :: 0 <= i < |blocks| && blocks[i].Some? ==> blocks[i].value == chunks[i]
    ensures Present(blocks) == chunks
  {
    if blocks != [] {
      var n := |blocks| - 1;
      assert !AnyMissing(blocks[..n]) by {
        forall i | 0 <= i < n
          ensures blocks[..n][i].Some?
        {
          assert !blocks[i].None?;
        }
      }
      AllPresent(blocks[..n], chunks[..n]);
      assert !blocks[n].None?;
      assert chunks == chunks[..n] + [chunks[n]];
    }
  }

  lemma BlocksFaithful<S(!new), Op(!new)>(env: Env<S, Op>, m: Metadata, bytes: Bytes, st: Phase<S>,
                                          ranges: seq<Range>, bs: seq<Option<Bytes>>)
    requires CollisionFree(env) && Published(env.hashing, m, bytes) && Faithful(env, m, bytes, st) && !st.Crashed?
    ensures Faithful(env, m, bytes, Execute(env, st, ReceivedBlocks(ranges, bs)))
  {
    hide TakeBlocks, PhaseInv, ChunkTree, Chunks, Flatten;
    ExecuteKeepsInv(env, env.IdOf(m), st, ReceivedBlocks(ranges, bs));
    if |Flatten(ranges)| == |bs| && st.DownloadingInitialState? {
      TakeBlocksFaithful(env, bytes, st.tree, st.blocks, Flatten(ranges), bs);
      var r := TakeBlocks(env.hashing, st.tree, st.blocks, Flatten(ranges), bs);
      if r.Some? && !AnyMissing(r.value) {
        AllPresent(r.value, Chunks(bytes));
        ConcatChunks(bytes);
      }
    }
  }

  lemma ExecuteFaithful<S(!new), Op(!new)>(env: Env<S, Op>, m: Metadata, bytes: Bytes, st: Phase<S>, cmd: Command)
    requires CollisionFree(env) && Published(env.hashing, m, bytes) && Faithful(env, m, bytes, st)
    ensures Faithful(env, m, bytes, Execute(env, st, cmd))
  {
    hide OnBlocks, TakeBlocks;
    ExecuteKeepsInv(env, env.IdOf(m), st, cmd);
    if !st.Crashed? {
      match cmd
      case ReceivedMetadata(m') =>
        ValidatesIff(env.hash, m', m);
        if env.IdOf(m') == env.IdOf(m) && BlockCount(m'.initialStateSize) > 0 {
          var count := BlockCount(m.initialStateSize);
          NewIsInv(env.hashing, m.merkleRoot, count);
          if count <= 1 { ToInitialStateFaithful(env, m, bytes, NewWithCapacity(m.merkleRoot, count)); }
        }
      case ReceivedMerkleHashes(ranges, hashes) =>
        if |Flatten(ranges)| == |hashes| && st.DownloadingMerkle? {
          var ps := Proposals(Flatten(ranges), hashes);
          RunKeepsInv(env.hashing, st.partial, ps);
          ToInitialStateFaithful(env, m, bytes, SetAll(env.hashing, st.partial, ps));
        }
      case ReceivedBlocks(ranges, bs) =>
        BlocksFaithful(env, m, bytes, st, ranges, bs);
      case _ =>
    }
  }

  lemma {:induction false} RunFaithful<S(!new), Op(!new)>(env: Env<S, Op>, m: Metadata, bytes: Bytes, st: Phase<S>,
                                                          cmds: seq<Command>)
    requires CollisionFree(env) && Published(env.hashing, m, bytes) && Faithful(env, m, bytes, st)
    ensures Faithful(env, m, bytes, Run(env, st, cmds))
    decreases |cmds|
  {
    if cmds != [] {
      ExecuteFaithful(env, m, bytes, st, cmds[0]);
      RunFaithful(env, m, bytes, Execute(env, st, cmds[0]), cmds[1..]);
    }
  }

  /**
    Whatever metadata, hashes and blocks any peers send, a store that was given only the id and reaches its syncing
    phase holds exactly the metadata, the tree and the bytes that the creator of that id published.
   */
  lemma DownloadIsExact<S(!new), Op(!new)>(env: Env<S, Op>, m: Metadata, bytes: Bytes, cmds: seq<Command>)
    requires CollisionFree(env) && Published(env.hashing, m, bytes)
    ensures var st := Run(env, DownloadingMetadata(env.IdOf(m)), cmds);
      st.Syncing? ==> st.metadata == m && st.tree == ChunkTree(env.hashing, Chunks(bytes)) && st.initialState == bytes
  {
    RunFaithful(env, m, bytes, DownloadingMetadata(env.IdOf(m)), cmds);
  }

  // ---------- Serving, and a download that succeeds

  function TreeOf(h: Hashing, bytes: Bytes): Nodes' {
    ChunkTree(h, Chunks(bytes))
  }

  /** The phase a download is meant to end in. */
  function Arrived<S, Op>(env: Env<S, Op>, m: Metadata, bytes: Bytes): Phase<S>
    requires env.parse(bytes).Some?
  {
    Syncing(m, TreeOf(env.hashing, bytes), bytes, [], env.parse(bytes).value)
  }

  /** The indices a response is about. */
  function IndicesOf(cmd: Command): seq<nat> {
    match cmd
    case ReceivedMerkleHashes(ranges, _) => Flatten(ranges)
    case ReceivedBlocks(ranges, _) => Flatten(ranges)
    case _ => []
  }

  /** What a peer with a verified tree answers to a request for hashes; `None` is an index out of range. */
  function ServeHashes(tree: Nodes', ids: seq<nat>): Option<seq<Digest>> {
    if exists k :: 0 <= k < |ids| && ids[k] >= |tree| then None
    else Some(seq<Digest>(|ids|, k requires 0 <= k < |ids| && ids[k] < |tree| => tree[ids[k]]))
  }

  /** What a syncing peer answers to a request for blocks: it cuts them out of its initial state. */
  function ServeBlocks(initialState: Bytes, ids: seq<nat>): Option<seq<Option<Bytes>>> {
    if exists k :: 0 <= k < |ids| && ids[k] * BLOCK_SIZE > |initialState| then None
    else Some(seq(|ids|, k requires 0 <= k < |ids| && ids[k] * BLOCK_SIZE <= |initialState| =>
                Some(initialState[ids[k] * BLOCK_SIZE..Min((ids[k] + 1) * BLOCK_SIZE, |initialState|)])))
  }

  ghost predicate HonestHashes(tree: Nodes', cmd: Command) {
    cmd.ReceivedMerkleHashes? && ServeHashes(tree, Flatten(cmd.ranges)) == Some(cmd.hashes)
  }

  /** The answer to a request for blocks that exist. */
  ghost predicate HonestBlocks(bytes: Bytes, cmd: Command) {
    && cmd.ReceivedBlocks?
    && (forall i :: i in Flatten(cmd.blockRanges) ==> i < BlockCount(|bytes|))
    && ServeBlocks(bytes, Flatten(cmd.blockRanges)) == Some(cmd.blocks)
  }

  /** The requests ask for nothing beyond `n`, and for everything from `first` on, in whatever pieces and order. */
  ghost predicate Covers(asked: seq<seq<Range>>, first: nat, n: nat) {
    && (forall i :: first <= i < n ==> i in FlattenRequests(asked))
    && (forall i :: i in FlattenRequests(asked) ==> i < n)
  }

  /** What is asked for in several requests is asked for in the first of them or in the others. */
  lemma FirstAsked(asked: seq<seq<Range>>, n: nat)
    requires asked != [] && forall i :: i in FlattenRequests(asked) ==> i < n
    ensures forall i :: i in Flatten(asked[0]) ==> i < n
    ensures forall i :: i in FlattenRequests(asked[1..]) ==> i < n
  {
    hide Flatten;
    forall i | i in Flatten(asked[0]) || i in FlattenRequests(asked[1..])
      ensures i < n
    {
      assert i in FlattenRequests(asked);
    }
  }

  lemma HashesExist(tree: Nodes', ids: seq<nat>)
    requires forall i :: i in ids ==> i < |tree|
    ensures ServeHashes(tree, ids).Some?
  {
    assert forall k :: 0 <= k < |ids| ==> ids[k] in ids;
  }

  lemma BlocksExist(bytes: Bytes, ids: seq<nat>)
    requires forall i :: i in ids ==> i < BlockCount(|bytes|)
    ensures ServeBlocks(bytes, ids).Some?
  {
    assert forall k :: 0 <= k < |ids| ==> ids[k] in ids;
  }

  /** The responses of peers that have the tree. */
  function HashResponses(tree: Nodes', asked: seq<seq<Range>>): seq<Command>
    requires forall i :: i in FlattenRequests(asked) ==> i < |tree|
    decreases |asked|
  {
    if asked == [] then []
    else
      FirstAsked(asked, |tree|);
      HashesExist(tree, Flatten(asked[0]));
      [ReceivedMerkleHashes(asked[0], ServeHashes(tree, Flatten(asked[0])).value)] + HashResponses(tree, asked[1..])
  }

  /** The responses of peers that have the state. */
  function BlockResponses(bytes: Bytes, asked: seq<seq<Range>>): seq<Command>
    requires forall i :: i in FlattenRequests(asked) ==> i < BlockCount(|bytes|)
    decreases |asked|
  {
    if asked == [] then []
    else
      FirstAsked(asked, BlockCount(|bytes|));
      BlocksExist(bytes, Flatten(asked[0]));
      [ReceivedBlocks(asked[0], ServeBlocks(bytes, Flatten(asked[0])).value)] + BlockResponses(bytes, asked[1..])
  }

  lemma HonestProposals(h: Hashing, tree: Nodes', partial: Nodes, cmd: Command)
    requires Inv(h, partial) && Agrees(partial, tree) && Hashed(h, tree) && HonestHashes(tree, cmd)
    ensures |IndicesOf(cmd)| == |cmd.hashes|
    ensures var partial' := SetAll(h, partial, Proposals(IndicesOf(cmd), cmd.hashes));
      && Agrees(partial', tree) && Inv(h, partial') && partial'[0] == partial[0]
      && (forall i :: i in IndicesOf(cmd) ==> i < |partial| && !partial'[i].Missing?)
      && (forall j :: 0 <= j < |partial| && !partial[j].Missing? ==> !partial'[j].Missing?)
  {
    var ids := IndicesOf(cmd);
    var ps := Proposals(ids, cmd.hashes);
    forall p | p in ps
      ensures p.index < |tree| && p.digest == tree[p.index]
    {
      var k :| 0 <= k < |ps| && ps[k] == p;
      assert ids[k] < |tree|;
    }
    TrueProposals(h, partial, ps, tree);
    RunKeepsInv(h, partial, ps);
    forall i | i in ids
      ensures i < |partial| && !SetAll(h, partial, ps)[i].Missing?
    {
      var k :| 0 <= k < |ids| && ids[k] == i;
      assert ps[k] in ps;
    }
  }

  lemma HashesStep<S(!new), Op(!new)>(env: Env<S, Op>, m: Metadata, bytes: Bytes, partial: Nodes, cmd: Command)
      returns (partial': Nodes)
    requires Published(env.hashing, m, bytes) && Inv(env.hashing, partial)
    requires Agrees(partial, TreeOf(env.hashing, bytes)) && partial[0] == Verified(m.merkleRoot)
    requires HonestHashes(TreeOf(env.hashing, bytes), cmd)
    ensures Inv(env.hashing, partial') && Agrees(partial', TreeOf(env.hashing, bytes)) && partial'[0] == partial[0]
    ensures Execute(env, DownloadingMerkle(m, partial), cmd)
         == if MissingIndices(partial') != [] then DownloadingMerkle(m, partial')
            else DownloadingInitialState(m, TreeOf(env.hashing, bytes), seq(BlockCount(|bytes|), _ => None))
    ensures forall i :: i in IndicesOf(cmd) ==> i < |partial| && !partial'[i].Missing?
    ensures forall j :: 0 <= j < |partial| && !partial[j].Missing? ==> !partial'[j].Missing?
  {
    hide SetAll;
    var tree := TreeOf(env.hashing, bytes);
    PublishedHashed(env.hashing, bytes);
    HonestProposals(env.hashing, tree, partial, cmd);
    partial' := SetAll(env.hashing, partial, Proposals(IndicesOf(cmd), cmd.hashes));
    CompleteIffNothingMissing(env.hashing, partial');
    if TryComplete(partial').Some? {
      assert TryComplete(partial').value == tree;
    }
  }

  lemma PublishedHashed(h: Hashing, bytes: Bytes)
    requires bytes != []
    ensures Hashed(h, TreeOf(h, bytes))
  {
    BuildLayout(h, Leaves(h, Chunks(bytes)), TreeOf(h, bytes));
  }

  /** Honest hashes lead to the next phase once every node has been asked for. */
  lemma {:induction false} HashesArrive<S(!new), Op(!new)>(env: Env<S, Op>, m: Metadata, bytes: Bytes, partial: Nodes,
                                                           asked: seq<seq<Range>>)
    requires Published(env.hashing, m, bytes) && Inv(env.hashing, partial)
    requires Agrees(partial, TreeOf(env.hashing, bytes)) && partial[0] == Verified(m.merkleRoot)
    requires forall i :: i in FlattenRequests(asked) ==> i < |TreeOf(env.hashing, bytes)|
    requires forall i :: 0 <= i < |partial| && partial[i].Missing? ==> i in FlattenRequests(asked)
    requires MissingIndices(partial) != []
    ensures Run(env, DownloadingMerkle(m, partial), HashResponses(TreeOf(env.hashing, bytes), asked))
         == DownloadingInitialState(m, TreeOf(env.hashing, bytes), seq(BlockCount(|bytes|), _ => None))
    decreases |asked|
  {
    hide Execute, TreeOf, Chunks;
    MissingUpToMembers(partial, |partial|);
    var first := MissingIndices(partial)[0];
    assert first in MissingIndices(partial);
    assert first in FlattenRequests(asked);
    FirstAsked(asked, |TreeOf(env.hashing, bytes)|);
    HashesExist(TreeOf(env.hashing, bytes), Flatten(asked[0]));
    var cmd := HashResponses(TreeOf(env.hashing, bytes), asked)[0];
    var partial' := HashesStep(env, m, bytes, partial, cmd);
    assert IndicesOf(cmd) == Flatten(asked[0]);
    if MissingIndices(partial') != [] {
      HashesArrive(env, m, bytes, partial', asked[1..]);
    } else {
      var st: Phase<S> := DownloadingInitialState(m, TreeOf(env.hashing, bytes), seq(BlockCount(|bytes|), _ => None));
      LateHashesIgnored(env, st, TreeOf(env.hashing, bytes), asked[1..]);
    }
  }

  lemma {:induction false} LateHashesIgnored<S(!new), Op(!new)>(env: Env<S, Op>, st: Phase<S>, tree: Nodes',
                                                                asked: seq<seq<Range>>)
    requires st.DownloadingInitialState?
    requires forall i :: i in FlattenRequests(asked) ==> i < |tree|
    ensures Run(env, st, HashResponses(tree, asked)) == st
    decreases |asked|
  {
    if asked != [] {
      FirstAsked(asked, |tree|);
      HashesExist(tree, Flatten(asked[0]));
      LateHashesIgnored(env, st, tree, asked[1..]);
    }
  }

  ghost predicate TrueBlocks(blocks: seq<Option<Bytes>>, bytes: Bytes) {
    && |blocks| == |Chunks(bytes)|
    && (forall i :: 0 <= i < |blocks| && blocks[i].Some? ==> blocks[i].value == Chunks(bytes)[i])
  }

  /** Honest blocks pass the check of the tree and fill their places. */
  lemma {:induction false} HonestBlocksTaken(h: Hashing, bytes: Bytes, blocks: seq<Option<Bytes>>, ids: seq<nat>,
                                             bs: seq<Option<Bytes>>)
    requires bytes != [] && TrueBlocks(blocks, bytes) && |ids| == |bs|
    requires forall k :: 0 <= k < |ids| ==> ids[k] < |blocks| && bs[k] == Some(Chunks(bytes)[ids[k]])
    ensures var r := TakeBlocks(h, TreeOf(h, bytes), blocks, ids, bs);
      && r.Some? && TrueBlocks(r.value, bytes)
      && (forall i :: i in ids ==> i < |blocks| && r.value[i].Some?)
      && (forall i :: 0 <= i < |blocks| && blocks[i].Some? ==> r.value[i].Some?)
    decreases |ids|
  {
    hide Chunks, ValidateChunk;
    if ids != [] {
      var i := ids[0];
      ChunkPasses(h, Chunks(bytes), i);
      var blocks' := TakeBlock(h, TreeOf(h, bytes), blocks, i, bs[0]).value;
      assert TrueBlocks(blocks', bytes) && blocks'[i].Some?;
      HonestBlocksTaken(h, bytes, blocks', ids[1..], bs[1..]);
      assert forall j :: j in ids ==> j == i || j in ids[1..];
    }
  }

  lemma ChunkPasses(h: Hashing, chunks: seq<Bytes>, i: nat)
    requires i < |chunks|
    ensures LeafCount(ChunkTree(h, chunks)) == |chunks| && ValidateChunk(h, ChunkTree(h, chunks), i, chunks[i])
  {
    hide NodeAt, CeilLog2, LeafAt, IndexForLeaf, Hashed;
    BuildLayout(h, Leaves(h, chunks), ChunkTree(h, chunks));
  }

  lemma ServedBlocks(bytes: Bytes, cmd: Command)
    requires HonestBlocks(bytes, cmd)
    ensures |IndicesOf(cmd)| == |cmd.blocks|
    ensures forall k :: 0 <= k < |cmd.blocks| ==>
      IndicesOf(cmd)[k] < |Chunks(bytes)| && cmd.blocks[k] == Some(Chunks(bytes)[IndicesOf(cmd)[k]])
  {
    var ids := Flatten(cmd.blockRanges);
    forall k | 0 <= k < |ids|
      ensures ids[k] < |Chunks(bytes)|
    {
      assert ids[k] in ids;
    }
  }

  lemma BlocksStep<S(!new), Op(!new)>(env: Env<S, Op>, m: Metadata, bytes: Bytes, blocks: seq<Option<Bytes>>,
                                      cmd: Command) returns (blocks': seq<Option<Bytes>>)
    requires Published(env.hashing, m, bytes) && env.parse(bytes).Some?
    requires TrueBlocks(blocks, bytes) && HonestBlocks(bytes, cmd)
    ensures TrueBlocks(blocks', bytes)
    ensures Execute(env, DownloadingInitialState(m, TreeOf(env.hashing, bytes), blocks), cmd)
         == if AnyMissing(blocks') then DownloadingInitialState(m, TreeOf(env.hashing, bytes), blocks')
            else Arrived(env, m, bytes)
    ensures forall i :: i in IndicesOf(cmd) ==> i < |blocks| && blocks'[i].Some?
    ensures forall i :: 0 <= i < |blocks| && blocks[i].Some? ==> blocks'[i].Some?
  {
    hide TreeOf, Chunks, ServeBlocks, TakeBlocks;
    ServedBlocks(bytes, cmd);
    var ids := IndicesOf(cmd);
    HonestBlocksTaken(env.hashing, bytes, blocks, ids, cmd.blocks);
    blocks' := TakeBlocks(env.hashing, TreeOf(env.hashing, bytes), blocks, ids, cmd.blocks).value;
    if !AnyMissing(blocks') {
      AllPresent(blocks', Chunks(bytes));
      ConcatChunks(bytes);
    }
  }

  /** Honest blocks lead to the syncing phase once every block has been asked for. */
  lemma {:induction false} BlocksArrive<S(!new), Op(!new)>(env: Env<S, Op>, m: Metadata, bytes: Bytes,
      blocks: seq<Option<Bytes>>, asked: seq<seq<Range>>)
    requires Published(env.hashing, m, bytes) && env.parse(bytes).Some?
    requires TrueBlocks(blocks, bytes) && AnyMissing(blocks)
    requires forall i :: i in FlattenRequests(asked) ==> i < BlockCount(|bytes|)
    requires forall i :: 0 <= i < |blocks| && blocks[i].None? ==> i in FlattenRequests(asked)
    ensures Run(env, DownloadingInitialState(m, TreeOf(env.hashing, bytes), blocks), BlockResponses(bytes, asked))
         == Arrived(env, m, bytes)
    decreases |asked|
  {
    hide TreeOf, Chunks, Execute;
    var first :| 0 <= first < |blocks| && blocks[first].None?;
    assert first in FlattenRequests(asked);
    FirstAsked(asked, BlockCount(|bytes|));
    BlocksExist(bytes, Flatten(asked[0]));
    var cmd := BlockResponses(bytes, asked)[0];
    var blocks' := BlocksStep(env, m, bytes, blocks, cmd);
    assert IndicesOf(cmd) == Flatten(asked[0]);
    if AnyMissing(blocks') {
      BlocksArrive(env, m, bytes, blocks', asked[1..]);
    } else {
      LateBlocksIgnored(env, Arrived(env, m, bytes), bytes, asked[1..]);
    }
  }

  lemma {:induction false} LateBlocksIgnored<S(!new), Op(!new)>(env: Env<S, Op>, st: Phase<S>, bytes: Bytes,
                                                                asked: seq<seq<Range>>)
    requires st.Syncing? && forall i :: i in FlattenRequests(asked) ==> i < BlockCount(|bytes|)
    ensures Run(env, st, BlockResponses(bytes, asked)) == st
    decreases |asked|
  {
    if asked != [] {
      FirstAsked(asked, BlockCount(|bytes|));
      BlocksExist(bytes, Flatten(asked[0]));
      LateBlocksIgnored(env, st, bytes, asked[1..]);
    }
  }

  lemma {:induction false} RunConcat<S, Op>(env: Env<S, Op>, st: Phase<S>, cmds: seq<Command>, cmds': seq<Command>)
    ensures Run(env, st, cmds + cmds') == Run(env, Run(env, st, cmds), cmds')
    decreases |cmds|
  {
    if cmds == [] {
      assert cmds + cmds' == cmds';
    } else {
      assert (cmds + cmds')[1..] == cmds[1..] + cmds';
      RunConcat(env, Execute(env, st, cmds[0]), cmds[1..], cmds');
    }
  }

  lemma MetadataArrives<S(!new), Op(!new)>(env: Env<S, Op>, m: Metadata, bytes: Bytes, asked: seq<seq<Range>>)
    requires Published(env.hashing, m, bytes)
    requires Covers(asked, 1, |TreeOf(env.hashing, bytes)|)
    ensures var cmds := HashResponses(TreeOf(env.hashing, bytes), asked);
      Run(env, DownloadingMetadata(env.IdOf(m)), [ReceivedMetadata(m)] + cmds)
        == DownloadingInitialState(m, TreeOf(env.hashing, bytes), seq(BlockCount(|bytes|), _ => None))
  {
    var cmds := HashResponses(TreeOf(env.hashing, bytes), asked);
    var h, count := env.hashing, BlockCount(|bytes|);
    var tree := TreeOf(h, bytes);
    var partial := NewWithCapacity(m.merkleRoot, count);
    var st: Phase<S> := DownloadingMetadata(env.IdOf(m));
    assert ([ReceivedMetadata(m)] + cmds)[1..] == cmds;
    NewIsInv(h, m.merkleRoot, count);
    if count <= 1 {
      OneLeaf(h, m, partial, tree);
      var next: Phase<S> := DownloadingInitialState(m, tree, seq(count, _ => None));
      LateHashesIgnored(env, next, tree, asked);
    } else {
      MissingUpToMembers(partial, |partial|);
      assert partial[1].Missing?;
      HashesArrive(env, m, bytes, partial, asked);
    }
  }

  lemma OneLeaf(h: Hashing, m: Metadata, partial: Nodes, tree: Nodes')
    requires partial == NewWithCapacity(m.merkleRoot, 1) && |tree| == 1 && tree[0] == m.merkleRoot
    ensures TryComplete(partial) == Some(tree)
  {
    NewIsInv(h, m.merkleRoot, 1);
    CompleteIffNothingMissing(h, partial);
    MissingUpToMembers(partial, |partial|);
    assert Complete(partial);
    assert TryComplete(partial).value == tree;
  }

  /**
    A download from honest peers succeeds: with the metadata, and hashes and blocks as a syncing peer serves them, in
    any pieces and any order that cover everything, the store ends up syncing with the published bytes.
   */
  lemma HonestDownloadSucceeds<S(!new), Op(!new)>(env: Env<S, Op>, m: Metadata, bytes: Bytes,
                                                  hashRanges: seq<seq<Range>>, blockRanges: seq<seq<Range>>)
    requires Published(env.hashing, m, bytes) && env.parse(bytes).Some?
    requires Covers(hashRanges, 1, |TreeOf(env.hashing, bytes)|)
    requires Covers(blockRanges, 0, BlockCount(|bytes|))
    ensures var cmds := [ReceivedMetadata(m)] + HashResponses(TreeOf(env.hashing, bytes), hashRanges);
      Run(env, DownloadingMetadata(env.IdOf(m)), cmds + BlockResponses(bytes, blockRanges)) == Arrived(env, m, bytes)
  {
    MetadataArrives(env, m, bytes, hashRanges);
    var cmds := [ReceivedMetadata(m)] + HashResponses(TreeOf(env.hashing, bytes), hashRanges);
    var blocks: seq<Option<Bytes>> := seq(BlockCount(|bytes|), _ => None);
    RunConcat(env, DownloadingMetadata(env.IdOf(m)), cmds, BlockResponses(bytes, blockRanges));
    assert blocks[0].None?;
    BlocksArrive(env, m, bytes, blocks, blockRanges);
  }
}
