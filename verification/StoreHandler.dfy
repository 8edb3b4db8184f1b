/**
  The handlers of the task that owns a store. They update its fields in place: the phase, which holds the partial tree
  and the event graph as objects, the statuses of peers and those who wait. What they send is returned.
 */
module StoreHandlers {
  import opened Common
  import opened EventGraph
  import opened EcgState
  import opened StoreLoop
  import opened Merkle
  import opened PartialMerkle
  import opened Blocks
  import opened Ranges
  import opened StoreIds
  import opened Download
  import opened StoreTask

  datatype Machine<!S> =
    | AtMetadata(storeId: StoreId)
    | AtMerkle(metadata: Metadata, partial: PartialTree)
    | AtInitialState(metadata: Metadata, tree: Nodes', blocks: seq<Option<Bytes>>)
    | AtSyncing(metadata: Metadata, tree: Nodes', initialState: Bytes, ecg: EcgState, latest: S)
    | Dead

  /** Swaps every element with a random one before it or with itself, from the last element on. */
  method Shuffle<T>(xs: seq<T>) returns (ys: seq<T>)
    ensures multiset(ys) == multiset(xs)
  {
    ys := xs;
    for i := |xs| downto 0
      invariant |ys| == |xs| && multiset(ys) == multiset(xs)
    {
      var j: nat :| j <= i;
      ys := ys[i := ys[j]][j := ys[i]];
    }
  }

  ghost function SentUpTo<S>(t: Task<S>, peers: seq<Peer>, requests: seq<Request>, msgs: seq<Message<S>>): Outcome<S> {
    var rest := SendRequests(t, peers, requests);
    Outcome(rest.task, msgs + rest.messages)
  }

  function Prepend<M>(msgs: seq<M>, rest: Option<seq<M>>): Option<seq<M>> {
    match rest
    case None => None
    case Some(more) => Some(msgs + more)
  }

  lemma PrependEmpty<M>(rest: Option<seq<M>>)
    ensures Prepend([], rest) == rest
  {
    if rest.Some? { assert [] + rest.value == rest.value; }
  }

  lemma PrependNext<M>(msgs: seq<M>, m: M, rest: Option<seq<M>>)
    requires rest.Some?
    ensures Prepend(msgs, Some([m] + rest.value)) == Prepend(msgs + [m], rest)
  {
    assert msgs + ([m] + rest.value) == msgs + [m] + rest.value;
  }

  lemma NextTold<S>(subs: set<Peer>, peer: Peer, from: Option<Peer>, graph: Graph)
    requires IsLeast(peer, subs) && from != Some(peer)
    ensures GraphAnswers<S>(Ascending(Told(subs, from)), graph)
         == [GraphAnswer(peer, graph)] + GraphAnswers(Ascending(Told(subs - {peer}, from)), graph)
  {
    var told := Told(subs, from);
    var rest := Ascending(Told(subs - {peer}, from));
    assert told - {peer} == Told(subs - {peer}, from);
    assert IsLeast(peer, told);
    LeastIsUnique(told);
    assert Ascending(told) == [peer] + rest;
  }

  lemma NobodyTold<S>(from: Option<Peer>, graph: Graph)
    ensures GraphAnswers<S>(Ascending(Told({}, from)), graph) == []
  {
    assert Told({}, from) == {};
  }

  class StoreHandler<!S, !Op> {
    const env: Env<S, Op>
    var machine: Machine<S>
    var outgoing: map<Peer, PeerStatus>
    var metadataSubscribers: set<Peer>
    var merkleSubscribers: map<Peer, seq<Range>>
    var blockSubscribers: map<Peer, seq<Range>>
    var ecgSubscribers: set<Peer>

    ghost function Footprint(): set<object>
      reads this
    {
      match machine
      case AtMerkle(_, partial) => {partial.nodes}
      case AtSyncing(_, _, _, ecg, _) => {ecg}
      case _ => {}
    }

    ghost predicate Valid()
      reads this, Footprint()
    {
      match machine
      case AtMerkle(_, partial) => partial.Valid(env.hashing)
      case AtSyncing(_, _, _, ecg, _) => ecg.Valid()
      case _ => true
    }

    ghost function CurrentPhase(): Phase<S>
      requires Valid()
      reads this, Footprint()
    {
      match machine
      case AtMetadata(storeId) => DownloadingMetadata(storeId)
      case AtMerkle(m, partial) => DownloadingMerkle(m, partial.nodes[..])
      case AtInitialState(m, tree, blocks) => DownloadingInitialState(m, tree, blocks)
      case AtSyncing(m, tree, initialState, ecg, latest) => Syncing(m, tree, initialState, ecg.log, latest)
      case Dead => Crashed
    }

    ghost function Now(): Task<S>
      requires Valid()
      reads this, Footprint()
    {
      Task(CurrentPhase(), outgoing, metadataSubscribers, merkleSubscribers, blockSubscribers, ecgSubscribers)
    }

    constructor (env: Env<S, Op>, storeId: StoreId)
      ensures this.env == env && Valid() && Footprint() == {}
      ensures Now() == Task(DownloadingMetadata(storeId), map[], {}, map[], map[], {})
    {
      this.env, machine, outgoing := env, AtMetadata(storeId), map[];
      metadataSubscribers, merkleSubscribers, blockSubscribers, ecgSubscribers := {}, map[], map[], {};
    }

    // ---------- Peers that ask

    method HandleMetadataPeerRequest(peer: Peer) returns (msgs: seq<Message<S>>)
      requires Valid() && !machine.Dead?
      modifies this`metadataSubscribers
      ensures Valid() && Outcome(Now(), msgs) == AskedMetadata(old(Now()), peer)
    {
      if machine.AtMetadata? {
        metadataSubscribers := metadataSubscribers + {peer};
        return [];
      }
      msgs := [MetadataAnswer(peer, Some(machine.metadata))];
    }

    method HandleMerklePeerRequest(peer: Peer, ranges: seq<Range>) returns (msgs: seq<Message<S>>)
      requires Valid() && !machine.Dead?
      modifies this`machine, this`merkleSubscribers
      ensures Valid() && Footprint() <= old(Footprint())
      ensures Outcome(Now(), msgs) == AskedMerkle(old(Now()), peer, ranges)
    {
      if !machine.AtInitialState? && !machine.AtSyncing? {
        merkleSubscribers := merkleSubscribers[peer := ranges];
        return [];
      }
      var hashes := ServeHashes(machine.tree, Flatten(ranges));
      if hashes.None? {
        machine := Dead;
        return [];
      }
      msgs := [MerkleAnswer(peer, ranges, hashes)];
    }

    method HandleBlockPeerRequest(peer: Peer, ranges: seq<Range>) returns (msgs: seq<Message<S>>)
      requires Valid() && !machine.Dead?
      modifies this`machine, this`blockSubscribers
      ensures Valid() && Footprint() <= old(Footprint())
      ensures Outcome(Now(), msgs) == AskedBlocks(old(Now()), peer, ranges)
    {
      if !machine.AtInitialState? && !machine.AtSyncing? {
        blockSubscribers := blockSubscribers[peer := ranges];
        return [];
      }
      var blocks := if machine.AtSyncing? then ServeBlocks(machine.initialState, Flatten(ranges))
                    else PartialBlocks(machine.blocks, Flatten(ranges));
      if blocks.None? {
        machine := Dead;
        return [];
      }
      msgs := [BlockAnswer(peer, ranges, blocks.value)];
    }

    /** `tips` are those of the snapshot that the peer has; without them it wants an answer at once. */
    method HandleEcgSubscribe(peer: Peer, tips: Option<set<HeaderId>>) returns (msgs: seq<Message<S>>)
      requires Valid() && !machine.Dead?
      modifies this`ecgSubscribers
      ensures Valid() && Outcome(Now(), msgs) == Subscribe(old(Now()), peer, tips)
    {
      if machine.AtSyncing? {
        var respondImmediately := true;
        if tips.Some? {
          respondImmediately := machine.ecg.tips != tips.value;
        }
        if respondImmediately {
          return [GraphAnswer(peer, machine.ecg.Snapshot())];
        }
      }
      ecgSubscribers := ecgSubscribers + {peer};
      msgs := [];
    }

    // ---------- Those who wait

    /** The listeners get a snapshot; all who wait get the graph and are removed, except the peer that brought it. */
    method UpdateListeners(from: Option<Peer>) returns (msgs: seq<Message<S>>)
      requires Valid() && machine.AtSyncing?
      modifies this`ecgSubscribers
      ensures Valid() && Outcome(Now(), msgs) == StoreTask.UpdateListeners(old(Now()), from)
    {
      hide DagOf, InfoOf, NodesOf, Roots, Tips, Ascending, GraphAnswers;
      var graph := machine.ecg.Snapshot();
      msgs := [StateUpdate(machine.latest, graph)];
      var subs := ecgSubscribers;
      ecgSubscribers := {};
      ghost var sent := msgs + GraphAnswers(Ascending(Told(subs, from)), graph);
      while subs != {}
        invariant machine == old(machine) && unchanged(machine.ecg) && subs <= old(ecgSubscribers)
        invariant ecgSubscribers == old(ecgSubscribers) - subs - Told(old(ecgSubscribers), from)
        invariant msgs + GraphAnswers(Ascending(Told(subs, from)), graph) == sent
      {
        LeastIsUnique(subs);
        var peer :| IsLeast(peer, subs);
        if from != Some(peer) {
          NextTold<S>(subs, peer, from, graph);
          msgs := msgs + [GraphAnswer(peer, graph)];
        } else {
          assert Told(subs - {peer}, from) == Told(subs, from);
          ecgSubscribers := ecgSubscribers + {peer};
        }
        subs := subs - {peer};
      }
      NobodyTold<S>(from, graph);
      assert msgs + [] == msgs;
    }

    method AnswerMetadataSubscribers(from: Peer, m: Metadata) returns (msgs: seq<Message<S>>)
      modifies this`metadataSubscribers
      ensures metadataSubscribers == {}
      ensures msgs == MetadataAnswers(Ascending(old(metadataSubscribers)), from, m)
    {
      var subs := Ascending(metadataSubscribers);
      metadataSubscribers := {};
      msgs := [];
      for k := 0 to |subs|
        invariant metadataSubscribers == {}
        invariant msgs == MetadataAnswers(subs[..k], from, m)
      {
        var peerKnows := subs[k] == from;
        msgs := msgs + [MetadataAnswer(subs[k], if peerKnows then None else Some(m))];
      }
      assert subs[..|subs|] == subs;
    }

    /** `None` is the failure on an index out of range. */
    method AnswerMerkleSubscribers(tree: Nodes', from: Peer) returns (r: Option<seq<Message<S>>>)
      modifies this`merkleSubscribers
      ensures merkleSubscribers == map[]
      ensures r == MerkleAnswers(tree, old(merkleSubscribers), Waiting(old(merkleSubscribers)), from)
    {
      var subs := merkleSubscribers;
      merkleSubscribers := map[];
      var peers := Waiting(subs);
      var msgs: seq<Message<S>> := [];
      assert peers[0..] == peers;
      PrependEmpty<Message<S>>(MerkleAnswers(tree, subs, peers, from));
      for k := 0 to |peers|
        invariant merkleSubscribers == map[]
        invariant MerkleAnswers(tree, subs, peers, from) == Prepend(msgs, MerkleAnswers(tree, subs, peers[k..], from))
      {
        assert peers[k..][1..] == peers[k + 1..];
        var msg := MerkleAnswerTo(tree, subs[peers[k]], peers[k], from);
        if msg.None? { return None; }
        ghost var rest := MerkleAnswers<S>(tree, subs, peers[k + 1..], from);
        if rest.Some? { PrependNext(msgs, msg.value, rest); }
        msgs := msgs + [msg.value];
      }
      assert peers[|peers|..] == [] && msgs + [] == msgs;
      r := Some(msgs);
    }

    method AnswerBlockSubscribers(bytes: Bytes) returns (r: Option<seq<Message<S>>>)
      modifies this`blockSubscribers
      ensures blockSubscribers == map[]
      ensures r == BlockAnswers(bytes, old(blockSubscribers), Waiting(old(blockSubscribers)))
    {
      var subs := blockSubscribers;
      blockSubscribers := map[];
      var peers := Waiting(subs);
      var msgs: seq<Message<S>> := [];
      assert peers[0..] == peers;
      PrependEmpty<Message<S>>(BlockAnswers(bytes, subs, peers));
      for k := 0 to |peers|
        invariant blockSubscribers == map[]
        invariant BlockAnswers(bytes, subs, peers) == Prepend(msgs, BlockAnswers(bytes, subs, peers[k..]))
      {
        assert peers[k..][1..] == peers[k + 1..];
        var blocks := ServeBlocks(bytes, Flatten(subs[peers[k]]));
        if blocks.None? { return None; }
        ghost var rest := BlockAnswers<S>(bytes, subs, peers[k + 1..]);
        if rest.Some? { PrependNext(msgs, BlockAnswer(peers[k], subs[peers[k]], blocks.value), rest); }
        msgs := msgs + [BlockAnswer(peers[k], subs[peers[k]], blocks.value)];
      }
      assert peers[|peers|..] == [] && msgs + [] == msgs;
      r := Some(msgs);
    }

    // ---------- From phase to phase

    method UpdateStateToSyncing(peer: Peer) returns (msgs: seq<Message<S>>)
      requires Valid() && machine.AtInitialState?
      modifies this
      ensures Valid() && fresh(Footprint())
      ensures Outcome(Now(), msgs) == EnterSyncing(env, old(Now()), peer)
    {
      var initialState := Concat(Present(machine.blocks));
      var latest := env.parse(initialState);
      if latest.None? {
        machine := Dead;
        return [];
      }
      var ecg := new EcgState();
      machine := AtSyncing(machine.metadata, machine.tree, initialState, ecg, latest.value);
      msgs := UpdateListeners(Some(peer));
      var answers := AnswerBlockSubscribers(initialState);
      if answers.None? {
        machine := Dead;
        return [];
      }
      msgs := msgs + answers.value;
    }

    method UpdateStateToDownloadingInitialState(peer: Peer) returns (msgs: seq<Message<S>>)
      requires Valid() && machine.AtMerkle?
      modifies this
      ensures Valid() && fresh(Footprint() - old(Footprint()))
      ensures Outcome(Now(), msgs) == EnterInitialState(env, old(Now()), peer)
    {
      var m := machine.metadata;
      var tree := TryComplete(machine.partial.nodes[..]);
      if tree.None? { return []; }
      machine := AtInitialState(m, tree.value, seq(BlockCount(m.initialStateSize), _ => None));
      var answers := AnswerMerkleSubscribers(tree.value, peer);
      if answers.None? {
        machine := Dead;
        return [];
      }
      msgs := answers.value;
      if m.initialStateSize == 0 {
        var more := UpdateStateToSyncing(peer);
        msgs := if machine.Dead? then more else msgs + more;
      }
    }

    // ---------- What peers deliver

    /** The peer has answered and may be asked again; it is a failure if we do not sync with it. */
    method UpdateOutgoingPeerToReady(peer: Peer) returns (ok: bool)
      requires Valid()
      modifies this`outgoing
      ensures Valid() && MarkReady(old(Now()), peer) == if ok then Some(Now()) else None
      ensures !ok ==> Now() == old(Now())
    {
      ok := peer in outgoing && outgoing[peer].Active?;
      if ok {
        outgoing := outgoing[peer := Active(false)];
      }
    }

    method HandleReceivedMetadata(peer: Peer, m: Metadata) returns (msgs: seq<Message<S>>)
      requires Valid() && !machine.Dead?
      modifies this
      ensures Valid() && fresh(Footprint() - old(Footprint()))
      ensures Outcome(Now(), msgs) == Deliver(env, old(Now()), peer, ReceivedMetadata(m))
    {
      hide BlockCount, Inv;
      var ok := UpdateOutgoingPeerToReady(peer);
      if !ok {
        machine := Dead;
        return [];
      }
      var storeId := if machine.AtMetadata? then machine.storeId else env.IdOf(machine.metadata);
      if env.IdOf(m) != storeId { return []; }
      var count := BlockCount(m.initialStateSize);
      if count == 0 {
        machine := Dead;
        return [];
      }
      msgs := StartDownload(peer, m, count);
    }

    method StartDownload(peer: Peer, m: Metadata, count: nat) returns (msgs: seq<Message<S>>)
      requires Valid() && !machine.Dead? && env.IdOf(m) == CurrentId(env, CurrentPhase())
      requires count == BlockCount(m.initialStateSize) && count > 0
      modifies this
      ensures Valid() && fresh(Footprint())
      ensures Outcome(Now(), msgs) == GotMetadata(env, old(Now()), peer, m)
    {
      hide EnterInitialState, NewWithCapacity, BlockCount, MetadataAnswers, Inv;
      var partial := new PartialTree(env.hashing, m.merkleRoot, count);
      machine := AtMerkle(m, partial);
      msgs := AnswerMetadataSubscribers(peer, m);
      if count <= 1 {
        var more := UpdateStateToDownloadingInitialState(peer);
        msgs := if machine.Dead? then more else msgs + more;
      }
    }

    method HandleReceivedMerkleHashes(peer: Peer, ranges: seq<Range>, hashes: seq<Digest>)
      returns (msgs: seq<Message<S>>)
      requires Valid() && !machine.Dead?
      modifies this, Footprint()
      ensures Valid() && fresh(Footprint() - old(Footprint()))
      ensures Outcome(Now(), msgs) == Deliver(env, old(Now()), peer, ReceivedMerkleHashes(ranges, hashes))
    {
      hide EnterInitialState, Flatten;
      var ok := UpdateOutgoingPeerToReady(peer);
      if !ok {
        machine := Dead;
        return [];
      }
      var nodeIds := Flatten(ranges);
      if |nodeIds| != |hashes| || !machine.AtMerkle? { return []; }
      SetHashes(nodeIds, hashes);
      msgs := UpdateStateToDownloadingInitialState(peer);
    }

    method SetHashes(nodeIds: seq<nat>, hashes: seq<Digest>)
      requires Valid() && machine.AtMerkle? && |nodeIds| == |hashes|
      modifies machine.partial.nodes
      ensures Valid()
      ensures machine.partial.nodes[..]
           == SetAll(env.hashing, old(machine.partial.nodes[..]), Proposals(nodeIds, hashes))
    {
      var partial := machine.partial;
      ghost var ps := Proposals(nodeIds, hashes);
      assert ps[0..] == ps;
      for i := 0 to |nodeIds|
        invariant partial.Valid(env.hashing)
        invariant SetAll(env.hashing, partial.nodes[..], ps[i..])
               == SetAll(env.hashing, old(partial.nodes[..]), ps)
      {
        assert ps[i..][1..] == ps[i + 1..] && ps[i..][0] == Proposal(nodeIds[i], hashes[i]);
        var valid := partial.Propose(env.hashing, nodeIds[i], hashes[i]);
      }
      assert ps[|ps|..] == [];
    }

    method HandleReceivedInitialStateBlocks(peer: Peer, ranges: seq<Range>, theirBlocks: seq<Option<Bytes>>)
      returns (msgs: seq<Message<S>>)
      requires Valid() && !machine.Dead?
      modifies this
      ensures Valid() && fresh(Footprint() - old(Footprint()))
      ensures Outcome(Now(), msgs) == Deliver(env, old(Now()), peer, ReceivedBlocks(ranges, theirBlocks))
    {
      hide EnterSyncing, TakeBlocks, Flatten;
      var ok := UpdateOutgoingPeerToReady(peer);
      if !ok {
        machine := Dead;
        return [];
      }
      var blockIds := Flatten(ranges);
      if |blockIds| != |theirBlocks| || !machine.AtInitialState? { return []; }
      var taken := TakeTheirBlocks(machine.tree, machine.blocks, blockIds, theirBlocks);
      if taken.None? {
        machine := Dead;
        return [];
      }
      machine := machine.(blocks := taken.value);
      if AnyMissing(machine.blocks) { return []; }
      msgs := UpdateStateToSyncing(peer);
    }

    /** A block is taken only where one is missing and only if it validates; `None` is an index out of range. */
    method TakeTheirBlocks(tree: Nodes', initialState: seq<Option<Bytes>>, blockIds: seq<nat>,
                           theirBlocks: seq<Option<Bytes>>)
      returns (r: Option<seq<Option<Bytes>>>)
      requires |blockIds| == |theirBlocks|
      ensures r == TakeBlocks(env.hashing, tree, initialState, blockIds, theirBlocks)
    {
      var blocks := initialState;
      assert blockIds[0..] == blockIds && theirBlocks[0..] == theirBlocks;
      for i := 0 to |blockIds|
        invariant TakeBlocks(env.hashing, tree, blocks, blockIds[i..], theirBlocks[i..])
               == TakeBlocks(env.hashing, tree, initialState, blockIds, theirBlocks)
      {
        var k := blockIds[i];
        assert blockIds[i..][1..] == blockIds[i + 1..] && theirBlocks[i..][1..] == theirBlocks[i + 1..];
        if theirBlocks[i].Some? {
          if k >= |blocks| || (blocks[k].None? && k >= LeafCount(tree)) { return None; }
          if blocks[k].None? && ValidateChunk(env.hashing, tree, k, theirBlocks[i].value) {
            blocks := blocks[k := theirBlocks[i]];
          }
        }
      }
      r := Some(blocks);
    }

    method HandleReceivedEcgOperations(peer: Peer, operations: seq<Header>) returns (msgs: seq<Message<S>>)
      requires Valid() && !machine.Dead?
      requires machine.AtSyncing? ==> |machine.ecg.log| + |operations| < U64_MAX
      modifies this, Footprint()
      ensures Valid() && Footprint() <= old(Footprint())
      ensures Outcome(Now(), msgs) == Deliver(env, old(Now()), peer, ReceivedOperations(operations))
    {
      hide ReceiveAll, StoreTask.UpdateListeners;
      var ok := UpdateOutgoingPeerToReady(peer);
      if !ok || !machine.AtSyncing? {
        machine := Dead;
        return [];
      }
      var store := new SyncingStore(env.crdt, machine.ecg, machine.latest);
      var succeeded := store.HandleReceivedOperations(operations);
      if !succeeded {
        machine := Dead;
        return [];
      }
      machine := machine.(latest := store.latestState);
      msgs := UpdateListeners(Some(peer));
    }

    // ---------- The application

    method Apply(header: Header) returns (msgs: seq<Message<S>>)
      requires Valid() && !machine.Dead?
      requires machine.AtSyncing? ==> |machine.ecg.log| < U64_MAX
      modifies this, Footprint()
      ensures Valid() && Footprint() <= old(Footprint())
      ensures Outcome(Now(), msgs) == ApplyLocal(env, old(Now()), header)
    {
      hide StoreTask.UpdateListeners;
      if !machine.AtSyncing? { return []; }
      var success := machine.ecg.InsertHeader(header);
      var operations := env.crdt.decode(header.body, header.id);
      if !success || operations.None? {
        machine := Dead;
        return [];
      }
      var store := new SyncingStore(env.crdt, machine.ecg, machine.latest);
      var latest := store.ApplyOne(operations.value);
      machine := machine.(latest := latest);
      msgs := UpdateListeners(None);
    }

    // ---------- Whom we ask

    method InsertKnownPeer(peer: Peer)
      requires Valid()
      modifies this`outgoing
      ensures Valid() && Now() == InsertKnown(old(Now()), peer)
    {
      if peer !in outgoing {
        outgoing := outgoing[peer := Known];
      }
    }

    method UpdatePeerToInitializingOutgoing(peer: Peer)
      requires Valid() && !machine.Dead?
      modifies this`machine, this`outgoing
      ensures Valid() && Footprint() <= old(Footprint())
      ensures Outcome(Now(), []) == Promote(old(Now()), peer, Known, Initializing)
    {
      if peer in outgoing && outgoing[peer].Known? {
        outgoing := outgoing[peer := Initializing];
      } else {
        machine := Dead;
      }
    }

    method UpdatePeerToSyncingOutgoing(peer: Peer)
      requires Valid() && !machine.Dead?
      modifies this`machine, this`outgoing
      ensures Valid() && Footprint() <= old(Footprint())
      ensures Outcome(Now(), []) == Promote(old(Now()), peer, Initializing, Active(false))
    {
      if peer in outgoing && outgoing[peer].Initializing? {
        outgoing := outgoing[peer := Active(false)];
      } else {
        machine := Dead;
      }
    }

    /** What there is to ask for, given how many peers are ready. */
    method CollectRequests(ready: nat) returns (requests: seq<Request>)
      requires Valid()
      ensures requests == RequestsOf(CurrentPhase(), ready)
    {
      match machine
      case AtMetadata(_) =>
        requests := [MetadataRequest];
      case AtMerkle(_, partial) =>
        var chunks := Requests(MissingIndices(partial.nodes[..]), MERKLE_REQUEST_LIMIT);
        requests := seq(|chunks|, i requires 0 <= i < |chunks| => MerkleRequest(chunks[i]));
      case AtInitialState(_, _, blocks) =>
        var chunks := Requests(MissingBlocksUpTo(blocks, |blocks|), BLOCK_REQUEST_LIMIT);
        requests := seq(|chunks|, i requires 0 <= i < |chunks| => BlockRequest(chunks[i]));
      case AtSyncing(_, _, _, ecg, _) =>
        var graph := ecg.Snapshot();
        requests := seq(ready, _ => EcgRequest(graph));
      case Dead =>
        requests := [];
    }

    method SendRequests(peers: seq<Peer>, requests: seq<Request>) returns (msgs: seq<Message<S>>)
      requires Valid()
      modifies this`outgoing
      ensures Valid() && Outcome(Now(), msgs) == StoreTask.SendRequests(old(Now()), peers, requests)
    {
      ghost var before := Now();
      ghost var sent := StoreTask.SendRequests(before, peers, requests);
      assert peers[0..] == peers && requests[0..] == requests;
      msgs := [];
      for i := 0 to Min(|peers|, |requests|)
        invariant SentUpTo(before.(outgoing := outgoing), peers[i..], requests[i..], msgs) == sent
      {
        assert peers[i..][1..] == peers[i + 1..] && requests[i..][1..] == requests[i + 1..];
        outgoing := outgoing[peers[i] := Active(true)];
        msgs := msgs + [Ask(peers[i], requests[i])];
      }
      assert Now() == before.(outgoing := outgoing);
    }

    /** Deals what there is to ask for out to the ready peers, both in random order. */
    method SendSyncRequests() returns (msgs: seq<Message<S>>, ghost peers: seq<Peer>, ghost requests: seq<Request>)
      requires Valid() && !machine.Dead?
      modifies this`machine, this`outgoing
      ensures Valid() && Footprint() <= old(Footprint())
      ensures Shuffled(old(Now()), peers, requests)
      ensures Outcome(Now(), msgs) == StoreTask.SendSyncRequests(old(Now()), peers, requests)
    {
      hide RequestsOf, StoreTask.SendRequests;
      AscendingOnce(ReadyPeers(outgoing));
      var ready := Shuffle(Ascending(ReadyPeers(outgoing)));
      var needed := CollectRequests(|ready|);
      needed := Shuffle(needed);
      peers, requests := ready, needed;
      if (machine.AtMerkle? || machine.AtInitialState?) && needed == [] {
        machine := Dead;
        return [], peers, requests;
      }
      msgs := SendRequests(ready, needed);
    }
  }
}
