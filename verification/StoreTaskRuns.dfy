/** What holds over whole runs of the task that owns a store, whatever its peers do. */
module StoreTaskRuns {
  import opened Common
  import opened EventGraph
  import opened StoreLoop
  import opened Merkle
  import opened PartialMerkle
  import opened Blocks
  import opened Ranges
  import opened StoreIds
  import opened Download
  import opened StoreTask

  /**
    A subscription comes from a peer whose last snapshot of the graph is given. Requests are sent in any orders that
    the shuffles may produce.
   */
  datatype Event =
    | Delivered(from: Peer, command: Command)
    | Applied(header: Header)
    | MetadataAsked(peer: Peer)
    | MerkleAsked(peer: Peer, ranges: seq<Range>)
    | BlocksAsked(peer: Peer, ranges: seq<Range>)
    | Subscribed(peer: Peer, snapshot: Option<Graph>)
    | Discovered(peer: Peer)
    | SyncRequested(peer: Peer)
    | SyncStarted(peer: Peer)
    | RequestsSent(peers: seq<Peer>, requests: seq<Request>)

  function Step<S, Op>(env: Env<S, Op>, t: Task<S>, e: Event): Outcome<S> {
    match e
    case Delivered(from, cmd) => if cmd.ApplyLocally? then Outcome(t, []) else Deliver(env, t, from, cmd)
    case Applied(h) => ApplyLocal(env, t, h)
    case MetadataAsked(peer) => AskedMetadata(t, peer)
    case MerkleAsked(peer, ranges) => AskedMerkle(t, peer, ranges)
    case BlocksAsked(peer, ranges) => AskedBlocks(t, peer, ranges)
    case Subscribed(peer, snapshot) => Subscribe(t, peer, TipsOf(snapshot))
    case Discovered(peer) => Outcome(InsertKnown(t, peer), [])
    case SyncRequested(peer) => Promote(t, peer, Known, Initializing)
    case SyncStarted(peer) => Promote(t, peer, Initializing, Active(false))
    case RequestsSent(peers, requests) =>
      if Shuffled(t, peers, requests) then SendSyncRequests(t, peers, requests) else Outcome(t, [])
  }

  function TipsOf(snapshot: Option<Graph>): Option<set<HeaderId>> {
    match snapshot
    case None => None
    case Some(g) => Some(Tips(g))
  }

  /** The task after a run, and all messages of the run. */
  function RunTask<S, Op>(env: Env<S, Op>, t: Task<S>, es: seq<Event>): (Task<S>, seq<Message<S>>)
    decreases |es|
  {
    if es == [] then (t, [])
    else
      var first := Step(env, t, es[0]);
      var rest := RunTask(env, first.task, es[1..]);
      (rest.0, first.messages + rest.1)
  }

  // ---------- The phase follows the state machine

  function PhaseAfter<S, Op>(env: Env<S, Op>, st: Phase<S>, e: Event): Phase<S> {
    match e
    case Delivered(_, cmd) => if cmd.ApplyLocally? then st else Execute(env, st, cmd)
    case Applied(h) => Execute(env, st, ApplyLocally(h))
    case _ => st
  }

  lemma EnterSyncingPhase<S, Op>(env: Env<S, Op>, t: Task<S>, from: Peer)
    requires t.phase.DownloadingInitialState?
    ensures var r := EnterSyncing(env, t, from).task.phase;
      r.Crashed? || r == ToSyncing(env, t.phase.metadata, t.phase.tree, t.phase.blocks)
  {
  }

  lemma EnterInitialStatePhase<S, Op>(env: Env<S, Op>, t: Task<S>, from: Peer)
    requires t.phase.DownloadingMerkle?
    ensures var r := EnterInitialState(env, t, from).task.phase;
      r.Crashed? || r == ToInitialState(env, t.phase.metadata, t.phase.partial)
  {
    hide ToSyncing;
    if TryComplete(t.phase.partial).Some? {
      var m := t.phase.metadata;
      var blocks := seq(BlockCount(m.initialStateSize), _ => None);
      var t' := t.(phase := DownloadingInitialState(m, TryComplete(t.phase.partial).value, blocks),
                   merkleSubscribers := map[]);
      EnterSyncingPhase(env, t', from);
    }
  }

  lemma DeliverPhase<S, Op>(env: Env<S, Op>, t: Task<S>, from: Peer, cmd: Command)
    requires !cmd.ApplyLocally?
    ensures var r := Deliver(env, t, from, cmd).task.phase; r.Crashed? || r == Execute(env, t.phase, cmd)
  {
    hide ToInitialState, ToSyncing, EnterInitialState, EnterSyncing, SetAll, TakeBlocks, Flatten, ReceiveAll,
      NewWithCapacity, UpdateListeners;
    if !t.phase.Crashed? && MarkReady(t, from).Some? {
      var t' := MarkReady(t, from).value;
      match cmd
      case ReceivedMetadata(m) =>
        var count := BlockCount(m.initialStateSize);
        if count == 1 {
          EnterInitialStatePhase(env, t'.(phase := DownloadingMerkle(m, NewWithCapacity(m.merkleRoot, count)),
                                          metadataSubscribers := {}), from);
        }
      case ReceivedMerkleHashes(ranges, hashes) =>
        if t.phase.DownloadingMerkle? && |Flatten(ranges)| == |hashes| {
          var partial := SetAll(env.hashing, t.phase.partial, Proposals(Flatten(ranges), hashes));
          EnterInitialStatePhase(env, t'.(phase := DownloadingMerkle(t.phase.metadata, partial)), from);
        }
      case ReceivedBlocks(ranges, bs) =>
        if t.phase.DownloadingInitialState? && |Flatten(ranges)| == |bs| {
          var r := TakeBlocks(env.hashing, t.phase.tree, t.phase.blocks, Flatten(ranges), bs);
          if r.Some? { EnterSyncingPhase(env, t'.(phase := t.phase.(blocks := r.value)), from); }
        }
      case ReceivedOperations(hs) =>
        if t.phase.Syncing? {
          OperationsPhase(env, t', Some(from), ReceiveAll(env.crdt, Running(t.phase.ecg, t.phase.latest), hs));
        }
    }
  }

  lemma OperationsPhase<S, Op>(env: Env<S, Op>, t: Task<S>, from: Option<Peer>, r: Store<S>)
    requires t.phase.Syncing?
    ensures GotOperations(env, t, from, r).task.phase == AfterOperations(t.phase, r)
  {
  }

  lemma {:induction false} SendPhase<S>(t: Task<S>, peers: seq<Peer>, requests: seq<Request>)
    ensures SendRequests(t, peers, requests).task == t.(outgoing := SendRequests(t, peers, requests).task.outgoing)
    ensures forall m :: m in SendRequests(t, peers, requests).messages ==> m.Ask?
    decreases |peers|
  {
    if peers != [] && requests != [] {
      SendPhase(t.(outgoing := t.outgoing[peers[0] := Active(true)]), peers[1..], requests[1..]);
    }
  }

  /** Every step of the task is a step of the phase machine, or ends the task. */
  lemma PhaseFollows<S, Op>(env: Env<S, Op>, t: Task<S>, e: Event)
    ensures var r := Step(env, t, e).task.phase; r.Crashed? || r == PhaseAfter(env, t.phase, e)
  {
    hide Deliver, Execute, GotOperations, SendRequests, ServeHashes, ServeBlocks, PartialBlocks;
    match e
    case Delivered(from, cmd) =>
      if !cmd.ApplyLocally? { DeliverPhase(env, t, from, cmd); }
    case Applied(h) =>
      LocalPhase(env, t, h);
    case RequestsSent(peers, requests) =>
      SendPhase(t, peers, requests);
    case _ =>
  }

  lemma LocalPhase<S, Op>(env: Env<S, Op>, t: Task<S>, h: Header)
    ensures var r := ApplyLocal(env, t, h).task.phase; r.Crashed? || r == Execute(env, t.phase, ApplyLocally(h))
  {
    hide Receive;
    if t.phase.Syncing? && Accepts(t.phase.ecg, h) {
      OperationsPhase(env, t, None, Receive(env.crdt, Running(t.phase.ecg, t.phase.latest), h));
    }
  }

  // ---------- Nobody waits for what is there

  /** Whoever waits for metadata, hashes or blocks waits for something that the store does not have yet. */
  ghost predicate WaitsRightly<S>(t: Task<S>) {
    && (!t.phase.DownloadingMetadata? && !t.phase.Crashed? ==> t.metadataSubscribers == {})
    && (t.phase.DownloadingInitialState? || t.phase.Syncing? ==> t.merkleSubscribers == map[])
    && (t.phase.Syncing? ==> t.blockSubscribers == map[])
  }

  lemma EnterInitialStateWaits<S, Op>(env: Env<S, Op>, t: Task<S>, from: Peer)
    requires t.phase.DownloadingMerkle? && t.metadataSubscribers == {}
    ensures WaitsRightly(EnterInitialState(env, t, from).task)
  {
    hide ToSyncing, MerkleAnswers, BlockAnswers;
    if TryComplete(t.phase.partial).Some? {
      var m := t.phase.metadata;
      var blocks := seq(BlockCount(m.initialStateSize), _ => None);
      var t' := t.(phase := DownloadingInitialState(m, TryComplete(t.phase.partial).value, blocks),
                   merkleSubscribers := map[]);
      EnterSyncingWaits(env, t', from);
    }
  }

  lemma EnterSyncingWaits<S, Op>(env: Env<S, Op>, t: Task<S>, from: Peer)
    requires t.phase.DownloadingInitialState? && t.metadataSubscribers == {} && t.merkleSubscribers == map[]
    ensures WaitsRightly(EnterSyncing(env, t, from).task)
  {
    hide BlockAnswers;
  }

  lemma DeliverWaits<S, Op>(env: Env<S, Op>, t: Task<S>, from: Peer, cmd: Command)
    requires WaitsRightly(t) && !cmd.ApplyLocally?
    ensures WaitsRightly(Deliver(env, t, from, cmd).task)
  {
    hide EnterInitialState, EnterSyncing, SetAll, TakeBlocks, Flatten, ReceiveAll, NewWithCapacity;
    if !t.phase.Crashed? && MarkReady(t, from).Some? {
      var t' := MarkReady(t, from).value;
      match cmd
      case ReceivedMetadata(m) =>
        var count := BlockCount(m.initialStateSize);
        var t'' := t'.(phase := DownloadingMerkle(m, NewWithCapacity(m.merkleRoot, if count == 0 then 1 else count)),
                       metadataSubscribers := {});
        EnterInitialStateWaits(env, t'', from);
      case ReceivedMerkleHashes(ranges, hashes) =>
        if t.phase.DownloadingMerkle? && |Flatten(ranges)| == |hashes| {
          var partial := SetAll(env.hashing, t.phase.partial, Proposals(Flatten(ranges), hashes));
          EnterInitialStateWaits(env, t'.(phase := DownloadingMerkle(t.phase.metadata, partial)), from);
        }
      case ReceivedBlocks(ranges, bs) =>
        if t.phase.DownloadingInitialState? && |Flatten(ranges)| == |bs| {
          var r := TakeBlocks(env.hashing, t.phase.tree, t.phase.blocks, Flatten(ranges), bs);
          if r.Some? { EnterSyncingWaits(env, t'.(phase := t.phase.(blocks := r.value)), from); }
        }
      case ReceivedOperations(_) =>
    }
  }

  lemma StepWaits<S, Op>(env: Env<S, Op>, t: Task<S>, e: Event)
    requires WaitsRightly(t)
    ensures WaitsRightly(Step(env, t, e).task)
  {
    hide Deliver, SendRequests, Receive, ServeHashes, ServeBlocks, PartialBlocks;
    match e
    case Delivered(from, cmd) =>
      if !cmd.ApplyLocally? { DeliverWaits(env, t, from, cmd); }
    case RequestsSent(peers, requests) =>
      SendPhase(t, peers, requests);
    case _ =>
  }

  /** In every run, nobody is left waiting for metadata, hashes or blocks that the store has. */
  lemma {:induction false} NobodyWaitsInVain<S, Op>(env: Env<S, Op>, t: Task<S>, es: seq<Event>)
    requires WaitsRightly(t)
    ensures WaitsRightly(RunTask(env, t, es).0)
    decreases |es|
  {
    if es != [] {
      StepWaits(env, t, es[0]);
      NobodyWaitsInVain(env, Step(env, t, es[0]).task, es[1..]);
    }
  }

  // ---------- Answers are true

  /** An answer about the store says what the creator of the store published. */
  ghost predicate IsTrue<S>(h: Hashing, m: Metadata, bytes: Bytes, msg: Message<S>) {
    match msg
    case MetadataAnswer(_, metadata) => metadata.Some? ==> metadata.value == m
    case MerkleAnswer(_, ranges, hashes) =>
      hashes.Some? ==> ServeHashes(TreeOf(h, bytes), Flatten(ranges)) == hashes
    case BlockAnswer(_, ranges, blocks) =>
      && |blocks| == |Flatten(ranges)|
      && (forall k :: 0 <= k < |blocks| && blocks[k].Some? ==> IsBlock(bytes, Flatten(ranges)[k], blocks[k].value))
    case _ => true
  }

  ghost predicate IsBlock(bytes: Bytes, i: nat, block: Bytes) {
    i * BLOCK_SIZE <= |bytes| && block == bytes[i * BLOCK_SIZE..Min((i + 1) * BLOCK_SIZE, |bytes|)]
  }

  ghost predicate AllTrue<S>(h: Hashing, m: Metadata, bytes: Bytes, msgs: seq<Message<S>>) {
    forall i :: 0 <= i < |msgs| ==> IsTrue(h, m, bytes, msgs[i])
  }

  lemma AllTrueConcat<S>(h: Hashing, m: Metadata, bytes: Bytes, a: seq<Message<S>>, b: seq<Message<S>>)
    requires AllTrue(h, m, bytes, a) && AllTrue(h, m, bytes, b)
    ensures AllTrue(h, m, bytes, a + b)
  {
    hide IsTrue;
  }

  lemma {:induction false} MerkleAnswersTrue<S>(h: Hashing, m: Metadata, bytes: Bytes, subs: map<Peer, seq<Range>>,
                                                peers: seq<Peer>, from: Peer)
    requires forall p :: p in peers ==> p in subs
    ensures var r: Option<seq<Message<S>>> := MerkleAnswers(TreeOf(h, bytes), subs, peers, from);
      r.Some? ==> AllTrue(h, m, bytes, r.value)
  {
    hide ServeHashes, TreeOf, Flatten;
    if peers != [] { MerkleAnswersTrue<S>(h, m, bytes, subs, peers[1..], from); }
  }

  lemma ServedBlocksTrue(bytes: Bytes, ids: seq<nat>)
    requires ServeBlocks(bytes, ids).Some?
    ensures var bs := ServeBlocks(bytes, ids).value;
      |bs| == |ids| && forall k :: 0 <= k < |bs| && bs[k].Some? ==> IsBlock(bytes, ids[k], bs[k].value)
  {
  }

  lemma {:induction false} BlockAnswersTrue<S>(h: Hashing, m: Metadata, bytes: Bytes, subs: map<Peer, seq<Range>>,
                                               peers: seq<Peer>)
    requires forall p :: p in peers ==> p in subs
    ensures var r: Option<seq<Message<S>>> := BlockAnswers(bytes, subs, peers);
      r.Some? ==> AllTrue(h, m, bytes, r.value)
  {
    hide ServeBlocks, IsBlock, Flatten;
    if peers != [] {
      BlockAnswersTrue<S>(h, m, bytes, subs, peers[1..]);
      if ServeBlocks(bytes, Flatten(subs[peers[0]])).Some? { ServedBlocksTrue(bytes, Flatten(subs[peers[0]])); }
    }
  }

  lemma UpdatesTrue<S>(h: Hashing, m: Metadata, bytes: Bytes, t: Task<S>, from: Option<Peer>)
    requires t.phase.Syncing?
    ensures AllTrue(h, m, bytes, UpdateListeners(t, from).messages)
  {
  }

  lemma EnterSyncingTrue<S, Op>(env: Env<S, Op>, m: Metadata, bytes: Bytes, t: Task<S>, from: Peer)
    requires t.phase.DownloadingInitialState?
    requires var st := ToSyncing(env, t.phase.metadata, t.phase.tree, t.phase.blocks);
      st.Syncing? ==> st.initialState == bytes
    ensures AllTrue(env.hashing, m, bytes, EnterSyncing(env, t, from).messages)
  {
    hide UpdateListeners, ToSyncing, BlockAnswers;
    var st := ToSyncing(env, t.phase.metadata, t.phase.tree, t.phase.blocks);
    BlockAnswersTrue<S>(env.hashing, m, bytes, t.blockSubscribers, Waiting(t.blockSubscribers));
    SyncingOrNot(env, t);
    if !st.Crashed? {
      UpdatesTrue(env.hashing, m, bytes, t.(phase := st), Some(from));
      var answers: Option<seq<Message<S>>> := BlockAnswers(bytes, t.blockSubscribers, Waiting(t.blockSubscribers));
      if answers.Some? {
        AllTrueConcat(env.hashing, m, bytes, UpdateListeners(t.(phase := st), Some(from)).messages, answers.value);
      }
    }
  }

  lemma SyncingOrNot<S, Op>(env: Env<S, Op>, t: Task<S>)
    requires t.phase.DownloadingInitialState?
    ensures var st := ToSyncing(env, t.phase.metadata, t.phase.tree, t.phase.blocks); st.Crashed? || st.Syncing?
  {
  }

  /** The tree is complete and right, so what waiters are told of it is true; no block phase is skipped. */
  lemma EnterInitialStateTrue<S(!new), Op(!new)>(env: Env<S, Op>, m: Metadata, bytes: Bytes, t: Task<S>, from: Peer)
    requires CollisionFree(env) && Published(env.hashing, m, bytes)
    requires t.phase.DownloadingMerkle? && t.phase.metadata == m && Inv(env.hashing, t.phase.partial)
    requires |t.phase.partial| == NodeCount(BlockCount(m.initialStateSize))
    requires t.phase.partial[0] == Verified(m.merkleRoot)
    ensures AllTrue(env.hashing, m, bytes, EnterInitialState(env, t, from).messages)
  {
    hide MerkleAnswers, EnterSyncing, Inv, ChunkTree, Chunks;
    if TryComplete(t.phase.partial).Some? {
      TreeIsPublished(env, m, bytes, t.phase.partial);
      assert TryComplete(t.phase.partial).value == TreeOf(env.hashing, bytes);
      MerkleAnswersTrue<S>(env.hashing, m, bytes, t.merkleSubscribers, Waiting(t.merkleSubscribers), from);
    }
  }

  lemma GotMetadataTrue<S(!new), Op(!new)>(env: Env<S, Op>, m: Metadata, bytes: Bytes, t: Task<S>, from: Peer,
                                           m': Metadata)
    requires CollisionFree(env) && Published(env.hashing, m, bytes) && Faithful(env, m, bytes, t.phase)
    requires !t.phase.Crashed?
    ensures AllTrue(env.hashing, m, bytes, GotMetadata(env, t, from, m').messages)
  {
    hide EnterInitialState, Faithful, Inv, ChunkTree, Chunks;
    IdStays(env, m, bytes, t.phase);
    ValidatesIff(env.hash, m', m);
    var count := BlockCount(m'.initialStateSize);
    if env.IdOf(m') == env.IdOf(m) && count >= 1 {
      var partial := NewWithCapacity(m.merkleRoot, count);
      NewIsInv(env.hashing, m.merkleRoot, count);
      var t' := t.(phase := DownloadingMerkle(m, partial), metadataSubscribers := {});
      EnterInitialStateTrue(env, m, bytes, t', from);
      var answers: seq<Message<S>> := MetadataAnswers(Ascending(t.metadataSubscribers), from, m);
      AllTrueConcat(env.hashing, m, bytes, answers, EnterInitialState(env, t', from).messages);
    }
  }

  lemma IdStays<S(!new), Op(!new)>(env: Env<S, Op>, m: Metadata, bytes: Bytes, st: Phase<S>)
    requires Faithful(env, m, bytes, st) && !st.Crashed?
    ensures CurrentId(env, st) == env.IdOf(m)
  {
    hide Inv, ChunkTree, Chunks;
  }

  lemma GotHashesTrue<S(!new), Op(!new)>(env: Env<S, Op>, m: Metadata, bytes: Bytes, t: Task<S>, from: Peer,
                                         ids: seq<nat>, hashes: seq<Digest>)
    requires CollisionFree(env) && Published(env.hashing, m, bytes) && Faithful(env, m, bytes, t.phase)
    requires !t.phase.Crashed?
    ensures AllTrue(env.hashing, m, bytes, GotMerkleHashes(env, t, from, ids, hashes).messages)
  {
    hide EnterInitialState, ChunkTree, Chunks, SetAll;
    if |ids| == |hashes| && t.phase.DownloadingMerkle? {
      var partial := SetAll(env.hashing, t.phase.partial, Proposals(ids, hashes));
      RunKeepsInv(env.hashing, t.phase.partial, Proposals(ids, hashes));
      EnterInitialStateTrue(env, m, bytes, t.(phase := DownloadingMerkle(t.phase.metadata, partial)), from);
    }
  }

  lemma GotBlocksTrue<S(!new), Op(!new)>(env: Env<S, Op>, m: Metadata, bytes: Bytes, t: Task<S>, from: Peer,
                                         ranges: seq<Range>, bs: seq<Option<Bytes>>)
    requires CollisionFree(env) && Published(env.hashing, m, bytes) && Faithful(env, m, bytes, t.phase)
    requires !t.phase.Crashed?
    ensures AllTrue(env.hashing, m, bytes, GotBlocks(env, t, from, Flatten(ranges), bs).messages)
  {
    hide EnterSyncing, TakeBlocks, Flatten, ToSyncing;
    var ids := Flatten(ranges);
    ExecuteFaithful(env, m, bytes, t.phase, ReceivedBlocks(ranges, bs));
    if |ids| == |bs| && t.phase.DownloadingInitialState? {
      var r := TakeBlocks(env.hashing, t.phase.tree, t.phase.blocks, ids, bs);
      if r.Some? && !AnyMissing(r.value) {
        var t' := t.(phase := t.phase.(blocks := r.value));
        FaithfulBytes(env, m, bytes, Execute(env, t.phase, ReceivedBlocks(ranges, bs)));
        EnterSyncingTrue(env, m, bytes, t', from);
      }
    }
  }

  lemma FaithfulBytes<S(!new), Op(!new)>(env: Env<S, Op>, m: Metadata, bytes: Bytes, st: Phase<S>)
    requires Faithful(env, m, bytes, st)
    ensures st.Syncing? ==> st.initialState == bytes
  {
  }

  lemma DeliverTrue<S(!new), Op(!new)>(env: Env<S, Op>, m: Metadata, bytes: Bytes, t: Task<S>, from: Peer,
                                       cmd: Command)
    requires CollisionFree(env) && Published(env.hashing, m, bytes) && Faithful(env, m, bytes, t.phase)
    requires !cmd.ApplyLocally?
    ensures AllTrue(env.hashing, m, bytes, Deliver(env, t, from, cmd).messages)
  {
    hide GotMetadata, GotMerkleHashes, GotBlocks, UpdateListeners, ReceiveAll, Flatten, Faithful, Published, IsTrue;
    if !t.phase.Crashed? && MarkReady(t, from).Some? {
      var t' := MarkReady(t, from).value;
      match cmd
      case ReceivedMetadata(m') => GotMetadataTrue(env, m, bytes, t', from, m');
      case ReceivedMerkleHashes(ranges, hashes) => GotHashesTrue(env, m, bytes, t', from, Flatten(ranges), hashes);
      case ReceivedBlocks(ranges, bs) => GotBlocksTrue(env, m, bytes, t', from, ranges, bs);
      case ReceivedOperations(hs) =>
        if t.phase.Syncing? {
          OperationsTrue(env, m, bytes, t', Some(from),
                         ReceiveAll(env.crdt, Running(t.phase.ecg, t.phase.latest), hs));
        }
    }
  }

  lemma OperationsTrue<S, Op>(env: Env<S, Op>, m: Metadata, bytes: Bytes, t: Task<S>, from: Option<Peer>, r: Store<S>)
    requires t.phase.Syncing?
    ensures AllTrue(env.hashing, m, bytes, GotOperations(env, t, from, r).messages)
  {
    hide UpdateListeners;
    match r
    case Panicked =>
    case Running(ecg, latest) =>
      UpdatesTrue(env.hashing, m, bytes, t.(phase := t.phase.(ecg := ecg, latest := latest)), from);
  }

  lemma AskedBlocksTrue<S(!new), Op(!new)>(env: Env<S, Op>, m: Metadata, bytes: Bytes, t: Task<S>, peer: Peer,
                                           ranges: seq<Range>)
    requires Faithful(env, m, bytes, t.phase)
    ensures AllTrue(env.hashing, m, bytes, AskedBlocks(t, peer, ranges).messages)
  {
    hide Flatten, ServeBlocks, Inv, ChunkTree, Hashed, IsBlock;
    var ids := Flatten(ranges);
    if t.phase.Syncing? {
      if ServeBlocks(bytes, ids).Some? { ServedBlocksTrue(bytes, ids); }
    } else if t.phase.DownloadingInitialState? && PartialBlocks(t.phase.blocks, ids).Some? {
      PartialBlocksTrue(bytes, t.phase.blocks, ids);
    }
  }

  lemma PartialBlocksTrue(bytes: Bytes, blocks: seq<Option<Bytes>>, ids: seq<nat>)
    requires PartialBlocks(blocks, ids).Some? && |blocks| == |Chunks(bytes)|
    requires forall i :: 0 <= i < |blocks| && blocks[i].Some? ==> blocks[i].value == Chunks(bytes)[i]
    ensures var bs := PartialBlocks(blocks, ids).value;
      |bs| == |ids| && forall k :: 0 <= k < |bs| && bs[k].Some? ==> IsBlock(bytes, ids[k], bs[k].value)
  {
    forall k | 0 <= k < |ids| && blocks[ids[k]].Some?
      ensures IsBlock(bytes, ids[k], blocks[ids[k]].value)
    {
      assert Chunks(bytes)[ids[k]] == Block(bytes, ids[k]);
    }
  }

  lemma AskedMerkleTrue<S(!new), Op(!new)>(env: Env<S, Op>, m: Metadata, bytes: Bytes, t: Task<S>, peer: Peer,
                                           ranges: seq<Range>)
    requires Faithful(env, m, bytes, t.phase)
    ensures AllTrue(env.hashing, m, bytes, AskedMerkle(t, peer, ranges).messages)
    ensures AllTrue(env.hashing, m, bytes, AskedMetadata(t, peer).messages)
  {
    hide Flatten, ServeHashes, Inv, ChunkTree, Hashed, Chunks;
  }

  lemma NoClaims<S>(h: Hashing, m: Metadata, bytes: Bytes, msgs: seq<Message<S>>)
    requires forall msg :: msg in msgs ==> msg.Ask? || msg.GraphAnswer? || msg.StateUpdate?
    ensures AllTrue(h, m, bytes, msgs)
  {
    forall i | 0 <= i < |msgs|
      ensures IsTrue(h, m, bytes, msgs[i])
    {
      assert msgs[i] in msgs;
    }
  }

  lemma StepTrue<S(!new), Op(!new)>(env: Env<S, Op>, m: Metadata, bytes: Bytes, t: Task<S>, e: Event)
    requires CollisionFree(env) && Published(env.hashing, m, bytes) && Faithful(env, m, bytes, t.phase)
    ensures AllTrue(env.hashing, m, bytes, Step(env, t, e).messages)
    ensures Faithful(env, m, bytes, Step(env, t, e).task.phase)
  {
    hide Deliver, Execute, SendRequests, AskedMerkle, AskedBlocks, AskedMetadata, Faithful, Published, IsTrue,
      CollisionFree, GotOperations, Receive;
    PhaseFollows(env, t, e);
    CrashedIsFaithful(env, m, bytes);
    match e
    case Delivered(from, cmd) =>
      ExecuteFaithful(env, m, bytes, t.phase, cmd);
      if !cmd.ApplyLocally? { DeliverTrue(env, m, bytes, t, from, cmd); }
    case Applied(h) =>
      ExecuteFaithful(env, m, bytes, t.phase, ApplyLocally(h));
      if t.phase.Syncing? && Accepts(t.phase.ecg, h) {
        OperationsTrue(env, m, bytes, t, None, Receive(env.crdt, Running(t.phase.ecg, t.phase.latest), h));
      }
    case MetadataAsked(peer) => AskedMerkleTrue(env, m, bytes, t, peer, []);
    case MerkleAsked(peer, ranges) => AskedMerkleTrue(env, m, bytes, t, peer, ranges);
    case BlocksAsked(peer, ranges) => AskedBlocksTrue(env, m, bytes, t, peer, ranges);
    case Subscribed(peer, snapshot) => NoClaims(env.hashing, m, bytes, Step(env, t, e).messages);
    case Discovered(_) =>
    case SyncRequested(_) =>
    case SyncStarted(_) =>
    case RequestsSent(peers, requests) =>
      SendPhase(t, peers, requests);
      NoClaims(env.hashing, m, bytes, Step(env, t, e).messages);
  }

  lemma CrashedIsFaithful<S(!new), Op(!new)>(env: Env<S, Op>, m: Metadata, bytes: Bytes)
    ensures forall st: Phase<S> :: st.Crashed? ==> Faithful(env, m, bytes, st)
  {
  }

  /**
    Whatever its peers send, in any run a store passes on to others only what the creator of its id published: every
    answer about metadata, hashes and blocks is right.
   */
  lemma {:induction false} AnswersAreTrue<S(!new), Op(!new)>(env: Env<S, Op>, m: Metadata, bytes: Bytes, t: Task<S>,
                                                             es: seq<Event>)
    requires CollisionFree(env) && Published(env.hashing, m, bytes) && Faithful(env, m, bytes, t.phase)
    ensures AllTrue(env.hashing, m, bytes, RunTask(env, t, es).1)
    ensures Faithful(env, m, bytes, RunTask(env, t, es).0.phase)
    decreases |es|
  {
    hide Step, Faithful, Published, IsTrue, CollisionFree;
    if es != [] {
      var first := Step(env, t, es[0]);
      StepTrue(env, m, bytes, t, es[0]);
      AnswersAreTrue(env, m, bytes, first.task, es[1..]);
      AllTrueConcat(env.hashing, m, bytes, first.messages, RunTask(env, first.task, es[1..]).1);
    }
  }
}
