/** Over whole runs of the task that owns a store, whom it asks, and for what. */
module StoreTaskPeers {
  import opened Common
  import opened EventGraph
  import opened Ranges
  import opened StoreIds
  import opened StoreLoop
  import opened Merkle
  import opened PartialMerkle
  import opened Blocks
  import opened Download
  import opened StoreTask
  import opened StoreTaskRuns
  import Heap

  lemma CountedTwice<T>(s: seq<T>, i: nat, j: nat)
    requires i < j < |s| && s[i] == s[j]
    ensures multiset(s)[s[i]] >= 2
  {
    assert s == s[..j] + s[j..] && s[j..] == [s[j]] + s[j + 1..];
    assert s[..j][i] == s[i];
  }

  lemma ShuffledAreReady<S>(t: Task<S>, peers: seq<Peer>, requests: seq<Request>)
    requires Shuffled(t, peers, requests)
    ensures Distinct(peers)
    ensures forall p :: p in peers <==> p in ReadyPeers(t.outgoing)
  {
    var ready := ReadyPeers(t.outgoing);
    forall p
      ensures p in peers <==> p in ready
    {
      assert p in peers <==> p in multiset(peers);
      assert p in ready <==> p in multiset(ready);
    }
    forall i, j | 0 <= i < j < |peers|
      ensures peers[i] != peers[j]
    {
      if peers[i] == peers[j] { CountedTwice(peers, i, j); }
    }
  }

  lemma {:induction false} SendMessages<S>(t: Task<S>, peers: seq<Peer>, requests: seq<Request>)
    ensures var (n, r) := (Min(|peers|, |requests|), SendRequests(t, peers, requests));
      |r.messages| == n && forall i :: 0 <= i < n ==> r.messages[i] == Ask(peers[i], requests[i])
    decreases |peers|
  {
    if peers != [] && requests != [] {
      SendMessages(t.(outgoing := t.outgoing[peers[0] := Active(true)]), peers[1..], requests[1..]);
    }
  }

  lemma {:induction false} SendStatuses<S>(t: Task<S>, peers: seq<Peer>, requests: seq<Request>, p: Peer)
    requires Distinct(peers)
    ensures var (n, t') := (Min(|peers|, |requests|), SendRequests(t, peers, requests).task);
      StatusOf(t', p) == if p in peers[..n] then Some(Active(true)) else StatusOf(t, p)
    decreases |peers|
  {
    if peers != [] && requests != [] {
      var n := Min(|peers|, |requests|);
      SendStatuses(t.(outgoing := t.outgoing[peers[0] := Active(true)]), peers[1..], requests[1..], p);
      assert peers[..n] == [peers[0]] + peers[1..][..n - 1];
      assert peers[0] !in peers[1..][..n - 1];
    }
  }

  function StatusOf<S>(t: Task<S>, p: Peer): Option<PeerStatus> {
    if p in t.outgoing then Some(t.outgoing[p]) else None
  }

  /**
    As many requests are sent as there are both requests and ready peers: the first ones of the two shuffles, each to a
    peer of its own, which then owes an answer. Nothing else changes.
   */
  lemma {:induction false} SendEffect<S>(t: Task<S>, peers: seq<Peer>, requests: seq<Request>)
    requires Distinct(peers)
    ensures var (n, r) := (Min(|peers|, |requests|), SendRequests(t, peers, requests));
      && |r.messages| == n
      && (forall i :: 0 <= i < n ==> r.messages[i] == Ask(peers[i], requests[i]))
      && (forall p :: StatusOf(r.task, p) == if p in peers[..n] then Some(Active(true)) else StatusOf(t, p))
      && r.task == t.(outgoing := r.task.outgoing)
  {
    hide SendRequests, StatusOf;
    SendMessages(t, peers, requests);
    SendPhase(t, peers, requests);
    forall p
      ensures StatusOf(SendRequests(t, peers, requests).task, p)
           == if p in peers[..Min(|peers|, |requests|)] then Some(Active(true)) else StatusOf(t, p)
    {
      SendStatuses(t, peers, requests, p);
    }
  }

  // ---------- One request at a time

  function Asks<S>(msgs: seq<Message<S>>, p: Peer): nat {
    if msgs == [] then 0 else (if msgs[0].Ask? && msgs[0].to == p then 1 else 0) + Asks(msgs[1..], p)
  }

  function Answers(es: seq<Event>, p: Peer): nat {
    if es == [] then 0 else (if es[0].Delivered? && es[0].from == p then 1 else 0) + Answers(es[1..], p)
  }

  function Owed<S>(t: Task<S>, p: Peer): nat {
    if p in t.outgoing && t.outgoing[p] == Active(true) then 1 else 0
  }

  lemma {:induction false} AsksConcat<S>(a: seq<Message<S>>, b: seq<Message<S>>, p: Peer)
    ensures Asks(a + b, p) == Asks(a, p) + Asks(b, p)
    decreases |a|
  {
    if a == [] {
      assert a + b == b;
    } else {
      assert (a + b)[1..] == a[1..] + b;
      AsksConcat(a[1..], b, p);
    }
  }

  lemma {:induction false} NoAsks<S>(msgs: seq<Message<S>>, p: Peer)
    requires forall m :: m in msgs ==> !m.Ask?
    ensures Asks(msgs, p) == 0
    decreases |msgs|
  {
    if msgs != [] {
      assert msgs[0] in msgs;
      NoAsks(msgs[1..], p);
    }
  }

  /** What the handlers of the task send by themselves are answers and updates. */
  ghost predicate OnlyTells<S>(before: map<Peer, PeerStatus>, r: Outcome<S>) {
    r.task.outgoing == before && forall m :: m in r.messages ==> !m.Ask?
  }

  lemma UpdateTells<S>(t: Task<S>, from: Option<Peer>)
    requires t.phase.Syncing?
    ensures OnlyTells(t.outgoing, UpdateListeners(t, from))
  {
  }

  lemma {:induction false} MerkleAnswersTell<S>(tree: Nodes', subs: map<Peer, seq<Range>>, peers: seq<Peer>, from: Peer)
    requires forall p :: p in peers ==> p in subs
    ensures var r: Option<seq<Message<S>>> := MerkleAnswers(tree, subs, peers, from);
      r.Some? ==> forall m :: m in r.value ==> !m.Ask?
    decreases |peers|
  {
    hide ServeHashes, Flatten;
    if peers != [] { MerkleAnswersTell<S>(tree, subs, peers[1..], from); }
  }

  lemma {:induction false} BlockAnswersTell<S>(bytes: Bytes, subs: map<Peer, seq<Range>>, peers: seq<Peer>)
    requires forall p :: p in peers ==> p in subs
    ensures var r: Option<seq<Message<S>>> := BlockAnswers(bytes, subs, peers);
      r.Some? ==> forall m :: m in r.value ==> !m.Ask?
    decreases |peers|
  {
    hide ServeBlocks, Flatten;
    if peers != [] { BlockAnswersTell<S>(bytes, subs, peers[1..]); }
  }

  lemma EnterSyncingTells<S, Op>(env: Env<S, Op>, t: Task<S>, from: Peer)
    requires t.phase.DownloadingInitialState?
    ensures OnlyTells(t.outgoing, EnterSyncing(env, t, from))
  {
    hide UpdateListeners, BlockAnswers;
    var st := ToSyncing(env, t.phase.metadata, t.phase.tree, t.phase.blocks);
    if !st.Crashed? {
      UpdateTells(t.(phase := st), Some(from));
      BlockAnswersTell<S>(st.initialState, t.blockSubscribers, Waiting(t.blockSubscribers));
    }
  }

  lemma EnterInitialStateTells<S, Op>(env: Env<S, Op>, t: Task<S>, from: Peer)
    requires t.phase.DownloadingMerkle?
    ensures OnlyTells(t.outgoing, EnterInitialState(env, t, from))
  {
    hide EnterSyncing, MerkleAnswers;
    var tree := TryComplete(t.phase.partial);
    if tree.Some? {
      MerkleAnswersTell<S>(tree.value, t.merkleSubscribers, Waiting(t.merkleSubscribers), from);
      var m := t.phase.metadata;
      var blocks := seq(BlockCount(m.initialStateSize), _ => None);
      EnterSyncingTells(env, t.(phase := DownloadingInitialState(m, tree.value, blocks), merkleSubscribers := map[]),
                        from);
    }
  }

  lemma OperationsTell<S, Op>(env: Env<S, Op>, t: Task<S>, from: Option<Peer>, r: Store<S>)
    requires t.phase.Syncing?
    ensures OnlyTells(t.outgoing, GotOperations(env, t, from, r))
  {
    hide UpdateListeners;
    match r
    case Panicked =>
    case Running(ecg, latest) => UpdateTells(t.(phase := t.phase.(ecg := ecg, latest := latest)), from);
  }

  lemma MetadataTells<S, Op>(env: Env<S, Op>, t: Task<S>, from: Peer, m: Metadata)
    requires !t.phase.Crashed?
    ensures OnlyTells(t.outgoing, GotMetadata(env, t, from, m))
  {
    hide EnterInitialState, NewWithCapacity;
    var count := BlockCount(m.initialStateSize);
    if count == 1 {
      var partial := NewWithCapacity(m.merkleRoot, count);
      EnterInitialStateTells(env, t.(phase := DownloadingMerkle(m, partial), metadataSubscribers := {}), from);
    }
  }

  lemma HashesTell<S, Op>(env: Env<S, Op>, t: Task<S>, from: Peer, ids: seq<nat>, hashes: seq<Digest>)
    requires !t.phase.Crashed?
    ensures OnlyTells(t.outgoing, GotMerkleHashes(env, t, from, ids, hashes))
  {
    hide EnterInitialState, SetAll;
    if |ids| == |hashes| && t.phase.DownloadingMerkle? {
      var partial := SetAll(env.hashing, t.phase.partial, Proposals(ids, hashes));
      EnterInitialStateTells(env, t.(phase := DownloadingMerkle(t.phase.metadata, partial)), from);
    }
  }

  lemma BlocksTell<S, Op>(env: Env<S, Op>, t: Task<S>, from: Peer, ids: seq<nat>, bs: seq<Option<Bytes>>)
    requires !t.phase.Crashed?
    ensures OnlyTells(t.outgoing, GotBlocks(env, t, from, ids, bs))
  {
    hide EnterSyncing, TakeBlocks;
    if |ids| == |bs| && t.phase.DownloadingInitialState? {
      var r := TakeBlocks(env.hashing, t.phase.tree, t.phase.blocks, ids, bs);
      if r.Some? { EnterSyncingTells(env, t.(phase := t.phase.(blocks := r.value)), from); }
    }
  }

  /** An answer frees the peer, so that it may be asked again; from a peer that is not synced with it is a failure. */
  lemma DeliverTells<S, Op>(env: Env<S, Op>, t: Task<S>, from: Peer, cmd: Command)
    requires !cmd.ApplyLocally?
    ensures var r := Deliver(env, t, from, cmd);
      if !t.phase.Crashed? && from in t.outgoing && t.outgoing[from].Active? then
        OnlyTells(t.outgoing[from := Active(false)], r)
      else OnlyTells(t.outgoing, r) && r.task.phase.Crashed?
  {
    hide GotMetadata, GotMerkleHashes, GotBlocks, GotOperations, ReceiveAll, Flatten;
    if !t.phase.Crashed? && MarkReady(t, from).Some? {
      var t' := MarkReady(t, from).value;
      match cmd
      case ReceivedMetadata(m) => MetadataTells(env, t', from, m);
      case ReceivedMerkleHashes(ranges, hashes) => HashesTell(env, t', from, Flatten(ranges), hashes);
      case ReceivedBlocks(ranges, bs) => BlocksTell(env, t', from, Flatten(ranges), bs);
      case ReceivedOperations(hs) =>
        if t.phase.Syncing? {
          OperationsTell(env, t', Some(from), ReceiveAll(env.crdt, Running(t.phase.ecg, t.phase.latest), hs));
        }
    }
  }

  lemma {:induction false} SentAsks<S>(msgs: seq<Message<S>>, peers: seq<Peer>, requests: seq<Request>, p: Peer)
    requires |msgs| == |peers| == |requests| && Distinct(peers)
    requires forall i :: 0 <= i < |peers| ==> msgs[i] == Ask(peers[i], requests[i])
    ensures Asks(msgs, p) == if p in peers then 1 else 0
    decreases |msgs|
  {
    if msgs != [] { SentAsks(msgs[1..], peers[1..], requests[1..], p); }
  }

  lemma SendOwes<S>(t: Task<S>, peers: seq<Peer>, requests: seq<Request>, p: Peer)
    requires Shuffled(t, peers, requests)
    ensures var r := SendSyncRequests(t, peers, requests); Asks(r.messages, p) + Owed(t, p) == Owed(r.task, p)
  {
    hide SendRequests, RequestsOf;
    ShuffledAreReady(t, peers, requests);
    SendEffect(t, peers, requests);
    var n := Min(|peers|, |requests|);
    var r := SendRequests(t, peers, requests);
    SentAsks(r.messages, peers[..n], requests[..n], p);
    if p in peers[..n] { assert p in ReadyPeers(t.outgoing); }
  }

  lemma StepOwes<S, Op>(env: Env<S, Op>, t: Task<S>, e: Event, p: Peer)
    ensures var r := Step(env, t, e);
      Asks(r.messages, p) + Owed(t, p) <= Answers([e], p) + Owed(r.task, p)
  {
    hide Deliver, ApplyLocal, SendSyncRequests, Shuffled, ServeHashes, ServeBlocks, PartialBlocks, Tips, Flatten;
    assert Answers([e], p) == if e.Delivered? && e.from == p then 1 else 0;
    var r := Step(env, t, e);
    match e
    case Delivered(from, cmd) =>
      if !cmd.ApplyLocally? { DeliverTells(env, t, from, cmd); }
      NoAsks(r.messages, p);
    case Applied(h) =>
      LocalTells(env, t, h);
      NoAsks(r.messages, p);
    case RequestsSent(peers, requests) =>
      if Shuffled(t, peers, requests) { SendOwes(t, peers, requests, p); }
    case _ =>
      NoAsks(r.messages, p);
  }

  lemma LocalTells<S, Op>(env: Env<S, Op>, t: Task<S>, h: Header)
    ensures OnlyTells(t.outgoing, ApplyLocal(env, t, h))
  {
    hide Receive, GotOperations;
    if t.phase.Syncing? && Accepts(t.phase.ecg, h) {
      OperationsTell(env, t, None, Receive(env.crdt, Running(t.phase.ecg, t.phase.latest), h));
    }
  }

  /**
    In every run, whatever peers send and however requests are dealt out, no peer is asked again before it has
    answered: a peer gets at most as many requests as it sent answers, and one more while its answer is outstanding.
   */
  lemma {:induction false} OneRequestAtATime<S, Op>(env: Env<S, Op>, t: Task<S>, es: seq<Event>, p: Peer)
    ensures var (t', msgs) := RunTask(env, t, es); Asks(msgs, p) + Owed(t, p) <= Answers(es, p) + Owed(t', p)
    decreases |es|
  {
    hide Step;
    if es != [] {
      var first := Step(env, t, es[0]);
      StepOwes(env, t, es[0], p);
      OneRequestAtATime(env, first.task, es[1..], p);
      AsksConcat(first.messages, RunTask(env, first.task, es[1..]).1, p);
      assert Answers([es[0]], p) + Answers(es[1..], p) == Answers(es, p);
    }
  }

  // ---------- The statuses of peers

  /** How an event changes the status of a peer; requests may be sent to it or not. */
  ghost predicate StatusFollows(before: Option<PeerStatus>, after: Option<PeerStatus>, e: Event, p: Peer) {
    match e
    case Discovered(peer) => after == if peer == p && before == None then Some(Known) else before
    case SyncRequested(peer) =>
      if peer == p then before == Some(Known) && after == Some(Initializing) else after == before
    case SyncStarted(peer) =>
      if peer == p then before == Some(Initializing) && after == Some(Active(false)) else after == before
    case Delivered(from, cmd) =>
      if from == p && !cmd.ApplyLocally? then before.Some? && before.value.Active? && after == Some(Active(false))
      else after == before
    case RequestsSent(_, _) => after == before || (before == Some(Active(false)) && after == Some(Active(true)))
    case _ => after == before
  }

  /** In a step that does not fail, a peer gets only from known to initializing to syncing, and is asked and answers. */
  lemma StatusStep<S, Op>(env: Env<S, Op>, t: Task<S>, e: Event, p: Peer)
    requires !t.phase.Crashed?
    ensures var t' := Step(env, t, e).task;
      t'.phase.Crashed? || StatusFollows(StatusOf(t, p), StatusOf(t', p), e, p)
  {
    hide Deliver, ApplyLocal, SendRequests, Shuffled, ServeHashes, ServeBlocks, PartialBlocks, Tips, Flatten;
    match e
    case Delivered(from, cmd) =>
      if !cmd.ApplyLocally? { DeliverTells(env, t, from, cmd); }
    case Applied(h) => LocalTells(env, t, h);
    case RequestsSent(peers, requests) =>
      if Shuffled(t, peers, requests) {
        ShuffledAreReady(t, peers, requests);
        SendEffect(t, peers, requests);
        var n := Min(|peers|, |requests|);
        if p in peers[..n] {
          var i :| 0 <= i < n && peers[i] == p;
          assert p in ReadyPeers(t.outgoing);
        }
      }
    case _ =>
  }

  // ---------- There is always something to ask for

  lemma StepKeepsInv<S, Op>(env: Env<S, Op>, id: StoreId, t: Task<S>, e: Event)
    requires PhaseInv(env, id, t.phase)
    ensures PhaseInv(env, id, Step(env, t, e).task.phase)
  {
    hide Step, Execute, PhaseInv;
    PhaseFollows(env, t, e);
    CrashedKeepsInv(env, id, Step(env, t, e).task.phase);
    match e
    case Delivered(_, cmd) => ExecuteKeepsInv(env, id, t.phase, cmd);
    case Applied(h) => ExecuteKeepsInv(env, id, t.phase, ApplyLocally(h));
    case _ =>
  }

  lemma CrashedKeepsInv<S, Op>(env: Env<S, Op>, id: StoreId, st: Phase<S>)
    ensures st.Crashed? ==> PhaseInv(env, id, st)
  {
  }

  lemma {:induction false} RunKeepsInvariants<S, Op>(env: Env<S, Op>, id: StoreId, t: Task<S>, es: seq<Event>)
    requires PhaseInv(env, id, t.phase)
    ensures PhaseInv(env, id, RunTask(env, t, es).0.phase)
    decreases |es|
  {
    hide Step, PhaseInv;
    if es != [] {
      StepKeepsInv(env, id, t, es[0]);
      RunKeepsInvariants(env, id, Step(env, t, es[0]).task, es[1..]);
    }
  }

  /**
    After no run does the task fail for want of anything to ask for, and every request it deals out asks for metadata
    it lacks, for at most 16 indices that are all missing, or for the news of a peer.
   */
  lemma SendingNeverFails<S, Op>(env: Env<S, Op>, id: StoreId, t: Task<S>, es: seq<Event>, peers: seq<Peer>,
                                 requests: seq<Request>)
    requires PhaseInv(env, id, t.phase)
    requires Shuffled(RunTask(env, t, es).0, peers, requests)
    ensures var t' := RunTask(env, t, es).0;
      && SendSyncRequests(t', peers, requests) == SendRequests(t', peers, requests)
      && forall r :: r in requests ==> IsNeeded(t'.phase, r)
  {
    hide RunTask, SendRequests, PhaseInv;
    RunKeepsInvariants(env, id, t, es);
    var t' := RunTask(env, t, es).0;
    var reqs := RequestsOf(t'.phase, |peers|);
    assert |multiset(requests)| == |requests| && |multiset(reqs)| == |reqs|;
    forall r | r in requests
      ensures IsNeeded(t'.phase, r)
    {
      assert r in multiset(requests);
      NeededRequests(env, id, t'.phase, |peers|, r);
    }
    if t'.phase.DownloadingMerkle? || t'.phase.DownloadingInitialState? { RequestsAreExact(env, id, t'.phase); }
  }

  ghost predicate IsNeeded<S>(st: Phase<S>, r: Request) {
    match r
    case MetadataRequest => st.DownloadingMetadata?
    case MerkleRequest(ranges) =>
      && st.DownloadingMerkle? && 0 < |Flatten(ranges)| <= 16
      && forall i :: i in Flatten(ranges) ==> 0 <= i < |st.partial| && st.partial[i].Missing?
    case BlockRequest(ranges) =>
      && st.DownloadingInitialState? && 0 < |Flatten(ranges)| <= 16
      && forall i :: i in Flatten(ranges) ==> 0 <= i < |st.blocks| && st.blocks[i].None?
    case EcgRequest(ecg) => st.Syncing? && ecg == st.ecg
  }

  lemma NeededRequests<S, Op>(env: Env<S, Op>, id: StoreId, st: Phase<S>, ready: nat, r: Request)
    requires PhaseInv(env, id, st) && r in RequestsOf(st, ready)
    ensures IsNeeded(st, r)
  {
    hide SyncRequests, PhaseInv, Flatten;
    if st.DownloadingMerkle? || st.DownloadingInitialState? {
      RequestsAreExact(env, id, st);
      var reqs := SyncRequests(st);
      var k :| 0 <= k < |reqs| && r == if st.DownloadingMerkle? then MerkleRequest(reqs[k]) else BlockRequest(reqs[k]);
      PartOfFlattened(reqs, k);
    }
  }

  lemma {:induction false} PartOfFlattened(reqs: seq<seq<Range>>, k: nat)
    requires k < |reqs|
    ensures forall i :: i in Flatten(reqs[k]) ==> i in FlattenRequests(reqs)
    decreases k
  {
    hide Flatten;
    if k > 0 { PartOfFlattened(reqs[1..], k - 1); }
  }

  // ---------- All that is missing is asked for

  function RequestIndices(r: Request): seq<nat> {
    match r
    case MerkleRequest(ranges) => Flatten(ranges)
    case BlockRequest(ranges) => Flatten(ranges)
    case _ => []
  }

  ghost function Indices(requests: seq<Request>): multiset<nat> {
    if requests == [] then multiset{} else multiset(RequestIndices(requests[0])) + Indices(requests[1..])
  }

  lemma {:induction false} IndicesConcat(a: seq<Request>, b: seq<Request>)
    ensures Indices(a + b) == Indices(a) + Indices(b)
    decreases |a|
  {
    hide RequestIndices;
    if a == [] {
      assert a + b == b;
    } else {
      assert (a + b)[1..] == a[1..] + b;
      IndicesConcat(a[1..], b);
    }
  }

  lemma IndicesCons(r: Request, rest: seq<Request>)
    ensures Indices([r] + rest) == multiset(RequestIndices(r)) + Indices(rest)
  {
    assert ([r] + rest)[1..] == rest;
  }

  lemma IndicesWithout(b: seq<Request>, i: nat)
    requires i < |b|
    ensures Indices(b) == multiset(RequestIndices(b[i])) + Indices(b[..i] + b[i + 1..])
  {
    hide RequestIndices, Indices;
    assert b == b[..i] + ([b[i]] + b[i + 1..]);
    IndicesConcat(b[..i], [b[i]] + b[i + 1..]);
    IndicesConcat(b[..i], b[i + 1..]);
    IndicesCons(b[i], b[i + 1..]);
  }

  /** In any order, requests ask for the same. */
  lemma {:induction false} IndicesShuffled(a: seq<Request>, b: seq<Request>)
    requires multiset(a) == multiset(b)
    ensures Indices(a) == Indices(b)
    decreases |a|
  {
    hide RequestIndices;
    if a == [] {
      assert |b| == |multiset(b)|;
    } else {
      assert a[0] in multiset(b);
      var i :| 0 <= i < |b| && b[i] == a[0];
      Heap.SameWithout(a, b, 0, i);
      assert a[..0] + a[1..] == a[1..];
      IndicesShuffled(a[1..], b[..i] + b[i + 1..]);
      IndicesWithout(b, i);
    }
  }

  lemma {:induction false} ChunkIndices(chunks: seq<seq<Range>>, merkle: bool)
    ensures Indices(seq(|chunks|, i requires 0 <= i < |chunks| =>
                          if merkle then MerkleRequest(chunks[i]) else BlockRequest(chunks[i])))
         == multiset(FlattenRequests(chunks))
    decreases |chunks|
  {
    hide Flatten;
    var reqs := seq(|chunks|, i requires 0 <= i < |chunks| =>
                      if merkle then MerkleRequest(chunks[i]) else BlockRequest(chunks[i]));
    if chunks != [] {
      ChunkIndices(chunks[1..], merkle);
      assert reqs[1..] == seq(|chunks[1..]|, i requires 0 <= i < |chunks[1..]| =>
                                if merkle then MerkleRequest(chunks[1..][i]) else BlockRequest(chunks[1..][i]));
    }
  }

  /** The requests of a download ask for everything that is missing, once, in however many pieces. */
  lemma RequestsFlatten<S, Op>(env: Env<S, Op>, id: StoreId, st: Phase<S>, ready: nat)
    requires PhaseInv(env, id, st) && (st.DownloadingMerkle? || st.DownloadingInitialState?)
    ensures Indices(RequestsOf(st, ready)) == multiset(Needed(st))
  {
    hide SyncRequests, PhaseInv, Flatten, Indices, Needed;
    RequestsAreExact(env, id, st);
    var chunks := SyncRequests(st);
    ChunkIndices(chunks, st.DownloadingMerkle?);
    assert RequestsOf(st, ready) == seq(|chunks|, i requires 0 <= i < |chunks| =>
      if st.DownloadingMerkle? then MerkleRequest(chunks[i]) else BlockRequest(chunks[i]));
  }

  /** What has to be asked for in a phase, whatever the order. */
  ghost predicate AsksForAll<S>(st: Phase<S>, peers: seq<Peer>, requests: seq<Request>) {
    match st
    case DownloadingMetadata(_) => requests == [MetadataRequest]
    case Syncing(_, _, _, ecg, _) => requests == seq(|peers|, _ => EcgRequest(ecg))
    case DownloadingMerkle(_, partial) =>
      && requests != [] && (forall r :: r in requests ==> r.MerkleRequest?)
      && (forall i: nat :: Indices(requests)[i] == if i < |partial| && partial[i].Missing? then 1 else 0)
    case DownloadingInitialState(_, _, blocks) =>
      && requests != [] && (forall r :: r in requests ==> r.BlockRequest?)
      && (forall i: nat :: Indices(requests)[i] == if i < |blocks| && blocks[i].None? then 1 else 0)
    case Crashed => requests == []
  }

  lemma {:induction false} DistinctCount<T>(xs: seq<T>, x: T)
    requires Distinct(xs)
    ensures multiset(xs)[x] == if x in xs then 1 else 0
    decreases |xs|
  {
    if xs != [] {
      DistinctCount(xs[1..], x);
      assert xs == [xs[0]] + xs[1..];
      assert xs[0] !in xs[1..];
    }
  }

  lemma {:induction false} MissingBlocksOnce(blocks: seq<Option<Bytes>>, n: nat)
    requires n <= |blocks|
    ensures var xs := MissingBlocksUpTo(blocks, n);
      Distinct(xs) && forall i :: i in xs <==> 0 <= i < n && blocks[i].None?
  {
    MissingBlocksMembers(blocks, n);
    if n > 0 {
      var rest := MissingBlocksUpTo(blocks, n - 1);
      MissingBlocksOnce(blocks, n - 1);
      assert forall k :: 0 <= k < |rest| ==> rest[k] in rest;
    }
  }

  lemma {:induction false} AllTheSame<T>(xs: seq<T>, n: nat, x: T)
    requires multiset(xs) == multiset(seq(n, _ => x))
    ensures xs == seq(n, _ => x)
  {
    var ys := seq(n, _ => x);
    assert |xs| == |multiset(xs)| && |ys| == |multiset(ys)|;
    forall i | 0 <= i < |xs|
      ensures xs[i] == x
    {
      assert xs[i] in multiset(xs);
      assert xs[i] in ys;
    }
  }

  lemma {:induction false} KindsOfRequests<S>(st: Phase<S>, peers: seq<Peer>, requests: seq<Request>)
    requires multiset(requests) == multiset(RequestsOf(st, |peers|))
    ensures st.DownloadingMerkle? ==> forall r :: r in requests ==> r.MerkleRequest?
    ensures st.DownloadingInitialState? ==> forall r :: r in requests ==> r.BlockRequest?
    ensures st.DownloadingMetadata? ==> requests == [MetadataRequest]
    ensures st.Syncing? ==> requests == seq(|peers|, _ => EcgRequest(st.ecg))
    ensures st.Crashed? ==> requests == []
  {
    hide SyncRequests;
    var reqs := RequestsOf(st, |peers|);
    assert |requests| == |multiset(requests)| && |reqs| == |multiset(reqs)|;
    forall r | r in requests
      ensures r in reqs
    {
      assert r in multiset(requests);
    }
    if st.DownloadingMetadata? { assert requests[0] in requests; }
    if st.Syncing? { AllTheSame(requests, |peers|, EcgRequest(st.ecg)); }
  }

  lemma ShuffledAsksForAll<S, Op>(env: Env<S, Op>, id: StoreId, st: Phase<S>, peers: seq<Peer>, requests: seq<Request>)
    requires PhaseInv(env, id, st) && multiset(requests) == multiset(RequestsOf(st, |peers|))
    ensures AsksForAll(st, peers, requests)
  {
    hide SyncRequests, PhaseInv, Indices, RequestsOf, MissingUpTo, MissingBlocksUpTo;
    KindsOfRequests(st, peers, requests);
    IndicesShuffled(requests, RequestsOf(st, |peers|));
    if st.DownloadingMerkle? || st.DownloadingInitialState? {
      RequestsFlatten(env, id, st, |peers|);
      RequestsLeft(env, id, st, |peers|);
      assert |requests| == |multiset(requests)| && |RequestsOf(st, |peers|)| == |multiset(RequestsOf(st, |peers|))|;
      forall i: nat
        ensures st.DownloadingMerkle? ==>
          Indices(requests)[i] == if i < |st.partial| && st.partial[i].Missing? then 1 else 0
        ensures st.DownloadingInitialState? ==>
          Indices(requests)[i] == if i < |st.blocks| && st.blocks[i].None? then 1 else 0
      {
        if st.DownloadingMerkle? {
          MissingUpToMembers(st.partial, |st.partial|);
        } else {
          MissingBlocksOnce(st.blocks, |st.blocks|);
        }
        DistinctCount(Needed(st), i);
      }
    }
  }

  lemma RequestsLeft<S, Op>(env: Env<S, Op>, id: StoreId, st: Phase<S>, ready: nat)
    requires PhaseInv(env, id, st) && (st.DownloadingMerkle? || st.DownloadingInitialState?)
    ensures RequestsOf(st, ready) != []
  {
    RequestsAreExact(env, id, st);
  }

  /**
    After every run a store with a ready peer asks: for metadata, once, if that is what it lacks; in a download for
    everything that is missing and nothing twice, in pieces of which as many are sent as there are ready peers; and
    while it syncs, every ready peer for the news, with its current graph.
   */
  lemma StoresAsk<S, Op>(env: Env<S, Op>, id: StoreId, t: Task<S>, es: seq<Event>, peers: seq<Peer>,
                         requests: seq<Request>)
    requires PhaseInv(env, id, t.phase)
    requires Shuffled(RunTask(env, t, es).0, peers, requests)
    ensures var t' := RunTask(env, t, es).0;
      var msgs := SendSyncRequests(t', peers, requests).messages;
      && AsksForAll(t'.phase, peers, requests)
      && |msgs| == Min(|peers|, |requests|)
      && (forall i :: 0 <= i < |msgs| ==> msgs[i] == Ask(peers[i], requests[i]))
      && Distinct(peers) && (forall p :: p in peers <==> p in t'.outgoing && t'.outgoing[p] == Active(false))
      && (peers != [] && !t'.phase.Crashed? ==> msgs != [])
      && (t'.phase.Syncing? ==> |msgs| == |peers|)
  {
    hide RunTask, SendRequests, SendSyncRequests, PhaseInv, RequestsOf, Indices;
    RunKeepsInvariants(env, id, t, es);
    var t' := RunTask(env, t, es).0;
    ShuffledAreReady(t', peers, requests);
    SendEffect(t', peers, requests);
    SendingNeverFails(env, id, t, es, peers, requests);
    ShuffledAsksForAll(env, id, t'.phase, peers, requests);
  }
}
