/**
  Who hears what from the task that owns a store: whoever stops waiting is given what it waited for, once, and nobody
  else is told anything.
 */
module StoreTaskNews {
  import opened Common
  import opened EventGraph
  import opened StoreLoop
  import opened Merkle
  import opened PartialMerkle
  import opened Blocks
  import opened Ranges
  import opened StoreIds
  import opened Download
  import opened StoreTask
  import opened StoreTaskRuns

  /** The answers a peer gets, each kind in its order, and the updates of the listeners. */
  datatype Heard<S> = Heard(
    metadata: seq<Option<Metadata>>,
    hashes: seq<(seq<Range>, Option<seq<Digest>>)>,
    blocks: seq<(seq<Range>, seq<Option<Bytes>>)>,
    graphs: seq<Graph>,
    updates: seq<(S, Graph)>)

  ghost function Nothing<S>(): Heard<S> {
    Heard([], [], [], [], [])
  }

  ghost function Plus<S>(a: Heard<S>, b: Heard<S>): Heard<S> {
    Heard(a.metadata + b.metadata, a.hashes + b.hashes, a.blocks + b.blocks, a.graphs + b.graphs, a.updates + b.updates)
  }

  ghost function HearsOne<S>(msg: Message<S>, p: Peer): Heard<S> {
    match msg
    case StateUpdate(latest, ecg) => Nothing().(updates := [(latest, ecg)])
    case MetadataAnswer(to, metadata) => if to == p then Nothing().(metadata := [metadata]) else Nothing()
    case MerkleAnswer(to, ranges, hashes) => if to == p then Nothing().(hashes := [(ranges, hashes)]) else Nothing()
    case BlockAnswer(to, ranges, blocks) => if to == p then Nothing().(blocks := [(ranges, blocks)]) else Nothing()
    case GraphAnswer(to, ecg) => if to == p then Nothing().(graphs := [ecg]) else Nothing()
    case Ask(_, _) => Nothing()
  }

  ghost function Hears<S>(msgs: seq<Message<S>>, p: Peer): Heard<S> {
    if msgs == [] then Nothing() else Plus(HearsOne(msgs[0], p), Hears(msgs[1..], p))
  }

  lemma PlusNothing<S>(a: Heard<S>)
    ensures Plus(a, Nothing()) == a && Plus(Nothing(), a) == a
  {
  }

  lemma PlusAssociates<S>(a: Heard<S>, b: Heard<S>, c: Heard<S>)
    ensures Plus(Plus(a, b), c) == Plus(a, Plus(b, c))
  {
  }

  lemma {:induction false} HearsBoth<S>(a: seq<Message<S>>, b: seq<Message<S>>, p: Peer)
    ensures Hears(a + b, p) == Plus(Hears(a, p), Hears(b, p))
    decreases |a|
  {
    hide HearsOne;
    if a == [] {
      assert a + b == b;
      PlusNothing(Hears(b, p));
    } else {
      assert (a + b)[1..] == a[1..] + b;
      HearsBoth(a[1..], b, p);
      PlusAssociates(HearsOne(a[0], p), Hears(a[1..], p), Hears(b, p));
    }
  }

  lemma HearsSingle<S>(msg: Message<S>, p: Peer)
    ensures Hears([msg], p) == HearsOne(msg, p)
  {
    PlusNothing(HearsOne(msg, p));
  }

  // ---------- Answers to those who wait

  lemma {:induction false} MetadataHeard<S>(peers: seq<Peer>, from: Peer, m: Metadata, p: Peer)
    requires Distinct(peers)
    ensures Hears<S>(MetadataAnswers(peers, from, m), p)
         == Nothing().(metadata := if p in peers then [if p == from then None else Some(m)] else [])
    decreases |peers|
  {
    var msgs: seq<Message<S>> := MetadataAnswers(peers, from, m);
    if peers != [] {
      assert msgs[1..] == MetadataAnswers(peers[1..], from, m);
      MetadataHeard<S>(peers[1..], from, m, p);
      assert p in peers <==> p == peers[0] || p in peers[1..];
    }
  }

  lemma {:induction false} GraphsHeard<S>(peers: seq<Peer>, ecg: Graph, p: Peer)
    requires Distinct(peers)
    ensures Hears<S>(GraphAnswers(peers, ecg), p) == Nothing().(graphs := if p in peers then [ecg] else [])
    decreases |peers|
  {
    var msgs: seq<Message<S>> := GraphAnswers(peers, ecg);
    if peers != [] {
      assert msgs[1..] == GraphAnswers(peers[1..], ecg);
      GraphsHeard<S>(peers[1..], ecg, p);
      assert p in peers <==> p == peers[0] || p in peers[1..];
    }
  }

  lemma {:induction false} HashesHeard<S>(tree: Nodes', subs: map<Peer, seq<Range>>, peers: seq<Peer>, from: Peer,
                                          p: Peer)
    requires Distinct(peers) && forall q :: q in peers ==> q in subs
    requires MerkleAnswers<S>(tree, subs, peers, from).Some?
    ensures p in peers && p != from ==> ServeHashes(tree, Flatten(subs[p])).Some?
    ensures Hears<S>(MerkleAnswers(tree, subs, peers, from).value, p)
         == Nothing().(hashes := if p in peers then [(subs[p], HashesFor(tree, subs[p], p, from))] else [])
    decreases |peers|
  {
    hide ServeHashes, Flatten;
    if peers != [] {
      HashesHeard<S>(tree, subs, peers[1..], from, p);
      assert p in peers <==> p == peers[0] || p in peers[1..];
      var first: Option<Message<S>> := MerkleAnswerTo(tree, subs[peers[0]], peers[0], from);
      var rest: Option<seq<Message<S>>> := MerkleAnswers(tree, subs, peers[1..], from);
      HearsBoth([first.value], rest.value, p);
      HearsSingle(first.value, p);
    }
  }

  /** Who brought the last hashes knows them; all others get those they asked for. */
  ghost function HashesFor(tree: Nodes', ranges: seq<Range>, p: Peer, from: Peer): Option<seq<Digest>> {
    if p == from then None else ServeHashes(tree, Flatten(ranges))
  }

  lemma {:induction false} BlocksHeard<S>(bytes: Bytes, subs: map<Peer, seq<Range>>, peers: seq<Peer>, p: Peer)
    requires Distinct(peers) && forall q :: q in peers ==> q in subs
    requires BlockAnswers<S>(bytes, subs, peers).Some?
    ensures p in peers ==> ServeBlocks(bytes, Flatten(subs[p])).Some?
    ensures Hears<S>(BlockAnswers(bytes, subs, peers).value, p)
         == Nothing().(blocks := if p in peers then [(subs[p], ServeBlocks(bytes, Flatten(subs[p])).value)] else [])
    decreases |peers|
  {
    hide ServeBlocks, Flatten;
    if peers != [] {
      BlocksHeard<S>(bytes, subs, peers[1..], p);
      assert p in peers <==> p == peers[0] || p in peers[1..];
      var first: Message<S> :=
        BlockAnswer(peers[0], subs[peers[0]], ServeBlocks(bytes, Flatten(subs[peers[0]])).value);
      var rest: Option<seq<Message<S>>> := BlockAnswers(bytes, subs, peers[1..]);
      HearsBoth([first], rest.value, p);
      HearsSingle(first, p);
    }
  }

  lemma UpdatesHeard<S>(t: Task<S>, from: Option<Peer>, p: Peer)
    requires t.phase.Syncing?
    ensures Hears(UpdateListeners(t, from).messages, p)
         == Nothing().(updates := [(t.phase.latest, t.phase.ecg)],
                       graphs := if p in Told(t.ecgSubscribers, from) then [t.phase.ecg] else [])
  {
    var told := Told(t.ecgSubscribers, from);
    AscendingDistinct(told);
    AscendingMembers(told);
    GraphsHeard<S>(Ascending(told), t.phase.ecg, p);
    HearsBoth([StateUpdate(t.phase.latest, t.phase.ecg)], GraphAnswers(Ascending(told), t.phase.ecg), p);
    HearsSingle(StateUpdate(t.phase.latest, t.phase.ecg), p);
  }

  // ---------- One delivery

  predicate HasMetadata<S>(st: Phase<S>) {
    !st.DownloadingMetadata? && !st.Crashed?
  }

  /** The tree is complete. */
  predicate KnowsTree<S>(st: Phase<S>) {
    st.DownloadingInitialState? || st.Syncing?
  }

  ghost predicate StillAsks(subs: map<Peer, seq<Range>>, subs': map<Peer, seq<Range>>, p: Peer) {
    p in subs && p in subs' && subs'[p] == subs[p]
  }

  /** Who waited for metadata and no longer does is given that of the phase; nobody else is, and nobody joins. */
  ghost predicate MetadataServed<S>(t: Task<S>, t': Task<S>, heard: Heard<S>, from: Option<Peer>, p: Peer) {
    if p in t.metadataSubscribers && p !in t'.metadataSubscribers then
      && HasMetadata(t'.phase)
      && heard.metadata == [if from == Some(p) then None else Some(t'.phase.metadata)]
    else heard.metadata == [] && (p in t'.metadataSubscribers ==> p in t.metadataSubscribers)
  }

  /** The same for the hashes asked for, from the tree of the phase. */
  ghost predicate HashesServed<S>(t: Task<S>, t': Task<S>, heard: Heard<S>, from: Option<Peer>, p: Peer) {
    if p in t.merkleSubscribers && p !in t'.merkleSubscribers then
      var ranges := t.merkleSubscribers[p];
      && KnowsTree(t'.phase)
      && (from != Some(p) ==> ServeHashes(t'.phase.tree, Flatten(ranges)).Some?)
      && heard.hashes == [(ranges, if from == Some(p) then None else ServeHashes(t'.phase.tree, Flatten(ranges)))]
    else heard.hashes == [] && (p in t'.merkleSubscribers ==> StillAsks(t.merkleSubscribers, t'.merkleSubscribers, p))
  }

  /** The same for the blocks asked for, cut out of the state. */
  ghost predicate BlocksServed<S>(t: Task<S>, t': Task<S>, heard: Heard<S>, p: Peer) {
    if p in t.blockSubscribers && p !in t'.blockSubscribers then
      var ranges := t.blockSubscribers[p];
      && t'.phase.Syncing? && ServeBlocks(t'.phase.initialState, Flatten(ranges)).Some?
      && heard.blocks == [(ranges, ServeBlocks(t'.phase.initialState, Flatten(ranges)).value)]
    else heard.blocks == [] && (p in t'.blockSubscribers ==> StillAsks(t.blockSubscribers, t'.blockSubscribers, p))
  }

  /** The same for the graph as it is now. */
  ghost predicate GraphsServed<S>(t: Task<S>, t': Task<S>, heard: Heard<S>, p: Peer) {
    if p in t.ecgSubscribers && p !in t'.ecgSubscribers then t'.phase.Syncing? && heard.graphs == [t'.phase.ecg]
    else heard.graphs == [] && (p in t'.ecgSubscribers ==> p in t.ecgSubscribers)
  }

  /** Listeners hear of the state as it is now when there is news, and then once. */
  ghost predicate ListenersServed<S>(t': Task<S>, heard: Heard<S>, news: bool) {
    if news then t'.phase.Syncing? && heard.updates == [(t'.phase.latest, t'.phase.ecg)] else heard.updates == []
  }

  ghost predicate Served<S>(t: Task<S>, r: Outcome<S>, from: Option<Peer>, news: bool, p: Peer) {
    var heard := Hears(r.messages, p);
    r.task.phase.Crashed? || (
      && MetadataServed(t, r.task, heard, from, p) && HashesServed(t, r.task, heard, from, p)
      && BlocksServed(t, r.task, heard, p) && GraphsServed(t, r.task, heard, p)
      && ListenersServed(r.task, heard, news))
  }

  lemma NothingServed<S>(t: Task<S>, t': Task<S>, from: Option<Peer>, p: Peer)
    requires t'.metadataSubscribers == t.metadataSubscribers && t'.merkleSubscribers == t.merkleSubscribers
    requires t'.blockSubscribers == t.blockSubscribers && t'.ecgSubscribers == t.ecgSubscribers
    ensures Served(t, Outcome(t', []), from, false, p)
  {
  }

  /** The task after the phase has become one with a state, apart from those who wait for blocks and for the graph. */
  ghost predicate Entered<S>(t: Task<S>, t': Task<S>) {
    && t.phase.DownloadingInitialState? && t'.phase.Syncing?
    && t'.phase.metadata == t.phase.metadata && t'.phase.tree == t.phase.tree
    && t'.metadataSubscribers == t.metadataSubscribers && t'.merkleSubscribers == t.merkleSubscribers
  }

  /** What a peer is told when the syncing phase begins: listeners and subscribers first, then who waits for blocks. */
  lemma StateThenBlocks<S>(t: Task<S>, st: Phase<S>, answers: seq<Message<S>>, from: Peer, p: Peer)
    requires t.phase.DownloadingInitialState? && st.Syncing?
    requires BlocksTold(t.blockSubscribers, st.initialState, answers, p)
    ensures var r := UpdateListeners(t.(phase := st), Some(from));
      Served(t, Outcome(r.task.(blockSubscribers := map[]), r.messages + answers), Some(from), true, p)
  {
    hide ServeBlocks, ServeHashes, Flatten, UpdateListeners;
    var t1 := t.(phase := st);
    UpdatesHeard(t1, Some(from), p);
    UpdatedTask(t1, Some(from));
    HearsBoth(UpdateListeners(t1, Some(from)).messages, answers, p);
  }

  ghost predicate BlocksTold<S>(subs: map<Peer, seq<Range>>, bytes: Bytes, answers: seq<Message<S>>, p: Peer) {
    && (p in subs ==> ServeBlocks(bytes, Flatten(subs[p])).Some?)
    && Hears(answers, p)
       == Nothing().(blocks := if p in subs then [(subs[p], ServeBlocks(bytes, Flatten(subs[p])).value)] else [])
  }

  lemma EnterSyncingServes<S, Op>(env: Env<S, Op>, t: Task<S>, from: Peer, p: Peer)
    requires t.phase.DownloadingInitialState?
    ensures var r := EnterSyncing(env, t, from);
      Served(t, r, Some(from), true, p) && (r.task.phase.Crashed? || Entered(t, r.task))
  {
    hide ServeBlocks, ServeHashes, Flatten, UpdateListeners, BlockAnswers, Concat, Present, MetadataServed,
      HashesServed, BlocksServed, GraphsServed, ListenersServed, Hears;
    var st := ToSyncing(env, t.phase.metadata, t.phase.tree, t.phase.blocks);
    if !st.Crashed? {
      UpdatedTask(t.(phase := st), Some(from));
      AscendingDistinct(t.blockSubscribers.Keys);
      AscendingMembers(t.blockSubscribers.Keys);
      var peers := Waiting(t.blockSubscribers);
      var answers: Option<seq<Message<S>>> := BlockAnswers(st.initialState, t.blockSubscribers, peers);
      if answers.Some? {
        BlocksHeard<S>(st.initialState, t.blockSubscribers, peers, p);
        StateThenBlocks(t, st, answers.value, from, p);
      }
    }
  }

  lemma UpdatedTask<S>(t: Task<S>, from: Option<Peer>)
    requires t.phase.Syncing?
    ensures UpdateListeners(t, from).task == t.(ecgSubscribers := t.ecgSubscribers - Told(t.ecgSubscribers, from))
  {
  }

  lemma EnterInitialStateServes<S, Op>(env: Env<S, Op>, t: Task<S>, from: Peer, p: Peer)
    requires t.phase.DownloadingMerkle?
    ensures var r := EnterInitialState(env, t, from);
      && Served(t, r, Some(from), r.task.phase.Syncing?, p)
      && (r.task.phase.Crashed? || (
            && HasMetadata(r.task.phase) && r.task.phase.metadata == t.phase.metadata
            && r.task.metadataSubscribers == t.metadataSubscribers))
      && (t.phase.metadata.initialStateSize != 0 ==> !r.task.phase.Syncing?)
  {
    hide ServeBlocks, ServeHashes, Flatten, EnterSyncing, MerkleAnswers, MetadataServed, HashesServed, BlocksServed,
      GraphsServed, ListenersServed;
    match TryComplete(t.phase.partial)
    case None =>
      NothingServed(t, t, Some(from), p);
    case Some(tree) =>
      var m := t.phase.metadata;
      var blocks := seq(BlockCount(m.initialStateSize), _ => None);
      var t1 := t.(phase := DownloadingInitialState(m, tree, blocks), merkleSubscribers := map[]);
      AscendingDistinct(t.merkleSubscribers.Keys);
      AscendingMembers(t.merkleSubscribers.Keys);
      var peers := Waiting(t.merkleSubscribers);
      var answers: Option<seq<Message<S>>> := MerkleAnswers(tree, t.merkleSubscribers, peers, from);
      if answers.Some? {
        HashesHeard<S>(tree, t.merkleSubscribers, peers, from, p);
        if m.initialStateSize == 0 {
          EnterSyncingServes(env, t1, from, p);
          var r := EnterSyncing(env, t1, from);
          if !r.task.phase.Crashed? { HashesThenState(t, t1, answers.value, r, from, p); }
        } else {
          HashesAlone(t, t1, answers.value, from, p);
        }
      }
  }

  /** What a peer is told when the tree is complete. */
  ghost predicate TreeTold<S>(t: Task<S>, tree: Nodes', answers: seq<Message<S>>, from: Peer, p: Peer) {
    && (p in t.merkleSubscribers && p != from ==> ServeHashes(tree, Flatten(t.merkleSubscribers[p])).Some?)
    && Hears(answers, p) == Nothing().(hashes :=
         if p in t.merkleSubscribers then [(t.merkleSubscribers[p], HashesFor(tree, t.merkleSubscribers[p], p, from))]
         else [])
  }

  lemma HashesAlone<S>(t: Task<S>, t1: Task<S>, answers: seq<Message<S>>, from: Peer, p: Peer)
    requires t1.phase.DownloadingInitialState? && t1 == t.(phase := t1.phase, merkleSubscribers := map[])
    requires TreeTold(t, t1.phase.tree, answers, from, p)
    ensures Served(t, Outcome(t1, answers), Some(from), false, p)
  {
    hide ServeHashes, Flatten;
  }

  lemma HashesThenState<S>(t: Task<S>, t1: Task<S>, answers: seq<Message<S>>, r: Outcome<S>, from: Peer, p: Peer)
    requires t1.phase.DownloadingInitialState? && t1 == t.(phase := t1.phase, merkleSubscribers := map[])
    requires TreeTold(t, t1.phase.tree, answers, from, p)
    requires Served(t1, r, Some(from), true, p) && Entered(t1, r.task)
    ensures Served(t, Outcome(r.task, answers + r.messages), Some(from), true, p)
  {
    hide ServeHashes, ServeBlocks, Flatten, Hears;
    HearsBoth(answers, r.messages, p);
  }

  lemma MetadataAlone<S>(t: Task<S>, t1: Task<S>, answers: seq<Message<S>>, from: Peer, p: Peer)
    requires t1.phase.DownloadingMerkle? && t1 == t.(phase := t1.phase, metadataSubscribers := {})
    requires MetadataTold(t, t1.phase.metadata, answers, from, p)
    ensures Served(t, Outcome(t1, answers), Some(from), false, p)
  {
  }

  ghost predicate MetadataTold<S>(t: Task<S>, m: Metadata, answers: seq<Message<S>>, from: Peer, p: Peer) {
    Hears(answers, p)
    == Nothing().(metadata := if p in t.metadataSubscribers then [if p == from then None else Some(m)] else [])
  }

  lemma MetadataThenTree<S>(t: Task<S>, t1: Task<S>, answers: seq<Message<S>>, r: Outcome<S>, from: Peer, news: bool,
                            p: Peer)
    requires t1.phase.DownloadingMerkle? && t1 == t.(phase := t1.phase, metadataSubscribers := {})
    requires MetadataTold(t, t1.phase.metadata, answers, from, p)
    requires Served(t1, r, Some(from), news, p) && HasMetadata(r.task.phase)
    requires r.task.phase.metadata == t1.phase.metadata && r.task.metadataSubscribers == {}
    ensures Served(t, Outcome(r.task, answers + r.messages), Some(from), news, p)
  {
    hide ServeHashes, ServeBlocks, Flatten, Hears;
    HearsBoth(answers, r.messages, p);
  }

  lemma MetadataServes<S, Op>(env: Env<S, Op>, t: Task<S>, from: Peer, m: Metadata, p: Peer)
    requires !t.phase.Crashed?
    ensures var r := GotMetadata(env, t, from, m);
      Served(t, r, Some(from), r.task.phase.Syncing? && !t.phase.Syncing?, p)
  {
    hide EnterInitialState, NewWithCapacity, MetadataAnswers, MetadataServed, HashesServed, BlocksServed, GraphsServed,
      ListenersServed, Hears;
    var count := BlockCount(m.initialStateSize);
    if env.IdOf(m) != CurrentId(env, t.phase) {
      NothingServed(t, t, Some(from), p);
    } else if count > 0 {
      var t1 := t.(phase := DownloadingMerkle(m, NewWithCapacity(m.merkleRoot, count)), metadataSubscribers := {});
      var answers: seq<Message<S>> := MetadataAnswers(Ascending(t.metadataSubscribers), from, m);
      AscendingDistinct(t.metadataSubscribers);
      AscendingMembers(t.metadataSubscribers);
      MetadataHeard<S>(Ascending(t.metadataSubscribers), from, m, p);
      if count <= 1 {
        EnterInitialStateServes(env, t1, from, p);
        var r := EnterInitialState(env, t1, from);
        if !r.task.phase.Crashed? { MetadataThenTree(t, t1, answers, r, from, false, p); }
      } else {
        MetadataAlone(t, t1, answers, from, p);
      }
    }
  }

  lemma HashesServe<S, Op>(env: Env<S, Op>, t: Task<S>, from: Peer, ids: seq<nat>, hashes: seq<Digest>, p: Peer)
    requires !t.phase.Crashed?
    ensures var r := GotMerkleHashes(env, t, from, ids, hashes);
      Served(t, r, Some(from), r.task.phase.Syncing? && !t.phase.Syncing?, p)
  {
    hide ServeBlocks, ServeHashes, Flatten, EnterInitialState, SetAll;
    if |ids| == |hashes| && t.phase.DownloadingMerkle? {
      var partial := SetAll(env.hashing, t.phase.partial, Proposals(ids, hashes));
      EnterInitialStateServes(env, t.(phase := DownloadingMerkle(t.phase.metadata, partial)), from, p);
    } else {
      NothingServed(t, t, Some(from), p);
    }
  }

  lemma BlocksServe<S, Op>(env: Env<S, Op>, t: Task<S>, from: Peer, ids: seq<nat>, bs: seq<Option<Bytes>>, p: Peer)
    requires !t.phase.Crashed?
    ensures var r := GotBlocks(env, t, from, ids, bs);
      Served(t, r, Some(from), r.task.phase.Syncing? && !t.phase.Syncing?, p)
  {
    hide ServeBlocks, ServeHashes, Flatten, EnterSyncing, TakeBlocks;
    if |ids| == |bs| && t.phase.DownloadingInitialState? {
      var r := TakeBlocks(env.hashing, t.phase.tree, t.phase.blocks, ids, bs);
      if r.Some? {
        var t1 := t.(phase := t.phase.(blocks := r.value));
        if AnyMissing(r.value) {
          NothingServed(t, t1, Some(from), p);
        } else {
          EnterSyncingServes(env, t1, from, p);
        }
      }
    } else {
      NothingServed(t, t, Some(from), p);
    }
  }

  lemma OperationsServe<S, Op>(env: Env<S, Op>, t: Task<S>, from: Option<Peer>, r: Store<S>, p: Peer)
    requires t.phase.Syncing?
    ensures Served(t, GotOperations(env, t, from, r), from, true, p)
  {
    hide ServeBlocks, ServeHashes, Flatten, UpdateListeners;
    match r
    case Panicked =>
    case Running(ecg, latest) =>
      var t1 := t.(phase := t.phase.(ecg := ecg, latest := latest));
      UpdatesHeard(t1, from, p);
      UpdatedTask(t1, from);
  }

  /** Operations are news even if none of them is new; otherwise only the beginning of the syncing phase is. */
  predicate IsNews<S>(t: Task<S>, t': Task<S>, e: Event) {
    t'.phase.Syncing? && (!t.phase.Syncing? || e.Applied? || (e.Delivered? && e.command.ReceivedOperations?))
  }

  function Source(e: Event): Option<Peer> {
    match e
    case Delivered(from, _) => Some(from)
    case _ => None
  }

  lemma DeliverServes<S, Op>(env: Env<S, Op>, t: Task<S>, from: Peer, cmd: Command, p: Peer)
    requires !cmd.ApplyLocally? && !t.phase.Crashed?
    ensures var r := Deliver(env, t, from, cmd); Served(t, r, Some(from), IsNews(t, r.task, Delivered(from, cmd)), p)
  {
    hide ServeBlocks, ServeHashes, Flatten, GotMetadata, GotMerkleHashes, GotBlocks, GotOperations, ReceiveAll;
    if MarkReady(t, from).Some? {
      var t1 := MarkReady(t, from).value;
      match cmd
      case ReceivedMetadata(m) => MetadataServes(env, t1, from, m, p);
      case ReceivedMerkleHashes(ranges, hashes) => HashesServe(env, t1, from, Flatten(ranges), hashes, p);
      case ReceivedBlocks(ranges, bs) => BlocksServe(env, t1, from, Flatten(ranges), bs, p);
      case ReceivedOperations(hs) =>
        if t.phase.Syncing? {
          var r := ReceiveAll(env.crdt, Running(t.phase.ecg, t.phase.latest), hs);
          OperationsServe(env, t1, Some(from), r, p);
          OperationsPhase(env, t1, Some(from), r);
        }
    }
  }

  lemma LocalServes<S, Op>(env: Env<S, Op>, t: Task<S>, h: Header, p: Peer)
    requires !t.phase.Crashed?
    ensures var r := ApplyLocal(env, t, h); Served(t, r, None, IsNews(t, r.task, Event.Applied(h)), p)
  {
    hide ServeBlocks, ServeHashes, Flatten, GotOperations, Receive, Accepts;
    if !t.phase.Syncing? {
      NothingServed(t, t, None, p);
    } else if Accepts(t.phase.ecg, h) {
      var r := Receive(env.crdt, Running(t.phase.ecg, t.phase.latest), h);
      OperationsServe(env, t, None, r, p);
      OperationsPhase(env, t, None, r);
    }
  }

  // ---------- Peers that ask

  predicate AsksForSomething(e: Event) {
    e.MetadataAsked? || e.MerkleAsked? || e.BlocksAsked? || e.Subscribed?
  }

  /** What a store can give of blocks: any of its state, or those of them that it has so far. */
  function BlocksFor<S>(st: Phase<S>, ranges: seq<Range>): Option<seq<Option<Bytes>>>
    requires KnowsTree(st)
  {
    if st.Syncing? then ServeBlocks(st.initialState, Flatten(ranges)) else PartialBlocks(st.blocks, Flatten(ranges))
  }

  /**
    What is given for indices: the nodes of the tree, the blocks cut out of the state, or those that are there so far;
    an index that does not exist is a failure.
   */
  lemma GivenForIndices(tree: Nodes', bytes: Bytes, partial: seq<Option<Bytes>>, ids: seq<nat>)
    ensures match ServeHashes(tree, ids)
      case None => exists k :: 0 <= k < |ids| && ids[k] >= |tree|
      case Some(hashes) =>
        |hashes| == |ids| && forall k :: 0 <= k < |ids| ==> ids[k] < |tree| && hashes[k] == tree[ids[k]]
    ensures match ServeBlocks(bytes, ids)
      case None => exists k :: 0 <= k < |ids| && ids[k] * BLOCK_SIZE > |bytes|
      case Some(blocks) =>
        |blocks| == |ids| && forall k :: 0 <= k < |ids| ==> blocks[k].Some? && IsBlock(bytes, ids[k], blocks[k].value)
    ensures match PartialBlocks(partial, ids)
      case None => exists k :: 0 <= k < |ids| && ids[k] >= |partial|
      case Some(blocks) =>
        |blocks| == |ids| && forall k :: 0 <= k < |ids| ==> ids[k] < |partial| && blocks[k] == partial[ids[k]]
  {
  }

  /**
    Who asks is answered at once, and only that peer, if the store has what is asked for; otherwise it waits, and
    nobody is told anything. Nothing else changes.
   */
  ghost predicate AskServed<S>(t: Task<S>, r: Outcome<S>, e: Event, p: Peer) {
    var heard := Hears(r.messages, p);
    match e
    case MetadataAsked(peer) =>
      if HasMetadata(t.phase) then
        r.task == t && heard == if p == peer then Nothing().(metadata := [Some(t.phase.metadata)]) else Nothing()
      else r.task == t.(metadataSubscribers := t.metadataSubscribers + {peer}) && r.messages == []
    case MerkleAsked(peer, ranges) =>
      if KnowsTree(t.phase) then
        var hashes := ServeHashes(t.phase.tree, Flatten(ranges));
        && hashes.Some? && r.task == t
        && heard == if p == peer then Nothing().(hashes := [(ranges, hashes)]) else Nothing()
      else r.task == t.(merkleSubscribers := t.merkleSubscribers[peer := ranges]) && r.messages == []
    case BlocksAsked(peer, ranges) =>
      if KnowsTree(t.phase) then
        var blocks := BlocksFor(t.phase, ranges);
        && blocks.Some? && r.task == t
        && heard == if p == peer then Nothing().(blocks := [(ranges, blocks.value)]) else Nothing()
      else r.task == t.(blockSubscribers := t.blockSubscribers[peer := ranges]) && r.messages == []
    case Subscribed(peer, snapshot) =>
      if t.phase.Syncing? && TipsOf(snapshot) != Some(Tips(t.phase.ecg)) then
        r.task == t && heard == if p == peer then Nothing().(graphs := [t.phase.ecg]) else Nothing()
      else r.task == t.(ecgSubscribers := t.ecgSubscribers + {peer}) && r.messages == []
    case _ => true
  }

  lemma AsksServed<S, Op>(env: Env<S, Op>, t: Task<S>, e: Event, p: Peer)
    requires AsksForSomething(e)
    ensures var r := Step(env, t, e); r.task.phase.Crashed? || AskServed(t, r, e, p)
  {
    hide ServeBlocks, ServeHashes, PartialBlocks, Flatten, Tips;
    var r := Step(env, t, e);
    if |r.messages| == 1 { HearsSingle(r.messages[0], p); }
    if r.messages != [] { assert r.messages == [r.messages[0]]; }
  }

  // ---------- Every step, every run

  /**
    Every step that does not fail: who stops waiting is given just what it waited for, as the phase has it now; nobody
    else is told anything, unless the peer has asked; and listeners hear of news once.
   */
  lemma StepServes<S, Op>(env: Env<S, Op>, t: Task<S>, e: Event, p: Peer)
    requires !t.phase.Crashed?
    ensures var r := Step(env, t, e);
      && (!AsksForSomething(e) ==> Served(t, r, Source(e), IsNews(t, r.task, e), p))
      && (AsksForSomething(e) ==> r.task.phase.Crashed? || AskServed(t, r, e, p))
  {
    hide Deliver, ApplyLocal, Served, AskServed, ServeBlocks, ServeHashes, PartialBlocks, Flatten, Tips,
      SendSyncRequests, Shuffled;
    if AsksForSomething(e) {
      AsksServed(env, t, e, p);
    } else {
      match e
      case Delivered(from, cmd) =>
        if cmd.ApplyLocally? {
          NothingServed(t, t, Some(from), p);
        } else {
          DeliverServes(env, t, from, cmd, p);
        }
      case Applied(h) => LocalServes(env, t, h, p);
      case RequestsSent(peers, requests) =>
        NothingServed(t, t, None, p);
        if Shuffled(t, peers, requests) { SendingServes(t, peers, requests, p); }
      case Discovered(peer) => NothingServed(t, InsertKnown(t, peer), None, p);
      case SyncRequested(peer) => NothingServed(t, Promote(t, peer, Known, Initializing).task, None, p);
      case SyncStarted(peer) => NothingServed(t, Promote(t, peer, Initializing, Active(false)).task, None, p);
    }
  }

  lemma {:induction false} OnlyAsksHeard<S>(msgs: seq<Message<S>>, p: Peer)
    requires forall m :: m in msgs ==> m.Ask?
    ensures Hears(msgs, p) == Nothing()
    decreases |msgs|
  {
    if msgs != [] {
      assert msgs[0] in msgs;
      OnlyAsksHeard(msgs[1..], p);
    }
  }

  lemma SendingServes<S>(t: Task<S>, peers: seq<Peer>, requests: seq<Request>, p: Peer)
    ensures var r := SendSyncRequests(t, peers, requests);
      Served(t, r, None, false, p) && (r.task.phase.Crashed? || r.task.phase == t.phase)
  {
    var r := SendRequests(t, peers, requests);
    SendPhase(t, peers, requests);
    OnlyAsksHeard(r.messages, p);
  }

  datatype Want = ForMetadata | ForHashes | ForBlocks | ForGraph

  predicate InLine<S>(t: Task<S>, p: Peer, w: Want) {
    match w
    case ForMetadata => p in t.metadataSubscribers
    case ForHashes => p in t.merkleSubscribers
    case ForBlocks => p in t.blockSubscribers
    case ForGraph => p in t.ecgSubscribers
  }

  predicate AsksFor(e: Event, p: Peer, w: Want) {
    match e
    case MetadataAsked(peer) => peer == p && w == ForMetadata
    case MerkleAsked(peer, _) => peer == p && w == ForHashes
    case BlocksAsked(peer, _) => peer == p && w == ForBlocks
    case Subscribed(peer, _) => peer == p && w == ForGraph
    case _ => false
  }

  function Asked(es: seq<Event>, p: Peer, w: Want): nat {
    if es == [] then 0 else (if AsksFor(es[0], p, w) then 1 else 0) + Asked(es[1..], p, w)
  }

  ghost function Got<S>(heard: Heard<S>, w: Want): nat {
    match w
    case ForMetadata => |heard.metadata|
    case ForHashes => |heard.hashes|
    case ForBlocks => |heard.blocks|
    case ForGraph => |heard.graphs|
  }

  function Count(b: bool): nat {
    if b then 1 else 0
  }

  /** Whoever is in line or asks is answered or in line afterwards, and there are no more answers than that. */
  ghost predicate Fair<S>(t: Task<S>, t': Task<S>, asked: nat, heard: Heard<S>, p: Peer, w: Want) {
    && (InLine(t, p, w) || asked > 0 ==> InLine(t', p, w) || Got(heard, w) > 0)
    && Got(heard, w) + Count(InLine(t', p, w)) <= asked + Count(InLine(t, p, w))
  }

  lemma ServedIsFair<S>(t: Task<S>, r: Outcome<S>, from: Option<Peer>, news: bool, p: Peer, w: Want)
    requires Served(t, r, from, news, p) && !r.task.phase.Crashed?
    ensures Fair(t, r.task, 0, Hears(r.messages, p), p, w)
  {
    hide ServeHashes, ServeBlocks, Flatten, Hears;
  }

  lemma NothingHeard<S>(p: Peer)
    ensures Hears<S>([], p) == Nothing()
  {
  }

  lemma AskServedIsFair<S>(t: Task<S>, r: Outcome<S>, e: Event, p: Peer, w: Want)
    requires AskServed(t, r, e, p) && AsksForSomething(e)
    ensures Fair(t, r.task, Asked([e], p, w), Hears(r.messages, p), p, w)
  {
    hide ServeHashes, ServeBlocks, PartialBlocks, Flatten, Tips, Hears;
    assert Asked([e], p, w) == Count(AsksFor(e, p, w));
    assert Hears<S>([], p) == Nothing() by { NothingHeard<S>(p); }
  }

  lemma {:induction false} CrashStays<S, Op>(env: Env<S, Op>, t: Task<S>, es: seq<Event>)
    requires t.phase.Crashed?
    ensures RunTask(env, t, es).0.phase.Crashed?
    decreases |es|
  {
    hide Deliver, ApplyLocal, SendSyncRequests;
    if es != [] {
      PhaseFollows(env, t, es[0]);
      CrashStays(env, Step(env, t, es[0]).task, es[1..]);
    }
  }

  lemma StepIsFair<S, Op>(env: Env<S, Op>, t: Task<S>, e: Event, p: Peer, w: Want)
    requires !t.phase.Crashed? && !Step(env, t, e).task.phase.Crashed?
    ensures var r := Step(env, t, e); Fair(t, r.task, Asked([e], p, w), Hears(r.messages, p), p, w)
  {
    hide Step, Served, AskServed, Fair;
    StepServes(env, t, e, p);
    var r := Step(env, t, e);
    if AsksForSomething(e) {
      AskServedIsFair(t, r, e, p, w);
    } else {
      ServedIsFair(t, r, Source(e), IsNews(t, r.task, e), p, w);
    }
  }

  lemma FairTwice<S>(t: Task<S>, t1: Task<S>, t2: Task<S>, a: nat, b: nat, first: Heard<S>, rest: Heard<S>, p: Peer,
                     w: Want)
    requires Fair(t, t1, a, first, p, w) && Fair(t1, t2, b, rest, p, w)
    ensures Fair(t, t2, a + b, Plus(first, rest), p, w)
  {
  }

  /**
    Nobody is forgotten, and nobody is told what it did not ask for: in a run that does not fail, whoever is in line or
    asks is answered or still in line at the end, and no peer gets more answers than it asked questions.
   */
  lemma {:induction false} NobodyIsForgotten<S, Op>(env: Env<S, Op>, t: Task<S>, es: seq<Event>, p: Peer, w: Want)
    requires !RunTask(env, t, es).0.phase.Crashed?
    ensures var (t', msgs) := RunTask(env, t, es); Fair(t, t', Asked(es, p, w), Hears(msgs, p), p, w)
    decreases |es|
  {
    hide Step, Fair, HearsOne;
    if es == [] {
      NothingIsFair(t, p, w);
    } else {
      if t.phase.Crashed? { CrashStays(env, t, es); }
      var first := Step(env, t, es[0]);
      if first.task.phase.Crashed? { CrashStays(env, first.task, es[1..]); }
      StepIsFair(env, t, es[0], p, w);
      NobodyIsForgotten(env, first.task, es[1..], p, w);
      var (t', msgs) := RunTask(env, first.task, es[1..]);
      HearsBoth(first.messages, msgs, p);
      FairTwice(t, first.task, t', Asked([es[0]], p, w), Asked(es[1..], p, w), Hears(first.messages, p),
                Hears(msgs, p), p, w);
      assert Asked(es, p, w) == Asked([es[0]], p, w) + Asked(es[1..], p, w);
    }
  }

  lemma NothingIsFair<S>(t: Task<S>, p: Peer, w: Want)
    ensures Fair(t, t, 0, Hears<S>([], p), p, w)
  {
  }
}
