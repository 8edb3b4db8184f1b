/**
  The task that owns a store: its phase, the status of the peers it asks, the peers that wait for an answer, and the
  messages it sends.
 */
module StoreTask {
  import opened Common
  import opened EventGraph
  import opened StoreLoop
  import opened Merkle
  import opened PartialMerkle
  import opened Blocks
  import opened Ranges
  import opened StoreIds
  import opened Download

  type Peer = nat

  /** Whether we are syncing with the peer, and if so whether an answer to a request of ours is outstanding. */
  datatype PeerStatus = Known | Initializing | Active(isOutstanding: bool)

  datatype Task<S> = Task(
    phase: Phase<S>,
    outgoing: map<Peer, PeerStatus>,
    metadataSubscribers: set<Peer>,
    merkleSubscribers: map<Peer, seq<Range>>,
    blockSubscribers: map<Peer, seq<Range>>,
    ecgSubscribers: set<Peer>)

  datatype Request =
    | MetadataRequest
    | MerkleRequest(merkleRanges: seq<Range>)
    | BlockRequest(blockRanges: seq<Range>)
    | EcgRequest(ecg: Graph)

  /** Answers name the ranges they are about; without content the peer is known to have what it asked for. */
  datatype Message<S> =
    | MetadataAnswer(to: Peer, metadata: Option<Metadata>)
    | MerkleAnswer(to: Peer, ranges: seq<Range>, hashes: Option<seq<Digest>>)
    | BlockAnswer(to: Peer, ranges: seq<Range>, blocks: seq<Option<Bytes>>)
    | GraphAnswer(to: Peer, ecg: Graph)
    | StateUpdate(latest: S, ecg: Graph)
    | Ask(to: Peer, request: Request)

  /** The task afterwards and what it sent. A handler that panics ends the task; what it sent until then is not kept. */
  datatype Outcome<S> = Outcome(task: Task<S>, messages: seq<Message<S>>)

  function Panic<S>(t: Task<S>): Outcome<S> {
    Outcome(t.(phase := Crashed), [])
  }

  function After<S>(first: Outcome<S>, second: Outcome<S>): Outcome<S> {
    if second.task.phase.Crashed? then second else Outcome(second.task, first.messages + second.messages)
  }

  // ---------- Answers to those who wait

  function MetadataAnswers<S>(peers: seq<Peer>, from: Peer, m: Metadata): seq<Message<S>> {
    seq(|peers|, i requires 0 <= i < |peers| => MetadataAnswer(peers[i], if peers[i] == from then None else Some(m)))
  }

  /** `None` is the failure on an index out of range. */
  function MerkleAnswerTo<S>(tree: Nodes', ranges: seq<Range>, to: Peer, from: Peer): Option<Message<S>> {
    if to == from then Some(MerkleAnswer(to, ranges, None))
    else match ServeHashes(tree, Flatten(ranges))
      case None => None
      case Some(hashes) => Some(MerkleAnswer(to, ranges, Some(hashes)))
  }

  function MerkleAnswers<S>(tree: Nodes', subs: map<Peer, seq<Range>>, peers: seq<Peer>, from: Peer)
    : Option<seq<Message<S>>>
    requires forall p :: p in peers ==> p in subs
  {
    if peers == [] then Some([])
    else
      var first := MerkleAnswerTo(tree, subs[peers[0]], peers[0], from);
      var rest := MerkleAnswers(tree, subs, peers[1..], from);
      if first.Some? && rest.Some? then Some([first.value] + rest.value) else None
  }

  function BlockAnswers<S>(bytes: Bytes, subs: map<Peer, seq<Range>>, peers: seq<Peer>): Option<seq<Message<S>>>
    requires forall p :: p in peers ==> p in subs
  {
    if peers == [] then Some([])
    else
      var first := ServeBlocks(bytes, Flatten(subs[peers[0]]));
      var rest := BlockAnswers(bytes, subs, peers[1..]);
      if first.Some? && rest.Some? then Some([BlockAnswer(peers[0], subs[peers[0]], first.value)] + rest.value)
      else None
  }

  function GraphAnswers<S>(peers: seq<Peer>, ecg: Graph): seq<Message<S>> {
    seq(|peers|, i requires 0 <= i < |peers| => GraphAnswer(peers[i], ecg))
  }

  function Waiting(subs: map<Peer, seq<Range>>): (peers: seq<Peer>)
    ensures forall p :: p in peers ==> p in subs
  {
    AscendingMembers(subs.Keys);
    Ascending(subs.Keys)
  }

  function Told(subs: set<Peer>, from: Option<Peer>): set<Peer> {
    set p | p in subs && from != Some(p)
  }

  /** The listeners get a snapshot, and those who wait get the graph, except the peer that brought the news. */
  function UpdateListeners<S>(t: Task<S>, from: Option<Peer>): Outcome<S>
    requires t.phase.Syncing?
  {
    var told := Told(t.ecgSubscribers, from);
    Outcome(t.(ecgSubscribers := t.ecgSubscribers - told),
            [StateUpdate(t.phase.latest, t.phase.ecg)] + GraphAnswers(Ascending(told), t.phase.ecg))
  }

  function EnterSyncing<S, Op>(env: Env<S, Op>, t: Task<S>, from: Peer): Outcome<S>
    requires t.phase.DownloadingInitialState?
  {
    var st := ToSyncing(env, t.phase.metadata, t.phase.tree, t.phase.blocks);
    if st.Crashed? then Panic(t)
    else
      var updated := UpdateListeners(t.(phase := st), Some(from));
      match BlockAnswers(st.initialState, t.blockSubscribers, Waiting(t.blockSubscribers))
      case None => Panic(updated.task.(blockSubscribers := map[]))
      case Some(answers) => Outcome(updated.task.(blockSubscribers := map[]), updated.messages + answers)
  }

  function EnterInitialState<S, Op>(env: Env<S, Op>, t: Task<S>, from: Peer): Outcome<S>
    requires t.phase.DownloadingMerkle?
  {
    var m := t.phase.metadata;
    match TryComplete(t.phase.partial)
    case None => Outcome(t, [])
    case Some(tree) =>
      var blocks := seq(BlockCount(m.initialStateSize), _ => None);
      var t' := t.(phase := DownloadingInitialState(m, tree, blocks), merkleSubscribers := map[]);
      match MerkleAnswers(tree, t.merkleSubscribers, Waiting(t.merkleSubscribers), from)
      case None => Panic(t')
      case Some(answers) =>
        var entered := Outcome(t', answers);
        if m.initialStateSize == 0 then After(entered, EnterSyncing(env, t', from)) else entered
  }

  // ---------- What peers deliver

  /** The peer has answered, so it may be asked again; `None` is the failure on a peer we do not sync with. */
  function MarkReady<S>(t: Task<S>, peer: Peer): Option<Task<S>> {
    if peer in t.outgoing && t.outgoing[peer].Active? then Some(t.(outgoing := t.outgoing[peer := Active(false)]))
    else None
  }

  function GotMetadata<S, Op>(env: Env<S, Op>, t: Task<S>, from: Peer, m: Metadata): Outcome<S>
    requires !t.phase.Crashed?
  {
    var count := BlockCount(m.initialStateSize);
    if env.IdOf(m) != CurrentId(env, t.phase) then Outcome(t, [])
    else if count == 0 then Panic(t)
    else
      var answers := MetadataAnswers(Ascending(t.metadataSubscribers), from, m);
      var t' := t.(phase := DownloadingMerkle(m, NewWithCapacity(m.merkleRoot, count)), metadataSubscribers := {});
      if count <= 1 then After(Outcome(t', answers), EnterInitialState(env, t', from)) else Outcome(t', answers)
  }

  function GotMerkleHashes<S, Op>(env: Env<S, Op>, t: Task<S>, from: Peer, ids: seq<nat>, hashes: seq<Digest>)
    : Outcome<S>
    requires !t.phase.Crashed?
  {
    if |ids| != |hashes| || !t.phase.DownloadingMerkle? then Outcome(t, [])
    else
      var partial := SetAll(env.hashing, t.phase.partial, Proposals(ids, hashes));
      EnterInitialState(env, t.(phase := DownloadingMerkle(t.phase.metadata, partial)), from)
  }

  function GotBlocks<S, Op>(env: Env<S, Op>, t: Task<S>, from: Peer, ids: seq<nat>, bs: seq<Option<Bytes>>): Outcome<S>
    requires !t.phase.Crashed?
  {
    if |ids| != |bs| || !t.phase.DownloadingInitialState? then Outcome(t, [])
    else match TakeBlocks(env.hashing, t.phase.tree, t.phase.blocks, ids, bs)
      case None => Panic(t)
      case Some(blocks) =>
        var t' := t.(phase := t.phase.(blocks := blocks));
        if AnyMissing(blocks) then Outcome(t', []) else EnterSyncing(env, t', from)
  }

  function GotOperations<S, Op>(env: Env<S, Op>, t: Task<S>, from: Option<Peer>, r: Store<S>): Outcome<S>
    requires t.phase.Syncing?
  {
    match r
    case Panicked => Panic(t)
    case Running(ecg, latest) => UpdateListeners(t.(phase := t.phase.(ecg := ecg, latest := latest)), from)
  }

  /** A response of a peer to a request of ours. */
  function Deliver<S, Op>(env: Env<S, Op>, t: Task<S>, from: Peer, cmd: Command): Outcome<S>
    requires !cmd.ApplyLocally?
  {
    if t.phase.Crashed? then Outcome(t, [])
    else match MarkReady(t, from)
      case None => Panic(t)
      case Some(t') =>
        match cmd
        case ReceivedMetadata(m) => GotMetadata(env, t', from, m)
        case ReceivedMerkleHashes(ranges, hashes) => GotMerkleHashes(env, t', from, Flatten(ranges), hashes)
        case ReceivedBlocks(ranges, bs) => GotBlocks(env, t', from, Flatten(ranges), bs)
        case ReceivedOperations(hs) =>
          if !t.phase.Syncing? then Panic(t')
          else GotOperations(env, t', Some(from), ReceiveAll(env.crdt, Running(t.phase.ecg, t.phase.latest), hs))
  }

  /** An operation of the application itself. */
  function ApplyLocal<S, Op>(env: Env<S, Op>, t: Task<S>, h: Header): Outcome<S> {
    if !t.phase.Syncing? then Outcome(t, [])
    else if !Accepts(t.phase.ecg, h) then Panic(t)
    else GotOperations(env, t, None, Receive(env.crdt, Running(t.phase.ecg, t.phase.latest), h))
  }

  // ---------- What peers ask for

  function AskedMetadata<S>(t: Task<S>, peer: Peer): Outcome<S> {
    match t.phase
    case DownloadingMetadata(_) => Outcome(t.(metadataSubscribers := t.metadataSubscribers + {peer}), [])
    case Crashed => Outcome(t, [])
    case DownloadingMerkle(m, _) => Outcome(t, [MetadataAnswer(peer, Some(m))])
    case DownloadingInitialState(m, _, _) => Outcome(t, [MetadataAnswer(peer, Some(m))])
    case Syncing(m, _, _, _, _) => Outcome(t, [MetadataAnswer(peer, Some(m))])
  }

  predicate HasTree<S>(st: Phase<S>) {
    st.DownloadingInitialState? || st.Syncing?
  }

  function AskedMerkle<S>(t: Task<S>, peer: Peer, ranges: seq<Range>): Outcome<S> {
    if t.phase.Crashed? then Outcome(t, [])
    else if !HasTree(t.phase) then Outcome(t.(merkleSubscribers := t.merkleSubscribers[peer := ranges]), [])
    else match ServeHashes(t.phase.tree, Flatten(ranges))
      case None => Panic(t)
      case Some(hashes) => Outcome(t, [MerkleAnswer(peer, ranges, Some(hashes))])
  }

  /** What a store that still downloads blocks can give of them; `None` is an index out of range. */
  function PartialBlocks(blocks: seq<Option<Bytes>>, ids: seq<nat>): Option<seq<Option<Bytes>>> {
    if exists k :: 0 <= k < |ids| && ids[k] >= |blocks| then None
    else Some(seq(|ids|, k requires 0 <= k < |ids| && ids[k] < |blocks| => blocks[ids[k]]))
  }

  function AskedBlocks<S>(t: Task<S>, peer: Peer, ranges: seq<Range>): Outcome<S> {
    if t.phase.Crashed? then Outcome(t, [])
    else if !HasTree(t.phase) then Outcome(t.(blockSubscribers := t.blockSubscribers[peer := ranges]), [])
    else
      var blocks := if t.phase.Syncing? then ServeBlocks(t.phase.initialState, Flatten(ranges))
                    else PartialBlocks(t.phase.blocks, Flatten(ranges));
      match blocks
      case None => Panic(t)
      case Some(bs) => Outcome(t, [BlockAnswer(peer, ranges, bs)])
  }

  /** A subscriber gets the graph at once if it asks for that, or if its tips are not the tips of a syncing store. */
  function Subscribe<S>(t: Task<S>, peer: Peer, tips: Option<set<HeaderId>>): Outcome<S> {
    if t.phase.Crashed? then Outcome(t, [])
    else if t.phase.Syncing? && tips != Some(Tips(t.phase.ecg)) then Outcome(t, [GraphAnswer(peer, t.phase.ecg)])
    else Outcome(t.(ecgSubscribers := t.ecgSubscribers + {peer}), [])
  }

  // ---------- The status of peers

  function InsertKnown<S>(t: Task<S>, peer: Peer): Task<S> {
    if peer in t.outgoing then t else t.(outgoing := t.outgoing[peer := Known])
  }

  /** A peer changes from one status to the next; any other status before is a failure. */
  function Promote<S>(t: Task<S>, peer: Peer, before: PeerStatus, after: PeerStatus): Outcome<S> {
    if t.phase.Crashed? then Outcome(t, [])
    else if peer in t.outgoing && t.outgoing[peer] == before then
      Outcome(t.(outgoing := t.outgoing[peer := after]), [])
    else Panic(t)
  }

  // ---------- What the task asks for

  function ReadyPeers(outgoing: map<Peer, PeerStatus>): set<Peer> {
    set p | p in outgoing && outgoing[p] == Active(false)
  }

  /** The requests there are to send: one for metadata, or one per chunk of what is missing, or one per ready peer. */
  function RequestsOf<S>(st: Phase<S>, ready: nat): seq<Request> {
    match st
    case DownloadingMetadata(_) => [MetadataRequest]
    case DownloadingMerkle(_, _) =>
      var reqs := SyncRequests(st);
      seq(|reqs|, i requires 0 <= i < |reqs| => MerkleRequest(reqs[i]))
    case DownloadingInitialState(_, _, _) =>
      var reqs := SyncRequests(st);
      seq(|reqs|, i requires 0 <= i < |reqs| => BlockRequest(reqs[i]))
    case Syncing(_, _, _, ecg, _) => seq(ready, _ => EcgRequest(ecg))
    case Crashed => []
  }

  /** Deals requests out to peers. */
  function SendRequests<S>(t: Task<S>, peers: seq<Peer>, requests: seq<Request>): Outcome<S>
    decreases |peers|
  {
    if peers == [] || requests == [] then Outcome(t, [])
    else
      var t' := t.(outgoing := t.outgoing[peers[0] := Active(true)]);
      var rest := SendRequests(t', peers[1..], requests[1..]);
      Outcome(rest.task, [Ask(peers[0], requests[0])] + rest.messages)
  }

  /** The ready peers and the requests, in the orders that two shuffles have brought them into. */
  predicate Shuffled<S>(t: Task<S>, peers: seq<Peer>, requests: seq<Request>) {
    && multiset(peers) == multiset(ReadyPeers(t.outgoing))
    && multiset(requests) == multiset(RequestsOf(t.phase, |peers|))
  }

  /** It is a failure to download with nothing left to ask for. */
  function SendSyncRequests<S>(t: Task<S>, peers: seq<Peer>, requests: seq<Request>): Outcome<S> {
    if (t.phase.DownloadingMerkle? || t.phase.DownloadingInitialState?) && requests == [] then Panic(t)
    else SendRequests(t, peers, requests)
  }
}
