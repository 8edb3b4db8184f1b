/** Over whole runs of the task that owns a store, no news of the event graph is kept from a waiting subscriber. */
module StoreTaskWaiters {
  import opened Common
  import opened EventGraph
  import opened Ancestry
  import opened StoreLoop
  import opened PartialMerkle
  import opened Blocks
  import opened Ranges
  import opened Download
  import opened StoreTask
  import opened StoreTaskRuns

  ghost function HeaderIds(hs: seq<Header>): set<HeaderId> {
    set i | 0 <= i < |hs| :: hs[i].id
  }

  /** What peers are known to have: the headers of the snapshots they subscribed with and those they sent. */
  type Knowledge = map<Peer, set<HeaderId>>

  ghost function Had(known: Knowledge, peer: Peer): set<HeaderId> {
    if peer in known then known[peer] else {}
  }

  ghost function Learn(known: Knowledge, e: Event): Knowledge {
    match e
    case Subscribed(peer, snapshot) =>
      known[peer := Had(known, peer) + (if snapshot.Some? then HeaderIds(snapshot.value) else {})]
    case Delivered(from, ReceivedOperations(hs)) => known[from := Had(known, from) + HeaderIds(hs)]
    case _ => known
  }

  ghost function LearnAll(known: Knowledge, es: seq<Event>): Knowledge
    decreases |es|
  {
    if es == [] then known else LearnAll(Learn(known, es[0]), es[1..])
  }

  /** A waiting subscriber has every header of a syncing store. */
  ghost predicate UpToDate<S>(t: Task<S>, known: Knowledge) {
    && (!t.phase.Crashed? ==> forall p :: p in t.ecgSubscribers ==> p in known)
    && (t.phase.Syncing? ==> forall p :: p in t.ecgSubscribers ==> HeaderIds(t.phase.ecg) <= known[p])
  }

  lemma {:induction false} ReceivedIds<S, Op>(c: Crdt<S, Op>, st: Store<S>, hs: seq<Header>)
    requires st.Running?
    ensures var r := ReceiveAll(c, st, hs);
      r.Running? ==> HeaderIds(r.graph) <= HeaderIds(st.graph) + HeaderIds(hs)
    decreases |hs|
  {
    if hs != [] {
      var st' := Receive(c, st, hs[0]);
      if st'.Running? {
        ReceivedIds(c, st', hs[1..]);
        forall x | x in HeaderIds(st'.graph)
          ensures x in HeaderIds(st.graph) + HeaderIds(hs)
        {
          var i :| 0 <= i < |st'.graph| && st'.graph[i].id == x;
          assert i < |st.graph| ==> st.graph[i].id == x;
        }
        forall x | x in HeaderIds(hs[1..])
          ensures x in HeaderIds(hs)
        {
          var i :| 0 <= i < |hs[1..]| && hs[1..][i].id == x;
          assert hs[i + 1].id == x;
        }
      } else {
        PanicStays(c, hs[1..]);
      }
    }
  }

  /** After an announcement at most the peer that brought the news still waits. */
  ghost predicate OnlyWaits<S>(t: Task<S>, t': Task<S>, from: Option<Peer>) {
    forall p :: p in t'.ecgSubscribers ==> p in t.ecgSubscribers && from == Some(p)
  }

  lemma OperationsWait<S, Op>(env: Env<S, Op>, t: Task<S>, from: Option<Peer>, r: Store<S>)
    requires t.phase.Syncing?
    ensures var t' := GotOperations(env, t, from, r).task; t'.phase.Crashed? || OnlyWaits(t, t', from)
  {
  }

  /** Whatever else is delivered, the graph stays as it is or starts anew, and nobody joins those who wait. */
  ghost predicate NoNews<S>(t: Task<S>, t': Task<S>) {
    && t'.ecgSubscribers <= t.ecgSubscribers
    && (t'.phase.Syncing? ==> t'.phase.ecg == [] || (t.phase.Syncing? && t'.phase.ecg == t.phase.ecg))
  }

  lemma EnterSyncingNoNews<S, Op>(env: Env<S, Op>, t: Task<S>, from: Peer)
    requires t.phase.DownloadingInitialState?
    ensures var t' := EnterSyncing(env, t, from).task; t'.phase.Crashed? || NoNews(t, t')
  {
    hide BlockAnswers;
  }

  lemma EnterInitialStateNoNews<S, Op>(env: Env<S, Op>, t: Task<S>, from: Peer)
    requires t.phase.DownloadingMerkle?
    ensures var t' := EnterInitialState(env, t, from).task; t'.phase.Crashed? || NoNews(t, t')
  {
    hide EnterSyncing, MerkleAnswers;
    var tree := TryComplete(t.phase.partial);
    if tree.Some? {
      var m := t.phase.metadata;
      var blocks := seq(BlockCount(m.initialStateSize), _ => None);
      EnterSyncingNoNews(env, t.(phase := DownloadingInitialState(m, tree.value, blocks), merkleSubscribers := map[]),
                         from);
    }
  }

  lemma DeliverNoNews<S, Op>(env: Env<S, Op>, t: Task<S>, from: Peer, cmd: Command)
    requires !cmd.ApplyLocally? && !cmd.ReceivedOperations?
    ensures var t' := Deliver(env, t, from, cmd).task; t'.phase.Crashed? || (!t.phase.Crashed? && NoNews(t, t'))
  {
    hide EnterInitialState, EnterSyncing, SetAll, TakeBlocks, Flatten, NewWithCapacity;
    if !t.phase.Crashed? && MarkReady(t, from).Some? {
      var t' := MarkReady(t, from).value;
      match cmd
      case ReceivedMetadata(m) =>
        var count := BlockCount(m.initialStateSize);
        if count == 1 {
          EnterInitialStateNoNews(env, t'.(phase := DownloadingMerkle(m, NewWithCapacity(m.merkleRoot, count)),
                                           metadataSubscribers := {}), from);
        }
      case ReceivedMerkleHashes(ranges, hashes) =>
        if t.phase.DownloadingMerkle? && |Flatten(ranges)| == |hashes| {
          var partial := SetAll(env.hashing, t.phase.partial, Proposals(Flatten(ranges), hashes));
          EnterInitialStateNoNews(env, t'.(phase := DownloadingMerkle(t.phase.metadata, partial)), from);
        }
      case ReceivedBlocks(ranges, bs) =>
        if t.phase.DownloadingInitialState? && |Flatten(ranges)| == |bs| {
          var r := TakeBlocks(env.hashing, t.phase.tree, t.phase.blocks, Flatten(ranges), bs);
          if r.Some? { EnterSyncingNoNews(env, t'.(phase := t.phase.(blocks := r.value)), from); }
        }
    }
  }

  lemma NoNewsForAnyone<S>(t: Task<S>, t': Task<S>, known: Knowledge)
    requires UpToDate(t, known) && (t'.phase.Crashed? || (!t.phase.Crashed? && NoNews(t, t')))
    ensures UpToDate(t', known)
  {
  }

  lemma NewsForOthers<S, Op>(env: Env<S, Op>, t: Task<S>, known: Knowledge, from: Peer, hs: seq<Header>)
    requires UpToDate(t, known)
    ensures UpToDate(Deliver(env, t, from, ReceivedOperations(hs)).task,
                     Learn(known, Delivered(from, ReceivedOperations(hs))))
  {
    hide ReceiveAll, GotOperations;
    if t.phase.Syncing? && MarkReady(t, from).Some? {
      var t' := MarkReady(t, from).value;
      var r := ReceiveAll(env.crdt, Running(t.phase.ecg, t.phase.latest), hs);
      OperationsPhase(env, t', Some(from), r);
      OperationsWait(env, t', Some(from), r);
      OperationsSubscribers(env, t', Some(from), r);
      ReceivedIds(env.crdt, Running(t.phase.ecg, t.phase.latest), hs);
    }
  }

  lemma OperationsSubscribers<S, Op>(env: Env<S, Op>, t: Task<S>, from: Option<Peer>, r: Store<S>)
    requires t.phase.Syncing?
    ensures GotOperations(env, t, from, r).task.ecgSubscribers <= t.ecgSubscribers
  {
  }

  lemma LocalNews<S, Op>(env: Env<S, Op>, t: Task<S>, known: Knowledge, h: Header)
    requires UpToDate(t, known)
    ensures UpToDate(ApplyLocal(env, t, h).task, known)
  {
    hide Receive, GotOperations;
    if t.phase.Syncing? && Accepts(t.phase.ecg, h) {
      var r := Receive(env.crdt, Running(t.phase.ecg, t.phase.latest), h);
      OperationsWait(env, t, None, r);
      OperationsSubscribers(env, t, None, r);
    }
  }

  /**
    A subscriber is parked exactly when the store is not syncing yet or the subscriber's snapshot already holds the
    same headers: nobody is parked with a snapshot that is out of date, and nobody is answered in vain.
   */
  lemma ParkedIffCurrent<S>(t: Task<S>, known: Knowledge, peer: Peer, snapshot: Option<Graph>)
    requires !t.phase.Crashed?
    requires t.phase.Syncing? && snapshot.Some? ==> IdsDetermineHeaders(t.phase.ecg, snapshot.value)
    ensures var r := Subscribe(t, peer, TipsOf(snapshot));
      && (r.messages == [] <==> (t.phase.Syncing? ==> snapshot.Some? && SameHeaders(t.phase.ecg, snapshot.value)))
      && r.task == if r.messages == [] then t.(ecgSubscribers := t.ecgSubscribers + {peer}) else t
    ensures UpToDate(t, known) ==>
      UpToDate(Subscribe(t, peer, TipsOf(snapshot)).task, Learn(known, Subscribed(peer, snapshot)))
  {
    if t.phase.Syncing? && snapshot.Some? {
      var g, g' := t.phase.ecg, snapshot.value;
      EqualTipsSameHeaders(g, g');
      if SameHeaders(g, g') { SameHeadersSameIds(g, g'); }
    }
  }

  lemma SameHeadersSameIds(g: Graph, g': Graph)
    requires SameHeaders(g, g')
    ensures HeaderIds(g) <= HeaderIds(g')
  {
    forall x | x in HeaderIds(g)
      ensures x in HeaderIds(g')
    {
      var i :| 0 <= i < |g| && g[i].id == x;
      assert g[i] in g';
      var j :| 0 <= j < |g'| && g'[j] == g[i];
    }
  }

  lemma CrashedSubscribe<S>(t: Task<S>, peer: Peer, snapshot: Option<Graph>, known: Knowledge)
    requires t.phase.Crashed? && UpToDate(t, known)
    ensures UpToDate(Subscribe(t, peer, TipsOf(snapshot)).task, Learn(known, Subscribed(peer, snapshot)))
  {
  }

  lemma SendKeeps<S>(t: Task<S>, peers: seq<Peer>, requests: seq<Request>)
    ensures var t' := SendSyncRequests(t, peers, requests).task;
      t'.ecgSubscribers == t.ecgSubscribers && (t'.phase.Crashed? || t'.phase == t.phase)
  {
    SendPhase(t, peers, requests);
  }

  // ---------- Whole runs

  /** `origin` gives the header behind every id. */
  ghost predicate Genuine(origin: HeaderId -> Header, hs: seq<Header>) {
    forall h :: h in hs ==> origin(h.id) == h
  }

  ghost predicate GenuineEvent(origin: HeaderId -> Header, e: Event) {
    match e
    case Delivered(_, ReceivedOperations(hs)) => Genuine(origin, hs)
    case Applied(h) => Genuine(origin, [h])
    case Subscribed(_, Some(g)) => Genuine(origin, g)
    case _ => true
  }

  ghost predicate GenuinePhase<S>(origin: HeaderId -> Header, st: Phase<S>) {
    st.Syncing? ==> Genuine(origin, st.ecg)
  }

  lemma {:induction false} ReceivedGenuine<S, Op>(c: Crdt<S, Op>, st: Store<S>, hs: seq<Header>,
                                                  origin: HeaderId -> Header)
    requires st.Running? && Genuine(origin, st.graph) && Genuine(origin, hs)
    ensures var r := ReceiveAll(c, st, hs); r.Running? ==> Genuine(origin, r.graph)
    decreases |hs|
  {
    if hs != [] {
      var st' := Receive(c, st, hs[0]);
      if st'.Running? {
        ReceivedGenuine(c, st', hs[1..], origin);
      } else {
        PanicStays(c, hs[1..]);
      }
    }
  }

  lemma ExecuteGenuine<S, Op>(env: Env<S, Op>, st: Phase<S>, e: Event, origin: HeaderId -> Header)
    requires GenuinePhase(origin, st) && GenuineEvent(origin, e)
    ensures GenuinePhase(origin, PhaseAfter(env, st, e))
  {
    hide ReceiveAll, TakeBlocks, SetAll, Flatten;
    if st.Syncing? {
      match e
      case Delivered(_, ReceivedOperations(hs)) =>
        ReceivedGenuine(env.crdt, Running(st.ecg, st.latest), hs, origin);
      case _ =>
    }
  }

  lemma StepUpToDate<S, Op>(env: Env<S, Op>, t: Task<S>, e: Event, known: Knowledge, origin: HeaderId -> Header)
    requires UpToDate(t, known) && GenuinePhase(origin, t.phase) && GenuineEvent(origin, e)
    ensures UpToDate(Step(env, t, e).task, Learn(known, e))
    ensures GenuinePhase(origin, Step(env, t, e).task.phase)
  {
    hide Deliver, ApplyLocal, SendSyncRequests, Shuffled, Subscribe, PhaseAfter, ServeHashes, ServeBlocks,
      PartialBlocks;
    PhaseFollows(env, t, e);
    ExecuteGenuine(env, t.phase, e, origin);
    match e
    case Delivered(from, cmd) =>
      if cmd.ReceivedOperations? {
        NewsForOthers(env, t, known, from, cmd.operations);
      } else if !cmd.ApplyLocally? {
        DeliverNoNews(env, t, from, cmd);
        NoNewsForAnyone(t, Deliver(env, t, from, cmd).task, known);
      }
    case Applied(h) => LocalNews(env, t, known, h);
    case Subscribed(peer, snapshot) =>
      if t.phase.Crashed? {
        CrashedSubscribe(t, peer, snapshot, known);
      } else {
        ParkedIffCurrent(t, known, peer, snapshot);
      }
    case RequestsSent(peers, requests) => SendKeeps(t, peers, requests);
    case _ =>
  }

  /**
    Over whole runs, with commands from any peers and subscriptions in between, a peer that still waits in the syncing
    phase lacks no header: the store holds nothing but what the peer's snapshot had or the peer sent itself.
   */
  lemma {:induction false} WaitersLackNothing<S, Op>(env: Env<S, Op>, t: Task<S>, known: Knowledge, es: seq<Event>,
                                                     origin: HeaderId -> Header)
    requires UpToDate(t, known) && GenuinePhase(origin, t.phase)
    requires forall k :: 0 <= k < |es| ==> GenuineEvent(origin, es[k])
    ensures UpToDate(RunTask(env, t, es).0, LearnAll(known, es))
    decreases |es|
  {
    hide Step, UpToDate, GenuineEvent, Learn;
    if es != [] {
      assert GenuineEvent(origin, es[0]);
      StepUpToDate(env, t, es[0], known, origin);
      WaitersLackNothing(env, Step(env, t, es[0]).task, Learn(known, es[0]), es[1..], origin);
    }
  }
}
