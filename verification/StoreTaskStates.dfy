/** Over whole runs of the task that owns a store, its state is that of the headers it has accepted. */
module StoreTaskStates {
  import opened Common
  import opened EventGraph
  import opened Ancestry
  import opened StoreLoop
  import opened PartialMerkle
  import opened Blocks
  import opened Ranges
  import opened StoreIds
  import opened Download
  import opened StoreTask
  import opened StoreTaskRuns

  ghost predicate Decoded<S, Op>(c: Crdt<S, Op>, hs: seq<Header>) {
    forall h :: h in hs ==> c.decode(h.body, h.id).Some?
  }

  /** The state of a syncing store is what its headers make of its initial state. */
  ghost predicate Replayed<S, Op>(env: Env<S, Op>, st: Phase<S>) {
    st.Syncing? ==>
      && env.parse(st.initialState).Some? && Decoded(env.crdt, st.ecg)
      && st.latest == Replay(env.crdt, env.parse(st.initialState).value, st.ecg)
  }

  lemma ToSyncingReplays<S, Op>(env: Env<S, Op>, m: Metadata, tree: Nodes', blocks: seq<Option<Bytes>>)
    ensures Replayed(env, ToSyncing(env, m, tree, blocks))
  {
    hide Concat, Present;
  }

  lemma ToInitialStateReplays<S, Op>(env: Env<S, Op>, m: Metadata, partial: Nodes)
    ensures Replayed(env, ToInitialState(env, m, partial))
  {
    hide ToSyncing;
    if TryComplete(partial).Some? {
      ToSyncingReplays(env, m, TryComplete(partial).value, seq(BlockCount(m.initialStateSize), _ => None));
    }
  }

  /** One phase after another: operations are applied to the state as they are accepted, and nothing else is. */
  lemma ExecuteReplays<S, Op>(env: Env<S, Op>, st: Phase<S>, cmd: Command)
    requires Replayed(env, st)
    ensures Replayed(env, Execute(env, st, cmd))
  {
    hide ToInitialState, ToSyncing, SetAll, TakeBlocks, Flatten, ReceiveAll, Receive, Replay, NewWithCapacity;
    if !st.Crashed? {
      match cmd
      case ReceivedMetadata(m) =>
        var count := BlockCount(m.initialStateSize);
        if count == 1 { ToInitialStateReplays(env, m, NewWithCapacity(m.merkleRoot, count)); }
      case ReceivedMerkleHashes(ranges, hashes) =>
        if |Flatten(ranges)| == |hashes| && st.DownloadingMerkle? {
          var partial := SetAll(env.hashing, st.partial, Proposals(Flatten(ranges), hashes));
          ToInitialStateReplays(env, st.metadata, partial);
        }
      case ReceivedBlocks(ranges, bs) =>
        if |Flatten(ranges)| == |bs| && st.DownloadingInitialState? {
          var r := TakeBlocks(env.hashing, st.tree, st.blocks, Flatten(ranges), bs);
          if r.Some? { ToSyncingReplays(env, st.metadata, st.tree, r.value); }
        }
      case ReceivedOperations(hs) =>
        if st.Syncing? {
          ReceiveAllIsReplay(env.crdt, env.parse(st.initialState).value, Running(st.ecg, st.latest), hs);
        }
      case ApplyLocally(h) =>
        if st.Syncing? {
          OneReceived(env.crdt, Running(st.ecg, st.latest), h);
          ReceiveAllIsReplay(env.crdt, env.parse(st.initialState).value, Running(st.ecg, st.latest), [h]);
        }
    }
  }

  lemma OneReceived<S, Op>(c: Crdt<S, Op>, st: Store<S>, h: Header)
    ensures ReceiveAll(c, st, [h]) == Receive(c, st, h)
  {
    assert [h][1..] == [];
  }

  lemma CrashedReplays<S, Op>(env: Env<S, Op>, st: Phase<S>)
    ensures st.Crashed? ==> Replayed(env, st)
  {
  }

  /** Over whole runs the latest state of a syncing store is the replay of its graph over its initial state. */
  lemma {:induction false} StateIsReplayed<S, Op>(env: Env<S, Op>, t: Task<S>, es: seq<Event>)
    requires Replayed(env, t.phase)
    ensures Replayed(env, RunTask(env, t, es).0.phase)
    decreases |es|
  {
    hide Step, Replayed, Execute;
    if es != [] {
      var t' := Step(env, t, es[0]).task;
      PhaseFollows(env, t, es[0]);
      CrashedReplays(env, t'.phase);
      match es[0] {
        case Delivered(_, cmd) => ExecuteReplays(env, t.phase, cmd);
        case Applied(h) => ExecuteReplays(env, t.phase, ApplyLocally(h));
        case _ =>
      }
      StateIsReplayed(env, t', es[1..]);
    }
  }

  // ---------- What one delivery does to the graph

  /** A peer that is asked for news and a store that syncs: the only failure is a header that does not parse. */
  lemma DeliveredHeaders<S, Op>(env: Env<S, Op>, t: Task<S>, from: Peer, hs: seq<Header>)
    requires !t.phase.Crashed?
    ensures var st' := Deliver(env, t, from, ReceivedOperations(hs)).task.phase;
      && (!st'.Crashed? <==> t.phase.Syncing? && MarkReady(t, from).Some? && Decoded(env.crdt, hs))
      && (!st'.Crashed? ==> st' == t.phase.(ecg := InsertAll(t.phase.ecg, hs), latest := st'.latest))
  {
    hide ReceiveAll, InsertAll, GotOperations;
    if t.phase.Syncing? && MarkReady(t, from).Some? {
      var r := ReceiveAll(env.crdt, Running(t.phase.ecg, t.phase.latest), hs);
      ReceivesInTurn(env.crdt, Running(t.phase.ecg, t.phase.latest), hs);
      OperationsPhase(env, MarkReady(t, from).value, Some(from), r);
    }
  }

  /** A header of the application itself is accepted, or it is a failure. */
  lemma AppliedHeader<S, Op>(env: Env<S, Op>, t: Task<S>, h: Header)
    requires t.phase.Syncing?
    ensures var st' := ApplyLocal(env, t, h).task.phase;
      && (!st'.Crashed? <==> Accepts(t.phase.ecg, h) && Decoded(env.crdt, [h]))
      && (!st'.Crashed? ==> st' == t.phase.(ecg := t.phase.ecg + [h], latest := st'.latest))
  {
    hide ReceiveAll, GotOperations;
    if Accepts(t.phase.ecg, h) {
      var r := Receive(env.crdt, Running(t.phase.ecg, t.phase.latest), h);
      OperationsPhase(env, t, None, r);
    }
  }

  /** Nothing but headers changes the graph and the state of a store that syncs and goes on syncing. */
  lemma OnlyHeadersChange<S, Op>(env: Env<S, Op>, t: Task<S>, e: Event)
    requires t.phase.Syncing? && !e.Applied? && !(e.Delivered? && e.command.ReceivedOperations?)
    ensures var st' := Step(env, t, e).task.phase; st'.Syncing? ==> st' == t.phase
  {
    hide Step, TakeBlocks, SetAll, Flatten, TryComplete;
    PhaseFollows(env, t, e);
  }

  // ---------- Convergence of running stores

  /** A store that starts from its id, and one that its creator starts with its state. */
  lemma Beginnings<S(!new), Op(!new)>(env: Env<S, Op>, m: Metadata, bytes: Bytes)
    requires Published(env.hashing, m, bytes) && env.parse(bytes).Some?
    ensures var st: Phase<S> := DownloadingMetadata(env.IdOf(m)); Faithful(env, m, bytes, st) && Replayed(env, st)
    ensures Faithful(env, m, bytes, Arrived(env, m, bytes)) && Replayed(env, Arrived(env, m, bytes))
  {
  }

  lemma {:induction false} RunIsFaithful<S(!new), Op(!new)>(env: Env<S, Op>, m: Metadata, bytes: Bytes, t: Task<S>,
                                                            es: seq<Event>)
    requires CollisionFree(env) && Published(env.hashing, m, bytes) && Faithful(env, m, bytes, t.phase)
    ensures var st := RunTask(env, t, es).0.phase; st.Syncing? ==> st.initialState == bytes
  {
    AnswersAreTrue(env, m, bytes, t, es);
  }

  /**
    Strong eventual consistency of running stores: two tasks for the same store id, whatever their peers did to them
    and in whatever order, that have come to sync and hold the same headers hold the same state.
   */
  lemma RunningStoresConverge<S(!new), Op(!new)>(env: Env<S, Op>, m: Metadata, bytes: Bytes, a: Task<S>, es: seq<Event>,
                                                 b: Task<S>, es': seq<Event>)
    requires CollisionFree(env) && Published(env.hashing, m, bytes)
    requires Faithful(env, m, bytes, a.phase) && Replayed(env, a.phase)
    requires Faithful(env, m, bytes, b.phase) && Replayed(env, b.phase)
    requires var (st, st') := (RunTask(env, a, es).0.phase, RunTask(env, b, es').0.phase);
      && st.Syncing? && st'.Syncing? && SameHeaders(st.ecg, st'.ecg)
      && RefersBack(env.crdt, st.ecg) && ConcurrentOperationsCommute(env.crdt, st.ecg)
    requires Local(env.crdt) && env.parse(bytes).Some? && env.crdt.good(env.parse(bytes).value)
    requires forall x :: x in env.crdt.times(env.parse(bytes).value) ==> x.headerId.None?
    ensures RunTask(env, a, es).0.phase.latest == RunTask(env, b, es').0.phase.latest
  {
    hide RunTask, Faithful, Published, CollisionFree, Replay, Local, RefersBack, ConcurrentOperationsCommute;
    RunIsFaithful(env, m, bytes, a, es);
    RunIsFaithful(env, m, bytes, b, es');
    StateIsReplayed(env, a, es);
    StateIsReplayed(env, b, es');
    var (st, st') := (RunTask(env, a, es).0.phase, RunTask(env, b, es').0.phase);
    ReplaysConverge(env.crdt, env.parse(bytes).value, st.ecg, st'.ecg);
  }
}
