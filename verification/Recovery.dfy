/**
  A download recovers from lies: whatever peers have sent so far, from the moment on that its requests get true answers
  a store completes its download.
 */
module Recovery {
  import opened StoreIds
  import opened Merkle
  import opened PartialMerkle
  import opened Blocks
  import opened Ranges
  import opened Download

  /** The proposals that wait to be checked and are wrong. */
  ghost function Lies(s: Nodes, truth: seq<Digest>): set<nat>
    requires |s| == |truth|
  {
    set j | 0 <= j < |s| && s[j].Unverified? && s[j].digest != truth[j]
  }

  ghost predicate RightRoot(h: Hashing, s: Nodes, truth: seq<Digest>) {
    Inv(h, s) && |s| == |truth| && Hashed(h, truth) && s[0] == Verified(truth[0])
  }

  /** No node got lost, and none of those supplied is missing. */
  ghost predicate NoneLost(s: Nodes, s': Nodes, supplied: seq<nat>) {
    |s'| == |s| && forall j :: 0 <= j < |s| && s'[j].Missing? ==> s[j].Missing? && j !in supplied
  }

  /** Fewer lies, or no more lies and nothing lost. */
  ghost predicate Progress(s: Nodes, s': Nodes, truth: seq<Digest>, supplied: seq<nat>)
    requires |s| == |s'| == |truth|
  {
    Lies(s', truth) < Lies(s, truth) || (Lies(s', truth) <= Lies(s, truth) && NoneLost(s, s', supplied))
  }

  /** A pair that true digests refute has a lie in it. */
  lemma LieFound(h: Hashing, s: Nodes, s': Nodes, truth: seq<Digest>, i: nat) returns (lie: nat)
    requires NodesCollisionFree(h) && RightRoot(h, s', truth) && |s| == |truth| && PairRefuted(h, s, s', i)
    ensures lie in Lies(s, truth) && lie !in Lies(s', truth)
  {
    VerifiedIsTrue(h, s', truth, i);
    assert BranchHashed(h, truth, i);
    lie := if s[2 * i + 1].digest != truth[2 * i + 1] then 2 * i + 1 else 2 * i + 2;
  }

  lemma TrueDigest(h: Hashing, s: Nodes, truth: seq<Digest>, index: nat)
    requires NodesCollisionFree(h) && RightRoot(h, s, truth) && index < |truth|
    ensures var s' := Set(h, s, index, truth[index]).0;
      |s'| == |s| && RightRoot(h, s', truth) && Progress(s, s', truth, [index])
  {
    var s' := Set(h, s, index, truth[index]).0;
    SetKeepsInv(h, s, index, truth[index]);
    SetTraced(h, s, index, truth[index]);
    var recorded: Nodes := if s[index].Missing? then s[index := Unverified(truth[index])] else s;
    hide Set, Inv, Hashed, PairRefuted;
    assert Lies(recorded, truth) == Lies(s, truth);
    forall j | j in Lies(s', truth)
      ensures j in Lies(s, truth)
    {
      assert NodeFate(h, recorded, s', j);
    }
    if j :| 0 <= j < |s| && s'[j].Missing? && !recorded[j].Missing? {
      assert NodeFate(h, recorded, s', j);
      var lie := LieFound(h, recorded, s', truth, (j - 1) / 2);
    }
  }

  lemma ProgressTwice(s: Nodes, s1: Nodes, s2: Nodes, truth: seq<Digest>, a: seq<nat>, b: seq<nat>)
    requires |s| == |s1| == |s2| == |truth| && Progress(s, s1, truth, a) && Progress(s1, s2, truth, b)
    ensures Progress(s, s2, truth, a + b)
  {
    hide Lies;
  }

  ghost function IndicesIn(ps: seq<Proposal>): seq<nat> {
    if ps == [] then [] else [ps[0].index] + IndicesIn(ps[1..])
  }

  lemma {:induction false} TrueDigests(h: Hashing, s: Nodes, truth: seq<Digest>, ps: seq<Proposal>)
    requires NodesCollisionFree(h) && RightRoot(h, s, truth)
    requires forall p :: p in ps ==> p.index < |truth| && p.digest == truth[p.index]
    ensures var s' := SetAll(h, s, ps); RightRoot(h, s', truth) && Progress(s, s', truth, IndicesIn(ps))
    decreases |ps|
  {
    assert |s| == |truth|;
    hide Set, RightRoot, Progress;
    if ps == [] {
      NoProposals(s, truth);
    } else {
      var p := ps[0];
      assert p in ps;
      TrueDigest(h, s, truth, p.index);
      var s1 := Set(h, s, p.index, p.digest).0;
      TrueDigests(h, s1, truth, ps[1..]);
      SameLength(h, s, s1, SetAll(h, s1, ps[1..]), truth);
      ProgressTwice(s, s1, SetAll(h, s1, ps[1..]), truth, [p.index], IndicesIn(ps[1..]));
    }
  }

  lemma NoProposals(s: Nodes, truth: seq<Digest>)
    requires |s| == |truth|
    ensures Progress(s, s, truth, [])
  {
  }

  lemma SameLength(h: Hashing, s: Nodes, s1: Nodes, s2: Nodes, truth: seq<Digest>)
    requires RightRoot(h, s, truth) && RightRoot(h, s1, truth) && RightRoot(h, s2, truth)
    ensures |s| == |s1| == |s2| == |truth|
  {
  }

  // ---------- Rounds of requests

  /** The true answers to everything that a phase asks for. */
  function Answers<S>(m: Metadata, h: Hashing, bytes: Bytes, st: Phase<S>): seq<Command>
    requires Asks(h, bytes, st)
  {
    match st
    case DownloadingMetadata(_) => [ReceivedMetadata(m)]
    case DownloadingMerkle(_, _) => HashResponses(TreeOf(h, bytes), SyncRequests(st))
    case DownloadingInitialState(_, _, _) => BlockResponses(bytes, SyncRequests(st))
    case _ => []
  }

  /** The phase asks for what there is. */
  predicate Asks<S>(h: Hashing, bytes: Bytes, st: Phase<S>) {
    && (st.DownloadingMerkle? ==> forall i :: i in FlattenRequests(SyncRequests(st)) ==> i < |TreeOf(h, bytes)|)
    && (st.DownloadingInitialState? ==> forall i :: i in FlattenRequests(SyncRequests(st)) ==> i < BlockCount(|bytes|))
  }

  lemma FaithfulAsks<S(!new), Op(!new)>(env: Env<S, Op>, m: Metadata, bytes: Bytes, st: Phase<S>)
    requires Published(env.hashing, m, bytes) && Faithful(env, m, bytes, st)
    ensures Asks(env.hashing, bytes, st)
  {
    hide SyncRequests, Inv, MissingIndices;
    TreeSize(env.hashing, bytes);
    if st.DownloadingMerkle? || st.DownloadingInitialState? { RequestsAreExact(env, env.IdOf(m), st); }
  }

  lemma TreeSize(h: Hashing, bytes: Bytes)
    requires bytes != []
    ensures |TreeOf(h, bytes)| == NodeCount(BlockCount(|bytes|)) && Hashed(h, TreeOf(h, bytes))
  {
    BuildLayout(h, Leaves(h, Chunks(bytes)), TreeOf(h, bytes));
  }

  /** How far a Merkle phase has come: the lies in it. */
  ghost function LiesIn<S>(h: Hashing, bytes: Bytes, st: Phase<S>): set<nat> {
    if st.DownloadingMerkle? && |st.partial| == |TreeOf(h, bytes)| then Lies(st.partial, TreeOf(h, bytes)) else {}
  }

  lemma RightRootOf<S(!new), Op(!new)>(env: Env<S, Op>, m: Metadata, bytes: Bytes, st: Phase<S>)
    requires Published(env.hashing, m, bytes) && Faithful(env, m, bytes, st) && st.DownloadingMerkle?
    ensures RightRoot(env.hashing, st.partial, TreeOf(env.hashing, bytes))
  {
    hide MissingIndices, Hashed, Inv;
    TreeSize(env.hashing, bytes);
  }

  /** A true answer to a request: the tree is complete, or there are fewer lies, or what was asked for is there. */
  lemma HashAnswer<S(!new), Op(!new)>(env: Env<S, Op>, m: Metadata, bytes: Bytes, st: Phase<S>, ranges: seq<Range>)
    requires CollisionFree(env) && Published(env.hashing, m, bytes) && Faithful(env, m, bytes, st)
    requires st.DownloadingMerkle? && forall i :: i in Flatten(ranges) ==> i < |TreeOf(env.hashing, bytes)|
    ensures ServeHashes(TreeOf(env.hashing, bytes), Flatten(ranges)).Some?
    ensures var tree := TreeOf(env.hashing, bytes);
      var st' := Execute(env, st, ReceivedMerkleHashes(ranges, ServeHashes(tree, Flatten(ranges)).value));
      || st'.DownloadingInitialState?
      || (st'.DownloadingMerkle? && |st.partial| == |st'.partial| == |tree|
          && Progress(st.partial, st'.partial, tree, Flatten(ranges)))
  {
    hide SetAll, TryComplete, Hashed, MissingIndices, Chunks, ChunkTree, Progress, Inv;
    var tree, ids := TreeOf(env.hashing, bytes), Flatten(ranges);
    HashesExist(tree, ids);
    var hashes := ServeHashes(tree, ids).value;
    var ps := Proposals(ids, hashes);
    RightRootOf(env, m, bytes, st);
    forall p | p in ps
      ensures p.index < |tree| && p.digest == tree[p.index]
    {
      var k :| 0 <= k < |ps| && ps[k] == p;
      assert ids[k] in ids;
    }
    TrueDigests(env.hashing, st.partial, tree, ps);
    ProposedIndices(ids, hashes);
    assert m.initialStateSize != 0;
    assert RightRoot(env.hashing, SetAll(env.hashing, st.partial, ps), tree);
  }

  lemma {:induction false} ProposedIndices(ids: seq<nat>, hashes: seq<Digest>)
    requires |ids| == |hashes|
    ensures IndicesIn(Proposals(ids, hashes)) == ids
    decreases |ids|
  {
    if ids != [] {
      assert Proposals(ids, hashes)[1..] == Proposals(ids[1..], hashes[1..]);
      ProposedIndices(ids[1..], hashes[1..]);
    }
  }

  /** True answers to several requests, one after the other. */
  lemma {:induction false} HashAnswers<S(!new), Op(!new)>(env: Env<S, Op>, m: Metadata, bytes: Bytes, st: Phase<S>,
                                                          asked: seq<seq<Range>>)
    requires CollisionFree(env) && Published(env.hashing, m, bytes) && Faithful(env, m, bytes, st)
    requires st.DownloadingMerkle? && forall i :: i in FlattenRequests(asked) ==> i < |TreeOf(env.hashing, bytes)|
    ensures var tree := TreeOf(env.hashing, bytes);
      var st' := Run(env, st, HashResponses(tree, asked));
      || st'.DownloadingInitialState?
      || (st'.DownloadingMerkle? && |st.partial| == |st'.partial| == |tree|
          && Progress(st.partial, st'.partial, tree, FlattenRequests(asked)))
    decreases |asked|
  {
    hide Faithful, CollisionFree, Published, Progress, Flatten, ChunkTree, Chunks, Execute, ServeHashes;
    var tree := TreeOf(env.hashing, bytes);
    if asked == [] {
      RightRootOf(env, m, bytes, st);
      SameLength(env.hashing, st.partial, st.partial, st.partial, tree);
      NoProposals(st.partial, tree);
    } else {
      FirstAsked(asked, |tree|);
      HashAnswer(env, m, bytes, st, asked[0]);
      var cmd := ReceivedMerkleHashes(asked[0], ServeHashes(tree, Flatten(asked[0])).value);
      var st1 := Execute(env, st, cmd);
      assert HashResponses(tree, asked) == [cmd] + HashResponses(tree, asked[1..]);
      if st1.DownloadingInitialState? {
        LateHashesIgnored(env, st1, tree, asked[1..]);
      } else {
        ExecuteFaithful(env, m, bytes, st, cmd);
        HashAnswers(env, m, bytes, st1, asked[1..]);
        var st2 := Run(env, st1, HashResponses(tree, asked[1..]));
        if st2.DownloadingMerkle? {
          ProgressTwice(st.partial, st1.partial, st2.partial, tree, Flatten(asked[0]), FlattenRequests(asked[1..]));
        }
      }
    }
  }

  /** After a whole round in the Merkle phase the tree is complete, or there are fewer lies in it. */
  lemma MerkleRound<S(!new), Op(!new)>(env: Env<S, Op>, m: Metadata, bytes: Bytes, st: Phase<S>)
    requires CollisionFree(env) && Published(env.hashing, m, bytes) && Faithful(env, m, bytes, st)
    requires st.DownloadingMerkle? && Asks(env.hashing, bytes, st)
    ensures var st' := Run(env, st, Answers(m, env.hashing, bytes, st));
      || st'.DownloadingInitialState?
      || (st'.DownloadingMerkle? && LiesIn(env.hashing, bytes, st') < LiesIn(env.hashing, bytes, st))
  {
    hide HashResponses, SyncRequests, Flatten, ChunkTree, Chunks, Lies, CollisionFree, Published, Inv;
    var cmds := Answers(m, env.hashing, bytes, st);
    var asked := SyncRequests(st);
    HashAnswers(env, m, bytes, st, asked);
    RequestsAreExact(env, env.IdOf(m), st);
    RunFaithful(env, m, bytes, st, cmds);
    var st' := Run(env, st, cmds);
    if st'.DownloadingMerkle? {
      MerkleMisses(env, m, bytes, st');
      var j :| 0 <= j < |st'.partial| && st'.partial[j].Missing?;
      assert st.partial[j].Missing? ==> j in FlattenRequests(asked);
      assert !NoneLost(st.partial, st'.partial, FlattenRequests(asked));
    }
  }

  lemma MerkleMisses<S(!new), Op(!new)>(env: Env<S, Op>, m: Metadata, bytes: Bytes, st: Phase<S>)
    requires Faithful(env, m, bytes, st) && st.DownloadingMerkle?
    ensures exists j :: 0 <= j < |st.partial| && st.partial[j].Missing?
  {
    MissingUpToMembers(st.partial, |st.partial|);
    assert MissingIndices(st.partial)[0] in MissingIndices(st.partial);
  }

  /** A whole round in the block phase ends the download. */
  lemma BlockRound<S(!new), Op(!new)>(env: Env<S, Op>, m: Metadata, bytes: Bytes, st: Phase<S>)
    requires Published(env.hashing, m, bytes) && Faithful(env, m, bytes, st) && env.parse(bytes).Some?
    requires st.DownloadingInitialState? && Asks(env.hashing, bytes, st)
    ensures Run(env, st, Answers(m, env.hashing, bytes, st)) == Arrived(env, m, bytes)
  {
    hide BlockResponses, SyncRequests, ChunkTree, Chunks, Hashed;
    RequestsAreExact(env, env.IdOf(m), st);
    BlocksArrive(env, m, bytes, st.blocks, SyncRequests(st));
  }

  /** The phase after `k` rounds of requests that get true answers. */
  ghost function Rounds<S(!new), Op(!new)>(env: Env<S, Op>, m: Metadata, bytes: Bytes, st: Phase<S>, k: nat): Phase<S>
    requires CollisionFree(env) && Published(env.hashing, m, bytes) && Faithful(env, m, bytes, st)
    ensures Faithful(env, m, bytes, Rounds(env, m, bytes, st, k))
    decreases k
  {
    if k == 0 then st
    else
      FaithfulAsks(env, m, bytes, st);
      RunFaithful(env, m, bytes, st, Answers(m, env.hashing, bytes, st));
      Rounds(env, m, bytes, Run(env, st, Answers(m, env.hashing, bytes, st)), k - 1)
  }

  lemma MetadataRound<S(!new), Op(!new)>(env: Env<S, Op>, m: Metadata, bytes: Bytes, st: Phase<S>)
    requires Published(env.hashing, m, bytes) && Faithful(env, m, bytes, st)
    requires st.DownloadingMetadata? && Asks(env.hashing, bytes, st)
    ensures var st' := Run(env, st, Answers(m, env.hashing, bytes, st));
      (st'.DownloadingMerkle? || st'.DownloadingInitialState?) && LiesIn(env.hashing, bytes, st') == {}
  {
    hide Inv, ChunkTree, Chunks, Hashed;
    MetadataDecides(env, st, m);
    var st' := Execute(env, st, ReceivedMetadata(m));
    assert Run(env, st', []) == st';
    assert Run(env, st, [ReceivedMetadata(m)]) == st' by { assert [ReceivedMetadata(m)][1..] == []; }
  }

  lemma FewerLies(a: set<nat>, b: set<nat>)
    requires a < b
    ensures |a| < |b|
  {
    assert b == a + (b - a);
    assert |b| == |a| + |b - a|;
  }

  /** How many rounds a download has left at most. */
  ghost function RoundsLeft<S>(h: Hashing, bytes: Bytes, st: Phase<S>): nat {
    match st
    case DownloadingMetadata(_) => 3
    case DownloadingMerkle(_, _) => |LiesIn(h, bytes, st)| + 2
    case DownloadingInitialState(_, _, _) => 1
    case _ => 0
  }

  lemma RoundProgress<S(!new), Op(!new)>(env: Env<S, Op>, m: Metadata, bytes: Bytes, st: Phase<S>)
    requires CollisionFree(env) && Published(env.hashing, m, bytes) && Faithful(env, m, bytes, st)
    requires env.parse(bytes).Some? && !st.Crashed? && Asks(env.hashing, bytes, st)
    ensures var st' := Run(env, st, Answers(m, env.hashing, bytes, st));
      && !st'.Crashed?
      && (if st.Syncing? then st' == st
          else RoundsLeft(env.hashing, bytes, st') < RoundsLeft(env.hashing, bytes, st))
  {
    hide CollisionFree, Published, Faithful, Asks, LiesIn, Run, Answers, ChunkTree, Chunks;
    match st
    case DownloadingMetadata(_) => MetadataRound(env, m, bytes, st);
    case DownloadingMerkle(_, _) =>
      MerkleRound(env, m, bytes, st);
      var st' := Run(env, st, Answers(m, env.hashing, bytes, st));
      if st'.DownloadingMerkle? { FewerLies(LiesIn(env.hashing, bytes, st'), LiesIn(env.hashing, bytes, st)); }
    case DownloadingInitialState(_, _, _) => BlockRound(env, m, bytes, st);
    case Syncing(_, _, _, _, _) => NothingToAsk(env, m, bytes, st);
  }

  lemma NothingToAsk<S(!new), Op(!new)>(env: Env<S, Op>, m: Metadata, bytes: Bytes, st: Phase<S>)
    requires st.Syncing? && Asks(env.hashing, bytes, st)
    ensures Run(env, st, Answers(m, env.hashing, bytes, st)) == st
  {
  }

  /**
    From every phase that a store can be in, whatever lies peers have told it before, it reaches its syncing phase with
    the published state once its requests get true answers: after one round for every lie that waits to be found out,
    and three more.
   */
  lemma {:induction false} DownloadRecovers<S(!new), Op(!new)>(env: Env<S, Op>, m: Metadata, bytes: Bytes,
                                                               st: Phase<S>, k: nat)
    requires CollisionFree(env) && Published(env.hashing, m, bytes) && Faithful(env, m, bytes, st)
    requires env.parse(bytes).Some? && !st.Crashed? && k >= RoundsLeft(env.hashing, bytes, st)
    ensures var st' := Rounds(env, m, bytes, st, k);
      st'.Syncing? && st'.metadata == m && st'.initialState == bytes
    ensures RoundsLeft(env.hashing, bytes, st) <= NodeCount(BlockCount(|bytes|)) + 3
    decreases k
  {
    hide CollisionFree, Published, Asks, RoundsLeft, Run, Answers, ChunkTree, Chunks, Inv, Hashed;
    FaithfulAsks(env, m, bytes, st);
    RoundsBounded(env, m, bytes, st);
    RoundsOver(env, m, bytes, st);
    if k > 0 {
      RoundProgress(env, m, bytes, st);
      var cmds := Answers(m, env.hashing, bytes, st);
      RunFaithful(env, m, bytes, st, cmds);
      DownloadRecovers(env, m, bytes, Run(env, st, cmds), k - 1);
    }
  }

  lemma RoundsOver<S(!new), Op(!new)>(env: Env<S, Op>, m: Metadata, bytes: Bytes, st: Phase<S>)
    requires Faithful(env, m, bytes, st) && !st.Crashed?
    ensures RoundsLeft(env.hashing, bytes, st) == 0 <==> st.Syncing?
    ensures st.Syncing? ==> st.metadata == m && st.initialState == bytes
  {
  }

  ghost function UpTo(n: nat): (r: set<nat>)
    ensures |r| == n && forall j :: j in r <==> 0 <= j < n
  {
    if n == 0 then {} else UpTo(n - 1) + {n - 1}
  }

  lemma RoundsBounded<S(!new), Op(!new)>(env: Env<S, Op>, m: Metadata, bytes: Bytes, st: Phase<S>)
    requires Published(env.hashing, m, bytes) && Faithful(env, m, bytes, st)
    ensures RoundsLeft(env.hashing, bytes, st) <= NodeCount(BlockCount(|bytes|)) + 3
  {
    hide ChunkTree, Chunks, Inv, Hashed;
    TreeSize(env.hashing, bytes);
    var n := |TreeOf(env.hashing, bytes)|;
    var all := UpTo(n);
    var lies := LiesIn(env.hashing, bytes, st);
    assert lies <= all;
    assert |all| == |lies| + |all - lies| by { assert all == lies + (all - lies); }
  }
}
