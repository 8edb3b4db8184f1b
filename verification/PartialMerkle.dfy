/** A Merkle tree filled with digests that untrusted peers propose, and verified from the root downwards. */
module PartialMerkle {
  import opened Common
  import opened Merkle

  datatype Potential = Missing | Unverified(digest: Digest) | Verified(digest: Digest)

  type Nodes = s: seq<Potential> | |s| % 2 == 1 witness [Missing]

  predicate IsBranch(s: Nodes, i: nat) {
    2 * i + 2 < |s|
  }

  function NewWithCapacity(root: Digest, leafCount: nat): Nodes
    requires leafCount >= 1
  {
    seq(NodeCount(leafCount), i => if i == 0 then Verified(root) else Missing)
  }

  /**
    Checks the two children of a verified node against it. If they fit they become verified and so, in turn, may what
    was proposed below them; if not both are dropped. The result says which, and is `None` if there was nothing to
    check. The last case is the one the source calls unreachable.
   */
  function Validate(h: Hashing, s: Nodes, i: nat): (v: (Nodes, Option<bool>))
    ensures |v.0| == |s|
    decreases |s| - i
  {
    if !IsBranch(s, i) || !s[i].Verified? then (s, None)
    else
      var (l, r) := (2 * i + 1, 2 * i + 2);
      match (s[l], s[r])
      case (Missing, _) => (s, None)
      case (_, Missing) => (s, None)
      case (Unverified(left), Unverified(right)) =>
        if s[i].digest == h.node(left, right) then
          var s1 := s[l := Verified(left)][r := Verified(right)];
          (Validate(h, Validate(h, s1, l).0, r).0, Some(true))
        else
          (s[l := Missing][r := Missing], Some(false))
      case (_, _) => (s, None)
  }

  // ---------- The invariant

  /** Siblings are verified together, under a verified parent whose digest is the hash of theirs. */
  ghost predicate PairSound(h: Hashing, s: Nodes, i: nat)
    requires IsBranch(s, i)
  {
    var l, r := s[2 * i + 1], s[2 * i + 2];
    && (l.Verified? <==> r.Verified?)
    && (l.Verified? ==> s[i].Verified? && s[i].digest == h.node(l.digest, r.digest))
  }

  ghost predicate Sound(h: Hashing, s: Nodes) {
    s[0].Verified? && forall i: nat :: IsBranch(s, i) ==> PairSound(h, s, i)
  }

  /** No verified node has two proposals below it that nobody has checked. */
  ghost predicate Settled(s: Nodes, i: nat)
    requires IsBranch(s, i)
  {
    !(s[i].Verified? && s[2 * i + 1].Unverified? && s[2 * i + 2].Unverified?)
  }

  ghost predicate Inv(h: Hashing, s: Nodes) {
    Sound(h, s) && forall i: nat :: IsBranch(s, i) ==> Settled(s, i)
  }

  ghost predicate ChildrenUnverified(s: Nodes, i: nat) {
    IsBranch(s, i) ==> !s[2 * i + 1].Verified? && !s[2 * i + 2].Verified?
  }

  /** Verified nodes stay as they are. */
  ghost predicate Kept(s: Nodes, s': Nodes) {
    |s| == |s'| && forall j :: 0 <= j < |s| && s[j].Verified? ==> s'[j] == s[j]
  }

  /** `j` lies strictly below `i` in the tree. */
  ghost predicate Below(i: nat, j: nat)
    decreases j
  {
    j > i && ((j - 1) / 2 == i || Below(i, (j - 1) / 2))
  }

  lemma {:induction false} BelowSibling(i: nat, j: nat)
    requires Below(2 * i + 1, j)
    ensures Below(i, j) && !Below(2 * i + 2, j) && j != 2 * i + 2
    decreases j
  {
    if (j - 1) / 2 != 2 * i + 1 {
      BelowSibling(i, (j - 1) / 2);
    } else {
      assert Below(i, 2 * i + 1);
    }
  }

  lemma {:induction false} BelowRight(i: nat, j: nat)
    requires Below(2 * i + 2, j)
    ensures Below(i, j)
    decreases j
  {
    if (j - 1) / 2 != 2 * i + 2 {
      BelowRight(i, (j - 1) / 2);
    } else {
      assert Below(i, 2 * i + 2);
    }
  }

  /** What a validation leaves behind. */
  ghost predicate Validated(h: Hashing, s: Nodes, i: nat, s': Nodes) {
    && Sound(h, s') && Kept(s, s')
    && (forall j :: 0 <= j < |s| && !Below(i, j) ==> s'[j] == s[j])
    && (forall j: nat :: IsBranch(s, j) && (j == i || Settled(s, j)) ==> Settled(s', j))
  }

  lemma MarkPair(h: Hashing, s: Nodes, i: nat) returns (s': Nodes)
    requires Sound(h, s) && IsBranch(s, i) && s[i].Verified?
    requires s[2 * i + 1].Unverified? && s[2 * i + 2].Unverified?
    requires s[i].digest == h.node(s[2 * i + 1].digest, s[2 * i + 2].digest)
    ensures s' == s[2 * i + 1 := Verified(s[2 * i + 1].digest)][2 * i + 2 := Verified(s[2 * i + 2].digest)]
    ensures Sound(h, s') && Kept(s, s')
    ensures ChildrenUnverified(s', 2 * i + 1) && ChildrenUnverified(s', 2 * i + 2)
    ensures forall j: nat ::
      IsBranch(s, j) && j != 2 * i + 1 && j != 2 * i + 2 && (j == i || Settled(s, j)) ==> Settled(s', j)
  {
    var l, r := 2 * i + 1, 2 * i + 2;
    s' := s[l := Verified(s[l].digest)][r := Verified(s[r].digest)];
    if IsBranch(s, l) { assert PairSound(h, s, l); }
    if IsBranch(s, r) { assert PairSound(h, s, r); }
    forall j: nat | IsBranch(s', j)
      ensures PairSound(h, s', j)
    {
      assert PairSound(h, s, j);
    }
  }

  /** Checking the left subtree leaves the children of the right sibling as they were. */
  lemma RightUntouched(h: Hashing, s: Nodes, s': Nodes, i: nat)
    requires IsBranch(s, i) && Validated(h, s, 2 * i + 1, s') && |s| == |s'|
    requires ChildrenUnverified(s, 2 * i + 2)
    ensures ChildrenUnverified(s', 2 * i + 2)
  {
    var l, r := 2 * i + 1, 2 * i + 2;
    if IsBranch(s, r) {
      assert Below(r, 2 * r + 1) && Below(r, 2 * r + 2);
      if Below(l, 2 * r + 1) { BelowSibling(i, 2 * r + 1); }
      if Below(l, 2 * r + 2) { BelowSibling(i, 2 * r + 2); }
    }
  }

  /** Marking a pair and then checking below each of its members is a validation of the pair's parent. */
  lemma BothSides(h: Hashing, s: Nodes, s1: Nodes, s2: Nodes, s3: Nodes, i: nat)
    requires IsBranch(s, i) && |s| == |s1| == |s2| == |s3| && Kept(s, s1)
    requires forall j :: 0 <= j < |s| && j != 2 * i + 1 && j != 2 * i + 2 ==> s1[j] == s[j]
    requires forall j: nat ::
      IsBranch(s, j) && j != 2 * i + 1 && j != 2 * i + 2 && (j == i || Settled(s, j)) ==> Settled(s1, j)
    requires Validated(h, s1, 2 * i + 1, s2) && Validated(h, s2, 2 * i + 2, s3)
    ensures Validated(h, s, i, s3)
  {
    var l, r := 2 * i + 1, 2 * i + 2;
    forall j
      ensures Below(l, j) || Below(r, j) ==> Below(i, j)
    {
      if Below(l, j) { BelowSibling(i, j); }
      if Below(r, j) { BelowRight(i, j); }
    }
    assert Below(i, l) && Below(i, r);
  }

  lemma {:induction false} ValidateKeepsSound(h: Hashing, s: Nodes, i: nat)
    requires Sound(h, s) && ChildrenUnverified(s, i)
    ensures Validated(h, s, i, Validate(h, s, i).0)
    decreases |s| - i
  {
    if IsBranch(s, i) && s[i].Verified? && s[2 * i + 1].Unverified? && s[2 * i + 2].Unverified? {
      var l, r := 2 * i + 1, 2 * i + 2;
      if s[i].digest == h.node(s[l].digest, s[r].digest) {
        var s1 := MarkPair(h, s, i);
        var s2 := Validate(h, s1, l).0;
        ValidateKeepsSound(h, s1, l);
        RightUntouched(h, s1, s2, i);
        ValidateKeepsSound(h, s2, r);
        BothSides(h, s, s1, s2, Validate(h, s2, r).0, i);
      } else {
        DropPair(h, s, i);
      }
    }
  }

  lemma DropPair(h: Hashing, s: Nodes, i: nat)
    requires Sound(h, s) && IsBranch(s, i) && ChildrenUnverified(s, i)
    ensures Validated(h, s, i, s[2 * i + 1 := Missing][2 * i + 2 := Missing])
  {
    var l, r := 2 * i + 1, 2 * i + 2;
    var s' := s[l := Missing][r := Missing];
    assert Below(i, l) && Below(i, r);
    forall j: nat | IsBranch(s', j)
      ensures PairSound(h, s', j)
    {
      assert PairSound(h, s, j);
    }
  }

  // ---------- Proposing digests

  /** Records a proposal and checks it with its sibling; `false` means that the proposal was refused. */
  function Set(h: Hashing, s: Nodes, index: nat, value: Digest): (Nodes, bool) {
    if index >= |s| then (s, false)
    else match s[index]
      case Missing =>
        if index == 0 then (s, true)
        else
          var v := Validate(h, s[index := Unverified(value)], (index - 1) / 2);
          (v.0, v.1.None? || v.1.value)
      case Unverified(_) => (s, true)
      case Verified(prev) => (s, prev == value)
  }

  lemma SetKeepsInv(h: Hashing, s: Nodes, index: nat, value: Digest)
    requires Inv(h, s)
    ensures Inv(h, Set(h, s, index, value).0) && Kept(s, Set(h, s, index, value).0)
  {
    if index < |s| && s[index].Missing? {
      var p := (index - 1) / 2;
      assert IsBranch(s, p) && PairSound(h, s, p);
      var s1: Nodes := s[index := Unverified(value)];
      forall j: nat | IsBranch(s1, j)
        ensures PairSound(h, s1, j) && (j == p || Settled(s1, j))
      {
        assert PairSound(h, s, j) && Settled(s, j);
      }
      ValidateKeepsSound(h, s1, p);
    }
  }

  /** A proposal is refused exactly if it is out of range, contradicts a verified digest, or fails with its sibling. */
  lemma SetVerdict(h: Hashing, s: Nodes, index: nat, value: Digest)
    requires Inv(h, s)
    ensures !Set(h, s, index, value).1 <==>
      || index >= |s|
      || (s[index].Verified? && s[index].digest != value)
      || (s[index].Missing? && FailsWithSibling(h, s, index, value))
  {
    if index < |s| && s[index].Missing? {
      assert IsBranch(s, (index - 1) / 2) && PairSound(h, s, (index - 1) / 2);
    }
  }

  ghost predicate FailsWithSibling(h: Hashing, s: Nodes, index: nat, value: Digest)
    requires index < |s|
  {
    index > 0 &&
    var p := (index - 1) / 2;
    var sibling := if index % 2 == 1 then index + 1 else index - 1;
    && s[p].Verified? && !s[sibling].Missing?
    && s[p].digest != (if index % 2 == 1 then h.node(value, s[sibling].digest) else h.node(s[sibling].digest, value))
  }

  datatype Proposal = Proposal(index: nat, digest: Digest)

  function SetAll(h: Hashing, s: Nodes, ps: seq<Proposal>): (s': Nodes)
    ensures |s'| == |s|
    decreases |ps|
  {
    if ps == [] then s else SetAll(h, Set(h, s, ps[0].index, ps[0].digest).0, ps[1..])
  }

  lemma NewIsInv(h: Hashing, root: Digest, leafCount: nat)
    requires leafCount >= 1
    ensures Inv(h, NewWithCapacity(root, leafCount))
  {
  }

  /** Whatever peers propose, the invariant holds and verified digests never change. */
  lemma {:induction false} RunKeepsInv(h: Hashing, s: Nodes, ps: seq<Proposal>)
    requires Inv(h, s)
    ensures Inv(h, SetAll(h, s, ps)) && Kept(s, SetAll(h, s, ps))
    decreases |ps|
  {
    if ps != [] {
      SetKeepsInv(h, s, ps[0].index, ps[0].digest);
      RunKeepsInv(h, Set(h, s, ps[0].index, ps[0].digest).0, ps[1..]);
    }
  }

  /** What is verified is verified all the way up. */
  lemma VerifiedAbove(h: Hashing, s: Nodes, i: nat)
    requires Sound(h, s) && 0 < i < |s| && s[i].Verified?
    ensures s[(i - 1) / 2].Verified?
  {
    assert IsBranch(s, (i - 1) / 2) && PairSound(h, s, (i - 1) / 2);
  }

  // ---------- What a proposal changes

  /** A verified parent does not hash to the two proposals for its children, and so both of them are gone. */
  ghost predicate PairRefuted(h: Hashing, s: Nodes, s': Nodes, i: nat) {
    && IsBranch(s, i) && |s'| == |s|
    && s[2 * i + 1].Unverified? && s[2 * i + 2].Unverified? && s'[2 * i + 1].Missing? && s'[2 * i + 2].Missing?
    && s'[i].Verified? && s'[i].digest != h.node(s[2 * i + 1].digest, s[2 * i + 2].digest)
  }

  /** A node stays as it is, or is verified as it was proposed, or is dropped because its pair is refuted. */
  ghost predicate NodeFate(h: Hashing, s: Nodes, s': Nodes, j: nat)
    requires j < |s| == |s'|
  {
    || s'[j] == s[j]
    || (s[j].Unverified? && s'[j] == Verified(s[j].digest))
    || (s[j].Unverified? && s'[j].Missing? && j > 0 && PairRefuted(h, s, s', (j - 1) / 2))
  }

  ghost predicate Traced(h: Hashing, s: Nodes, s': Nodes) {
    |s| == |s'| && forall j :: 0 <= j < |s| ==> NodeFate(h, s, s', j)
  }

  lemma PairTraced(h: Hashing, s: Nodes, i: nat)
    requires IsBranch(s, i) && s[i].Verified? && s[2 * i + 1].Unverified? && s[2 * i + 2].Unverified?
    ensures var l, r := 2 * i + 1, 2 * i + 2;
      && Traced(h, s, s[l := Verified(s[l].digest)][r := Verified(s[r].digest)])
      && (s[i].digest != h.node(s[l].digest, s[r].digest) ==> Traced(h, s, s[l := Missing][r := Missing]))
  {
    if s[i].digest != h.node(s[2 * i + 1].digest, s[2 * i + 2].digest) {
      assert PairRefuted(h, s, s[2 * i + 1 := Missing][2 * i + 2 := Missing], i);
    }
  }

  /** A pair is verified, and then first the part below its left member is checked and then that below its right one. */
  ghost predicate InTurn(h: Hashing, s: Nodes, s1: Nodes, s2: Nodes, s3: Nodes, i: nat) {
    && IsBranch(s, i) && |s| == |s1| == |s2| == |s3|
    && s[2 * i + 1].Unverified? && s[2 * i + 2].Unverified?
    && s1 == s[2 * i + 1 := Verified(s[2 * i + 1].digest)][2 * i + 2 := Verified(s[2 * i + 2].digest)]
    && Traced(h, s1, s2) && (forall j :: 0 <= j < |s| && !Below(2 * i + 1, j) ==> s2[j] == s1[j])
    && Traced(h, s2, s3) && (forall j :: 0 <= j < |s| && !Below(2 * i + 2, j) ==> s3[j] == s2[j])
  }

  /** A pair that is refuted on either side of the tree is refuted on the whole. */
  lemma RefutedInTurn(h: Hashing, s: Nodes, s1: Nodes, s2: Nodes, s3: Nodes, i: nat, q: nat)
    requires InTurn(h, s, s1, s2, s3, i) && (PairRefuted(h, s1, s2, q) || PairRefuted(h, s2, s3, q))
    ensures PairRefuted(h, s, s3, q)
  {
    forall c | c == 2 * q + 1 || c == 2 * q + 2
      ensures s[c].Unverified? && s3[c].Missing?
      ensures PairRefuted(h, s1, s2, q) ==> s[c] == s1[c]
      ensures PairRefuted(h, s2, s3, q) ==> s[c] == s2[c]
    {
      if Below(2 * i + 1, c) { BelowSibling(i, c); }
    }
    assert NodeFate(h, s2, s3, q);
  }

  lemma TracedInTurn(h: Hashing, s: Nodes, s1: Nodes, s2: Nodes, s3: Nodes, i: nat)
    requires InTurn(h, s, s1, s2, s3, i)
    ensures Traced(h, s, s3)
  {
    hide PairRefuted, Below;
    forall j | 0 <= j < |s|
      ensures NodeFate(h, s, s3, j)
    {
      assert NodeFate(h, s1, s2, j) && NodeFate(h, s2, s3, j);
      if j > 0 && (PairRefuted(h, s1, s2, (j - 1) / 2) || PairRefuted(h, s2, s3, (j - 1) / 2)) {
        RefutedInTurn(h, s, s1, s2, s3, i, (j - 1) / 2);
      }
    }
  }

  lemma {:induction false} ValidateTraced(h: Hashing, s: Nodes, i: nat)
    requires Sound(h, s) && ChildrenUnverified(s, i)
    ensures Traced(h, s, Validate(h, s, i).0)
    decreases |s| - i
  {
    hide Sound, Traced, Below;
    if IsBranch(s, i) && s[i].Verified? && s[2 * i + 1].Unverified? && s[2 * i + 2].Unverified? {
      var l, r := 2 * i + 1, 2 * i + 2;
      PairTraced(h, s, i);
      if s[i].digest == h.node(s[l].digest, s[r].digest) {
        var s1 := MarkPair(h, s, i);
        var s2 := Validate(h, s1, l).0;
        ValidateKeepsSound(h, s1, l);
        RightUntouched(h, s1, s2, i);
        ValidateKeepsSound(h, s2, r);
        ValidateTraced(h, s1, l);
        ValidateTraced(h, s2, r);
        TracedInTurn(h, s, s1, s2, Validate(h, s2, r).0, i);
      }
    } else {
      NothingTraced(h, s);
    }
  }

  lemma NothingTraced(h: Hashing, s: Nodes)
    ensures Traced(h, s, s)
  {
  }

  /**
    What a proposal does to the tree. It is recorded only where a digest is missing, so the first one stands; and then
    every node stays as it is, or is verified as proposed, or is dropped together with its sibling because a verified
    parent does not hash to the two.
   */
  lemma SetTraced(h: Hashing, s: Nodes, index: nat, value: Digest)
    requires Inv(h, s)
    ensures var recorded: Nodes := if index < |s| && s[index].Missing? then s[index := Unverified(value)] else s;
      Traced(h, recorded, Set(h, s, index, value).0)
  {
    if index < |s| && s[index].Missing? {
      var p := (index - 1) / 2;
      assert IsBranch(s, p) && PairSound(h, s, p);
      var s1: Nodes := s[index := Unverified(value)];
      forall j: nat | IsBranch(s1, j)
        ensures PairSound(h, s1, j)
      {
        assert PairSound(h, s, j);
      }
      ValidateTraced(h, s1, p);
    } else {
      NothingTraced(h, s);
    }
  }

  // ---------- Completion

  predicate Complete(s: Nodes) {
    forall i :: 0 <= i < |s| ==> s[i].Verified?
  }

  function TryComplete(s: Nodes): Option<seq<Digest>> {
    if Complete(s) then Some(seq<Digest>(|s|, i requires 0 <= i < |s| => s[i].digest)) else None
  }

  function MissingUpTo(s: Nodes, n: nat): seq<nat>
    requires n <= |s|
  {
    if n == 0 then [] else MissingUpTo(s, n - 1) + (if s[n - 1].Missing? then [n - 1] else [])
  }

  /** The indices still to be asked for, in order. */
  function MissingIndices(s: Nodes): seq<nat> {
    MissingUpTo(s, |s|)
  }

  lemma {:induction false} MissingUpToMembers(s: Nodes, n: nat)
    requires n <= |s|
    ensures forall i :: i in MissingUpTo(s, n) <==> 0 <= i < n && s[i].Missing?
    ensures forall i, j :: 0 <= i < j < |MissingUpTo(s, n)| ==> MissingUpTo(s, n)[i] < MissingUpTo(s, n)[j]
  {
    if n > 0 {
      MissingUpToMembers(s, n - 1);
      var init := MissingUpTo(s, n - 1);
      assert forall k :: 0 <= k < |init| ==> init[k] in init;
    }
  }

  lemma {:induction false} NothingMissingMeansVerified(h: Hashing, s: Nodes, i: nat)
    requires Inv(h, s) && i < |s| && forall j :: 0 <= j < |s| ==> !s[j].Missing?
    ensures s[i].Verified?
    decreases i
  {
    if i > 0 {
      var p := (i - 1) / 2;
      NothingMissingMeansVerified(h, s, p);
      assert IsBranch(s, p) && PairSound(h, s, p) && Settled(s, p);
    }
  }

  /** The tree can be completed exactly when there is nothing left to ask for. */
  lemma CompleteIffNothingMissing(h: Hashing, s: Nodes)
    requires Inv(h, s)
    ensures TryComplete(s).Some? <==> MissingIndices(s) == []
  {
    MissingUpToMembers(s, |s|);
    if MissingIndices(s) == [] {
      forall i | 0 <= i < |s|
        ensures s[i].Verified?
      {
        assert forall j :: 0 <= j < |s| && s[j].Missing? ==> j in MissingIndices(s);
        NothingMissingMeansVerified(h, s, i);
      }
    }
    if MissingIndices(s) != [] { assert MissingIndices(s)[0] in MissingIndices(s); }
  }

  /** Whatever was proposed, a verified digest is the true one, if nodes do not collide. */
  lemma {:induction false} VerifiedIsTrue(h: Hashing, s: Nodes, truth: seq<Digest>, i: nat)
    requires NodesCollisionFree(h) && Sound(h, s) && Hashed(h, truth)
    requires |truth| == |s| && s[0].digest == truth[0] && i < |s| && s[i].Verified?
    ensures s[i].digest == truth[i]
    decreases i
  {
    if i > 0 {
      var p := (i - 1) / 2;
      VerifiedAbove(h, s, i);
      VerifiedIsTrue(h, s, truth, p);
      assert IsBranch(s, p) && PairSound(h, s, p) && BranchHashed(h, truth, p);
    }
  }

  /** A completed tree is the tree of the true leaves. */
  lemma CompletedIsOriginal(h: Hashing, s: Nodes, leaves: seq<Digest>)
    requires NodesCollisionFree(h) && Inv(h, s) && leaves != [] && |s| == NodeCount(|leaves|)
    requires s[0].digest == Build(h, leaves)[0] && TryComplete(s).Some?
    ensures TryComplete(s).value == Build(h, leaves)
  {
    BuildLayout(h, leaves, Build(h, leaves));
    forall i | 0 <= i < |s|
      ensures s[i].digest == Build(h, leaves)[i]
    {
      VerifiedIsTrue(h, s, Build(h, leaves), i);
    }
  }

  // ---------- Honest peers

  ghost predicate Agrees(s: Nodes, truth: seq<Digest>) {
    |s| == |truth| && forall j :: 0 <= j < |s| && !s[j].Missing? ==> s[j].digest == truth[j]
  }

  ghost predicate SameMissing(s: Nodes, s': Nodes) {
    |s| == |s'| && forall j :: 0 <= j < |s| ==> (s[j].Missing? <==> s'[j].Missing?)
  }

  lemma TruePairPasses(h: Hashing, s: Nodes, i: nat, truth: seq<Digest>)
    requires Agrees(s, truth) && Hashed(h, truth) && IsBranch(s, i)
    requires !s[i].Missing? && !s[2 * i + 1].Missing? && !s[2 * i + 2].Missing?
    ensures s[i].digest == h.node(s[2 * i + 1].digest, s[2 * i + 2].digest)
    ensures Agrees(Marked(s, i), truth) && SameMissing(s, Marked(s, i))
  {
    assert BranchHashed(h, truth, i);
  }

  ghost predicate Checkable(s: Nodes, i: nat) {
    IsBranch(s, i) && s[i].Verified? && s[2 * i + 1].Unverified? && s[2 * i + 2].Unverified?
  }

  function Marked(s: Nodes, i: nat): Nodes
    requires IsBranch(s, i) && !s[2 * i + 1].Missing? && !s[2 * i + 2].Missing?
  {
    s[2 * i + 1 := Verified(s[2 * i + 1].digest)][2 * i + 2 := Verified(s[2 * i + 2].digest)]
  }

  /** The cases of a validation. */
  lemma ValidateCases(h: Hashing, s: Nodes, i: nat)
    ensures !Checkable(s, i) ==> Validate(h, s, i) == (s, None)
    ensures Checkable(s, i) && s[i].digest == h.node(s[2 * i + 1].digest, s[2 * i + 2].digest) ==>
      Validate(h, s, i) == (Validate(h, Validate(h, Marked(s, i), 2 * i + 1).0, 2 * i + 2).0, Some(true))
  {
  }

  lemma {:induction false} TrueDigestsPass(h: Hashing, s: Nodes, i: nat, truth: seq<Digest>)
    requires Agrees(s, truth) && Hashed(h, truth)
    ensures Agrees(Validate(h, s, i).0, truth) && SameMissing(s, Validate(h, s, i).0)
    ensures Validate(h, s, i).1 != Some(false)
    decreases |s| - i
  {
    hide Validate;
    ValidateCases(h, s, i);
    if Checkable(s, i) {
      TruePairPasses(h, s, i, truth);
      var s1 := Marked(s, i);
      TrueDigestsPass(h, s1, 2 * i + 1, truth);
      var s2 := Validate(h, s1, 2 * i + 1).0;
      TrueDigestsPass(h, s2, 2 * i + 2, truth);
    }
  }

  lemma TrueProposal(h: Hashing, s: Nodes, index: nat, truth: seq<Digest>)
    requires Inv(h, s) && Agrees(s, truth) && Hashed(h, truth) && index < |truth|
    ensures var (s', ok) := Set(h, s, index, truth[index]);
      && Agrees(s', truth) && ok && !s'[index].Missing?
      && (forall j :: 0 <= j < |s| && !s[j].Missing? ==> !s'[j].Missing?)
  {
    if s[index].Missing? {
      TrueDigestsPass(h, s[index := Unverified(truth[index])], (index - 1) / 2, truth);
    }
  }

  lemma {:induction false} TrueProposals(h: Hashing, s: Nodes, ps: seq<Proposal>, truth: seq<Digest>)
    requires Inv(h, s) && Agrees(s, truth) && Hashed(h, truth)
    requires forall p :: p in ps ==> p.index < |truth| && p.digest == truth[p.index]
    ensures var s' := SetAll(h, s, ps);
      && Agrees(s', truth)
      && (forall p :: p in ps ==> !s'[p.index].Missing?)
      && (forall j :: 0 <= j < |s| && !s[j].Missing? ==> !s'[j].Missing?)
    decreases |ps|
  {
    if ps != [] {
      var p := ps[0];
      assert p in ps;
      TrueProposal(h, s, p.index, truth);
      SetKeepsInv(h, s, p.index, p.digest);
      TrueProposals(h, Set(h, s, p.index, p.digest).0, ps[1..], truth);
      assert forall q :: q in ps ==> q == p || q in ps[1..];
    }
  }

  ghost predicate Supplied(ps: seq<Proposal>, i: nat) {
    exists p :: p in ps && p.index == i
  }

  /** True digests, in any order, complete the tree as soon as every missing one has been supplied. */
  lemma TrueDigestsComplete(h: Hashing, root: Digest, leaves: seq<Digest>, ps: seq<Proposal>)
    requires leaves != [] && root == Build(h, leaves)[0]
    requires forall p :: p in ps ==> p.index < NodeCount(|leaves|) && p.digest == Build(h, leaves)[p.index]
    requires forall i :: 0 < i < NodeCount(|leaves|) ==> Supplied(ps, i)
    ensures TryComplete(SetAll(h, NewWithCapacity(root, |leaves|), ps)) == Some(Build(h, leaves))
  {
    var truth := Build(h, leaves);
    var s := NewWithCapacity(root, |leaves|);
    BuildLayout(h, leaves, truth);
    NewIsInv(h, root, |leaves|);
    TrueProposals(h, s, ps, truth);
    RunKeepsInv(h, s, ps);
    var s' := SetAll(h, s, ps);
    forall i | 0 <= i < |s'|
      ensures !s'[i].Missing?
    {
      if i > 0 {
        assert Supplied(ps, i);
        var p :| p in ps && p.index == i;
      }
    }
    forall i | 0 <= i < |s'|
      ensures s'[i].Verified?
    {
      NothingMissingMeansVerified(h, s', i);
    }
    assert TryComplete(s').value == truth;
  }

  // ---------- The object

  class PartialTree {
    const nodes: array<Potential>

    ghost predicate Valid(h: Hashing)
      reads nodes
    {
      nodes.Length % 2 == 1 && Inv(h, nodes[..])
    }

    constructor (ghost h: Hashing, root: Digest, leafCount: nat)
      requires leafCount >= 1
      ensures Valid(h) && fresh(nodes)
      ensures nodes[..] == NewWithCapacity(root, leafCount)
    {
      var a := new Potential[NodeCount(leafCount)](_ => Missing);
      a[0] := Verified(root);
      nodes := a;
      NewIsInv(h, root, leafCount);
      new;
      assert nodes[..] == NewWithCapacity(root, leafCount);
    }

    /** Neither branch that the source calls unreachable is reached. */
    method Propose(h: Hashing, index: nat, value: Digest) returns (ok: bool)
      requires Valid(h)
      modifies nodes
      ensures Valid(h)
      ensures (nodes[..], ok) == Set(h, old(nodes[..]), index, value)
    {
      ghost var before: Nodes := nodes[..];
      SetKeepsInv(h, before, index, value);
      if index >= nodes.Length { return false; }
      match nodes[index] {
        case Missing =>
          nodes[index] := Unverified(value);
        case Unverified(_) =>
          return true;
        case Verified(prev) =>
          return prev == value;
      }
      if index == 0 { assert false; }
      var p := (index - 1) / 2;
      ghost var s1: Nodes := before[index := Unverified(value)];
      assert nodes[..] == s1;
      assert IsBranch(before, p) && PairSound(h, before, p);
      forall j: nat | IsBranch(s1, j)
        ensures PairSound(h, s1, j)
      {
        assert PairSound(h, before, j);
      }
      var r := ValidateChildren(h, p);
      ok := r.None? || r.value;
    }

    method ValidateChildren(h: Hashing, index: nat) returns (r: Option<bool>)
      requires nodes.Length % 2 == 1 && index < nodes.Length
      requires Sound(h, nodes[..]) && ChildrenUnverified(nodes[..], index)
      modifies nodes
      ensures (nodes[..], r) == Validate(h, old(nodes[..]), index)
      decreases nodes.Length - index
    {
      ghost var s: Nodes := nodes[..];
      if index >= (nodes.Length + 1) / 2 - 1 { return None; }
      if !nodes[index].Verified? { return None; }
      var expected := nodes[index].digest;
      var l, r' := 2 * index + 1, 2 * index + 2;
      if nodes[l].Missing? || nodes[r'].Missing? { return None; }
      if !nodes[l].Unverified? || !nodes[r'].Unverified? { assert false; }
      var left, right := nodes[l].digest, nodes[r'].digest;
      if expected == h.node(left, right) {
        nodes[l] := Verified(left);
        nodes[r'] := Verified(right);
        ghost var s1 := MarkPair(h, s, index);
        assert nodes[..] == s1;
        var _ := ValidateChildren(h, l);
        ghost var s2: Nodes := nodes[..];
        ValidateKeepsSound(h, s1, l);
        RightUntouched(h, s1, s2, index);
        var _ := ValidateChildren(h, r');
        r := Some(true);
      } else {
        nodes[l] := Missing;
        nodes[r'] := Missing;
        assert nodes[..] == s[l := Missing][r' := Missing];
        r := Some(false);
      }
    }
  }
}
