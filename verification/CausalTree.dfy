/** The causal tree of a text: atoms ordered among their siblings by time. */
module CausalTree {
  import opened Common
  import opened Time
  import opened Convergence

  /** `Root` marks the atom a tree is created with. */
  datatype Letter<A> = Letter(letter: A) | Delete | Root

  datatype Atom<T, A> = Atom(id: T, letter: Letter<A>)

  datatype Tree<T, A> = Tree(atom: Atom<T, A>, children: seq<Tree<T, A>>)

  datatype TreeOp<T, A> = TreeOp(parentId: T, atom: Atom<T, A>)

  /** Letters come first, then deletions, then roots; `cmp` is the comparison of times with its tiebreak. */
  function CompareAtom<T, A>(cmp: Comparison<T>, a1: Atom<T, A>, a2: Atom<T, A>): Ordering {
    match (a1.letter, a2.letter)
    case (Root, Root) => cmp(a1.id, a2.id)
    case (_, Root) => Less
    case (Root, _) => Greater
    case (Delete, Delete) => cmp(a1.id, a2.id)
    case (_, Delete) => Less
    case (Delete, _) => Greater
    case (_, _) => cmp(a1.id, a2.id)
  }

  /** Inserts a leaf among sorted siblings; `None` is the failure on an equal atom. */
  function InsertAtom<T, A>(cmp: Comparison<T>, cs: seq<Tree<T, A>>, atom: Atom<T, A>): Option<seq<Tree<T, A>>> {
    if cs == [] then Some([Tree(atom, [])])
    else match CompareAtom(cmp, cs[0].atom, atom)
      case Equal => None
      case Greater => Some([Tree(atom, [])] + cs)
      case Less =>
        match InsertAtom(cmp, cs[1..], atom)
        case None => None
        case Some(rest) => Some([cs[0]] + rest)
  }

  /** The new tree, and whether the operation found its parent; `None` is the failure of `InsertAtom`. */
  function InsertInWeave<T(==), A>(cmp: Comparison<T>, t: Tree<T, A>, op: TreeOp<T, A>): Option<(Tree<T, A>, bool)>
    decreases t
  {
    if t.atom.id == op.parentId then
      match InsertAtom(cmp, t.children, op.atom)
      case None => None
      case Some(cs) => Some((t.(children := cs), true))
    else
      match InsertInChildren(cmp, t.children, op)
      case None => None
      case Some((cs, found)) => Some((t.(children := cs), found))
  }

  function InsertInChildren<T(==), A>(cmp: Comparison<T>, cs: seq<Tree<T, A>>, op: TreeOp<T, A>)
    : Option<(seq<Tree<T, A>>, bool)>
    decreases cs
  {
    if cs == [] then Some(([], false))
    else match InsertInWeave(cmp, cs[0], op)
      case None => None
      case Some((c, true)) => Some(([c] + cs[1..], true))
      case Some((c, false)) =>
        match InsertInChildren(cmp, cs[1..], op)
        case None => None
        case Some((rest, found)) => Some(([c] + rest, found))
  }

  /** `apply`: an operation whose parent is missing is a failure. */
  function Apply<T(==), A>(cmp: Comparison<T>, t: Option<Tree<T, A>>, op: TreeOp<T, A>): Option<Tree<T, A>> {
    if t.None? then None
    else
      var r := InsertInWeave(cmp, t.value, op);
      if r.Some? && r.value.1 then Some(r.value.0) else None
  }

  // ---------- Atoms, order

  ghost function Atoms<T, A>(t: Tree<T, A>): multiset<Atom<T, A>>
    decreases t
  {
    multiset{t.atom} + AtomsOf(t.children)
  }

  ghost function AtomsOf<T, A>(cs: seq<Tree<T, A>>): multiset<Atom<T, A>>
    decreases cs
  {
    if cs == [] then multiset{} else Atoms(cs[0]) + AtomsOf(cs[1..])
  }

  /** Every atom but that of the root, with the id of the atom it hangs below. */
  ghost function Edges<T, A>(t: Tree<T, A>): multiset<(T, Atom<T, A>)>
    decreases t
  {
    EdgesBelow(t.atom.id, t.children)
  }

  ghost function EdgesBelow<T, A>(id: T, cs: seq<Tree<T, A>>): multiset<(T, Atom<T, A>)>
    decreases cs
  {
    if cs == [] then multiset{} else multiset{(id, cs[0].atom)} + Edges(cs[0]) + EdgesBelow(id, cs[1..])
  }

  ghost predicate HasId<T, A>(atoms: multiset<Atom<T, A>>, id: T) {
    exists a :: a in atoms && a.id == id
  }

  ghost predicate Sorted<T, A>(cmp: Comparison<T>, cs: seq<Tree<T, A>>) {
    forall i, j :: 0 <= i < j < |cs| ==> CompareAtom(cmp, cs[i].atom, cs[j].atom) == Less
  }

  /** Every list of siblings is strictly sorted. */
  ghost predicate SortedTree<T, A>(cmp: Comparison<T>, t: Tree<T, A>)
    decreases t
  {
    Sorted(cmp, t.children) && SortedForest(cmp, t.children)
  }

  ghost predicate SortedForest<T, A>(cmp: Comparison<T>, cs: seq<Tree<T, A>>)
    decreases cs
  {
    cs == [] || (SortedTree(cmp, cs[0]) && SortedForest(cmp, cs[1..]))
  }

  lemma CompareAtomIsOrder<T(!new), A(!new)>(cmp: Comparison<T>)
    requires TotalOrder(cmp)
    ensures forall a: Atom<T, A>, b: Atom<T, A> :: CompareAtom(cmp, a, b) == Less <==> CompareAtom(cmp, b, a) == Greater
    ensures forall a: Atom<T, A>, b: Atom<T, A> :: CompareAtom(cmp, a, b) == Equal ==> a.id == b.id
    ensures forall a: Atom<T, A>, b: Atom<T, A>, c: Atom<T, A> ::
      CompareAtom(cmp, a, b) == Less && CompareAtom(cmp, b, c) == Less ==> CompareAtom(cmp, a, c) == Less
  {
  }

  function Kind<A>(letter: Letter<A>): nat {
    match letter
    case Letter(_) => 0
    case Delete => 1
    case Root => 2
  }

  /** Siblings are sorted exactly if letters precede deletions and these roots, and each kind is in order of time. */
  lemma SortedByKindAndTime<T(!new), A(!new)>(cmp: Comparison<T>, cs: seq<Tree<T, A>>)
    ensures Sorted(cmp, cs) <==> forall i, j :: 0 <= i < j < |cs| ==>
      var a, b := cs[i].atom, cs[j].atom;
      Kind(a.letter) < Kind(b.letter) || (Kind(a.letter) == Kind(b.letter) && cmp(a.id, b.id) == Less)
  {
    forall a: Atom<T, A>, b: Atom<T, A>
      ensures CompareAtom(cmp, a, b) == Less <==>
        Kind(a.letter) < Kind(b.letter) || (Kind(a.letter) == Kind(b.letter) && cmp(a.id, b.id) == Less)
    {
    }
  }

  // ---------- One insertion

  /** Among sorted siblings an insertion adds exactly one leaf and keeps them sorted. */
  lemma {:induction false} InsertAtomEffect<T(!new), A(!new)>(cmp: Comparison<T>, cs: seq<Tree<T, A>>, atom: Atom<T, A>)
    requires TotalOrder(cmp) && Sorted(cmp, cs) && SortedForest(cmp, cs)
    ensures InsertAtom(cmp, cs, atom).None? ==> HasId(AtomsOf(cs), atom.id)
    ensures InsertAtom(cmp, cs, atom).Some? ==>
      var cs' := InsertAtom(cmp, cs, atom).value;
      && AtomsOf(cs') == AtomsOf(cs) + multiset{atom}
      && Sorted(cmp, cs') && SortedForest(cmp, cs')
      && (forall c :: c in cs' ==> c in cs || c == Tree(atom, []))
    decreases |cs|
  {
    hide CompareAtom, SortedTree, Atoms;
    CompareAtomIsOrder<T, A>(cmp);
    LeafAlone<T, A>(cmp, atom);
    if cs == [] {
      assert [Tree(atom, [])] + cs == [Tree(atom, [])];
    } else {
      InsertAtomEffect(cmp, cs[1..], atom);
      match CompareAtom(cmp, cs[0].atom, atom)
      case Equal =>
        FirstAtomThere(cs);
      case Greater =>
        ForestCons(cmp, Tree(atom, []), cs);
        LeafBefore(cmp, cs, atom);
      case Less =>
        HasIdSplit(Atoms(cs[0]), AtomsOf(cs[1..]), atom.id);
        if InsertAtom(cmp, cs[1..], atom).Some? {
          SmallerFirst(cmp, cs, atom, InsertAtom(cmp, cs[1..], atom).value);
        }
    }
  }

  lemma LeafAlone<T, A>(cmp: Comparison<T>, atom: Atom<T, A>)
    ensures var leaf: Tree<T, A> := Tree(atom, []);
      SortedTree(cmp, leaf) && SortedForest(cmp, [leaf]) && AtomsOf([leaf]) == multiset{atom}
  {
    assert [Tree(atom, [])][1..] == [];
  }

  lemma FirstAtomThere<T, A>(cs: seq<Tree<T, A>>)
    requires cs != []
    ensures HasId(AtomsOf(cs), cs[0].atom.id)
  {
    assert cs[0].atom in AtomsOf(cs);
  }

  lemma LeafBefore<T(!new), A(!new)>(cmp: Comparison<T>, cs: seq<Tree<T, A>>, atom: Atom<T, A>)
    requires TotalOrder(cmp) && cs != [] && Sorted(cmp, cs) && CompareAtom(cmp, cs[0].atom, atom) == Greater
    ensures Sorted(cmp, [Tree(atom, [])] + cs)
    ensures Atoms(Tree(atom, [])) == multiset{atom}
  {
    hide CompareAtom;
    CompareAtomIsOrder<T, A>(cmp);
  }

  lemma SmallerFirst<T(!new), A(!new)>(cmp: Comparison<T>, cs: seq<Tree<T, A>>, atom: Atom<T, A>, rest: seq<Tree<T, A>>)
    requires cs != [] && Sorted(cmp, cs) && SortedForest(cmp, cs) && CompareAtom(cmp, cs[0].atom, atom) == Less
    requires Sorted(cmp, rest) && SortedForest(cmp, rest) && AtomsOf(rest) == AtomsOf(cs[1..]) + multiset{atom}
    requires forall c :: c in rest ==> c in cs[1..] || c == Tree(atom, [])
    ensures Sorted(cmp, [cs[0]] + rest) && SortedForest(cmp, [cs[0]] + rest)
    ensures AtomsOf([cs[0]] + rest) == AtomsOf(cs) + multiset{atom}
    ensures forall c :: c in [cs[0]] + rest ==> c in cs || c == Tree(atom, [])
  {
    hide Atoms, CompareAtom, SortedTree;
    ForestCons(cmp, cs[0], rest);
    forall c | c in rest
      ensures CompareAtom(cmp, cs[0].atom, c.atom) == Less && (c in cs || c == Tree(atom, []))
    {
      if c in cs[1..] {
        var k :| 0 <= k < |cs[1..]| && cs[1..][k] == c;
        assert cs[k + 1] == c;
      }
    }
  }

  /** An atom is inserted right below its parent, and nothing else moves. */
  ghost predicate HangsBelowParent<T, A>(t: Tree<T, A>, op: TreeOp<T, A>, r: Option<(Tree<T, A>, bool)>) {
    r.Some? ==>
      && r.value.0.atom == t.atom
      && Edges(r.value.0) == Edges(t) + (if r.value.1 then multiset{(op.parentId, op.atom)} else multiset{})
  }

  lemma EdgesCons<T, A>(id: T, c: Tree<T, A>, cs: seq<Tree<T, A>>)
    ensures EdgesBelow(id, [c] + cs) == multiset{(id, c.atom)} + Edges(c) + EdgesBelow(id, cs)
  {
    assert ([c] + cs)[1..] == cs;
  }

  lemma EdgesOfLeaf<T, A>(id: T, atom: Atom<T, A>, cs: seq<Tree<T, A>>)
    ensures EdgesBelow(id, [Tree(atom, [])] + cs) == EdgesBelow(id, cs) + multiset{(id, atom)}
  {
    EdgesCons(id, Tree(atom, []), cs);
  }

  lemma EdgesStep<T, A>(id: T, c: Tree<T, A>, cs: seq<Tree<T, A>>, c': Tree<T, A>, cs': seq<Tree<T, A>>,
                        first: multiset<(T, Atom<T, A>)>, rest: multiset<(T, Atom<T, A>)>)
    requires c'.atom == c.atom && Edges(c') == Edges(c) + first
    requires EdgesBelow(id, cs') == EdgesBelow(id, cs) + rest
    ensures EdgesBelow(id, [c'] + cs') == EdgesBelow(id, [c] + cs) + (first + rest)
  {
    hide Edges, EdgesBelow;
    EdgesCons(id, c, cs);
    EdgesCons(id, c', cs');
  }

  lemma {:induction false} InsertAtomEdges<T(!new), A(!new)>(cmp: Comparison<T>, cs: seq<Tree<T, A>>,
                                                             atom: Atom<T, A>, id: T)
    ensures var r := InsertAtom(cmp, cs, atom);
      r.Some? ==> EdgesBelow(id, r.value) == EdgesBelow(id, cs) + multiset{(id, atom)}
    decreases |cs|
  {
    hide CompareAtom, Edges, EdgesBelow;
    EdgesOfLeaf(id, atom, cs);
    if cs == [] {
      assert [Tree(atom, [])] + cs == [Tree(atom, [])];
    } else {
      InsertAtomEdges(cmp, cs[1..], atom, id);
      var r := InsertAtom(cmp, cs[1..], atom);
      EdgesCons(id, cs[0], cs[1..]);
      assert [cs[0]] + cs[1..] == cs;
      if r.Some? { EdgesCons(id, cs[0], r.value); }
    }
  }

  lemma {:induction false} InsertEdges<T(!new), A(!new)>(cmp: Comparison<T>, t: Tree<T, A>, op: TreeOp<T, A>)
    ensures HangsBelowParent(t, op, InsertInWeave(cmp, t, op))
    decreases t
  {
    if t.atom.id == op.parentId {
      InsertAtomEdges(cmp, t.children, op.atom, t.atom.id);
    } else {
      InsertInChildrenEdges(cmp, t.children, op, t.atom.id);
    }
  }

  lemma {:induction false} InsertInChildrenEdges<T(!new), A(!new)>(cmp: Comparison<T>, cs: seq<Tree<T, A>>,
                                                                   op: TreeOp<T, A>, id: T)
    ensures var r := InsertInChildren(cmp, cs, op);
      r.Some? ==>
        EdgesBelow(id, r.value.0)
        == EdgesBelow(id, cs) + (if r.value.1 then multiset{(op.parentId, op.atom)} else multiset{})
    decreases cs
  {
    if cs != [] {
      hide Edges, EdgesBelow;
      InsertEdges(cmp, cs[0], op);
      assert [cs[0]] + cs[1..] == cs;
      match InsertInWeave(cmp, cs[0], op)
      case None =>
      case Some((c, true)) =>
        EdgesStep(id, cs[0], cs[1..], c, cs[1..], multiset{(op.parentId, op.atom)}, multiset{});
      case Some((c, false)) =>
        InsertInChildrenEdges(cmp, cs[1..], op, id);
        var r := InsertInChildren(cmp, cs[1..], op);
        if r.Some? {
          var added := if r.value.1 then multiset{(op.parentId, op.atom)} else multiset{};
          EdgesStep(id, cs[0], cs[1..], c, r.value.0, multiset{}, added);
        }
    }
  }

  /** What an insertion does to a tree, in terms of its result. */
  ghost predicate WeaveEffect<T, A>(cmp: Comparison<T>, t: Tree<T, A>, op: TreeOp<T, A>,
                                    r: Option<(Tree<T, A>, bool)>)
  {
    match r
    case None => HasId(Atoms(t), op.atom.id)
    case Some((t', found)) =>
      && (found <==> HasId(Atoms(t), op.parentId))
      && t'.atom == t.atom && SortedTree(cmp, t')
      && (if found then Atoms(t') == Atoms(t) + multiset{op.atom} else t' == t)
  }

  /**
    An insertion finds its parent exactly if the parent is in the tree. It then adds one atom, right below the parent,
    and keeps every list of siblings sorted; otherwise it is handed back and the tree is unchanged. It can fail only on
    an id used before.
   */
  lemma {:induction false} InsertEffect<T(!new), A(!new)>(cmp: Comparison<T>, t: Tree<T, A>, op: TreeOp<T, A>)
    requires TotalOrder(cmp) && SortedTree(cmp, t)
    ensures WeaveEffect(cmp, t, op, InsertInWeave(cmp, t, op))
    ensures HangsBelowParent(t, op, InsertInWeave(cmp, t, op))
    decreases t
  {
    InsertEdges(cmp, t, op);
    hide HangsBelowParent;
    if t.atom.id == op.parentId {
      InsertAtomEffect(cmp, t.children, op.atom);
      assert t.atom in Atoms(t);
      if InsertAtom(cmp, t.children, op.atom).None? {
        var a :| a in AtomsOf(t.children) && a.id == op.atom.id;
        assert a in Atoms(t);
      }
    } else {
      InsertInChildrenEffect(cmp, t.children, op);
      HasIdSplit(multiset{t.atom}, AtomsOf(t.children), op.parentId);
      HasIdSplit(multiset{t.atom}, AtomsOf(t.children), op.atom.id);
      assert !HasId(multiset{t.atom}, op.parentId);
    }
  }

  lemma HasIdSplit<T, A>(a: multiset<Atom<T, A>>, b: multiset<Atom<T, A>>, id: T)
    ensures HasId(a + b, id) <==> HasId(a, id) || HasId(b, id)
  {
    if HasId(a, id) {
      var x :| x in a && x.id == id;
      assert x in a + b;
    }
    if HasId(b, id) {
      var x :| x in b && x.id == id;
      assert x in a + b;
    }
  }

  /** What an insertion does to a list of siblings, in terms of its result. */
  ghost predicate ChildrenEffect<T, A>(cmp: Comparison<T>, cs: seq<Tree<T, A>>, op: TreeOp<T, A>,
                                       r: Option<(seq<Tree<T, A>>, bool)>)
  {
    match r
    case None => HasId(AtomsOf(cs), op.atom.id)
    case Some((cs', found)) =>
      && (found <==> HasId(AtomsOf(cs), op.parentId))
      && |cs'| == |cs| && SortedForest(cmp, cs')
      && (forall i :: 0 <= i < |cs| ==> cs'[i].atom == cs[i].atom)
      && (if found then AtomsOf(cs') == AtomsOf(cs) + multiset{op.atom} else cs' == cs)
  }

  lemma {:induction false} InsertInChildrenEffect<T(!new), A(!new)>(cmp: Comparison<T>, cs: seq<Tree<T, A>>,
                                                                    op: TreeOp<T, A>)
    requires TotalOrder(cmp) && SortedForest(cmp, cs)
    ensures ChildrenEffect(cmp, cs, op, InsertInChildren(cmp, cs, op))
    decreases cs
  {
    if cs != [] {
      var h, tail := cs[0], cs[1..];
      InsertEffect(cmp, h, op);
      HasIdSplit(Atoms(h), AtomsOf(tail), op.parentId);
      HasIdSplit(Atoms(h), AtomsOf(tail), op.atom.id);
      match InsertInWeave(cmp, h, op)
      case None =>
      case Some((h', true)) =>
        ForestCons(cmp, h', tail);
      case Some((h', false)) =>
        InsertInChildrenEffect(cmp, tail, op);
        TailEffect(cmp, cs, op);
    }
  }

  lemma TailEffect<T(!new), A(!new)>(cmp: Comparison<T>, cs: seq<Tree<T, A>>, op: TreeOp<T, A>)
    requires cs != [] && SortedForest(cmp, cs)
    requires InsertInWeave(cmp, cs[0], op) == Some((cs[0], false)) && !HasId(Atoms(cs[0]), op.parentId)
    requires ChildrenEffect(cmp, cs[1..], op, InsertInChildren(cmp, cs[1..], op))
    ensures ChildrenEffect(cmp, cs, op, InsertInChildren(cmp, cs, op))
  {
    hide CompareAtom, SortedTree, InsertInWeave, Atoms, HasId;
    var h, tail := cs[0], cs[1..];
    HasIdSplit(Atoms(h), AtomsOf(tail), op.parentId);
    HasIdSplit(Atoms(h), AtomsOf(tail), op.atom.id);
    match InsertInChildren(cmp, tail, op)
    case None =>
    case Some((rest, found)) =>
      ForestCons(cmp, h, rest);
      assert cs == [h] + tail;
  }

  lemma ForestCons<T, A>(cmp: Comparison<T>, c: Tree<T, A>, cs: seq<Tree<T, A>>)
    ensures SortedForest(cmp, [c] + cs) <==> SortedTree(cmp, c) && SortedForest(cmp, cs)
    ensures AtomsOf([c] + cs) == Atoms(c) + AtomsOf(cs)
  {
    assert ([c] + cs)[1..] == cs;
  }

  // ---------- Two insertions

  type Outcome<X> = Option<(X, bool, bool)>

  function Both<T(==), A>(cmp: Comparison<T>, t: Tree<T, A>, a: TreeOp<T, A>, b: TreeOp<T, A>): Outcome<Tree<T, A>> {
    match InsertInWeave(cmp, t, a)
    case None => None
    case Some((t1, fa)) =>
      match InsertInWeave(cmp, t1, b)
      case None => None
      case Some((t2, fb)) => Some((t2, fa, fb))
  }

  function BothInChildren<T(==), A>(cmp: Comparison<T>, cs: seq<Tree<T, A>>, a: TreeOp<T, A>, b: TreeOp<T, A>)
    : Outcome<seq<Tree<T, A>>>
  {
    match InsertInChildren(cmp, cs, a)
    case None => None
    case Some((cs1, fa)) =>
      match InsertInChildren(cmp, cs1, b)
      case None => None
      case Some((cs2, fb)) => Some((cs2, fa, fb))
  }

  function Swap<X>(r: Outcome<X>): Outcome<X> {
    match r
    case None => None
    case Some((x, fa, fb)) => Some((x, fb, fa))
  }

  /** Neither operation is the parent of the other. */
  ghost predicate Unrelated<T, A>(a: TreeOp<T, A>, b: TreeOp<T, A>) {
    a.parentId != b.atom.id && b.parentId != a.atom.id
  }

  function Then<T, A>(cmp: Comparison<T>, cs: Option<seq<Tree<T, A>>>, atom: Atom<T, A>): Option<seq<Tree<T, A>>> {
    if cs.None? then None else InsertAtom(cmp, cs.value, atom)
  }

  lemma {:induction false} SiblingsCommute<T(!new), A(!new)>(cmp: Comparison<T>, cs: seq<Tree<T, A>>, a: Atom<T, A>,
                                                             b: Atom<T, A>)
    requires TotalOrder(cmp)
    ensures Then(cmp, InsertAtom(cmp, cs, a), b) == Then(cmp, InsertAtom(cmp, cs, b), a)
    decreases |cs|
  {
    CompareAtomIsOrder<T, A>(cmp);
    var la, lb := Tree(a, []), Tree(b, []);
    if cs == [] {
      assert [la][1..] == [] && [lb][1..] == [];
    } else {
      SiblingsCommute(cmp, cs[1..], a, b);
      LeafFirst(cmp, cs, a, b);
      LeafFirst(cmp, cs, b, a);
      LeafLater(cmp, cs, a, b);
      LeafLater(cmp, cs, b, a);
    }
  }

  /** Inserting behind a leaf that went in first, or in front of it. */
  lemma LeafFirst<T, A>(cmp: Comparison<T>, cs: seq<Tree<T, A>>, a: Atom<T, A>, b: Atom<T, A>)
    ensures InsertAtom(cmp, [Tree(a, [])] + cs, b) == match CompareAtom(cmp, a, b)
      case Equal => None
      case Greater => Some([Tree(b, [])] + ([Tree(a, [])] + cs))
      case Less => if InsertAtom(cmp, cs, b).None? then None else Some([Tree(a, [])] + InsertAtom(cmp, cs, b).value)
  {
    assert ([Tree(a, [])] + cs)[1..] == cs;
  }

  lemma LeafLater<T, A>(cmp: Comparison<T>, cs: seq<Tree<T, A>>, a: Atom<T, A>, b: Atom<T, A>)
    requires cs != []
    ensures CompareAtom(cmp, cs[0].atom, a) == Less && CompareAtom(cmp, cs[0].atom, b) == Less ==>
      Then(cmp, InsertAtom(cmp, cs, a), b)
      == match Then(cmp, InsertAtom(cmp, cs[1..], a), b)
         case None => None
         case Some(rest) => Some([cs[0]] + rest)
  {
    if CompareAtom(cmp, cs[0].atom, a) == Less && InsertAtom(cmp, cs[1..], a).Some? {
      var rest := InsertAtom(cmp, cs[1..], a).value;
      assert ([cs[0]] + rest)[1..] == rest;
    }
  }

  lemma RootStays<T, A>(cmp: Comparison<T>, t: Tree<T, A>, op: TreeOp<T, A>)
    ensures var r := InsertInWeave(cmp, t, op); r.Some? ==> r.value.0.atom == t.atom
  {
  }

  /** Inserting a leaf among siblings commutes with an insertion below one of them. */
  lemma {:induction false} SiblingAndDescendantCommute<T(!new), A(!new)>(cmp: Comparison<T>, cs: seq<Tree<T, A>>,
                                                                         a: TreeOp<T, A>, b: TreeOp<T, A>)
    requires TotalOrder(cmp) && SortedForest(cmp, cs) && b.parentId != a.atom.id
    ensures (match InsertAtom(cmp, cs, a.atom) case None => None case Some(cs1) => InsertInChildren(cmp, cs1, b))
         == (match InsertInChildren(cmp, cs, b)
             case None => None
             case Some((cs1, f)) =>
               match InsertAtom(cmp, cs1, a.atom) case None => None case Some(cs2) => Some((cs2, f)))
    decreases |cs|
  {
    var leaf := Tree(a.atom, []);
    assert InsertInWeave(cmp, leaf, b) == Some((leaf, false));
    if cs == [] {
      assert [leaf][1..] == cs;
      assert [leaf] + InsertInChildren(cmp, cs, b).value.0 == [leaf];
    } else {
      var h, tail := cs[0], cs[1..];
      RootStays(cmp, h, b);
      SiblingAndDescendantCommute(cmp, tail, a, b);
      assert ([leaf] + cs)[1..] == cs;
      if InsertAtom(cmp, tail, a.atom).Some? {
        var rest := InsertAtom(cmp, tail, a.atom).value;
        assert ([h] + rest)[1..] == rest;
      }
      if InsertInWeave(cmp, h, b).Some? {
        var h' := InsertInWeave(cmp, h, b).value.0;
        assert ([h'] + tail)[1..] == tail;
        if InsertInChildren(cmp, tail, b).Some? {
          var rest := InsertInChildren(cmp, tail, b).value.0;
          assert ([h'] + rest)[1..] == rest;
        }
      }
    }
  }

  lemma {:induction false} InsertionsCommute<T(!new), A(!new)>(cmp: Comparison<T>, t: Tree<T, A>, a: TreeOp<T, A>,
                                                               b: TreeOp<T, A>)
    requires TotalOrder(cmp) && SortedTree(cmp, t) && Unrelated(a, b)
    ensures Both(cmp, t, a, b) == Swap(Both(cmp, t, b, a))
    decreases t
  {
    if t.atom.id == a.parentId && t.atom.id == b.parentId {
      SiblingsCommute(cmp, t.children, a.atom, b.atom);
    } else if t.atom.id == a.parentId {
      SiblingAndDescendantCommute(cmp, t.children, a, b);
    } else if t.atom.id == b.parentId {
      SiblingAndDescendantCommute(cmp, t.children, b, a);
    } else {
      InsertionsInChildrenCommute(cmp, t.children, a, b);
    }
  }

  lemma {:induction false} InsertionsInChildrenCommute<T(!new), A(!new)>(cmp: Comparison<T>, cs: seq<Tree<T, A>>,
                                                                         a: TreeOp<T, A>, b: TreeOp<T, A>)
    requires TotalOrder(cmp) && SortedForest(cmp, cs) && Unrelated(a, b)
    ensures BothInChildren(cmp, cs, a, b) == Swap(BothInChildren(cmp, cs, b, a))
    decreases cs
  {
    if cs != [] {
      InsertionsCommute(cmp, cs[0], a, b);
      InsertionsInChildrenCommute(cmp, cs[1..], a, b);
      BothInHead(cmp, cs, a, b);
      BothInHead(cmp, cs, b, a);
    }
  }

  /** Two insertions into a list, in terms of the head and the tail. */
  lemma BothInHead<T(!new), A(!new)>(cmp: Comparison<T>, cs: seq<Tree<T, A>>, a: TreeOp<T, A>, b: TreeOp<T, A>)
    requires cs != []
    ensures BothInChildren(cmp, cs, a, b) == match Both(cmp, cs[0], a, b)
      case None => None
      case Some((h, true, true)) => Some(([h] + cs[1..], true, true))
      case Some((h, true, false)) =>
        (match InsertInChildren(cmp, cs[1..], b) case None => None case Some((r, f)) => Some(([h] + r, true, f)))
      case Some((h, false, true)) =>
        (match InsertInChildren(cmp, cs[1..], a) case None => None case Some((r, f)) => Some(([h] + r, f, true)))
      case Some((h, false, false)) =>
        (match BothInChildren(cmp, cs[1..], a, b) case None => None case Some((r, f, f')) => Some(([h] + r, f, f')))
  {
    var h, tail := cs[0], cs[1..];
    match InsertInWeave(cmp, h, a)
    case None =>
    case Some((h1, fa)) =>
      assert ([h1] + tail)[1..] == tail;
      if InsertInChildren(cmp, tail, a).Some? {
        var rest := InsertInChildren(cmp, tail, a).value.0;
        assert ([h1] + rest)[1..] == rest;
      }
  }

  // ---------- Convergence

  ghost function Parenthood<T, A>(): (TreeOp<T, A>, TreeOp<T, A>) -> bool {
    (a: TreeOp<T, A>, b: TreeOp<T, A>) => a.atom.id == b.parentId
  }

  ghost function ApplyStep<T, A>(cmp: Comparison<T>): (Option<Tree<T, A>>, TreeOp<T, A>) -> Option<Tree<T, A>> {
    (t: Option<Tree<T, A>>, op: TreeOp<T, A>) => Apply(cmp, t, op)
  }

  /** What is still to be inserted has new, distinct ids, and hangs below something present or still to come. */
  ghost predicate ValidRemainder<T, A>(t: Tree<T, A>, ops: set<TreeOp<T, A>>) {
    && (forall a :: a in ops ==> !HasId(Atoms(t), a.atom.id))
    && (forall a, b :: a in ops && b in ops && a != b ==> a.atom.id != b.atom.id)
    && (forall a :: a in ops ==>
          a.parentId != a.atom.id && (HasId(Atoms(t), a.parentId) || exists b :: b in ops && b.atom.id == a.parentId))
  }

  ghost function TreeInv<T, A>(cmp: Comparison<T>): (Option<Tree<T, A>>, set<TreeOp<T, A>>) -> bool {
    (t: Option<Tree<T, A>>, ops: set<TreeOp<T, A>>) =>
      t.Some? && SortedTree(cmp, t.value) && ValidRemainder(t.value, ops)
  }

  lemma RemainderShrinks<T(!new), A(!new)>(t: Tree<T, A>, t': Tree<T, A>, ops: set<TreeOp<T, A>>, a: TreeOp<T, A>)
    requires ValidRemainder(t, ops) && a in ops && Atoms(t') == Atoms(t) + multiset{a.atom}
    ensures ValidRemainder(t', ops - {a})
  {
    forall b | b in ops - {a}
      ensures !HasId(Atoms(t'), b.atom.id)
    {
      HasIdSplit(Atoms(t), multiset{a.atom}, b.atom.id);
    }
    forall b | b in ops - {a}
      ensures HasId(Atoms(t'), b.parentId) || exists c :: c in ops - {a} && c.atom.id == b.parentId
    {
      HasIdSplit(Atoms(t), multiset{a.atom}, b.parentId);
      assert a.atom in multiset{a.atom};
    }
  }

  lemma EnabledHasParent<T(!new), A(!new)>(t: Tree<T, A>, ops: set<TreeOp<T, A>>, a: TreeOp<T, A>)
    requires ValidRemainder(t, ops) && Enabled(Parenthood(), ops, a)
    ensures HasId(Atoms(t), a.parentId) && !HasId(Atoms(t), a.atom.id)
  {
    assert forall b :: b in ops && b.atom.id == a.parentId ==> b != a && Parenthood()(b, a);
  }

  lemma ApplyPreserves<T(!new), A(!new)>(cmp: Comparison<T>, t: Tree<T, A>, ops: set<TreeOp<T, A>>, a: TreeOp<T, A>)
    requires TotalOrder(cmp) && SortedTree(cmp, t) && ValidRemainder(t, ops) && Enabled(Parenthood(), ops, a)
    ensures Apply(cmp, Some(t), a).Some?
    ensures var t' := Apply(cmp, Some(t), a).value;
      SortedTree(cmp, t') && ValidRemainder(t', ops - {a}) && Atoms(t') == Atoms(t) + multiset{a.atom}
  {
    hide HangsBelowParent;
    EnabledHasParent(t, ops, a);
    InsertEffect(cmp, t, a);
    RemainderShrinks(t, Apply(cmp, Some(t), a).value, ops, a);
  }

  lemma ApplyTwice<T(!new), A(!new)>(cmp: Comparison<T>, t: Tree<T, A>, a: TreeOp<T, A>, b: TreeOp<T, A>)
    ensures Apply(cmp, Apply(cmp, Some(t), a), b)
         == match Both(cmp, t, a, b) case Some((t', true, true)) => Some(t') case _ => None
  {
  }

  /** Applying unrelated operations in either order gives the same tree, or fails either way. */
  lemma ApplicationsCommute<T(!new), A(!new)>(cmp: Comparison<T>, t: Tree<T, A>, a: TreeOp<T, A>, b: TreeOp<T, A>)
    requires TotalOrder(cmp) && SortedTree(cmp, t) && Unrelated(a, b)
    ensures Apply(cmp, Apply(cmp, Some(t), a), b) == Apply(cmp, Apply(cmp, Some(t), b), a)
  {
    InsertionsCommute(cmp, t, a, b);
    ApplyTwice(cmp, t, a, b);
    ApplyTwice(cmp, t, b, a);
  }

  /**
    Any two orders of the same insertions that put parents before children succeed and build the same sorted tree,
    provided the comparison is a total order.
   */
  lemma {:induction false} OrderedInsertionsConverge<T(!new), A(!new)>(cmp: Comparison<T>, t: Tree<T, A>,
                                                                       p: seq<TreeOp<T, A>>, q: seq<TreeOp<T, A>>)
    requires TotalOrder(cmp) && SortedTree(cmp, t) && ValidRemainder(t, Elems(p))
    requires Distinct(p) && Distinct(q) && Elems(p) == Elems(q)
    requires Respects(Parenthood(), p) && Respects(Parenthood(), q)
    ensures var r := Fold(ApplyStep(cmp), Some(t), p);
      && r.Some? && r == Fold(ApplyStep(cmp), Some(t), q)
      && SortedTree(cmp, r.value)
  {
    var step, inv := ApplyStep<T, A>(cmp), TreeInv(cmp);
    forall s, ops, a | inv(s, ops) && Enabled(Parenthood(), ops, a)
      ensures inv(step(s, a), ops - {a})
    {
      ApplyPreserves(cmp, s.value, ops, a);
    }
    forall s, ops, a, b | inv(s, ops) && Enabled(Parenthood(), ops, a) && Enabled(Parenthood(), ops, b) && a != b
      ensures step(step(s, a), b) == step(step(s, b), a)
    {
      assert !Parenthood()(a, b) && !Parenthood()(b, a);
      ApplicationsCommute(cmp, s.value, a, b);
    }
    Converges(step, inv, Parenthood(), Some(t), p, q);
  }

  // ---------- Only the ids in use are compared

  function TreeIds<T(==), A>(t: Tree<T, A>): set<T>
    decreases t
  {
    {t.atom.id} + ForestIds(t.children)
  }

  function ForestIds<T(==), A>(cs: seq<Tree<T, A>>): set<T>
    decreases cs
  {
    if cs == [] then {} else TreeIds(cs[0]) + ForestIds(cs[1..])
  }

  ghost function OpIds<T, A>(ops: seq<TreeOp<T, A>>): set<T> {
    set i | 0 <= i < |ops| :: ops[i].atom.id
  }

  ghost predicate SameAmong<T>(cmp: Comparison<T>, cmp': Comparison<T>, ts: set<T>) {
    forall a, b :: a in ts && b in ts ==> cmp(a, b) == cmp'(a, b)
  }

  lemma {:induction false} InsertAtomAmong<T(!new), A(!new)>(cmp: Comparison<T>, cmp': Comparison<T>, ts: set<T>,
                                                             cs: seq<Tree<T, A>>, atom: Atom<T, A>)
    requires SameAmong(cmp, cmp', ts) && ForestIds(cs) <= ts && atom.id in ts
    ensures InsertAtom(cmp, cs, atom) == InsertAtom(cmp', cs, atom)
    ensures var r := InsertAtom(cmp, cs, atom); r.Some? ==> ForestIds(r.value) <= ForestIds(cs) + {atom.id}
    decreases |cs|
  {
    var leaf := Tree(atom, []);
    assert TreeIds(leaf) == {atom.id} && ([leaf] + cs)[1..] == cs;
    assert ForestIds([leaf] + cs) == TreeIds(leaf) + ForestIds(cs);
    assert [leaf] + [] == [leaf];
    if cs != [] {
      assert cs[0].atom.id in ts;
      InsertAtomAmong(cmp, cmp', ts, cs[1..], atom);
      var r := InsertAtom(cmp, cs[1..], atom);
      if r.Some? { assert ([cs[0]] + r.value)[1..] == r.value; }
    }
  }

  lemma {:induction false} InsertAmong<T(!new), A(!new)>(cmp: Comparison<T>, cmp': Comparison<T>, ts: set<T>,
                                                         t: Tree<T, A>, op: TreeOp<T, A>)
    requires SameAmong(cmp, cmp', ts) && TreeIds(t) <= ts && op.atom.id in ts
    ensures InsertInWeave(cmp, t, op) == InsertInWeave(cmp', t, op)
    ensures var r := InsertInWeave(cmp, t, op); r.Some? ==> TreeIds(r.value.0) <= TreeIds(t) + {op.atom.id}
    decreases t
  {
    if t.atom.id == op.parentId {
      InsertAtomAmong(cmp, cmp', ts, t.children, op.atom);
    } else {
      InsertInChildrenAmong(cmp, cmp', ts, t.children, op);
    }
  }

  lemma {:induction false} InsertInChildrenAmong<T(!new), A(!new)>(cmp: Comparison<T>, cmp': Comparison<T>, ts: set<T>,
                                                                   cs: seq<Tree<T, A>>, op: TreeOp<T, A>)
    requires SameAmong(cmp, cmp', ts) && ForestIds(cs) <= ts && op.atom.id in ts
    ensures InsertInChildren(cmp, cs, op) == InsertInChildren(cmp', cs, op)
    ensures var r := InsertInChildren(cmp, cs, op); r.Some? ==> ForestIds(r.value.0) <= ForestIds(cs) + {op.atom.id}
    decreases cs
  {
    if cs != [] {
      InsertAmong(cmp, cmp', ts, cs[0], op);
      InsertInChildrenAmong(cmp, cmp', ts, cs[1..], op);
      match InsertInWeave(cmp, cs[0], op)
      case None =>
      case Some((c, found)) =>
        assert ([c] + cs[1..])[1..] == cs[1..];
        var r := InsertInChildren(cmp, cs[1..], op);
        if r.Some? { assert ([c] + r.value.0)[1..] == r.value.0; }
    }
  }

  /** Applying an operation looks only at the ids in the tree and at the new one, and adds no other. */
  lemma ApplyAmong<T(!new), A(!new)>(cmp: Comparison<T>, cmp': Comparison<T>, ts: set<T>, t: Tree<T, A>,
                                     op: TreeOp<T, A>)
    requires SameAmong(cmp, cmp', ts) && TreeIds(t) <= ts && op.atom.id in ts
    ensures Apply(cmp, Some(t), op) == Apply(cmp', Some(t), op)
    ensures var r := Apply(cmp, Some(t), op); r.Some? ==> TreeIds(r.value) <= TreeIds(t) + {op.atom.id}
  {
    InsertAmong(cmp, cmp', ts, t, op);
  }

  lemma {:induction false} RunAmong<T(!new), A(!new)>(cmp: Comparison<T>, cmp': Comparison<T>, ts: set<T>,
                                                      t: Tree<T, A>, ops: seq<TreeOp<T, A>>)
    requires SameAmong(cmp, cmp', ts) && TreeIds(t) <= ts && OpIds(ops) <= ts
    ensures Fold(ApplyStep(cmp), Some(t), ops) == Fold(ApplyStep(cmp'), Some(t), ops)
    decreases |ops|
  {
    if ops != [] {
      assert ops[0].atom.id in OpIds(ops);
      assert OpIds(ops[1..]) <= OpIds(ops) by {
        assert forall i :: 0 <= i < |ops[1..]| ==> ops[1..][i] == ops[i + 1];
      }
      ApplyAmong(cmp, cmp', ts, t, ops[0]);
      var t' := Apply(cmp, Some(t), ops[0]);
      if t'.None? {
        FailureStays(cmp, ops[1..]);
        FailureStays(cmp', ops[1..]);
      } else {
        RunAmong(cmp, cmp', ts, t'.value, ops[1..]);
      }
    }
  }

  lemma {:induction false} SortedAmong<T(!new), A(!new)>(cmp: Comparison<T>, cmp': Comparison<T>, ts: set<T>,
                                                         t: Tree<T, A>)
    requires SameAmong(cmp, cmp', ts) && TreeIds(t) <= ts && SortedTree(cmp, t)
    ensures SortedTree(cmp', t)
    decreases t
  {
    SortedForestAmong(cmp, cmp', ts, t.children);
    forall i, j | 0 <= i < j < |t.children|
      ensures CompareAtom(cmp', t.children[i].atom, t.children[j].atom) == Less
    {
      ForestMemberIds(t.children, i);
      ForestMemberIds(t.children, j);
    }
  }

  lemma {:induction false} SortedForestAmong<T(!new), A(!new)>(cmp: Comparison<T>, cmp': Comparison<T>, ts: set<T>,
                                                               cs: seq<Tree<T, A>>)
    requires SameAmong(cmp, cmp', ts) && ForestIds(cs) <= ts && SortedForest(cmp, cs)
    ensures SortedForest(cmp', cs)
    decreases cs
  {
    if cs != [] {
      SortedAmong(cmp, cmp', ts, cs[0]);
      SortedForestAmong(cmp, cmp', ts, cs[1..]);
    }
  }

  lemma {:induction false} ForestMemberIds<T(!new), A(!new)>(cs: seq<Tree<T, A>>, k: nat)
    requires k < |cs|
    ensures cs[k].atom.id in ForestIds(cs)
    decreases k
  {
    if k > 0 { ForestMemberIds(cs[1..], k - 1); }
  }

  /**
    The text converges whenever the ids that occur in it have no inversion: any two orders of the same insertions that
    put parents before children succeed and build the same tree.
   */
  lemma {:induction false} CausalTreeConvergence<T(!new), A(!new)>(hb: Relation<T>, ord: Comparison<T>, t: Tree<T, A>,
                                                                   p: seq<TreeOp<T, A>>, q: seq<TreeOp<T, A>>)
    requires StrictPartialOrder(hb) && TotalOrder(ord) && NoInversionAmong(hb, ord, TreeIds(t) + OpIds(p))
    requires SortedTree(Tiebreak(hb, ord), t) && ValidRemainder(t, Elems(p))
    requires Distinct(p) && Distinct(q) && Elems(p) == Elems(q)
    requires Respects(Parenthood(), p) && Respects(Parenthood(), q)
    ensures var r := Fold(ApplyStep(Tiebreak(hb, ord)), Some(t), p);
      r.Some? && r == Fold(ApplyStep(Tiebreak(hb, ord)), Some(t), q)
  {
    var ts := TreeIds(t) + OpIds(p);
    var cmp, cmp' := Tiebreak(hb, ord), Among(hb, ord, ts);
    AmongIsOrder(hb, ord, ts);
    SortedAmong(cmp, cmp', ts, t);
    OrderedInsertionsConverge(cmp', t, p, q);
    RunAmong(cmp, cmp', ts, t, p);
    forall x | x in OpIds(q)
      ensures x in OpIds(p)
    {
      var i :| 0 <= i < |q| && q[i].atom.id == x;
      assert q[i] in Elems(p);
      var j :| 0 <= j < |p| && p[j] == q[i];
    }
    RunAmong(cmp, cmp', ts, t, q);
  }

  /** A run of insertions adds just their atoms. */
  lemma {:induction false} RunAddsAtoms<T(!new), A(!new)>(cmp: Comparison<T>, t: Tree<T, A>, ops: seq<TreeOp<T, A>>)
    requires TotalOrder(cmp) && SortedTree(cmp, t) && Fold(ApplyStep(cmp), Some(t), ops).Some?
    ensures Atoms(Fold(ApplyStep(cmp), Some(t), ops).value) == Atoms(t) + AtomsIn(ops)
    decreases |ops|
  {
    if ops != [] {
      var t' := Apply(cmp, Some(t), ops[0]);
      if t'.None? {
        FailureStays(cmp, ops[1..]);
      } else {
        InsertEffect(cmp, t, ops[0]);
        RunAddsAtoms(cmp, t'.value, ops[1..]);
      }
    }
  }

  /** In the tree that a run builds, every inserted atom hangs below the parent its operation named. */
  lemma {:induction false} RunBuildsEdges<T(!new), A(!new)>(cmp: Comparison<T>, t: Tree<T, A>, ops: seq<TreeOp<T, A>>)
    requires Fold(ApplyStep(cmp), Some(t), ops).Some?
    ensures Edges(Fold(ApplyStep(cmp), Some(t), ops).value) == Edges(t) + EdgesIn(ops)
    ensures Fold(ApplyStep(cmp), Some(t), ops).value.atom == t.atom
    decreases |ops|
  {
    hide Edges, InsertInWeave;
    if ops != [] {
      var t' := Apply(cmp, Some(t), ops[0]);
      if t'.None? {
        FailureStays(cmp, ops[1..]);
      } else {
        InsertEdges(cmp, t, ops[0]);
        RunBuildsEdges(cmp, t'.value, ops[1..]);
      }
    }
  }

  ghost function EdgesIn<T, A>(ops: seq<TreeOp<T, A>>): multiset<(T, Atom<T, A>)> {
    if ops == [] then multiset{} else multiset{(ops[0].parentId, ops[0].atom)} + EdgesIn(ops[1..])
  }

  ghost function AtomsIn<T, A>(ops: seq<TreeOp<T, A>>): multiset<Atom<T, A>> {
    if ops == [] then multiset{} else multiset{ops[0].atom} + AtomsIn(ops[1..])
  }

  lemma {:induction false} FailureStays<T, A>(cmp: Comparison<T>, ops: seq<TreeOp<T, A>>)
    ensures Fold(ApplyStep<T, A>(cmp), None, ops) == None
    decreases |ops|
  {
    if ops != [] { FailureStays(cmp, ops[1..]); }
  }

  // ---------- As it is run

  lemma {:induction false} InsertAtRank<T(!new), A(!new)>(cmp: Comparison<T>, cs: seq<Tree<T, A>>, atom: Atom<T, A>,
                                                          i: nat)
    requires i <= |cs|
    requires forall j :: 0 <= j < i ==> CompareAtom(cmp, cs[j].atom, atom) == Less
    ensures i < |cs| && CompareAtom(cmp, cs[i].atom, atom) == Equal ==> InsertAtom(cmp, cs, atom) == None
    ensures i == |cs| || CompareAtom(cmp, cs[i].atom, atom) == Greater ==>
      InsertAtom(cmp, cs, atom) == Some(cs[..i] + [Tree(atom, [])] + cs[i..])
    decreases i
  {
    if i > 0 {
      InsertAtRank(cmp, cs[1..], atom, i - 1);
      assert cs[..i] == [cs[0]] + cs[1..][..i - 1] && cs[i..] == cs[1..][i - 1..];
      assert [cs[0]] + (cs[1..][..i - 1] + [Tree(atom, [])] + cs[1..][i - 1..]) == cs[..i] + [Tree(atom, [])] + cs[i..];
    } else {
      assert cs[..0] + [Tree(atom, [])] + cs[0..] == [Tree(atom, [])] + cs;
      assert cs == [] ==> [Tree(atom, [])] + cs == [Tree(atom, [])];
    }
  }

  /** Binary search: the place of an atom among sorted siblings, or the index of an equal one. */
  method BinarySearch<T(!new), A(!new)>(cmp: Comparison<T>, cs: seq<Tree<T, A>>, atom: Atom<T, A>)
    returns (found: bool, index: nat)
    requires TotalOrder(cmp) && Sorted(cmp, cs)
    ensures index <= |cs|
    ensures forall j :: 0 <= j < index ==> CompareAtom(cmp, cs[j].atom, atom) == Less
    ensures forall j :: index < j < |cs| ==> CompareAtom(cmp, cs[j].atom, atom) == Greater
    ensures if found then index < |cs| && CompareAtom(cmp, cs[index].atom, atom) == Equal
            else index < |cs| ==> CompareAtom(cmp, cs[index].atom, atom) == Greater
  {
    var lo, hi := 0, |cs|;
    while lo < hi
      invariant 0 <= lo <= hi <= |cs|
      invariant forall j :: 0 <= j < lo ==> CompareAtom(cmp, cs[j].atom, atom) == Less
      invariant forall j :: hi <= j < |cs| ==> CompareAtom(cmp, cs[j].atom, atom) == Greater
    {
      var mid := (lo + hi) / 2;
      SearchHalves(cmp, cs, atom, mid);
      match CompareAtom(cmp, cs[mid].atom, atom)
      case Less => lo := mid + 1;
      case Greater => hi := mid;
      case Equal => return true, mid;
    }
    return false, lo;
  }

  lemma SearchHalves<T(!new), A(!new)>(cmp: Comparison<T>, cs: seq<Tree<T, A>>, atom: Atom<T, A>, mid: nat)
    requires TotalOrder(cmp) && Sorted(cmp, cs) && mid < |cs|
    ensures CompareAtom(cmp, cs[mid].atom, atom) != Greater ==>
      forall j :: 0 <= j < mid ==> CompareAtom(cmp, cs[j].atom, atom) == Less
    ensures CompareAtom(cmp, cs[mid].atom, atom) != Less ==>
      forall j :: mid < j < |cs| ==> CompareAtom(cmp, cs[j].atom, atom) == Greater
  {
    CompareAtomIsOrder<T, A>(cmp);
    var m := cs[mid].atom;
    if CompareAtom(cmp, m, atom) == Equal { assert m.id == atom.id; }
  }

  method InsertAtomInPlace<T(!new), A(!new)>(cmp: Comparison<T>, cs: seq<Tree<T, A>>, atom: Atom<T, A>)
    returns (r: Option<seq<Tree<T, A>>>)
    requires TotalOrder(cmp) && Sorted(cmp, cs)
    ensures r == InsertAtom(cmp, cs, atom)
  {
    var found, index := BinarySearch(cmp, cs, atom);
    InsertAtRank(cmp, cs, atom, index);
    r := if found then None else Some(cs[..index] + [Tree(atom, [])] + cs[index..]);
  }

  /** `insert_in_weave` as it is run: the operation is handed back if it found no parent. */
  method Weave<T(!new,==), A(!new)>(cmp: Comparison<T>, t: Tree<T, A>, op: TreeOp<T, A>)
    returns (ok: bool, t': Tree<T, A>, rest: Option<TreeOp<T, A>>)
    requires TotalOrder(cmp) && SortedTree(cmp, t)
    ensures ok <==> InsertInWeave(cmp, t, op).Some?
    ensures ok ==> InsertInWeave(cmp, t, op) == Some((t', rest.None?)) && (rest.Some? ==> rest.value == op)
    ensures ok ==> HangsBelowParent(t, op, Some((t', rest.None?)))
    decreases t, 1
  {
    hide HangsBelowParent;
    InsertEdges(cmp, t, op);
    t', rest := t, None;
    if t.atom.id == op.parentId {
      var r := InsertAtomInPlace(cmp, t.children, op.atom);
      if r.None? { return false, t, None; }
      t' := t.(children := r.value);
    } else {
      var children;
      ok, children, rest := WeaveChildren(cmp, t, op);
      if !ok { return; }
      t' := t.(children := children);
    }
    ok := true;
  }

  /** Offers the operation to each child in turn until one takes it. */
  method WeaveChildren<T(!new,==), A(!new)>(cmp: Comparison<T>, t: Tree<T, A>, op: TreeOp<T, A>)
    returns (ok: bool, children: seq<Tree<T, A>>, opM: Option<TreeOp<T, A>>)
    requires TotalOrder(cmp) && SortedTree(cmp, t)
    ensures ok <==> InsertInChildren(cmp, t.children, op).Some?
    ensures ok ==> InsertInChildren(cmp, t.children, op) == Some((children, opM.None?))
    ensures ok && opM.Some? ==> opM.value == op
    decreases t, 0
  {
    var cs := t.children;
    children, opM := [], Some(op);
    var k := 0;
    Unprepended(cmp, cs, op);
    while k < |cs|
      invariant 0 <= k <= |cs|
      invariant opM.Some? ==> opM.value == op
      invariant Woven(cmp, cs, op, k, children, opM.None?)
    {
      WovenStep(cmp, cs, op, k, children, opM.None?);
      match opM {
        case Some(o) =>
          ForestMember(cmp, cs, k);
          var taken, child, ret := Weave(cmp, cs[k], o);
          if !taken { return false, [], None; }
          children, opM := children + [child], ret;
        case None =>
          children := children + [cs[k]];
      }
      k := k + 1;
    }
    assert cs[k..] == [] && children + [] == children;
    ok := true;
  }

  /** The children before `k` have been visited and `done` is what became of them. */
  ghost predicate Woven<T(!new), A(!new)>(cmp: Comparison<T>, cs: seq<Tree<T, A>>, op: TreeOp<T, A>, k: nat,
                                          done: seq<Tree<T, A>>, taken: bool)
    requires k <= |cs|
  {
    InsertInChildren(cmp, cs, op)
    == if taken then Some((done + cs[k..], true)) else Prepend(done, InsertInChildren(cmp, cs[k..], op))
  }

  lemma Unprepended<T(!new), A(!new)>(cmp: Comparison<T>, cs: seq<Tree<T, A>>, op: TreeOp<T, A>)
    ensures Woven(cmp, cs, op, 0, [], false)
  {
    assert cs[0..] == cs;
    if InsertInChildren(cmp, cs, op).Some? {
      assert [] + InsertInChildren(cmp, cs, op).value.0 == InsertInChildren(cmp, cs, op).value.0;
    }
  }

  lemma WovenStep<T(!new), A(!new)>(cmp: Comparison<T>, cs: seq<Tree<T, A>>, op: TreeOp<T, A>, k: nat,
                                    done: seq<Tree<T, A>>, taken: bool)
    requires k < |cs| && Woven(cmp, cs, op, k, done, taken)
    ensures taken ==> Woven(cmp, cs, op, k + 1, done + [cs[k]], true)
    ensures !taken ==>
      match InsertInWeave(cmp, cs[k], op)
      case None => InsertInChildren(cmp, cs, op).None?
      case Some((c, found)) => Woven(cmp, cs, op, k + 1, done + [c], found)
  {
    assert cs[k..] == [cs[k]] + cs[k + 1..] && cs[k..][1..] == cs[k + 1..];
    if taken {
      assert done + ([cs[k]] + cs[k + 1..]) == done + [cs[k]] + cs[k + 1..];
    } else if InsertInWeave(cmp, cs[k], op).Some? {
      var c := InsertInWeave(cmp, cs[k], op).value.0;
      assert done + ([c] + cs[k + 1..]) == done + [c] + cs[k + 1..];
      if InsertInChildren(cmp, cs[k + 1..], op).Some? {
        var tail := InsertInChildren(cmp, cs[k + 1..], op).value.0;
        assert done + ([c] + tail) == done + [c] + tail;
      }
    }
  }

  function Prepend<T, A>(done: seq<Tree<T, A>>, r: Option<(seq<Tree<T, A>>, bool)>): Option<(seq<Tree<T, A>>, bool)> {
    match r
    case None => None
    case Some((cs, found)) => Some((done + cs, found))
  }

  lemma {:induction false} ForestMember<T, A>(cmp: Comparison<T>, cs: seq<Tree<T, A>>, k: nat)
    requires k < |cs| && SortedForest(cmp, cs)
    ensures SortedTree(cmp, cs[k])
    decreases k
  {
    if k > 0 { ForestMember(cmp, cs[1..], k - 1); }
  }
}
