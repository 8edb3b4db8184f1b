/**
  Inserting among siblings with any search that looks only at comparisons: exactly when concurrent insertions commute,
  and what that means for a text over event graph time.
 */
module SiblingOrder {
  import opened Common
  import opened EventGraph
  import opened Time
  import opened CausalOrder
  import opened CausalTree
  import Registers

  /** From the comparisons of the siblings with the new atom to its place. */
  type Search = seq<Ordering> -> nat

  ghost predicate Boundary(outcomes: seq<Ordering>, k: nat) {
    && k <= |outcomes|
    && (forall i :: 0 <= i < k ==> outcomes[i] == Less)
    && (forall i :: k <= i < |outcomes| ==> outcomes[i] == Greater)
  }

  /** The search stays in range and is right whenever the siblings are in order around the new atom. */
  ghost predicate IsSearch(search: Search) {
    forall outcomes :: search(outcomes) <= |outcomes|
      && (forall k :: Boundary(outcomes, k) ==> search(outcomes) == k)
  }

  function Outcomes<T, A>(cmp: Comparison<T>, cs: seq<Tree<T, A>>, atom: Atom<T, A>): seq<Ordering> {
    seq(|cs|, i requires 0 <= i < |cs| => CompareAtom(cmp, cs[i].atom, atom))
  }

  function InsertAt<T, A>(cs: seq<Tree<T, A>>, k: nat, atom: Atom<T, A>): seq<Tree<T, A>>
    requires k <= |cs|
  {
    cs[..k] + [Tree(atom, [])] + cs[k..]
  }

  ghost function InsertBySearch<T, A>(search: Search, cmp: Comparison<T>, cs: seq<Tree<T, A>>, atom: Atom<T, A>)
    : seq<Tree<T, A>>
    requires IsSearch(search)
  {
    InsertAt(cs, search(Outcomes(cmp, cs, atom)), atom)
  }

  ghost predicate NewAmong<T, A>(cs: seq<Tree<T, A>>, atom: Atom<T, A>) {
    forall i :: 0 <= i < |cs| ==> cs[i].atom.id != atom.id
  }

  /** Concurrent insertions of new siblings may be applied in either order. */
  ghost predicate SiblingLaw<T(!new), A(!new)>(search: Search, hb: Relation<T>, ord: Comparison<T>)
    requires IsSearch(search)
  {
    forall cs: seq<Tree<T, A>>, x: Atom<T, A>, y: Atom<T, A> ::
      Sorted(Tiebreak(hb, ord), cs) && NewAmong(cs, x) && NewAmong(cs, y) && x.id != y.id && Concurrent(hb, x.id, y.id)
      ==> var cmp := Tiebreak(hb, ord);
          InsertBySearch(search, cmp, InsertBySearch(search, cmp, cs, x), y)
          == InsertBySearch(search, cmp, InsertBySearch(search, cmp, cs, y), x)
  }

  /** Over a total order every search inserts as the specification does. */
  lemma {:induction false} SearchInserts<T(!new), A(!new)>(search: Search, cmp: Comparison<T>, cs: seq<Tree<T, A>>,
                                                           atom: Atom<T, A>)
    requires IsSearch(search) && TotalOrder(cmp) && Sorted(cmp, cs) && NewAmong(cs, atom)
    ensures InsertAtom(cmp, cs, atom) == Some(InsertBySearch(search, cmp, cs, atom))
    ensures Sorted(cmp, InsertBySearch(search, cmp, cs, atom))
  {
    hide CompareAtom;
    CompareAtomIsOrder<T, A>(cmp);
    var k := Place(cmp, cs, atom);
    assert Boundary(Outcomes(cmp, cs, atom), k);
    InsertAtRank(cmp, cs, atom, k);
  }

  lemma {:induction false} Place<T(!new), A(!new)>(cmp: Comparison<T>, cs: seq<Tree<T, A>>, atom: Atom<T, A>)
      returns (k: nat)
    requires TotalOrder(cmp) && Sorted(cmp, cs) && NewAmong(cs, atom)
    ensures k <= |cs|
    ensures forall i :: 0 <= i < k ==> CompareAtom(cmp, cs[i].atom, atom) == Less
    ensures forall i :: k <= i < |cs| ==> CompareAtom(cmp, cs[i].atom, atom) == Greater
  {
    hide CompareAtom;
    CompareAtomIsOrder<T, A>(cmp);
    k := 0;
    while k < |cs| && CompareAtom(cmp, cs[k].atom, atom) == Less
      invariant k <= |cs|
      invariant forall i :: 0 <= i < k ==> CompareAtom(cmp, cs[i].atom, atom) == Less
    {
      k := k + 1;
    }
  }

  /**
    Three siblings that the comparison arranges in a circle cannot be sorted: whatever the search makes of it, the two
    orders of the concurrent insertions end in different lists.
   */
  lemma InversionBreaksSiblingLaw<T(!new), A(!new)>(search: Search, hb: Relation<T>, ord: Comparison<T>,
                                                    u: A, v: A, w: A, a: T, b: T, c: T)
    requires IsSearch(search) && StrictPartialOrder(hb) && TotalOrder(ord) && Inverts(hb, ord, a, b, c)
    ensures var cmp, la := Tiebreak(hb, ord), [Tree(Atom(a, Letter(u)), [])];
      var x, y := Atom(b, Letter(v)), Atom(c, Letter(w));
      InsertBySearch(search, cmp, InsertBySearch(search, cmp, la, x), y)
      != InsertBySearch(search, cmp, InsertBySearch(search, cmp, la, y), x)
    ensures !SiblingLaw<T, A>(search, hb, ord)
  {
    Antisymmetric(hb, ord, a, b);
    Antisymmetric(hb, ord, a, c);
    Antisymmetric(hb, ord, b, c);
    var cmp := Tiebreak(hb, ord);
    var la: seq<Tree<T, A>> := [Tree(Atom(a, Letter(u)), [])];
    var x: Atom<T, A>, y: Atom<T, A> := Atom(b, Letter(v)), Atom(c, Letter(w));
    assert Outcomes(cmp, la, x) == [Less] && Boundary([Less], 1);
    assert Outcomes(cmp, la, y) == [Greater] && Boundary([Greater], 0);
    var ab, ca := InsertBySearch(search, cmp, la, x), InsertBySearch(search, cmp, la, y);
    assert ab == la + [Tree(x, [])] && ca == [Tree(y, [])] + la;
    assert Outcomes(cmp, ab, y) == [Greater, Less] && Outcomes(cmp, ca, x) == [Greater, Less];
    var k := search([Greater, Less]);
    assert InsertAt(ab, k, y)[k].atom.id == c;
    assert InsertAt(ca, k, x)[k].atom.id == b;
    assert Sorted(cmp, la) && NewAmong(la, x) && NewAmong(la, y);
  }

  /** Concurrent insertions of siblings commute exactly when the fallback order inverts nothing. */
  lemma SiblingLawIffNoInversion<T(!new), A(!new)>(search: Search, hb: Relation<T>, ord: Comparison<T>, v: A)
    requires IsSearch(search) && StrictPartialOrder(hb) && TotalOrder(ord)
    ensures SiblingLaw<T, A>(search, hb, ord) <==> NoInversion(hb, ord)
  {
    if SiblingLaw<T, A>(search, hb, ord) {
      forall a, b, c
        ensures !Inverts(hb, ord, a, b, c)
      {
        if Inverts(hb, ord, a, b, c) { InversionBreaksSiblingLaw(search, hb, ord, v, v, v, a, b, c); }
      }
    }
    if NoInversion(hb, ord) {
      var cmp := Tiebreak(hb, ord);
      TransitiveIffNoInversion(hb, ord);
      TiebreakIsOrder(hb, ord);
      forall cs: seq<Tree<T, A>>, x: Atom<T, A>, y: Atom<T, A> |
        Sorted(cmp, cs) && NewAmong(cs, x) && NewAmong(cs, y) && x.id != y.id && Concurrent(hb, x.id, y.id)
        ensures InsertBySearch(search, cmp, InsertBySearch(search, cmp, cs, x), y)
             == InsertBySearch(search, cmp, InsertBySearch(search, cmp, cs, y), x)
      {
        BothInserted(search, cmp, cs, x, y);
        BothInserted(search, cmp, cs, y, x);
        SiblingsCommute(cmp, cs, x, y);
      }
    }
  }

  lemma TiebreakIsOrder<T(!new)>(hb: Relation<T>, ord: Comparison<T>)
    requires StrictPartialOrder(hb) && TotalOrder(ord) && NoInversion(hb, ord)
    ensures TotalOrder(Tiebreak(hb, ord))
  {
    TransitiveIffNoInversion(hb, ord);
    forall a, b
      ensures Tiebreak(hb, ord)(a, b) == Equal <==> a == b
      ensures Tiebreak(hb, ord)(a, b) == Less <==> Tiebreak(hb, ord)(b, a) == Greater
    {
      Antisymmetric(hb, ord, a, b);
    }
  }

  lemma BothInserted<T(!new), A(!new)>(search: Search, cmp: Comparison<T>, cs: seq<Tree<T, A>>, x: Atom<T, A>,
                                       y: Atom<T, A>)
    requires IsSearch(search) && TotalOrder(cmp) && Sorted(cmp, cs)
    requires NewAmong(cs, x) && NewAmong(cs, y) && x.id != y.id
    ensures Then(cmp, InsertAtom(cmp, cs, x), y)
         == Some(InsertBySearch(search, cmp, InsertBySearch(search, cmp, cs, x), y))
  {
    SearchInserts(search, cmp, cs, x);
    SearchInserts(search, cmp, InsertBySearch(search, cmp, cs, x), y);
  }

  // ---------- Over event graph time

  function Typed(id: HeaderId): Atom<OperationId, HeaderId> {
    Atom(Registers.IdOfWrite(id), Letter(id))
  }

  /**
    The headers of the fork insert one letter each below the same atom. Both delivery orders respect causality, yet no
    search by comparisons leaves the same siblings.
   */
  lemma EcgTextsDiverge(search: Search)
    requires IsSearch(search)
    ensures var cmp, l5 := Tiebreak(Before(Registers.Fork()), CompareIds), [Tree(Typed(5), [])];
      InsertBySearch(search, cmp, InsertBySearch(search, cmp, l5, Typed(1)), Typed(3))
      != InsertBySearch(search, cmp, InsertBySearch(search, cmp, l5, Typed(3)), Typed(1))
    ensures !SiblingLaw<OperationId, HeaderId>(search, Before(Registers.Fork()), CompareIds)
  {
    hide HappensBefore, CompareIds, Registers.Fork, InsertBySearch, IsSearch, Boundary, Inverts, StrictPartialOrder;
    Registers.ForkInverts();
    HappensBeforeIsOrder(Registers.Fork());
    CompareIdsIsOrder();
    InversionBreaksSiblingLaw<OperationId, HeaderId>(search, Before(Registers.Fork()), CompareIds, 5, 1, 3,
                                                     Typed(5).id, Typed(1).id, Typed(3).id);
  }
}
