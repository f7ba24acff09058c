/** AVL trees of entries ordered by time, without sums. */
module TimeTree {
  import opened Basics
  import opened AvlOrder
  import opened AvlTree
  import opened TimeOrder
  import CAvl

  const UNIT: Algebra<()> := Algebra((_: Link) => (), (_: (), _: ()) => (), ())

  lemma UnitIsMonoid()
    ensures Monoid(UNIT)
  {
    forall a ensures Neutral(UNIT, a) {}
    forall a, b, c ensures Associates(UNIT, a, b, c) {}
  }

  method NewTree() returns (tree: CAvl.CAvl<()>)
    ensures fresh(tree) && tree.Valid() && tree.Contents() == []
  {
    UnitIsMonoid();
    tree := new CAvl.CAvl<()>(UNIT);
  }

  /** The insertion of a new entry never finds an equal one. */
  method Insert(tree: CAvl.CAvl<()>, time: map<int, int>, e: int) returns (ghost pos: int)
    requires tree.Valid() && Sorted(CompareTimes(time), tree.Contents()) && e !in tree.Contents() && e != NULL
    modifies tree
    ensures tree.Valid() && Sorted(CompareTimes(time), tree.Contents())
    ensures InsertedAt(old(tree.Contents()), tree.Contents(), e, pos)
  {
    CompareOrdering(time);
    NeverEqual(time, tree.Contents(), e);
    var inserted, ref;
    inserted, ref, pos := tree.Insert(CompareTimes(time), e);
  }
}
