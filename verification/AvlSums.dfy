/** Counts and sums on the way up from a changed subtree, as the code repairs them node by node. */
module AvlSums {
  import opened Basics
  import opened AvlTree

  /** Above the hole only the siblings are right, and the counts are those for a hole of `k` nodes. */
  ghost predicate CtxPending<A>(g: Algebra<A>, count: map<Link, int>, assoc: map<Link, A>, c: Ctx, k: int) {
    match c
    case Top => true
    case Step(up, n, _, sib) =>
      && Summed(g, count, assoc, sib)
      && n in count && count[n] == k + 1 + |Seq(sib)|
      && CtxPending(g, count, assoc, up, k + 1 + |Seq(sib)|)
  }

  lemma {:induction false} SummedIsPending<A>(g: Algebra<A>, count: map<Link, int>, assoc: map<Link, A>, c: Ctx, s: seq<Link>)
    requires CtxSummed(g, count, assoc, c, s)
    ensures CtxPending(g, count, assoc, c, |s|)
  {
    match c
    case Top =>
    case Step(up, n, side, sib) => SummedIsPending(g, count, assoc, up, Around(side, s, n, sib));
  }

  lemma {:induction false} PendingFrame<A>(g: Algebra<A>, count: map<Link, int>, assoc: map<Link, A>,
                                           count': map<Link, int>, assoc': map<Link, A>, c: Ctx, k: int)
    requires CtxPending(g, count, assoc, c, k) && Kept(count, count', CtxElems(c)) && Kept(assoc, assoc', CtxElems(c))
    ensures CtxPending(g, count', assoc', c, k)
  {
    match c
    case Top =>
    case Step(up, n, side, sib) =>
      SummedFrame(g, count, assoc, count', assoc', sib);
      PendingFrame(g, count, assoc, count', assoc', up, k + 1 + |Seq(sib)|);
  }

  /** What the code can read at the node above a finished subtree. */
  lemma {:induction false} PendingSite<A>(g: Algebra<A>, child: Children, parent: Parents, root: Link,
                                          count: map<Link, int>, assoc: map<Link, A>, c: Ctx, done: Tree, k: int)
    requires Distinct(Plug(c, done)) && Shape(child, parent, Plug(c, done), root, NULL) && c.Step?
    requires Summed(g, count, assoc, done) && CtxPending(g, count, assoc, c, k)
    ensures c.n in parent && parent[c.n] == Head(c.up)
    ensures AtSite(g, child, count, assoc, c, done)
  {
    PlugElems(c, done);
    PlugShape(child, parent, root, c, done);
    LinkSums(g, child, parent, count, assoc, done, TopLink(done), c.n);
    LinkSums(g, child, parent, count, assoc, c.sib, child[(c.n, !c.side)], c.n);
  }

  lemma {:induction false} RecomputeJoin<A(!new)>(g: Algebra<A>, child: Children, count: map<Link, int>, assoc: map<Link, A>,
                                                  count': map<Link, int>, assoc': map<Link, A>, side: bool, t: Tree, n: Link, sib: Tree)
    requires Monoid(g) && (n, false) in child && (n, true) in child
    requires Leads(g, count, assoc, child[(n, side)], Seq(t)) && Leads(g, count, assoc, child[(n, !side)], Seq(sib))
    requires count' == count[n := 1 + |Seq(t)| + |Seq(sib)|]
    requires assoc' == assoc[n := NodeAssoc(g, assoc, n, child[(n, false)], child[(n, true)])]
    ensures Carries(g, count', assoc', n, Around(side, Seq(t), n, sib))
  {
    if side {
      Recompute(g, child, count, assoc, count', assoc', n, Seq(sib), Seq(t));
    } else {
      Recompute(g, child, count, assoc, count', assoc', n, Seq(t), Seq(sib));
    }
  }

  /** `whole` is repaired up to `done`; above it the counts are still short of `gained` nodes. */
  ghost predicate InProgress<A>(g: Algebra<A>, count: map<Link, int>, assoc: map<Link, A>, c: Ctx, done: Tree, whole: Tree, gained: int) {
    && Plug(c, done) == whole
    && Summed(g, count, assoc, done)
    && CtxPending(g, count, assoc, c, |Seq(done)| - gained)
  }

  /** The node above the finished subtree and what is needed to repair it. */
  ghost predicate AtSite<A>(g: Algebra<A>, child: Children, count: map<Link, int>, assoc: map<Link, A>, c: Ctx, done: Tree) {
    && c.Step? && Apart(c, done) && c.n in count
    && (c.n, false) in child && (c.n, true) in child
    && Leads(g, count, assoc, child[(c.n, c.side)], Seq(done))
    && Leads(g, count, assoc, child[(c.n, !c.side)], Seq(c.sib))
  }

  lemma {:induction false} PendingKept<A>(g: Algebra<A>, count: map<Link, int>, assoc: map<Link, A>,
                                          count': map<Link, int>, assoc': map<Link, A>, c: Ctx, done: Tree, k: int)
    requires c.Step? && Apart(c, done) && Summed(g, count, assoc, done) && CtxPending(g, count, assoc, c, k)
    requires forall x :: x != c.n ==> SameAt(count, count', x) && SameAt(assoc, assoc', x)
    ensures Summed(g, count', assoc', done) && Summed(g, count', assoc', c.sib)
    ensures CtxPending(g, count', assoc', c.up, k + 1 + |Seq(c.sib)|)
  {
    SummedFrame(g, count, assoc, count', assoc', done);
    SummedFrame(g, count, assoc, count', assoc', c.sib);
    PendingFrame(g, count, assoc, count', assoc', c.up, k + 1 + |Seq(c.sib)|);
  }

  /** One step up: the node above the finished subtree is repaired and becomes part of it. */
  lemma {:induction false} PendingStep<A(!new)>(g: Algebra<A>, child: Children, count: map<Link, int>, assoc: map<Link, A>,
                                                count': map<Link, int>, assoc': map<Link, A>, c: Ctx, done: Tree, gained: int)
    returns (t: Tree)
    requires Monoid(g) && AtSite(g, child, count, assoc, c, done)
    requires Summed(g, count, assoc, done) && CtxPending(g, count, assoc, c, |Seq(done)| - gained)
    requires count' == count[c.n := count[c.n] + gained]
    requires assoc' == assoc[c.n := NodeAssoc(g, assoc, c.n, child[(c.n, false)], child[(c.n, true)])]
    ensures t == Join(c.side, done, c.n, c.sib)
    ensures Summed(g, count', assoc', t) && CtxPending(g, count', assoc', c.up, |Seq(t)| - gained)
  {
    t := Join(c.side, done, c.n, c.sib);
    JoinNodes(c.side, done, c.n, c.sib);
    assert count[c.n] == |Seq(done)| - gained + 1 + |Seq(c.sib)|;
    assert Carries(g, count', assoc', c.n, Around(c.side, Seq(done), c.n, c.sib)) by {
      RecomputeJoin(g, child, count, assoc, count', assoc', c.side, done, c.n, c.sib);
    }
    PendingKept(g, count, assoc, count', assoc', c, done, |Seq(done)| - gained);
    JoinSummed(g, count', assoc', c.side, done, c.n, c.sib);
  }

  /** A new leaf in the hole carries its own value; above it everything is one short. */
  lemma {:induction false} LeafSums<A(!new)>(g: Algebra<A>, count: map<Link, int>, assoc: map<Link, A>, c: Ctx, node: Link)
    requires Monoid(g) && node !in CtxElems(c) && Summed(g, count, assoc, Plug(c, Leaf))
    ensures Summed(g, count[node := 1], assoc[node := g.value(node)], Node(Leaf, node, Leaf))
    ensures CtxPending(g, count[node := 1], assoc[node := g.value(node)], c, 0)
  {
    var count', assoc' := count[node := 1], assoc[node := g.value(node)];
    PlugSummed(g, count, assoc, c, Leaf);
    SummedIsPending(g, count, assoc, c, []);
    PendingFrame(g, count, assoc, count', assoc', c, 0);
    FoldSingle(g, node);
    assert Seq(Node(Leaf, node, Leaf)) == [node];
  }
}
