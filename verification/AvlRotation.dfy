/** What a rotation does to links, counts and sums, and that it keeps the in-order sequence. */
module AvlRotation {
  import opened Basics
  import opened AvlTree

  /** The subtree at `r` before a rotation in direction `dir`; its child `nr` is going up. */
  function Unrotated(dir: bool, outer: Tree, r: Link, inner: Tree, nr: Link, far: Tree): Tree {
    Join(dir, outer, r, Join(dir, inner, nr, far))
  }

  function Rotated(dir: bool, outer: Tree, r: Link, inner: Tree, nr: Link, far: Tree): Tree {
    Join(dir, Join(dir, outer, r, inner), nr, far)
  }

  lemma {:induction false} RotatedNodes(dir: bool, outer: Tree, r: Link, inner: Tree, nr: Link, far: Tree)
    ensures var t, t' := Unrotated(dir, outer, r, inner, nr, far), Rotated(dir, outer, r, inner, nr, far);
            Seq(t) == Seq(t') && Elems(t) == Elems(t') && (Distinct(t) <==> Distinct(t'))
  {
    JoinNodes(dir, inner, nr, far);
    JoinNodes(dir, outer, r, Join(dir, inner, nr, far));
    JoinNodes(dir, outer, r, inner);
    JoinNodes(dir, Join(dir, outer, r, inner), nr, far);
    if dir {
      Regroup5(Seq(far), [nr], Seq(inner), [r], Seq(outer));
    } else {
      Regroup5(Seq(outer), [r], Seq(inner), [nr], Seq(far));
    }
  }

  lemma {:induction false} Regroup5<T>(a: seq<T>, b: seq<T>, c: seq<T>, d: seq<T>, e: seq<T>)
    ensures a + b + (c + d + e) == (a + b + c) + d + e
  {}

  /** A rotation anywhere in a tree keeps the in-order sequence and the set of nodes. */
  lemma {:induction false} RotationKeepsOrder(c: Ctx, dir: bool, outer: Tree, r: Link, inner: Tree, nr: Link, far: Tree)
    ensures var t, t' := Unrotated(dir, outer, r, inner, nr, far), Rotated(dir, outer, r, inner, nr, far);
            && Seq(Plug(c, t)) == Seq(Plug(c, t')) && Elems(Plug(c, t)) == Elems(Plug(c, t'))
            && (Distinct(Plug(c, t)) <==> Distinct(Plug(c, t')))
  {
    var t, t' := Unrotated(dir, outer, r, inner, nr, far), Rotated(dir, outer, r, inner, nr, far);
    RotatedNodes(dir, outer, r, inner, nr, far);
    PlugElems(c, t);
    PlugElems(c, t');
    PlugSeq(c, t);
    PlugSeq(c, t');
  }

  /** The links after a rotation of `r` with its child `nr`, whose subtree `inner` changes hands. */
  ghost predicate Relinked(child: Children, parent: Parents, child': Children, parent': Parents,
                           c: Ctx, dir: bool, r: Link, inner: Tree, nr: Link)
  {
    && (forall x, b :: (x, b) != (r, !dir) && (x, b) != (nr, dir) && !(c.Step? && (x, b) == (c.n, c.side)) ==> SameAt(child, child', (x, b)))
    && (forall x :: x != r && x != nr && !(inner.Node? && x == inner.n) ==> SameAt(parent, parent', x))
    && (r, !dir) in child' && child'[(r, !dir)] == TopLink(inner)
    && (nr, dir) in child' && child'[(nr, dir)] == r
    && (c.Step? ==> (c.n, c.side) in child' && child'[(c.n, c.side)] == nr)
    && r in parent' && parent'[r] == nr
    && nr in parent' && parent'[nr] == Head(c)
    && (inner.Node? ==> inner.n in parent' && parent'[inner.n] == r)
  }

  /** The child links as the code changes them. */
  ghost function RotatedChild(child: Children, up: Link, dir: bool, r: Link, nr: Link): Children
    requires (nr, dir) in child && (up != NULL ==> (up, true) in child)
  {
    var child1 := child[(r, !dir) := child[(nr, dir)]][(nr, dir) := r];
    if up != NULL then child1[(up, r == child1[(up, true)]) := nr] else child1
  }

  ghost function RotatedParent(parent: Parents, child: Children, up: Link, dir: bool, r: Link, nr: Link): Parents
    requires (nr, dir) in child
  {
    (if child[(nr, dir)] != NULL then parent[child[(nr, dir)] := r] else parent)[nr := up][r := nr]
  }

  lemma {:induction false} RotationRelinks(child: Children, parent: Parents, c: Ctx, dir: bool, r: Link, inner: Tree, nr: Link)
    requires Site(child, c, dir, r, inner, nr)
    ensures Relinked(child, parent, RotatedChild(child, Head(c), dir, r, nr), RotatedParent(parent, child, Head(c), dir, r, nr),
                     c, dir, r, inner, nr)
  {}

  /** The links around a rotation before it. */
  ghost predicate Site(child: Children, c: Ctx, dir: bool, r: Link, inner: Tree, nr: Link) {
    && r != NULL && nr != NULL && (inner.Node? ==> inner.n != NULL) && (c.Step? ==> c.n != NULL)
    && (r, !dir) in child && child[(r, !dir)] == nr && (nr, dir) in child && child[(nr, dir)] == TopLink(inner)
    && r != nr && TopLink(inner) != r && TopLink(inner) != nr
    && (c.Step? ==>
          && c.n != r && c.n != nr && c.n != TopLink(inner)
          && (c.n, false) in child && (c.n, true) in child && (r == child[(c.n, true)] <==> c.side))
  }

  lemma {:induction false} RotationSite(child: Children, parent: Parents, root: Link, c: Ctx, dir: bool,
                                        outer: Tree, r: Link, inner: Tree, nr: Link, far: Tree)
    requires Distinct(Plug(c, Unrotated(dir, outer, r, inner, nr, far)))
    requires Shape(child, parent, Plug(c, Unrotated(dir, outer, r, inner, nr, far)), root, NULL)
    ensures Site(child, c, dir, r, inner, nr)
  {
    var t := Unrotated(dir, outer, r, inner, nr, far);
    PlugElems(c, t);
    PlugShape(child, parent, root, c, t);
    JoinShape(child, parent, dir, outer, r, Join(dir, inner, nr, far), Head(c));
    JoinShape(child, parent, dir, inner, nr, far, r);
    JoinNodes(dir, inner, nr, far);
    JoinNodes(dir, outer, r, Join(dir, inner, nr, far));
  }

  lemma {:induction false} RotatedPieces(child: Children, parent: Parents, child': Children, parent': Parents,
                                         c: Ctx, dir: bool, outer: Tree, r: Link, inner: Tree, nr: Link, far: Tree)
    requires Relinked(child, parent, child', parent', c, dir, r, inner, nr)
    requires Distinct(inner) && r !in Elems(outer) + Elems(inner) + Elems(far) && nr !in Elems(outer) + Elems(inner) + Elems(far)
    requires Elems(inner) !! Elems(outer) && Elems(inner) !! Elems(far) && CtxElems(c) !! Elems(outer) + Elems(inner) + Elems(far)
    requires Shape(child, parent, outer, TopLink(outer), r)
    requires Shape(child, parent, inner, TopLink(inner), nr)
    requires Shape(child, parent, far, TopLink(far), nr)
    ensures Shape(child', parent', outer, TopLink(outer), r)
    ensures Shape(child', parent', inner, TopLink(inner), r)
    ensures Shape(child', parent', far, TopLink(far), nr)
  {
    ShapeFrame(child, parent, child', parent', outer, TopLink(outer), r);
    Reparent(child, parent, child', parent', inner, nr, r);
    ShapeFrame(child, parent, child', parent', far, TopLink(far), nr);
  }

  lemma {:induction false} RotatedBelow(child: Children, parent: Parents, child': Children, parent': Parents,
                                        c: Ctx, dir: bool, outer: Tree, r: Link, inner: Tree, nr: Link, far: Tree)
    requires Relinked(child, parent, child', parent', c, dir, r, inner, nr)
    requires Apart(c, Unrotated(dir, outer, r, inner, nr, far))
    requires Shape(child, parent, Unrotated(dir, outer, r, inner, nr, far), r, Head(c))
    ensures Shape(child', parent', Rotated(dir, outer, r, inner, nr, far), nr, Head(c))
  {
    JoinShape(child, parent, dir, outer, r, Join(dir, inner, nr, far), Head(c));
    JoinShape(child, parent, dir, inner, nr, far, r);
    JoinNodes(dir, inner, nr, far);
    JoinNodes(dir, outer, r, Join(dir, inner, nr, far));
    RotatedPieces(child, parent, child', parent', c, dir, outer, r, inner, nr, far);
    assert SameAt(child, child', (r, dir)) && SameAt(child, child', (nr, !dir));
    JoinShape(child', parent', dir, outer, r, inner, nr);
    JoinShape(child', parent', dir, Join(dir, outer, r, inner), nr, far, Head(c));
  }

  /** A rotation anywhere in a stored tree leaves the rotated tree stored. */
  lemma {:induction false} RotatedLinks(child: Children, parent: Parents, child': Children, parent': Parents,
                                        root: Link, root': Link, c: Ctx, dir: bool,
                                        outer: Tree, r: Link, inner: Tree, nr: Link, far: Tree)
    requires Distinct(Plug(c, Unrotated(dir, outer, r, inner, nr, far)))
    requires Shape(child, parent, Plug(c, Unrotated(dir, outer, r, inner, nr, far)), root, NULL)
    requires Relinked(child, parent, child', parent', c, dir, r, inner, nr)
    requires root' == if c.Top? then nr else root
    ensures Shape(child', parent', Plug(c, Rotated(dir, outer, r, inner, nr, far)), root', NULL)
  {
    var t, t' := Unrotated(dir, outer, r, inner, nr, far), Rotated(dir, outer, r, inner, nr, far);
    PlugElems(c, t);
    PlugShape(child, parent, root, c, t);
    RotatedBelow(child, parent, child', parent', c, dir, outer, r, inner, nr, far);
    JoinNodes(dir, inner, nr, far);
    JoinNodes(dir, outer, r, Join(dir, inner, nr, far));
    Relink(child, parent, child', parent', root, root', c, r, nr);
    PlugShape(child', parent', root', c, t');
  }

  lemma {:induction false} RotatedSums<A>(g: Algebra<A>, count: map<Link, int>, assoc: map<Link, A>,
                                          count': map<Link, int>, assoc': map<Link, A>, c: Ctx, dir: bool,
                                          outer: Tree, r: Link, inner: Tree, nr: Link, far: Tree)
    requires Distinct(Plug(c, Unrotated(dir, outer, r, inner, nr, far)))
    requires Summed(g, count, assoc, Plug(c, Unrotated(dir, outer, r, inner, nr, far)))
    requires forall x :: x != r && x != nr ==> SameAt(count, count', x) && SameAt(assoc, assoc', x)
    requires Carries(g, count', assoc', r, Seq(Join(dir, outer, r, inner)))
    requires Carries(g, count', assoc', nr, Seq(Rotated(dir, outer, r, inner, nr, far)))
    ensures Summed(g, count', assoc', Plug(c, Rotated(dir, outer, r, inner, nr, far)))
  {
    var t, t' := Unrotated(dir, outer, r, inner, nr, far), Rotated(dir, outer, r, inner, nr, far);
    RotatedNodes(dir, outer, r, inner, nr, far);
    PlugElems(c, t);
    PlugSummed(g, count, assoc, c, t);
    CtxSummedFrame(g, count, assoc, count', assoc', c, Seq(t));
    RotatedSumsBelow(g, count, assoc, count', assoc', dir, outer, r, inner, nr, far);
    PlugSummed(g, count', assoc', c, t');
  }

  lemma {:induction false} RotatedSumsBelow<A>(g: Algebra<A>, count: map<Link, int>, assoc: map<Link, A>,
                                               count': map<Link, int>, assoc': map<Link, A>, dir: bool,
                                               outer: Tree, r: Link, inner: Tree, nr: Link, far: Tree)
    requires Distinct(Unrotated(dir, outer, r, inner, nr, far))
    requires Summed(g, count, assoc, Unrotated(dir, outer, r, inner, nr, far))
    requires forall x :: x != r && x != nr ==> SameAt(count, count', x) && SameAt(assoc, assoc', x)
    requires Carries(g, count', assoc', r, Seq(Join(dir, outer, r, inner)))
    requires Carries(g, count', assoc', nr, Seq(Rotated(dir, outer, r, inner, nr, far)))
    ensures r in Elems(Unrotated(dir, outer, r, inner, nr, far)) && nr in Elems(Unrotated(dir, outer, r, inner, nr, far))
    ensures Summed(g, count', assoc', Rotated(dir, outer, r, inner, nr, far))
  {
    JoinNodes(dir, inner, nr, far);
    JoinNodes(dir, outer, r, Join(dir, inner, nr, far));
    JoinNodes(dir, outer, r, inner);
    JoinNodes(dir, Join(dir, outer, r, inner), nr, far);
    JoinSummed(g, count, assoc, dir, outer, r, Join(dir, inner, nr, far));
    JoinSummed(g, count, assoc, dir, inner, nr, far);
    SummedFrame(g, count, assoc, count', assoc', outer);
    SummedFrame(g, count, assoc, count', assoc', inner);
    SummedFrame(g, count, assoc, count', assoc', far);
    JoinSummed(g, count', assoc', dir, outer, r, inner);
    JoinSummed(g, count', assoc', dir, Join(dir, outer, r, inner), nr, far);
  }

  /** What the sums around a rotation are before they are recomputed. */
  ghost predicate SumsAround<A>(g: Algebra<A>, child: Children, count: map<Link, int>, assoc: map<Link, A>, dir: bool,
                                outer: Tree, r: Link, inner: Tree, nr: Link, far: Tree) {
    && r != nr && r != NULL && nr != NULL && r in count && nr in count && r in assoc && nr in assoc
    && (r, dir) in child && (r, !dir) in child && (nr, dir) in child && (nr, !dir) in child && child[(nr, dir)] == r
    && Leads(g, count, assoc, child[(r, dir)], Seq(outer))
    && Leads(g, count, assoc, child[(r, !dir)], Seq(inner))
    && Leads(g, count, assoc, child[(nr, !dir)], Seq(far))
    && child[(r, dir)] !in {r, nr} && child[(r, !dir)] !in {r, nr} && child[(nr, !dir)] !in {r, nr}
  }

  lemma {:induction false} SumSite<A>(g: Algebra<A>, child: Children, parent: Parents, root: Link,
                                      count: map<Link, int>, assoc: map<Link, A>, c: Ctx, dir: bool,
                                      outer: Tree, r: Link, inner: Tree, nr: Link, far: Tree)
    requires Distinct(Plug(c, Unrotated(dir, outer, r, inner, nr, far)))
    requires Shape(child, parent, Plug(c, Rotated(dir, outer, r, inner, nr, far)), root, NULL)
    requires Summed(g, count, assoc, Plug(c, Unrotated(dir, outer, r, inner, nr, far)))
    ensures SumsAround(g, child, count, assoc, dir, outer, r, inner, nr, far)
  {
    var t, t' := Unrotated(dir, outer, r, inner, nr, far), Rotated(dir, outer, r, inner, nr, far);
    PlugElems(c, t);
    PlugShape(child, parent, root, c, t');
    PlugSummed(g, count, assoc, c, t);
    JoinNodes(dir, inner, nr, far);
    JoinNodes(dir, outer, r, Join(dir, inner, nr, far));
    JoinSummed(g, count, assoc, dir, outer, r, Join(dir, inner, nr, far));
    JoinSummed(g, count, assoc, dir, inner, nr, far);
    JoinShape(child, parent, dir, Join(dir, outer, r, inner), nr, far, Head(c));
    JoinShape(child, parent, dir, outer, r, inner, nr);
    LinkSums(g, child, parent, count, assoc, outer, TopLink(outer), r);
    LinkSums(g, child, parent, count, assoc, inner, TopLink(inner), r);
    LinkSums(g, child, parent, count, assoc, far, TopLink(far), nr);
  }

  /** Recomputing `r` and then `nr` gives both the sums of their new subtrees. */
  lemma {:induction false} SumsRotated<A(!new)>(
    g: Algebra<A>, child: Children, count: map<Link, int>, assoc: map<Link, A>,
    count1: map<Link, int>, assoc1: map<Link, A>, count': map<Link, int>, assoc': map<Link, A>, dir: bool,
    outer: Tree, r: Link, inner: Tree, nr: Link, far: Tree)
    requires Monoid(g) && SumsAround(g, child, count, assoc, dir, outer, r, inner, nr, far)
    requires Recomputed(g, child, count, assoc, count1, assoc1, r)
    requires Recomputed(g, child, count1, assoc1, count', assoc', nr)
    ensures Carries(g, count', assoc', r, Seq(Join(dir, outer, r, inner)))
    ensures Carries(g, count', assoc', nr, Seq(Rotated(dir, outer, r, inner, nr, far)))
  {
    JoinNodes(dir, outer, r, inner);
    JoinNodes(dir, Join(dir, outer, r, inner), nr, far);
    var s := Seq(Join(dir, outer, r, inner));
    if dir {
      Recompute(g, child, count, assoc, count1, assoc1, r, Seq(inner), Seq(outer));
      Recompute(g, child, count1, assoc1, count', assoc', nr, Seq(far), s);
    } else {
      Recompute(g, child, count, assoc, count1, assoc1, r, Seq(outer), Seq(inner));
      Recompute(g, child, count1, assoc1, count', assoc', nr, s, Seq(far));
    }
  }
}
