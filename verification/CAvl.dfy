/** The AVL tree of structure/CAvl_impl.h, working in place on linked nodes. */
module CAvl {
  import opened Basics
  import opened AvlTree
  import opened AvlRotation
  import opened AvlBalance
  import opened AvlSums
  import opened AvlAttach
  import opened AvlOrder
  import opened AvlSwap
  import opened AvlRemove

  class CAvl<A(!new)> {
    const g: Algebra<A>
    var root: Link
    // the tree members of all nodes
    var child: Children
    var parent: Parents
    var balance: map<Link, int>
    var count: map<Link, int>
    var assoc: map<Link, A>
    ghost var tree: Tree

    constructor (g: Algebra<A>)
      requires Monoid(g)
      ensures Valid() && Contents() == [] && this.g == g
    {
      this.g := g;
      root, child, parent, balance, count, assoc := NULL, map[], map[], map[], map[], map[];
      tree := Leaf;
    }

    ghost predicate Valid()
      reads this
    {
      Linked(tree) && Balanced(balance, tree)
    }

    /** The nodes in the tree, in order. */
    ghost function Contents(): seq<Link>
      reads this
    {
      Seq(tree)
    }

    /** Links, counts and sums are right for `t`; balance factors are not considered. */
    ghost predicate Linked(t: Tree)
      reads this`root, this`child, this`parent, this`count, this`assoc
    {
      Monoid(g) && Distinct(t) && Shape(child, parent, t, root, NULL) && Summed(g, count, assoc, t)
    }

    /** CAvl_update_count_from_children. */
    method UpdateCountFromChildren(n: Link)
      requires (n, false) in child && (child[(n, false)] == NULL || child[(n, false)] in count)
      requires (n, true) in child && (child[(n, true)] == NULL || child[(n, true)] in count)
      modifies this`count
      ensures count == old(count)[n := 1 + CountAt(old(count), child[(n, false)]) + CountAt(old(count), child[(n, true)])]
    {
      var leftCount := CountAt(count, child[(n, false)]);
      var rightCount := CountAt(count, child[(n, true)]);
      count := count[n := 1 + leftCount + rightCount];
    }

    /** The link that led to `from`, at its parent or at the root, leads to `to`. */
    method Redirect(parentLink: Link, from: Link, to: Link)
      requires parentLink != NULL ==> (parentLink, true) in child
      modifies this`child, this`root
      ensures child == if parentLink != NULL then old(child)[(parentLink, from == old(child)[(parentLink, true)]) := to] else old(child)
      ensures root == if parentLink != NULL then old(root) else to
    {
      if parentLink != NULL {
        child := child[(parentLink, from == child[(parentLink, true)]) := to];
      } else {
        root := to;
      }
    }

    /** The link changes of CAvl_rotate. */
    method RotateLinks(r: Link, dir: bool, rParent: Link, nr: Link)
      requires (nr, dir) in child && r != nr && rParent != nr && (rParent != NULL ==> rParent != r && (rParent, true) in child)
      modifies this`root, this`child, this`parent
      ensures child == RotatedChild(old(child), rParent, dir, r, nr)
      ensures parent == RotatedParent(old(parent), old(child), rParent, dir, r, nr)
      ensures root == if rParent != NULL then old(root) else nr
    {
      child := child[(r, !dir) := child[(nr, dir)]];
      if child[(r, !dir)] != NULL {
        parent := parent[child[(r, !dir)] := r];
      }
      child := child[(nr, dir) := r];
      parent := parent[nr := rParent];
      Redirect(rParent, r, nr);
      parent := parent[r := nr];
    }

    /** CAvl_rotate. */
    method Rotate(r: Link, dir: bool, rParent: Link,
                  ghost c: Ctx, ghost outer: Tree, ghost inner: Tree, ghost top: Link, ghost far: Tree)
      requires Linked(Plug(c, Unrotated(dir, outer, r, inner, top, far)))
      requires rParent == Head(c)
      modifies this`root, this`child, this`parent, this`count, this`assoc
      ensures Linked(Plug(c, Rotated(dir, outer, r, inner, top, far)))
    {
      RotationSite(child, parent, root, c, dir, outer, r, inner, top, far);
      var nr := child[(r, !dir)];
      RotateLinks(r, dir, rParent, nr);
      RotationRelinks(old(child), old(parent), c, dir, r, inner, nr);
      RotatedLinks(old(child), old(parent), child, parent, old(root), root, c, dir, outer, r, inner, nr, far);
      UpdateRotatedSums(r, nr, dir, c, outer, inner, far);
      RotationKeepsOrder(c, dir, outer, r, inner, nr, far);
    }

    method UpdateRotatedSums(r: Link, nr: Link, ghost dir: bool, ghost c: Ctx, ghost outer: Tree, ghost inner: Tree, ghost far: Tree)
      requires Monoid(g) && Distinct(Plug(c, Unrotated(dir, outer, r, inner, nr, far)))
      requires Shape(child, parent, Plug(c, Rotated(dir, outer, r, inner, nr, far)), root, NULL)
      requires Summed(g, count, assoc, Plug(c, Unrotated(dir, outer, r, inner, nr, far)))
      modifies this`count, this`assoc
      ensures Summed(g, count, assoc, Plug(c, Rotated(dir, outer, r, inner, nr, far)))
    {
      SumSite(g, child, parent, root, count, assoc, c, dir, outer, r, inner, nr, far);
      RecomputeSums(r, nr, dir, outer, inner, far);
      RotatedSums(g, old(count), old(assoc), count, assoc, c, dir, outer, r, inner, nr, far);
    }

    /** The count and sum changes of CAvl_rotate. */
    method RecomputeSums(r: Link, nr: Link, ghost dir: bool, ghost outer: Tree, ghost inner: Tree, ghost far: Tree)
      requires Monoid(g) && SumsAround(g, child, count, assoc, dir, outer, r, inner, nr, far)
      modifies this`count, this`assoc
      ensures Carries(g, count, assoc, r, Seq(Join(dir, outer, r, inner)))
      ensures Carries(g, count, assoc, nr, Seq(Rotated(dir, outer, r, inner, nr, far)))
      ensures forall x :: x != r && x != nr ==> SameAt(old(count), count, x) && SameAt(old(assoc), assoc, x)
    {
      ghost var count0, assoc0 := count, assoc;
      UpdateCountFromChildren(r);
      ghost var count1 := count;
      UpdateCountFromChildren(nr);
      assoc := assoc[r := NodeAssoc(g, assoc, r, child[(r, false)], child[(r, true)])];
      ghost var assoc1 := assoc;
      assoc := assoc[nr := NodeAssoc(g, assoc, nr, child[(nr, false)], child[(nr, true)])];
      SumsRotated(g, child, count0, assoc0, count1, assoc1, count, assoc, dir, outer, r, inner, nr, far);
    }

    /** The links of the top node of `t` and of the node above it. */
    ghost predicate Placed(c: Ctx, t: Tree)
      requires t.Node?
      reads this`child, this`parent, this`root
    {
      && t.n != NULL && t.n in parent && parent[t.n] == Head(c) && (t.n, false) in child && (t.n, true) in child
      && child[(t.n, false)] == TopLink(t.left) && child[(t.n, true)] == TopLink(t.right)
      && (c.Step? ==>
            && c.n != NULL && (c.n, false) in child && (c.n, true) in child
            && (t.n == child[(c.n, true)] <==> c.side) && (t.n == child[(c.n, false)] <==> !c.side))
      && (c.Top? ==> root == t.n)
    }

    lemma {:induction false} Place(c: Ctx, t: Tree)
      requires Linked(Plug(c, t)) && t.Node?
      ensures Placed(c, t)
    {
      PlugElems(c, t);
      PlugShape(child, parent, root, c, t);
    }

    /** The heavy child of `node` leans outward or not at all: one rotation. */
    method RestoreOutward(node: Link, bside: bool, bsidef: int, top: Link, ghost h: int,
                          ghost up: Ctx, ghost inner: Tree, ghost far: Tree, ghost light: Tree)
      returns (shrink: int, ghost t': Tree)
      requires bsidef == Sign(bside)
      requires Linked(Plug(up, Unrotated(!bside, light, node, inner, top, far)))
      requires Balanced(balance, Join(!bside, inner, top, far)) && Balanced(balance, light)
      requires Height(Join(!bside, inner, top, far)) == Height(light) + 2
      requires top in balance && (balance[top] == bsidef || balance[top] == 0)
      requires CtxBalanced(balance, up, h)
      modifies this`root, this`child, this`parent, this`count, this`assoc, this`balance
      ensures t' == Rotated(!bside, light, node, inner, top, far)
      ensures Linked(Plug(up, t')) && Balanced(balance, t') && CtxBalanced(balance, up, h)
      ensures Height(t') == Height(light) + 3 - shrink && 0 <= shrink <= 1
      ensures Seq(Plug(up, t')) == Seq(Plug(up, Unrotated(!bside, light, node, inner, top, far)))
    {
      ghost var before := balance;
      t' := Rotated(!bside, light, node, inner, top, far);
      Place(up, Unrotated(!bside, light, node, inner, top, far));
      RotationKeepsOrder(up, !bside, light, node, inner, top, far);
      Rotate(node, !bside, parent[node], up, light, inner, top, far);
      if balance[top] == 0 {
        balance := balance[node := 1 * bsidef];
        balance := balance[top := -1 * bsidef];
        shrink := 0;
      } else {
        balance := balance[node := 0];
        balance := balance[top := 0];
        shrink := 1;
      }
      OutwardRestored(before, balance, up, h, bside, light, node, inner, top, far);
    }

    /** The two rotations that bring `gchild` from below the heavy child to the top. */
    method RotateTwice(node: Link, bside: bool, top: Link, ghost up: Ctx,
                       ghost ga: Tree, ghost gchild: Link, ghost gb: Tree, ghost far: Tree, ghost light: Tree)
      requires Linked(Plug(up, Join(bside, HeavyInward(bside, ga, gchild, gb, top, far), node, light)))
      modifies this`root, this`child, this`parent, this`count, this`assoc
      ensures Linked(Plug(up, DoublyRotated(bside, light, node, ga, gchild, gb, top, far)))
      ensures Seq(Plug(up, DoublyRotated(bside, light, node, ga, gchild, gb, top, far)))
           == Seq(Plug(up, Join(bside, HeavyInward(bside, ga, gchild, gb, top, far), node, light)))
    {
      ghost var lower, low := Step(up, node, bside, light), Join(bside, far, top, gb);
      assert Plug(lower, Unrotated(bside, far, top, gb, gchild, ga))
          == Plug(up, Join(bside, HeavyInward(bside, ga, gchild, gb, top, far), node, light));
      assert Plug(lower, Rotated(bside, far, top, gb, gchild, ga)) == Plug(up, Unrotated(!bside, light, node, ga, gchild, low));
      RotationKeepsOrder(lower, bside, far, top, gb, gchild, ga);
      Rotate(top, bside, node, lower, far, gb, gchild, ga);
      Place(up, Unrotated(!bside, light, node, ga, gchild, low));
      RotationKeepsOrder(up, !bside, light, node, ga, gchild, low);
      Rotate(node, !bside, parent[node], up, light, ga, gchild, low);
    }

    method SetInwardFactors(node: Link, bsidef: int, top: Link, gchild: Link)
      requires gchild in balance && gchild != node && gchild != top
      modifies this`balance
      ensures balance == InwardFactors(old(balance), node, bsidef, top, gchild)
    {
      balance := balance[node := -Max(0, balance[gchild] * bsidef) * bsidef];
      balance := balance[top := Max(0, -balance[gchild] * bsidef) * bsidef];
      balance := balance[gchild := 0];
    }

    /** The heavy child of `node` leans inward: two rotations bring `gchild` to the top. */
    method RestoreInward(node: Link, bside: bool, bsidef: int, top: Link, gchild: Link, ghost h: int,
                         ghost up: Ctx, ghost ga: Tree, ghost gb: Tree, ghost far: Tree, ghost light: Tree)
      returns (ghost t': Tree)
      requires bsidef == Sign(bside)
      requires Linked(Plug(up, Join(bside, HeavyInward(bside, ga, gchild, gb, top, far), node, light)))
      requires Balanced(balance, HeavyInward(bside, ga, gchild, gb, top, far)) && Balanced(balance, light)
      requires Height(HeavyInward(bside, ga, gchild, gb, top, far)) == Height(light) + 2
      requires top in balance && balance[top] == -bsidef && gchild in balance
      requires CtxBalanced(balance, up, h)
      modifies this`root, this`child, this`parent, this`count, this`assoc, this`balance
      ensures t' == DoublyRotated(bside, light, node, ga, gchild, gb, top, far)
      ensures Linked(Plug(up, t')) && Balanced(balance, t') && CtxBalanced(balance, up, h)
      ensures Height(t') == Height(light) + 2
      ensures Seq(Plug(up, t')) == Seq(Plug(up, Join(bside, HeavyInward(bside, ga, gchild, gb, top, far), node, light)))
    {
      t' := DoublyRotated(bside, light, node, ga, gchild, gb, top, far);
      ghost var before := balance;
      InwardApart(up, bside, light, node, ga, gchild, gb, top, far);
      RotateTwice(node, bside, top, up, ga, gchild, gb, far, light);
      SetInwardFactors(node, bsidef, top, gchild);
      InwardRestored(before, balance, up, h, bside, light, node, ga, gchild, gb, top, far);
    }

    /** The transformations of CAvl_rebalance for a balance factor of 2 on side `bside`. */
    method Restore(node: Link, bside: bool, bsidef: int, ghost h: int, ghost up: Ctx, ghost heavy: Tree, ghost light: Tree)
      returns (top: Link, shrink: int, ghost t': Tree)
      requires bsidef == Sign(bside)
      requires Linked(Plug(up, Join(bside, heavy, node, light)))
      requires Balanced(balance, heavy) && Balanced(balance, light) && Height(heavy) == Height(light) + 2
      requires CtxBalanced(balance, up, h)
      modifies this`root, this`child, this`parent, this`count, this`assoc, this`balance
      ensures t'.Node? && top == t'.n
      ensures Linked(Plug(up, t')) && Balanced(balance, t') && CtxBalanced(balance, up, h)
      ensures Height(t') == Height(light) + 3 - shrink && 0 <= shrink <= 1
      ensures Seq(Plug(up, t')) == Seq(Plug(up, Join(bside, heavy, node, light)))
    {
      HeavyNodes(balance, bside, heavy, light);
      Place(Step(up, node, bside, light), heavy);
      PlugShape(child, parent, root, up, Join(bside, heavy, node, light));
      ghost var inner, far := if bside then heavy.left else heavy.right, if bside then heavy.right else heavy.left;
      var heavyTop := child[(node, bside)];
      if balance[heavyTop] * bsidef == -1 {
        var gchild := child[(heavyTop, !bside)];
        ghost var ga, gb := if bside then inner.left else inner.right, if bside then inner.right else inner.left;
        t' := RestoreInward(node, bside, bsidef, heavyTop, gchild, h, up, ga, gb, far, light);
        top, shrink := gchild, 1;
      } else {
        shrink, t' := RestoreOutward(node, bside, bsidef, heavyTop, h, up, inner, far, light);
        top := heavyTop;
      }
    }

    /** The first part of CAvl_rebalance: the height change and the new factor of `node`. */
    method UpdateFactor(node: Link, side: bool, deltac: int, ghost up: Ctx, ghost t: Tree, ghost sib: Tree)
      returns (delta: int, ghost h: int)
      requires -1 <= deltac <= 1 && deltac != 0 && node in balance
      requires Distinct(Plug(up, Join(side, t, node, sib))) && Balanced(balance, t)
      requires CtxBalanced(balance, Step(up, node, side, sib), Height(t) - deltac)
      modifies this`balance
      ensures node in balance && balance[node] == Lean(side, Height(t), Height(sib)) && -2 <= balance[node] <= 2
      ensures Balanced(balance, t) && Balanced(balance, sib)
      ensures CtxBalanced(balance, up, h) && h == Height(Join(side, t, node, sib)) - delta
      ensures -1 <= delta <= 1 && (IsOff(balance[node]) ==> 0 <= delta)
    {
      delta := Delta(balance[node], side, deltac);
      balance := balance[node := balance[node] - OptNeg(deltac, side)];
      h := FactorUpdated(old(balance), balance, up, node, side, t, sib, deltac, delta);
    }

    method Repair(node: Link, bside: bool, bsidef: int, delta0: int, ghost h: int,
                  ghost up: Ctx, ghost side: bool, ghost t: Tree, ghost sib: Tree)
      returns (top: Link, delta: int, ghost t': Tree)
      requires bsidef == Sign(bside) && Lean(side, Height(t), Height(sib)) == 2 * Sign(bside)
      requires Linked(Plug(up, Join(side, t, node, sib))) && Balanced(balance, t) && Balanced(balance, sib)
      requires CtxBalanced(balance, up, h) && h == Height(Join(side, t, node, sib)) - delta0
      modifies this`root, this`child, this`parent, this`count, this`assoc, this`balance
      ensures t'.Node? && top == t'.n
      ensures Linked(Plug(up, t')) && Balanced(balance, t')
      ensures delta0 - 1 <= delta <= delta0 && CtxBalanced(balance, up, h) && h == Height(t') - delta
      ensures Seq(Plug(up, t')) == Seq(Plug(up, Join(side, t, node, sib)))
    {
      ghost var heavy, light := HeavySide(balance, side, t, node, sib, bside);
      var shrink;
      top, shrink, t' := Restore(node, bside, bsidef, h, up, heavy, light);
      delta := delta0 - shrink;
    }

    /** CAvl_rebalance at one node; `delta` is the real change of the height of the subtree there. */
    method RebalanceNode(node: Link, side: bool, deltac: int, ghost up: Ctx, ghost t: Tree, ghost sib: Tree)
      returns (top: Link, delta: int, ghost t': Tree, ghost h: int)
      requires -1 <= deltac <= 1 && deltac != 0
      requires Linked(Plug(up, Join(side, t, node, sib))) && Balanced(balance, t)
      requires CtxBalanced(balance, Step(up, node, side, sib), Height(t) - deltac)
      modifies this`root, this`child, this`parent, this`count, this`assoc, this`balance
      ensures t'.Node? && top == t'.n
      ensures Linked(Plug(up, t')) && Balanced(balance, t')
      ensures -1 <= delta <= 1 && CtxBalanced(balance, up, h) && h == Height(t') - delta
      ensures Seq(Plug(up, t')) == Seq(Plug(up, Join(side, t, node, sib)))
    {
      delta, h := UpdateFactor(node, side, deltac, up, t, sib);
      top, delta, t' := Transform(node, delta, h, up, side, t, sib);
    }

    /** The second part of CAvl_rebalance: the transformations if the factor is wrong. */
    method Transform(node: Link, delta0: int, ghost h: int, ghost up: Ctx, ghost side: bool, ghost t: Tree, ghost sib: Tree)
      returns (top: Link, delta: int, ghost t': Tree)
      requires Linked(Plug(up, Join(side, t, node, sib))) && Balanced(balance, t) && Balanced(balance, sib)
      requires CtxBalanced(balance, up, h) && h == Height(Join(side, t, node, sib)) - delta0
      requires node in balance && balance[node] == Lean(side, Height(t), Height(sib)) && -2 <= balance[node] <= 2
      requires -1 <= delta0 <= 1 && (IsOff(balance[node]) ==> 0 <= delta0)
      modifies this`root, this`child, this`parent, this`count, this`assoc, this`balance
      ensures t'.Node? && top == t'.n
      ensures Linked(Plug(up, t')) && Balanced(balance, t')
      ensures -1 <= delta <= 1 && CtxBalanced(balance, up, h) && h == Height(t') - delta
      ensures Seq(Plug(up, t')) == Seq(Plug(up, Join(side, t, node, sib)))
    {
      if IsOff(balance[node]) {
        var bside, bsidef := true, 1;
        if balance[node] == -2 {
          bside, bsidef := false, -1;
        }
        top, delta, t' := Repair(node, bside, bsidef, delta0, h, up, side, t, sib);
      } else {
        JoinBalanced(balance, side, t, node, sib);
        top, delta, t' := node, delta0, Join(side, t, node, sib);
      }
    }

    /** CAvl_rebalance: the child of `node` on `side` is now `t` and its height changed by `deltac`. */
    method Rebalance(node: Link, side: bool, deltac: int, ghost up: Ctx, ghost t: Tree, ghost sib: Tree)
      requires -1 <= deltac <= 1
      requires Linked(Plug(up, Join(side, t, node, sib))) && Balanced(balance, t)
      requires CtxBalanced(balance, Step(up, node, side, sib), Height(t) - deltac)
      modifies this
      ensures Valid() && Contents() == Seq(Plug(up, Join(side, t, node, sib)))
      decreases up
    {
      if deltac == 0 {
        PlugBalanced(balance, Step(up, node, side, sib), t);
        tree := Plug(up, Join(side, t, node, sib));
        return;
      }
      var top, delta;
      ghost var t', h;
      top, delta, t', h := RebalanceNode(node, side, deltac, up, t, sib);
      Place(up, t');
      if parent[top] != NULL {
        var topParent := parent[top];
        Rebalance(topParent, top == child[(topParent, true)], delta, up.up, t', up.sib);
      } else {
        PlugBalanced(balance, up, t');
        tree := Plug(up, t');
      }
    }

    /** One round of the loop that counts a new node on the way up. */
    method CountNode(p: Link, ghost c: Ctx, ghost done: Tree) returns (ghost t: Tree)
      requires Monoid(g) && AtSite(g, child, count, assoc, c, done) && p == c.n
      requires Summed(g, count, assoc, done) && CtxPending(g, count, assoc, c, |Seq(done)| - 1)
      modifies this`count, this`assoc
      ensures t == Join(c.side, done, c.n, c.sib)
      ensures Summed(g, count, assoc, t) && CtxPending(g, count, assoc, c.up, |Seq(t)| - 1)
    {
      ghost var assoc' := assoc[p := NodeAssoc(g, assoc, p, child[(p, false)], child[(p, true)])];
      t := PendingStep(g, child, count, assoc, count[p := count[p] + 1], assoc', c, done, 1);
      count := count[p := count[p] + 1];
      assoc := assoc[p := NodeAssoc(g, assoc, p, child[(p, false)], child[(p, true)])];
    }

    /** The loop of CAvl_Insert and CAvl_InsertAt that counts a new node in `t` on the way up. */
    method CountUp(from: Link, ghost c: Ctx, ghost t: Tree, ghost whole: Tree)
      requires Monoid(g) && Distinct(whole) && Shape(child, parent, whole, root, NULL)
      requires InProgress(g, count, assoc, c, t, whole, 1)
      requires from == Head(c)
      modifies this`count, this`assoc
      ensures Linked(whole)
    {
      var p := from;
      ghost var up, done := c, t;
      while p != NULL
        invariant p == Head(up) && InProgress(g, count, assoc, up, done, whole, 1)
        decreases up
      {
        PendingSite(g, child, parent, root, count, assoc, up, done, |Seq(done)| - 1);
        done := CountNode(p, up, done);
        up := up.up;
        p := parent[p];
      }
      PlugShape(child, parent, root, up, done);
    }

    /** The new leaf is linked and initialised. */
    method LinkLeaf(node: Link, c: Link, side: bool, ghost ctx: Ctx) returns (ghost t: Tree)
      requires Linked(Plug(ctx, Leaf)) && Balanced(balance, Plug(ctx, Leaf))
      requires ctx.Step? && ctx.n == c && ctx.side == side && node != NULL && node !in CtxElems(ctx)
      modifies this`child, this`parent, this`balance, this`count, this`assoc
      ensures Distinct(Plug(ctx, t)) && Shape(child, parent, Plug(ctx, t), root, NULL)
      ensures Summed(g, count, assoc, t) && CtxPending(g, count, assoc, ctx, 0)
      ensures Balanced(balance, t) && CtxBalanced(balance, ctx, 0) && Height(t) == 1 && Seq(t) == [node]
    {
      t := Node(Leaf, node, Leaf);
      LeafLinks(child, parent, root, ctx, node);
      LeafSums(g, count, assoc, ctx, node);
      LeafFactors(balance, ctx, node);
      child := child[(c, side) := node];
      parent := parent[node := c];
      child := child[(node, false) := NULL];
      child := child[(node, true) := NULL];
      balance := balance[node := 0];
      count := count[node := 1];
      assoc := assoc[node := g.value(node)];
    }

    /** The end of CAvl_Insert and CAvl_InsertAt: `node` becomes the child of `c` on `side`. */
    method Attach(node: Link, c: Link, side: bool, ghost ctx: Ctx)
      requires Valid() && tree == Plug(ctx, Leaf) && ctx.Step? && ctx.n == c && ctx.side == side
      requires node != NULL && node !in Elems(tree)
      modifies this
      ensures Valid() && Contents() == Before(ctx) + [node] + After(ctx)
    {
      PlugElems(ctx, Leaf);
      ghost var t := LinkLeaf(node, c, side, ctx);
      PlugSeq(ctx, t);
      CountUp(c, ctx, t, Plug(ctx, t));
      Rebalance(c, side, 1, ctx.up, t, ctx.sib);
    }

    /** Insertion into the empty tree. */
    method InsertRoot(node: Link)
      requires Valid() && root == NULL && node != NULL
      modifies this
      ensures Valid() && Contents() == [node] && old(Contents()) == []
    {
      assert Shape(child, parent, tree, root, NULL) && tree == Leaf;
      LeafSums(g, count, assoc, Top, node);
      root := node;
      parent := parent[node := NULL];
      child := child[(node, false) := NULL];
      child := child[(node, true) := NULL];
      balance := balance[node := 0];
      count := count[node := 1];
      assoc := assoc[node := g.value(node)];
      tree := Node(Leaf, node, Leaf);
    }

    /** The descent of CAvl_Insert to an equal node or to the empty place for `node`. */
    method FindPlace(cmp: Compare, node: Link) returns (missing: bool, c: Link, side: bool, ghost ctx: Ctx)
      requires Valid() && Ordering(cmp) && Sorted(cmp, Contents()) && root != NULL
      ensures !missing ==> c in Contents() && cmp(node, c) == 0
      ensures missing ==> ctx.Step? && c == ctx.n && side == ctx.side && tree == Plug(ctx, Leaf) && Bounds(cmp, ctx, node)
    {
      c, side, ctx := root, false, Top;
      ghost var sub := tree;
      while true
        invariant sub.Node? && c == sub.n && tree == Plug(ctx, sub) && Bounds(cmp, ctx, node)
        decreases sub
      {
        Place(ctx, sub);
        Descend(cmp, ctx, sub, node);
        var comp := cmp(node, c);
        assert Opposite(cmp, node, c);
        if comp == 0 {
          PlugSeq(ctx, sub);
          assert c in Seq(sub);
          return false, c, false, Top;
        }
        side := comp == 1;
        ctx, sub := Step(ctx, c, side, if side then sub.left else sub.right), if side then sub.right else sub.left;
        if child[(c, side)] == NULL {
          assert sub == Leaf by { PlugShape(child, parent, root, ctx, sub); }
          return true, c, side, ctx;
        }
        c := child[(c, side)];
      }
    }

    /**
     CAvl_Insert. A node that compares equal to one in the tree is not inserted and that one is
     returned; otherwise the node is inserted in order, and the returned node is a neighbour.
     */
    method Insert(cmp: Compare, node: Link) returns (inserted: bool, ref: Link, ghost pos: nat)
      requires Valid() && Ordering(cmp) && Sorted(cmp, Contents())
      requires node != NULL
      modifies this
      ensures Valid() && Sorted(cmp, Contents())
      ensures inserted <==> forall x :: x in old(Contents()) ==> cmp(node, x) != 0
      ensures !inserted ==> Contents() == old(Contents()) && ref in old(Contents()) && cmp(node, ref) == 0
      ensures inserted ==> InsertedAt(old(Contents()), Contents(), node, pos)
      ensures inserted ==> if ref == NULL then old(Contents()) == [] else Beside(old(Contents()), ref, pos)
    {
      if root == NULL {
        InsertRoot(node);
        return true, NULL, 0;
      }
      var c, side;
      ghost var ctx;
      inserted, c, side, ctx := FindPlace(cmp, node);
      ref, pos := c, 0;
      if inserted {
        Place(ctx.up, Join(side, Leaf, c, ctx.sib));
        PlaceInOrder(cmp, ctx, node);
        assert Opposite(cmp, node, node);
        SeqElems(tree);
        Attach(node, c, side, ctx);
        pos := |Before(ctx)|;
      }
    }

    /** What can be read about the sizes of the subtrees of a node. */
    lemma {:induction false} Sizes(c: Ctx, t: Tree)
      requires Linked(Plug(c, t)) && t.Node?
      ensures Placed(c, t)
      ensures child[(t.n, false)] != NULL ==> child[(t.n, false)] in count
      ensures child[(t.n, true)] != NULL ==> child[(t.n, true)] in count
      ensures CountAt(count, child[(t.n, false)]) == |Seq(t.left)| && CountAt(count, child[(t.n, true)]) == |Seq(t.right)|
      ensures t.n in count && count[t.n] == |Seq(t)|
    {
      PlugShape(child, parent, root, c, t);
      PlugSummed(g, count, assoc, c, t);
      Place(c, t);
      LinkSums(g, child, parent, count, assoc, t.left, TopLink(t.left), t.n);
      LinkSums(g, child, parent, count, assoc, t.right, TopLink(t.right), t.n);
    }

    /** The descent of CAvl_InsertAt to the empty place with `index` nodes before it. */
    method FindIndex(index: nat) returns (c: Link, side: bool, ghost ctx: Ctx)
      requires Valid() && index <= |Contents()| && root != NULL
      ensures ctx.Step? && c == ctx.n && side == ctx.side && tree == Plug(ctx, Leaf) && |Before(ctx)| == index
    {
      c, side, ctx := root, false, Top;
      ghost var sub := tree;
      Sizes(ctx, sub);
      var cIdx := CountAt(count, child[(c, false)]);
      while true
        invariant sub.Node? && c == sub.n && tree == Plug(ctx, sub)
        invariant |Before(ctx)| <= index <= |Before(ctx)| + |Seq(sub)|
        invariant cIdx == |Before(ctx)| + |Seq(sub.left)|
        decreases sub
      {
        Sizes(ctx, sub);
        side := index > cIdx;
        ctx, sub := Step(ctx, c, side, if side then sub.left else sub.right), if side then sub.right else sub.left;
        if child[(c, side)] == NULL {
          assert sub == Leaf by { PlugShape(child, parent, root, ctx, sub); }
          return;
        }
        c := child[(c, side)];
        assert sub.Node? && c == sub.n;
        Sizes(ctx, sub);
        if !side {
          cIdx := cIdx - (1 + CountAt(count, child[(c, true)]));
        } else {
          cIdx := cIdx + (1 + CountAt(count, child[(c, false)]));
        }
      }
    }

    /** CAvl_InsertAt: the node ends up at position `index`. */
    method InsertAt(node: Link, index: nat)
      requires Valid() && index <= |Contents()|
      requires node != NULL && node !in Contents()
      modifies this
      ensures Valid() && InsertedAt(old(Contents()), Contents(), node, index)
    {
      if root == NULL {
        InsertRoot(node);
        return;
      }
      var c, side;
      ghost var ctx;
      c, side, ctx := FindIndex(index);
      PlugSeq(ctx, Leaf);
      SeqElems(tree);
      Attach(node, c, side, ctx);
    }

    /** `node` gets the children of `enode`. */
    method TakeChildren(node: Link, enode: Link)
      requires node != enode && (enode, false) in child && (enode, true) in child
      modifies this`child, this`parent
      ensures child == old(child)[(node, false) := old(child)[(enode, false)]][(node, true) := old(child)[(enode, true)]]
      ensures Adopted(old(child), old(parent), parent, enode, node)
    {
      child := child[(node, false) := child[(enode, false)]];
      if child[(node, false)] != NULL {
        parent := parent[child[(node, false)] := node];
      }
      child := child[(node, true) := child[(enode, true)]];
      if child[(node, true)] != NULL {
        parent := parent[child[(node, true)] := node];
      }
    }

    /** CAvl_swap_for_remove when `enode` is a child of `node`. */
    method SwapAdjacent(node: Link, enode: Link, nodeParent: Link) returns (ghost onSide: bool)
      requires SwapSite(child, parent, node, enode) && parent[node] == nodeParent && parent[enode] == node
      modifies this`root, this`child, this`parent
      ensures old(child)[(node, onSide)] == enode
      ensures child == AdjacentChild(old(child), nodeParent, node, enode, onSide)
      ensures AdjacentParent(old(child), old(parent), parent, node, enode)
      ensures root == if nodeParent != NULL then old(root) else enode
    {
      var side := enode == child[(node, true)];
      var c := child[(node, !side)];
      onSide := side;
      TakeChildren(node, enode);
      parent := parent[enode := parent[node]];
      Redirect(nodeParent, node, enode);
      child := child[(enode, side) := node];
      parent := parent[node := enode];
      child := child[(enode, !side) := c];
      if c != NULL {
        parent := parent[c := enode];
      }
    }

    /** `node` and `enode` exchange their children on one side. */
    method SwapChildren(node: Link, enode: Link, side: bool)
      requires node != enode && (node, side) in child && (enode, side) in child
      modifies this`child, this`parent
      ensures child == old(child)[(node, side) := old(child)[(enode, side)]][(enode, side) := old(child)[(node, side)]]
      ensures forall x :: if x != NULL && x == old(child)[(node, side)] then x in parent && parent[x] == enode
                          else if x != NULL && x == old(child)[(enode, side)] then x in parent && parent[x] == node
                          else SameAt(old(parent), parent, x)
    {
      var temp := child[(node, side)];
      child := child[(node, side) := child[(enode, side)]];
      if child[(node, side)] != NULL {
        parent := parent[child[(node, side)] := node];
      }
      child := child[(enode, side) := temp];
      if child[(enode, side)] != NULL {
        parent := parent[child[(enode, side)] := enode];
      }
    }

    /** `node` and `enode` exchange their parents. */
    method SwapParents(node: Link, enode: Link, nodeParent: Link, enodeParent: Link)
      requires SwapSite(child, parent, node, enode) && parent[node] == nodeParent && parent[enode] == enodeParent
      requires enodeParent != node && enodeParent != nodeParent
      modifies this`root, this`child, this`parent
      ensures parent == old(parent)[node := enodeParent][enode := nodeParent]
      ensures child == ApartParentsChild(old(child), nodeParent, enodeParent, node, enode)
      ensures forall side :: SameAt(old(child), child, (node, side)) && SameAt(old(child), child, (enode, side))
      ensures root == if nodeParent != NULL then old(root) else enode
    {
      parent := parent[node := parent[enode]];
      Redirect(enodeParent, enode, node);
      parent := parent[enode := nodeParent];
      Redirect(nodeParent, node, enode);
    }

    /** CAvl_swap_for_remove when `enode` is further below `node`. */
    method SwapApart(node: Link, enode: Link, nodeParent: Link, enodeParent: Link)
      requires SwapSite(child, parent, node, enode) && parent[node] == nodeParent && parent[enode] == enodeParent
      requires enodeParent != node && enodeParent != nodeParent
      modifies this`root, this`child, this`parent
      ensures child == ApartChild(old(child), nodeParent, enodeParent, node, enode)
      ensures ApartParent(old(child), old(parent), parent, node, enode)
      ensures root == if nodeParent != NULL then old(root) else enode
    {
      SwapParents(node, enode, nodeParent, enodeParent);
      SwapChildren(node, enode, false);
      SwapChildren(node, enode, true);
    }

    /** CAvl_subtree_max. */
    method SubtreeMax(top: Link, ghost c: Ctx, ghost t: Tree) returns (n: Link, ghost c': Ctx, ghost el: Tree)
      requires Linked(Plug(c, t)) && t.Node? && top == t.n
      ensures Plug(c, t) == Plug(c', Node(el, n, Leaf)) && After(c') == After(c)
      ensures n in Elems(t) && Head(c') in Elems(t) + {Head(c)}
      ensures forall x :: SiblingsAvoid(c, x) && x !in Elems(t) ==> SiblingsAvoid(c', x)
    {
      n, c' := top, c;
      ghost var sub := t;
      Place(c', sub);
      while child[(n, true)] != NULL
        invariant sub.Node? && n == sub.n && Plug(c, t) == Plug(c', sub) && After(c') == After(c)
        invariant Placed(c', sub)
        invariant Elems(sub) <= Elems(t) && Head(c') in Elems(t) + {Head(c)}
        invariant forall x :: SiblingsAvoid(c, x) && x !in Elems(t) ==> SiblingsAvoid(c', x)
        decreases sub
      {
        c', sub := Step(c', n, true, sub.left), sub.right;
        n := child[(n, true)];
        Place(c', sub);
      }
      PlugShape(child, parent, root, c', sub);
      el := sub.left;
    }

    /** CAvl_swap_for_remove. */
    method SwapForRemove(node: Link, enode: Link, nodeParent: Link, enodeParent: Link,
                         ghost up: Ctx, ghost left: Tree, ghost right: Tree, ghost c: Ctx, ghost el: Tree)
      requires Valid() && tree == Plug(up, Node(left, node, right)) && Predecessor(up, left, node, right, c, el, enode)
      requires nodeParent == Head(up) && enodeParent == Head(c)
      modifies this`root, this`child, this`parent, this`balance, this`count
      ensures Ready(g, child, parent, root, balance, count, assoc, RenameCtx(c, node, enode), false, el, node)
    {
      SwapLinks(node, enode, nodeParent, enodeParent, up, left, right, c, el);
      MembersPresent(up, left, node, right, enode);
      var b := balance[node];
      balance := balance[node := balance[enode]];
      balance := balance[enode := b];
      var n := count[node];
      count := count[node := count[enode]];
      count := count[enode := n];
      ReadyAfterSwap(g, old(child), old(parent), old(root), old(balance), old(count), assoc, child, parent,
                     up, left, node, right, c, el, enode);
    }

    lemma {:induction false} MembersPresent(up: Ctx, left: Tree, node: Link, right: Tree, enode: Link)
      requires Summed(g, count, assoc, Plug(up, Node(left, node, right))) && Balanced(balance, Plug(up, Node(left, node, right)))
      requires enode in Elems(left)
      ensures node in balance && enode in balance && node in count && enode in count
    {
      var c, l, r := Locate(Step(up, node, false, right), left, enode);
      PlugSummed(g, count, assoc, up, Node(left, node, right));
      PlugBalanced(balance, up, Node(left, node, right));
      PlugSummed(g, count, assoc, c, Node(l, enode, r));
      PlugBalanced(balance, c, Node(l, enode, r));
    }

    method SwapLinks(node: Link, enode: Link, nodeParent: Link, enodeParent: Link,
                     ghost up: Ctx, ghost left: Tree, ghost right: Tree, ghost c: Ctx, ghost el: Tree)
      requires Linked(Plug(up, Node(left, node, right))) && Predecessor(up, left, node, right, c, el, enode)
      requires nodeParent == Head(up) && enodeParent == Head(c)
      modifies this`root, this`child, this`parent
      ensures Swapped(old(child), old(parent), child, parent, node, enode, Elems(Plug(up, Node(left, node, right))))
      ensures root == Swap(node, enode, old(root))
    {
      ghost var t := Plug(up, Node(left, node, right));
      ghost var s := Elems(t);
      PredecessorSite(child, parent, root, up, left, node, right, c, el, enode);
      RootFacts(up, left, node, right);
      if enodeParent == node {
        ghost var side := SwapAdjacent(node, enode, nodeParent);
        AdjacentSwapped(old(child), old(parent), old(root), child, parent, s, node, enode, side);
      } else {
        SwapApart(node, enode, nodeParent, enodeParent);
        ApartSwapped(old(child), old(parent), old(root), child, parent, s, node, enode);
      }
    }

    lemma {:induction false} RootFacts(up: Ctx, left: Tree, node: Link, right: Tree)
      requires Linked(Plug(up, Node(left, node, right)))
      ensures var s := Elems(Plug(up, Node(left, node, right)));
              Consistent(child, parent, s, root) && NULL !in s && root in s && root in parent && parent[root] == NULL
      ensures root == node <==> Head(up) == NULL
      ensures forall x :: x in Elems(left) ==> x != root
    {
      var t := Plug(up, Node(left, node, right));
      ShapeConsistent(child, parent, t, root, NULL);
      PlugElems(up, Node(left, node, right));
      PlugShape(child, parent, root, up, Node(left, node, right));
      RootInCtx(child, parent, root, up, node);
      forall x | x in Elems(t) ensures x != NULL { Known(child, parent, Elems(t), root, x); }
    }

    /** One round of the loop of CAvl_replace_subtree_fix_assoc. */
    method ReplaceSums(p: Link, dest: Link, n: Link)
      requires p in count && dest in count && (n != NULL ==> n in count) && p != dest && p != n
      requires count[dest] == CountAt(count, n) + 1
      requires (p, false) in child && (child[(p, false)] == NULL || child[(p, false)] in assoc)
      requires (p, true) in child && (child[(p, true)] == NULL || child[(p, true)] in assoc)
      modifies this`count, this`assoc
      ensures count == old(count)[p := old(count)[p] - 1]
      ensures assoc == old(assoc)[p := NodeAssoc(g, old(assoc), p, child[(p, false)], child[(p, true)])]
      ensures SameAt(old(count), count, dest) && SameAt(old(count), count, n)
    {
      count := count[p := count[p] - count[dest]];
      if n != NULL {
        count := count[p := count[p] + count[n]];
      }
      assoc := assoc[p := NodeAssoc(g, assoc, p, child[(p, false)], child[(p, true)])];
    }

    method UncountNode(p: Link, dest: Link, n: Link, ghost c: Ctx, ghost done: Tree) returns (ghost t: Tree)
      requires Monoid(g) && AtSite(g, child, count, assoc, c, done) && p == c.n
      requires Summed(g, count, assoc, done) && CtxPending(g, count, assoc, c, |Seq(done)| + 1)
      requires p != dest && p != n && dest in count && (n != NULL ==> n in count)
      requires count[dest] == CountAt(count, n) + 1
      modifies this`count, this`assoc
      ensures t == Join(c.side, done, c.n, c.sib)
      ensures Summed(g, count, assoc, t) && CtxPending(g, count, assoc, c.up, |Seq(t)| + 1)
      ensures SameAt(old(count), count, dest) && SameAt(old(count), count, n)
    {
      ghost var assoc' := assoc[p := NodeAssoc(g, assoc, p, child[(p, false)], child[(p, true)])];
      t := PendingStep(g, child, count, assoc, count[p := count[p] - 1], assoc', c, done, -1);
      ReplaceSums(p, dest, n);
    }

    /** The loop of CAvl_replace_subtree_fix_assoc, which takes one node away from the counts above. */
    method CountDown(from: Link, dest: Link, n: Link, ghost c: Ctx, ghost t: Tree, ghost whole: Tree)
      requires Monoid(g) && Distinct(whole) && Shape(child, parent, whole, root, NULL)
      requires InProgress(g, count, assoc, c, t, whole, -1) && from == Head(c)
      requires n == TopLink(t) && dest !in CtxElems(c) && dest in count && (n != NULL ==> n in count)
      requires count[dest] == CountAt(count, n) + 1
      modifies this`count, this`assoc
      ensures Linked(whole)
    {
      PlugElems(c, t);
      var p := from;
      ghost var up, done := c, t;
      while p != NULL
        invariant p == Head(up) && InProgress(g, count, assoc, up, done, whole, -1)
        invariant dest !in CtxElems(up) && dest in count && (n != NULL ==> n in count && n !in CtxElems(up))
        invariant count[dest] == CountAt(count, n) + 1
        decreases up
      {
        PendingSite(g, child, parent, root, count, assoc, up, done, |Seq(done)| + 1);
        done := UncountNode(p, dest, n, up, done);
        up := up.up;
        p := parent[p];
      }
      PlugShape(child, parent, root, up, done);
    }

    /** CAvl_replace_subtree_fix_assoc for a node and its only subtree. */
    method ReplaceSubtree(dest: Link, n: Link, destParent: Link, ghost c: Ctx, ghost onRight: bool, ghost t: Tree)
      requires Monoid(g) && Ready(g, child, parent, root, balance, count, assoc, c, onRight, t, dest)
      requires n == TopLink(t) && destParent == Head(c)
      modifies this`root, this`child, this`parent, this`count, this`assoc
      ensures Linked(Plug(c, t))
    {
      ReadySite(g, child, parent, root, balance, count, assoc, c, onRight, t, dest);
      Redirect(destParent, dest, n);
      if n != NULL {
        parent := parent[n := parent[dest]];
      }
      ReplacedLinks(old(child), old(parent), child, parent, old(root), root, c, onRight, t, dest);
      CountDown(destParent, dest, n, c, t, Plug(c, t));
    }

    /** The end of CAvl_Remove, for a node with at most one child. */
    method Detach(node: Link, ghost c: Ctx, ghost onRight: bool, ghost t: Tree)
      requires Monoid(g) && Ready(g, child, parent, root, balance, count, assoc, c, onRight, t, node)
      modifies this
      ensures Valid() && Contents() == Seq(Plug(c, t))
    {
      ReadySite(g, child, parent, root, balance, count, assoc, c, onRight, t, node);
      SingleBalanced(balance, c, onRight, t, node);
      var paren := parent[node];
      var n := if child[(node, false)] != NULL then child[(node, false)] else child[(node, true)];
      if paren != NULL {
        var side := node == child[(paren, true)];
        ReplaceSubtree(node, n, paren, c, onRight, t);
        Rebalance(paren, side, -1, c.up, t, c.sib);
      } else {
        ReplaceSubtree(node, n, paren, c, onRight, t);
        tree := t;
      }
    }

    method FindPredecessor(node: Link, ghost c: Ctx, ghost l: Tree, ghost r: Tree) returns (max: Link, ghost c': Ctx, ghost el: Tree)
      requires Valid() && tree == Plug(c, Node(l, node, r)) && l.Node? && Placed(c, Node(l, node, r))
      ensures Predecessor(c, l, node, r, c', el, max)
    {
      OuterAvoids(c, l, node, r);
      max, c', el := SubtreeMax(child[(node, false)], Step(c, node, false, r), l);
    }

    method SwapWithPredecessor(node: Link, max: Link, ghost c: Ctx, ghost l: Tree, ghost r: Tree, ghost c': Ctx, ghost el: Tree)
      requires Valid() && tree == Plug(c, Node(l, node, r)) && Predecessor(c, l, node, r, c', el, max)
      modifies this`root, this`child, this`parent, this`balance, this`count
      ensures Ready(g, child, parent, root, balance, count, assoc, RenameCtx(c', node, max), false, el, node)
    {
      PredecessorSite(child, parent, root, c, l, node, r, c', el, max);
      SwapForRemove(node, max, parent[node], parent[max], c, l, r, c', el);
    }

    /** CAvl_Remove for a node with two children, which first changes places with its predecessor. */
    method RemoveInner(node: Link, ghost c: Ctx, ghost l: Tree, ghost r: Tree) returns (ghost pos: nat)
      requires Valid() && tree == Plug(c, Node(l, node, r)) && l.Node? && Placed(c, Node(l, node, r))
      modifies this
      ensures Valid() && RemovedAt(old(Contents()), Contents(), node, pos)
    {
      var max;
      ghost var c', el;
      ghost var rest;
      max, c', el := FindPredecessor(node, c, l, r);
      rest, pos := PredecessorSeq(c, l, node, r, c', el, max);
      SwapWithPredecessor(node, max, c, l, r, c', el);
      Detach(node, RenameCtx(c', node, max), false, el);
    }

    lemma {:induction false} OuterAvoids(c: Ctx, l: Tree, node: Link, r: Tree)
      requires Distinct(Plug(c, Node(l, node, r)))
      ensures node !in Elems(l) && SiblingsAvoid(Step(c, node, false, r), node)
    {
      PlugElems(c, Node(l, node, r));
      OutsideAvoids(c, node);
    }

    /** CAvl_Remove for a node with at most one child. */
    method RemoveOuter(node: Link, ghost c: Ctx, ghost onRight: bool, ghost t: Tree) returns (ghost pos: nat)
      requires Valid() && tree == Plug(c, Single(onRight, t, node))
      modifies this
      ensures Valid() && RemovedAt(old(Contents()), Contents(), node, pos)
    {
      ReadyInPlace(g, child, parent, root, balance, count, assoc, c, onRight, t, node);
      ghost var rest;
      rest, pos := SingleSeq(c, onRight, t, node);
      Detach(node, c, onRight, t);
    }

    /** CAvl_Remove. */
    method Remove(node: Link) returns (ghost pos: nat)
      requires Valid() && node in Contents()
      modifies this
      ensures Valid() && RemovedAt(old(Contents()), Contents(), node, pos)
    {
      SeqElems(tree);
      ghost var c, l, r := Locate(Top, tree, node);
      Place(c, Node(l, node, r));
      PlugShape(child, parent, root, c, Node(l, node, r));
      if child[(node, false)] != NULL && child[(node, true)] != NULL {
        pos := RemoveInner(node, c, l, r);
      } else {
        pos := RemoveOuter(node, c, l.Leaf?, if l.Leaf? then r else l);
      }
    }
  }
}
