/** Taking a node out of a stored tree: the places involved and the sequence that remains. */
module AvlRemove {
  import opened Basics
  import opened AvlTree
  import opened AvlSums
  import opened AvlSwap
  import opened AvlOrder
  import opened Sequences

  /** Every node of a tree has a place in it. */
  lemma {:induction false} Locate(c: Ctx, t: Tree, x: Link) returns (c': Ctx, l: Tree, r: Tree)
    requires x in Elems(t)
    ensures Plug(c', Node(l, x, r)) == Plug(c, t)
    decreases t
  {
    if t.n == x {
      c', l, r := c, t.left, t.right;
    } else if x in Elems(t.left) {
      c', l, r := Locate(Step(c, t.n, false, t.right), t.left, x);
    } else {
      c', l, r := Locate(Step(c, t.n, true, t.left), t.right, x);
    }
  }

  lemma {:induction false} DistinctSeq(t: Tree, i: int, j: int)
    requires Distinct(t) && 0 <= i < j < |Seq(t)|
    ensures Seq(t)[i] != Seq(t)[j]
  {
    SeqElems(t.left);
    SeqElems(t.right);
    var k := |Seq(t.left)|;
    if j < k {
      DistinctSeq(t.left, i, j);
    } else if k < i {
      DistinctSeq(t.right, i - k - 1, j - k - 1);
    } else {
      assert i < k ==> Seq(t)[i] == Seq(t.left)[i] && Seq(t)[i] in Elems(t.left);
      assert k < j ==> Seq(t)[j] == Seq(t.right)[j - k - 1] && Seq(t)[j] in Elems(t.right);
    }
  }

  lemma {:induction false} DistinctNoRepeats(t: Tree)
    requires Distinct(t)
    ensures NoRepeats(Seq(t))
  {
    forall i, j | 0 <= i < j < |Seq(t)| ensures Seq(t)[i] != Seq(t)[j] { DistinctSeq(t, i, j); }
  }

  // ---------------------------------------------------------------- exchanged names

  ghost function SwapAll(a: Link, b: Link, s: seq<Link>): seq<Link> {
    seq(|s|, i requires 0 <= i < |s| => Swap(a, b, s[i]))
  }

  lemma {:induction false} RenameSeq(t: Tree, a: Link, b: Link)
    ensures Seq(Rename(t, a, b)) == SwapAll(a, b, Seq(t))
  {
    match t
    case Leaf =>
    case Node(l, n, r) =>
      RenameSeq(l, a, b);
      RenameSeq(r, a, b);
  }

  /** `a` is in no sibling along the path. */
  ghost predicate SiblingsAvoid(c: Ctx, a: Link) {
    match c
    case Top => true
    case Step(up, _, _, sib) => a !in Elems(sib) && SiblingsAvoid(up, a)
  }

  lemma {:induction false} OutsideAvoids(c: Ctx, a: Link)
    requires a !in CtxElems(c)
    ensures SiblingsAvoid(c, a)
  {
    match c
    case Top =>
    case Step(up, _, _, _) => OutsideAvoids(up, a);
  }

  lemma {:induction false} SwappedPending<A>(g: Algebra<A>, count: map<Link, int>, count': map<Link, int>, assoc: map<Link, A>,
                                             c: Ctx, k: int, a: Link, b: Link)
    requires CtxPending(g, count, assoc, c, k) && SiblingsAvoid(c, a) && SiblingsAvoid(c, b)
    requires a in count && b in count && count' == count[a := count[b]][b := count[a]]
    ensures CtxPending(g, count', assoc, RenameCtx(c, a, b), k)
  {
    match c
    case Top =>
    case Step(up, n, side, sib) =>
      RenameSize(sib, a, b);
      SummedFrame(g, count, assoc, count', assoc, sib);
      SwappedPending(g, count, count', assoc, up, k + 1 + |Seq(sib)|, a, b);
  }

  lemma {:induction false} SwappedBalanced(balance: map<Link, int>, balance': map<Link, int>, t: Tree, a: Link, b: Link)
    requires Balanced(balance, t)
    requires a in balance && b in balance && balance' == balance[a := balance[b]][b := balance[a]]
    ensures Balanced(balance', Rename(t, a, b))
  {
    match t
    case Leaf =>
    case Node(l, n, r) =>
      RenameSize(l, a, b);
      RenameSize(r, a, b);
      SwappedBalanced(balance, balance', l, a, b);
      SwappedBalanced(balance, balance', r, a, b);
  }

  // ---------------------------------------------------------------- the place of the predecessor

  /** `max`, with left child `el`, is the last node of the left subtree of `node`. */
  ghost predicate Predecessor(up: Ctx, left: Tree, node: Link, right: Tree, c: Ctx, el: Tree, max: Link) {
    && Plug(up, Node(left, node, right)) == Plug(c, Node(el, max, Leaf))
    && After(c) == [node] + Seq(right) + After(up)
    && max in Elems(left) && Head(c) in Elems(left) + {node}
    && SiblingsAvoid(c, node)
  }

  lemma {:induction false} PredecessorSite(child: Children, parent: Parents, root: Link, up: Ctx, left: Tree, node: Link, right: Tree,
                                           c: Ctx, el: Tree, max: Link)
    requires Distinct(Plug(up, Node(left, node, right))) && Shape(child, parent, Plug(up, Node(left, node, right)), root, NULL)
    requires Predecessor(up, left, node, right, c, el, max)
    ensures node in parent && parent[node] == Head(up) && max in parent && parent[max] == Head(c) && Head(c) != Head(up)
    ensures SwapSite(child, parent, node, max)
  {
    var t, s := Plug(up, Node(left, node, right)), Elems(Plug(up, Node(left, node, right)));
    PlugElems(up, Node(left, node, right));
    PlugElems(c, Node(el, max, Leaf));
    PlugShape(child, parent, root, up, Node(left, node, right));
    PlugShape(child, parent, root, c, Node(el, max, Leaf));
    ShapeConsistent(child, parent, t, root, NULL);
    Known(child, parent, s, root, node);
    Known(child, parent, s, root, max);
    Known(child, parent, s, root, Head(c));
    if up.Step? { Known(child, parent, s, root, up.n); }
  }

  lemma {:induction false} Known(child: Children, parent: Parents, s: set<Link>, root: Link, x: Link)
    requires Consistent(child, parent, s, root) && x in s
    ensures Knows(child, parent, x) && x in parent
    ensures x != root ==> parent[x] in s && IsChild(child, x, parent[x])
  {
    assert ChildKnown(child, parent, s, x, false) && ChildKnown(child, parent, s, x, true);
    assert ParentKnown(child, parent, s, root, x);
  }

  /** Two adjacent names exchanged and the first dropped is the second dropped. */
  lemma {:induction false} SwapThenDrop(s: seq<Link>, k: int, a: Link, b: Link)
    requires 0 < k < |s| && s[k - 1] == b && s[k] == a
    requires NoRepeats(s)
    ensures RemovedAt(s, SwapAll(a, b, s[..k - 1] + s[k..]), a, k)
  {
    var s' := SwapAll(a, b, s[..k - 1] + s[k..]);
    forall j | 0 <= j < |s'| ensures s'[j] == (s[..k] + s[k + 1..])[j] {
      if j < k - 1 {
        assert s'[j] == Swap(a, b, s[j]) && s[j] != s[k] && s[j] != s[k - 1];
      } else if j > k - 1 {
        assert s'[j] == Swap(a, b, s[j + 1]) && s[j + 1] != s[k] && s[j + 1] != s[k - 1];
      }
    }
    assert s' == s[..k] + s[k + 1..];
  }

  lemma {:induction false} DropLast(a: seq<Link>, s: seq<Link>, x: Link, b: seq<Link>)
    ensures var r, k := a + (s + [x] + []) + b, |a| + |s| + 1;
            && r[k - 1] == x && a + s + b == r[..k - 1] + r[k..] && (b != [] ==> r[k] == b[0])
  {}

  /** After the exchange, the tree without the old place of `max` is the old sequence without `node`. */
  lemma {:induction false} RemainingSeq(c: Ctx, el: Tree, node: Link, max: Link)
    requires Distinct(Plug(c, Node(el, max, Leaf))) && After(c) != [] && After(c)[0] == node
    requires node !in Elems(el) && max !in Elems(el)
    ensures RemovedAt(Seq(Plug(c, Node(el, max, Leaf))), Seq(Plug(RenameCtx(c, node, max), el)), node, |Before(c)| + |Seq(el)| + 1)
  {
    var s, k := Seq(Plug(c, Node(el, max, Leaf))), |Before(c)| + |Seq(el)| + 1;
    DistinctNoRepeats(Plug(c, Node(el, max, Leaf)));
    WithoutMax(c, el, max, node);
    RenamedSeq(c, el, node, max);
    SwapThenDrop(s, k, node, max);
  }

  lemma {:induction false} WithoutMax(c: Ctx, el: Tree, max: Link, node: Link)
    requires After(c) != [] && After(c)[0] == node
    ensures var s, k := Seq(Plug(c, Node(el, max, Leaf))), |Before(c)| + |Seq(el)| + 1;
            && 0 < k < |s| && s[k - 1] == max && s[k] == node && Seq(Plug(c, el)) == s[..k - 1] + s[k..]
  {
    PlugSeq(c, Node(el, max, Leaf));
    PlugSeq(c, el);
    DropLast(Before(c), Seq(el), max, After(c));
  }

  lemma {:induction false} RenamedSeq(c: Ctx, el: Tree, a: Link, b: Link)
    requires a !in Elems(el) && b !in Elems(el)
    ensures Seq(Plug(RenameCtx(c, a, b), el)) == SwapAll(a, b, Seq(Plug(c, el)))
  {
    RenameSeq(Plug(c, el), a, b);
    RenamePlug(c, el, a, b);
    RenameSize(el, a, b);
  }

  lemma {:induction false} PredecessorApart(up: Ctx, left: Tree, node: Link, right: Tree, c: Ctx, el: Tree, max: Link)
    requires Distinct(Plug(up, Node(left, node, right))) && Predecessor(up, left, node, right, c, el, max)
    ensures node != max && node !in Elems(el) && max !in Elems(el) && SiblingsAvoid(c, max)
  {
    PlugElems(up, Node(left, node, right));
    PlugElems(c, Node(el, max, Leaf));
    OutsideAvoids(c, max);
    SeqElems(Plug(c, Leaf));
    PlugElems(c, Leaf);
    PlugSeq(c, Leaf);
    assert (Before(c) + [] + After(c))[|Before(c)|] == node;
  }

  lemma {:induction false} PredecessorSeq(up: Ctx, left: Tree, node: Link, right: Tree, c: Ctx, el: Tree, max: Link)
    returns (rest: seq<Link>, pos: nat)
    requires Distinct(Plug(up, Node(left, node, right))) && Predecessor(up, left, node, right, c, el, max)
    ensures rest == Seq(Plug(RenameCtx(c, node, max), el)) && RemovedAt(Seq(Plug(up, Node(left, node, right))), rest, node, pos)
  {
    rest, pos := Seq(Plug(RenameCtx(c, node, max), el)), |Before(c)| + |Seq(el)| + 1;
    PredecessorApart(up, left, node, right, c, el, max);
    RemainingSeq(c, el, node, max);
  }

  // ---------------------------------------------------------------- a node with at most one child

  /** `node` with the only subtree `t`. */
  function Single(onRight: bool, t: Tree, node: Link): Tree {
    Join(onRight, t, node, Leaf)
  }

  /** `node` can be replaced by its only subtree: all is stored right except sums above it. */
  ghost predicate Ready<A>(g: Algebra<A>, child: Children, parent: Parents, root: Link, balance: map<Link, int>,
                           count: map<Link, int>, assoc: map<Link, A>, c: Ctx, onRight: bool, t: Tree, node: Link)
  {
    && Distinct(Plug(c, Single(onRight, t, node)))
    && Shape(child, parent, Plug(c, Single(onRight, t, node)), root, NULL)
    && Balanced(balance, Plug(c, Single(onRight, t, node)))
    && Summed(g, count, assoc, t) && CtxPending(g, count, assoc, c, |Seq(t)| + 1)
    && node in count && count[node] == |Seq(t)| + 1
  }

  lemma {:induction false} ReadyInPlace<A>(g: Algebra<A>, child: Children, parent: Parents, root: Link, balance: map<Link, int>,
                                           count: map<Link, int>, assoc: map<Link, A>, c: Ctx, onRight: bool, t: Tree, node: Link)
    requires Distinct(Plug(c, Single(onRight, t, node)))
    requires Shape(child, parent, Plug(c, Single(onRight, t, node)), root, NULL)
    requires Balanced(balance, Plug(c, Single(onRight, t, node)))
    requires Summed(g, count, assoc, Plug(c, Single(onRight, t, node)))
    ensures Ready(g, child, parent, root, balance, count, assoc, c, onRight, t, node)
  {
    PlugSummed(g, count, assoc, c, Single(onRight, t, node));
    JoinSummed(g, count, assoc, onRight, t, node, Leaf);
    JoinNodes(onRight, t, node, Leaf);
    SummedIsPending(g, count, assoc, c, Seq(Single(onRight, t, node)));
  }

  lemma {:induction false} SingleSeq(c: Ctx, onRight: bool, t: Tree, node: Link) returns (rest: seq<Link>, pos: nat)
    ensures rest == Seq(Plug(c, t)) && RemovedAt(Seq(Plug(c, Single(onRight, t, node))), rest, node, pos)
  {
    rest, pos := Seq(Plug(c, t)), |Before(c)| + if onRight then 0 else |Seq(t)|;
    JoinNodes(onRight, t, node, Leaf);
    PlugSeq(c, Single(onRight, t, node));
    PlugSeq(c, t);
    DropOne(Before(c), Seq(t), node, After(c));
    assert onRight ==> Seq(Single(onRight, t, node)) == [] + [node] + Seq(t);
    assert !onRight ==> Seq(Single(onRight, t, node)) == Seq(t) + [node] + [];
  }

  lemma {:induction false} RootInCtx(child: Children, parent: Parents, root: Link, c: Ctx, hole: Link)
    requires CtxShape(child, parent, root, c, hole)
    ensures if c.Step? then root in CtxElems(c) else root == hole
  {
    match c
    case Top =>
    case Step(up, n, _, _) => RootInCtx(child, parent, root, up, n);
  }

  lemma {:induction false} DropOne(a: seq<Link>, s: seq<Link>, x: Link, b: seq<Link>)
    ensures RemovedAt(a + (s + [x] + []) + b, a + s + b, x, |a| + |s|)
    ensures RemovedAt(a + ([] + [x] + s) + b, a + s + b, x, |a|)
  {}

  lemma {:induction false} ReadyAfterSwap<A>(g: Algebra<A>, child: Children, parent: Parents, root: Link, balance: map<Link, int>,
                                             count: map<Link, int>, assoc: map<Link, A>, child': Children, parent': Parents,
                                             up: Ctx, left: Tree, node: Link, right: Tree, c: Ctx, el: Tree, max: Link)
    requires Distinct(Plug(up, Node(left, node, right))) && Shape(child, parent, Plug(up, Node(left, node, right)), root, NULL)
    requires Balanced(balance, Plug(up, Node(left, node, right))) && Summed(g, count, assoc, Plug(up, Node(left, node, right)))
    requires Predecessor(up, left, node, right, c, el, max)
    requires Swapped(child, parent, child', parent', node, max, Elems(Plug(up, Node(left, node, right))))
    requires node in balance && max in balance && node in count && max in count
    ensures Ready(g, child', parent', Swap(node, max, root), balance[node := balance[max]][max := balance[node]],
                  count[node := count[max]][max := count[node]], assoc, RenameCtx(c, node, max), false, el, node)
  {
    var t := Plug(c, Node(el, max, Leaf));
    var count' := count[node := count[max]][max := count[node]];
    PredecessorApart(up, left, node, right, c, el, max);
    RenameSize(el, node, max);
    RenamePlug(c, Node(el, max, Leaf), node, max);
    assert Rename(Node(el, max, Leaf), node, max) == Single(false, el, node);
    RenameDistinct(t, node, max);
    SwappedBalanced(balance, balance[node := balance[max]][max := balance[node]], t, node, max);
    SwappedLinks(child, parent, child', parent', root, t, node, max, up, left, right);
    SwappedSums(g, count, count', assoc, c, el, node, max);
  }

  lemma {:induction false} SwappedLinks(child: Children, parent: Parents, child': Children, parent': Parents, root: Link,
                                        t: Tree, node: Link, max: Link, up: Ctx, left: Tree, right: Tree)
    requires t == Plug(up, Node(left, node, right)) && max in Elems(left)
    requires Distinct(t) && Shape(child, parent, t, root, NULL) && Swapped(child, parent, child', parent', node, max, Elems(t))
    ensures Shape(child', parent', Rename(t, node, max), Swap(node, max, root), NULL)
  {
    PlugElems(up, Node(left, node, right));
    ShapeConsistent(child, parent, t, root, NULL);
    Known(child, parent, Elems(t), root, node);
    Known(child, parent, Elems(t), root, max);
    SwappedShape(child, parent, child', parent', node, max, t, root, NULL);
  }

  lemma {:induction false} SwappedSums<A>(g: Algebra<A>, count: map<Link, int>, count': map<Link, int>, assoc: map<Link, A>,
                                          c: Ctx, el: Tree, node: Link, max: Link)
    requires Summed(g, count, assoc, Plug(c, Node(el, max, Leaf)))
    requires node in count && max in count && count' == count[node := count[max]][max := count[node]]
    requires node != max && node !in Elems(el) && max !in Elems(el) && SiblingsAvoid(c, node) && SiblingsAvoid(c, max)
    ensures Summed(g, count', assoc, el) && CtxPending(g, count', assoc, RenameCtx(c, node, max), |Seq(el)| + 1)
    ensures count'[node] == |Seq(el)| + 1
  {
    PlugSummed(g, count, assoc, c, Node(el, max, Leaf));
    SummedIsPending(g, count, assoc, c, Seq(Node(el, max, Leaf)));
    SwappedPending(g, count, count', assoc, c, |Seq(el)| + 1, node, max);
    SummedFrame(g, count, assoc, count', assoc, el);
  }

  // ---------------------------------------------------------------- replacing a node by its subtree

  /** What can be read at a node that is ready to be replaced. */
  lemma {:induction false} ReadySite<A>(g: Algebra<A>, child: Children, parent: Parents, root: Link, balance: map<Link, int>,
                                        count: map<Link, int>, assoc: map<Link, A>, c: Ctx, onRight: bool, t: Tree, node: Link)
    requires Ready(g, child, parent, root, balance, count, assoc, c, onRight, t, node)
    ensures node in parent && parent[node] == Head(c) && node != NULL && (node, false) in child && (node, true) in child
    ensures child[(node, onRight)] == TopLink(t) && child[(node, !onRight)] == NULL
    ensures c.Step? ==> c.n != NULL && (c.n, true) in child && (node == child[(c.n, true)] <==> c.side)
    ensures Apart(c, t) && node !in CtxElems(c) && node !in Elems(t)
    ensures if t.Leaf? then |Seq(t)| == 0 else t.n != NULL && t.n in count && count[t.n] == |Seq(t)|
  {
    PlugElems(c, Single(onRight, t, node));
    PlugShape(child, parent, root, c, Single(onRight, t, node));
    JoinShape(child, parent, onRight, t, node, Leaf, Head(c));
    JoinNodes(onRight, t, node, Leaf);
    LinkSums(g, child, parent, count, assoc, t, TopLink(t), node);
  }

  lemma {:induction false} SingleBalanced(balance: map<Link, int>, c: Ctx, onRight: bool, t: Tree, node: Link)
    requires Balanced(balance, Plug(c, Single(onRight, t, node)))
    ensures Balanced(balance, t) && CtxBalanced(balance, c, Height(t) + 1)
  {
    PlugBalanced(balance, c, Single(onRight, t, node));
    JoinBalanced(balance, onRight, t, node, Leaf);
  }

  /** The links after the subtree has taken the place of the node. */
  lemma {:induction false} ReplacedLinks(child: Children, parent: Parents, child': Children, parent': Parents, root: Link, root': Link,
                                         c: Ctx, onRight: bool, t: Tree, node: Link)
    requires Distinct(Plug(c, Single(onRight, t, node))) && Shape(child, parent, Plug(c, Single(onRight, t, node)), root, NULL)
    requires child' == if c.Step? then child[(c.n, c.side) := TopLink(t)] else child
    requires parent' == if t.Node? then parent[t.n := Head(c)] else parent
    requires root' == if c.Step? then root else TopLink(t)
    ensures Distinct(Plug(c, t)) && Shape(child', parent', Plug(c, t), root', NULL)
  {
    PlugElems(c, Single(onRight, t, node));
    PlugElems(c, t);
    PlugShape(child, parent, root, c, Single(onRight, t, node));
    JoinShape(child, parent, onRight, t, node, Leaf, Head(c));
    JoinNodes(onRight, t, node, Leaf);
    Reparent(child, parent, child', parent', t, node, Head(c));
    Relink(child, parent, child', parent', root, root', c, node, TopLink(t));
    PlugShape(child', parent', root', c, t);
  }
}
