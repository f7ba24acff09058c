/**
 The mathematical side of the in-place AVL tree: what node memory has to look like to
 represent a tree, and how that survives local changes of memory.

 Nodes are named by their links, and each node member is a map from links to its current
 value. A tree position is described as a zipper: a subtree plus the context `Ctx` that leads
 from it up to the root, which is the path the code walks when it follows parent links.
 */
module AvlTree {
  import opened Basics

  type Link = int

  /** Member `link[2]` of every node; the flag is true for the right child. */
  type Children = map<(Link, bool), Link>
  type Parents = map<Link, Link>

  // ---------------------------------------------------------------- the associative operation

  /** The caller's associative operation, its zero, and the value each node contributes. */
  datatype Algebra<!A> = Algebra(value: Link -> A, oper: (A, A) -> A, zero: A)

  ghost predicate Associates<A>(g: Algebra<A>, a: A, b: A, c: A) {
    g.oper(g.oper(a, b), c) == g.oper(a, g.oper(b, c))
  }

  ghost predicate Neutral<A>(g: Algebra<A>, a: A) {
    g.oper(g.zero, a) == a && g.oper(a, g.zero) == a
  }

  ghost predicate Monoid<A(!new)>(g: Algebra<A>) {
    && (forall a :: Neutral(g, a))
    && (forall a, b, c :: Associates(g, a, b, c))
  }

  /** The operation applied to the values of a sequence of nodes, in order. */
  ghost function Fold<A>(g: Algebra<A>, s: seq<Link>): A {
    if s == [] then g.zero else g.oper(g.value(s[0]), Fold(g, s[1..]))
  }

  lemma {:induction false} FoldConcat<A(!new)>(g: Algebra<A>, s: seq<Link>, t: seq<Link>)
    requires Monoid(g)
    ensures Fold(g, s + t) == g.oper(Fold(g, s), Fold(g, t))
  {
    if s == [] {
      assert s + t == t;
      assert Neutral(g, Fold(g, t));
    } else {
      assert (s + t)[1..] == s[1..] + t;
      FoldConcat(g, s[1..], t);
      assert Associates(g, g.value(s[0]), Fold(g, s[1..]), Fold(g, t));
    }
  }

  lemma {:induction false} FoldSingle<A(!new)>(g: Algebra<A>, n: Link)
    requires Monoid(g)
    ensures Fold(g, [n]) == g.value(n)
  {
    assert Fold(g, [n][1..]) == g.zero;
    assert Neutral(g, g.value(n));
  }

  // ---------------------------------------------------------------- trees

  datatype Tree = Leaf | Node(left: Tree, n: Link, right: Tree)

  /** The tree with `t` as the child of `n` on side `side` and `sib` on the other side. */
  function Join(side: bool, t: Tree, n: Link, sib: Tree): Tree {
    if side then Node(sib, n, t) else Node(t, n, sib)
  }

  function Seq(t: Tree): seq<Link> {
    match t
    case Leaf => []
    case Node(l, n, r) => Seq(l) + [n] + Seq(r)
  }

  function Elems(t: Tree): set<Link> {
    match t
    case Leaf => {}
    case Node(l, n, r) => Elems(l) + {n} + Elems(r)
  }

  function Height(t: Tree): nat {
    match t
    case Leaf => 0
    case Node(l, _, r) => 1 + Max(Height(l), Height(r))
  }

  function TopLink(t: Tree): Link {
    match t
    case Leaf => NULL
    case Node(_, n, _) => n
  }

  ghost predicate Distinct(t: Tree) {
    match t
    case Leaf => true
    case Node(l, n, r) =>
      && n !in Elems(l) && n !in Elems(r) && Elems(l) !! Elems(r)
      && Distinct(l) && Distinct(r)
  }

  /** Child and parent links spell out `t`, with top node `p` below `up`. */
  ghost predicate Shape(child: Children, parent: Parents, t: Tree, p: Link, up: Link) {
    match t
    case Leaf => p == NULL
    case Node(l, n, r) =>
      && p == n && n != NULL && n in parent && parent[n] == up
      && (n, false) in child && Shape(child, parent, l, child[(n, false)], n)
      && (n, true) in child && Shape(child, parent, r, child[(n, true)], n)
  }

  /** Every balance factor is the difference of the real heights and within [-1, 1]. */
  ghost predicate Balanced(balance: map<Link, int>, t: Tree) {
    match t
    case Leaf => true
    case Node(l, n, r) =>
      && n in balance
      && balance[n] == Height(r) - Height(l) && -1 <= balance[n] <= 1
      && Balanced(balance, l) && Balanced(balance, r)
  }

  /** `n` carries the count and the associative sum of `s`. */
  ghost predicate Carries<A>(g: Algebra<A>, count: map<Link, int>, assoc: map<Link, A>, n: Link, s: seq<Link>) {
    n in count && count[n] == |s| && n in assoc && assoc[n] == Fold(g, s)
  }

  /** Every count and associative sum is that of the whole subtree below the node. */
  ghost predicate Summed<A>(g: Algebra<A>, count: map<Link, int>, assoc: map<Link, A>, t: Tree) {
    match t
    case Leaf => true
    case Node(l, n, r) =>
      && Carries(g, count, assoc, n, Seq(t))
      && Summed(g, count, assoc, l) && Summed(g, count, assoc, r)
  }

  // ---------------------------------------------------------------- contexts

  /** `Step(up, n, side, sib)`: the hole is the child of `n` on `side`; its sibling is `sib`. */
  datatype Ctx = Top | Step(up: Ctx, n: Link, side: bool, sib: Tree)

  function Plug(c: Ctx, t: Tree): Tree {
    match c
    case Top => t
    case Step(up, n, side, sib) => Plug(up, Join(side, t, n, sib))
  }

  /** The parent link of whatever is in the hole. */
  function Head(c: Ctx): Link {
    match c
    case Top => NULL
    case Step(_, n, _, _) => n
  }

  function CtxElems(c: Ctx): set<Link> {
    match c
    case Top => {}
    case Step(up, n, _, sib) => CtxElems(up) + {n} + Elems(sib)
  }

  function Before(c: Ctx): seq<Link> {
    match c
    case Top => []
    case Step(up, n, side, sib) => Before(up) + (if side then Seq(sib) + [n] else [])
  }

  function After(c: Ctx): seq<Link> {
    match c
    case Top => []
    case Step(up, n, side, sib) => (if side then [] else [n] + Seq(sib)) + After(up)
  }

  function Around(side: bool, s: seq<Link>, n: Link, sib: Tree): seq<Link> {
    if side then Seq(sib) + [n] + s else s + [n] + Seq(sib)
  }

  ghost predicate CtxDistinct(c: Ctx) {
    match c
    case Top => true
    case Step(up, n, _, sib) =>
      && n !in CtxElems(up) && n !in Elems(sib) && CtxElems(up) !! Elems(sib)
      && CtxDistinct(up) && Distinct(sib)
  }

  ghost predicate Apart(c: Ctx, t: Tree) {
    CtxDistinct(c) && Distinct(t) && CtxElems(c) !! Elems(t)
  }

  ghost predicate CtxShape(child: Children, parent: Parents, root: Link, c: Ctx, hole: Link) {
    match c
    case Top => hole == root
    case Step(up, n, side, sib) =>
      && n != NULL && (n, side) in child && child[(n, side)] == hole
      && (n, !side) in child && Shape(child, parent, sib, child[(n, !side)], n)
      && n in parent && parent[n] == Head(up)
      && CtxShape(child, parent, root, up, n)
  }

  /** Right height minus left height for a child of height `h` on side `side`. */
  function Lean(side: bool, h: int, sibling: int): int {
    if side then h - sibling else sibling - h
  }

  /** The balance factors above the hole are right for a hole of height `h`. */
  ghost predicate CtxBalanced(balance: map<Link, int>, c: Ctx, h: int) {
    match c
    case Top => true
    case Step(up, n, side, sib) =>
      && Balanced(balance, sib)
      && n in balance && balance[n] == Lean(side, h, Height(sib)) && -1 <= balance[n] <= 1
      && CtxBalanced(balance, up, 1 + Max(h, Height(sib)))
  }

  /** The counts and sums above the hole are right for a hole that holds `s`. */
  ghost predicate CtxSummed<A>(g: Algebra<A>, count: map<Link, int>, assoc: map<Link, A>, c: Ctx, s: seq<Link>) {
    match c
    case Top => true
    case Step(up, n, side, sib) =>
      && Summed(g, count, assoc, sib)
      && Carries(g, count, assoc, n, Around(side, s, n, sib))
      && CtxSummed(g, count, assoc, up, Around(side, s, n, sib))
  }

  // ---------------------------------------------------------------- zipper laws

  lemma {:induction false} SeqElems(t: Tree)
    ensures forall x :: x in Seq(t) <==> x in Elems(t)
  {
    match t
    case Leaf =>
    case Node(l, n, r) =>
      SeqElems(l);
      SeqElems(r);
  }

  lemma {:induction false} PlugSeq(c: Ctx, t: Tree)
    ensures Seq(Plug(c, t)) == Before(c) + Seq(t) + After(c)
  {
    match c
    case Top =>
    case Step(up, n, side, sib) =>
      PlugSeq(up, Join(side, t, n, sib));
      StepSeq(up, t, n, side, sib);
  }

  lemma {:induction false} StepSeq(up: Ctx, t: Tree, n: Link, side: bool, sib: Tree)
    ensures Before(up) + Seq(Join(side, t, n, sib)) + After(up)
         == Before(Step(up, n, side, sib)) + Seq(t) + After(Step(up, n, side, sib))
  {
    if side {
      Regroup(Before(up), Seq(sib) + [n], Seq(t), After(up));
    } else {
      assert Seq(t) + [n] + Seq(sib) == Seq(t) + ([n] + Seq(sib));
      Regroup(Before(up), Seq(t), [n] + Seq(sib), After(up));
    }
  }

  lemma {:induction false} Regroup<T>(a: seq<T>, b: seq<T>, c: seq<T>, d: seq<T>)
    ensures a + (b + c) + d == (a + b) + c + d == a + b + (c + d)
  {}

  lemma {:induction false} PlugElems(c: Ctx, t: Tree)
    ensures Elems(Plug(c, t)) == CtxElems(c) + Elems(t)
    ensures Distinct(Plug(c, t)) <==> Apart(c, t)
  {
    match c
    case Top =>
    case Step(up, n, side, sib) => PlugElems(up, Join(side, t, n, sib));
  }

  /** A stored tree can be taken apart at any position and put together again. */
  lemma {:induction false} PlugShape(child: Children, parent: Parents, root: Link, c: Ctx, t: Tree)
    ensures Shape(child, parent, Plug(c, t), root, NULL)
            <==> CtxShape(child, parent, root, c, TopLink(t)) && Shape(child, parent, t, TopLink(t), Head(c))
  {
    match c
    case Top =>
    case Step(up, n, side, sib) => PlugShape(child, parent, root, up, Join(side, t, n, sib));
  }

  lemma {:induction false} PlugBalanced(balance: map<Link, int>, c: Ctx, t: Tree)
    ensures Balanced(balance, Plug(c, t)) <==> CtxBalanced(balance, c, Height(t)) && Balanced(balance, t)
  {
    match c
    case Top =>
    case Step(up, n, side, sib) => PlugBalanced(balance, up, Join(side, t, n, sib));
  }

  lemma {:induction false} PlugSummed<A>(g: Algebra<A>, count: map<Link, int>, assoc: map<Link, A>, c: Ctx, t: Tree)
    ensures Summed(g, count, assoc, Plug(c, t)) <==> CtxSummed(g, count, assoc, c, Seq(t)) && Summed(g, count, assoc, t)
  {
    match c
    case Top =>
    case Step(up, n, side, sib) => PlugSummed(g, count, assoc, up, Join(side, t, n, sib));
  }

  lemma {:induction false} JoinNodes(side: bool, t: Tree, n: Link, sib: Tree)
    ensures Seq(Join(side, t, n, sib)) == Around(side, Seq(t), n, sib)
    ensures Elems(Join(side, t, n, sib)) == Elems(t) + {n} + Elems(sib)
    ensures Distinct(Join(side, t, n, sib)) <==>
            && Distinct(t) && Distinct(sib)
            && n !in Elems(t) && n !in Elems(sib) && Elems(t) !! Elems(sib)
  {}

  lemma {:induction false} JoinShape(child: Children, parent: Parents, side: bool, t: Tree, n: Link, sib: Tree, up: Link)
    ensures Shape(child, parent, Join(side, t, n, sib), n, up) <==>
            && n != NULL && n in parent && parent[n] == up
            && (n, side) in child && child[(n, side)] == TopLink(t) && Shape(child, parent, t, TopLink(t), n)
            && (n, !side) in child && child[(n, !side)] == TopLink(sib) && Shape(child, parent, sib, TopLink(sib), n)
  {}

  lemma {:induction false} JoinSummed<A>(g: Algebra<A>, count: map<Link, int>, assoc: map<Link, A>,
                                         side: bool, t: Tree, n: Link, sib: Tree)
    ensures Summed(g, count, assoc, Join(side, t, n, sib)) <==>
            && Carries(g, count, assoc, n, Around(side, Seq(t), n, sib))
            && Summed(g, count, assoc, t) && Summed(g, count, assoc, sib)
  {}

  lemma {:induction false} JoinBalanced(balance: map<Link, int>, side: bool, t: Tree, n: Link, sib: Tree)
    ensures Height(Join(side, t, n, sib)) == 1 + Max(Height(t), Height(sib))
    ensures Balanced(balance, Join(side, t, n, sib)) <==>
            && n in balance && balance[n] == Lean(side, Height(t), Height(sib)) && -1 <= balance[n] <= 1
            && Balanced(balance, t) && Balanced(balance, sib)
  {}

  // ---------------------------------------------------------------- frames

  ghost predicate SameAt<K, V>(m: map<K, V>, m': map<K, V>, k: K) {
    k in m ==> k in m' && m[k] == m'[k]
  }

  /** The nodes of `s` carry the same links in both memories. */
  ghost predicate LinksKept(child: Children, parent: Parents, child': Children, parent': Parents, s: set<Link>) {
    && (forall x :: x in s ==> SameAt(parent, parent', x))
    && (forall x, b :: x in s ==> SameAt(child, child', (x, b)))
  }

  ghost predicate Kept<V>(m: map<Link, V>, m': map<Link, V>, s: set<Link>) {
    forall x :: x in s ==> SameAt(m, m', x)
  }

  lemma {:induction false} ShapeFrame(child: Children, parent: Parents, child': Children, parent': Parents,
                                      t: Tree, p: Link, up: Link)
    requires Shape(child, parent, t, p, up) && LinksKept(child, parent, child', parent', Elems(t))
    ensures Shape(child', parent', t, p, up)
  {
    match t
    case Leaf =>
    case Node(l, n, r) =>
      assert SameAt(child, child', (n, false)) && SameAt(child, child', (n, true));
      ShapeFrame(child, parent, child', parent', l, child[(n, false)], n);
      ShapeFrame(child, parent, child', parent', r, child[(n, true)], n);
  }

  lemma {:induction false} BalancedFrame(balance: map<Link, int>, balance': map<Link, int>, t: Tree)
    requires Balanced(balance, t) && Kept(balance, balance', Elems(t))
    ensures Balanced(balance', t)
  {
    match t
    case Leaf =>
    case Node(l, n, r) =>
      BalancedFrame(balance, balance', l);
      BalancedFrame(balance, balance', r);
  }

  lemma {:induction false} SummedFrame<A>(g: Algebra<A>, count: map<Link, int>, assoc: map<Link, A>,
                                          count': map<Link, int>, assoc': map<Link, A>, t: Tree)
    requires Summed(g, count, assoc, t) && Kept(count, count', Elems(t)) && Kept(assoc, assoc', Elems(t))
    ensures Summed(g, count', assoc', t)
  {
    match t
    case Leaf =>
    case Node(l, n, r) =>
      SummedFrame(g, count, assoc, count', assoc', l);
      SummedFrame(g, count, assoc, count', assoc', r);
  }

  lemma {:induction false} CtxShapeFrame(child: Children, parent: Parents, child': Children, parent': Parents,
                                         root: Link, c: Ctx, hole: Link)
    requires CtxShape(child, parent, root, c, hole) && LinksKept(child, parent, child', parent', CtxElems(c))
    ensures CtxShape(child', parent', root, c, hole)
  {
    match c
    case Top =>
    case Step(up, n, side, sib) =>
      assert SameAt(child, child', (n, side)) && SameAt(child, child', (n, !side));
      ShapeFrame(child, parent, child', parent', sib, child[(n, !side)], n);
      CtxShapeFrame(child, parent, child', parent', root, up, n);
  }

  lemma {:induction false} CtxBalancedFrame(balance: map<Link, int>, balance': map<Link, int>, c: Ctx, h: int)
    requires CtxBalanced(balance, c, h) && Kept(balance, balance', CtxElems(c))
    ensures CtxBalanced(balance', c, h)
  {
    match c
    case Top =>
    case Step(up, n, side, sib) =>
      BalancedFrame(balance, balance', sib);
      CtxBalancedFrame(balance, balance', up, 1 + Max(h, Height(sib)));
  }

  lemma {:induction false} CtxSummedFrame<A>(g: Algebra<A>, count: map<Link, int>, assoc: map<Link, A>,
                                             count': map<Link, int>, assoc': map<Link, A>, c: Ctx, s: seq<Link>)
    requires CtxSummed(g, count, assoc, c, s) && Kept(count, count', CtxElems(c)) && Kept(assoc, assoc', CtxElems(c))
    ensures CtxSummed(g, count', assoc', c, s)
  {
    match c
    case Top =>
    case Step(up, n, side, sib) =>
      SummedFrame(g, count, assoc, count', assoc', sib);
      CtxSummedFrame(g, count, assoc, count', assoc', up, Around(side, s, n, sib));
  }

  // ---------------------------------------------------------------- local changes

  /** A subtree is hung below another node by rewriting the parent link of its top node. */
  lemma {:induction false} Reparent(child: Children, parent: Parents, child': Children, parent': Parents,
                                    t: Tree, up: Link, up': Link)
    requires Distinct(t) && Shape(child, parent, t, TopLink(t), up)
    requires forall x, b :: x in Elems(t) ==> SameAt(child, child', (x, b))
    requires forall x :: x in Elems(t) && x != TopLink(t) ==> SameAt(parent, parent', x)
    requires t.Node? ==> t.n in parent' && parent'[t.n] == up'
    ensures Shape(child', parent', t, TopLink(t), up')
  {
    match t
    case Leaf =>
    case Node(l, n, r) =>
      assert SameAt(child, child', (n, false)) && SameAt(child, child', (n, true));
      ShapeFrame(child, parent, child', parent', l, child[(n, false)], n);
      ShapeFrame(child, parent, child', parent', r, child[(n, true)], n);
  }

  /** The hole gets another occupant by rewriting one child link, or the root. */
  lemma {:induction false} Relink(child: Children, parent: Parents, child': Children, parent': Parents,
                                  root: Link, root': Link, c: Ctx, hole: Link, hole': Link)
    requires CtxDistinct(c) && CtxShape(child, parent, root, c, hole)
    requires forall x :: x in CtxElems(c) ==> SameAt(parent, parent', x)
    requires forall x, b :: x in CtxElems(c) && !(c.Step? && (x, b) == (c.n, c.side)) ==> SameAt(child, child', (x, b))
    requires c.Step? ==> root' == root && (c.n, c.side) in child' && child'[(c.n, c.side)] == hole'
    requires c.Top? ==> root' == hole'
    ensures CtxShape(child', parent', root', c, hole')
  {
    match c
    case Top =>
    case Step(up, n, side, sib) =>
      assert SameAt(child, child', (n, !side));
      ShapeFrame(child, parent, child', parent', sib, child[(n, !side)], n);
      CtxShapeFrame(child, parent, child', parent', root, up, n);
  }

  // ---------------------------------------------------------------- sums from the children

  /** The count of a subtree as read through a link to it. */
  function CountAt(count: map<Link, int>, p: Link): int
    requires p == NULL || p in count
  {
    if p == NULL then 0 else count[p]
  }

  /** CAvl_compute_node_assoc: a node's sum from its own value and the sums of its children. */
  function NodeAssoc<A>(g: Algebra<A>, assoc: map<Link, A>, n: Link, left: Link, right: Link): A
    requires left == NULL || left in assoc
    requires right == NULL || right in assoc
  {
    var own := g.value(n);
    var withLeft := if left != NULL then g.oper(assoc[left], own) else own;
    if right != NULL then g.oper(withLeft, assoc[right]) else withLeft
  }

  /** The sums read through a link to a stored subtree are those of its in-order sequence. */
  lemma {:induction false} LinkSums<A>(g: Algebra<A>, child: Children, parent: Parents,
                                       count: map<Link, int>, assoc: map<Link, A>, t: Tree, p: Link, up: Link)
    requires Shape(child, parent, t, p, up) && Summed(g, count, assoc, t)
    ensures p == NULL ==> Seq(t) == []
    ensures p != NULL ==> Carries(g, count, assoc, p, Seq(t))
    ensures p == TopLink(t)
  {}

  /** `p` leads to a subtree with in-order sequence `s`, as far as sums are concerned. */
  ghost predicate Leads<A>(g: Algebra<A>, count: map<Link, int>, assoc: map<Link, A>, p: Link, s: seq<Link>) {
    if p == NULL then s == [] else Carries(g, count, assoc, p, s)
  }

  /** The count and sum of `n`, and nothing else, are computed afresh from its children. */
  ghost predicate Recomputed<A>(g: Algebra<A>, child: Children, count: map<Link, int>, assoc: map<Link, A>,
                                count': map<Link, int>, assoc': map<Link, A>, n: Link)
    requires (n, false) in child && (n, true) in child
    requires child[(n, false)] != NULL ==> child[(n, false)] in count && child[(n, false)] in assoc
    requires child[(n, true)] != NULL ==> child[(n, true)] in count && child[(n, true)] in assoc
  {
    && count' == count[n := 1 + CountAt(count, child[(n, false)]) + CountAt(count, child[(n, true)])]
    && assoc' == assoc[n := NodeAssoc(g, assoc, n, child[(n, false)], child[(n, true)])]
  }

  /** A node whose sums are recomputed carries those of its whole subtree. */
  lemma {:induction false} Recompute<A(!new)>(g: Algebra<A>, child: Children, count: map<Link, int>, assoc: map<Link, A>,
                           count': map<Link, int>, assoc': map<Link, A>, n: Link, s: seq<Link>, t: seq<Link>)
    requires Monoid(g) && (n, false) in child && (n, true) in child
    requires Leads(g, count, assoc, child[(n, false)], s) && Leads(g, count, assoc, child[(n, true)], t)
    requires Recomputed(g, child, count, assoc, count', assoc', n)
    ensures Carries(g, count', assoc', n, s + [n] + t)
  {
    assert Neutral(g, g.value(n)) && Neutral(g, Fold(g, s + [n]));
    FoldSingle(g, n);
    FoldConcat(g, s, [n]);
    FoldConcat(g, s + [n], t);
  }
}
