/** The reading operations of structure/CAvl_impl.h: neighbours, ranks and prefix sums. */
module CAvlQueries {
  import opened Basics
  import opened AvlTree
  import opened AvlRemove
  import C = CAvl

  /** CAvl_subtree_min, on the way down from `t`. */
  method SubtreeMin<A(!new)>(o: C.CAvl<A>, top: Link, ghost c: Ctx, ghost t: Tree) returns (n: Link, ghost c': Ctx, ghost r: Tree)
    requires o.Linked(Plug(c, t)) && t.Node? && top == t.n
    ensures Plug(c, t) == Plug(c', Node(Leaf, n, r)) && Before(c') == Before(c)
  {
    n, c' := top, c;
    ghost var sub := t;
    o.Place(c', sub);
    while o.child[(n, false)] != NULL
      invariant sub.Node? && n == sub.n && Plug(c, t) == Plug(c', sub) && Before(c') == Before(c)
      invariant o.Placed(c', sub)
      decreases sub
    {
      c', sub := Step(c', n, false, sub.right), sub.left;
      n := o.child[(n, false)];
      o.Place(c', sub);
    }
    PlugShape(o.child, o.parent, o.root, c', sub);
    r := sub.right;
  }

  /** CAvl_GetFirst */
  method GetFirst<A(!new)>(o: C.CAvl<A>) returns (n: Link)
    requires o.Valid()
    ensures n == At(o.Contents(), 0) && (n == NULL <==> o.Contents() == [])
  {
    if o.root == NULL {
      return NULL;
    }
    ghost var c, r;
    n, c, r := SubtreeMin(o, o.root, Top, o.tree);
    o.Place(c, Node(Leaf, n, r));
    PlugSeq(c, Node(Leaf, n, r));
  }

  /** CAvl_GetLast */
  method GetLast<A(!new)>(o: C.CAvl<A>) returns (n: Link)
    requires o.Valid()
    ensures n == At(o.Contents(), |o.Contents()| - 1) && (n == NULL <==> o.Contents() == [])
  {
    if o.root == NULL {
      return NULL;
    }
    ghost var c, l;
    n, c, l := o.SubtreeMax(o.root, Top, o.tree);
    o.Place(c, Node(l, n, Leaf));
    PlugSeq(c, Node(l, n, Leaf));
  }

  /** CAvl_GetNext */
  method GetNext<A(!new)>(o: C.CAvl<A>, node: Link, ghost i: nat) returns (n: Link)
    requires o.Valid() && i < |o.Contents()| && o.Contents()[i] == node
    ensures n == At(o.Contents(), i + 1)
  {
    ghost var c, l, r := LocateAt(o.tree, i);
    o.Place(c, Node(l, node, r));
    if o.child[(node, true)] != NULL {
      ghost var c', r';
      PlugShape(o.child, o.parent, o.root, c, Node(l, node, r));
      n, c', r' := SubtreeMin(o, o.child[(node, true)], Step(c, node, true, l), r);
      PlugSeq(c', Node(Leaf, n, r'));
    } else {
      PlugShape(o.child, o.parent, o.root, c, Node(l, node, r));
      ghost var sub := Node(l, node, r);
      n := node;
      while o.parent[n] != NULL && n == o.child[(o.parent[n], true)]
        invariant sub.Node? && n == sub.n && o.tree == Plug(c, sub) && o.Placed(c, sub)
        invariant i + 1 == |Before(c)| + |Seq(sub)|
        decreases c
      {
        n := o.parent[n];
        c, sub := c.up, Join(true, sub, c.n, c.sib);
        o.Place(c, sub);
      }
      PlugSeq(c, sub);
      n := o.parent[n];
    }
  }

  /** CAvl_GetPrev */
  method GetPrev<A(!new)>(o: C.CAvl<A>, node: Link, ghost i: nat) returns (n: Link)
    requires o.Valid() && i < |o.Contents()| && o.Contents()[i] == node
    ensures n == At(o.Contents(), i - 1)
  {
    ghost var c, l, r := LocateAt(o.tree, i);
    o.Place(c, Node(l, node, r));
    if o.child[(node, false)] != NULL {
      ghost var c', l';
      PlugShape(o.child, o.parent, o.root, c, Node(l, node, r));
      n, c', l' := o.SubtreeMax(o.child[(node, false)], Step(c, node, false, r), l);
      PlugSeq(c', Node(l', n, Leaf));
      PlugSeq(c, Node(l, node, r));
      assert |Before(c')| + |Seq(l')| + 1 == i;
    } else {
      PlugShape(o.child, o.parent, o.root, c, Node(l, node, r));
      ghost var sub := Node(l, node, r);
      n := node;
      while o.parent[n] != NULL && n == o.child[(o.parent[n], false)]
        invariant sub.Node? && n == sub.n && o.tree == Plug(c, sub) && o.Placed(c, sub)
        invariant i == |Before(c)|
        decreases c
      {
        n := o.parent[n];
        c, sub := c.up, Join(false, sub, c.n, c.sib);
        o.Place(c, sub);
      }
      PlugSeq(c, sub);
      n := o.parent[n];
    }
  }

  /** The sequence around the top node of a subtree. */
  lemma {:induction false} WhereInOrder(c: Ctx, t: Tree)
    requires t.Node?
    ensures var s, k := Seq(Plug(c, t)), |Before(c)| + |Seq(t.left)|;
            && |s| == k + 1 + |Seq(t.right)| + |After(c)| && |Seq(t)| == |Seq(t.left)| + 1 + |Seq(t.right)|
            && s[..k] == Before(c) + Seq(t.left) && s[k] == t.n
  {
    PlugSeq(c, t);
  }

  /** The place of the node at position `i`. */
  lemma {:induction false} LocateAt(t: Tree, i: nat) returns (c: Ctx, l: Tree, r: Tree)
    requires i < |Seq(t)|
    ensures t == Plug(c, Node(l, Seq(t)[i], r)) && i == |Before(c)| + |Seq(l)|
  {
    c, l, r := LocateFrom(Top, t, i);
  }

  lemma {:induction false} LocateFrom(c: Ctx, t: Tree, i: nat) returns (c': Ctx, l: Tree, r: Tree)
    requires i < |Seq(t)|
    ensures Plug(c, t) == Plug(c', Node(l, Seq(t)[i], r)) && |Before(c)| + i == |Before(c')| + |Seq(l)|
    decreases t
  {
    var k := |Seq(t.left)|;
    if i < k {
      c', l, r := LocateFrom(Step(c, t.n, false, t.right), t.left, i);
    } else if i == k {
      c', l, r := c, t.left, t.right;
    } else {
      c', l, r := LocateFrom(Step(c, t.n, true, t.left), t.right, i - k - 1);
    }
  }

  /** No entry of the tree is null. */
  lemma {:induction false} NeverNull<A(!new)>(o: C.CAvl<A>, i: nat)
    requires o.Valid() && i < |o.Contents()|
    ensures o.Contents()[i] != NULL
  {
    var c, l, r := LocateAt(o.tree, i);
    o.Place(c, Node(l, o.Contents()[i], r));
  }

  // ---------------------------------------------------------------- ranks

  /** The count on the node above a subtree, and what lies before that subtree. */
  lemma {:induction false} Above<A(!new)>(o: C.CAvl<A>, c: Ctx, t: Tree)
    requires o.Linked(Plug(c, t)) && c.Step? && t.Node?
    ensures o.Placed(c.up, Join(c.side, t, c.n, c.sib))
    ensures t.n in o.count && o.count[t.n] == |Seq(t)| && c.n in o.count && o.count[c.n] == |Seq(t)| + 1 + |Seq(c.sib)|
  {
    o.Place(c.up, Join(c.side, t, c.n, c.sib));
    PlugSummed(o.g, o.count, o.assoc, c, t);
  }

  /** CAvl_IndexOf */
  method IndexOf<A(!new)>(o: C.CAvl<A>, node: Link) returns (index: nat)
    requires o.Valid() && node in o.Contents()
    ensures index < |o.Contents()| && o.Contents()[index] == node
  {
    SeqElems(o.tree);
    ghost var c, l, r := Locate(Top, o.tree, node);
    ghost var sub := Node(l, node, r);
    o.Sizes(c, sub);
    PlugSeq(c, sub);
    ghost var i := |Before(c)| + |Seq(l)|;
    assert o.Contents()[i] == node;
    index := CountAt(o.count, o.child[(node, false)]);
    var n, paren := node, o.parent[node];
    while paren != NULL
      invariant sub.Node? && n == sub.n && o.tree == Plug(c, sub) && o.Placed(c, sub) && paren == Head(c)
      invariant i == |Before(c)| + index
      decreases c
    {
      Above(o, c, sub);
      if n == o.child[(paren, true)] {
        index := index + (o.count[paren] - o.count[n]);
      }
      c, sub := c.up, Join(c.side, sub, c.n, c.sib);
      n, paren := paren, o.parent[paren];
    }
  }

  /** CAvl_GetAt */
  method GetAt<A(!new)>(o: C.CAvl<A>, at: nat) returns (n: Link)
    requires o.Valid()
    ensures n == At(o.Contents(), at) && (n == NULL <==> at >= |o.Contents()|)
  {
    ghost var c, sub := Top, o.tree;
    if o.root != NULL {
      o.Sizes(c, sub);
    }
    if at >= CountAt(o.count, o.root) {
      return NULL;
    }
    n := o.root;
    var index := at;
    while true
      invariant sub.Node? && n == sub.n && o.tree == Plug(c, sub) && 0 <= index < |Seq(sub)| && at == |Before(c)| + index
      decreases sub
    {
      o.Sizes(c, sub);
      var leftCount := CountAt(o.count, o.child[(n, false)]);
      assert |Seq(sub)| == |Seq(sub.left)| + 1 + |Seq(sub.right)|;
      assert sub.left.Leaf? ==> Seq(sub.left) == [];
      assert sub.right.Leaf? ==> Seq(sub.right) == [];
      if index == leftCount {
        PlugSeq(c, sub);
        o.Place(c, sub);
        return n;
      }
      if index < leftCount {
        c, sub := Step(c, n, false, sub.right), sub.left;
        n := o.child[(n, false)];
      } else {
        c, sub := Step(c, n, true, sub.left), sub.right;
        n := o.child[(n, true)];
        index := index - (leftCount + 1);
      }
    }
  }

  /** Ranks are unique, so CAvl_IndexOf and CAvl_GetAt undo each other. */
  lemma {:induction false} RankUnique<A(!new)>(o: C.CAvl<A>, i: nat, j: nat)
    requires o.Valid() && i < |o.Contents()| && At(o.Contents(), j) == o.Contents()[i] && o.Contents()[i] != NULL
    ensures i == j
  {
    if i < j {
      DistinctSeq(o.tree, i, j);
    } else if j < i {
      DistinctSeq(o.tree, j, i);
    }
  }

  // ---------------------------------------------------------------- sums

  /** CAvl_AssocSum */
  method AssocSum<A(!new)>(o: C.CAvl<A>) returns (sum: A)
    requires o.Valid()
    ensures sum == Fold(o.g, o.Contents())
  {
    if o.root == NULL {
      return o.g.zero;
    }
    LinkSums(o.g, o.child, o.parent, o.count, o.assoc, o.tree, o.root, NULL);
    return o.assoc[o.root];
  }

  /** The sum read through a link. */
  function AssocAt<A>(g: Algebra<A>, assoc: map<Link, A>, p: Link): A
    requires p == NULL || p in assoc
  {
    if p == NULL then g.zero else assoc[p]
  }

  lemma {:induction false} Sums<A(!new)>(o: C.CAvl<A>, c: Ctx, t: Tree)
    requires o.Linked(Plug(c, t)) && t.Node?
    ensures o.Placed(c, t)
    ensures o.child[(t.n, false)] != NULL ==> o.child[(t.n, false)] in o.assoc
    ensures AssocAt(o.g, o.assoc, o.child[(t.n, false)]) == Fold(o.g, Seq(t.left))
  {
    o.Place(c, t);
    PlugShape(o.child, o.parent, o.root, c, t);
    PlugSummed(o.g, o.count, o.assoc, c, t);
    LinkSums(o.g, o.child, o.parent, o.count, o.assoc, t.left, TopLink(t.left), t.n);
  }

  /** What lies before a subtree and its first part `inner`, seen from the node above. */
  lemma {:induction false} BeforeUp(c: Ctx, inner: seq<Link>)
    requires c.Step?
    ensures Before(c) + inner == Before(c.up) + if c.side then Seq(c.sib) + [c.n] + inner else inner
  {
    if c.side {
      Regroup(Before(c.up), Seq(c.sib) + [c.n], inner, []);
    }
  }

  /** CAvl_ExclusiveAssocPrefixSum: the sum of all nodes before `node`. */
  method ExclusiveAssocPrefixSum<A(!new)>(o: C.CAvl<A>, node: Link, ghost i: nat) returns (sum: A)
    requires o.Valid() && i < |o.Contents()| && o.Contents()[i] == node
    ensures sum == Fold(o.g, o.Contents()[..i])
  {
    ghost var before := o.Contents()[..i];
    ghost var c, l, r := LocateAt(o.tree, i);
    ghost var sub, inner := Node(l, node, r), Seq(l);
    assert before == Before(c) + inner by { PlugSeq(c, sub); }
    Sums(o, c, sub);
    sum := AssocAt(o.g, o.assoc, o.child[(node, false)]);
    var n, paren := node, o.parent[node];
    while paren != NULL
      invariant sub.Node? && n == sub.n && o.tree == Plug(c, sub) && o.Placed(c, sub) && paren == Head(c)
      invariant before == Before(c) + inner && sum == Fold(o.g, inner)
      decreases c
    {
      ghost var up := Join(c.side, sub, c.n, c.sib);
      Sums(o, c.up, up);
      BeforeUp(c, inner);
      if n == o.child[(paren, true)] {
        sum := PrependSum(o, paren, sum, c.sib, inner);
        inner := Seq(c.sib) + [c.n] + inner;
      }
      c, sub := c.up, up;
      n, paren := paren, o.parent[paren];
    }
    assert before == [] + inner == inner;
  }

  /** The sum of the left subtree of `paren`, of `paren` itself and of `inner`. */
  method PrependSum<A(!new)>(o: C.CAvl<A>, paren: Link, sum: A, ghost left: Tree, ghost inner: seq<Link>) returns (sum': A)
    requires Monoid(o.g) && sum == Fold(o.g, inner) && (paren, false) in o.child
    requires o.child[(paren, false)] == TopLink(left)
    requires o.child[(paren, false)] != NULL ==> o.child[(paren, false)] in o.assoc
    requires AssocAt(o.g, o.assoc, o.child[(paren, false)]) == Fold(o.g, Seq(left))
    ensures sum' == Fold(o.g, Seq(left) + [paren] + inner)
  {
    FoldSingle(o.g, paren);
    FoldConcat(o.g, [paren], inner);
    FoldConcat(o.g, Seq(left), [paren] + inner);
    assert Seq(left) + [paren] + inner == Seq(left) + ([paren] + inner);
    assert Neutral(o.g, Fold(o.g, [paren] + inner));
    sum' := o.g.oper(o.g.value(paren), sum);
    if o.child[(paren, false)] != NULL {
      sum' := o.g.oper(o.assoc[o.child[(paren, false)]], sum');
    }
  }

  lemma {:induction false} PrefixWith<A(!new)>(g: Algebra<A>, a: seq<Link>, l: seq<Link>, n: Link)
    requires Monoid(g)
    ensures Fold(g, a + l) == g.oper(Fold(g, a), Fold(g, l))
    ensures Fold(g, a + (l + [n])) == g.oper(Fold(g, a + l), g.value(n))
  {
    FoldConcat(g, a, l);
    FoldSingle(g, n);
    FoldConcat(g, a + l, [n]);
    assert a + l + [n] == a + (l + [n]);
  }

  /** Exclusive prefix sums that exceed `sum` do so from some position on. */
  ghost predicate Threshold<A>(g: Algebra<A>, s: seq<Link>, less: (A, A) -> bool, sum: A) {
    forall i, j :: 0 <= i <= j < |s| && less(sum, Fold(g, s[..i])) ==> less(sum, Fold(g, s[..j]))
  }

  /**
   CAvl_FindLastExclusiveAssocPrefixSumLesserEqual: the last node whose exclusive prefix sum
   is not above `sum`, or null if there is none.
   */
  method FindLastPrefixSum<A(!new)>(o: C.CAvl<A>, sum: A, less: (A, A) -> bool) returns (result: Link, ghost pos: int)
    requires o.Valid() && Threshold(o.g, o.Contents(), less, sum)
    ensures -1 <= pos < |o.Contents()| && result == At(o.Contents(), pos) && (result == NULL <==> pos == -1)
    ensures forall i :: 0 <= i < |o.Contents()| ==> (less(sum, Fold(o.g, o.Contents()[..i])) <==> pos < i)
  {
    result, pos := NULL, -1;
    var n := o.root;
    var sumOffset := o.g.zero;
    ghost var s := o.Contents();
    ghost var c, sub := Top, o.tree;
    while n != NULL
      invariant n == TopLink(sub) && o.tree == Plug(c, sub) && sumOffset == Fold(o.g, Before(c))
      invariant |Before(c)| + |Seq(sub)| <= |s|
      invariant pos == |Before(c)| - 1 && result == At(s, pos)
      invariant 0 <= pos ==> !less(sum, Fold(o.g, s[..pos]))
      invariant |Before(c)| + |Seq(sub)| < |s| ==> less(sum, Fold(o.g, s[..|Before(c)| + |Seq(sub)|]))
      decreases sub
    {
      Sums(o, c, sub);
      ghost var k := |Before(c)| + |Seq(sub.left)|;
      WhereInOrder(c, sub);
      PrefixWith(o.g, Before(c), Seq(sub.left), n);
      var leftSum := AssocAt(o.g, o.assoc, o.child[(n, false)]);
      var cPrefixSum := o.g.oper(sumOffset, leftSum);
      if less(sum, cPrefixSum) {
        assert Before(Step(c, n, false, sub.right)) == Before(c);
        c, sub := Step(c, n, false, sub.right), sub.left;
        n := o.child[(n, false)];
      } else {
        result, pos := n, k;
        sumOffset := o.g.oper(cPrefixSum, o.g.value(n));
        c, sub := Step(c, n, true, sub.left), sub.right;
        n := o.child[(n, true)];
      }
    }
    assert sub == Leaf by { PlugShape(o.child, o.parent, o.root, c, sub); }
    if pos >= 0 {
      NeverNull(o, pos);
    }
  }
}
