/** Search order along a descent from the root. */
module AvlOrder {
  import opened AvlTree

  /** Compares entries like CAVL_PARAM_FUN_COMPARE_ENTRIES: -1, 0 or 1. */
  type Compare = (Link, Link) -> int

  ghost predicate Opposite(cmp: Compare, a: Link, b: Link) {
    -1 <= cmp(a, b) <= 1 && cmp(b, a) == -cmp(a, b)
  }

  ghost predicate Transitive(cmp: Compare, a: Link, b: Link, c: Link) {
    cmp(a, b) <= 0 && cmp(b, c) <= 0 ==> cmp(a, c) <= 0
  }

  ghost predicate Ordering(cmp: Compare) {
    && (forall a, b :: Opposite(cmp, a, b))
    && (forall a, b, c :: Transitive(cmp, a, b, c))
  }

  lemma {:induction false} StrictlyTransitive(cmp: Compare, a: Link, b: Link, c: Link)
    requires Ordering(cmp) && cmp(a, b) < 0 && cmp(b, c) < 0
    ensures cmp(a, c) < 0
  {
    assert Transitive(cmp, a, b, c) && Transitive(cmp, b, c, a);
    assert Opposite(cmp, a, b) && Opposite(cmp, b, c) && Opposite(cmp, c, a) && Opposite(cmp, a, c);
  }

  ghost predicate Sorted(cmp: Compare, s: seq<Link>) {
    forall i, j :: 0 <= i < j < |s| ==> cmp(s[i], s[j]) < 0
  }

  ghost predicate AllBelow(cmp: Compare, s: seq<Link>, node: Link) {
    forall i :: 0 <= i < |s| ==> cmp(s[i], node) < 0
  }

  ghost predicate AllAbove(cmp: Compare, s: seq<Link>, node: Link) {
    forall i :: 0 <= i < |s| ==> cmp(s[i], node) > 0
  }

  /** Whatever is before the hole is below `node`, and whatever is after it is above. */
  ghost predicate Bounds(cmp: Compare, c: Ctx, node: Link) {
    AllBelow(cmp, Before(c), node) && AllAbove(cmp, After(c), node)
  }

  lemma {:induction false} BelowTransitive(cmp: Compare, s: seq<Link>, a: Link, b: Link)
    requires Ordering(cmp) && AllBelow(cmp, s, a) && cmp(a, b) < 0
    ensures AllBelow(cmp, s + [a], b)
  {
    forall i | 0 <= i < |s| ensures cmp(s[i], b) < 0 { StrictlyTransitive(cmp, s[i], a, b); }
  }

  lemma {:induction false} AboveTransitive(cmp: Compare, s: seq<Link>, a: Link, b: Link)
    requires Ordering(cmp) && AllAbove(cmp, s, a) && cmp(a, b) > 0
    ensures AllAbove(cmp, [a] + s, b)
  {
    forall i | 0 <= i < |s| ensures cmp(s[i], b) > 0 {
      assert Opposite(cmp, a, s[i]) && Opposite(cmp, b, a) && Opposite(cmp, b, s[i]);
      StrictlyTransitive(cmp, b, a, s[i]);
    }
  }

  /** The parts of a sorted sequence around one of its nodes. */
  lemma {:induction false} SortedParts(cmp: Compare, a: seq<Link>, l: seq<Link>, n: Link, r: seq<Link>, b: seq<Link>)
    requires Ordering(cmp) && Sorted(cmp, a + (l + [n] + r) + b)
    ensures AllBelow(cmp, l, n) && AllAbove(cmp, r, n)
  {
    var s := a + (l + [n] + r) + b;
    var k := |a| + |l|;
    assert s[k] == n;
    forall i | 0 <= i < |l| ensures cmp(l[i], n) < 0 {
      assert s[|a| + i] == l[i];
    }
    forall i | 0 <= i < |r| ensures cmp(r[i], n) > 0 {
      assert s[k + 1 + i] == r[i] && cmp(s[k], s[k + 1 + i]) < 0 && Opposite(cmp, n, r[i]);
    }
  }

  /** Going down on the side the comparison says keeps `node` between what is left behind. */
  lemma {:induction false} Descend(cmp: Compare, c: Ctx, t: Tree, node: Link)
    requires Ordering(cmp) && Sorted(cmp, Seq(Plug(c, t))) && t.Node? && Bounds(cmp, c, node)
    ensures cmp(node, t.n) == 1 ==> Bounds(cmp, Step(c, t.n, true, t.left), node)
    ensures cmp(node, t.n) == -1 ==> Bounds(cmp, Step(c, t.n, false, t.right), node)
  {
    PlugSeq(c, t);
    SortedParts(cmp, Before(c), Seq(t.left), t.n, Seq(t.right), After(c));
    assert Opposite(cmp, node, t.n);
    if cmp(node, t.n) == 1 {
      BelowTransitive(cmp, Seq(t.left), t.n, node);
    } else if cmp(node, t.n) == -1 {
      AboveTransitive(cmp, Seq(t.right), t.n, node);
    }
  }

  lemma {:induction false} SortedInsert(cmp: Compare, a: seq<Link>, node: Link, b: seq<Link>)
    requires Ordering(cmp) && Sorted(cmp, a + b) && AllBelow(cmp, a, node) && AllAbove(cmp, b, node)
    ensures Sorted(cmp, a + [node] + b)
    ensures forall x :: x in a + b ==> cmp(node, x) != 0
  {
    var s := a + [node] + b;
    forall i, j | 0 <= i < j < |s| ensures cmp(s[i], s[j]) < 0 {
      if i == |a| {
        assert s[j] == b[j - |a| - 1] && cmp(s[j], node) > 0 && Opposite(cmp, node, s[j]);
      } else if j != |a| {
        var i', j' := if i < |a| then i else i - 1, if j < |a| then j else j - 1;
        assert s[i] == (a + b)[i'] && s[j] == (a + b)[j'];
      }
    }
    forall x | x in a + b ensures cmp(node, x) != 0 {
      var k :| 0 <= k < |a + b| && (a + b)[k] == x;
      assert Opposite(cmp, x, node);
      assert if k < |a| then a[k] == x && cmp(a[k], node) < 0 else b[k - |a|] == x && cmp(b[k - |a|], node) > 0;
    }
  }

  /** `s'` is `s` with `node` inserted at `pos`. */
  ghost predicate InsertedAt(s: seq<Link>, s': seq<Link>, node: Link, pos: int) {
    0 <= pos <= |s| && s' == s[..pos] + [node] + s[pos..]
  }

  /** `ref` is next to position `pos` of `s`. */
  ghost predicate Beside(s: seq<Link>, ref: Link, pos: int) {
    || (0 < pos <= |s| && ref == s[pos - 1])
    || (0 <= pos < |s| && ref == s[pos])
  }

  /** An empty place below `c.n` is where a node within the bounds of the place belongs. */
  lemma {:induction false} PlaceInOrder(cmp: Compare, c: Ctx, node: Link)
    requires Ordering(cmp) && Sorted(cmp, Seq(Plug(c, Leaf))) && Bounds(cmp, c, node)
    ensures var s, s' := Seq(Plug(c, Leaf)), Before(c) + [node] + After(c);
            && Sorted(cmp, s') && (forall x :: x in s ==> cmp(node, x) != 0)
            && InsertedAt(s, s', node, |Before(c)|)
    ensures c.Step? ==> Beside(Seq(Plug(c, Leaf)), c.n, |Before(c)|)
  {
    PlugSeq(c, Leaf);
    assert Seq(Plug(c, Leaf)) == Before(c) + After(c);
    SortedInsert(cmp, Before(c), node, After(c));
  }

  /** `s'` is `s` without the node `x`, which is at position `i`. */
  ghost predicate RemovedAt(s: seq<Link>, s': seq<Link>, x: Link, i: int) {
    0 <= i < |s| && s[i] == x && s' == s[..i] + s[i + 1..]
  }

  /** Taking a node out of a sorted sequence leaves it sorted, without that node. */
  lemma {:induction false} RemovedSorted(cmp: Compare, s: seq<Link>, s': seq<Link>, x: Link, i: int)
    requires Ordering(cmp) && Sorted(cmp, s) && RemovedAt(s, s', x, i)
    ensures Sorted(cmp, s')
    ensures forall y :: y in s' <==> y in s && y != x
  {
    forall k, l | 0 <= k < l < |s'| ensures cmp(s'[k], s'[l]) < 0 {
      assert s'[k] == s[if k < i then k else k + 1] && s'[l] == s[if l < i then l else l + 1];
    }
    assert Opposite(cmp, x, x);
    RemovedNodes(s, s', x, i);
  }

  lemma {:induction false} RemovedNodes(s: seq<Link>, s': seq<Link>, x: Link, i: int)
    requires RemovedAt(s, s', x, i) && forall k :: 0 <= k < |s| && k != i ==> s[k] != x
    ensures forall y :: y in s' <==> y in s && y != x
  {
    forall y | y in s && y != x ensures y in s' {
      var k :| 0 <= k < |s| && s[k] == y;
      assert s'[if k < i then k else k - 1] == y;
    }
    forall y | y in s' ensures y in s && y != x {
      var k :| 0 <= k < |s'| && s'[k] == y;
      assert s[if k < i then k else k + 1] == y;
    }
  }

  lemma {:induction false} InsertedNodes(s: seq<Link>, s': seq<Link>, x: Link, i: int)
    requires InsertedAt(s, s', x, i)
    ensures forall y :: y in s' <==> y in s || y == x
  {
    assert s == s[..i] + s[i..];
  }
}
