/**
 CAvl_swap_for_remove exchanges the places of two nodes. The memory it leaves is the old
 memory with the two names exchanged, so it stores the old tree with the two names exchanged.
 */
module AvlSwap {
  import opened Basics
  import opened AvlTree

  function Swap(a: Link, b: Link, x: Link): Link {
    if x == a then b else if x == b then a else x
  }

  function Rename(t: Tree, a: Link, b: Link): Tree {
    match t
    case Leaf => Leaf
    case Node(l, n, r) => Node(Rename(l, a, b), Swap(a, b, n), Rename(r, a, b))
  }

  function RenameCtx(c: Ctx, a: Link, b: Link): Ctx {
    match c
    case Top => Top
    case Step(up, n, side, sib) => Step(RenameCtx(up, a, b), Swap(a, b, n), side, Rename(sib, a, b))
  }

  lemma {:induction false} RenamePlug(c: Ctx, t: Tree, a: Link, b: Link)
    ensures Rename(Plug(c, t), a, b) == Plug(RenameCtx(c, a, b), Rename(t, a, b))
  {
    match c
    case Top =>
    case Step(up, n, side, sib) => RenamePlug(up, Join(side, t, n, sib), a, b);
  }

  lemma {:induction false} RenameSize(t: Tree, a: Link, b: Link)
    ensures Height(Rename(t, a, b)) == Height(t) && |Seq(Rename(t, a, b))| == |Seq(t)|
    ensures a !in Elems(t) && b !in Elems(t) ==> Rename(t, a, b) == t
  {
    match t
    case Leaf =>
    case Node(l, n, r) =>
      RenameSize(l, a, b);
      RenameSize(r, a, b);
  }

  lemma {:induction false} RenameElems(t: Tree, a: Link, b: Link, x: Link)
    ensures x in Elems(t) <==> Swap(a, b, x) in Elems(Rename(t, a, b))
  {
    match t
    case Leaf =>
    case Node(l, n, r) =>
      RenameElems(l, a, b, x);
      RenameElems(r, a, b, x);
  }

  lemma {:induction false} RenameDistinct(t: Tree, a: Link, b: Link)
    requires Distinct(t)
    ensures Distinct(Rename(t, a, b))
  {
    match t
    case Leaf =>
    case Node(l, n, r) =>
      RenameDistinct(l, a, b);
      RenameDistinct(r, a, b);
      RenameElems(l, a, b, n);
      RenameElems(r, a, b, n);
      forall x | x in Elems(Rename(l, a, b)) ensures x !in Elems(Rename(r, a, b)) {
        assert Swap(a, b, Swap(a, b, x)) == x;
        RenameElems(l, a, b, Swap(a, b, x));
        RenameElems(r, a, b, Swap(a, b, x));
      }
  }

  // ---------------------------------------------------------------- links

  ghost predicate ParentSwapped(parent: Parents, parent': Parents, a: Link, b: Link, x: Link) {
    x in parent && Swap(a, b, x) in parent' && parent'[Swap(a, b, x)] == Swap(a, b, parent[x])
  }

  ghost predicate ChildSwapped(child: Children, child': Children, a: Link, b: Link, x: Link, side: bool) {
    (x, side) in child && (Swap(a, b, x), side) in child' && child'[(Swap(a, b, x), side)] == Swap(a, b, child[(x, side)])
  }

  /** The memory of the nodes `s` with the names `a` and `b` exchanged. */
  ghost predicate Swapped(child: Children, parent: Parents, child': Children, parent': Parents, a: Link, b: Link, s: set<Link>) {
    && (forall x :: x in s ==> ParentSwapped(parent, parent', a, b, x))
    && (forall x, side :: x in s ==> ChildSwapped(child, child', a, b, x, side))
  }

  lemma {:induction false} SwappedShape(child: Children, parent: Parents, child': Children, parent': Parents,
                                        a: Link, b: Link, t: Tree, p: Link, up: Link)
    requires Shape(child, parent, t, p, up) && a != NULL && b != NULL
    requires Swapped(child, parent, child', parent', a, b, Elems(t))
    ensures Shape(child', parent', Rename(t, a, b), Swap(a, b, p), Swap(a, b, up))
  {
    match t
    case Leaf =>
    case Node(l, n, r) =>
      assert ParentSwapped(parent, parent', a, b, n);
      assert ChildSwapped(child, child', a, b, n, false) && ChildSwapped(child, child', a, b, n, true);
      SwappedShape(child, parent, child', parent', a, b, l, child[(n, false)], n);
      SwappedShape(child, parent, child', parent', a, b, r, child[(n, true)], n);
  }

  /** A child of `x` is a node that knows its parent; the two children are different nodes. */
  ghost predicate ChildKnown(child: Children, parent: Parents, s: set<Link>, x: Link, side: bool) {
    && x != NULL && (x, side) in child && (x, !side) in child
    && (child[(x, side)] != NULL ==>
          && child[(x, side)] in s && child[(x, side)] in parent && parent[child[(x, side)]] == x
          && child[(x, side)] != child[(x, !side)])
  }

  /** The parent of a node other than the top one has it as a child. */
  ghost predicate ParentKnown(child: Children, parent: Parents, s: set<Link>, top: Link, x: Link) {
    && x in parent
    && (x != top ==>
          && parent[x] in s && (parent[x], false) in child && (parent[x], true) in child
          && (child[(parent[x], false)] == x || child[(parent[x], true)] == x))
  }

  /** Child and parent links of the nodes `s` agree with each other. */
  ghost predicate Consistent(child: Children, parent: Parents, s: set<Link>, top: Link) {
    && (forall x, side :: x in s ==> ChildKnown(child, parent, s, x, side))
    && (forall x :: x in s ==> ParentKnown(child, parent, s, top, x))
  }

  lemma {:induction false} ShapeConsistent(child: Children, parent: Parents, t: Tree, p: Link, up: Link)
    requires Shape(child, parent, t, p, up) && Distinct(t)
    ensures Consistent(child, parent, Elems(t), p)
    ensures t.Node? ==> p in Elems(t) && parent[p] == up
  {
    match t
    case Leaf =>
    case Node(l, n, r) =>
      var s, pl, pr := Elems(t), child[(n, false)], child[(n, true)];
      ShapeConsistent(child, parent, l, pl, n);
      ShapeConsistent(child, parent, r, pr, n);
      forall x, side | x in s ensures ChildKnown(child, parent, s, x, side) {
        if x in Elems(l) {
          assert ChildKnown(child, parent, Elems(l), x, side);
        } else if x in Elems(r) {
          assert ChildKnown(child, parent, Elems(r), x, side);
        }
      }
      forall x | x in s ensures ParentKnown(child, parent, s, p, x) {
        if x in Elems(l) {
          assert ParentKnown(child, parent, Elems(l), pl, x);
        } else if x in Elems(r) {
          assert ParentKnown(child, parent, Elems(r), pr, x);
        }
      }
  }

  // ---------------------------------------------------------------- the exchange itself

  /** A child link of `x` leads to a node that knows its parent; the two children differ. */
  ghost predicate Knows(child: Children, parent: Parents, x: Link) {
    && x != NULL && (x, false) in child && (x, true) in child
    && (child[(x, false)] != NULL ==> child[(x, false)] in parent && parent[child[(x, false)]] == x)
    && (child[(x, true)] != NULL ==> child[(x, true)] in parent && parent[child[(x, true)]] == x)
    && (child[(x, false)] != NULL ==> child[(x, false)] != child[(x, true)])
  }

  /** Two nodes, the second one below the first, and the links around them. */
  ghost predicate SwapSite(child: Children, parent: Parents, a: Link, b: Link) {
    && a != b && a in parent && b in parent && parent[a] != a && parent[a] != b && parent[b] != b && parent[b] != NULL
    && Knows(child, parent, a) && Knows(child, parent, b) && Knows(child, parent, parent[b])
    && (parent[a] != NULL ==> Knows(child, parent, parent[a]) && IsChild(child, a, parent[a]))
    && IsChild(child, b, parent[b])
  }

  ghost predicate IsChild(child: Children, x: Link, n: Link) {
    (n, false) in child && (n, true) in child && x != NULL && (x == child[(n, false)] || x == child[(n, true)])
  }

  /** Among the nodes, exactly the children of `n` change their parent, to `to`. */
  ghost predicate Adopted(child: Children, parent: Parents, parent': Parents, n: Link, to: Link) {
    forall x :: if IsChild(child, x, n) then x in parent' && parent'[x] == to else SameAt(parent, parent', x)
  }

  /** Where the child links are after `b`, a child of `a` on side `side`, has changed places with it. */
  ghost function AdjacentChild(child: Children, up: Link, a: Link, b: Link, side: bool): Children
    requires (a, !side) in child && (b, false) in child && (b, true) in child
    requires up != NULL ==> (up, true) in child
  {
    var child1 := child[(a, false) := child[(b, false)]][(a, true) := child[(b, true)]];
    var child2 := if up != NULL then child1[(up, a == child1[(up, true)]) := b] else child1;
    child2[(b, side) := a][(b, !side) := child[(a, !side)]]
  }

  /** Where the parent links are. */
  ghost predicate AdjacentParent(child: Children, parent: Parents, parent': Parents, a: Link, b: Link) {
    && a in parent && a in parent' && b in parent' && parent'[b] == parent[a] && parent'[a] == b
    && (forall x :: x != a && x != b ==>
          if IsChild(child, x, b) then x in parent' && parent'[x] == a
          else if IsChild(child, x, a) then x in parent' && parent'[x] == b
          else SameAt(parent, parent', x))
  }

  lemma {:induction false} AdjacentSwapped(child: Children, parent: Parents, root: Link, child': Children, parent': Parents,
                        s: set<Link>, a: Link, b: Link, side: bool)
    requires Consistent(child, parent, s, root) && NULL !in s && root in s && parent[root] == NULL
    requires SwapSite(child, parent, a, b) && parent[b] == a && child[(a, side)] == b
    requires child' == AdjacentChild(child, parent[a], a, b, side)
    requires AdjacentParent(child, parent, parent', a, b)
    ensures Swapped(child, parent, child', parent', a, b, s)
  {
    forall x | x in s ensures ParentSwapped(parent, parent', a, b, x) {
      assert ParentKnown(child, parent, s, root, x);
    }
    forall x, sd | x in s ensures ChildSwapped(child, child', a, b, x, sd) {
      assert ChildKnown(child, parent, s, x, sd);
    }
  }

  ghost function ApartParentsChild(child: Children, up: Link, bup: Link, a: Link, b: Link): Children
    requires up != NULL ==> (up, true) in child
    requires bup != NULL ==> (bup, true) in child
  {
    var child1 := if bup != NULL then child[(bup, b == child[(bup, true)]) := a] else child;
    if up != NULL then child1[(up, a == child1[(up, true)]) := b] else child1
  }

  /** The same for a node `b` that is below `a` but not a child of it. */
  ghost function ApartChild(child: Children, up: Link, bup: Link, a: Link, b: Link): Children
    requires up != NULL ==> (up, true) in child
    requires bup != NULL ==> (bup, true) in child
    requires (a, false) in child && (a, true) in child && (b, false) in child && (b, true) in child
  {
    ApartParentsChild(child, up, bup, a, b)
          [(a, false) := child[(b, false)]][(b, false) := child[(a, false)]]
          [(a, true) := child[(b, true)]][(b, true) := child[(a, true)]]
  }

  ghost predicate ApartParent(child: Children, parent: Parents, parent': Parents, a: Link, b: Link) {
    && a in parent && b in parent && a in parent' && b in parent' && parent'[b] == parent[a] && parent'[a] == parent[b]
    && (forall x :: x != a && x != b ==>
          if IsChild(child, x, b) then x in parent' && parent'[x] == a
          else if IsChild(child, x, a) then x in parent' && parent'[x] == b
          else SameAt(parent, parent', x))
  }

  lemma {:induction false} ApartSwapped(child: Children, parent: Parents, root: Link, child': Children, parent': Parents, s: set<Link>, a: Link, b: Link)
    requires Consistent(child, parent, s, root) && NULL !in s && root in s && parent[root] == NULL
    requires SwapSite(child, parent, a, b) && parent[b] != a && parent[b] != parent[a]
    requires child' == ApartChild(child, parent[a], parent[b], a, b)
    requires ApartParent(child, parent, parent', a, b)
    ensures Swapped(child, parent, child', parent', a, b, s)
  {
    forall x | x in s ensures ParentSwapped(parent, parent', a, b, x) {
      assert ParentKnown(child, parent, s, root, x);
    }
    forall x, sd | x in s ensures ChildSwapped(child, child', a, b, x, sd) {
      assert ChildKnown(child, parent, s, x, sd);
    }
  }
}
