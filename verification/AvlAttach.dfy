/** A new leaf is hung into an empty place of a stored tree. */
module AvlAttach {
  import opened Basics
  import opened AvlTree

  lemma {:induction false} LeafLinks(child: Children, parent: Parents, root: Link, c: Ctx, node: Link)
    requires c.Step? && Distinct(Plug(c, Leaf)) && Shape(child, parent, Plug(c, Leaf), root, NULL)
    requires node != NULL && node !in CtxElems(c)
    ensures Distinct(Plug(c, Node(Leaf, node, Leaf)))
    ensures Shape(child[(c.n, c.side) := node][(node, false) := NULL][(node, true) := NULL], parent[node := c.n],
                  Plug(c, Node(Leaf, node, Leaf)), root, NULL)
  {
    var child', parent' := child[(c.n, c.side) := node][(node, false) := NULL][(node, true) := NULL], parent[node := c.n];
    PlugElems(c, Leaf);
    PlugElems(c, Node(Leaf, node, Leaf));
    PlugShape(child, parent, root, c, Leaf);
    Relink(child, parent, child', parent', root, root, c, NULL, node);
    PlugShape(child', parent', root, c, Node(Leaf, node, Leaf));
  }

  lemma {:induction false} LeafFactors(balance: map<Link, int>, c: Ctx, node: Link)
    requires node !in CtxElems(c) && Balanced(balance, Plug(c, Leaf))
    ensures Balanced(balance[node := 0], Node(Leaf, node, Leaf))
    ensures Height(Node(Leaf, node, Leaf)) == 1 && CtxBalanced(balance[node := 0], c, 0)
  {
    PlugBalanced(balance, c, Leaf);
    CtxBalancedFrame(balance, balance[node := 0], c, 0);
  }
}
