/** Balance factors and heights under the transformations of CAvl_rebalance. */
module AvlBalance {
  import opened Basics
  import opened AvlTree
  import opened AvlRotation

  /** +1 for the right side, -1 for the left side. */
  function Sign(side: bool): int {
    if side then 1 else -1
  }

  /** CAvl_OPTNEG */
  function OptNeg(a: int, neg: bool): int {
    if neg then -a else a
  }

  /** All balance factors except those of `changed` are the same. */
  ghost predicate ChangedOnly(balance: map<Link, int>, balance': map<Link, int>, changed: set<Link>) {
    forall x :: x !in changed ==> SameAt(balance, balance', x)
  }

  predicate IsOff(factor: int) {
    factor == 2 || factor == -2
  }

  /** How much the height of a subtree changed when its child on `side` changed by `deltac`. */
  function Delta(factor: int, side: bool, deltac: int): int {
    Max(deltac, OptNeg(factor, side)) - Max(0, OptNeg(factor, side))
  }

  /**
   A child `t` of `n` changed its height by `deltac`: the code's formula is the change of the
   height of the subtree at `n`, and the updated factor is the difference of the new heights.
   When the new factor is wrong, a gained height was gained by the whole subtree and a lost
   one was not lost by it.
   */
  lemma {:induction false} HeightChange(balance: map<Link, int>, up: Ctx, n: Link, side: bool, t: Tree, sib: Tree, deltac: int)
    returns (h: int)
    requires CtxBalanced(balance, Step(up, n, side, sib), Height(t) - deltac) && -1 <= deltac <= 1
    ensures n in balance && Balanced(balance, sib)
    ensures balance[n] - OptNeg(deltac, side) == Lean(side, Height(t), Height(sib))
    ensures CtxBalanced(balance, up, h) && h == Height(Join(side, t, n, sib)) - Delta(balance[n], side, deltac)
    ensures -1 <= Delta(balance[n], side, deltac) <= 1 && -2 <= Lean(side, Height(t), Height(sib)) <= 2
    ensures IsOff(Lean(side, Height(t), Height(sib))) && deltac == 1 ==> Delta(balance[n], side, deltac) == 1
    ensures IsOff(Lean(side, Height(t), Height(sib))) && deltac == -1 ==> Delta(balance[n], side, deltac) == 0
  {
    h := 1 + Max(Height(t) - deltac, Height(sib));
    JoinBalanced(balance, side, t, n, sib);
    DeltaIsChange(balance[n], side, deltac, Height(t), Height(sib));
  }

  /** The arithmetic of a changed height `h` next to a height `hs`. */
  lemma {:induction false} DeltaIsChange(factor: int, side: bool, deltac: int, h: int, hs: int)
    requires factor == Lean(side, h - deltac, hs) && -1 <= factor <= 1 && -1 <= deltac <= 1
    ensures factor - OptNeg(deltac, side) == Lean(side, h, hs) && -2 <= Lean(side, h, hs) <= 2
    ensures 1 + Max(h - deltac, hs) == 1 + Max(h, hs) - Delta(factor, side, deltac)
    ensures -1 <= Delta(factor, side, deltac) <= 1
    ensures IsOff(Lean(side, h, hs)) && deltac == 1 ==> Delta(factor, side, deltac) == 1
    ensures IsOff(Lean(side, h, hs)) && deltac == -1 ==> Delta(factor, side, deltac) == 0
  {}

  /** The same after the new factor has been stored. */
  lemma {:induction false} FactorUpdated(balance: map<Link, int>, balance': map<Link, int>, up: Ctx, n: Link, side: bool,
                                         t: Tree, sib: Tree, deltac: int, delta: int)
    returns (h: int)
    requires CtxBalanced(balance, Step(up, n, side, sib), Height(t) - deltac) && -1 <= deltac <= 1
    requires Balanced(balance, t) && Distinct(Plug(up, Join(side, t, n, sib)))
    requires n in balance && balance' == balance[n := balance[n] - OptNeg(deltac, side)] && delta == Delta(balance[n], side, deltac)
    ensures Balanced(balance', t) && Balanced(balance', sib)
    ensures CtxBalanced(balance', up, h) && h == Height(Join(side, t, n, sib)) - delta
    ensures balance'[n] == Lean(side, Height(t), Height(sib)) && -2 <= balance'[n] <= 2
    ensures -1 <= delta <= 1 && (deltac != 0 && IsOff(balance'[n]) ==> 0 <= delta)
  {
    h := HeightChange(balance, up, n, side, t, sib, deltac);
    FactorKept(balance, balance', up, n, side, t, sib, h);
  }

  lemma {:induction false} FactorKept(balance: map<Link, int>, balance': map<Link, int>, up: Ctx, n: Link, side: bool,
                                      t: Tree, sib: Tree, h: int)
    requires Distinct(Plug(up, Join(side, t, n, sib))) && ChangedOnly(balance, balance', {n})
    requires CtxBalanced(balance, up, h) && Balanced(balance, t) && Balanced(balance, sib)
    ensures CtxBalanced(balance', up, h) && Balanced(balance', t) && Balanced(balance', sib)
  {
    JoinNodes(side, t, n, sib);
    AboveKept(balance, balance', up, h, {n}, Join(side, t, n, sib));
    BalancedFrame(balance, balance', t);
    BalancedFrame(balance, balance', sib);
  }

  /** A factor of 2 towards `bside` in terms of the heavier and the lighter subtree. */
  lemma {:induction false} HeavySide(balance: map<Link, int>, side: bool, t: Tree, n: Link, sib: Tree, bside: bool)
    returns (heavy: Tree, light: Tree)
    requires Balanced(balance, t) && Balanced(balance, sib) && Lean(side, Height(t), Height(sib)) == 2 * Sign(bside)
    ensures Balanced(balance, heavy) && Balanced(balance, light) && Height(heavy) == Height(light) + 2
    ensures Join(bside, heavy, n, light) == Join(side, t, n, sib)
    ensures Height(Join(side, t, n, sib)) == Height(light) + 3
  {
    heavy, light := if bside == side then t else sib, if bside == side then sib else t;
    JoinBalanced(balance, side, t, n, sib);
  }

  /** The child on the heavy side is a node, and a child that leans inward has a node inside. */
  lemma {:induction false} HeavyNodes(balance: map<Link, int>, bside: bool, heavy: Tree, light: Tree)
    requires Balanced(balance, heavy) && Height(heavy) == Height(light) + 2
    ensures heavy.Node? && heavy.n in balance && balance[heavy.n] * Sign(bside) in {-1, 0, 1}
    ensures balance[heavy.n] * Sign(bside) == -1 ==>
              var inner := if bside then heavy.left else heavy.right; inner.Node? && inner.n in balance
  {}

  /** One rotation repairs a subtree whose heavy child leans outward or not at all. */
  lemma {:induction false} SingleRotation(balance: map<Link, int>, balance': map<Link, int>, bside: bool,
                                          light: Tree, n: Link, inner: Tree, child: Link, far: Tree)
    requires Distinct(Unrotated(!bside, light, n, inner, child, far))
    requires Balanced(balance, light) && Balanced(balance, Join(!bside, inner, child, far))
    requires Height(Join(!bside, inner, child, far)) == Height(light) + 2
    requires child in balance && (balance[child] == Sign(bside) || balance[child] == 0)
    requires ChangedOnly(balance, balance', {n, child}) && n in balance' && child in balance'
    requires balance[child] == 0 ==> balance'[n] == Sign(bside) && balance'[child] == -Sign(bside)
    requires balance[child] != 0 ==> balance'[n] == 0 && balance'[child] == 0
    ensures Balanced(balance', Rotated(!bside, light, n, inner, child, far))
    ensures Height(Rotated(!bside, light, n, inner, child, far)) == Height(light) + (if balance[child] == 0 then 3 else 2)
  {
    JoinNodes(!bside, inner, child, far);
    JoinNodes(!bside, light, n, Join(!bside, inner, child, far));
    JoinBalanced(balance, !bside, inner, child, far);
    BalancedFrames(balance, balance', light, inner, far, far, {n, child});
    JoinBalanced(balance', !bside, light, n, inner);
    JoinBalanced(balance', !bside, Join(!bside, light, n, inner), child, far);
  }

  /** The heavy subtree of a double rotation, whose middle node is `gchild`. */
  function HeavyInward(bside: bool, ga: Tree, gchild: Link, gb: Tree, child: Link, far: Tree): Tree {
    Join(!bside, Join(!bside, ga, gchild, gb), child, far)
  }

  function DoublyRotated(bside: bool, light: Tree, n: Link, ga: Tree, gchild: Link, gb: Tree, child: Link, far: Tree): Tree {
    Rotated(!bside, light, n, ga, gchild, Join(bside, far, child, gb))
  }

  /** The factors after a double rotation. */
  function InwardFactors(balance: map<Link, int>, n: Link, sign: int, child: Link, gchild: Link): map<Link, int>
    requires gchild in balance
  {
    balance[n := -Max(0, balance[gchild] * sign) * sign][child := Max(0, -balance[gchild] * sign) * sign][gchild := 0]
  }

  /** Two rotations repair a subtree whose heavy child leans inward. */
  lemma {:induction false} DoubleRotation(balance: map<Link, int>, balance': map<Link, int>, bside: bool, light: Tree,
                                          n: Link, ga: Tree, gchild: Link, gb: Tree, child: Link, far: Tree)
    requires Distinct(Join(bside, HeavyInward(bside, ga, gchild, gb, child, far), n, light))
    requires Balanced(balance, light) && Balanced(balance, HeavyInward(bside, ga, gchild, gb, child, far))
    requires Height(HeavyInward(bside, ga, gchild, gb, child, far)) == Height(light) + 2
    requires child in balance && balance[child] == -Sign(bside) && gchild in balance
    requires ChangedOnly(balance, balance', {n, child, gchild}) && n in balance' && child in balance' && gchild in balance'
    requires balance'[n] == -Max(0, balance[gchild] * Sign(bside)) * Sign(bside)
    requires balance'[child] == Max(0, -balance[gchild] * Sign(bside)) * Sign(bside)
    requires balance'[gchild] == 0
    ensures Balanced(balance', DoublyRotated(bside, light, n, ga, gchild, gb, child, far))
    ensures Height(DoublyRotated(bside, light, n, ga, gchild, gb, child, far)) == Height(light) + 2
  {
    DoubleSides(balance, balance', bside, light, n, ga, gchild, gb, child, far);
    JoinBalanced(balance', !bside, Join(!bside, light, n, ga), gchild, Join(bside, far, child, gb));
  }

  lemma {:induction false} DoubleSides(balance: map<Link, int>, balance': map<Link, int>, bside: bool, light: Tree,
                                       n: Link, ga: Tree, gchild: Link, gb: Tree, child: Link, far: Tree)
    requires Distinct(Join(bside, HeavyInward(bside, ga, gchild, gb, child, far), n, light))
    requires Balanced(balance, light) && Balanced(balance, HeavyInward(bside, ga, gchild, gb, child, far))
    requires Height(HeavyInward(bside, ga, gchild, gb, child, far)) == Height(light) + 2
    requires child in balance && balance[child] == -Sign(bside) && gchild in balance
    requires ChangedOnly(balance, balance', {n, child, gchild}) && n in balance' && child in balance' && gchild in balance'
    requires balance'[n] == -Max(0, balance[gchild] * Sign(bside)) * Sign(bside)
    requires balance'[child] == Max(0, -balance[gchild] * Sign(bside)) * Sign(bside)
    requires balance'[gchild] == 0
    ensures Balanced(balance', Join(bside, far, child, gb)) && Height(Join(bside, far, child, gb)) == Height(light) + 1
    ensures Balanced(balance', Join(!bside, light, n, ga)) && Height(Join(!bside, light, n, ga)) == Height(light) + 1
  {
    var inner := Join(!bside, ga, gchild, gb);
    InwardNodes(bside, light, n, ga, gchild, gb, child, far);
    JoinBalanced(balance, !bside, inner, child, far);
    JoinBalanced(balance, !bside, ga, gchild, gb);
    BalancedFrames(balance, balance', light, ga, gb, far, {n, child, gchild});
    InwardHeights(bside, balance[gchild], Height(light), Height(ga), Height(gb), Height(far));
    JoinBalanced(balance', bside, far, child, gb);
    JoinBalanced(balance', !bside, light, n, ga);
  }

  lemma {:induction false} InwardNodes(bside: bool, light: Tree, n: Link, ga: Tree, gchild: Link, gb: Tree, child: Link, far: Tree)
    requires Distinct(Join(bside, HeavyInward(bside, ga, gchild, gb, child, far), n, light))
    ensures n != child && n != gchild && child != gchild
    ensures var moved := {n, child, gchild};
            moved !! Elems(light) && moved !! Elems(ga) && moved !! Elems(gb) && moved !! Elems(far)
  {
    JoinNodes(!bside, ga, gchild, gb);
    JoinNodes(!bside, Join(!bside, ga, gchild, gb), child, far);
    JoinNodes(bside, HeavyInward(bside, ga, gchild, gb, child, far), n, light);
  }

  lemma {:induction false} InwardApart(up: Ctx, bside: bool, light: Tree, n: Link, ga: Tree, gchild: Link, gb: Tree, child: Link, far: Tree)
    requires Distinct(Plug(up, Join(bside, HeavyInward(bside, ga, gchild, gb, child, far), n, light)))
    ensures n != child && n != gchild && child != gchild
  {
    PlugElems(up, Join(bside, HeavyInward(bside, ga, gchild, gb, child, far), n, light));
    InwardNodes(bside, light, n, ga, gchild, gb, child, far);
  }

  /** The arithmetic of a double rotation over the four subtree heights. */
  lemma {:induction false} InwardHeights(bside: bool, b: int, light: int, ga: int, gb: int, far: int)
    requires b == Lean(!bside, ga, gb) && -1 <= b <= 1
    requires 1 + Max(ga, gb) == far + 1 && far == light
    ensures Lean(!bside, light, ga) == -Max(0, b * Sign(bside)) * Sign(bside)
    ensures Lean(bside, far, gb) == Max(0, -b * Sign(bside)) * Sign(bside)
    ensures Max(light, ga) == Max(far, gb) == light
  {}

  lemma {:induction false} BalancedFrames(balance: map<Link, int>, balance': map<Link, int>, t: Tree, u: Tree, v: Tree, w: Tree, changed: set<Link>)
    requires ChangedOnly(balance, balance', changed)
    requires changed !! Elems(t) && changed !! Elems(u) && changed !! Elems(v) && changed !! Elems(w)
    requires Balanced(balance, t) && Balanced(balance, u) && Balanced(balance, v) && Balanced(balance, w)
    ensures Balanced(balance', t) && Balanced(balance', u) && Balanced(balance', v) && Balanced(balance', w)
  {
    BalancedFrame(balance, balance', t);
    BalancedFrame(balance, balance', u);
    BalancedFrame(balance, balance', v);
    BalancedFrame(balance, balance', w);
  }

  /** Factors changed inside a subtree leave the factors above it right. */
  lemma {:induction false} AboveKept(balance: map<Link, int>, balance': map<Link, int>, up: Ctx, h: int, changed: set<Link>, t: Tree)
    requires Distinct(Plug(up, t)) && changed <= Elems(t)
    requires CtxBalanced(balance, up, h) && ChangedOnly(balance, balance', changed)
    ensures Distinct(t) && CtxBalanced(balance', up, h)
  {
    PlugElems(up, t);
    CtxBalancedFrame(balance, balance', up, h);
  }

  lemma {:induction false} OutwardRestored(balance: map<Link, int>, balance': map<Link, int>, up: Ctx, h: int, bside: bool,
                                           light: Tree, n: Link, inner: Tree, child: Link, far: Tree)
    requires Distinct(Plug(up, Unrotated(!bside, light, n, inner, child, far)))
    requires CtxBalanced(balance, up, h)
    requires Balanced(balance, light) && Balanced(balance, Join(!bside, inner, child, far))
    requires Height(Join(!bside, inner, child, far)) == Height(light) + 2
    requires child in balance && (balance[child] == Sign(bside) || balance[child] == 0)
    requires balance' == if balance[child] == 0 then balance[n := Sign(bside)][child := -Sign(bside)] else balance[n := 0][child := 0]
    ensures Balanced(balance', Rotated(!bside, light, n, inner, child, far)) && CtxBalanced(balance', up, h)
    ensures Height(Rotated(!bside, light, n, inner, child, far)) == Height(light) + (if balance[child] == 0 then 3 else 2)
  {
    JoinNodes(!bside, inner, child, far);
    JoinNodes(!bside, light, n, Join(!bside, inner, child, far));
    AboveKept(balance, balance', up, h, {n, child}, Unrotated(!bside, light, n, inner, child, far));
    SingleRotation(balance, balance', bside, light, n, inner, child, far);
  }

  lemma {:induction false} InwardRestored(balance: map<Link, int>, balance': map<Link, int>, up: Ctx, h: int, bside: bool,
                                          light: Tree, n: Link, ga: Tree, gchild: Link, gb: Tree, child: Link, far: Tree)
    requires Distinct(Plug(up, Join(bside, HeavyInward(bside, ga, gchild, gb, child, far), n, light)))
    requires CtxBalanced(balance, up, h)
    requires Balanced(balance, light) && Balanced(balance, HeavyInward(bside, ga, gchild, gb, child, far))
    requires Height(HeavyInward(bside, ga, gchild, gb, child, far)) == Height(light) + 2
    requires child in balance && balance[child] == -Sign(bside) && gchild in balance
    requires balance' == InwardFactors(balance, n, Sign(bside), child, gchild)
    ensures Balanced(balance', DoublyRotated(bside, light, n, ga, gchild, gb, child, far)) && CtxBalanced(balance', up, h)
    ensures Height(DoublyRotated(bside, light, n, ga, gchild, gb, child, far)) == Height(light) + 2
  {
    var t := Join(bside, HeavyInward(bside, ga, gchild, gb, child, far), n, light);
    JoinNodes(!bside, ga, gchild, gb);
    JoinNodes(!bside, Join(!bside, ga, gchild, gb), child, far);
    JoinNodes(bside, HeavyInward(bside, ga, gchild, gb, child, far), n, light);
    AboveKept(balance, balance', up, h, {n, child, gchild}, t);
    DoubleRotation(balance, balance', bside, light, n, ga, gchild, gb, child, far);
  }

  // ---------------------------------------------------------------- depth

  function Fib(k: nat): (f: nat) {
    if k < 2 then k else Fib(k - 1) + Fib(k - 2)
  }

  lemma {:induction false} FibUnder(h: int, l: nat, r: nat)
    requires h == 1 + Max(l, r) && -1 <= r - l <= 1
    ensures Fib(h + 2) <= Fib(l + 2) + Fib(r + 2)
  {
    assert Fib(h + 2) == Fib(h + 1) + Fib(h) && Fib(h + 1) == Fib(h) + Fib(h - 1);
  }

  /** A balanced tree has at least as many nodes as the Fibonacci tree of its height. */
  lemma {:induction false} DepthBound(balance: map<Link, int>, t: Tree)
    requires Balanced(balance, t)
    ensures Height(t) >= 0 && Fib(Height(t) + 2) <= |Seq(t)| + 1
  {
    if t.Node? {
      DepthBound(balance, t.left);
      DepthBound(balance, t.right);
      FibUnder(Height(t), Height(t.left), Height(t.right));
    }
  }
}
