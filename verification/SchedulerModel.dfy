/**
 The state of the country-pair scheduler of wrapper/wrapper.py and wrapper/wrapper_delta.py,
 what one step of its loops does to it, and what every step keeps.
 */
module SchedulerModel {

  type Host = string

  /** How controller.experiment ends: success or one of its exceptions. */
  datatype Outcome = Ok | Host1Failed | Host2Failed | SmallError | FatalError

  // the values of the matrix
  const NO_HOST := 0
  const UNUSED := 1
  const REPEAT := 2
  const DONE := 3
  const SMALL := 4
  const SKIP := 5

  /** The status of every ordered pair of countries. */
  type Matrix = map<(int, int), int>

  ghost predicate Square(m: Matrix, n: int) {
    forall a, b :: (a, b) in m <==> 0 <= a < n && 0 <= b < n
  }

  ghost predicate Symmetric(m: Matrix) {
    forall a, b :: (a, b) in m ==> (b, a) in m && m[(b, a)] == m[(a, b)] && NO_HOST <= m[(a, b)] <= SKIP
  }

  // ---------------------------------------------------------------- what the loops do to the matrix

  function SetPair(m: Matrix, a: int, b: int, v: int): Matrix {
    m[(a, b) := v][(b, a) := v]
  }

  /** All pairs of country `x` with the value `from` get the value `to`. */
  function Turned(m: Matrix, x: int, from: int, to: int): Matrix {
    map p | p in m :: if (p.0 == x || p.1 == x) && m[p] == from then to else m[p]
  }

  // ---------------------------------------------------------------- state

  /** The state of the scheduling loop between two visits of a pair. */
  datatype State = State(hosts: seq<seq<Host>>, matrix: Matrix, measured: map<(int, int), (Host, Host)>) {
    predicate Exhausted(a: int)
      requires 0 <= a < |hosts|
    {
      hosts[a] == []
    }
  }

  /** Each pair that counts as done was measured with the hosts that are now first in both lists. */
  ghost predicate SingleHost(s: State) {
    forall a, b :: (a, b) in s.matrix && s.matrix[(a, b)] == DONE ==>
      && 0 <= a < |s.hosts| && 0 <= b < |s.hosts| && s.hosts[a] != [] && s.hosts[b] != []
      && (a, b) in s.measured && s.measured[(a, b)] == (s.hosts[a][0], s.hosts[b][0])
  }

  /** A pair is marked as impossible only when one of its countries has no host left. */
  ghost predicate ImpossibleMeansExhausted(s: State) {
    forall a, b :: (a, b) in s.matrix && s.matrix[(a, b)] == NO_HOST && 0 <= a < |s.hosts| && 0 <= b < |s.hosts| ==>
      s.Exhausted(a) || s.Exhausted(b)
  }

  ghost predicate Inv(s: State) {
    && Square(s.matrix, |s.hosts|) && Symmetric(s.matrix) && SingleHost(s) && ImpossibleMeansExhausted(s)
  }

  /** A pair needs no more work: it is measured, given up, or one of its countries has no host left. */
  ghost predicate Settled(s: State, a: int, b: int) {
    && 0 <= a < |s.hosts| && 0 <= b < |s.hosts| && (a, b) in s.matrix && s.matrix[(a, b)] != UNUSED
    && (s.matrix[(a, b)] == NO_HOST || s.matrix[(a, b)] == REPEAT ==> s.Exhausted(a) || s.Exhausted(b))
  }

  /**
   What holds of a pair whose row was visited. The countries in `slips` lost their host in an
   experiment with themselves: the loop went on without visiting their row again.
   */
  ghost predicate Visited(s: State, slips: set<int>, a: int, b: int) {
    && 0 <= a < |s.hosts| && 0 <= b < |s.hosts| && (a, b) in s.matrix
    && (a == b || s.matrix[(a, b)] != UNUSED)
    && (a in slips || b in slips || Settled(s, a, b))
  }

  /** All pairs of countries before `i` were visited. */
  ghost predicate VisitedBefore(s: State, slips: set<int>, i: int) {
    forall a, b :: 0 <= a < i && 0 <= b < i ==> Visited(s, slips, a, b)
  }

  /** The pairs of country `i` with the countries before `j` were visited. */
  ghost predicate RowVisited(s: State, slips: set<int>, i: int, j: int) {
    forall b :: 0 <= b < j ==> Visited(s, slips, i, b) && Visited(s, slips, b, i)
  }

  /** The pair of a country in `slips` with itself waits as long as the country has a host. */
  ghost predicate SlipsOpen(s: State, slips: set<int>, i: int) {
    forall a :: a in slips ==> 0 <= a < i && a < |s.hosts| && (s.Exhausted(a) || CanMeasure(s, a, a))
  }

  /** Where the outer loop stands: the countries before `i` are visited. */
  ghost predicate Standing(s: State, slips: set<int>, i: int) {
    VisitedBefore(s, slips, i) && SlipsOpen(s, slips, i)
  }

  /** The pairs that were visited still are, except perhaps those of country `x`. */
  ghost predicate StillVisited(s: State, s': State, slips: set<int>, x: int) {
    forall a, b :: Visited(s, slips, a, b) && a != x && b != x ==> Visited(s', slips, a, b)
  }

  ghost predicate Complete(s: State) {
    forall a, b :: 0 <= a < |s.hosts| && 0 <= b < |s.hosts| ==> Settled(s, a, b)
  }

  /** Entries that are final keep their value. */
  ghost predicate FinalKept(m: Matrix, m': Matrix) {
    forall a, b :: (a, b) in m && (m[(a, b)] == SMALL || m[(a, b)] == SKIP) ==> (a, b) in m' && m'[(a, b)] == m[(a, b)]
  }

  // ---------------------------------------------------------------- the steps of the loop

  function Measured(s: State, i: int, j: int): State
    requires 0 <= i < |s.hosts| && 0 <= j < |s.hosts| && s.hosts[i] != [] && s.hosts[j] != []
  {
    var h, g := s.hosts[i][0], s.hosts[j][0];
    s.(matrix := SetPair(s.matrix, i, j, DONE), measured := s.measured[(i, j) := (h, g)][(j, i) := (g, h)])
  }

  function GivenUp(s: State, i: int, j: int): State {
    s.(matrix := SetPair(s.matrix, i, j, SMALL))
  }

  function Popped(s: State, x: int): State
    requires 0 <= x < |s.hosts| && s.hosts[x] != []
  {
    s.(hosts := s.hosts[x := s.hosts[x][1..]], matrix := Turned(s.matrix, x, DONE, REPEAT))
  }

  function WithoutHosts(s: State, x: int): State {
    s.(matrix := Turned(s.matrix, x, UNUSED, NO_HOST))
  }

  ghost predicate CanMeasure(s: State, i: int, j: int) {
    && 0 <= i < |s.hosts| && 0 <= j < |s.hosts| && s.hosts[i] != [] && s.hosts[j] != []
    && (i, j) in s.matrix && (s.matrix[(i, j)] == UNUSED || s.matrix[(i, j)] == REPEAT)
  }

  lemma {:induction false} MeasuredKeeps(s: State, i: int, j: int)
    requires Inv(s) && CanMeasure(s, i, j)
    ensures Inv(Measured(s, i, j)) && FinalKept(s.matrix, Measured(s, i, j).matrix)
  {
    var s' := Measured(s, i, j);
    assert SingleHost(s');
  }

  lemma {:induction false} GivenUpKeeps(s: State, i: int, j: int)
    requires Inv(s) && CanMeasure(s, i, j)
    ensures Inv(GivenUp(s, i, j)) && FinalKept(s.matrix, GivenUp(s, i, j).matrix)
  {}

  /** Setting a pair to done or given up settles it and undoes no visit. */
  lemma {:induction false} PairSettled(s: State, slips: set<int>, i: int, j: int, v: int, s': State)
    requires Inv(s) && 0 <= i < |s.hosts| && 0 <= j < |s.hosts| && (v == DONE || v == SMALL)
    requires s'.hosts == s.hosts && s'.matrix == SetPair(s.matrix, i, j, v)
    ensures Visited(s', slips, i, j) && Visited(s', slips, j, i) && StillVisited(s, s', slips, -1)
    ensures SlipsOpen(s, slips, i) ==> SlipsOpen(s', slips, i)
  {}

  /** Losing a host undoes visits only of the country's own pairs. */
  lemma {:induction false} PoppedVisits(s: State, slips: set<int>, x: int)
    requires Inv(s) && 0 <= x < |s.hosts| && s.hosts[x] != []
    ensures StillVisited(s, Popped(s, x), slips, x)
    ensures forall k :: k <= x && SlipsOpen(s, slips, k) ==> SlipsOpen(Popped(s, x), slips, k)
  {}

  lemma {:induction false} PoppedKeeps(s: State, x: int)
    requires Inv(s) && 0 <= x < |s.hosts| && s.hosts[x] != []
    ensures Inv(Popped(s, x)) && FinalKept(s.matrix, Popped(s, x).matrix)
  {}

  lemma {:induction false} WithoutHostsKeeps(s: State, x: int)
    requires Inv(s) && 0 <= x < |s.hosts| && s.hosts[x] == []
    ensures Inv(WithoutHosts(s, x)) && FinalKept(s.matrix, WithoutHosts(s, x).matrix)
  {}

  /** Once a country without hosts is taken out, its pairs are settled. */
  lemma {:induction false} WithoutHostsVisits(s: State, slips: set<int>, x: int)
    requires Inv(s) && 0 <= x < |s.hosts| && s.hosts[x] == []
    ensures StillVisited(s, WithoutHosts(s, x), slips, -1)
    ensures RowVisited(WithoutHosts(s, x), slips, x, |s.hosts|)
    ensures forall k :: SlipsOpen(s, slips, k) ==> SlipsOpen(WithoutHosts(s, x), slips, k)
  {}

  // ---------------------------------------------------------------- how long a run can be

  function HostsLeft(hosts: seq<seq<Host>>): nat {
    if hosts == [] then 0 else |hosts[0]| + HostsLeft(hosts[1..])
  }

  lemma {:induction false} HostPopped(hosts: seq<seq<Host>>, x: int)
    requires 0 <= x < |hosts| && hosts[x] != []
    ensures HostsLeft(hosts[x := hosts[x][1..]]) == HostsLeft(hosts) - 1
  {
    var hosts' := hosts[x := hosts[x][1..]];
    if x == 0 {
      assert hosts'[1..] == hosts[1..];
    } else {
      HostPopped(hosts[1..], x - 1);
      assert hosts'[1..] == hosts[1..][x - 1 := hosts[1..][x - 1][1..]];
    }
  }

  /** The unordered pairs that can still be measured. */
  function Open(m: Matrix): set<(int, int)> {
    set p | p in m && p.0 <= p.1 && (m[p] == UNUSED || m[p] == REPEAT)
  }

  /** An upper bound for the experiments still to come. */
  function Budget(s: State): int {
    |Open(s.matrix)| + (|s.hosts| + 1) * HostsLeft(s.hosts)
  }

  lemma SubsetSize<T>(a: set<T>, b: set<T>)
    requires a <= b
    ensures |a| <= |b|
  {
    assert b == a + (b - a);
  }

  /** The unordered pairs of `x` with the countries before `n`. */
  ghost function PairsOf(x: int, n: nat): set<(int, int)> {
    set k | 0 <= k < n :: if x <= k then (x, k) else (k, x)
  }

  lemma {:induction false} PairsOfSize(x: int, n: nat)
    ensures |PairsOf(x, n)| <= n
  {
    if n > 0 {
      PairsOfSize(x, n - 1);
      var last := if x <= n - 1 then (x, n - 1) else (n - 1, x);
      assert PairsOf(x, n) == PairsOf(x, n - 1) + {last};
    }
  }

  lemma {:induction false} OpenAfterPair(m: Matrix, n: nat, i: int, j: int, v: int)
    requires Square(m, n) && Symmetric(m) && (i, j) in m && (m[(i, j)] == UNUSED || m[(i, j)] == REPEAT)
    requires v == DONE || v == SMALL
    ensures |Open(SetPair(m, i, j, v))| <= |Open(m)| - 1
  {
    var m' := SetPair(m, i, j, v);
    var p := if i <= j then (i, j) else (j, i);
    assert p in Open(m) && p !in Open(m');
    SubsetSize(Open(m'), Open(m) - {p});
  }

  /** Every completed experiment uses up budget, a failed host too. */
  lemma {:induction false} PairBudget(s: State, i: int, j: int, v: int, s': State)
    requires Inv(s) && CanMeasure(s, i, j) && (v == DONE || v == SMALL)
    requires s'.hosts == s.hosts && s'.matrix == SetPair(s.matrix, i, j, v)
    ensures Budget(s') <= Budget(s) - 1
  {
    OpenAfterPair(s.matrix, |s.hosts|, i, j, v);
  }

  lemma {:induction false} OpenAfterPop(m: Matrix, n: nat, x: int)
    requires Square(m, n)
    ensures |Open(Turned(m, x, DONE, REPEAT))| <= |Open(m)| + n
  {
    var m' := Turned(m, x, DONE, REPEAT);
    forall p | p in Open(m') ensures p in Open(m) + PairsOf(x, n) {
      if p !in Open(m) {
        assert m[p] == DONE && (p.0 == x || p.1 == x) && p == (p.0, p.1);
        var k := if p.0 == x then p.1 else p.0;
        assert 0 <= k < n && p == if x <= k then (x, k) else (k, x);
      }
    }
    PairsOfSize(x, n);
    SubsetSize(Open(m'), Open(m) + PairsOf(x, n));
  }

  lemma {:induction false} PoppedBudget(s: State, x: int)
    requires Inv(s) && 0 <= x < |s.hosts| && s.hosts[x] != []
    ensures Budget(Popped(s, x)) <= Budget(s) - 1 && HostsLeft(Popped(s, x).hosts) == HostsLeft(s.hosts) - 1
  {
    HostPopped(s.hosts, x);
    OpenAfterPop(s.matrix, |s.hosts|, x);
    OneLess(|s.hosts| + 1, HostsLeft(s.hosts));
  }

  lemma OneLess(c: int, h: int)
    ensures c * (h - 1) == c * h - c
  {}

  lemma {:induction false} WithoutHostsBudget(s: State, x: int)
    requires Inv(s)
    ensures Budget(WithoutHosts(s, x)) <= Budget(s)
  {
    SubsetSize(Open(WithoutHosts(s, x).matrix), Open(s.matrix));
  }

  // ---------------------------------------------------------------- progress

  /** One step of a run relative to its start: what is kept and what the experiments have cost. */
  ghost predicate Progress(s0: State, s: State, cost: int) {
    && Inv(s) && |s.hosts| == |s0.hosts| && FinalKept(s0.matrix, s.matrix)
    && 0 <= cost <= Budget(s0) - Budget(s)
  }

  /** An experiment that ends with a result for the pair. */
  lemma {:induction false} PairStep(s0: State, s: State, slips: set<int>, cost: int, i: int, j: int, s': State)
    requires Progress(s0, s, cost) && CanMeasure(s, i, j) && (s' == Measured(s, i, j) || s' == GivenUp(s, i, j))
    requires Standing(s, slips, i) && RowVisited(s, slips, i, j)
    ensures Progress(s0, s', cost + 1) && Standing(s', slips, i) && RowVisited(s', slips, i, j + 1)
  {
    if s' == Measured(s, i, j) {
      MeasuredKeeps(s, i, j);
      PairSettled(s, slips, i, j, DONE, s');
      PairBudget(s, i, j, DONE, s');
    } else {
      GivenUpKeeps(s, i, j);
      PairSettled(s, slips, i, j, SMALL, s');
      PairBudget(s, i, j, SMALL, s');
    }
  }

  ghost function Below(slips: set<int>, k: int): set<int> {
    set x | x in slips && x < k
  }

  /** An experiment that costs country `x` its host; the loop goes back to it or an earlier one. */
  lemma {:induction false} PopStep(s0: State, s: State, slips: set<int>, cost: int, i: int, x: int)
    requires Progress(s0, s, cost) && 0 <= x < |s.hosts| && s.hosts[x] != [] && Standing(s, slips, i)
    ensures Progress(s0, Popped(s, x), cost + 1)
    ensures x <= i ==> Standing(Popped(s, x), Below(slips, x), x)
    ensures HostsLeft(Popped(s, x).hosts) == HostsLeft(s.hosts) - 1
  {
    PoppedKeeps(s, x);
    PoppedBudget(s, x);
    if x <= i {
      StandingBelow(s, slips, i, x);
      PoppedVisits(s, Below(slips, x), x);
    }
  }

  lemma {:induction false} StandingBelow(s: State, slips: set<int>, i: int, k: int)
    requires Standing(s, slips, i) && k <= i
    ensures Standing(s, Below(slips, k), k)
  {
    forall a, b | 0 <= a < k && 0 <= b < k ensures Visited(s, Below(slips, k), a, b) {
      assert Visited(s, slips, a, b);
    }
  }

  /** A host of a later country fails: the row of `i` was visited far enough. */
  lemma {:induction false} LaterHostPopped(s: State, slips: set<int>, i: int, j: int)
    requires Inv(s) && 0 <= i < j < |s.hosts| && s.hosts[j] != []
    requires Standing(s, slips, i) && RowVisited(s, slips, i, j)
    ensures Standing(Popped(s, j), slips, i + 1)
  {
    PoppedVisits(s, slips, j);
  }

  /** A country fails as the second host of an experiment with itself: the loop slips past it. */
  lemma {:induction false} OwnHostPopped(s: State, slips: set<int>, i: int)
    requires Inv(s) && CanMeasure(s, i, i)
    requires Standing(s, slips, i) && RowVisited(s, slips, i, i)
    ensures Standing(Popped(s, i), slips + {i}, i + 1)
  {
    PoppedVisits(s, slips, i);
    var s' := Popped(s, i);
    forall a, b | 0 <= a <= i && 0 <= b <= i ensures Visited(s', slips + {i}, a, b) {
      if a < i && b < i {
        assert Visited(s, slips, a, b);
        assert Visited(s', slips, a, b);
      } else if a < i {
        assert Visited(s, slips, a, i);
      } else if b < i {
        assert Visited(s, slips, i, b);
      }
    }
  }

  /** A country without hosts is taken out; all its pairs are settled. */
  lemma {:induction false} CloseStep(s0: State, s: State, slips: set<int>, cost: int, x: int, k: int)
    requires Progress(s0, s, cost) && 0 <= x < |s.hosts| && s.hosts[x] == [] && Standing(s, slips, k)
    ensures Progress(s0, WithoutHosts(s, x), cost) && Standing(WithoutHosts(s, x), slips, k)
    ensures StillVisited(s, WithoutHosts(s, x), slips, -1) && RowVisited(WithoutHosts(s, x), slips, x, |s.hosts|)
  {
    WithoutHostsKeeps(s, x);
    WithoutHostsVisits(s, slips, x);
    WithoutHostsBudget(s, x);
  }

  /** Once all pairs of `i` are visited, one more country is. */
  lemma {:induction false} RowBecomesBlock(s: State, slips: set<int>, i: int)
    requires 0 <= i < |s.hosts| && Standing(s, slips, i) && RowVisited(s, slips, i, |s.hosts|)
    ensures Standing(s, slips, i + 1)
  {}

  /** There are at most n(n+1)/2 unordered pairs. */
  lemma {:induction false} OpenBound(m: Matrix, n: nat)
    requires Square(m, n)
    ensures |Open(m)| <= n * (n + 1) / 2
  {
    TriangleSize(n);
    SubsetSize(Open(m), Triangle(n));
  }

  ghost function Triangle(n: nat): set<(int, int)> {
    set a, b | 0 <= a <= b < n :: (a, b)
  }

  lemma {:induction false} TriangleSize(n: nat)
    ensures |Triangle(n)| <= n * (n + 1) / 2
  {
    if n > 0 {
      TriangleSize(n - 1);
      PairsOfSize(n - 1, n);
      forall p | p in Triangle(n) ensures p in Triangle(n - 1) + PairsOf(n - 1, n) {
        if p.1 == n - 1 {
          assert p == if n - 1 <= p.0 then (n - 1, p.0) else (p.0, n - 1);
        }
      }
      SubsetSize(Triangle(n), Triangle(n - 1) + PairsOf(n - 1, n));
      assert n * (n + 1) == (n - 1) * n + 2 * n;
    }
  }

  lemma BudgetLeft(s: State)
    ensures Budget(s) >= 0
  {
    Products(|s.hosts| + 1, HostsLeft(s.hosts));
  }

  lemma Products(x: nat, y: nat)
    ensures 0 <= x * y
  {}
}
