/**
 The loops of wrapper/wrapper.py and wrapper/wrapper_delta.py, which are the same over
 different initial matrices. The outcome of an experiment is decided outside: a run is
 determined by the sequence of outcomes it is given.
 */
module Scheduler {
  import opened SchedulerModel
  import opened SchedulerTrace
  import opened SchedulerMarks

  // ---------------------------------------------------------------- where the loops stand

  /** The variables of the loops after the run `t`. */
  ghost predicate Ran(s0: State, t: seq<Event>, oracle: nat -> Outcome, s: State, experiments: int, slipped: bool) {
    Greedy(s0, t, oracle) && Reaches(s0, t, s, experiments) && (slipped <==> HasSlip(t))
  }

  /** The trace leads to `s` in so many experiments. */
  ghost predicate Reaches(s0: State, t: seq<Event>, s: State, experiments: int) {
    forall u {:trigger Replay(s0, u)} :: u == t ==> s == Replay(s0, u) && experiments == Tries(u)
  }

  /** The loops are at the place (i, j), with nothing to do since the last event. */
  ghost predicate Running(s0: State, t: seq<Event>, oracle: nat -> Outcome, s: State, experiments: int, slipped: bool, i: int, j: int) {
    && Ran(s0, t, oracle, s, experiments, slipped) && !Stopped(t)
    && !Before((i, j), Resume(t)) && AllQuiet(s, Resume(t), (i, j))
  }

  lemma {:induction false} StaysSound(s0: State, t: seq<Event>, oracle: nat -> Outcome, s: State, experiments: int, slipped: bool)
    requires Inv(s0) && Ran(s0, t, oracle, s, experiments, slipped)
    ensures Inv(s) && |s.hosts| == |s0.hosts|
  {
    RunKeeps(s0, t, oracle);
  }

  /** An event at the place where the loops are. */
  lemma {:induction false} Happens(s0: State, t: seq<Event>, oracle: nat -> Outcome, s: State, experiments: nat, slipped: bool, e: Event)
    returns (t': seq<Event>)
    requires Running(s0, t, oracle, s, experiments, slipped, PlaceOf(e).0, PlaceOf(e).1) && Allowed(s, e)
    requires e.Tried? ==> e.outcome == oracle(experiments)
    ensures Ran(s0, t', oracle, Apply(s, e), experiments + (if e.Tried? then 1 else 0), slipped || IsOwnSlip(e))
    ensures Stopped(t') <==> e.Tried? && e.outcome == FatalError
    ensures !Stopped(t') ==>
              Running(s0, t', oracle, Apply(s, e), experiments + (if e.Tried? then 1 else 0), slipped || IsOwnSlip(e),
                      Following(e).0, Following(e).1)
  {
    assert PlaceOf(e) == (PlaceOf(e).0, PlaceOf(e).1);
    t' := t + [e];
    Snoc(s0, t, oracle, e);
    HasSlipSnoc(t, e);
    assert ToDo(Apply(s, e), Following(e), (Following(e).0, Following(e).1)) == {};
  }

  lemma {:induction false} PassPair(s0: State, t: seq<Event>, oracle: nat -> Outcome, s: State, experiments: int, slipped: bool, i: int, j: int)
    requires Running(s0, t, oracle, s, experiments, slipped, i, j) && Quiet(s, i, j)
    ensures Running(s0, t, oracle, s, experiments, slipped, i, j + 1)
  {
    assert ToDo(s, Resume(t), (i, j + 1)) <= ToDo(s, Resume(t), (i, j));
    assert ToDo(s, Resume(t), (i, j + 1)) == {};
  }

  lemma {:induction false} PassRow(s0: State, t: seq<Event>, oracle: nat -> Outcome, s: State, experiments: int, slipped: bool, i: int)
    requires Running(s0, t, oracle, s, experiments, slipped, i, |s.hosts|)
    ensures Running(s0, t, oracle, s, experiments, slipped, i + 1, 0)
  {
    assert ToDo(s, Resume(t), (i + 1, 0)) <= ToDo(s, Resume(t), (i, |s.hosts|));
    assert ToDo(s, Resume(t), (i + 1, 0)) == {};
  }

  // ---------------------------------------------------------------- the loops

  /** The loops over `k` that turn the pairs of one country from one value to another. */
  method TurnPairs(m: Matrix, n: nat, x: int, from: int, to: int) returns (m': Matrix)
    requires Square(m, n) && 0 <= x < n && from != to
    ensures m' == Turned(m, x, from, to)
  {
    m' := m;
    var k := 0;
    while k < n
      invariant 0 <= k <= n && m'.Keys == m.Keys
      invariant forall a, b :: (a, b) in m ==>
                  m'[(a, b)] == if m[(a, b)] == from && ((a == x && b < k) || (b == x && a < k)) then to else m[(a, b)]
    {
      if m'[(k, x)] == from {
        m' := m'[(k, x) := to];
      }
      if m'[(x, k)] == from {
        m' := m'[(x, k) := to];
      }
      k := k + 1;
    }
    forall p | p in m ensures m'[p] == Turned(m, x, from, to)[p] {
      var a, b := p.0, p.1;
      assert p == (a, b) && (a, b) in m && 0 <= a < n && 0 <= b < n;
    }
  }

  /** The host at the head of a country's list is dropped and its pairs must be measured again. */
  method PopHost(s: State, x: int) returns (s': State)
    requires Square(s.matrix, |s.hosts|) && 0 <= x < |s.hosts| && s.hosts[x] != []
    ensures s' == Popped(s, x)
  {
    var m := TurnPairs(s.matrix, |s.hosts|, x, DONE, REPEAT);
    s' := s.(hosts := s.hosts[x := s.hosts[x][1..]], matrix := m);
  }

  /** One experiment and what its outcome does to the state. */
  method Experiment(ghost s0: State, ghost t: seq<Event>, s: State, i: int, j: int, oracle: nat -> Outcome, experiments: nat, slipped: bool)
    returns (outcome: Outcome, s': State, slipped': bool, ghost t': seq<Event>)
    requires Inv(s0) && Running(s0, t, oracle, s, experiments, slipped, i, j) && CanMeasure(s, i, j)
    ensures var e := Tried(i, j, outcome);
      && outcome == oracle(experiments) && s' == Apply(s, e)
      && (slipped' <==> slipped || (i == j && outcome == Host2Failed))
      && Ran(s0, t', oracle, s', experiments + 1, slipped') && (Stopped(t') <==> outcome == FatalError)
      && (outcome != FatalError ==> Running(s0, t', oracle, s', experiments + 1, slipped', Following(e).0, Following(e).1))
  {
    StaysSound(s0, t, oracle, s, experiments, slipped);
    outcome := oracle(experiments);
    t' := Happens(s0, t, oracle, s, experiments, slipped, Tried(i, j, outcome));
    slipped' := slipped;
    match outcome {
      case Ok => s' := Measured(s, i, j);
      case Host1Failed => s' := PopHost(s, i);
      case Host2Failed =>
        s' := PopHost(s, j);
        slipped' := slipped || i == j;
      case FatalError => s' := s;
      case SmallError => s' := GivenUp(s, i, j);
    }
  }

  /** A country without hosts is met. */
  method Close(ghost s0: State, ghost t: seq<Event>, ghost oracle: nat -> Outcome, s: State, ghost experiments: nat, ghost slipped: bool,
               x: int, ghost e: Event)
    returns (s': State, ghost t': seq<Event>)
    requires Inv(s0) && Running(s0, t, oracle, s, experiments, slipped, PlaceOf(e).0, PlaceOf(e).1) && Allowed(s, e)
    requires (e.RowClosed? && e.i == x) || (e.ColumnClosed? && e.j == x)
    ensures s'.hosts == s.hosts
    ensures Running(s0, t', oracle, s', experiments, slipped, Following(e).0, Following(e).1)
  {
    StaysSound(s0, t, oracle, s, experiments, slipped);
    t' := Happens(s0, t, oracle, s, experiments, slipped, e);
    var m := TurnPairs(s.matrix, |s.hosts|, x, UNUSED, NO_HOST);
    s' := s.(matrix := m);
  }

  /** Where the inner loop is left: all of the row is done, or a host was lost. */
  ghost predicate RowLeft(hosts: seq<seq<Host>>, hosts': seq<seq<Host>>, i: int, row: int) {
    -1 <= row <= i && |hosts'| == |hosts| && (HostsLeft(hosts') < HostsLeft(hosts) || (hosts' == hosts && row == i))
  }

  /** The inner loop at a pair that needs an experiment; `leave` says that the loop is left. */
  method TryPair(ghost s0: State, ghost t0: seq<Event>, s1: State, i: int, j: int, oracle: nat -> Outcome, done: nat, slipped1: bool)
    returns (s: State, leave: bool, row: int, fatal: bool, slipped: bool, ghost t: seq<Event>)
    requires Inv(s0) && Running(s0, t0, oracle, s1, done, slipped1, i, j) && CanMeasure(s1, i, j)
    ensures fatal ==> leave && Ran(s0, t, oracle, s, done + 1, slipped) && Stopped(t)
    ensures !leave ==> Running(s0, t, oracle, s, done + 1, slipped, i, j + 1) && s.hosts == s1.hosts
    ensures leave && !fatal ==> Running(s0, t, oracle, s, done + 1, slipped, row + 1, 0) && RowLeft(s1.hosts, s.hosts, i, row)
  {
    leave, row, fatal := false, i, false;
    var outcome;
    outcome, s, slipped, t := Experiment(s0, t0, s1, i, j, oracle, done, slipped1);
    match outcome {
      case Ok =>
      case Host1Failed =>
        HostPopped(s1.hosts, i);
        leave, row := true, i - 1;
      case Host2Failed =>
        HostPopped(s1.hosts, j);
        leave := true;
        if i > j {
          row := j - 1;
        }
      case FatalError => leave, fatal := true, true;
      case SmallError =>
    }
  }

  /** The inner loop at a pair that needs no experiment. */
  method PassOrClose(ghost s0: State, ghost t0: seq<Event>, s1: State, i: int, j: int, ghost oracle: nat -> Outcome,
                     ghost experiments: nat, ghost slipped: bool)
    returns (s: State, ghost t: seq<Event>)
    requires Inv(s0) && Running(s0, t0, oracle, s1, experiments, slipped, i, j)
    requires 0 <= i < |s1.hosts| && 0 <= j < |s1.hosts| && s1.hosts[i] != [] && !CanMeasure(s1, i, j)
    ensures Running(s0, t, oracle, s, experiments, slipped, i, j + 1) && s.hosts == s1.hosts
  {
    s, t := s1, t0;
    StaysSound(s0, t, oracle, s, experiments, slipped);
    if s.hosts[j] == [] {
      s, t := Close(s0, t, oracle, s, experiments, slipped, j, ColumnClosed(i, j));
    } else {
      PassPair(s0, t, oracle, s, experiments, slipped, i, j);
    }
  }

  /** One round of the inner loop. */
  method VisitPair(ghost s0: State, ghost t0: seq<Event>, s1: State, i: int, j: int, oracle: nat -> Outcome, done: nat, slipped1: bool)
    returns (s: State, leave: bool, row: int, experiments: nat, fatal: bool, slipped: bool, ghost t: seq<Event>)
    requires Inv(s0) && Running(s0, t0, oracle, s1, done, slipped1, i, j)
    requires 0 <= i < |s1.hosts| && 0 <= j < |s1.hosts| && s1.hosts[i] != []
    ensures fatal ==> leave && Ran(s0, t, oracle, s, experiments, slipped) && Stopped(t)
    ensures !leave ==> Running(s0, t, oracle, s, experiments, slipped, i, j + 1) && s.hosts == s1.hosts
    ensures leave && !fatal ==> Running(s0, t, oracle, s, experiments, slipped, row + 1, 0) && RowLeft(s1.hosts, s.hosts, i, row)
  {
    StaysSound(s0, t0, oracle, s1, done, slipped1);
    if s1.hosts[j] != [] && 0 < s1.matrix[(i, j)] <= 2 {
      experiments := done + 1;
      s, leave, row, fatal, slipped, t := TryPair(s0, t0, s1, i, j, oracle, done, slipped1);
    } else {
      leave, row, experiments, fatal, slipped := false, i, done, false, slipped1;
      s, t := PassOrClose(s0, t0, s1, i, j, oracle, done, slipped1);
    }
  }

  /**
   The inner loop: the pairs of country `i` in order, until one of the hosts fails. `row` is the
   value of the outer index when the loop is left, before it is incremented.
   */
  method VisitRow(ghost s0: State, ghost t0: seq<Event>, s1: State, i: int, oracle: nat -> Outcome, done: nat, slipped1: bool)
    returns (s: State, row: int, experiments: nat, fatal: bool, slipped: bool, ghost t: seq<Event>)
    requires Inv(s0) && Running(s0, t0, oracle, s1, done, slipped1, i, 0) && 0 <= i < |s1.hosts| && s1.hosts[i] != []
    ensures fatal ==> Ran(s0, t, oracle, s, experiments, slipped) && Stopped(t)
    ensures !fatal ==> Running(s0, t, oracle, s, experiments, slipped, row + 1, 0) && RowLeft(s1.hosts, s.hosts, i, row)
  {
    s, row, experiments, fatal, slipped, t := s1, i, done, false, slipped1, t0;
    var n, j := |s.hosts|, 0;
    while j < n
      invariant 0 <= j <= n && row == i && !fatal && s.hosts == s1.hosts
      invariant Running(s0, t, oracle, s, experiments, slipped, i, j)
    {
      var leave, next;
      s, leave, next, experiments, fatal, slipped, t := VisitPair(s0, t, s, i, j, oracle, experiments, slipped);
      if leave {
        row := next;
        return;
      }
      j := j + 1;
    }
    PassRow(s0, t, oracle, s, experiments, slipped, i);
  }

  /**
   The outer loop, from any initial matrix. It always ends, and what it does is the run that the
   outcomes determine; `slipped` says whether a host failed as the partner of its own country.
   */
  method Schedule(s0: State, oracle: nat -> Outcome)
    returns (s: State, experiments: nat, fatal: bool, slipped: bool, ghost t: seq<Event>)
    requires Inv(s0)
    ensures Finished(s0, t, oracle) && s == Replay(s0, t) && experiments == Tries(t)
    ensures (fatal <==> Stopped(t)) && (slipped <==> HasSlip(t))
    ensures |s.hosts| == |s0.hosts| && Inv(s) && MatrixTold(s0.matrix, t, s.matrix)
    ensures forall a :: 0 <= a < |s0.hosts| ==> Lost(t, a) <= |s0.hosts[a]| && s.hosts[a] == s0.hosts[a][Lost(t, a)..]
    ensures experiments <= Budget(s0) + 1
    ensures !fatal ==> (Complete(s) <==> forall a :: !LeftBehind(s0, t, a) && !LeftUnmarked(s0, t, a))
    ensures !fatal ==> ((exists a, b :: CanMeasure(s, a, b)) <==> exists a :: LeftBehind(s0, t, a))
    ensures !fatal && !slipped ==> Complete(s)
  {
    s, experiments, fatal, slipped, t := s0, 0, false, false, [];
    var n, i := |s.hosts|, 0;
    AtStart(s0, oracle);
    while i < n
      invariant 0 <= i <= n && |s.hosts| == n && !fatal && Running(s0, t, oracle, s, experiments, slipped, i, 0)
      decreases HostsLeft(s.hosts), n - i
    {
      if s.hosts[i] != [] {
        s, i, experiments, fatal, slipped, t := VisitRow(s0, t, s, i, oracle, experiments, slipped);
        if fatal {
          RunSummary(s0, t, oracle);
          return;
        }
      } else {
        s, t := Close(s0, t, oracle, s, experiments, slipped, i, RowClosed(i));
      }
      i := i + 1;
    }
    RunSummary(s0, t, oracle);
  }

  lemma {:induction false} AtStart(s0: State, oracle: nat -> Outcome)
    ensures Running(s0, [], oracle, s0, 0, false, 0, 0)
  {
    var none: seq<Event> := [];
    assert ToDo(s0, (0, 0), (0, 0)) == {};
    forall u | u == none ensures s0 == Replay(s0, u) && 0 == Tries(u) {}
    assert Reaches(s0, none, s0, 0) && Greedy(s0, none, oracle);
  }

  /** What is known of a finished run. */
  lemma {:induction false} RunSummary(s0: State, t: seq<Event>, oracle: nat -> Outcome)
    requires Inv(s0) && Finished(s0, t, oracle)
    ensures var s := Replay(s0, t);
      && |s.hosts| == |s0.hosts| && Inv(s) && MatrixTold(s0.matrix, t, s.matrix) && Tries(t) <= Budget(s0) + 1
      && (forall a :: 0 <= a < |s0.hosts| ==> Lost(t, a) <= |s0.hosts[a]| && s.hosts[a] == s0.hosts[a][Lost(t, a)..])
      && (!Stopped(t) ==>
            && (Complete(s) <==> forall a :: !LeftBehind(s0, t, a) && !LeftUnmarked(s0, t, a))
            && ((exists a, b :: CanMeasure(s, a, b)) <==> exists a :: LeftBehind(s0, t, a))
            && (!HasSlip(t) ==> Complete(s)))
  {
    RunKeeps(s0, t, oracle);
    RunTold(s0, t, oracle);
    BudgetLeft(Replay(s0, t));
    forall a | 0 <= a < |s0.hosts| ensures Lost(t, a) <= |s0.hosts[a]| && Replay(s0, t).hosts[a] == s0.hosts[a][Lost(t, a)..] {
      HostsNotLost(s0, t, oracle, a);
    }
    if !Stopped(t) {
      CompleteIffNothingLeft(s0, t, oracle);
      OpenIffLeftBehind(s0, t, oracle);
    }
    forall a | LastSlip(t, a) ensures HasSlip(t) {
      LastSlipIsSlip(t, a);
    }
  }

  // ---------------------------------------------------------------- the initial matrix

  /** Where the countries of input file `k` start. */
  function Base(lengths: seq<nat>, k: nat): nat
    requires k <= |lengths|
  {
    if k == 0 then 0 else Base(lengths, k - 1) + lengths[k - 1]
  }

  lemma {:induction false} BaseMonotone(lengths: seq<nat>, k: nat, l: nat)
    requires k <= l <= |lengths|
    ensures Base(lengths, k) <= Base(lengths, l)
  {
    if k < l {
      BaseMonotone(lengths, k, l - 1);
    }
  }

  predicate InFile(lengths: seq<nat>, k: nat, a: int)
    requires k < |lengths|
  {
    Base(lengths, k) <= a < Base(lengths, k + 1)
  }

  /** The countries come from the same of the first `l` input files. */
  ghost predicate SameFile(lengths: seq<nat>, l: nat, a: int, b: int)
    requires l <= |lengths|
  {
    exists k: nat :: k < l && InFile(lengths, k, a) && InFile(lengths, k, b)
  }

  /** All pairs are unused except those within one input file, which are skipped. */
  ghost predicate Initial(lengths: seq<nat>, l: nat, n: nat, m: Matrix)
    requires l <= |lengths|
  {
    Square(m, n) && forall a, b :: (a, b) in m ==> m[(a, b)] == if SameFile(lengths, l, a, b) then SKIP else UNUSED
  }

  function AllUnused(n: nat): (m: Matrix)
    ensures Square(m, n) && forall a, b :: (a, b) in m ==> m[(a, b)] == UNUSED
  {
    map a, b | 0 <= a < n && 0 <= b < n :: (a, b) := UNUSED
  }

  method NewMatrix(n: nat) returns (m: Matrix)
    ensures Square(m, n) && forall a, b :: (a, b) in m ==> m[(a, b)] == UNUSED
  {
    m := AllUnused(n);
  }

  method SumLengths(lengths: seq<nat>) returns (n: nat)
    ensures n == Base(lengths, |lengths|)
  {
    n := 0;
    for l := 0 to |lengths|
      invariant n == Base(lengths, l)
    {
      n := n + lengths[l];
    }
  }

  /** The rows of one input file get their block of skipped pairs. */
  method MarkFile(m0: Matrix, n: nat, base: nat, length: nat) returns (m: Matrix)
    requires Square(m0, n) && base + length <= n
    ensures m.Keys == m0.Keys
    ensures forall a, b :: (a, b) in m0 ==>
              m[(a, b)] == if base <= a < base + length && base <= b < base + length then SKIP else m0[(a, b)]
  {
    m := m0;
    var i := base;
    while i < base + length
      invariant base <= i <= base + length && m.Keys == m0.Keys
      invariant forall a, b :: (a, b) in m0 ==>
                  m[(a, b)] == if base <= a < i && base <= b < base + length then SKIP else m0[(a, b)]
    {
      var j := base;
      while j < base + length
        invariant base <= j <= base + length && m.Keys == m0.Keys
        invariant forall a, b :: (a, b) in m0 ==>
                    m[(a, b)] == if base <= b < base + length && (base <= a < i || (a == i && b < j)) then SKIP else m0[(a, b)]
      {
        m := m[(i, j) := SKIP];
        j := j + 1;
      }
      i := i + 1;
    }
  }

  /** The initialisation of the matrix, file by file. */
  method InitMatrix(lengths: seq<nat>) returns (m: Matrix)
    ensures Initial(lengths, |lengths|, Base(lengths, |lengths|), m)
  {
    var n := SumLengths(lengths);
    m := NewMatrix(n);
    var base, l := 0, 0;
    while l < |lengths|
      invariant 0 <= l <= |lengths| && base == Base(lengths, l)
      invariant Initial(lengths, l, n, m)
    {
      BaseMonotone(lengths, l + 1, |lengths|);
      m := MarkFile(m, n, base, lengths[l]);
      forall a, b | (a, b) in m
        ensures SameFile(lengths, l + 1, a, b) <==> SameFile(lengths, l, a, b) || (InFile(lengths, l, a) && InFile(lengths, l, b))
      {
      }
      base := base + lengths[l];
      l := l + 1;
    }
  }

  lemma {:induction false} FileOf(lengths: seq<nat>, l: nat, a: int)
    requires l <= |lengths| && 0 <= a < Base(lengths, l)
    ensures SameFile(lengths, l, a, a)
  {
    if a < Base(lengths, l - 1) {
      FileOf(lengths, l - 1, a);
      var k: nat :| k < l - 1 && InFile(lengths, k, a) && InFile(lengths, k, a);
    } else {
      assert InFile(lengths, l - 1, a);
    }
  }

  /** The initial matrix fits any list of countries of that length. */
  lemma {:induction false} InitialInv(lengths: seq<nat>, s: State)
    requires |s.hosts| == Base(lengths, |lengths|) && Initial(lengths, |lengths|, |s.hosts|, s.matrix)
    ensures Inv(s)
  {}

  /** Countries are never measured against their own file, so no run slips. */
  lemma {:induction false} DeltaNeverSlips(lengths: seq<nat>, s0: State, t: seq<Event>, oracle: nat -> Outcome)
    requires |s0.hosts| == Base(lengths, |lengths|) && Initial(lengths, |lengths|, |s0.hosts|, s0.matrix)
    requires Inv(s0) && Greedy(s0, t, oracle)
    ensures !HasSlip(t)
  {
    if t != [] {
      LastDue(s0, t, oracle);
      var u, e := t[..|t| - 1], t[|t| - 1];
      DeltaNeverSlips(lengths, s0, u, oracle);
      HasSlipSnoc(u, e);
      RunKeeps(s0, u, oracle);
      if IsOwnSlip(e) {
        FileOf(lengths, |lengths|, e.i);
        assert false;
      }
    }
  }

  // ---------------------------------------------------------------- the programs

  /**
   The loop of wrapper_delta.py, over several files. It always ends; unless an error was fatal,
   no pair is left unused and every pair without a result has a country that ran out of hosts.
   */
  method ExecuteDelta(hosts: seq<seq<Host>>, lengths: seq<nat>, oracle: nat -> Outcome)
    returns (s: State, experiments: nat, fatal: bool, ghost t: seq<Event>)
    requires |hosts| == Base(lengths, |lengths|)
    ensures |s.hosts| == |hosts| && Inv(s) && experiments == Tries(t) && (fatal <==> Stopped(t))
    ensures forall a, b :: 0 <= a < |hosts| && 0 <= b < |hosts| ==>
              Tells(if SameFile(lengths, |lengths|, a, b) then 5 else 1, t, a, b, s.matrix[(a, b)])
    ensures !fatal ==> Complete(s)
    ensures var n := |hosts|; experiments <= n * (n + 1) / 2 + (n + 1) * HostsLeft(hosts) + 1
  {
    var m := InitMatrix(lengths);
    var s0 := State(hosts, m, map[]);
    InitialInv(lengths, s0);
    OpenBound(m, |hosts|);
    var slipped;
    s, experiments, fatal, slipped, t := Schedule(s0, oracle);
    DeltaNeverSlips(lengths, s0, t, oracle);
    forall a, b | 0 <= a < |hosts| && 0 <= b < |hosts|
      ensures Tells(if SameFile(lengths, |lengths|, a, b) then 5 else 1, t, a, b, s.matrix[(a, b)])
    {
      assert ToldAt(m, t, s.matrix, a, b) && (a, b) in m;
    }
  }

  /** The state in which wrapper.py starts. */
  function Start(hosts: seq<seq<Host>>): State {
    State(hosts, AllUnused(|hosts|), map[])
  }

  /**
   The loop of wrapper.py: the pairs of one list of countries, each country with itself too. The
   run is complete exactly if no country was left behind by a slip: a failure of its host as the
   second host of its own country, after which no row up to its own was tried, and which left it
   a host or left its pair with itself without any mark.
   */
  method ExecuteSingle(hosts: seq<seq<Host>>, oracle: nat -> Outcome)
    returns (s: State, experiments: nat, fatal: bool, slipped: bool, ghost t: seq<Event>)
    ensures Finished(Start(hosts), t, oracle) && s == Replay(Start(hosts), t) && experiments == Tries(t)
    ensures (fatal <==> Stopped(t)) && (slipped <==> HasSlip(t))
    ensures |s.hosts| == |hosts| && Inv(s)
    ensures ToldFromUnused(|hosts|, t, s.matrix)
    ensures !fatal ==> (Complete(s) <==> forall a :: !LeftBehind(Start(hosts), t, a) && !LeftUnmarked(Start(hosts), t, a))
    ensures !fatal ==> ((exists a, b :: CanMeasure(s, a, b)) <==> exists a :: LeftBehind(Start(hosts), t, a))
    ensures !fatal && !slipped ==> Complete(s)
    ensures var n := |hosts|; experiments <= n * (n + 1) / 2 + (n + 1) * HostsLeft(hosts) + 1
  {
    var s0 := Start(hosts);
    OpenBound(s0.matrix, |hosts|);
    s, experiments, fatal, slipped, t := Schedule(s0, oracle);
    UnusedTold(|hosts|, s0.matrix, t, s.matrix);
  }

  /** With one country whose first host fails as its own partner, that is the whole run. */
  lemma {:induction false} SlipEndsRun(s0: State, oracle: nat -> Outcome, e: Event)
    requires |s0.hosts| == 1 && CanMeasure(s0, 0, 0) && oracle(0) == Host2Failed && e == Tried(0, 0, Host2Failed)
    ensures Finished(s0, [e], oracle) && !Stopped([e]) && Replay(s0, [e]) == Popped(s0, 0)
  {
    var none: seq<Event> := [];
    assert ToDo(s0, (0, 0), PlaceOf(e)) == {};
    Snoc(s0, none, oracle, e);
    assert none + [e] == [e];
    assert ToDo(Popped(s0, 0), (1, 0), (1, 0)) == {};
  }

  lemma {:induction false} OneCountryRun(s0: State, t: seq<Event>, oracle: nat -> Outcome)
    requires Finished(s0, t, oracle) && |s0.hosts| == 1 && CanMeasure(s0, 0, 0) && oracle(0) == Host2Failed
    ensures !Stopped(t) && Replay(s0, t) == Popped(s0, 0)
  {
    var e := Tried(0, 0, Host2Failed);
    SlipEndsRun(s0, oracle, e);
    RunDetermined(s0, t, [e], oracle);
  }

  lemma {:induction false} OneCountrySlips(hosts: seq<seq<Host>>, t: seq<Event>, oracle: nat -> Outcome)
    requires |hosts| == 1 && hosts[0] != [] && Finished(Start(hosts), t, oracle) && oracle(0) == Host2Failed
    ensures var s := Replay(Start(hosts), t);
      && !Stopped(t) && s.hosts == [hosts[0][1..]] && s.matrix == map[(0, 0) := UNUSED] && !Complete(s)
      && (|hosts[0]| > 1 ==> CanMeasure(s, 0, 0))
  {
    OneCountryRun(Start(hosts), t, oracle);
    PoppedStart(hosts);
  }

  lemma {:induction false} PoppedStart(hosts: seq<seq<Host>>)
    requires |hosts| == 1 && hosts[0] != []
    ensures var s := Popped(Start(hosts), 0);
      && s.hosts == [hosts[0][1..]] && s.matrix == map[(0, 0) := UNUSED] && !Complete(s)
      && (|hosts[0]| > 1 ==> CanMeasure(s, 0, 0))
  {
    var s := Popped(Start(hosts), 0);
    assert !Settled(s, 0, 0);
  }

  /** The first host of the only country fails as its own partner: the pair stays unused although a host is left. */
  method SlipLeavesHost(h: Host, g: Host, oracle: nat -> Outcome) returns (s: State, fatal: bool)
    requires oracle(0) == Host2Failed
    ensures !fatal && s.hosts == [[g]] && s.matrix == map[(0, 0) := UNUSED] && CanMeasure(s, 0, 0) && !Complete(s)
  {
    var hosts := [[h, g]];
    assert hosts[0][1..] == [g];
    ghost var t;
    s, fatal, t := JustExecute(hosts, oracle);
    OneCountrySlips(hosts, t, oracle);
  }

  /** The only host of the only country fails as its own partner: the pair stays unused and is not marked as impossible. */
  method SlipLeavesUnmarked(h: Host, oracle: nat -> Outcome) returns (s: State, fatal: bool)
    requires oracle(0) == Host2Failed
    ensures !fatal && s.hosts == [[]] && s.matrix == map[(0, 0) := UNUSED] && !Complete(s)
  {
    var hosts := [[h]];
    assert hosts[0][1..] == [];
    ghost var t;
    s, fatal, t := JustExecute(hosts, oracle);
    OneCountrySlips(hosts, t, oracle);
  }

  /** ExecuteSingle, for callers that only want to know the run. */
  method JustExecute(hosts: seq<seq<Host>>, oracle: nat -> Outcome) returns (s: State, fatal: bool, ghost t: seq<Event>)
    ensures Finished(Start(hosts), t, oracle) && s == Replay(Start(hosts), t) && (fatal <==> Stopped(t))
  {
    var experiments, slipped;
    s, experiments, fatal, slipped, t := ExecuteSingle(hosts, oracle);
  }
}
