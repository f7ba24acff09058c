/**
 Runs of the scheduler as traces. A trace lists what the loops did, and `Greedy` says which
 traces are runs: each event is at the first place, row by row from where the one before left
 off, that needs anything done. What holds of all runs is proved here.
 */
module SchedulerTrace {
  import opened SchedulerModel

  datatype Event =
    | Tried(i: int, j: int, outcome: Outcome)  // an experiment for the pair (i, j)
    | ColumnClosed(i: int, j: int)             // in row i, country j was found without hosts
    | RowClosed(i: int)                        // country i was found without hosts

  type Place = (int, int)

  predicate Before(p: Place, q: Place) {
    p.0 < q.0 || (p.0 == q.0 && p.1 < q.1)
  }

  function PlaceOf(e: Event): Place {
    match e
    case Tried(i, j, _) => (i, j)
    case ColumnClosed(i, j) => (i, j)
    case RowClosed(i) => (i, 0)
  }

  /** Where the loops go on after an event. */
  function Following(e: Event): Place {
    match e
    case Tried(i, j, Ok) => (i, j + 1)
    case Tried(i, j, SmallError) => (i, j + 1)
    case Tried(i, _, Host1Failed) => (i, 0)
    case Tried(i, j, Host2Failed) => if i > j then (j, 0) else (i + 1, 0)
    case Tried(i, j, FatalError) => (i, j)
    case ColumnClosed(i, j) => (i, j + 1)
    case RowClosed(i) => (i + 1, 0)
  }

  function Resume(t: seq<Event>): Place {
    if t == [] then (0, 0) else Following(t[|t| - 1])
  }

  /** What the event needs of the state. */
  ghost predicate Allowed(s: State, e: Event) {
    match e
    case Tried(i, j, _) => CanMeasure(s, i, j)
    case ColumnClosed(i, j) => 0 <= i < |s.hosts| && 0 <= j < |s.hosts| && s.hosts[i] != [] && s.hosts[j] == []
    case RowClosed(i) => 0 <= i < |s.hosts| && s.hosts[i] == []
  }

  ghost function Apply(s: State, e: Event): State
    requires Allowed(s, e)
  {
    match e
    case Tried(i, j, Ok) => Measured(s, i, j)
    case Tried(i, j, SmallError) => GivenUp(s, i, j)
    case Tried(i, _, Host1Failed) => Popped(s, i)
    case Tried(_, j, Host2Failed) => Popped(s, j)
    case Tried(_, _, FatalError) => s
    case ColumnClosed(_, j) => WithoutHosts(s, j)
    case RowClosed(i) => WithoutHosts(s, i)
  }

  /** The state after a trace. */
  ghost function Replay(s0: State, t: seq<Event>): State {
    if t == [] then s0
    else
      var s, e := Replay(s0, t[..|t| - 1]), t[|t| - 1];
      if Allowed(s, e) then Apply(s, e) else s
  }

  function Tries(t: seq<Event>): nat {
    if t == [] then 0 else Tries(t[..|t| - 1]) + if t[|t| - 1].Tried? then 1 else 0
  }

  predicate Stopped(t: seq<Event>) {
    t != [] && t[|t| - 1].Tried? && t[|t| - 1].outcome == FatalError
  }

  /** Nothing is to be done at the place: both countries have hosts and the pair needs no experiment. */
  ghost predicate Quiet(s: State, a: int, b: int) {
    && 0 <= a < |s.hosts| && 0 <= b < |s.hosts| && s.hosts[a] != [] && s.hosts[b] != []
    && (a, b) in s.matrix && s.matrix[(a, b)] != UNUSED && s.matrix[(a, b)] != REPEAT
  }

  /** The places from `p` up to `q` where something is to be done. */
  ghost function ToDo(s: State, p: Place, q: Place): set<Place> {
    set a, b | 0 <= a < |s.hosts| && 0 <= b < |s.hosts| && !Before((a, b), p) && Before((a, b), q) && !Quiet(s, a, b) :: (a, b)
  }

  ghost predicate AllQuiet(s: State, p: Place, q: Place) {
    ToDo(s, p, q) == {}
  }

  lemma {:induction false} QuietBetween(s: State, p: Place, q: Place, a: int, b: int)
    requires AllQuiet(s, p, q) && 0 <= a < |s.hosts| && 0 <= b < |s.hosts| && !Before((a, b), p) && Before((a, b), q)
    ensures Quiet(s, a, b)
  {
    assert (a, b) !in ToDo(s, p, q);
  }

  /** The event is the first that is called for after `t`. */
  ghost predicate Due(s: State, t: seq<Event>, oracle: nat -> Outcome, e: Event) {
    && Allowed(s, e) && !Before(PlaceOf(e), Resume(t)) && AllQuiet(s, Resume(t), PlaceOf(e))
    && (e.Tried? ==> e.outcome == oracle(Tries(t)))
  }

  ghost predicate DueAt(s0: State, t: seq<Event>, oracle: nat -> Outcome, k: int) {
    0 <= k < |t| ==> !Stopped(t[..k]) && Due(Replay(s0, t[..k]), t[..k], oracle, t[k])
  }

  ghost predicate Greedy(s0: State, t: seq<Event>, oracle: nat -> Outcome) {
    forall k :: DueAt(s0, t, oracle, k)
  }

  /** The trace is a whole run: it stopped, or nothing is left to do after it. */
  ghost predicate Finished(s0: State, t: seq<Event>, oracle: nat -> Outcome) {
    Greedy(s0, t, oracle) && (Stopped(t) || AllQuiet(Replay(s0, t), Resume(t), (|s0.hosts|, 0)))
  }

  /** The last event of a run and the run before it. */
  lemma {:induction false} LastDue(s0: State, t: seq<Event>, oracle: nat -> Outcome)
    requires Greedy(s0, t, oracle) && t != []
    ensures var u, e := t[..|t| - 1], t[|t| - 1];
      && Greedy(s0, u, oracle) && !Stopped(u) && Due(Replay(s0, u), u, oracle, e)
      && t == u + [e] && Replay(s0, t) == Apply(Replay(s0, u), e)
  {
    var u := t[..|t| - 1];
    assert DueAt(s0, t, oracle, |t| - 1);
    forall k ensures DueAt(s0, u, oracle, k) {
      assert DueAt(s0, t, oracle, k);
      if 0 <= k < |u| {
        assert u[..k] == t[..k];
      }
    }
  }

  lemma {:induction false} Snoc(s0: State, t: seq<Event>, oracle: nat -> Outcome, e: Event)
    requires Greedy(s0, t, oracle) && !Stopped(t) && Due(Replay(s0, t), t, oracle, e)
    ensures Greedy(s0, t + [e], oracle) && Replay(s0, t + [e]) == Apply(Replay(s0, t), e)
    ensures Tries(t + [e]) == Tries(t) + (if e.Tried? then 1 else 0) && Resume(t + [e]) == Following(e)
    ensures Stopped(t + [e]) <==> e.Tried? && e.outcome == FatalError
  {
    var t' := t + [e];
    assert t'[..|t|] == t;
    forall k ensures DueAt(s0, t', oracle, k) {
      assert DueAt(s0, t, oracle, k);
      if 0 <= k < |t| {
        assert t'[..k] == t[..k];
      }
    }
  }

  // ---------------------------------------------------------------- slips

  /** An experiment of a country with itself in which the second host failed. */
  predicate IsSlip(e: Event, a: int) {
    e == Tried(a, a, Host2Failed)
  }

  /** The country slipped, and no row up to its own was tried since. */
  ghost predicate LastSlip(t: seq<Event>, a: int) {
    exists e :: 0 <= e < |t| && IsSlip(t[e], a) && forall k :: e < k < |t| && t[k].Tried? ==> t[k].i > a
  }

  lemma {:induction false} LastSlipSnoc(t: seq<Event>, e: Event, a: int)
    ensures LastSlip(t + [e], a) <==> IsSlip(e, a) || (LastSlip(t, a) && (e.Tried? ==> e.i > a))
  {
    var t' := t + [e];
    if LastSlip(t', a) && !IsSlip(e, a) {
      var k :| 0 <= k < |t'| && IsSlip(t'[k], a) && forall l :: k < l < |t'| && t'[l].Tried? ==> t'[l].i > a;
      assert t[k] == t'[k] && forall l :: k < l < |t| ==> t[l] == t'[l];
      assert t'[|t|] == e;
    }
    if IsSlip(e, a) {
      assert IsSlip(t'[|t|], a);
    } else if LastSlip(t, a) && (e.Tried? ==> e.i > a) {
      var k :| 0 <= k < |t| && IsSlip(t[k], a) && forall l :: k < l < |t| && t[l].Tried? ==> t[l].i > a;
      assert IsSlip(t'[k], a);
    }
  }

  predicate IsOwnSlip(e: Event) {
    e.Tried? && IsSlip(e, e.i)
  }

  ghost predicate HasSlip(t: seq<Event>) {
    exists e :: 0 <= e < |t| && IsOwnSlip(t[e])
  }

  lemma {:induction false} HasSlipSnoc(t: seq<Event>, e: Event)
    ensures HasSlip(t + [e]) <==> HasSlip(t) || IsOwnSlip(e)
  {
    var t' := t + [e];
    assert t'[|t|] == e && forall k :: 0 <= k < |t| ==> t'[k] == t[k];
  }

  lemma {:induction false} LastSlipIsSlip(t: seq<Event>, a: int)
    requires LastSlip(t, a)
    ensures HasSlip(t)
  {
    var e :| 0 <= e < |t| && IsSlip(t[e], a);
    assert IsOwnSlip(t[e]);
  }

  /** The countries that the loops have passed with a slip. */
  ghost function SlipsAfter(slips: set<int>, e: Event): set<int> {
    match e
    case Tried(i, _, Host1Failed) => Below(slips, i)
    case Tried(i, j, Host2Failed) => if i > j then Below(slips, j) else if i == j then slips + {i} else slips
    case _ => slips
  }

  ghost function Slips(t: seq<Event>): set<int> {
    if t == [] then {} else SlipsAfter(Slips(t[..|t| - 1]), t[|t| - 1])
  }

  // ---------------------------------------------------------------- what a run keeps

  /** All that lies before the place was visited. */
  ghost predicate StandingAt(s: State, slips: set<int>, p: Place) {
    0 <= p.0 && Standing(s, slips, p.0) && RowVisited(s, slips, p.0, p.1)
  }

  lemma {:induction false} QuietIsVisited(s: State, slips: set<int>, a: int, b: int)
    requires Inv(s) && Quiet(s, a, b)
    ensures Settled(s, a, b) && Visited(s, slips, a, b) && Visited(s, slips, b, a)
  {}

  /** Passing places where nothing is to be done. */
  lemma {:induction false} Passed(s: State, slips: set<int>, p: Place, q: Place, a: int, b: int)
    requires Inv(s) && StandingAt(s, slips, p) && AllQuiet(s, p, q)
    requires 0 <= a < |s.hosts| && 0 <= b < |s.hosts| && Before((a, b), q) && (a < p.0 ==> b < p.0)
    ensures Visited(s, slips, a, b) && Visited(s, slips, b, a)
  {
    if !Before((a, b), p) {
      QuietBetween(s, p, q, a, b);
      QuietIsVisited(s, slips, a, b);
    }
  }

  lemma {:induction false} Advance(s: State, slips: set<int>, p: Place, q: Place)
    requires Inv(s) && StandingAt(s, slips, p) && AllQuiet(s, p, q) && !Before(q, p)
    requires q.0 <= |s.hosts| && q.1 <= |s.hosts| && (q.0 == |s.hosts| ==> q.1 == 0)
    ensures StandingAt(s, slips, q)
  {
    forall a, b | 0 <= a < q.0 && 0 <= b < q.0 ensures Visited(s, slips, a, b) {
      if a >= b {
        Passed(s, slips, p, q, a, b);
      } else {
        Passed(s, slips, p, q, b, a);
      }
    }
    forall b | 0 <= b < q.1 ensures Visited(s, slips, q.0, b) && Visited(s, slips, b, q.0) {
      Passed(s, slips, p, q, q.0, b);
    }
  }

  /** What an experiment costs; a fatal one ends the run instead. */
  function Cost(e: Event): int {
    if e.Tried? && e.outcome != FatalError then 1 else 0
  }

  /** A host fails. */
  lemma {:induction false} PopEvent(s0: State, s: State, slips: set<int>, cost: int, e: Event)
    requires Progress(s0, s, cost) && e.Tried? && (e.outcome == Host1Failed || e.outcome == Host2Failed)
    requires Allowed(s, e) && StandingAt(s, slips, PlaceOf(e))
    ensures Progress(s0, Apply(s, e), cost + 1) && StandingAt(Apply(s, e), SlipsAfter(slips, e), Following(e))
  {
    if e.outcome == Host1Failed {
      PopStep(s0, s, slips, cost, e.i, e.i);
    } else {
      PopStep(s0, s, slips, cost, e.i, e.j);
      if e.i == e.j {
        OwnHostPopped(s, slips, e.i);
      } else if e.i < e.j {
        LaterHostPopped(s, slips, e.i, e.j);
      }
    }
  }

  /** A country without hosts is met. */
  lemma {:induction false} CloseEvent(s0: State, s: State, slips: set<int>, cost: int, e: Event)
    requires Progress(s0, s, cost) && !e.Tried? && Allowed(s, e) && StandingAt(s, slips, PlaceOf(e))
    ensures Progress(s0, Apply(s, e), cost) && StandingAt(Apply(s, e), slips, Following(e))
  {
    if e.RowClosed? {
      CloseStep(s0, s, slips, cost, e.i, e.i);
      RowBecomesBlock(Apply(s, e), slips, e.i);
    } else {
      CloseStep(s0, s, slips, cost, e.j, e.i);
    }
  }

  lemma {:induction false} EventStep(s0: State, s: State, slips: set<int>, cost: int, e: Event)
    requires Progress(s0, s, cost) && Allowed(s, e) && StandingAt(s, slips, PlaceOf(e))
    ensures Progress(s0, Apply(s, e), cost + Cost(e)) && StandingAt(Apply(s, e), SlipsAfter(slips, e), Following(e))
  {
    if e.Tried? {
      match e.outcome {
        case Ok => PairStep(s0, s, slips, cost, e.i, e.j, Apply(s, e));
        case SmallError => PairStep(s0, s, slips, cost, e.i, e.j, Apply(s, e));
        case FatalError =>
        case _ => PopEvent(s0, s, slips, cost, e);
      }
    } else {
      CloseEvent(s0, s, slips, cost, e);
    }
  }

  /** The experiments that count against the budget. */
  function Spent(t: seq<Event>): int {
    Tries(t) - if Stopped(t) then 1 else 0
  }

  /** Every run keeps the invariant and its final entries, stays within its budget, and has visited what lies behind it. */
  lemma {:induction false} RunKeeps(s0: State, t: seq<Event>, oracle: nat -> Outcome)
    requires Inv(s0) && Greedy(s0, t, oracle)
    ensures Progress(s0, Replay(s0, t), Spent(t)) && StandingAt(Replay(s0, t), Slips(t), Resume(t))
  {
    if t != [] {
      LastDue(s0, t, oracle);
      var u, e := t[..|t| - 1], t[|t| - 1];
      RunKeeps(s0, u, oracle);
      var s := Replay(s0, u);
      Advance(s, Slips(u), Resume(u), PlaceOf(e));
      EventStep(s0, s, Slips(u), Spent(u), e);
    }
  }

  // ---------------------------------------------------------------- what a run leaves undone

  lemma {:induction false} SlipsAreLast(s0: State, t: seq<Event>, oracle: nat -> Outcome, a: int)
    requires Inv(s0) && Greedy(s0, t, oracle) && a in Slips(t)
    ensures LastSlip(t, a)
  {
    LastDue(s0, t, oracle);
    var u, e := t[..|t| - 1], t[|t| - 1];
    LastSlipSnoc(u, e, a);
    if !IsSlip(e, a) {
      SlipsAreLast(s0, u, oracle, a);
      RunKeeps(s0, u, oracle);
    }
  }

  /** The pair of a slipped country with itself waits: behind the loops if they passed it, or ahead of them. */
  ghost predicate Waits(s: State, slips: set<int>, p: Place, a: int) {
    0 <= a < |s.hosts| && (s.Exhausted(a) || (CanMeasure(s, a, a) && (a in slips || !Before((a, a), p))))
  }

  lemma {:induction false} StillAhead(s: State, t: seq<Event>, oracle: nat -> Outcome, e: Event, a: int)
    requires Due(s, t, oracle, e) && CanMeasure(s, a, a) && !Before((a, a), Resume(t)) && (e.Tried? ==> e.i > a)
    ensures !e.Tried? && !Before((a, a), Following(e))
  {
    if Before((a, a), PlaceOf(e)) {
      QuietBetween(s, Resume(t), PlaceOf(e), a, a);
    }
  }

  lemma {:induction false} WaitsOn(s: State, slips: set<int>, t: seq<Event>, oracle: nat -> Outcome, e: Event, a: int)
    requires Due(s, t, oracle, e) && Waits(s, slips, Resume(t), a) && (e.Tried? ==> e.i > a)
    ensures Waits(Apply(s, e), SlipsAfter(slips, e), Following(e), a)
  {
    if !s.Exhausted(a) && a !in slips {
      StillAhead(s, t, oracle, e, a);
    }
  }

  lemma {:induction false} LastSlipWaits(s0: State, t: seq<Event>, oracle: nat -> Outcome, a: int)
    requires Greedy(s0, t, oracle) && LastSlip(t, a)
    ensures Waits(Replay(s0, t), Slips(t), Resume(t), a)
  {
    LastDue(s0, t, oracle);
    var u, e := t[..|t| - 1], t[|t| - 1];
    LastSlipSnoc(u, e, a);
    if !IsSlip(e, a) {
      LastSlipWaits(s0, u, oracle, a);
      WaitsOn(Replay(s0, u), Slips(u), u, oracle, e, a);
    }
  }

  /** The event gives the pair a result or marks one of its countries as without hosts. */
  predicate Touches(e: Event, a: int, b: int) {
    match e
    case Tried(i, j, outcome) => ((i, j) == (a, b) || (j, i) == (a, b)) && (outcome == Ok || outcome == SmallError)
    case ColumnClosed(_, j) => j == a || j == b
    case RowClosed(i) => i == a || i == b
  }

  ghost predicate Touched(t: seq<Event>, a: int, b: int) {
    exists e :: 0 <= e < |t| && Touches(t[e], a, b)
  }

  lemma {:induction false} UnusedStep(s: State, e: Event, a: int, b: int)
    requires Allowed(s, e) && (a, b) in s.matrix
    ensures (a, b) in Apply(s, e).matrix
    ensures Apply(s, e).matrix[(a, b)] == UNUSED <==> s.matrix[(a, b)] == UNUSED && !Touches(e, a, b)
  {}

  /** A pair is still unused exactly if it was at the start and no event has touched it. */
  lemma {:induction false} UnusedIffUntouched(s0: State, t: seq<Event>, oracle: nat -> Outcome, a: int, b: int)
    requires Greedy(s0, t, oracle) && (a, b) in s0.matrix
    ensures (a, b) in Replay(s0, t).matrix
    ensures Replay(s0, t).matrix[(a, b)] == UNUSED <==> s0.matrix[(a, b)] == UNUSED && !Touched(t, a, b)
  {
    if t != [] {
      LastDue(s0, t, oracle);
      var u, e := t[..|t| - 1], t[|t| - 1];
      UnusedIffUntouched(s0, u, oracle, a, b);
      UnusedStep(Replay(s0, u), e, a, b);
      assert forall k :: 0 <= k < |u| ==> t[k] == u[k];
      assert Touched(t, a, b) <==> Touched(u, a, b) || Touches(e, a, b);
    }
  }

  /** How many hosts of the country have failed. */
  function Lost(t: seq<Event>, a: int): nat {
    if t == [] then 0
    else Lost(t[..|t| - 1], a) + if Loses(t[|t| - 1], a) then 1 else 0
  }

  predicate Loses(e: Event, a: int) {
    e.Tried? && ((e.outcome == Host1Failed && e.i == a) || (e.outcome == Host2Failed && e.j == a))
  }

  lemma {:induction false} HostsStep(s: State, e: Event, a: int)
    requires Allowed(s, e) && 0 <= a < |s.hosts|
    ensures |Apply(s, e).hosts| == |s.hosts| && (Loses(e, a) ==> s.hosts[a] != [])
    ensures Apply(s, e).hosts[a] == if Loses(e, a) then s.hosts[a][1..] else s.hosts[a]
  {}

  /** A country has the hosts left that have not failed. */
  lemma {:induction false} HostsNotLost(s0: State, t: seq<Event>, oracle: nat -> Outcome, a: int)
    requires Greedy(s0, t, oracle) && 0 <= a < |s0.hosts|
    ensures |Replay(s0, t).hosts| == |s0.hosts| && Lost(t, a) <= |s0.hosts[a]|
    ensures Replay(s0, t).hosts[a] == s0.hosts[a][Lost(t, a)..]
  {
    if t != [] {
      LastDue(s0, t, oracle);
      var u, e := t[..|t| - 1], t[|t| - 1];
      HostsNotLost(s0, u, oracle, a);
      HostsStep(Replay(s0, u), e, a);
    }
  }

  lemma {:induction false} EndOfRun(s0: State, t: seq<Event>, oracle: nat -> Outcome)
    requires Inv(s0) && Finished(s0, t, oracle) && !Stopped(t)
    ensures var s := Replay(s0, t); |s.hosts| == |s0.hosts| && Inv(s) && Standing(s, Slips(t), |s.hosts|)
  {
    RunKeeps(s0, t, oracle);
    var s := Replay(s0, t);
    if Resume(t).0 < |s.hosts| {
      Advance(s, Slips(t), Resume(t), (|s.hosts|, 0));
    }
  }

  /** The last slip of the country left it with a host: its pair with itself was not tried again. */
  ghost predicate LeftBehind(s0: State, t: seq<Event>, a: int) {
    0 <= a < |s0.hosts| && LastSlip(t, a) && Lost(t, a) < |s0.hosts[a]|
  }

  /** The last slip of the country cost it its last host, and the pair with itself never got any mark. */
  ghost predicate LeftUnmarked(s0: State, t: seq<Event>, a: int) {
    && 0 <= a < |s0.hosts| && LastSlip(t, a) && Lost(t, a) == |s0.hosts[a]|
    && (a, a) in s0.matrix && s0.matrix[(a, a)] == UNUSED && !Touched(t, a, a)
  }

  lemma {:induction false} WhoseSlip(s0: State, t: seq<Event>, oracle: nat -> Outcome, a: int, b: int) returns (x: int)
    requires Inv(s0) && Finished(s0, t, oracle) && !Stopped(t) && CanMeasure(Replay(s0, t), a, b)
    ensures LeftBehind(s0, t, x)
  {
    EndOfRun(s0, t, oracle);
    assert Visited(Replay(s0, t), Slips(t), a, b);
    x := if a in Slips(t) then a else b;
    SlipsAreLast(s0, t, oracle, x);
    HostsNotLost(s0, t, oracle, x);
  }

  lemma {:induction false} StillOpen(s0: State, t: seq<Event>, oracle: nat -> Outcome, a: int)
    requires Inv(s0) && Greedy(s0, t, oracle) && LeftBehind(s0, t, a)
    ensures CanMeasure(Replay(s0, t), a, a)
  {
    LastSlipWaits(s0, t, oracle, a);
    HostsNotLost(s0, t, oracle, a);
  }

  /** A run leaves a pair that could be measured exactly if it left a slipped country behind. */
  lemma {:induction false} OpenIffLeftBehind(s0: State, t: seq<Event>, oracle: nat -> Outcome)
    requires Inv(s0) && Finished(s0, t, oracle) && !Stopped(t)
    ensures (exists a, b :: CanMeasure(Replay(s0, t), a, b)) <==> exists a :: LeftBehind(s0, t, a)
  {
    forall a, b | CanMeasure(Replay(s0, t), a, b) ensures exists x :: LeftBehind(s0, t, x) {
      var x := WhoseSlip(s0, t, oracle, a, b);
    }
    forall a | LeftBehind(s0, t, a) ensures CanMeasure(Replay(s0, t), a, a) {
      StillOpen(s0, t, oracle, a);
    }
  }

  lemma {:induction false} StillUnused(s0: State, t: seq<Event>, oracle: nat -> Outcome, a: int)
    requires Inv(s0) && Finished(s0, t, oracle) && !Stopped(t) && LeftUnmarked(s0, t, a)
    ensures !Settled(Replay(s0, t), a, a)
  {
    UnusedIffUntouched(s0, t, oracle, a, a);
  }

  lemma {:induction false} SettledUnlessLeft(s0: State, t: seq<Event>, oracle: nat -> Outcome, a: int, b: int)
    requires Inv(s0) && Finished(s0, t, oracle) && !Stopped(t) && 0 <= a < |s0.hosts| && 0 <= b < |s0.hosts|
    requires forall x :: !LeftBehind(s0, t, x) && !LeftUnmarked(s0, t, x)
    ensures Settled(Replay(s0, t), a, b)
  {
    var s := Replay(s0, t);
    EndOfRun(s0, t, oracle);
    assert Visited(s, Slips(t), a, b);
    if a in Slips(t) || b in Slips(t) {
      var x := if a in Slips(t) then a else b;
      SlipsAreLast(s0, t, oracle, x);
      HostsNotLost(s0, t, oracle, x);
      assert !LeftBehind(s0, t, x) && !LeftUnmarked(s0, t, x);
      UnusedIffUntouched(s0, t, oracle, x, x);
    }
  }

  /** Exactly when a run that was not stopped settles all pairs. */
  lemma {:induction false} CompleteIffNothingLeft(s0: State, t: seq<Event>, oracle: nat -> Outcome)
    requires Inv(s0) && Finished(s0, t, oracle) && !Stopped(t)
    ensures Complete(Replay(s0, t)) <==> forall a :: !LeftBehind(s0, t, a) && !LeftUnmarked(s0, t, a)
  {
    var s := Replay(s0, t);
    EndOfRun(s0, t, oracle);
    forall a | LeftBehind(s0, t, a) ensures !Settled(s, a, a) {
      StillOpen(s0, t, oracle, a);
    }
    forall a | LeftUnmarked(s0, t, a) ensures !Settled(s, a, a) {
      StillUnused(s0, t, oracle, a);
    }
    if forall a :: !LeftBehind(s0, t, a) && !LeftUnmarked(s0, t, a) {
      forall a, b | 0 <= a < |s.hosts| && 0 <= b < |s.hosts| ensures Settled(s, a, b) {
        SettledUnlessLeft(s0, t, oracle, a, b);
      }
    }
  }

  // ---------------------------------------------------------------- the outcomes determine the run

  lemma {:induction false} GreedyPrefix(s0: State, t: seq<Event>, oracle: nat -> Outcome, k: nat)
    requires Greedy(s0, t, oracle) && k <= |t|
    ensures Greedy(s0, t[..k], oracle)
    ensures k < |t| ==> !Stopped(t[..k]) && Due(Replay(s0, t[..k]), t[..k], oracle, t[k])
  {
    assert DueAt(s0, t, oracle, k);
    forall l ensures DueAt(s0, t[..k], oracle, l) {
      assert DueAt(s0, t, oracle, l);
      if 0 <= l < k {
        assert t[..k][..l] == t[..l];
      }
    }
  }

  /** Nothing is due where nothing is to be done. */
  lemma {:induction false} NotQuiet(s: State, e: Event)
    requires Allowed(s, e)
    ensures !Quiet(s, PlaceOf(e).0, PlaceOf(e).1) && 0 <= PlaceOf(e).0 < |s.hosts| && 0 <= PlaceOf(e).1 < |s.hosts|
  {}

  lemma {:induction false} DueUnique(s: State, t: seq<Event>, oracle: nat -> Outcome, e: Event, f: Event)
    requires Due(s, t, oracle, e) && Due(s, t, oracle, f)
    ensures e == f
  {
    NotQuiet(s, e);
    NotQuiet(s, f);
    if Before(PlaceOf(e), PlaceOf(f)) {
      QuietBetween(s, Resume(t), PlaceOf(f), PlaceOf(e).0, PlaceOf(e).1);
    } else if Before(PlaceOf(f), PlaceOf(e)) {
      QuietBetween(s, Resume(t), PlaceOf(e), PlaceOf(f).0, PlaceOf(f).1);
    }
  }

  lemma {:induction false} SameNext(s0: State, t: seq<Event>, u: seq<Event>, oracle: nat -> Outcome, p: seq<Event>)
    requires Greedy(s0, t, oracle) && Greedy(s0, u, oracle) && p < t && p < u
    ensures t[|p|] == u[|p|]
  {
    GreedyPrefix(s0, t, oracle, |p|);
    GreedyPrefix(s0, u, oracle, |p|);
    assert t[..|p|] == p && u[..|p|] == p;
    DueUnique(Replay(s0, p), p, oracle, t[|p|], u[|p|]);
  }

  lemma {:induction false} SamePrefix(s0: State, t: seq<Event>, u: seq<Event>, oracle: nat -> Outcome, k: nat)
    requires Greedy(s0, t, oracle) && Greedy(s0, u, oracle) && k <= |t| && k <= |u|
    ensures t[..k] <= u
  {
    if k > 0 {
      SamePrefix(s0, t, u, oracle, k - 1);
      SameNext(s0, t, u, oracle, t[..k - 1]);
      OneMore(t, u, k - 1);
    }
  }

  lemma OneMore(t: seq<Event>, u: seq<Event>, k: nat)
    requires k < |t| && k < |u| && t[..k] <= u && t[k] == u[k]
    ensures t[..k + 1] <= u
  {}

  lemma {:induction false} NothingDue(s0: State, t: seq<Event>, oracle: nat -> Outcome, e: Event)
    requires Finished(s0, t, oracle) && !Stopped(t)
    ensures !Due(Replay(s0, t), t, oracle, e)
  {
    var s := Replay(s0, t);
    SameSize(s0, t, oracle);
    if Allowed(s, e) {
      NotQuiet(s, e);
      if !Before(PlaceOf(e), Resume(t)) {
        QuietBetween(s, Resume(t), (|s0.hosts|, 0), PlaceOf(e).0, PlaceOf(e).1);
      }
    }
  }

  lemma {:induction false} NoneAfter(s0: State, t: seq<Event>, u: seq<Event>, oracle: nat -> Outcome)
    requires Finished(s0, t, oracle) && Greedy(s0, u, oracle)
    ensures |u| <= |t|
  {
    if |u| > |t| {
      SamePrefix(s0, t, u, oracle, |t|);
      assert t[..|t|] == t == u[..|t|];
      GreedyPrefix(s0, u, oracle, |t|);
      NothingDue(s0, t, oracle, u[|t|]);
    }
  }

  lemma {:induction false} SameSize(s0: State, t: seq<Event>, oracle: nat -> Outcome)
    requires Greedy(s0, t, oracle)
    ensures |Replay(s0, t).hosts| == |s0.hosts|
  {
    if t != [] {
      LastDue(s0, t, oracle);
      SameSize(s0, t[..|t| - 1], oracle);
    }
  }

  /** The hosts, the matrix and the outcomes of the experiments determine the whole run. */
  lemma {:induction false} RunDetermined(s0: State, t: seq<Event>, u: seq<Event>, oracle: nat -> Outcome)
    requires Finished(s0, t, oracle) && Finished(s0, u, oracle)
    ensures t == u
  {
    NoneAfter(s0, t, u, oracle);
    NoneAfter(s0, u, t, oracle);
    SamePrefix(s0, t, u, oracle, |t|);
    assert t[..|t|] == t;
  }
}
