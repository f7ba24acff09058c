/**
 The timers of the reactor in measurement_proxy/tun2socks/system/BReactor_badvpn.c: a tree of
 running timers and a list of expired ones that wait to be dispatched.
 */
module ReactorTimers {
  import opened Basics
  import opened AvlOrder
  import opened Sequences
  import opened TimeOrder
  import TimeTree
  import CAvl
  import CAvlQueries

  type Timer = int

  datatype TimerState = INACTIVE | RUNNING | EXPIRED

  // ---------------------------------------------------------------- the timers as lists

  /** The running timers in the order of the tree and the expired ones in the order of the list. */
  datatype Timers = Timers(time: map<Timer, int>, running: seq<Timer>, expired: seq<Timer>)

  datatype Event =
    | InitTimer(timer: Timer)
    | SetTimer(timer: Timer, at: int)
    | RemoveTimer(timer: Timer)
    | Expire(now: int)        // move_expired_timers
    | ExpireFirst(now: int)   // move_first_timers, after a wait that reached the first time
    | Dispatch(timer: Timer)

  /** The running timers up to `k` are due at `now`, the others are not. */
  ghost predicate DueUpTo(s: Timers, now: int, k: int) {
    && 0 <= k <= |s.running|
    && (forall i :: 0 <= i < k ==> TimeOf(s.time, s.running[i]) <= now)
    && (forall i :: k <= i < |s.running| ==> TimeOf(s.time, s.running[i]) > now)
  }

  ghost predicate Moved(s: Timers, k: int, s': Timers) {
    0 <= k <= |s.running| && s' == Timers(s.time, s.running[k..], s.expired + s.running[..k])
  }

  /** Taking a timer out of both lists. */
  ghost function Removed(s: Timers, t: Timer): Timers {
    Timers(s.time, Without(s.running, t), Without(s.expired, t))
  }

  ghost predicate Next(s: Timers, e: Event, s': Timers) {
    match e
    case InitTimer(t) => t !in s.running + s.expired && s' == s.(time := s.time[t := 0])
    case SetTimer(t, at) =>
      && s'.time == s.time[t := at] && s'.expired == Without(s.expired, t)
      && Sorted(CompareTimes(s'.time), s'.running) && exists i :: InsertedAt(Without(s.running, t), s'.running, t, i)
    case RemoveTimer(t) => s' == Removed(s, t)
    case Expire(now) => exists k :: DueUpTo(s, now, k) && Moved(s, k, s')
    case ExpireFirst(now) =>
      && s.running != [] && TimeOf(s.time, s.running[0]) <= now
      && exists k :: DueUpTo(s, TimeOf(s.time, s.running[0]), k) && Moved(s, k, s')
    case Dispatch(t) => s.expired == [t] + s'.expired && s'.running == s.running && s'.time == s.time
  }

  /** No timer is in a list twice or in both, and the running ones are in order. */
  ghost predicate Inv(s: Timers) {
    && Sorted(CompareTimes(s.time), s.running) && NoRepeats(s.expired)
    && (forall t :: t in s.running ==> t !in s.expired)
  }

  // ---------------------------------------------------------------- runs

  ghost predicate Active(s: Timers, t: Timer) {
    t in s.running || t in s.expired
  }

  ghost predicate IsRun(ss: seq<Timers>, es: seq<Event>) {
    |ss| == |es| + 1 && forall i :: 0 <= i < |es| ==> Next(ss[i], es[i], ss[i + 1])
  }

  /** Only setting a timer makes it active. */
  lemma {:induction false} StaysInactive(s: Timers, e: Event, s': Timers, t: Timer)
    requires Next(s, e, s') && !Active(s, t) && !(e.SetTimer? && e.timer == t)
    ensures !Active(s', t) && e != Dispatch(t)
  {
    match e {
      case SetTimer(u, _) =>
        WithoutKeeps(s.running, u);
        WithoutKeeps(s.expired, u);
        var i :| InsertedAt(Without(s.running, u), s'.running, u, i);
        InsertedNodes(Without(s.running, u), s'.running, u, i);
      case RemoveTimer(u) =>
        WithoutKeeps(s.running, u);
        WithoutKeeps(s.expired, u);
      case _ =>
    }
  }

  /** A timer that is in neither list is not dispatched before it is set. */
  lemma {:induction false} InactiveUntilSet(ss: seq<Timers>, es: seq<Event>, i: nat, j: nat, t: Timer)
    requires IsRun(ss, es) && i <= j < |es| && !Active(ss[i], t)
    requires forall k :: i <= k < j ==> !(es[k].SetTimer? && es[k].timer == t)
    ensures es[j] != Dispatch(t) && !Active(ss[j], t)
    decreases j
  {
    if i < j {
      InactiveUntilSet(ss, es, i, j - 1, t);
      StaysInactive(ss[j - 1], es[j - 1], ss[j], t);
    }
    if es[j] == Dispatch(t) {
      StaysInactive(ss[j], es[j], ss[j + 1], t);
    }
  }

  /** At step `k` the clock had reached the time for which `t` was set. */
  ghost predicate DueAt(s: Timers, e: Event, t: Timer) {
    (e.Expire? || e.ExpireFirst?) && t in s.running && TimeOf(s.time, t) <= e.now
  }

  lemma {:induction false} ExpiredOnlyIfDue(s: Timers, e: Event, s': Timers, t: Timer)
    requires Next(s, e, s') && t in s'.expired
    ensures (t in s.expired && !(e.SetTimer? && e.timer == t)) || DueAt(s, e, t)
  {
    match e {
      case SetTimer(u, _) => WithoutKeeps(s.expired, u);
      case RemoveTimer(u) => WithoutKeeps(s.expired, u);
      case _ =>
    }
  }

  /** A timer waits to be dispatched only since a time it was due, and was not set anew meanwhile. */
  lemma {:induction false} ExpiredSince(ss: seq<Timers>, es: seq<Event>, j: nat, t: Timer) returns (k: nat)
    requires IsRun(ss, es) && ss[0].expired == [] && j <= |es| && t in ss[j].expired
    ensures k < j && DueAt(ss[k], es[k], t)
    ensures forall l :: k <= l < j ==> !(es[l].SetTimer? && es[l].timer == t)
    decreases j
  {
    ExpiredOnlyIfDue(ss[j - 1], es[j - 1], ss[j], t);
    if DueAt(ss[j - 1], es[j - 1], t) {
      k := j - 1;
    } else {
      k := ExpiredSince(ss, es, j - 1, t);
    }
  }

  /** No timer is dispatched before its time. */
  lemma {:induction false} NeverDispatchedEarly(ss: seq<Timers>, es: seq<Event>, j: nat, t: Timer)
    requires IsRun(ss, es) && ss[0].expired == [] && j < |es| && es[j] == Dispatch(t)
    ensures exists k :: 0 <= k < j && DueAt(ss[k], es[k], t)
                        && forall l :: k <= l < j ==> !(es[l].SetTimer? && es[l].timer == t)
  {
    assert Next(ss[j], es[j], ss[j + 1]);
    var k := ExpiredSince(ss, es, j, t);
  }

  // ---------------------------------------------------------------- the invariant

  lemma {:induction false} SortedNoRepeats(time: map<Timer, int>, s: seq<Timer>)
    requires Sorted(CompareTimes(time), s)
    ensures NoRepeats(s)
  {
    CompareOrdering(time);
    forall i, j | 0 <= i < j < |s| ensures s[i] != s[j] {
      assert CompareTimes(time)(s[i], s[j]) < 0 && Opposite(CompareTimes(time), s[i], s[i]);
    }
  }

  lemma {:induction false} SplitSorted(cmp: Compare, s: seq<Timer>, k: nat)
    requires Sorted(cmp, s) && k <= |s|
    ensures Sorted(cmp, s[k..])
  {
    var b := s[k..];
    forall i, j | 0 <= i < j < |b| ensures cmp(b[i], b[j]) < 0 {
      assert cmp(s[k + i], s[k + j]) < 0;
    }
  }

  lemma {:induction false} SplitApart(s: seq<Timer>, k: nat)
    requires NoRepeats(s) && k <= |s|
    ensures NoRepeats(s[..k]) && forall t :: t in s[k..] ==> t !in s[..k]
    ensures forall t :: t in s <==> t in s[..k] || t in s[k..]
  {
    assert s == s[..k] + s[k..];
    forall t | t in s[k..] ensures t !in s[..k] {
      var j :| 0 <= j < |s[k..]| && s[k..][j] == t;
      assert s[k + j] == t;
    }
  }

  lemma {:induction false} MovedKeepsInv(s: Timers, k: int, s': Timers)
    requires Inv(s) && Moved(s, k, s')
    ensures Inv(s')
  {
    SortedNoRepeats(s.time, s.running);
    SplitSorted(CompareTimes(s.time), s.running, k);
    SplitApart(s.running, k);
    JoinedNoRepeats(s.expired, s.running[..k]);
  }

  lemma JoinedNoRepeats(a: seq<Timer>, b: seq<Timer>)
    requires NoRepeats(a) && NoRepeats(b) && forall t :: t in b ==> t !in a
    ensures NoRepeats(a + b)
  {
    var s := a + b;
    forall i, j | 0 <= i < j < |s| ensures s[i] != s[j] {
      assert i < |a| ==> s[i] in a;
      assert j >= |a| ==> s[j] in b;
    }
  }

  /** After the first running timer that is not due, none is. */
  lemma {:induction false} DueSplit(s: Timers, now: int, k: int)
    requires Sorted(CompareTimes(s.time), s.running) && 0 <= k <= |s.running|
    requires forall i :: 0 <= i < k ==> TimeOf(s.time, s.running[i]) <= now
    requires k < |s.running| ==> TimeOf(s.time, s.running[k]) > now
    ensures DueUpTo(s, now, k)
  {
    forall i | k < i < |s.running| ensures TimeOf(s.time, s.running[i]) > now {
      assert CompareTimes(s.time)(s.running[k], s.running[i]) < 0;
    }
  }

  /** The state of each timer says in which of the two collections it is, if in any. */
  ghost predicate StatesMatch(s: Timers, state: map<Timer, TimerState>) {
    && (forall t :: t in s.running <==> t in state && state[t] == RUNNING)
    && (forall t :: t in s.expired <==> t in state && state[t] == EXPIRED)
    && state.Keys <= s.time.Keys && NULL !in state
  }

  lemma FirstMoved(s: seq<Timer>)
    requires s != [] && NoRepeats(s)
    ensures forall t :: t in s[1..] <==> t in s && t != s[0]
  {
    assert s == [s[0]] + s[1..];
  }

  lemma {:induction false} InitKeeps(s: Timers, state: map<Timer, TimerState>, t: Timer)
    requires Inv(s) && StatesMatch(s, state) && t !in state && t != NULL
    ensures Inv(s.(time := s.time[t := 0])) && StatesMatch(s.(time := s.time[t := 0]), state[t := INACTIVE])
  {
    SameTimes(s.time, s.time[t := 0], s.running);
  }

  lemma {:induction false} DispatchKeeps(s: Timers, state: map<Timer, TimerState>)
    requires Inv(s) && StatesMatch(s, state) && s.expired != []
    ensures var t, s' := s.expired[0], s.(expired := s.expired[1..]);
            Inv(s') && StatesMatch(s', state[t := INACTIVE]) && Next(s, Dispatch(t), s')
  {
    FirstMoved(s.expired);
    assert s.expired == [s.expired[0]] + s.expired[1..];
  }

  lemma {:induction false} MovedStates(s: Timers, state: map<Timer, TimerState>, s': Timers)
    requires Inv(s) && StatesMatch(s, state) && Moved(s, 1, s')
    ensures StatesMatch(s', state[s.running[0] := EXPIRED])
  {
    SortedNoRepeats(s.time, s.running);
    FirstMoved(s.running);
    var t := s.running[0];
    assert t in s.running && s'.expired == s.expired + [t];
    assert forall u :: u in s'.expired <==> u in s.expired || u == t;
  }

  lemma {:induction false} RemovedKeeps(s: Timers, state: map<Timer, TimerState>, t: Timer)
    requires Inv(s) && StatesMatch(s, state) && t in state
    ensures Inv(Removed(s, t)) && StatesMatch(Removed(s, t), state[t := INACTIVE])
  {
    RemovedInv(s, t);
    RemovedStates(s, state, t);
  }

  lemma {:induction false} RemovedInv(s: Timers, t: Timer)
    requires Inv(s)
    ensures Inv(Removed(s, t))
  {
    RemovedSorts(s, t);
    WithoutKeeps(s.running, t);
    WithoutKeeps(s.expired, t);
  }

  lemma {:induction false} RemovedStates(s: Timers, state: map<Timer, TimerState>, t: Timer)
    requires StatesMatch(s, state) && t in state
    ensures StatesMatch(Removed(s, t), state[t := INACTIVE])
  {
    WithoutKeeps(s.running, t);
    WithoutKeeps(s.expired, t);
  }

  lemma {:induction false} Elsewhere(s: Timers, state: map<Timer, TimerState>, t: Timer)
    requires StatesMatch(s, state) && t in state
    ensures state[t] != RUNNING ==> Without(s.running, t) == s.running
    ensures state[t] != EXPIRED ==> Without(s.expired, t) == s.expired
    ensures state[t] == INACTIVE ==> state[t := INACTIVE] == state
  {
    if t !in s.running {
      WithoutAbsent(s.running, t);
    }
    if t !in s.expired {
      WithoutAbsent(s.expired, t);
    }
  }

  lemma {:induction false} RemovedSorts(s: Timers, t: Timer)
    requires Inv(s)
    ensures Sorted(CompareTimes(s.time), Without(s.running, t))
    ensures t !in s.running ==> Without(s.running, t) == s.running
  {
    if t in s.running {
      var i :| 0 <= i < |s.running| && s.running[i] == t;
      SortedNoRepeats(s.time, s.running);
      WithoutAt(s.running, t, i);
      CompareOrdering(s.time);
      RemovedSorted(CompareTimes(s.time), s.running, Without(s.running, t), t, i);
    } else {
      WithoutAbsent(s.running, t);
    }
  }

  /** A new time for a timer outside the tree does not disturb it. */
  lemma {:induction false} StartsApart(s: Timers, state: map<Timer, TimerState>, t: Timer, at: int)
    requires Inv(s) && StatesMatch(s, state) && t in state && state[t] == INACTIVE
    ensures t !in s.running && t != NULL && Sorted(CompareTimes(s.time[t := at]), s.running)
  {
    SameTimes(s.time, s.time[t := at], s.running);
  }

  /** A timer that was taken out of both lists starts running. */
  lemma {:induction false} StartedKeeps(s: Timers, state: map<Timer, TimerState>, t: Timer, at: int, s': Timers, i: int)
    requires var r := Removed(s, t); Inv(r) && StatesMatch(r, state) && t in state && state[t] == INACTIVE
    requires s'.expired == Without(s.expired, t) && s'.time == s.time[t := at]
    requires InsertedAt(Without(s.running, t), s'.running, t, i) && Sorted(CompareTimes(s'.time), s'.running)
    ensures Inv(s') && StatesMatch(s', state[t := RUNNING]) && Next(s, SetTimer(t, at), s')
  {
    InsertedNodes(Without(s.running, t), s'.running, t, i);
  }

  /** Every event keeps the invariant. */
  lemma {:induction false} NextKeepsInv(s: Timers, e: Event, s': Timers)
    requires Inv(s) && Next(s, e, s')
    ensures Inv(s')
  {
    match e {
      case InitTimer(t) => SameTimes(s.time, s'.time, s.running);
      case SetTimer(t, _) =>
        RemovedInv(s, t);
        WithoutKeeps(s.expired, t);
        var i :| InsertedAt(Without(s.running, t), s'.running, t, i);
        InsertedNodes(Without(s.running, t), s'.running, t, i);
      case RemoveTimer(t) => RemovedInv(s, t);
      case Expire(now) =>
        var k :| DueUpTo(s, now, k) && Moved(s, k, s');
        MovedKeepsInv(s, k, s');
      case ExpireFirst(_) =>
        var k :| DueUpTo(s, TimeOf(s.time, s.running[0]), k) && Moved(s, k, s');
        MovedKeepsInv(s, k, s');
      case Dispatch(t) =>
        assert s'.expired == s.expired[1..];
    }
  }

  lemma {:induction false} RunInv(ss: seq<Timers>, es: seq<Event>, i: nat)
    requires IsRun(ss, es) && Inv(ss[0]) && i < |ss|
    ensures Inv(ss[i])
  {
    if i > 0 {
      RunInv(ss, es, i - 1);
      NextKeepsInv(ss[i - 1], es[i - 1], ss[i]);
    }
  }

  /** A timer that is removed or dispatched is then in neither list. */
  lemma {:induction false} MadeInactive(s: Timers, e: Event, s': Timers, t: Timer)
    requires Inv(s) && Next(s, e, s') && (e == RemoveTimer(t) || e == Dispatch(t))
    ensures !Active(s', t)
  {
    if e == RemoveTimer(t) {
      WithoutKeeps(s.running, t);
      WithoutKeeps(s.expired, t);
    } else {
      assert s.expired[0] == t && s'.expired == s.expired[1..];
    }
  }

  /** A timer that was removed, or dispatched, is not dispatched before it is set again. */
  lemma {:induction false} NotDispatchedUnlessSet(ss: seq<Timers>, es: seq<Event>, i: nat, j: nat, t: Timer)
    requires IsRun(ss, es) && Inv(ss[0]) && i < j < |es| && (es[i] == RemoveTimer(t) || es[i] == Dispatch(t))
    requires forall k :: i < k < j ==> !(es[k].SetTimer? && es[k].timer == t)
    ensures es[j] != Dispatch(t) && !Active(ss[j], t)
  {
    RunInv(ss, es, i);
    MadeInactive(ss[i], es[i], ss[i + 1], t);
    InactiveUntilSet(ss, es, i + 1, j, t);
  }

  // ---------------------------------------------------------------- the reactor

  const INT64_MAX: int := 0x7FFF_FFFF_FFFF_FFFF
  const INT64_MIN: int := -INT64_MAX - 1

  /** btime_add: the sum of two 64-bit times, or the nearest time that fits. */
  function AddTimes(t1: int, t2: int): (sum: int)
    ensures INT64_MIN <= sum <= INT64_MAX
    ensures INT64_MIN <= t1 + t2 <= INT64_MAX ==> sum == t1 + t2
  {
    if t1 + t2 > INT64_MAX then INT64_MAX else if t1 + t2 < INT64_MIN then INT64_MIN else t1 + t2
  }

  class Reactor {
    const timersTree: CAvl.CAvl<()>
    var timersExpiredList: seq<Timer>
    var absTime: map<Timer, int>
    var state: map<Timer, TimerState>

    ghost function Abs(): Timers
      reads this, timersTree
    {
      Timers(absTime, timersTree.Contents(), timersExpiredList)
    }

    ghost predicate Valid()
      reads this, timersTree
    {
      timersTree.Valid() && Inv(Abs()) && StatesMatch(Abs(), state)
    }

    constructor ()
      ensures Valid() && Abs() == Timers(map[], [], []) && state == map[] && fresh(timersTree)
    {
      var tree := TimeTree.NewTree();
      timersTree := tree;
      timersExpiredList, absTime, state := [], map[], map[];
    }

    /** BSmallTimer_Init */
    method Init(t: Timer)
      requires Valid() && t !in state && t != NULL
      modifies this
      ensures Valid() && state == old(state)[t := INACTIVE]
      ensures Next(old(Abs()), InitTimer(t), Abs())
    {
      InitKeeps(Abs(), state, t);
      absTime := absTime[t := 0];
      state := state[t := INACTIVE];
    }

    /** Moves the first running timer to the end of the expired list. */
    method ExpireOne(t: Timer)
      requires Valid() && timersTree.Contents() != [] && t == timersTree.Contents()[0]
      modifies this`timersExpiredList, this`state, timersTree
      ensures Valid() && Moved(old(Abs()), 1, Abs()) && state == old(state)[t := EXPIRED]
    {
      ghost var s, states := Abs(), state;
      ghost var pos := timersTree.Remove(t);
      SortedNoRepeats(absTime, s.running);
      assert pos == 0;
      assert timersTree.Contents() == s.running[1..];
      timersExpiredList := timersExpiredList + [t];
      state := state[t := EXPIRED];
      assert [t] == s.running[..1];
      MovedKeepsInv(s, 1, Abs());
      MovedStates(s, states, Abs());
    }

    /** One round of move_expired_timers. */
    method MoveOne(timer: Timer, ghost s: Timers, ghost now: int, ghost k: nat)
      requires Valid() && MovedDue(s, now, k, Abs()) && timersTree.Contents() != []
      requires timer == timersTree.Contents()[0] && TimeOf(absTime, timer) <= now
      modifies this`timersExpiredList, this`state, timersTree
      ensures Valid() && MovedDue(s, now, k + 1, Abs()) && |timersTree.Contents()| == old(|timersTree.Contents()|) - 1
    {
      ghost var s1 := Abs();
      ExpireOne(timer);
      MovedOneMore(s, now, k, s1, Abs());
    }

    /** move_expired_timers: moves the timers that are due at `now`, the earliest first. */
    method MoveExpiredTimers(now: int) returns (moved: bool)
      requires Valid()
      modifies this`timersExpiredList, this`state, timersTree
      ensures Valid() && Next(old(Abs()), Expire(now), Abs())
      ensures moved <==> timersExpiredList != old(timersExpiredList)
    {
      ghost var s := Abs();
      ghost var k: nat := 0;
      moved := false;
      MovedNone(s);
      var timer := CAvlQueries.GetFirst(timersTree);
      while timer != NULL && absTime[timer] <= now
        invariant Valid() && MovedDue(s, now, k, Abs()) && timer == At(timersTree.Contents(), 0)
        invariant timer == NULL <==> timersTree.Contents() == []
        invariant moved <==> k > 0
        decreases |timersTree.Contents()|
      {
        moved := true;
        MoveOne(timer, s, now, k);
        k := k + 1;
        timer := CAvlQueries.GetFirst(timersTree);
      }
      AllDueMoved(s, now, k, Abs());
    }

    /** move_first_timers: moves the first timer and those with the same time. */
    method MoveFirstTimers(ghost now: int)
      requires Valid() && timersTree.Contents() != [] && TimeOf(absTime, timersTree.Contents()[0]) <= now
      modifies this`timersExpiredList, this`state, timersTree
      ensures Valid() && Next(old(Abs()), ExpireFirst(now), Abs())
    {
      ghost var s := Abs();
      var timer := CAvlQueries.GetFirst(timersTree);
      var firstTime := absTime[timer];
      ExpireOne(timer);
      ghost var s1 := Abs();
      var _ := MoveExpiredTimers(firstTime);
      ghost var k :| DueUpTo(s1, firstTime, k) && Moved(s1, k, Abs());
      MovedAfterFirst(s, firstTime, s1, k, Abs());
    }

    /** The timer is taken out of the list its state says it is in. */
    method Unlink(t: Timer)
      requires timersTree.Valid() && NoRepeats(timersTree.Contents()) && StatesMatch(Abs(), state) && t in state && state[t] != INACTIVE
      modifies this`timersExpiredList, timersTree
      ensures timersTree.Valid() && Abs() == Removed(old(Abs()), t)
    {
      Elsewhere(Abs(), state, t);
      if state[t] == EXPIRED {
        timersExpiredList := Without(timersExpiredList, t);
      } else {
        ghost var s := timersTree.Contents();
        ghost var pos := timersTree.Remove(t);
        WithoutAt(s, t, pos);
      }
    }

    /** BReactor_RemoveSmallTimer */
    method RemoveSmallTimer(t: Timer)
      requires Valid() && t in state
      modifies this`timersExpiredList, this`state, timersTree
      ensures Valid() && Abs() == Removed(old(Abs()), t) && state == old(state)[t := INACTIVE]
    {
      RemovedKeeps(Abs(), state, t);
      if state[t] == INACTIVE {
        Elsewhere(Abs(), state, t);
        return;
      }
      SortedNoRepeats(absTime, timersTree.Contents());
      Unlink(t);
      state := state[t := INACTIVE];
    }

    /** BReactor_SetSmallTimer; `now` is the time read for a relative mode. The insertion never finds an equal timer. */
    method SetSmallTimer(t: Timer, relative: bool, time: int, now: int)
      requires Valid() && t in state
      modifies this, timersTree
      ensures Valid() && state == old(state)[t := RUNNING]
      ensures Next(old(Abs()), SetTimer(t, if relative then AddTimes(now, time) else time), Abs())
    {
      ghost var s, states := Abs(), state;
      RemoveSmallTimer(t);
      Overwritten(states, t, INACTIVE, RUNNING);
      Start(t, if relative then AddTimes(now, time) else time, s);
    }

    method Start(t: Timer, at: int, ghost s: Timers)
      requires Valid() && Abs() == Removed(s, t) && t in state && state[t] == INACTIVE
      modifies this`absTime, this`state, timersTree
      ensures Valid() && Next(s, SetTimer(t, at), Abs()) && state == old(state)[t := RUNNING]
    {
      ghost var states := state;
      StartsApart(Abs(), state, t, at);
      absTime := absTime[t := at];
      ghost var pos := TimeTree.Insert(timersTree, absTime, t);
      state := state[t := RUNNING];
      StartedKeeps(s, states, t, at, Abs(), pos);
    }

    /** The dispatch of a timer in BReactor_Exec, up to the call of its handler. */
    method DispatchTimer() returns (t: Timer)
      requires Valid() && timersExpiredList != []
      modifies this`timersExpiredList, this`state
      ensures Valid() && Next(old(Abs()), Dispatch(t), Abs()) && state == old(state)[t := INACTIVE]
    {
      t := timersExpiredList[0];
      DispatchKeeps(Abs(), state);
      timersExpiredList := timersExpiredList[1..];
      state := state[t := INACTIVE];
    }
  }

  /** The first `k` running timers were moved, and were due. */
  ghost predicate MovedDue(s: Timers, now: int, k: int, s': Timers) {
    Moved(s, k, s') && forall i :: 0 <= i < k ==> TimeOf(s.time, s.running[i]) <= now
  }

  lemma {:induction false} MovedTwice(s: Timers, k: int, s1: Timers, l: int, s2: Timers)
    requires Moved(s, k, s1) && Moved(s1, l, s2)
    ensures Moved(s, k + l, s2)
  {
    assert s.running[..k] + s.running[k..][..l] == s.running[..k + l];
    assert s.expired + s.running[..k] + s.running[k..][..l] == s.expired + (s.running[..k] + s.running[k..][..l]);
    assert s.running[k..][l..] == s.running[k + l..];
  }

  lemma {:induction false} MovedOneMore(s: Timers, now: int, k: int, s1: Timers, s2: Timers)
    requires MovedDue(s, now, k, s1) && Moved(s1, 1, s2) && TimeOf(s1.time, s1.running[0]) <= now
    ensures MovedDue(s, now, k + 1, s2)
  {
    MovedTwice(s, k, s1, 1, s2);
    assert s1.running[0] == s.running[k];
  }

  lemma {:induction false} AllDueMoved(s: Timers, now: int, k: int, s': Timers)
    requires Inv(s) && MovedDue(s, now, k, s') && (s'.running != [] ==> TimeOf(s'.time, s'.running[0]) > now)
    ensures Next(s, Expire(now), s') && (s'.expired != s.expired <==> k > 0)
  {
    assert k < |s.running| ==> s'.running[0] == s.running[k];
    DueSplit(s, now, k);
    assert k == 0 ==> s.running[..k] == [];
    assert |s'.expired| == |s.expired| + k;
  }

  lemma {:induction false} MovedAfterFirst(s: Timers, t: int, s1: Timers, k: int, s2: Timers)
    requires Inv(s) && Moved(s, 1, s1) && DueUpTo(s1, t, k) && Moved(s1, k, s2) && TimeOf(s.time, s.running[0]) == t
    ensures DueUpTo(s, t, k + 1) && Moved(s, k + 1, s2)
  {
    MovedTwice(s, 1, s1, k, s2);
    assert forall i :: 1 <= i < |s.running| ==> s.running[i] == s1.running[i - 1];
  }

  lemma MovedNone(s: Timers)
    ensures Moved(s, 0, s)
  {
    assert s.running[..0] == [] && s.expired + [] == s.expired;
  }
}
