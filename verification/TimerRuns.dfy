/**
 What the runs of the timers in system/BReactor_badvpn.c promise, told from their events: for when
 a timer was set, when it is due, and in which order timers are dispatched.
 */
module TimerRuns {
  import opened AvlOrder
  import opened Sequences
  import opened TimeOrder
  import opened ReactorTimers

  /** The run starts without timers that run or wait. */
  ghost predicate RunFromStart(ss: seq<Timers>, es: seq<Event>) {
    IsRun(ss, es) && ss[0].running == [] && ss[0].expired == []
  }

  /** The event sets the timer, removes it or dispatches it. */
  predicate About(e: Event, t: Timer) {
    (e.SetTimer? || e.RemoveTimer? || e.Dispatch?) && e.timer == t
  }

  lemma {:induction false} StartInv(ss: seq<Timers>, es: seq<Event>, k: nat)
    requires RunFromStart(ss, es) && k < |ss|
    ensures Inv(ss[k])
  {
    RunInv(ss, es, k);
  }

  lemma {:induction false} TimeStep(s: Timers, e: Event, s': Timers, t: Timer)
    requires Inv(s) && Next(s, e, s') && Active(s', t) && !(e.SetTimer? && e.timer == t)
    ensures Active(s, t) && !About(e, t) && TimeOf(s.time, t) == TimeOf(s'.time, t)
  {
    if !Active(s, t) {
      StaysInactive(s, e, s', t);
    }
    if e == RemoveTimer(t) || e == Dispatch(t) {
      MadeInactive(s, e, s', t);
    }
  }

  /** An active timer has the time for which it was set last, and was left alone since. */
  lemma {:induction false} SetFor(ss: seq<Timers>, es: seq<Event>, k: nat, t: Timer) returns (i: nat)
    requires RunFromStart(ss, es) && k < |ss| && Active(ss[k], t)
    ensures i < k && es[i] == SetTimer(t, TimeOf(ss[k].time, t)) && forall l :: i < l < k ==> !About(es[l], t)
    decreases k
  {
    var e := es[k - 1];
    if e.SetTimer? && e.timer == t {
      i := k - 1;
    } else {
      StartInv(ss, es, k - 1);
      TimeStep(ss[k - 1], e, ss[k], t);
      i := SetFor(ss, es, k - 1, t);
    }
  }

  /** The clock was seen to have reached `at`. */
  predicate Reached(e: Event, at: int) {
    (e.Expire? || e.ExpireFirst?) && at <= e.now
  }

  /** A timer is dispatched only after it was set for some time, left alone since, and that time was reached. */
  lemma {:induction false} DispatchedWhenDue(ss: seq<Timers>, es: seq<Event>, j: nat, t: Timer) returns (i: nat, at: int, k: nat)
    requires RunFromStart(ss, es) && j < |es| && es[j] == Dispatch(t)
    ensures i < k < j && es[i] == SetTimer(t, at) && Reached(es[k], at) && forall l :: i < l < j ==> !About(es[l], t)
  {
    assert Next(ss[j], es[j], ss[j + 1]);
    assert t in ss[j].expired;
    k := ExpiredSince(ss, es, j, t);
    i := SetFor(ss, es, j, t);
    at := TimeOf(ss[j].time, t);
    var i' := SetFor(ss, es, k, t);
    assert i < k;
    assert i == i';
  }

  /** Once a time was reached by move_expired_timers, no timer set for that time or earlier still runs. */
  lemma {:induction false} ExpiredInTime(ss: seq<Timers>, es: seq<Event>, k: nat, t: Timer) returns (i: nat, at: int)
    requires RunFromStart(ss, es) && k < |es| && es[k].Expire? && t in ss[k + 1].running
    ensures i < k && es[i] == SetTimer(t, at) && at > es[k].now && forall l :: i < l < k ==> !About(es[l], t)
  {
    var s, s' := ss[k], ss[k + 1];
    var n :| DueUpTo(s, es[k].now, n) && Moved(s, n, s');
    var p :| 0 <= p < |s'.running| && s'.running[p] == t;
    assert s.running[n + p] == t;
    i := SetFor(ss, es, k, t);
    at := TimeOf(s.time, t);
  }

  // ---------------------------------------------------------------- the order of dispatch

  /** `t` waits in the list, and `u` does not wait in front of it. */
  ghost predicate WaitsFirst(expired: seq<Timer>, t: Timer, u: Timer) {
    exists p :: 0 <= p < |expired| && expired[p] == t && forall q :: 0 <= q < p ==> expired[q] != u
  }

  lemma {:induction false} FirstWithout(s: seq<Timer>, t: Timer, u: Timer, x: Timer)
    requires WaitsFirst(s, t, u) && x != t
    ensures WaitsFirst(Without(s, x), t, u)
  {
    var p :| 0 <= p < |s| && s[p] == t && forall q :: 0 <= q < p ==> s[q] != u;
    if p == 0 {
      assert Without(s, x)[0] == t;
    } else {
      assert s[1..][p - 1] == t && forall q :: 0 <= q < p - 1 ==> s[1..][q] == s[q + 1];
      FirstWithout(s[1..], t, u, x);
      var r := Without(s[1..], x);
      var p' :| 0 <= p' < |r| && r[p'] == t && forall q :: 0 <= q < p' ==> r[q] != u;
      var d := if s[0] == x then 0 else 1;
      assert Without(s, x)[p' + d] == t && forall q :: 0 <= q < p' + d ==> Without(s, x)[q] == if q < d then s[0] else r[q - d];
    }
  }

  lemma {:induction false} FirstAppended(s: seq<Timer>, b: seq<Timer>, t: Timer, u: Timer)
    requires WaitsFirst(s, t, u)
    ensures WaitsFirst(s + b, t, u)
  {
    var p :| 0 <= p < |s| && s[p] == t && forall q :: 0 <= q < p ==> s[q] != u;
    assert (s + b)[p] == t && forall q :: 0 <= q < p ==> (s + b)[q] == s[q];
  }

  lemma {:induction false} FirstDispatched(s: seq<Timer>, s': seq<Timer>, t: Timer, u: Timer, x: Timer)
    requires WaitsFirst(s, t, u) && s == [x] + s' && x != t
    ensures x != u && WaitsFirst(s', t, u)
  {
    var p :| 0 <= p < |s| && s[p] == t && forall q :: 0 <= q < p ==> s[q] != u;
    assert s[0] == x && s'[p - 1] == t && forall q :: 0 <= q < p - 1 ==> s'[q] == s[q + 1];
  }

  /** Until it is set, removed or dispatched itself, a timer keeps its place before another, which is not dispatched. */
  lemma {:induction false} FirstStep(s: Timers, e: Event, s': Timers, t: Timer, u: Timer)
    requires Next(s, e, s') && WaitsFirst(s.expired, t, u) && !About(e, t) && t != u
    ensures WaitsFirst(s'.expired, t, u) && e != Dispatch(u)
  {
    match e {
      case InitTimer(_) =>
      case SetTimer(x, _) => FirstWithout(s.expired, t, u, x);
      case RemoveTimer(x) => FirstWithout(s.expired, t, u, x);
      case Expire(now) =>
        var k :| DueUpTo(s, now, k) && Moved(s, k, s');
        FirstAppended(s.expired, s.running[..k], t, u);
      case ExpireFirst(_) =>
        var k :| DueUpTo(s, TimeOf(s.time, s.running[0]), k) && Moved(s, k, s');
        FirstAppended(s.expired, s.running[..k], t, u);
      case Dispatch(x) => FirstDispatched(s.expired, s'.expired, t, u, x);
    }
  }

  lemma {:induction false} NotOvertaken(ss: seq<Timers>, es: seq<Event>, i: nat, j: nat, t: Timer, u: Timer)
    requires IsRun(ss, es) && i <= j < |es| && t != u && WaitsFirst(ss[i].expired, t, u)
    requires forall l :: i <= l <= j ==> !About(es[l], t)
    ensures es[j] != Dispatch(u) && WaitsFirst(ss[j].expired, t, u)
    decreases j
  {
    if i < j {
      NotOvertaken(ss, es, i, j - 1, t, u);
      FirstStep(ss[j - 1], es[j - 1], ss[j], t, u);
    }
    FirstStep(ss[j], es[j], ss[j + 1], t, u);
  }

  lemma {:induction false} PlacesInOrder(time: map<Timer, int>, s: seq<Timer>, p: nat, r: nat)
    requires Sorted(CompareTimes(time), s) && p < |s| && r < |s| && CompareTimes(time)(s[p], s[r]) < 0
    ensures p < r
  {
    CompareMeaning(time, s[r], s[p]);
  }

  lemma {:induction false} MovedInOrder(s: Timers, k: int, s': Timers, t: Timer, u: Timer)
    requires Inv(s) && Moved(s, k, s') && t in s.running[..k] && u in s.running[..k]
    requires TimeOf(s.time, t) < TimeOf(s.time, u) || (TimeOf(s.time, t) == TimeOf(s.time, u) && t < u)
    ensures WaitsFirst(s'.expired, t, u)
  {
    var b := s.running[..k];
    var p :| 0 <= p < |b| && b[p] == t;
    var r :| 0 <= r < |b| && b[r] == u;
    SortedNoRepeats(s.time, s.running);
    CompareMeaning(s.time, t, u);
    PlacesInOrder(s.time, s.running, p, r);
    var n := |s.expired|;
    assert s'.expired[n + p] == t && u in s.running;
    forall q | 0 <= q < n + p ensures s'.expired[q] != u {
      if q < n {
        assert s'.expired[q] in s.expired;
      } else {
        assert s'.expired[q] == s.running[q - n] && s.running[r] == u;
      }
    }
  }

  lemma {:induction false} MovedAt(s: Timers, e: Event, s': Timers) returns (k: int)
    requires Next(s, e, s') && (e.Expire? || e.ExpireFirst?)
    ensures Moved(s, k, s')
  {
    if e.Expire? {
      k :| DueUpTo(s, e.now, k) && Moved(s, k, s');
    } else {
      k :| DueUpTo(s, TimeOf(s.time, s.running[0]), k) && Moved(s, k, s');
    }
  }

  lemma {:induction false} InMoved(s: seq<Timer>, k: int, t: Timer)
    requires 0 <= k <= |s| && t in s && t !in s[k..]
    ensures t in s[..k]
  {
    assert s == s[..k] + s[k..];
  }

  lemma {:induction false} MovedTogether(s: Timers, e: Event, s': Timers, t: Timer, u: Timer)
    requires Inv(s) && Next(s, e, s') && (e.Expire? || e.ExpireFirst?)
    requires t in s.running && t !in s'.running && u in s.running && u !in s'.running
    requires TimeOf(s.time, t) < TimeOf(s.time, u) || (TimeOf(s.time, t) == TimeOf(s.time, u) && t < u)
    ensures WaitsFirst(s'.expired, t, u)
  {
    var k := MovedAt(s, e, s');
    InMoved(s.running, k, t);
    InMoved(s.running, k, u);
    MovedInOrder(s, k, s', t, u);
  }

  /**
   Timers that expire together are dispatched in the order of the times for which they were set
   and, for equal times, of their addresses, unless the first is set anew or removed.
   */
  lemma {:induction false} DispatchedInOrder(ss: seq<Timers>, es: seq<Event>, i: nat, j: nat, t: Timer, u: Timer)
    requires IsRun(ss, es) && Inv(ss[0]) && i < j < |es| && (es[i].Expire? || es[i].ExpireFirst?) && es[j] == Dispatch(u)
    requires t in ss[i].running && t !in ss[i + 1].running && u in ss[i].running && u !in ss[i + 1].running
    requires var time := ss[i].time; TimeOf(time, t) < TimeOf(time, u) || (TimeOf(time, t) == TimeOf(time, u) && t < u)
    ensures exists k :: i < k < j && About(es[k], t)
  {
    RunInv(ss, es, i);
    MovedTogether(ss[i], es[i], ss[i + 1], t, u);
    if forall l :: i < l < j ==> !About(es[l], t) {
      NotOvertaken(ss, es, i + 1, j, t, u);
    }
  }
}
