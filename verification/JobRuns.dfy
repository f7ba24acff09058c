/**
 What the runs of the job list in base/BPending.c promise, told from their events: which jobs run,
 and in which order.
 */
module JobRuns {
  import opened Sequences
  import opened PendingJobs

  /** A run of a new group: the stacks before and after each event. */
  ghost predicate IsHistory(ss: seq<seq<Job>>, es: seq<Event>) {
    && |ss| == |es| + 1 && ss[0] == []
    && forall i :: 0 <= i < |es| ==> Possible(ss[i], es[i]) && ss[i + 1] == After(ss[i], es[i])
  }

  lemma {:induction false} StackStep(s: seq<Job>, e: Event, o: Job)
    requires NoRepeats(s) && Possible(s, e)
    ensures NoRepeats(After(s, e)) && (o in After(s, e) <==> if e.job == o then e.Set? else o in s)
  {
    WithoutKeeps(s, e.job);
    StackKept(s, e);
    if e.Run? {
      assert s == [s[0]] + s[1..];
    }
  }

  /** The last event about the job before `k` set it. */
  ghost predicate LastSet(es: seq<Event>, k: int, o: Job) {
    exists i :: 0 <= i < k <= |es| && es[i] == Set(o) && forall l :: i < l < k ==> es[l].job != o
  }

  lemma {:induction false} LastSetSnoc(es: seq<Event>, k: nat, o: Job)
    requires k < |es|
    ensures LastSet(es, k + 1, o) <==> if es[k].job == o then es[k].Set? else LastSet(es, k, o)
  {
    if es[k] == Set(o) {
      assert LastSet(es, k + 1, o);
    }
  }

  /** A job is in the stack exactly if the last event about it set it. */
  lemma {:induction false} InStackIffSet(ss: seq<seq<Job>>, es: seq<Event>, k: nat, o: Job)
    requires IsHistory(ss, es) && k <= |es|
    ensures NoRepeats(ss[k]) && (o in ss[k] <==> LastSet(es, k, o))
    decreases k
  {
    if k > 0 {
      InStackIffSet(ss, es, k - 1, o);
      StackStep(ss[k - 1], es[k - 1], o);
      LastSetSnoc(es, k - 1, o);
    }
  }

  /** Only a job that was set, and neither ran nor was taken away since, runs. */
  lemma {:induction false} RunsOnlyIfSet(ss: seq<seq<Job>>, es: seq<Event>, n: nat, a: Job)
    requires IsHistory(ss, es) && n < |es| && es[n] == Run(a)
    ensures LastSet(es, n, a)
  {
    InStackIffSet(ss, es, n, a);
    assert Possible(ss[n], es[n]);
  }

  lemma {:induction false} SetOnTop(s: seq<Job>, b: Job, a: Job)
    requires a != b && a in After(s, Set(b))
    ensures Above(After(s, Set(b)), b, a)
  {
    var t := After(s, Set(b));
    var j :| 0 <= j < |t| && t[j] == a;
    assert t[0] == b;
  }

  lemma {:induction false} StillAbove(ss: seq<seq<Job>>, es: seq<Event>, j: nat, n: nat, a: Job, b: Job)
    requires IsHistory(ss, es) && j <= n <= |es| && Above(ss[j], b, a)
    requires forall l :: j <= l < n ==> es[l].job != a && !TakesAway(es[l], b)
    ensures Above(ss[n], b, a)
    decreases n
  {
    if j < n {
      StillAbove(ss, es, j, n - 1, a, b);
      InStackIffSet(ss, es, n - 1, a);
      AboveKept(ss[n - 1], es[n - 1], b, a);
    }
  }

  /** Of two jobs that are set, the one that was set later runs first, or is taken away. */
  lemma {:induction false} LaterSetRunsFirst(ss: seq<seq<Job>>, es: seq<Event>, i: nat, j: nat, n: nat, a: Job, b: Job)
    requires IsHistory(ss, es) && i < j < n < |es| && a != b && es[i] == Set(a) && es[j] == Set(b) && es[n] == Run(a)
    requires forall k :: i < k < n ==> es[k].job != a
    ensures exists k :: j < k < n && TakesAway(es[k], b)
  {
    assert LastSet(es, j + 1, a);
    InStackIffSet(ss, es, j + 1, a);
    assert ss[j + 1] == After(ss[j], es[j]);
    SetOnTop(ss[j], b, a);
    assert Possible(ss[n], es[n]);
    if forall l :: j < l < n ==> !TakesAway(es[l], b) {
      StillAbove(ss, es, j + 1, n, a, b);
      InStackIffSet(ss, es, n, a);
      NotOnTop(ss[n], b, a);
    }
  }
}
