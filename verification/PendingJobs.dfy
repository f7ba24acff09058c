/**
 The job list of measurement_proxy/tun2socks/base/BPending.c over the linked list of
 measurement_proxy/tun2socks/structure/SLinkedList_impl.h: a stack of jobs without duplicates.
 */
module PendingJobs {
  import opened Basics
  import opened Sequences

  type Job = int

  type Links = map<Job, Job>

  // ---------------------------------------------------------------- the linked list

  ghost predicate NextLinks(s: seq<Job>, next: Links) {
    NULL !in next && forall i :: 0 <= i < |s| ==> s[i] in next && next[s[i]] == At(s, i + 1)
  }

  /** The `prev` link of the first entry says nothing. */
  ghost predicate PrevLinks(s: seq<Job>, prev: Links) {
    forall i :: 1 <= i < |s| ==> s[i] in prev && prev[s[i]] == s[i - 1]
  }

  /** A job that is not in the list is marked by a `next` link to itself. */
  ghost predicate Marked(s: seq<Job>, loose: set<Job>, next: Links) {
    forall o :: o in next && o !in s && o !in loose ==> next[o] == o
  }

  /** The links of the jobs in `s`; the jobs in `loose` are neither linked nor marked. */
  ghost predicate Linked(s: seq<Job>, loose: set<Job>, first: Job, next: Links, prev: Links) {
    NoRepeats(s) && first == At(s, 0) && NextLinks(s, next) && PrevLinks(s, prev) && Marked(s, loose, next)
  }

  /** A job is in the list exactly when its `next` link is not to itself. */
  lemma {:induction false} RemovedMark(s: seq<Job>, first: Job, next: Links, prev: Links, o: Job)
    requires Linked(s, {}, first, next, prev) && o in next
    ensures next[o] == o <==> o !in s
  {
    if o in s {
      var i :| 0 <= i < |s| && s[i] == o;
      assert next[o] == At(s, i + 1);
    }
  }

  lemma {:induction false} Prepended(s: seq<Job>, first: Job, next: Links, prev: Links, o: Job)
    requires Linked(s, {o}, first, next, prev) && o !in s && o != NULL
    ensures Linked([o] + s, {}, o, next[o := first], if first != NULL then prev[first := o] else prev)
  {
    var t := [o] + s;
    assert forall i :: 0 <= i < |s| ==> t[i + 1] == s[i];
    assert NextLinks(t, next[o := first]);
    PrependedPrev(s, first, next, prev, o);
    assert Marked(t, {}, next[o := first]);
  }

  lemma {:induction false} PrependedPrev(s: seq<Job>, first: Job, next: Links, prev: Links, o: Job)
    requires NoRepeats(s) && PrevLinks(s, prev) && first == At(s, 0) && NextLinks(s, next)
    ensures PrevLinks([o] + s, if first != NULL then prev[first := o] else prev)
  {
    var t := [o] + s;
    var prev' := if first != NULL then prev[first := o] else prev;
    forall i | 1 <= i < |t| ensures t[i] in prev' && prev'[t[i]] == t[i - 1] {
      assert t[i] == s[i - 1] && (i > 1 ==> t[i - 1] == s[i - 2]);
    }
  }

  lemma {:induction false} FirstRemoved(s: seq<Job>, first: Job, next: Links, prev: Links)
    requires Linked(s, {}, first, next, prev) && s != []
    ensures Linked(s[1..], {first}, next[first], next, prev)
  {
    var t := s[1..];
    assert forall i :: 0 <= i < |t| ==> t[i] == s[i + 1];
    forall o | o in next && o !in t && o != first ensures next[o] == o {
      assert o !in s;
    }
  }

  function Drop(s: seq<Job>, i: nat): (t: seq<Job>)
    requires i < |s|
    ensures |t| == |s| - 1 && forall k :: 0 <= k < |t| ==> t[k] == if k < i then s[k] else s[k + 1]
  {
    s[..i] + s[i + 1..]
  }

  lemma {:induction false} InnerNext(s: seq<Job>, next: Links, i: nat)
    requires NoRepeats(s) && NextLinks(s, next) && 0 < i < |s|
    ensures NextLinks(Drop(s, i), next[s[i - 1] := At(s, i + 1)])
  {
    var t, next' := Drop(s, i), next[s[i - 1] := At(s, i + 1)];
    forall k | 0 <= k < |t| ensures t[k] in next' && next'[t[k]] == At(t, k + 1) {
      if k < i - 1 {
        assert t[k] == s[k] && t[k + 1] == s[k + 1];
      } else if k > i - 1 {
        assert t[k] == s[k + 1];
      }
    }
  }

  /** The entry at `k` of the shorter list; the one behind the gap has its new `prev` link. */
  lemma {:induction false} InnerPrevAt(s: seq<Job>, prev: Links, i: nat, k: nat)
    requires PrevLinks(s, prev) && 0 < i < |s| && 1 <= k < |s| - 1
    requires k < i ==> s[k] != At(s, i + 1)
    requires k > i ==> s[k + 1] != At(s, i + 1)
    ensures var t, n := Drop(s, i), At(s, i + 1);
            var prev' := if n != NULL then prev[n := s[i - 1]] else prev;
            k == i ==> n == t[k] && (n != NULL ==> prev'[n] == t[k - 1])
    ensures var t, n := Drop(s, i), At(s, i + 1);
            var prev' := if n != NULL then prev[n := s[i - 1]] else prev;
            k != i ==> t[k] in prev' && prev'[t[k]] == t[k - 1]
  {
    if k < i {
      assert s[k] in prev && prev[s[k]] == s[k - 1];
    } else {
      assert s[k + 1] in prev && prev[s[k + 1]] == s[k];
    }
  }

  lemma {:induction false} InnerPrev(s: seq<Job>, next: Links, prev: Links, i: nat)
    requires NoRepeats(s) && NextLinks(s, next) && PrevLinks(s, prev) && 0 < i < |s|
    ensures var n := At(s, i + 1); PrevLinks(Drop(s, i), if n != NULL then prev[n := s[i - 1]] else prev)
  {
    var t, n := Drop(s, i), At(s, i + 1);
    var prev' := if n != NULL then prev[n := s[i - 1]] else prev;
    forall k | 1 <= k < |t| ensures t[k] in prev' && prev'[t[k]] == t[k - 1] {
      assert t[k] in next;
      InnerPrevAt(s, prev, i, k);
    }
  }

  lemma {:induction false} InnerRemoved(s: seq<Job>, first: Job, next: Links, prev: Links, i: nat)
    requires Linked(s, {}, first, next, prev) && 0 < i < |s|
    ensures var n := At(s, i + 1);
      Linked(Drop(s, i), {s[i]}, first, next[s[i - 1] := n], if n != NULL then prev[n := s[i - 1]] else prev)
  {
    InnerNext(s, next, i);
    InnerPrev(s, next, prev, i);
    forall o | o in s && o != s[i] ensures o in Drop(s, i) {
      var k :| 0 <= k < |s| && s[k] == o;
      assert Drop(s, i)[if k < i then k else k - 1] == o;
    }
  }

  /** What unlinking a job does, wherever it is. */
  lemma {:induction false} Removed(s: seq<Job>, first: Job, next: Links, prev: Links, o: Job) returns (t: seq<Job>)
    requires Linked(s, {}, first, next, prev) && o in s
    ensures t == Without(s, o) && o !in t && o in next
    ensures o == first ==> Linked(t, {o}, next[o], next, prev)
    ensures o != first ==> o in prev && prev[o] in next
    ensures o != first ==>
              Linked(t, {o}, first, next[prev[o] := next[o]], if next[o] != NULL then prev[next[o] := prev[o]] else prev)
  {
    var i: nat :| i < |s| && s[i] == o;
    WithoutAt(s, o, i);
    t := Drop(s, i);
    if i == 0 {
      FirstRemoved(s, first, next, prev);
      assert t == s[1..];
    } else {
      InnerRemoved(s, first, next, prev, i);
    }
  }

  // ---------------------------------------------------------------- the group

  class PendingGroup {
    var first: Job
    var next: Links
    var prev: Links
    /** The jobs that are set, the one that runs next first. */
    ghost var jobs: seq<Job>

    ghost predicate Valid()
      reads this
    {
      Linked(jobs, {}, first, next, prev)
    }

    constructor ()
      ensures Valid() && jobs == [] && next == map[]
    {
      first, next, prev, jobs := NULL, map[], map[], [];
    }

    method ListPrepend(o: Job)
      requires Linked(jobs, {o}, first, next, prev) && o !in jobs && o != NULL
      modifies this
      ensures Valid() && jobs == [o] + old(jobs) && next.Keys == old(next.Keys) + {o}
    {
      Prepended(jobs, first, next, prev, o);
      next := next[o := first];
      if first != NULL {
        prev := prev[first := o];
      }
      first := o;
      jobs := [o] + jobs;
    }

    /** The job is unlinked but not marked. */
    method ListRemove(o: Job)
      requires Valid() && o in jobs
      modifies this
      ensures Linked(jobs, {o}, first, next, prev) && jobs == Without(old(jobs), o) && next.Keys == old(next.Keys)
      ensures o !in jobs
    {
      ghost var rest := Removed(jobs, first, next, prev, o);
      if o != first {
        var n, p := next[o], prev[o];
        next := next[p := n];
        if n != NULL {
          prev := prev[n := p];
        }
      } else {
        first := next[o];
      }
      jobs := rest;
    }

    method ListIsRemoved(o: Job) returns (removed: bool)
      requires Valid() && o in next
      ensures removed <==> o !in jobs
    {
      RemovedMark(jobs, first, next, prev, o);
      removed := o == next[o];
    }

    /** BSmallPending_Init */
    method Init(o: Job)
      requires Valid() && o !in next && o != NULL
      modifies this
      ensures Valid() && jobs == old(jobs) && next.Keys == old(next.Keys) + {o}
    {
      assert o !in jobs;
      next := next[o := o];
    }

    /** BSmallPending_Free */
    method Free(o: Job)
      requires Valid() && o in next
      modifies this
      ensures Valid() && jobs == Without(old(jobs), o) && next.Keys == old(next.Keys) - {o}
    {
      var removed := ListIsRemoved(o);
      if !removed {
        ListRemove(o);
      } else {
        WithoutAbsent(jobs, o);
      }
      next := next - {o};
    }

    /** BSmallPending_Set: the job becomes the next one to run, wherever it was. */
    method Set(o: Job)
      requires Valid() && o in next
      modifies this
      ensures Valid() && jobs == [o] + Without(old(jobs), o) && next.Keys == old(next.Keys)
    {
      var removed := ListIsRemoved(o);
      if !removed {
        ListRemove(o);
      } else {
        WithoutAbsent(jobs, o);
      }
      ListPrepend(o);
    }

    /** BSmallPending_Unset */
    method Unset(o: Job)
      requires Valid() && o in next
      modifies this
      ensures Valid() && jobs == Without(old(jobs), o) && next.Keys == old(next.Keys)
    {
      var removed := ListIsRemoved(o);
      if !removed {
        ListRemove(o);
        next := next[o := o];
      } else {
        WithoutAbsent(jobs, o);
      }
    }

    /** BSmallPending_IsSet */
    method IsSet(o: Job) returns (isSet: bool)
      requires Valid() && o in next
      ensures isSet <==> o in jobs
    {
      var removed := ListIsRemoved(o);
      isSet := !removed;
    }

    /** BPendingGroup_HasJobs */
    method HasJobs() returns (has: bool)
      requires Valid()
      ensures has <==> jobs != []
    {
      has := first != NULL;
    }

    /** BPendingGroup_ExecuteJob, up to the call of the handler: the job is taken off the stack first. */
    method ExecuteJob() returns (o: Job)
      requires Valid() && jobs != []
      modifies this
      ensures Valid() && o == old(jobs)[0] && jobs == old(jobs)[1..] && next.Keys == old(next.Keys) && o !in jobs
    {
      FirstRemoved(jobs, first, next, prev);
      o := first;
      first := next[first];
      jobs := jobs[1..];
      next := next[o := o];
    }
  }

  // ---------------------------------------------------------------- runs

  datatype Event = Set(job: Job) | Unset(job: Job) | Free(job: Job) | Run(job: Job)

  /** The stack after an event, as the methods of the group leave it. */
  function After(s: seq<Job>, e: Event): seq<Job> {
    match e
    case Set(o) => [o] + Without(s, o)
    case Unset(o) => Without(s, o)
    case Free(o) => Without(s, o)
    case Run(_) => if s == [] then [] else s[1..]
  }

  /** Only the job on top can run. */
  predicate Possible(s: seq<Job>, e: Event) {
    e.Run? ==> s != [] && e.job == s[0]
  }

  ghost predicate IsRun(s: seq<Job>, es: seq<Event>)
    decreases |es|
  {
    es != [] ==> Possible(s, es[0]) && IsRun(After(s, es[0]), es[1..])
  }

  /** `b` is in the stack and above `a`. */
  ghost predicate Above(s: seq<Job>, b: Job, a: Job) {
    exists i, j :: 0 <= i < j < |s| && s[i] == b && s[j] == a
  }

  lemma {:induction false} WithoutAbove(s: seq<Job>, x: Job, b: Job, a: Job)
    requires Above(s, b, a) && x != a && x != b
    ensures Above(Without(s, x), b, a)
  {
    var i, j :| 0 <= i < j < |s| && s[i] == b && s[j] == a;
    if i == 0 {
      WithoutKeeps(s[1..], x);
      assert a in s[1..];
      var k :| 0 <= k < |Without(s[1..], x)| && Without(s[1..], x)[k] == a;
      assert Without(s, x)[0] == b && Without(s, x)[k + 1] == a;
    } else {
      assert s[1..][i - 1] == b && s[1..][j - 1] == a;
      WithoutAbove(s[1..], x, b, a);
      var k, l :| 0 <= k < l < |Without(s[1..], x)| && Without(s[1..], x)[k] == b && Without(s[1..], x)[l] == a;
      var d := if s[0] == x then 0 else 1;
      assert Without(s, x)[k + d] == b && Without(s, x)[l + d] == a;
    }
  }

  /** An event that neither moves `a` nor takes `b` away leaves `b` above `a`. */
  lemma {:induction false} AboveKept(s: seq<Job>, e: Event, b: Job, a: Job)
    requires NoRepeats(s) && Above(s, b, a) && Possible(s, e)
    requires e.job != a && (e.job == b ==> e.Set?)
    ensures Above(After(s, e), b, a)
  {
    var i, j :| 0 <= i < j < |s| && s[i] == b && s[j] == a;
    if e.Run? {
      assert s[1..][i - 1] == b && s[1..][j - 1] == a;
    } else if e.job == b {
      WithoutKeeps(s, b);
      assert a in s;
      var k :| 0 <= k < |Without(s, b)| && Without(s, b)[k] == a;
      assert After(s, e)[0] == b && After(s, e)[k + 1] == a;
    } else {
      WithoutAbove(s, e.job, b, a);
      var k, l :| 0 <= k < l < |Without(s, e.job)| && Without(s, e.job)[k] == b && Without(s, e.job)[l] == a;
      if e.Set? {
        assert After(s, e)[k + 1] == b && After(s, e)[l + 1] == a;
      }
    }
  }

  lemma {:induction false} StackKept(s: seq<Job>, e: Event)
    requires NoRepeats(s)
    ensures NoRepeats(After(s, e))
  {
    WithoutKeeps(s, e.job);
    var t := Without(s, e.job);
    assert e.job !in t;
    assert NoRepeats([e.job] + t);
  }

  /**
   A job does not run before the jobs above it: if `a` is left alone until it runs, then each
   job `b` that was above it has run or was unset or freed before.
   */
  lemma {:induction false} LastInFirstOut(s: seq<Job>, es: seq<Event>, b: Job, a: Job)
    requires NoRepeats(s) && Above(s, b, a) && IsRun(s, es) && es != [] && es[|es| - 1] == Run(a)
    requires forall k :: 0 <= k < |es| - 1 ==> es[k].job != a
    ensures exists k :: 0 <= k < |es| - 1 && TakesAway(es[k], b)
    decreases |es|
  {
    var e := es[0];
    NotOnTop(s, b, a);
    if !TakesAway(e, b) {
      AboveKept(s, e, b, a);
      StackKept(s, e);
      var rest := es[1..];
      LastInFirstOut(After(s, e), rest, b, a);
      var k :| 0 <= k < |rest| - 1 && TakesAway(rest[k], b);
      assert TakesAway(es[k + 1], b);
    }
  }

  predicate TakesAway(e: Event, b: Job) {
    e.job == b && !e.Set?
  }

  lemma NotOnTop(s: seq<Job>, b: Job, a: Job)
    requires NoRepeats(s) && Above(s, b, a)
    ensures s != [] && s[0] != a
  {}
}
