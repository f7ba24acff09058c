/**
 What the numbers in the matrix mean: each of the six values of a pair, told from the events of a
 run alone. The values are written as the numbers that wrapper/wrapper.py and
 wrapper/wrapper_delta.py use.
 */
module SchedulerMarks {
  import opened SchedulerModel
  import opened SchedulerTrace

  // ---------------------------------------------------------------- what happened to a pair

  /** An experiment for the pair, with either country first, ended so. */
  predicate Ended(e: Event, a: int, b: int, outcome: Outcome) {
    e.Tried? && e.outcome == outcome && ((e.i == a && e.j == b) || (e.i == b && e.j == a))
  }

  /** A host of one of the two countries failed. */
  predicate HostFailed(e: Event, a: int, b: int) {
    Loses(e, a) || Loses(e, b)
  }

  /** One of the two countries was found without hosts. */
  predicate FoundEmpty(e: Event, a: int, b: int) {
    (e.ColumnClosed? && (e.j == a || e.j == b)) || (e.RowClosed? && (e.i == a || e.i == b))
  }

  ghost predicate EverEnded(t: seq<Event>, a: int, b: int, outcome: Outcome) {
    exists k :: 0 <= k < |t| && Ended(t[k], a, b, outcome)
  }

  ghost predicate EverFailed(t: seq<Event>, a: int, b: int) {
    exists k :: 0 <= k < |t| && HostFailed(t[k], a, b)
  }

  /** An experiment succeeded, and both hosts have been good since. */
  ghost predicate StillGood(t: seq<Event>, a: int, b: int) {
    exists k :: 0 <= k < |t| && Ended(t[k], a, b, Ok) && forall l :: k < l < |t| ==> !HostFailed(t[l], a, b)
  }

  /** A country was found without hosts before any experiment for the pair had a result. */
  ghost predicate EmptyBeforeResult(t: seq<Event>, a: int, b: int) {
    exists k :: 0 <= k < |t| && FoundEmpty(t[k], a, b) && !EverEnded(t[..k], a, b, Ok) && !EverEnded(t[..k], a, b, SmallError)
  }

  ghost predicate EverEmpty(t: seq<Event>, a: int, b: int) {
    exists k :: 0 <= k < |t| && FoundEmpty(t[k], a, b)
  }

  /** The value `v` of a pair that started with `v0` is what the events say. */
  ghost predicate Tells(v0: int, t: seq<Event>, a: int, b: int, v: int) {
    && (v == 5 <==> v0 == 5)
    && (v == 4 <==> v0 == 4 || EverEnded(t, a, b, SmallError))
    && (v == 3 <==> (v0 == 3 && !EverFailed(t, a, b)) || StillGood(t, a, b))
    && (v == 2 <==> (v0 == 2 || v0 == 3 || EverEnded(t, a, b, Ok)) && v != 3 && v != 4)
    && (v == 1 <==> v0 == 1 && !EverEnded(t, a, b, Ok) && !EverEnded(t, a, b, SmallError) && !EverEmpty(t, a, b))
    && (v == 0 <==> v0 == 0 || (v0 == 1 && EmptyBeforeResult(t, a, b)))
  }

  // ---------------------------------------------------------------- one more event

  lemma {:induction false} EndedSnoc(t: seq<Event>, e: Event, a: int, b: int, outcome: Outcome)
    ensures EverEnded(t + [e], a, b, outcome) <==> EverEnded(t, a, b, outcome) || Ended(e, a, b, outcome)
  {
    var u := t + [e];
    assert u[|t|] == e && forall k :: 0 <= k < |t| ==> u[k] == t[k];
  }

  lemma {:induction false} FailedSnoc(t: seq<Event>, e: Event, a: int, b: int)
    ensures EverFailed(t + [e], a, b) <==> EverFailed(t, a, b) || HostFailed(e, a, b)
    ensures EverEmpty(t + [e], a, b) <==> EverEmpty(t, a, b) || FoundEmpty(e, a, b)
  {
    var u := t + [e];
    assert u[|t|] == e && forall k :: 0 <= k < |t| ==> u[k] == t[k];
  }

  lemma {:induction false} GoodSnoc(t: seq<Event>, e: Event, a: int, b: int)
    ensures StillGood(t + [e], a, b) <==> Ended(e, a, b, Ok) || (StillGood(t, a, b) && !HostFailed(e, a, b))
  {
    var u := t + [e];
    assert u[|t|] == e && forall k :: 0 <= k < |t| ==> u[k] == t[k];
    if StillGood(t, a, b) && !HostFailed(e, a, b) {
      var k :| 0 <= k < |t| && Ended(t[k], a, b, Ok) && forall l :: k < l < |t| ==> !HostFailed(t[l], a, b);
      assert Ended(u[k], a, b, Ok) && forall l :: k < l < |u| ==> !HostFailed(u[l], a, b);
    }
    if StillGood(u, a, b) && !Ended(e, a, b, Ok) {
      var k :| 0 <= k < |u| && Ended(u[k], a, b, Ok) && forall l :: k < l < |u| ==> !HostFailed(u[l], a, b);
      assert Ended(t[k], a, b, Ok) && forall l :: k < l < |t| ==> !HostFailed(u[l], a, b);
      assert !HostFailed(u[|t|], a, b);
    }
  }

  lemma {:induction false} EmptySnoc(t: seq<Event>, e: Event, a: int, b: int)
    ensures EmptyBeforeResult(t + [e], a, b) <==>
              EmptyBeforeResult(t, a, b)
              || (FoundEmpty(e, a, b) && !EverEnded(t, a, b, Ok) && !EverEnded(t, a, b, SmallError))
  {
    var u := t + [e];
    assert u[|t|] == e && u[..|t|] == t;
    assert forall k :: 0 <= k < |t| ==> u[k] == t[k] && u[..k] == t[..k];
  }

  /** What an event does to the value of a pair; an experiment is made only at 1 or 2. */
  lemma {:induction false} ValueStep(s: State, e: Event, a: int, b: int)
    requires Allowed(s, e) && Symmetric(s.matrix) && (a, b) in s.matrix
    ensures (a, b) in Apply(s, e).matrix
    ensures var v, v' := s.matrix[(a, b)], Apply(s, e).matrix[(a, b)];
            && v' == (if Ended(e, a, b, Ok) then 3
                      else if Ended(e, a, b, SmallError) then 4
                      else if HostFailed(e, a, b) && v == 3 then 2
                      else if FoundEmpty(e, a, b) && v == 1 then 0
                      else v)
            && (Ended(e, a, b, Ok) || Ended(e, a, b, SmallError) ==> v == 1 || v == 2)
  {}

  lemma {:induction false} TellsStep(v0: int, t: seq<Event>, e: Event, a: int, b: int, v: int, v': int)
    requires Tells(v0, t, a, b, v) && 0 <= v <= 5
    requires v' == (if Ended(e, a, b, Ok) then 3
                    else if Ended(e, a, b, SmallError) then 4
                    else if HostFailed(e, a, b) && v == 3 then 2
                    else if FoundEmpty(e, a, b) && v == 1 then 0
                    else v)
    requires Ended(e, a, b, Ok) || Ended(e, a, b, SmallError) ==> v == 1 || v == 2
    ensures Tells(v0, t + [e], a, b, v')
  {
    EndedSnoc(t, e, a, b, Ok);
    EndedSnoc(t, e, a, b, SmallError);
    FailedSnoc(t, e, a, b);
    GoodSnoc(t, e, a, b);
    EmptySnoc(t, e, a, b);
  }

  /** The value of a pair is what the events say. */
  ghost predicate ToldAt(m0: Matrix, t: seq<Event>, m: Matrix, a: int, b: int) {
    (a, b) in m0 ==> (a, b) in m && Tells(m0[(a, b)], t, a, b, m[(a, b)])
  }

  /** In every run the value of every pair is what the events say. */
  lemma {:induction false} ValueTold(s0: State, t: seq<Event>, oracle: nat -> Outcome, a: int, b: int)
    requires Inv(s0) && Greedy(s0, t, oracle)
    ensures ToldAt(s0.matrix, t, Replay(s0, t).matrix, a, b)
  {
    if (a, b) in s0.matrix && t != [] {
      LastDue(s0, t, oracle);
      var u, e := t[..|t| - 1], t[|t| - 1];
      ValueTold(s0, u, oracle, a, b);
      RunKeeps(s0, u, oracle);
      var s := Replay(s0, u);
      ValueStep(s, e, a, b);
      TellsStep(s0.matrix[(a, b)], u, e, a, b, s.matrix[(a, b)], Replay(s0, t).matrix[(a, b)]);
    }
  }

  /** The whole matrix is told by the events. */
  ghost predicate MatrixTold(m0: Matrix, t: seq<Event>, m: Matrix) {
    forall a, b :: ToldAt(m0, t, m, a, b)
  }

  lemma {:induction false} RunTold(s0: State, t: seq<Event>, oracle: nat -> Outcome)
    requires Inv(s0) && Greedy(s0, t, oracle)
    ensures MatrixTold(s0.matrix, t, Replay(s0, t).matrix)
  {
    forall a, b ensures ToldAt(s0.matrix, t, Replay(s0, t).matrix, a, b) {
      ValueTold(s0, t, oracle, a, b);
    }
  }

  /** The values of all pairs of `n` countries, which started at 1, are told by the events. */
  ghost predicate ToldFromUnused(n: int, t: seq<Event>, m: Matrix) {
    forall a, b :: 0 <= a < n && 0 <= b < n ==> (a, b) in m && Tells(1, t, a, b, m[(a, b)])
  }

  lemma {:induction false} UnusedTold(n: int, m0: Matrix, t: seq<Event>, m: Matrix)
    requires MatrixTold(m0, t, m) && Square(m0, n) && forall a, b :: (a, b) in m0 ==> m0[(a, b)] == 1
    ensures ToldFromUnused(n, t, m)
  {
    forall a, b | 0 <= a < n && 0 <= b < n ensures (a, b) in m && Tells(1, t, a, b, m[(a, b)]) {
      assert ToldAt(m0, t, m, a, b) && (a, b) in m0;
    }
  }

  // ---------------------------------------------------------------- who loses a host

  /** A failure of the first host costs the first country its first host, one of the second the second country; nothing else costs one. */
  lemma {:induction false} HostsAfter(s0: State, t: seq<Event>, oracle: nat -> Outcome, k: nat)
    requires Greedy(s0, t, oracle) && k < |t|
    ensures var hosts, hosts', e := Replay(s0, t[..k]).hosts, Replay(s0, t[..k + 1]).hosts, t[k];
            if e.Tried? && e.outcome == Host1Failed
            then 0 <= e.i < |hosts| && hosts[e.i] != [] && hosts' == hosts[e.i := hosts[e.i][1..]]
            else if e.Tried? && e.outcome == Host2Failed
            then 0 <= e.j < |hosts| && hosts[e.j] != [] && hosts' == hosts[e.j := hosts[e.j][1..]]
            else hosts' == hosts
  {
    assert DueAt(s0, t, oracle, k);
    assert t[..k + 1][..k] == t[..k] && t[..k + 1][k] == t[k];
  }

  // ---------------------------------------------------------------- where the loops go on

  /**
   The order of a run: after a result the loops go on behind the pair; after the first host
   failed, at the start of its row; after the second one failed, at the start of its row if that
   is an earlier one, and in the next row otherwise.
   */
  lemma {:induction false} NextPlace(s0: State, t: seq<Event>, oracle: nat -> Outcome, k: nat)
    requires Greedy(s0, t, oracle) && k + 1 < |t| && t[k].Tried?
    ensures var i, j, next := t[k].i, t[k].j, PlaceOf(t[k + 1]);
            && (t[k].outcome == Ok || t[k].outcome == SmallError ==> next.0 > i || (next.0 == i && next.1 > j))
            && (t[k].outcome == Host1Failed ==> next.0 >= i)
            && (t[k].outcome == Host2Failed ==> if j < i then next.0 >= j else next.0 > i)
            && t[k].outcome != FatalError
  {
    assert DueAt(s0, t, oracle, k) && DueAt(s0, t, oracle, k + 1);
    assert t[..k + 1][|t[..k + 1]| - 1] == t[k];
    assert !Stopped(t[..k + 1]) && Due(Replay(s0, t[..k + 1]), t[..k + 1], oracle, t[k + 1]);
    assert Allowed(Replay(s0, t[..k + 1]), t[k + 1]);
  }
}
