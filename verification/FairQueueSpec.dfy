/**
 The fair queue of flow/PacketPassFairQueue.c as a state machine over exact integers.
 Flows are named by their address; the class in FairQueue.dfy is proved to take these steps.
 */
module FairQueueSpec {
  import opened Basics
  import opened Sequences

  type Flow = int

  /** FAIRQUEUE_MAX_TIME, which is UINT64_MAX. */
  const MAX_TIME := 0xFFFF_FFFF_FFFF_FFFF

  /** The weight added to every packet and the MTU of the output. */
  datatype Config = Config(weight: int, mtu: int) {
    /** What PacketPassFairQueue_Init demands and checks. */
    ghost predicate Valid() {
      0 < weight && 0 <= mtu && weight + mtu <= MAX_TIME
    }
  }

  /** `queued` holds the packet length of every queued flow, `busy` the flows whose busy handler is set. */
  datatype State = State(flows: seq<Flow>, time: map<Flow, int>, queued: map<Flow, int>,
                         sending: Flow, sendingLen: int, previous: Flow, job: bool,
                         freeing: bool, busy: set<Flow>)

  datatype Event =
    | Open(flow: Flow)             // PacketPassFairQueueFlow_Init
    | Close(flow: Flow)            // PacketPassFairQueueFlow_Free
    | Send(flow: Flow, len: int)   // a flow hands over a packet
    | Done                         // the output finished a packet
    | Job                          // the schedule job runs
    | SetBusy(flow: Flow)          // PacketPassFairQueueFlow_SetBusyHandler
    | PrepareFree                  // PacketPassFairQueue_PrepareFree

  // ---------------------------------------------------------------- order and current time

  /** compare_flows < 0 */
  predicate Earlier(time: map<Flow, int>, f: Flow, g: Flow)
    requires f in time && g in time
  {
    time[f] < time[g] || (time[f] == time[g] && f < g)
  }

  ghost predicate Known(s: State) {
    && s.queued.Keys <= s.time.Keys
    && (s.sending != NULL ==> s.sending in s.time)
    && (s.previous != NULL ==> s.previous in s.time)
  }

  /** `f` is the first flow of the queue. */
  ghost predicate IsFirst(s: State, f: Flow)
    requires Known(s)
  {
    f in s.queued && forall g :: g in s.queued && g != f ==> Earlier(s.time, f, g)
  }

  /** `t` is get_current_time. */
  ghost predicate IsCurrentTime(s: State, t: int)
    requires Known(s)
  {
    if s.sending != NULL then t == s.time[s.sending]
    else if s.queued == map[] && s.previous == NULL then t == 0
    else
      && (forall g :: g in s.queued ==> t <= s.time[g])
      && (s.previous != NULL ==> t <= s.time[s.previous])
      && ((exists g :: g in s.queued && t == s.time[g]) || (s.previous != NULL && t == s.time[s.previous]))
  }

  // ---------------------------------------------------------------- steps

  function Scheduled(s: State, f: Flow): State
    requires f in s.queued
  {
    s.(queued := s.queued - {f}, sending := f, sendingLen := s.queued[f])
  }

  ghost predicate Schedule(s: State, s': State)
    requires Known(s)
  {
    exists f :: IsFirst(s, f) && s' == Scheduled(s, f)
  }

  /** The flow raised to the current time, unless it has just finished sending, and queued. */
  function Enqueued(s: State, f: Flow, len: int, now: int): State
    requires f in s.time
  {
    if f == s.previous then s.(previous := NULL, queued := s.queued[f := len])
    else s.(time := s.time[f := Max(s.time[f], now)], queued := s.queued[f := len])
  }

  /** The time taken off all flows when the time of `f` would overflow. */
  ghost predicate IsSubtract(s: State, f: Flow, subtract: int)
    requires Known(s) && f in s.time
  {
    if s.queued == map[] then subtract == s.time[f] else exists g :: IsFirst(s, g) && subtract == s.time[g]
  }

  /** Times after `f` has sent; only other flows are kept from going below zero. */
  function Shifted(time: map<Flow, int>, f: Flow, amount: int, subtract: int): map<Flow, int> {
    map g | g in time :: if g == f then time[g] + amount - subtract else Max(0, time[g] - subtract)
  }

  ghost predicate Increment(s: State, f: Flow, amount: int, s': State)
    requires Known(s) && f in s.time
  {
    if amount > MAX_TIME - s.time[f]
    then exists subtract :: IsSubtract(s, f, subtract) && s' == s.(time := Shifted(s.time, f, amount, subtract))
    else s' == s.(time := s.time[f := s.time[f] + amount])
  }

  function Closed(s: State, f: Flow): State {
    s.(flows := Without(s.flows, f), time := s.time - {f}, queued := s.queued - {f}, busy := s.busy - {f},
       sending := if s.sending == f then NULL else s.sending,
       previous := if s.previous == f then NULL else s.previous)
  }

  /** Whether the environment may cause the event: what the interfaces and the API demand. */
  ghost predicate Enabled(cfg: Config, s: State, e: Event) {
    match e
    case Open(f) => f != NULL && f !in s.flows && !s.freeing
    case Close(f) => f in s.flows && (f != s.sending || s.freeing)
    case Send(f, len) => f in s.flows && f !in s.queued && f != s.sending && 0 <= len <= cfg.mtu && !s.freeing
    case Done => s.sending != NULL && !s.freeing
    case Job => s.job && !s.freeing
    case SetBusy(f) => f != NULL && f == s.sending && !s.freeing
    case PrepareFree => true
  }

  ghost predicate SendStep(s: State, f: Flow, len: int, s': State)
    requires Known(s) && f in s.time
  {
    exists now :: IsCurrentTime(s, now) &&
      var s1 := Enqueued(s, f, len, now);
      if s1.sending == NULL && !s1.job then Schedule(s1, s') else s' == s1
  }

  ghost predicate DoneStep(cfg: Config, s: State, s': State)
    requires Known(s) && s.sending in s.time
  {
    Increment(s.(sending := NULL, previous := s.sending, job := true, busy := s.busy - {s.sending}),
              s.sending, cfg.weight + s.sendingLen, s')
  }

  ghost predicate JobStep(s: State, s': State)
    requires Known(s)
  {
    var s1 := s.(previous := NULL, job := false);
    if s1.queued != map[] then Schedule(s1, s') else s' == s1
  }

  /** What an event does; it can be said as soon as the flows it is about have times. */
  ghost predicate Next(cfg: Config, s: State, e: Event, s': State) {
    Known(s) &&
    match e
    case Open(f) => s' == s.(flows := s.flows + [f], time := s.time[f := 0])
    case Close(f) => s' == Closed(s, f)
    case Send(f, len) => f in s.time && SendStep(s, f, len, s')
    case Done => s.sending in s.time && DoneStep(cfg, s, s')
    case Job => JobStep(s, s')
    case SetBusy(f) => s' == s.(busy := s.busy + {f})
    case PrepareFree => s' == s.(freeing := true)
  }

  // ---------------------------------------------------------------- invariant

  /** The flow list, the times and the queue belong to the same flows. */
  ghost predicate Registered(s: State) {
    && NoRepeats(s.flows) && NULL !in s.flows
    && (forall f :: f in s.flows <==> f in s.time)
    && s.queued.Keys <= s.time.Keys
  }

  ghost predicate InRange(time: map<Flow, int>) {
    forall f :: f in time ==> 0 <= time[f] <= MAX_TIME
  }

  ghost predicate Lengths(cfg: Config, s: State) {
    && (forall f :: f in s.queued ==> 0 <= s.queued[f] <= cfg.mtu)
    && (s.sending != NULL ==> 0 <= s.sendingLen <= cfg.mtu)
  }

  /** No queued flow is behind the flow that is sending. */
  ghost predicate SendingIsFirst(s: State)
    requires Known(s)
  {
    s.sending != NULL ==> forall g :: g in s.queued ==> s.time[s.sending] <= s.time[g]
  }

  /** Who may be sending, just finished, or waiting for the job. */
  ghost predicate Phases(s: State) {
    && (s.sending != NULL ==> s.sending in s.time && s.sending !in s.queued && !s.job && s.previous == NULL)
    && (s.previous != NULL ==> s.previous in s.time && s.previous !in s.queued && s.job)
    && (s.sending == NULL && !s.job && !s.freeing ==> s.queued == map[])
    && s.busy <= {s.sending} && NULL !in s.busy
  }

  ghost predicate Inv(cfg: Config, s: State) {
    && cfg.Valid() && Registered(s) && InRange(s.time) && Lengths(cfg, s) && Phases(s) && Known(s) && SendingIsFirst(s)
  }

  const EMPTY := State([], map[], map[], NULL, 0, NULL, false, false, {})

  lemma InitInv(cfg: Config)
    requires cfg.Valid()
    ensures Inv(cfg, EMPTY)
  {}

  lemma ScheduleKeeps(cfg: Config, s: State, s': State)
    requires cfg.Valid() && Registered(s) && InRange(s.time) && Lengths(cfg, s) && Known(s)
    requires s.sending == NULL && s.previous == NULL && !s.job && s.busy == {} && Schedule(s, s')
    ensures Inv(cfg, s')
  {}

  lemma SendKeeps(cfg: Config, s: State, f: Flow, len: int, s': State)
    requires Inv(cfg, s) && Enabled(cfg, s, Send(f, len)) && SendStep(s, f, len, s')
    ensures Inv(cfg, s')
  {
    var now :| IsCurrentTime(s, now) &&
      var s1 := Enqueued(s, f, len, now);
      if s1.sending == NULL && !s1.job then Schedule(s1, s') else s' == s1;
    var s1 := Enqueued(s, f, len, now);
    CurrentTimeInRange(cfg, s, now);
    EnqueueKeeps(cfg, s, f, len, now);
    if s1.sending == NULL && !s1.job {
      ScheduleKeeps(cfg, s1, s');
    }
  }

  lemma EnqueueKeeps(cfg: Config, s: State, f: Flow, len: int, now: int)
    requires Inv(cfg, s) && Enabled(cfg, s, Send(f, len)) && 0 <= now <= MAX_TIME
    requires s.sending != NULL ==> now == s.time[s.sending]
    ensures var s1 := Enqueued(s, f, len, now);
            && Registered(s1) && InRange(s1.time) && Lengths(cfg, s1) && Known(s1)
            && (s1.sending != NULL || s1.job ==> Inv(cfg, s1))
            && (s1.sending == NULL && !s1.job ==> s1.previous == NULL && s1.busy == {})
  {}

  lemma CurrentTimeInRange(cfg: Config, s: State, now: int)
    requires Inv(cfg, s) && IsCurrentTime(s, now)
    ensures 0 <= now <= MAX_TIME
  {}

  /**
   Renormalisation is exact: no queued flow is truncated, and the flow that has just sent
   ends up at its true time, between zero and the maximum.
   */
  lemma RenormalisationExact(s: State, f: Flow, amount: int, subtract: int)
    requires Known(s) && InRange(s.time) && f in s.time && f !in s.queued && 0 < amount <= MAX_TIME
    requires forall g :: g in s.queued ==> s.time[f] <= s.time[g]
    requires amount > MAX_TIME - s.time[f] && IsSubtract(s, f, subtract)
    ensures 0 <= s.time[f] + amount - subtract <= MAX_TIME
    ensures forall g :: g in s.queued ==> Shifted(s.time, f, amount, subtract)[g] == s.time[g] - subtract >= 0
    ensures InRange(Shifted(s.time, f, amount, subtract))
    ensures forall g :: g in s.time ==> Shifted(s.time, f, amount, subtract)[g] >= s.time[g] - subtract
  {
    if s.queued != map[] {
      var g :| IsFirst(s, g) && subtract == s.time[g];
    }
  }

  lemma DoneKeeps(cfg: Config, s: State, s': State)
    requires Inv(cfg, s) && Enabled(cfg, s, Done) && DoneStep(cfg, s, s')
    ensures Inv(cfg, s')
  {
    var _ := DoneTimes(cfg, s, s');
  }

  lemma CloseKeeps(cfg: Config, s: State, f: Flow)
    requires Inv(cfg, s) && Enabled(cfg, s, Close(f))
    ensures Inv(cfg, Closed(s, f))
  {
    WithoutKeeps(s.flows, f);
  }

  lemma OpenKeeps(cfg: Config, s: State, f: Flow)
    requires Inv(cfg, s) && Enabled(cfg, s, Open(f))
    ensures Inv(cfg, s.(flows := s.flows + [f], time := s.time[f := 0]))
  {}

  /** Every step keeps the invariant. */
  lemma NextKeepsInv(cfg: Config, s: State, e: Event, s': State)
    requires Inv(cfg, s) && Enabled(cfg, s, e) && Next(cfg, s, e, s')
    ensures Inv(cfg, s')
  {
    match e
    case Open(f) => OpenKeeps(cfg, s, f);
    case Close(f) => CloseKeeps(cfg, s, f);
    case Send(f, len) => SendKeeps(cfg, s, f, len, s');
    case Done => DoneKeeps(cfg, s, s');
    case Job =>
      if s.queued != map[] {
        ScheduleKeeps(cfg, s.(previous := NULL, job := false), s');
      }
    case SetBusy(_) =>
    case PrepareFree =>
  }

  // ---------------------------------------------------------------- runs

  /** An event that the environment may cause, and what it does. */
  ghost predicate Step(cfg: Config, s: State, e: Event, s': State) {
    Enabled(cfg, s, e) && Next(cfg, s, e, s')
  }

  ghost predicate IsRun(cfg: Config, states: seq<State>, events: seq<Event>) {
    && |states| == |events| + 1
    && forall i :: 0 <= i < |events| ==> Step(cfg, states[i], events[i], states[i + 1])
  }

  /** Every state of a run that starts from a good one is good. */
  lemma {:induction false} RunInv(cfg: Config, states: seq<State>, events: seq<Event>, i: nat)
    requires IsRun(cfg, states, events) && Inv(cfg, states[0]) && i < |states|
    ensures Inv(cfg, states[i])
  {
    if i > 0 {
      RunInv(cfg, states, events, i - 1);
      NextKeepsInv(cfg, states[i - 1], events[i - 1], states[i]);
    }
  }

  /** Every state that an initialised queue can reach satisfies the invariant. */
  lemma {:induction false} ReachableInv(cfg: Config, states: seq<State>, events: seq<Event>)
    requires cfg.Valid() && IsRun(cfg, states, events) && states[0] == EMPTY
    ensures forall i :: 0 <= i < |states| ==> Inv(cfg, states[i])
  {
    InitInv(cfg);
    forall i | 0 <= i < |states| ensures Inv(cfg, states[i]) {
      RunInv(cfg, states, events, i);
    }
  }

  /** A queue with something in it always has a packet on its way or the job pending. */
  lemma NeverStuck(cfg: Config, s: State, f: Flow)
    requires Inv(cfg, s) && f in s.queued && !s.freeing
    ensures Enabled(cfg, s, Done) || Enabled(cfg, s, Job)
  {}

  // ---------------------------------------------------------------- fairness

  /** `f` has a packet queued, is sending one, or has just sent one and may hand over the next. */
  ghost predicate Backlogged(s: State, f: Flow) {
    f in s.time && (f in s.queued || s.sending == f || s.previous == f)
  }

  function Gap(s: State, f: Flow, g: Flow): int {
    if f in s.time && g in s.time then Max(s.time[f] - s.time[g], s.time[g] - s.time[f]) else 0
  }

  /** What a completed send does to the times: all queued flows and the sender move together. */
  lemma DoneTimes(cfg: Config, s: State, s': State) returns (subtract: int)
    requires Inv(cfg, s) && Enabled(cfg, s, Done) && DoneStep(cfg, s, s')
    ensures s'.time.Keys == s.time.Keys && InRange(s'.time)
    ensures s' == s.(time := s'.time, sending := NULL, previous := s.sending, job := true, busy := s.busy - {s.sending})
    ensures s'.time[s.sending] == s.time[s.sending] + cfg.weight + s.sendingLen - subtract
    ensures forall g :: g in s.queued ==> s'.time[g] == s.time[g] - subtract
    ensures forall g :: g in s.time && g != s.sending ==> s'.time[g] == Max(0, s.time[g] - subtract)
    ensures cfg.weight + s.sendingLen <= MAX_TIME - s.time[s.sending] ==> subtract == 0
    ensures 0 <= subtract && forall g :: g in s.queued ==> subtract <= s.time[g]
  {
    subtract := IncrementTimes(s.(sending := NULL, previous := s.sending, job := true, busy := s.busy - {s.sending}),
                               s.sending, cfg.weight + s.sendingLen, s');
  }

  /** The times of the sender and of the queued flows move together; no time falls behind. */
  ghost predicate TimesMoved(time: map<Flow, int>, time': map<Flow, int>, queued: map<Flow, int>, f: Flow, amount: int, subtract: int) {
    && time'.Keys == time.Keys && InRange(time') && f in time && queued.Keys <= time.Keys
    && time'[f] == time[f] + amount - subtract
    && (forall g :: g in queued ==> time'[g] == time[g] - subtract)
    && (forall g :: g in time && g != f ==> time'[g] == Max(0, time[g] - subtract))
    && (amount <= MAX_TIME - time[f] ==> subtract == 0)
    && 0 <= subtract && (forall g :: g in queued ==> subtract <= time[g])
  }

  lemma IncrementTimes(s: State, f: Flow, amount: int, s': State) returns (subtract: int)
    requires Known(s) && InRange(s.time) && f in s.time && f !in s.queued && 0 < amount <= MAX_TIME
    requires forall g :: g in s.queued ==> s.time[f] <= s.time[g]
    requires Increment(s, f, amount, s')
    ensures s' == s.(time := s'.time) && TimesMoved(s.time, s'.time, s.queued, f, amount, subtract)
  {
    if amount > MAX_TIME - s.time[f] {
      subtract :| IsSubtract(s, f, subtract) && s' == s.(time := Shifted(s.time, f, amount, subtract));
      ShiftedMoved(s, f, amount, subtract, s'.time);
    } else {
      subtract := 0;
      PlainMoved(s.time, s.queued, f, amount, s'.time);
    }
  }

  lemma ShiftedMoved(s: State, f: Flow, amount: int, subtract: int, time': map<Flow, int>)
    requires Known(s) && InRange(s.time) && f in s.time && f !in s.queued && 0 < amount <= MAX_TIME
    requires forall g :: g in s.queued ==> s.time[f] <= s.time[g]
    requires amount > MAX_TIME - s.time[f] && IsSubtract(s, f, subtract)
    requires time' == Shifted(s.time, f, amount, subtract)
    ensures TimesMoved(s.time, time', s.queued, f, amount, subtract)
  {
    RenormalisationExact(s, f, amount, subtract);
    assert time'.Keys == s.time.Keys;
  }

  lemma PlainMoved(time: map<Flow, int>, queued: map<Flow, int>, f: Flow, amount: int, time': map<Flow, int>)
    requires InRange(time) && f in time && f !in queued && queued.Keys <= time.Keys && 0 < amount <= MAX_TIME - time[f]
    requires time' == time[f := time[f] + amount]
    ensures TimesMoved(time, time', queued, f, amount, 0)
  {}

  lemma FairStep(cfg: Config, s: State, e: Event, s': State, f: Flow, g: Flow)
    requires Inv(cfg, s) && Step(cfg, s, e, s') && f != g
    requires Backlogged(s, f) && Backlogged(s, g) && Backlogged(s', f) && Backlogged(s', g)
    ensures Gap(s', f, g) <= Max(Gap(s, f, g), cfg.weight + cfg.mtu)
  {
    if e.Done? {
      var _ := DoneTimes(cfg, s, s');
    }
  }

  /**
   Two flows that stay backlogged over a whole run never drift apart by more than one packet
   of maximum size and the packet weight, or the distance they had at the start.
   */
  lemma {:induction false} Fairness(cfg: Config, states: seq<State>, events: seq<Event>, f: Flow, g: Flow)
    requires IsRun(cfg, states, events) && Inv(cfg, states[0]) && f != g
    requires forall i :: 0 <= i < |states| ==> Backlogged(states[i], f) && Backlogged(states[i], g)
    ensures Gap(states[|events|], f, g) <= Max(Gap(states[0], f, g), cfg.weight + cfg.mtu)
  {
    var n := |events|;
    if n > 0 {
      Fairness(cfg, states[..n], events[..n - 1], f, g);
      RunInv(cfg, states, events, n - 1);
      FairStep(cfg, states[n - 1], events[n - 1], states[n], f, g);
    }
  }

  // ---------------------------------------------------------------- what the flows were served

  /** The length of the packet that `f` handed over last. */
  function HandedOver(events: seq<Event>, f: Flow): int {
    if events == [] then 0
    else
      var e := events[|events| - 1];
      if e.Send? && e.flow == f then e.len else HandedOver(events[..|events| - 1], f)
  }

  /** The lengths that are kept are those of the packets that were handed over. */
  ghost predicate LengthsKept(s: State, events: seq<Event>) {
    && (forall f :: f in s.queued ==> s.queued[f] == HandedOver(events, f))
    && (s.sending != NULL ==> s.sendingLen == HandedOver(events, s.sending))
  }

  lemma {:induction false} LengthsStep(cfg: Config, s: State, events: seq<Event>, e: Event, s': State)
    requires Inv(cfg, s) && Step(cfg, s, e, s') && LengthsKept(s, events)
    ensures LengthsKept(s', events + [e])
  {
    assert (events + [e])[..|events|] == events;
    assert forall f :: HandedOver(events + [e], f) == if e.Send? && e.flow == f then e.len else HandedOver(events, f);
    if e.Done? {
      var _ := DoneTimes(cfg, s, s');
    }
  }

  lemma {:induction false} RunLengths(cfg: Config, states: seq<State>, events: seq<Event>, i: nat)
    requires cfg.Valid() && IsRun(cfg, states, events) && states[0] == EMPTY && i < |states|
    ensures Inv(cfg, states[i]) && LengthsKept(states[i], events[..i])
  {
    InitInv(cfg);
    RunInv(cfg, states, events, i);
    if i > 0 {
      RunLengths(cfg, states, events, i - 1);
      LengthsStep(cfg, states[i - 1], events[..i - 1], events[i - 1], states[i]);
      assert events[..i - 1] + [events[i - 1]] == events[..i];
    }
  }

  /** What step `k` completes for `f`: the packet it handed over last, with the weight of a packet. */
  function Completed(cfg: Config, states: seq<State>, events: seq<Event>, k: nat, f: Flow): int
    requires k < |events| < |states|
  {
    if events[k].Done? && states[k].sending == f then cfg.weight + HandedOver(events[..k], f) else 0
  }

  /** The weighted bytes of the packets of `f` that were completed from state `i` to state `j`. */
  function Served(cfg: Config, states: seq<State>, events: seq<Event>, i: nat, j: nat, f: Flow): int
    requires i <= j <= |events| < |states|
  {
    if i == j then 0 else Served(cfg, states, events, i, j - 1, f) + Completed(cfg, states, events, j - 1, f)
  }

  /** By how much `f` is ahead of `g`. */
  function Ahead(s: State, f: Flow, g: Flow): int {
    if f in s.time && g in s.time then s.time[f] - s.time[g] else 0
  }

  /** A run of an initialised queue in which two flows stay backlogged from state `i` to state `j`. */
  ghost predicate Competing(cfg: Config, states: seq<State>, events: seq<Event>, i: nat, j: nat, f: Flow, g: Flow) {
    && cfg.Valid() && IsRun(cfg, states, events) && states[0] == EMPTY && i <= j <= |events| && f != g
    && forall k :: i <= k <= j ==> Backlogged(states[k], f) && Backlogged(states[k], g)
  }

  /** What is charged to a flow is what it handed over. */
  lemma {:induction false} CompletedIsCharged(cfg: Config, states: seq<State>, events: seq<Event>, k: nat, f: Flow)
    requires cfg.Valid() && IsRun(cfg, states, events) && states[0] == EMPTY && k < |events| && f in states[k].time
    ensures Completed(cfg, states, events, k, f) == Charged(cfg, states[k], events[k], f)
  {
    RunLengths(cfg, states, events, k);
  }

  function Charged(cfg: Config, s: State, e: Event, f: Flow): int {
    if e.Done? && s.sending == f then cfg.weight + s.sendingLen else 0
  }

  lemma {:induction false} AheadStep(cfg: Config, s: State, e: Event, s': State, f: Flow, g: Flow)
    requires Inv(cfg, s) && Step(cfg, s, e, s') && f != g
    requires Backlogged(s, f) && Backlogged(s, g) && Backlogged(s', f) && Backlogged(s', g)
    ensures Ahead(s', f, g) == Ahead(s, f, g) + Charged(cfg, s, e, f) - Charged(cfg, s, e, g)
    ensures Ahead(s', f, g) <= Max(Ahead(s, f, g), cfg.weight + cfg.mtu)
  {
    if e.Done? {
      var _ := DoneTimes(cfg, s, s');
    }
  }

  lemma {:induction false} OneStep(cfg: Config, states: seq<State>, events: seq<Event>, k: nat, f: Flow, g: Flow)
    requires k < |events| && Competing(cfg, states, events, k, k + 1, f, g)
    ensures Ahead(states[k + 1], f, g) - Ahead(states[k], f, g)
         == Completed(cfg, states, events, k, f) - Completed(cfg, states, events, k, g)
    ensures Ahead(states[k + 1], f, g) <= Max(Ahead(states[k], f, g), cfg.weight + cfg.mtu)
  {
    InitInv(cfg);
    RunInv(cfg, states, events, k);
    AheadStep(cfg, states[k], events[k], states[k + 1], f, g);
    CompletedIsCharged(cfg, states, events, k, f);
    CompletedIsCharged(cfg, states, events, k, g);
  }

  /**
   The times of two flows that stay backlogged account exactly for the packets they handed over
   and that were completed, across overflows.
   */
  lemma {:induction false} TimeIsService(cfg: Config, states: seq<State>, events: seq<Event>, i: nat, j: nat, f: Flow, g: Flow)
    requires Competing(cfg, states, events, i, j, f, g)
    ensures Ahead(states[j], f, g) - Ahead(states[i], f, g)
         == Served(cfg, states, events, i, j, f) - Served(cfg, states, events, i, j, g)
    ensures Ahead(states[j], f, g) <= Max(Ahead(states[i], f, g), cfg.weight + cfg.mtu)
    decreases j
  {
    if i < j {
      TimeIsService(cfg, states, events, i, j - 1, f, g);
      OneStep(cfg, states, events, j - 1, f, g);
    }
  }

  /**
   Fair service: while both stay backlogged, the weighted bytes completed for two flows differ by
   no more than their first distance and one maximum packet, or twice that distance.
   */
  lemma {:induction false} FairService(cfg: Config, states: seq<State>, events: seq<Event>, i: nat, j: nat, f: Flow, g: Flow)
    requires Competing(cfg, states, events, i, j, f, g)
    ensures var gap := Gap(states[i], f, g);
            var bound := gap + Max(gap, cfg.weight + cfg.mtu);
            -bound <= Served(cfg, states, events, i, j, f) - Served(cfg, states, events, i, j, g) <= bound
  {
    TimeIsService(cfg, states, events, i, j, f, g);
    TimeIsService(cfg, states, events, i, j, g, f);
  }

  // ---------------------------------------------------------------- a flow that becomes active

  /** `g` is a competitor of `f` with the least time. */
  ghost predicate LeastRival(s: State, g: Flow, f: Flow) {
    g != f && Backlogged(s, g) && forall h :: h != f && Backlogged(s, h) ==> s.time[g] <= s.time[h]
  }

  /** A flow that becomes active is brought up to the least time of its competitors, and no other time changes. */
  lemma JoinsLevel(cfg: Config, s: State, f: Flow, len: int, s': State, g: Flow)
    requires Inv(cfg, s) && Step(cfg, s, Send(f, len), s') && f != s.previous && LeastRival(s, g, f)
    ensures s'.time == s.time[f := Max(s.time[f], s.time[g])] && Backlogged(s', f)
  {}

  /** Without competitors it keeps its time. */
  lemma JoinsAlone(cfg: Config, s: State, f: Flow, len: int, s': State)
    requires Inv(cfg, s) && Step(cfg, s, Send(f, len), s') && forall g :: g != f ==> !Backlogged(s, g)
    ensures s'.time == s.time && (s'.sending == f <==> !s.job)
  {
    forall g ensures g !in s.queued {
      assert g == f || !Backlogged(s, g);
    }
    assert s.queued.Keys == {};
    assert !Backlogged(s, s.sending) && (s.previous != f ==> !Backlogged(s, s.previous));
    assert s.time[f := s.time[f]] == s.time;
  }

  /**
   A flow that was idle gains nothing from it: from when it becomes active, it is served no more
   than one maximum packet ahead of the competitor with the least time.
   */
  lemma {:induction false} JoinsFairly(cfg: Config, states: seq<State>, events: seq<Event>, i: nat, j: nat, f: Flow, len: int, g: Flow)
    requires 0 < i && Competing(cfg, states, events, i, j, f, g) && events[i - 1] == Send(f, len)
    requires f != states[i - 1].previous && LeastRival(states[i - 1], g, f)
    ensures Served(cfg, states, events, i, j, f) - Served(cfg, states, events, i, j, g) <= cfg.weight + cfg.mtu
  {
    InitInv(cfg);
    RunInv(cfg, states, events, i - 1);
    JoinsLevel(cfg, states[i - 1], f, len, states[i], g);
    TimeIsService(cfg, states, events, i, j, f, g);
  }

  /** A flow that has not handed over a packet since it was opened stays at time zero. */
  ghost predicate Fresh(s: State, f: Flow) {
    f in s.time && s.time[f] == 0 && !Backlogged(s, f)
  }

  /** The flow neither hands over a packet nor is freed. */
  predicate Silent(e: Event, f: Flow) {
    !(e.Send? && e.flow == f) && !(e.Close? && e.flow == f)
  }

  lemma {:induction false} FreshStep(cfg: Config, s: State, e: Event, s': State, f: Flow)
    requires Inv(cfg, s) && Step(cfg, s, e, s')
    requires e == Open(f) || (Fresh(s, f) && Silent(e, f))
    ensures Fresh(s', f)
  {
    if e.Done? {
      var _ := DoneTimes(cfg, s, s');
    }
  }

  lemma {:induction false} StaysFresh(cfg: Config, states: seq<State>, events: seq<Event>, o: nat, k: nat, f: Flow)
    requires IsRun(cfg, states, events) && Inv(cfg, states[0]) && o < k <= |events| && events[o] == Open(f)
    requires forall l :: o < l < k ==> Silent(events[l], f)
    ensures Fresh(states[k], f)
    decreases k
  {
    RunInv(cfg, states, events, k - 1);
    if k - 1 > o {
      StaysFresh(cfg, states, events, o, k - 1, f);
    }
    FreshStep(cfg, states[k - 1], events[k - 1], states[k], f);
  }

  lemma {:induction false} FreshJoins(cfg: Config, states: seq<State>, events: seq<Event>, o: nat, i: nat, f: Flow, len: int, g: Flow)
    requires IsRun(cfg, states, events) && cfg.Valid() && states[0] == EMPTY
    requires o < i - 1 < |events| && events[o] == Open(f) && events[i - 1] == Send(f, len)
    requires forall l :: o < l < i - 1 ==> Silent(events[l], f)
    requires LeastRival(states[i - 1], g, f)
    ensures Ahead(states[i], f, g) == 0 && Ahead(states[i], g, f) == 0
  {
    InitInv(cfg);
    RunInv(cfg, states, events, i - 1);
    StaysFresh(cfg, states, events, o, i - 1, f);
    JoinsLevel(cfg, states[i - 1], f, len, states[i], g);
  }

  /** A new flow starts level: from its first packet on, it and the competitor with the least time are served alike. */
  lemma {:induction false} StartsFairly(cfg: Config, states: seq<State>, events: seq<Event>, o: nat, i: nat, j: nat, f: Flow, len: int, g: Flow)
    requires Competing(cfg, states, events, i, j, f, g) && o < i - 1 && events[o] == Open(f) && events[i - 1] == Send(f, len)
    requires forall l :: o < l < i - 1 ==> Silent(events[l], f)
    requires LeastRival(states[i - 1], g, f)
    ensures var bound := cfg.weight + cfg.mtu;
            -bound <= Served(cfg, states, events, i, j, f) - Served(cfg, states, events, i, j, g) <= bound
  {
    FreshJoins(cfg, states, events, o, i, f, len, g);
    TimeIsService(cfg, states, events, i, j, f, g);
    TimeIsService(cfg, states, events, i, j, g, f);
  }

  /** Whenever a flow starts sending, no queued flow has a lesser time, or the same time and a lesser address. */
  lemma StartsFirst(cfg: Config, s: State, e: Event, s': State, g: Flow)
    requires Inv(cfg, s) && Step(cfg, s, e, s') && s.sending == NULL && s'.sending != NULL && g in s'.queued
    ensures s'.time[s'.sending] < s'.time[g] || (s'.time[s'.sending] == s'.time[g] && s'.sending < g)
  {}

  // ---------------------------------------------------------------- no starvation

  /** How many completed packets of `g` can still come before a packet of `f`. */
  function Lead(time: map<Flow, int>, f: Flow, g: Flow): int
    requires f in time && g in time
  {
    if g == f then 0 else Max(0, time[f] + 1 - time[g])
  }

  function Wait(time: map<Flow, int>, flows: seq<Flow>, f: Flow): int
    requires f in time && forall g :: g in flows ==> g in time
  {
    if flows == [] then 0 else Lead(time, f, flows[0]) + Wait(time, flows[1..], f)
  }

  lemma {:induction false} WaitMonotone(time: map<Flow, int>, time': map<Flow, int>, flows: seq<Flow>, f: Flow, h: Flow)
    requires f in time && f in time' && forall g :: g in flows ==> g in time && g in time'
    requires forall g :: g in flows ==> Lead(time', f, g) <= Lead(time, f, g)
    requires h in flows ==> Lead(time', f, h) < Lead(time, f, h)
    ensures Wait(time', flows, f) <= Wait(time, flows, f) - if h in flows then 1 else 0
  {
    if flows != [] {
      WaitMonotone(time, time', flows[1..], f, h);
    }
  }

  lemma {:induction false} WaitWithout(time: map<Flow, int>, flows: seq<Flow>, f: Flow, h: Flow)
    requires f in time && h != f && NoRepeats(flows) && forall g :: g in flows ==> g in time
    ensures forall g :: g in Without(flows, h) ==> g in time - {h}
    ensures 0 <= Wait(time - {h}, Without(flows, h), f) <= Wait(time, flows, f)
  {
    if flows != [] {
      WaitWithout(time, flows[1..], f, h);
      var tail := Without(flows[1..], h);
      if flows[0] != h {
        assert Without(flows, h) == [flows[0]] + tail && ([flows[0]] + tail)[1..] == tail;
      } else {
        assert Without(flows, h) == tail;
      }
    }
  }

  lemma WaitDone(cfg: Config, s: State, s': State, f: Flow)
    requires Inv(cfg, s) && Enabled(cfg, s, Done) && DoneStep(cfg, s, s') && f in s.queued
    ensures s'.flows == s.flows && s'.time.Keys == s.time.Keys
    ensures Wait(s'.time, s.flows, f) <= Wait(s.time, s.flows, f) - 1
  {
    var _ := DoneTimes(cfg, s, s');
    WaitMonotone(s.time, s'.time, s.flows, f, s.sending);
  }

  /** While `f` is queued and no flow is added, each completed packet uses up some of its wait. */
  lemma WaitStep(cfg: Config, s: State, e: Event, s': State, f: Flow)
    requires Inv(cfg, s) && Step(cfg, s, e, s') && !e.Open? && f in s.queued && f in s'.queued
    ensures Inv(cfg, s')
    ensures Wait(s'.time, s'.flows, f) <= Wait(s.time, s.flows, f) - if e.Done? then 1 else 0
  {
    NextKeepsInv(cfg, s, e, s');
    match e
    case Open(_) =>
    case Close(h) => WaitWithout(s.time, s.flows, f, h);
    case Send(h, _) =>
      WaitMonotone(s.time, s'.time, s.flows, f, NULL);
    case Done => WaitDone(cfg, s, s', f);
    case _ => WaitMonotone(s.time, s'.time, s.flows, f, NULL);
  }

  function Completions(events: seq<Event>): nat {
    if events == [] then 0 else (if events[|events| - 1].Done? then 1 else 0) + Completions(events[..|events| - 1])
  }

  /** A queued flow is scheduled before more packets complete than its wait at the start. */
  lemma {:induction false} NoStarvation(cfg: Config, states: seq<State>, events: seq<Event>, f: Flow)
    requires IsRun(cfg, states, events) && Inv(cfg, states[0])
    requires forall i :: 0 <= i < |events| ==> !events[i].Open?
    requires forall i :: 0 <= i < |states| ==> f in states[i].queued
    ensures Inv(cfg, states[|events|])
    ensures Completions(events) + Wait(states[|events|].time, states[|events|].flows, f) <= Wait(states[0].time, states[0].flows, f)
    ensures Completions(events) <= Wait(states[0].time, states[0].flows, f)
  {
    var n := |events|;
    if n > 0 {
      NoStarvation(cfg, states[..n], events[..n - 1], f);
      WaitStep(cfg, states[n - 1], events[n - 1], states[n], f);
    }
    WaitNonNegative(states[n].time, states[n].flows, f);
  }

  lemma {:induction false} WaitNonNegative(time: map<Flow, int>, flows: seq<Flow>, f: Flow)
    requires f in time && forall g :: g in flows ==> g in time
    ensures 0 <= Wait(time, flows, f)
  {
    if flows != [] {
      WaitNonNegative(time, flows[1..], f);
    }
  }
}
