/**
 flow/PacketPassFairQueue.c: the queue with its AVL tree of queued flows and 64-bit times,
 proved to take the steps of FairQueueSpec.
 */
module FairQueue {
  import opened Basics
  import opened Spec = FairQueueSpec
  import opened AvlOrder
  import opened Sequences
  import opened TimeOrder
  import TimeTree
  import CAvl
  import CAvlQueries

  const TWO64 := 0x1_0000_0000_0000_0000

  /** Subtraction and addition of uint64_t. */
  function Sub64(a: int, b: int): int { (a - b) % TWO64 }

  function Add64(a: int, b: int): int { (a + b) % TWO64 }

  /** The first node of the tree is the first flow of the queue. */
  lemma FirstOfTree(s: State, contents: seq<Flow>)
    requires Known(s) && Sorted(CompareTimes(s.time), contents) && contents != []
    requires forall f :: f in contents <==> f in s.queued
    ensures IsFirst(s, contents[0])
  {
    forall g | g in s.queued && g != contents[0] ensures Earlier(s.time, contents[0], g) {
      var k :| 0 <= k < |contents| && contents[k] == g;
      assert CompareTimes(s.time)(contents[0], contents[k]) < 0;
    }
  }

  lemma EnqueuedNodes(contents: seq<Flow>, contents': seq<Flow>, queued: map<Flow, int>, f: Flow, len: int, pos: int)
    requires InsertedAt(contents, contents', f, pos) && forall g :: g in contents <==> g in queued
    ensures forall g :: g in contents' <==> g in queued[f := len]
  {
    InsertedNodes(contents, contents', f, pos);
  }

  lemma EmptyQueue(contents: seq<Flow>, queued: map<Flow, int>)
    requires contents == [] && forall f :: f in contents <==> f in queued
    ensures queued == map[]
  {
    assert forall f :: f !in queued;
  }

  /** A time lowered by `subtract`: that of `flow` wraps around, others stop at zero. */
  function LoweredTime(t: int, wraps: bool, subtract: int): int {
    if wraps then Sub64(t, subtract) else Max(0, t - subtract)
  }

  ghost function Lowered(time: map<Flow, int>, flow: Flow, subtract: int): map<Flow, int> {
    map g | g in time :: LoweredTime(time[g], g == flow, subtract)
  }

  /** The times after the first `i` flows of the list were lowered. */
  ghost function LoweredUpTo(time: map<Flow, int>, flows: seq<Flow>, i: nat, flow: Flow, subtract: int): map<Flow, int>
    requires i <= |flows|
  {
    map g | g in time :: if g in flows[..i] then LoweredTime(time[g], g == flow, subtract) else time[g]
  }

  lemma LowerNext(time: map<Flow, int>, flows: seq<Flow>, i: nat, flow: Flow, subtract: int)
    requires NoRepeats(flows) && i < |flows| && flows[i] in time
    requires 0 <= time[flows[i]] <= MAX_TIME && 0 <= subtract <= MAX_TIME
    ensures var before, f := LoweredUpTo(time, flows, i, flow, subtract), flows[i];
      && f in before && before[f] == time[f]
      && LoweredUpTo(time, flows, i + 1, flow, subtract)
         == before[f := if subtract > time[f] && f != flow then 0 else Sub64(time[f], subtract)]
  {
    var f := flows[i];
    assert flows[..i + 1] == flows[..i] + [f];
    assert f !in flows[..i];
    assert LoweredTime(time[f], f == flow, subtract) == if subtract > time[f] && f != flow then 0 else Sub64(time[f], subtract);
  }

  lemma LoweredAll(time: map<Flow, int>, flows: seq<Flow>, flow: Flow, subtract: int)
    requires forall g :: g in time ==> g in flows
    ensures LoweredUpTo(time, flows, |flows|, flow, subtract) == Lowered(time, flow, subtract)
  {
    assert flows[..|flows|] == flows;
  }

  /** Wrapping below zero and back gives the same times as exact arithmetic. */
  lemma LoweredThenRaised(time: map<Flow, int>, flow: Flow, amount: int, subtract: int)
    requires flow in time && 0 <= time[flow] <= MAX_TIME && 0 <= subtract <= MAX_TIME && 0 < amount <= MAX_TIME
    requires 0 <= time[flow] + amount - subtract <= MAX_TIME
    ensures var low := Lowered(time, flow, subtract);
            low[flow := Add64(low[flow], amount)] == Shifted(time, flow, amount, subtract)
  {
    WrapsBack(time[flow], amount, subtract);
  }

  class PacketPassFairQueue {
    const cfg: Config
    const queue: CAvl.CAvl<()>
    var flows: seq<Flow>
    var time: map<Flow, int>
    var queuedLen: map<Flow, int>  // data_len of the flows with is_queued set
    var sendingFlow: Flow
    var sendingLen: int
    var previousFlow: Flow
    var scheduleJob: bool
    var freeing: bool
    var busyHandlers: set<Flow>  // the flows with handler_busy set

    ghost function Abs(): State
      reads this
    {
      State(flows, time, queuedLen, sendingFlow, sendingLen, previousFlow, scheduleJob, freeing, busyHandlers)
    }

    /** The tree holds the queued flows in the order of their times. */
    ghost predicate InOrder()
      reads this, queue
    {
      && queue.Valid() && Sorted(CompareTimes(time), queue.Contents())
      && forall f :: f in queue.Contents() <==> f in queuedLen
    }

    ghost predicate Valid()
      reads this, queue
    {
      Inv(cfg, Abs()) && InOrder()
    }

    constructor (cfg: Config)
      requires cfg.Valid()
      ensures Valid() && Abs() == EMPTY && this.cfg == cfg && fresh(queue)
    {
      this.cfg := cfg;
      var tree := TimeTree.NewTree();
      queue := tree;
      flows, time, queuedLen := [], map[], map[];
      sendingFlow, sendingLen, previousFlow, scheduleJob := NULL, 0, NULL, false;
      freeing, busyHandlers := false, {};
    }

    /** PacketPassFairQueue__Tree_GetFirst */
    method GetFirst() returns (f: Flow)
      requires Known(Abs()) && InOrder()
      ensures if queuedLen == map[] then f == NULL else f != NULL && IsFirst(Abs(), f)
    {
      f := CAvlQueries.GetFirst(queue);
      if f != NULL {
        FirstOfTree(Abs(), queue.Contents());
      } else {
        EmptyQueue(queue.Contents(), queuedLen);
      }
    }

    /** get_current_time */
    method GetCurrentTime() returns (t: int)
      requires Known(Abs()) && InOrder()
      ensures IsCurrentTime(Abs(), t)
    {
      if sendingFlow != NULL {
        return time[sendingFlow];
      }
      t := 0;
      var have := false;
      var first := GetFirst();
      if first != NULL {
        t, have := time[first], true;
      }
      if previousFlow != NULL {
        if !have || time[previousFlow] < t {
          t, have := time[previousFlow], true;
        }
      }
      t := if have then t else 0;
    }

    /** The loop of increment_sent_flow over all flows. */
    method SubtractFromAll(flow: Flow, subtract: int)
      requires Registered(Abs()) && InRange(time) && 0 <= subtract <= MAX_TIME && flow in time
      modifies this`time
      ensures time == Lowered(old(time), flow, subtract)
    {
      ghost var time0 := time;
      var i := 0;
      while i < |flows|
        invariant 0 <= i <= |flows| && time == LoweredUpTo(time0, flows, i, flow, subtract)
      {
        var someFlow := flows[i];
        LowerNext(time0, flows, i, flow, subtract);
        if subtract > time[someFlow] && someFlow != flow {
          time := time[someFlow := 0];
        } else {
          time := time[someFlow := Sub64(time[someFlow], subtract)];
        }
        i := i + 1;
      }
      LoweredAll(time0, flows, flow, subtract);
    }

    /** increment_sent_flow when the time overflows. */
    method Renormalise(flow: Flow, amount: int) returns (ghost subtract: int)
      requires Known(Abs()) && Registered(Abs()) && InRange(time) && InOrder()
      requires flow in time && flow !in queuedLen && 0 < amount <= MAX_TIME
      requires forall g :: g in queuedLen ==> time[flow] <= time[g]
      requires amount > MAX_TIME - time[flow]
      modifies this`time
      ensures IsSubtract(old(Abs()), flow, subtract) && time == Shifted(old(time), flow, amount, subtract)
    {
      var sub;
      var first := GetFirst();
      if first == NULL {
        sub := time[flow];
      } else {
        sub := time[first];
      }
      subtract := sub;
      RenormalisationExact(Abs(), flow, amount, sub);
      SubtractFromAll(flow, sub);
      time := time[flow := Add64(time[flow], amount)];
      LoweredThenRaised(old(time), flow, amount, sub);
    }

    /** increment_sent_flow */
    method IncrementSentFlow(flow: Flow, amount: int)
      requires Known(Abs()) && Registered(Abs()) && InRange(time) && InOrder()
      requires flow in time && flow !in queuedLen && 0 < amount <= MAX_TIME
      requires forall g :: g in queuedLen ==> time[flow] <= time[g]
      modifies this`time
      ensures Increment(old(Abs()), flow, amount, Abs()) && InOrder()
    {
      if amount > MAX_TIME - time[flow] {
        ghost var subtract := Renormalise(flow, amount);
      } else {
        time := time[flow := Add64(time[flow], amount)];
      }
      IncrementKeepsOrder(old(Abs()), flow, amount, Abs(), queue.Contents());
    }

    /** PacketPassFairQueue__Tree_Remove together with clearing is_queued. */
    method Dequeue(f: Flow)
      requires InOrder() && f in queuedLen
      modifies this`queuedLen, queue
      ensures queuedLen == old(queuedLen) - {f} && InOrder()
    {
      CompareOrdering(time);
      ghost var contents := queue.Contents();
      ghost var pos := queue.Remove(f);
      RemovedSorted(CompareTimes(time), contents, queue.Contents(), f, pos);
      queuedLen := queuedLen - {f};
    }

    /** PacketPassFairQueue__Tree_Insert together with setting is_queued; it never finds an equal flow. */
    method Enqueue(f: Flow, len: int)
      requires InOrder() && f !in queuedLen && f != NULL
      modifies this`queuedLen, queue
      ensures queuedLen == old(queuedLen)[f := len] && InOrder()
    {
      ghost var contents := queue.Contents();
      ghost var pos := TimeTree.Insert(queue, time, f);
      EnqueuedNodes(contents, queue.Contents(), queuedLen, f, len, pos);
      queuedLen := queuedLen[f := len];
    }

    /** schedule */
    method ScheduleFirst()
      requires Known(Abs()) && InOrder() && queuedLen != map[]
      modifies this`queuedLen, this`sendingFlow, this`sendingLen, queue
      ensures Schedule(old(Abs()), Abs()) && InOrder()
    {
      var first := GetFirst();
      var len := queuedLen[first];
      Dequeue(first);
      sendingFlow := first;
      sendingLen := len;
    }

    /** schedule_job_handler */
    method ScheduleJobHandler()
      requires Valid() && Enabled(cfg, Abs(), Job)
      modifies this, queue
      ensures Valid() && Next(cfg, old(Abs()), Job, Abs())
    {
      ghost var s := Abs();
      scheduleJob := false;
      previousFlow := NULL;
      if queuedLen != map[] {
        ScheduleFirst();
      }
      NextKeepsInv(cfg, s, Job, Abs());
    }

    /** input_handler_send */
    method InputHandlerSend(flow: Flow, len: int)
      requires Valid() && Enabled(cfg, Abs(), Send(flow, len))
      modifies this, queue
      ensures Valid() && Next(cfg, old(Abs()), Send(flow, len), Abs())
    {
      ghost var s := Abs();
      var now := GetCurrentTime();
      QueueFlow(flow, len, now);
      if sendingFlow == NULL && !scheduleJob {
        ScheduleFirst();
      }
      NextKeepsInv(cfg, s, Send(flow, len), Abs());
    }

    method SetTime(flow: Flow, t: int)
      requires InOrder() && flow !in queuedLen
      modifies this`time
      ensures time == old(time)[flow := t] && InOrder()
    {
      time := time[flow := t];
      SameTimes(old(time), time, queue.Contents());
    }

    method ForgetTime(flow: Flow)
      requires InOrder() && flow !in queuedLen
      modifies this`time
      ensures time == old(time) - {flow} && InOrder()
    {
      time := time - {flow};
      SameTimes(old(time), time, queue.Contents());
    }

    /** The first part of input_handler_send: raise the time and queue the flow. */
    method QueueFlow(flow: Flow, len: int, now: int)
      requires Known(Abs()) && InOrder() && flow in time && flow !in queuedLen && flow != NULL
      modifies this`time, this`previousFlow, this`queuedLen, queue
      ensures Abs() == Enqueued(old(Abs()), flow, len, now) && InOrder()
    {
      if flow == previousFlow {
        previousFlow := NULL;
      } else {
        SetTime(flow, Max(time[flow], now));
      }
      Enqueue(flow, len);
    }

    /** output_handler_done; the busy handler of the flow is called if it is set, and then unset. */
    method OutputHandlerDone() returns (flow: Flow, callBusy: bool)
      requires Valid() && Enabled(cfg, Abs(), Done)
      modifies this
      ensures Valid() && Next(cfg, old(Abs()), Done, Abs())
      ensures flow == old(sendingFlow) && (callBusy <==> flow in old(busyHandlers)) && flow !in busyHandlers
    {
      ghost var s := Abs();
      flow := sendingFlow;
      callBusy := flow in busyHandlers;
      FinishSending(flow);
      IncrementSentFlow(flow, cfg.weight + sendingLen);
      NextKeepsInv(cfg, s, Done, Abs());
    }

    method FinishSending(flow: Flow)
      modifies this`sendingFlow, this`previousFlow, this`scheduleJob, this`busyHandlers
      ensures sendingFlow == NULL && previousFlow == flow && scheduleJob && busyHandlers == old(busyHandlers) - {flow}
    {
      sendingFlow := NULL;
      previousFlow := flow;
      scheduleJob := true;
      busyHandlers := busyHandlers - {flow};
    }

    /** PacketPassFairQueueFlow_SetBusyHandler */
    method SetBusyHandler(flow: Flow)
      requires Valid() && Enabled(cfg, Abs(), SetBusy(flow))
      modifies this`busyHandlers
      ensures Valid() && Next(cfg, old(Abs()), SetBusy(flow), Abs())
    {
      busyHandlers := busyHandlers + {flow};
    }

    /** PacketPassFairQueue_PrepareFree */
    method PrepareToFree()
      requires Valid()
      modifies this`freeing
      ensures Valid() && Next(cfg, old(Abs()), PrepareFree, Abs())
    {
      freeing := true;
    }

    /** PacketPassFairQueueFlow_Init */
    method FlowInit(flow: Flow)
      requires Valid() && Enabled(cfg, Abs(), Open(flow))
      modifies this
      ensures Valid() && Next(cfg, old(Abs()), Open(flow), Abs())
    {
      ghost var s := Abs();
      SetTime(flow, 0);
      flows := flows + [flow];
      NextKeepsInv(cfg, s, Open(flow), Abs());
    }

    /** PacketPassFairQueueFlow_Free */
    method FlowFree(flow: Flow)
      requires Valid() && Enabled(cfg, Abs(), Close(flow))
      modifies this, queue
      ensures Valid() && Next(cfg, old(Abs()), Close(flow), Abs())
    {
      ghost var s := Abs();
      if flow == sendingFlow {
        sendingFlow := NULL;
      }
      if flow == previousFlow {
        previousFlow := NULL;
      }
      if flow in queuedLen {
        Dequeue(flow);
      }
      Forget(flow);
      ClosedState(s, Abs(), flow);
      NextKeepsInv(cfg, s, Close(flow), Abs());
    }

    /** The flow is taken out of the list and its fields are gone. */
    method Forget(flow: Flow)
      requires InOrder() && flow !in queuedLen
      modifies this`flows, this`time, this`busyHandlers
      ensures flows == Without(old(flows), flow) && time == old(time) - {flow} && busyHandlers == old(busyHandlers) - {flow}
      ensures InOrder()
    {
      flows := Without(flows, flow);
      busyHandlers := busyHandlers - {flow};
      ForgetTime(flow);
    }
  }

  lemma ClosedState(s: State, s': State, flow: Flow)
    requires s'.flows == Without(s.flows, flow) && s'.time == s.time - {flow} && s'.busy == s.busy - {flow}
    requires s'.queued == (if flow in s.queued then s.queued - {flow} else s.queued) && s'.job == s.job && s'.freeing == s.freeing
    requires s'.sending == (if flow == s.sending then NULL else s.sending) && s'.sendingLen == s.sendingLen
    requires s'.previous == if flow == s.previous then NULL else s.previous
    ensures s' == Closed(s, flow)
  {
    assert s'.queued == s.queued - {flow};
  }

  /** The tree needs no change when a flow outside it has sent, renormalised or not. */
  lemma IncrementKeepsOrder(s: State, f: Flow, amount: int, s': State, contents: seq<Flow>)
    requires Known(s) && InRange(s.time) && f in s.time && f !in s.queued && 0 < amount <= MAX_TIME
    requires forall g :: g in s.queued ==> s.time[f] <= s.time[g]
    requires Increment(s, f, amount, s')
    requires Sorted(CompareTimes(s.time), contents) && forall g :: g in contents <==> g in s.queued
    ensures Sorted(CompareTimes(s'.time), contents)
  {
    var subtract := IncrementTimes(s, f, amount, s');
    SameOrder(s.time, s'.time, contents);
  }

  /** The just finished flow underflows and then overflows back to its true time. */
  lemma WrapsBack(t: int, amount: int, subtract: int)
    requires 0 <= t <= MAX_TIME && 0 <= subtract <= MAX_TIME && 0 < amount <= MAX_TIME
    requires 0 <= t + amount - subtract <= MAX_TIME
    ensures Add64(Sub64(t, subtract), amount) == t + amount - subtract
  {
    if subtract <= t {
      assert Sub64(t, subtract) == t - subtract;
    } else {
      assert Sub64(t, subtract) == t - subtract + TWO64;
    }
  }
}
