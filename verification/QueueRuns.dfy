/** Runs of the message queue itself: what the numbered queue promises holds of the messages. */
module QueueRuns {
  import opened MsgQueue
  import opened StableQueue

  datatype Call = SendCall(m: Msg) | PopCall

  /** A message with its number in order of arrival. */
  datatype Tagged = Tagged(msg: Msg, arrival: nat)

  /** The bus, and what went through its queue so far. */
  datatype Trace = Trace(bus: Bus, queue: seq<Tagged>, arrivals: nat, accepted: seq<Tagged>, popped: seq<Tagged>)

  function PopBus(b: Bus): Bus {
    if b.queue == [] then b else b.(queue := b.queue[1..])
  }

  /** The calls of the queue on its own state. */
  function CallStep(b: Bus, call: Call, mode: Mode): (r: Bus)
    requires ValidBus(b)
    ensures ValidBus(r)
  {
    match call
    case SendCall(m) => Send(b, m, mode)
    case PopCall => PopBus(b)
  }

  function EmptyBus(): Bus {
    Bus([], seq(RING_SIZE, (i: nat) => []), 0)
  }

  function BusAfter(calls: seq<Call>, mode: Mode): (b: Bus)
    ensures ValidBus(b)
  {
    if calls == [] then EmptyBus() else CallStep(BusAfter(calls[..|calls| - 1], mode), calls[|calls| - 1], mode)
  }

  function TaggedRanking(mode: Mode): Tagged -> int {
    (t: Tagged) => PriorityIn(mode, t.msg)
  }

  function MsgOf(): Tagged -> Msg {
    (t: Tagged) => t.msg
  }

  function ItemOf(mode: Mode): Tagged -> Item {
    (t: Tagged) => Item(PriorityIn(mode, t.msg), t.arrival)
  }

  /** The same calls with their history. */
  function TraceStep(t: Trace, call: Call, mode: Mode): (r: Trace)
    requires ValidBus(t.bus)
    ensures ValidBus(r.bus)
  {
    var bus := CallStep(t.bus, call, mode);
    match call
    case SendCall(m) =>
      if |t.bus.queue| >= QUEUE_SIZE then t.(bus := bus, arrivals := t.arrivals + 1)
      else
        var e := Tagged(Prepared(t.bus, m), t.arrivals);
        Trace(bus, Insert(t.queue, e, TaggedRanking(mode)), t.arrivals + 1, t.accepted + [e], t.popped)
    case PopCall =>
      if t.queue == [] then t.(bus := bus)
      else t.(bus := bus, queue := t.queue[1..], popped := t.popped + [t.queue[0]])
  }

  function TraceOf(calls: seq<Call>, mode: Mode): (t: Trace)
    ensures ValidBus(t.bus)
  {
    if calls == [] then Trace(EmptyBus(), [], 0, [], [])
    else TraceStep(TraceOf(calls[..|calls| - 1], mode), calls[|calls| - 1], mode)
  }

  function OpOf(call: Call, mode: Mode): Op {
    match call
    case SendCall(m) => Push(PriorityIn(mode, m))
    case PopCall => Pop
  }

  function OpsOf(calls: seq<Call>, mode: Mode): (ops: seq<Op>)
    ensures |ops| == |calls|
  {
    if calls == [] then [] else OpsOf(calls[..|calls| - 1], mode) + [OpOf(calls[|calls| - 1], mode)]
  }

  /** The trace seen as a run of the numbered queue. */
  function RunIn(t: Trace, mode: Mode): Run {
    Run(MapSeq(t.queue, ItemOf(mode)), t.arrivals, MapSeq(t.accepted, ItemOf(mode)), MapSeq(t.popped, ItemOf(mode)))
  }

  ghost predicate Tied(t: Trace, r: Run, mode: Mode) {
    MapSeq(t.queue, MsgOf()) == t.bus.queue && RunIn(t, mode) == r
  }

  lemma MapSeqRest<T, U>(q: seq<T>, f: T -> U)
    requires q != []
    ensures MapSeq(q, f)[1..] == MapSeq(q[1..], f) && MapSeq(q, f)[0] == f(q[0])
  {
  }

  lemma MapSeqNext<T, U>(q: seq<T>, x: T, f: T -> U)
    ensures MapSeq(q + [x], f) == MapSeq(q, f) + [f(x)]
  {
  }

  lemma SendTied(t: Trace, r: Run, m: Msg, mode: Mode)
    requires ValidBus(t.bus) && Tied(t, r, mode)
    ensures Tied(TraceStep(t, SendCall(m), mode), Step(r, Push(PriorityIn(mode, m))), mode)
  {
    if |t.bus.queue| < QUEUE_SIZE {
      var e := Tagged(Prepared(t.bus, m), t.arrivals);
      assert PriorityIn(mode, e.msg) == PriorityIn(mode, m);
      InsertMapped(t.queue, e, MsgOf(), TaggedRanking(mode), Ranking(mode));
      InsertMapped(t.queue, e, ItemOf(mode), TaggedRanking(mode), PriorityOf);
      MapSeqNext(t.accepted, e, ItemOf(mode));
    }
    hide Insert, MapSeq;
  }

  lemma PopTied(t: Trace, r: Run, mode: Mode)
    requires ValidBus(t.bus) && Tied(t, r, mode)
    ensures Tied(TraceStep(t, PopCall, mode), Step(r, Pop), mode)
  {
    if t.queue != [] {
      MapSeqRest(t.queue, MsgOf());
      MapSeqRest(t.queue, ItemOf(mode));
      MapSeqNext(t.popped, t.queue[0], ItemOf(mode));
    }
  }

  /** Every run of the queue is a run of the numbered queue, in both build variants. */
  lemma {:induction false} EveryTraceIsTied(calls: seq<Call>, mode: Mode)
    ensures TraceOf(calls, mode).bus == BusAfter(calls, mode)
    ensures Tied(TraceOf(calls, mode), RunOf(OpsOf(calls, mode)), mode)
  {
    hide TraceStep, Tied, Step, CallStep;
    if calls == [] {
      NothingTied(mode);
    } else {
      var k := |calls| - 1;
      EveryTraceIsTied(calls[..k], mode);
      assert OpsOf(calls, mode)[..k] == OpsOf(calls[..k], mode);
      TraceStepBus(TraceOf(calls[..k], mode), calls[k], mode);
      match calls[k]
      case SendCall(m) => SendTied(TraceOf(calls[..k], mode), RunOf(OpsOf(calls[..k], mode)), m, mode);
      case PopCall => PopTied(TraceOf(calls[..k], mode), RunOf(OpsOf(calls[..k], mode)), mode);
    }
  }

  lemma NothingTied(mode: Mode)
    ensures Tied(Trace(EmptyBus(), [], 0, [], []), EMPTY, mode)
  {
  }

  lemma TraceStepBus(t: Trace, call: Call, mode: Mode)
    requires ValidBus(t.bus)
    ensures TraceStep(t, call, mode).bus == CallStep(t.bus, call, mode)
  {
    hide CallStep, Insert;
  }

  // ---- What this means for the messages ----

  /** Whoever was handed out ahead of an earlier arrival was strictly more urgent. */
  ghost predicate ServedFairly(t: Trace, mode: Mode) {
    (forall i, j | 0 <= i < j < |t.popped| && t.popped[j].arrival < t.popped[i].arrival ::
       PriorityIn(mode, t.popped[i].msg) > PriorityIn(mode, t.popped[j].msg)) &&
    (forall x, y | x in t.popped && y in t.queue && y.arrival < x.arrival ::
       PriorityIn(mode, x.msg) > PriorityIn(mode, y.msg))
  }

  lemma FairItemsFairMessages(t: Trace, mode: Mode)
    requires FairOvertaking(RunIn(t, mode))
    ensures ServedFairly(t, mode)
  {
    var r := RunIn(t, mode);
    forall i, j | 0 <= i < j < |t.popped| && t.popped[j].arrival < t.popped[i].arrival
      ensures PriorityIn(mode, t.popped[i].msg) > PriorityIn(mode, t.popped[j].msg)
    {
      assert r.popped[j].arrival < r.popped[i].arrival;
    }
    forall x, y | x in t.popped && y in t.queue && y.arrival < x.arrival
      ensures PriorityIn(mode, x.msg) > PriorityIn(mode, y.msg)
    {
      MapSeqIn(t.popped, x, ItemOf(mode));
      MapSeqIn(t.queue, y, ItemOf(mode));
    }
  }

  lemma MapSeqIn<T, U>(q: seq<T>, x: T, f: T -> U)
    requires x in q
    ensures f(x) in MapSeq(q, f)
  {
    var i :| 0 <= i < |q| && q[i] == x;
    assert MapSeq(q, f)[i] == f(x);
  }

  ghost predicate AllThere(t: Trace) {
    multiset(t.accepted) == multiset(t.popped) + multiset(t.queue)
  }

  lemma SendKeepsAll(t: Trace, m: Msg, mode: Mode)
    requires ValidBus(t.bus) && AllThere(t)
    ensures AllThere(TraceStep(t, SendCall(m), mode))
  {
    if |t.bus.queue| < QUEUE_SIZE {
      InsertContents(t.queue, Tagged(Prepared(t.bus, m), t.arrivals), TaggedRanking(mode));
    }
    hide Insert, CallStep, TaggedRanking, Prepared;
  }

  lemma PopKeepsAll(t: Trace, mode: Mode)
    requires ValidBus(t.bus) && AllThere(t)
    ensures AllThere(TraceStep(t, PopCall, mode))
  {
    hide CallStep;
    if t.queue != [] {
      assert t.queue == [t.queue[0]] + t.queue[1..];
    }
  }

  lemma {:induction false} NothingLost(calls: seq<Call>, mode: Mode)
    ensures AllThere(TraceOf(calls, mode))
  {
    hide AllThere, TraceStep;
    if calls == [] {
      NothingYet();
    } else {
      var k := |calls| - 1;
      NothingLost(calls[..k], mode);
      match calls[k]
      case SendCall(m) => SendKeepsAll(TraceOf(calls[..k], mode), m, mode);
      case PopCall => PopKeepsAll(TraceOf(calls[..k], mode), mode);
    }
  }

  lemma NothingYet()
    ensures AllThere(Trace(EmptyBus(), [], 0, [], []))
  {
  }

  lemma {:induction false} FifoTrace(calls: seq<Call>)
    ensures var t := TraceOf(calls, Fifo); t.accepted == t.popped + t.queue
  {
    if calls != [] {
      var k := |calls| - 1;
      var t := TraceOf(calls[..k], Fifo);
      FifoTrace(calls[..k]);
      hide TraceOf, CallStep;
      match calls[k]
      case SendCall(m) => InsertLast(t.queue, Tagged(Prepared(t.bus, m), t.arrivals));
      case PopCall =>
        if t.queue != [] {
          assert t.queue == [t.queue[0]] + t.queue[1..];
        }
    }
  }

  lemma InsertLast(q: seq<Tagged>, e: Tagged)
    ensures Insert(q, e, TaggedRanking(Fifo)) == q + [e]
  {
  }

  /**
   Over every run of sends and pops, in both build variants: the messages waiting are those of the queue, a message
   overtakes another only with strictly higher priority, nothing accepted is lost or handed out twice, and without
   priorities the messages leave in the order in which they were accepted.
   */
  lemma MessagesServedStably(calls: seq<Call>, mode: Mode)
    ensures var t := TraceOf(calls, mode);
      t.bus == BusAfter(calls, mode) && MapSeq(t.queue, MsgOf()) == t.bus.queue &&
      ServedFairly(t, mode) && AllThere(t) &&
      (mode == Fifo ==> t.accepted == t.popped + t.queue)
  {
    hide TraceOf, BusAfter, RunOf, OpsOf, FairOvertaking, ServedFairly, Ordered;
    EveryTraceIsTied(calls, mode);
    EveryRunIsStable(OpsOf(calls, mode));
    FairItemsFairMessages(TraceOf(calls, mode), mode);
    NothingLost(calls, mode);
    if mode == Fifo {
      FifoTrace(calls);
    }
  }
}
