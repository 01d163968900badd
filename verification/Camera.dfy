/**
 The camera's two image buffers and their reference counters, in the build without priorities: the capturing
 thread, the delivering thread and all other senders, interleaved step by step.
 */
module Camera {
  import opened Bytes
  import opened MsgQueue
  import opened StableQueue

  const BUF_COUNT := 2

  /** The counter and the flag of every buffer, and the index of the image published last. */
  datatype Buffers = Buffers(flag: seq<int>, counter: seq<int>, latest: int)

  predicate ValidBuffers(b: Buffers) {
    |b.flag| == BUF_COUNT && |b.counter| == BUF_COUNT && -1 <= b.latest < BUF_COUNT
  }

  function Take(b: Buffers, i: nat): Buffers
    requires ValidBuffers(b) && i < BUF_COUNT
  {
    b.(flag := b.flag[i := 1], counter := b.counter[i := b.counter[i] + 1])
  }

  /** Dropping a reference; the guard leaves a counter alone that is not positive. */
  function Drop(b: Buffers, i: nat): Buffers
    requires ValidBuffers(b) && i < BUF_COUNT
  {
    var counter := if b.counter[i] > 0 then b.counter[i := b.counter[i] - 1] else b.counter;
    b.(counter := counter, flag := if counter[i] == 0 then b.flag[i := 0] else b.flag)
  }

  /** What the release handler of the camera does with a message. */
  function Released(b: Buffers, m: Msg): Buffers
    requires ValidBuffers(b)
  {
    if m.data.CameraBuffer? && m.data.index < BUF_COUNT then Drop(b, m.data.index) else b
  }

  class CameraData {
    const flag: array<int>
    const counter: array<int>
    var latestIndex: int

    ghost predicate Valid()
      reads this, flag, counter
    {
      flag != counter && flag.Length == BUF_COUNT && counter.Length == BUF_COUNT && -1 <= latestIndex < BUF_COUNT
    }

    ghost function State(): (b: Buffers)
      requires Valid()
      reads this, flag, counter
      ensures ValidBuffers(b)
    {
      Buffers(flag[..], counter[..], latestIndex)
    }

    constructor ()
      ensures Valid() && fresh(flag) && fresh(counter)
      ensures State() == Buffers([0, 0], [0, 0], -1)
    {
      flag := new int[BUF_COUNT](_ => 0);
      counter := new int[BUF_COUNT](_ => 0);
      latestIndex := -1;
    }

    method ChangeImageTakenFlag(targetIndex: nat)
      requires Valid() && targetIndex < BUF_COUNT
      modifies flag, counter
      ensures Valid() && State() == Take(old(State()), targetIndex)
    {
      flag[targetIndex] := 1;
      counter[targetIndex] := counter[targetIndex] + 1;
    }

    method ResetImageTakenFlag(targetIndex: nat)
      requires Valid() && targetIndex < BUF_COUNT
      modifies flag, counter
      ensures Valid() && State() == Drop(old(State()), targetIndex)
    {
      if counter[targetIndex] > 0 {
        counter[targetIndex] := counter[targetIndex] - 1;
      }
      if counter[targetIndex] == 0 {
        flag[targetIndex] := 0;
      }
    }

    method MsgReleaseHandler(m: Msg)
      requires Valid()
      modifies flag, counter
      ensures Valid() && State() == Released(old(State()), m)
    {
      if m.data.CameraBuffer? {
        if m.data.index < BUF_COUNT {
          ResetImageTakenFlag(m.data.index);
        }
      }
    }

    /** The locked part of the capturing loop: a buffer is published only when its counter is zero. */
    method Publish(writeIndex: nat) returns (published: bool, nextIndex: nat)
      requires Valid() && writeIndex < BUF_COUNT
      modifies this`latestIndex
      ensures Valid() && published == (old(State()).counter[writeIndex] == 0)
      ensures State() == if published then old(State()).(latest := writeIndex) else old(State())
      ensures nextIndex == if published then (writeIndex + 1) % BUF_COUNT else writeIndex
    {
      published, nextIndex := false, writeIndex;
      if counter[writeIndex] == 0 {
        latestIndex := writeIndex;
        nextIndex := (writeIndex + 1) % BUF_COUNT;
        published := true;
      }
    }
  }

  // ---- The interleaved system ----

  /** Where the capturing thread stands. A refused message still has to be released by its sender. */
  datatype Pc =
    | Capture
    | FirstReference | SecondReference
    | Dispatch(dst: Module)
    | Refused(dst: Module)
    | AlarmDue
    | AlarmReference

  datatype System = System(buffers: Buffers, writeIndex: nat, pc: Pc, bus: Bus, inflight: Option<Msg>)

  /**
   Camera: the capturing thread's next step; the argument says whether an alarm image is due. Other: a send from
   elsewhere. Deliver: a message is taken for its handler. Release: the handler is done, the message is released.
   */
  datatype Event = Camera(alarmDue: bool) | Other(msg: Msg) | Deliver | Release

  function Initial(): System {
    System(Buffers([0, 0], [0, 0], -1), 0, Capture, Bus([], seq(RING_SIZE, (i: nat) => []), 0), None)
  }

  predicate WellFormed(s: System) {
    ValidBuffers(s.buffers) && s.writeIndex < BUF_COUNT && ValidBus(s.bus) &&
    (s.pc != Capture ==> s.buffers.latest >= 0)
  }

  const IMAGE_SIZE: nat := 32

  function ImageOf(s: System, dst: Module): Msg
    requires WellFormed(s) && s.pc != Capture
  {
    Msg(V4l2Module, dst, IMAGE_SIZE, ImageMsg, NORMAL_PRIORITY, CameraBuffer(s.buffers.latest))
  }

  function AfterDispatch(dst: Module): Pc {
    match dst
    case UdpModule => Dispatch(StorageModule)
    case StorageModule => AlarmDue
    case _ => Capture
  }

  function CameraStep(s: System, alarmDue: bool): (r: System)
    requires WellFormed(s)
    ensures WellFormed(r)
  {
    match s.pc
    case Capture =>
      if s.buffers.counter[s.writeIndex] == 0 then
        s.(buffers := s.buffers.(latest := s.writeIndex),
           writeIndex := (s.writeIndex + 1) % BUF_COUNT, pc := FirstReference)
      else s
    case FirstReference => s.(buffers := Take(s.buffers, s.buffers.latest), pc := SecondReference)
    case SecondReference => s.(buffers := Take(s.buffers, s.buffers.latest), pc := Dispatch(UdpModule))
    case Dispatch(dst) =>
      if |s.bus.queue| >= QUEUE_SIZE then s.(pc := Refused(dst))
      else s.(bus := Send(s.bus, ImageOf(s, dst), Fifo), pc := AfterDispatch(dst))
    case Refused(dst) => s.(buffers := Released(s.buffers, ImageOf(s, dst)), pc := AfterDispatch(dst))
    case AlarmDue => s.(pc := if alarmDue then AlarmReference else Capture)
    case AlarmReference => s.(buffers := Take(s.buffers, s.buffers.latest), pc := Dispatch(AlarmModule))
  }

  function Step(s: System, e: Event): (r: System)
    requires WellFormed(s)
    ensures WellFormed(r)
  {
    match e
    case Camera(alarmDue) => CameraStep(s, alarmDue)
    case Other(m) => s.(bus := Send(s.bus, m, Fifo))
    case Deliver =>
      if s.inflight == None && s.bus.queue != [] then
        s.(inflight := Some(s.bus.queue[0]), bus := s.bus.(queue := s.bus.queue[1..]))
      else s
    case Release =>
      if s.inflight == None then s
      else if s.inflight.value.src == V4l2Module then
        s.(buffers := Released(s.buffers, s.inflight.value), inflight := None)
      else s.(inflight := None)
  }

  function Run(events: seq<Event>): (s: System)
    ensures WellFormed(s)
  {
    if events == [] then Initial() else Step(Run(events[..|events| - 1]), events[|events| - 1])
  }

  /** Only the capturing thread sends in the camera's name. */
  predicate Admissible(e: Event) {
    e.Other? ==> e.msg.src != V4l2Module
  }

  // ---- Counting references ----

  predicate RefersTo(m: Msg, i: nat) {
    m.src == V4l2Module && m.data == CameraBuffer(i)
  }

  function One(b: bool): nat {
    if b then 1 else 0
  }

  function Queued(q: seq<Msg>, i: nat): nat {
    if q == [] then 0 else Queued(q[..|q| - 1], i) + One(RefersTo(q[|q| - 1], i))
  }

  /** The messages about buffer `i` that are queued or in flight. */
  function Outstanding(s: System, i: nat): nat {
    Queued(s.bus.queue, i) + One(s.inflight.Some? && RefersTo(s.inflight.value, i))
  }

  /** References taken for messages that are not yet sent, or were refused and are not yet released. */
  function InHand(pc: Pc): nat {
    match pc
    case Capture => 0
    case FirstReference => 0
    case SecondReference => 1
    case Dispatch(dst) => if dst == UdpModule then 2 else 1
    case Refused(dst) => if dst == UdpModule then 2 else 1
    case AlarmDue => 0
    case AlarmReference => 0
  }

  function Owed(s: System, i: nat): nat {
    Outstanding(s, i) + if s.buffers.latest == i then InHand(s.pc) else 0
  }

  predicate CountsRight(s: System, i: nat)
    requires WellFormed(s) && i < BUF_COUNT
  {
    s.buffers.counter[i] == Owed(s, i) && s.buffers.flag[i] == One(Owed(s, i) > 0)
  }

  predicate CameraMessage(m: Msg) {
    m.src == V4l2Module ==> m.data.CameraBuffer? && m.data.index < BUF_COUNT
  }

  ghost predicate Inv(s: System) {
    WellFormed(s) && CountsRight(s, 0) && CountsRight(s, 1) &&
    (s.inflight.Some? ==> CameraMessage(s.inflight.value)) &&
    forall k | 0 <= k < |s.bus.queue| :: CameraMessage(s.bus.queue[k])
  }

  lemma QueuedAtEnd(q: seq<Msg>, m: Msg, i: nat)
    ensures Queued(q + [m], i) == Queued(q, i) + One(RefersTo(m, i))
  {
    assert (q + [m])[..|q + [m]| - 1] == q;
  }

  lemma {:induction false} QueuedAtFront(q: seq<Msg>, i: nat)
    requires q != []
    ensures Queued(q, i) == One(RefersTo(q[0], i)) + Queued(q[1..], i)
  {
    if |q| > 1 {
      QueuedAtFront(q[..|q| - 1], i);
      assert q[..|q| - 1][1..] == q[1..][..|q[1..]| - 1];
    } else {
      assert q[..0] == [] && q[1..] == [];
    }
  }

  lemma DispatchKeepsInv(s: System, alarmDue: bool)
    requires Inv(s) && s.pc.Dispatch?
    ensures Inv(CameraStep(s, alarmDue))
  {
    hide Queued, LogCopy, Insert;
    var m := ImageOf(s, s.pc.dst);
    InsertFifo(s.bus.queue, m);
    QueuedAtEnd(s.bus.queue, m, 0);
    QueuedAtEnd(s.bus.queue, m, 1);
  }

  lemma CameraKeepsInv(s: System, alarmDue: bool)
    requires Inv(s)
    ensures Inv(CameraStep(s, alarmDue))
  {
    hide Queued, Send;
    if s.pc.Dispatch? {
      hide *;
      DispatchKeepsInv(s, alarmDue);
    }
  }

  lemma OtherKeepsInv(s: System, m: Msg)
    requires Inv(s) && m.src != V4l2Module
    ensures Inv(Step(s, Other(m)))
  {
    hide Queued, LogCopy, Insert;
    var queued := Prepared(s.bus, m);
    InsertFifo(s.bus.queue, queued);
    QueuedAtEnd(s.bus.queue, queued, 0);
    QueuedAtEnd(s.bus.queue, queued, 1);
  }

  lemma DeliverKeepsInv(s: System)
    requires Inv(s)
    ensures Inv(Step(s, Deliver))
  {
    if s.bus.queue != [] {
      QueuedAtFront(s.bus.queue, 0);
      QueuedAtFront(s.bus.queue, 1);
    }
  }

  lemma ReleaseKeepsInv(s: System)
    requires Inv(s)
    ensures Inv(Step(s, Release))
  {
  }

  lemma StepKeepsInv(s: System, e: Event)
    requires Inv(s) && Admissible(e)
    ensures Inv(Step(s, e))
  {
    hide Inv;
    match e
    case Camera(alarmDue) => CameraKeepsInv(s, alarmDue);
    case Other(m) => OtherKeepsInv(s, m);
    case Deliver => DeliverKeepsInv(s);
    case Release => ReleaseKeepsInv(s);
  }

  lemma {:induction false} RunKeepsInv(events: seq<Event>)
    requires forall e | e in events :: Admissible(e)
    ensures Inv(Run(events))
  {
    if events == [] {
    } else {
      hide Inv, Step;
      RunKeepsInv(events[..|events| - 1]);
      StepKeepsInv(Run(events[..|events| - 1]), events[|events| - 1]);
    }
  }

  /**
   In every reachable state each counter is the number of messages about the buffer that are queued or in flight
   plus the references taken but not dispatched, and the flag says whether that is zero.
   */
  lemma ReferencesAreConserved(events: seq<Event>, i: nat)
    requires forall e | e in events :: Admissible(e)
    requires i < BUF_COUNT
    ensures var s := Run(events);
      s.buffers.counter[i] == Owed(s, i) && s.buffers.flag[i] == One(Owed(s, i) > 0)
  {
    RunKeepsInv(events);
  }

  /** The capturing thread publishes the next buffer if and only if no message still refers to it. */
  lemma PublishedOnlyWhenFree(events: seq<Event>)
    requires forall e | e in events :: Admissible(e)
    requires Run(events).pc == Capture
    ensures var s := Run(events);
      CameraStep(s, false).pc == FirstReference <==> Outstanding(s, s.writeIndex) == 0
  {
    hide Run, Outstanding;
    RunKeepsInv(events);
  }

  /** Every drop finds a positive counter: the guard never hides an underflow. */
  lemma GuardNeverBites(events: seq<Event>)
    requires forall e | e in events :: Admissible(e)
    ensures var s := Run(events);
      s.pc.Refused? ==> s.buffers.counter[s.buffers.latest] > 0
    ensures var s := Run(events);
      s.inflight.Some? && s.inflight.value.src == V4l2Module ==>
        s.inflight.value.data.CameraBuffer? && s.inflight.value.data.index < BUF_COUNT &&
        s.buffers.counter[s.inflight.value.data.index] > 0
  {
    RunKeepsInv(events);
  }

  /** When everything sent has been released, both buffers are free again: no reference leaks. */
  lemma NothingLeaks(events: seq<Event>)
    requires forall e | e in events :: Admissible(e)
    requires Run(events).pc == Capture && Run(events).bus.queue == [] && Run(events).inflight == None
    ensures Run(events).buffers.counter == [0, 0] && Run(events).buffers.flag == [0, 0]
  {
    RunKeepsInv(events);
  }
}
