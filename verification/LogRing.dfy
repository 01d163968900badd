/**
 The queue, the log ring and the one delivering thread as a system of steps. Every log message still to be
 handled finds its own bytes in the ring, in both build modes.
 */
module LogRing {
  import opened Bytes
  import opened StableQueue
  import opened MsgQueue

  /** A queued message, with the number of ring allocations before it and the message as it was sent. */
  datatype Entry = Entry(msg: Msg, alloc: nat, sent: Msg)

  datatype Machine = Machine(
    queue: seq<Entry>, inflight: Option<Entry>, ring: seq<seq<byte>>, logIdx: nat, allocs: nat)

  /** Any thread sends; the delivering thread takes a message, and finishes with it after handler and release. */
  datatype Event = SendMsg(msg: Msg) | Deliver | Finish

  function Initial(): Machine {
    Machine([], None, seq(RING_SIZE, (i: nat) => []), 0, 0)
  }

  function MsgOf(e: Entry): Msg {
    e.msg
  }

  function EntryRanking(mode: Mode): Entry -> int {
    (e: Entry) => PriorityIn(mode, e.msg)
  }

  /** The system without the bookkeeping. */
  function BusOf(s: Machine): Bus {
    Bus(MapSeq(s.queue, MsgOf), s.ring, s.logIdx)
  }

  predicate WellFormed(s: Machine) {
    ValidBus(BusOf(s))
  }

  function SendStep(s: Machine, m: Msg, mode: Mode): Machine
    requires WellFormed(s)
  {
    if |s.queue| >= QUEUE_SIZE then s
    else
      var after := AfterPrepare(BusOf(s), m);
      var e := Entry(Prepared(BusOf(s), m), s.allocs, m);
      Machine(Insert(s.queue, e, EntryRanking(mode)), s.inflight, after.ring, after.logIdx,
             if NeedsCopy(m) then s.allocs + 1 else s.allocs)
  }

  function Step(s: Machine, e: Event, mode: Mode): (r: Machine)
    requires WellFormed(s)
    ensures WellFormed(r)
  {
    match e
    case SendMsg(m) => SendStep(s, m, mode)
    case Deliver =>
      if s.inflight == None && s.queue != [] then s.(inflight := Some(s.queue[0]), queue := s.queue[1..]) else s
    case Finish => s.(inflight := None)
  }

  function Run(events: seq<Event>, mode: Mode): (s: Machine)
    ensures WellFormed(s)
  {
    if events == [] then Initial() else Step(Run(events[..|events| - 1], mode), events[|events| - 1], mode)
  }

  /** Forgetting the bookkeeping turns a send step into the queue's own send. */
  lemma SendStepIsSend(s: Machine, m: Msg, mode: Mode)
    requires WellFormed(s)
    ensures BusOf(SendStep(s, m, mode)) == Send(BusOf(s), m, mode)
  {
    if |s.queue| < QUEUE_SIZE {
      var e := Entry(Prepared(BusOf(s), m), s.allocs, m);
      InsertMapped(s.queue, e, MsgOf, EntryRanking(mode), Ranking(mode));
    }
  }

  /**
   What senders do: they never point into the ring, which is private to the queue, and log messages all go
   through the dispatch that gives them normal priority.
   */
  predicate Admissible(e: Event) {
    e.SendMsg? ==> !e.msg.data.LogSlot? && (e.msg.msgType == LogMsg ==> e.msg.priority == NORMAL_PRIORITY)
  }

  // ---- Log messages in a queue ----

  predicate IsLog(e: Entry) {
    e.msg.data.LogSlot?
  }

  function Logs(q: seq<Entry>): (r: seq<Entry>)
    ensures |r| <= |q|
    ensures forall e | e in r :: e in q && IsLog(e)
  {
    if q == [] then []
    else
      var k := |q| - 1;
      if IsLog(q[k]) then Logs(q[..k]) + [q[k]] else Logs(q[..k])
  }

  lemma {:induction false} LogsOfConcat(a: seq<Entry>, b: seq<Entry>)
    ensures Logs(a + b) == Logs(a) + Logs(b)
  {
    if b == [] {
      assert a + b == a;
    } else {
      var k := |b| - 1;
      assert (a + b)[..|a + b| - 1] == a + b[..k];
      LogsOfConcat(a, b[..k]);
    }
  }

  /** Inserting a message that is no log leaves the logs alone. */
  lemma {:induction false} InsertOther(q: seq<Entry>, e: Entry, mode: Mode)
    requires !IsLog(e)
    ensures Logs(Insert(q, e, EntryRanking(mode))) == Logs(q)
  {
    if q == [] {
      LogsOfConcat([], [e]);
    } else {
      var k := |q| - 1;
      InsertOther(q[..k], e, mode);
      LogsOfConcat(q, [e]);
      LogsOfConcat(Insert(q[..k], e, EntryRanking(mode)), [q[k]]);
    }
  }

  ghost predicate LogsNormal(q: seq<Entry>) {
    forall e | e in q && IsLog(e) :: e.msg.priority == NORMAL_PRIORITY
  }

  /** A log message ends up behind all other log messages, whatever else it overtakes. */
  lemma {:induction false} InsertLog(q: seq<Entry>, e: Entry, mode: Mode)
    requires IsLog(e) && e.msg.priority == NORMAL_PRIORITY && LogsNormal(q)
    ensures Logs(Insert(q, e, EntryRanking(mode))) == Logs(q) + [e]
  {
    if q != [] {
      var k := |q| - 1;
      if PriorityIn(mode, q[k].msg) < PriorityIn(mode, e.msg) {
        assert q[k] in q;
        InsertLog(q[..k], e, mode);
        LogsOfConcat(Insert(q[..k], e, EntryRanking(mode)), [q[k]]);
      } else {
        LogsOfConcat(q, [e]);
      }
    }
  }

  // ---- Safety ----

  /** The log messages still to be handled: the one in flight, then the queued ones in order. */
  function Pending(s: Machine): seq<Entry> {
    (if s.inflight.Some? && IsLog(s.inflight.value) then [s.inflight.value] else []) + Logs(s.queue)
  }

  ghost predicate SlotHolds(ring: seq<seq<byte>>, e: Entry)
    requires |ring| == RING_SIZE
  {
    e.msg.data == LogSlot(e.alloc % RING_SIZE) && ring[e.alloc % RING_SIZE] == LogCopy(e.sent)
  }

  /** The pending log messages are the latest allocations, one after the other, and their copies are intact. */
  ghost predicate Ledger(p: seq<Entry>, ring: seq<seq<byte>>, allocs: nat)
    requires |ring| == RING_SIZE
  {
    |p| <= allocs && forall k | 0 <= k < |p| :: p[k].alloc == allocs - |p| + k && SlotHolds(ring, p[k])
  }

  ghost predicate Inv(s: Machine) {
    WellFormed(s) && s.logIdx == s.allocs % RING_SIZE &&
    LogsNormal(s.queue) && Ledger(Pending(s), s.ring, s.allocs)
  }

  lemma DistinctSlots(a: nat, b: nat)
    requires a < b < a + RING_SIZE
    ensures a % RING_SIZE != b % RING_SIZE
  {
  }

  /** One more allocation overwrites the slot of no pending message: there are fewer than 64 of them. */
  lemma LedgerGrows(p: seq<Entry>, ring: seq<seq<byte>>, allocs: nat, e: Entry)
    requires |ring| == RING_SIZE && |p| < RING_SIZE && Ledger(p, ring, allocs)
    requires e.alloc == allocs && e.msg.data == LogSlot(allocs % RING_SIZE)
    ensures Ledger(p + [e], ring[allocs % RING_SIZE := LogCopy(e.sent)], allocs + 1)
  {
    forall k | 0 <= k < |p| ensures SlotHolds(ring[allocs % RING_SIZE := LogCopy(e.sent)], p[k]) {
      DistinctSlots(p[k].alloc, allocs);
    }
  }

  lemma LedgerShrinks(p: seq<Entry>, ring: seq<seq<byte>>, allocs: nat)
    requires |ring| == RING_SIZE && p != [] && Ledger(p, ring, allocs)
    ensures Ledger(p[1..], ring, allocs)
  {
    forall k | 0 <= k < |p| - 1 ensures p[1..][k].alloc == allocs - |p[1..]| + k && SlotHolds(ring, p[1..][k]) {
      assert p[1..][k] == p[k + 1];
    }
  }

  lemma PendingSize(s: Machine)
    ensures |Pending(s)| <= |s.queue| + 1
  {
  }

  lemma SendLogKeepsInv(s: Machine, m: Msg, mode: Mode)
    requires Inv(s) && NeedsCopy(m) && m.priority == NORMAL_PRIORITY && |s.queue| < QUEUE_SIZE
    ensures Inv(SendStep(s, m, mode))
  {
    hide Insert, LogCopy, Ledger, Logs, MapSeq;
    var r := SendStep(s, m, mode);
    var e := Entry(Prepared(BusOf(s), m), s.allocs, m);
    InsertLog(s.queue, e, mode);
    InsertMembers(s.queue, e, EntryRanking(mode));
    assert Pending(r) == Pending(s) + [e];
    PendingSize(s);
    LedgerGrows(Pending(s), s.ring, s.allocs, e);
  }

  lemma SendOtherKeepsInv(s: Machine, m: Msg, mode: Mode)
    requires Inv(s) && !NeedsCopy(m) && !m.data.LogSlot? && |s.queue| < QUEUE_SIZE
    ensures Inv(SendStep(s, m, mode))
  {
    hide Insert, LogCopy, Ledger, Logs, MapSeq;
    var e := Entry(Prepared(BusOf(s), m), s.allocs, m);
    InsertOther(s.queue, e, mode);
    InsertMembers(s.queue, e, EntryRanking(mode));
    assert Pending(SendStep(s, m, mode)) == Pending(s);
  }

  lemma DeliverKeepsInv(s: Machine, mode: Mode)
    requires Inv(s)
    ensures Inv(Step(s, Deliver, mode))
  {
    if s.inflight == None && s.queue != [] {
      var r := Step(s, Deliver, mode);
      assert s.queue == [s.queue[0]] + s.queue[1..];
      LogsOfConcat([s.queue[0]], s.queue[1..]);
      assert Logs([s.queue[0]]) == if IsLog(s.queue[0]) then [s.queue[0]] else [];
      assert Pending(r) == Pending(s);
    }
  }

  lemma FinishKeepsInv(s: Machine, mode: Mode)
    requires Inv(s)
    ensures Inv(Step(s, Finish, mode))
  {
    hide Ledger;
    var r := Step(s, Finish, mode);
    if s.inflight.Some? && IsLog(s.inflight.value) {
      assert Pending(r) == Pending(s)[1..];
      LedgerShrinks(Pending(s), s.ring, s.allocs);
    } else {
      assert Pending(r) == Pending(s);
    }
  }

  lemma StepKeepsInv(s: Machine, e: Event, mode: Mode)
    requires Inv(s) && Admissible(e)
    ensures Inv(Step(s, e, mode))
  {
    hide Inv;
    match e
    case Deliver => DeliverKeepsInv(s, mode);
    case Finish => FinishKeepsInv(s, mode);
    case SendMsg(m) =>
      if |s.queue| < QUEUE_SIZE {
        if NeedsCopy(m) {
          SendLogKeepsInv(s, m, mode);
        } else {
          SendOtherKeepsInv(s, m, mode);
        }
      }
  }

  lemma {:induction false} RunKeepsInv(events: seq<Event>, mode: Mode)
    requires forall e | e in events :: Admissible(e)
    ensures Inv(Run(events, mode))
  {
    hide Inv, Step;
    if events == [] {
      InitialInv();
    } else {
      RunKeepsInv(events[..|events| - 1], mode);
      StepKeepsInv(Run(events[..|events| - 1], mode), events[|events| - 1], mode);
    }
  }

  lemma InitialInv()
    ensures Inv(Initial())
  {
  }

  // ---- What is handled is what was sent ----

  /** A ring entry: the first bytes of the data of `sent`, as many as announced and as fit, and zeros behind them. */
  predicate BytesOf(slot: seq<byte>, sent: Msg) {
    |slot| == 88 &&
    forall k | 0 <= k < 88 ::
      slot[k] == if k < sent.dataLen && sent.data.Memory? && k < |sent.data.bytes| then sent.data.bytes[k] else 0
  }

  lemma CopyIsBytes(sent: Msg)
    ensures BytesOf(LogCopy(sent), sent)
  {
    var slot := LogCopy(sent);
    forall k: nat | k < 88
      ensures slot[k] ==
        if k < sent.dataLen && sent.data.Memory? && k < |sent.data.bytes| then sent.data.bytes[k] else 0
    {
      assert k < CopyLength(sent) <==> k < sent.dataLen;
    }
  }

  /** Pending log message `i` owns its ring entry, and the entry holds the bytes of the message sent. */
  ghost predicate OwnsItsSlot(s: Machine, i: nat)
    requires WellFormed(s) && i < |Pending(s)|
  {
    var e := Pending(s)[i];
    e.msg.data.LogSlot? && e.msg.data.index < RING_SIZE && BytesOf(s.ring[e.msg.data.index], e.sent) &&
    forall j | 0 <= j < |Pending(s)| && j != i :: Pending(s)[j].msg.data != e.msg.data
  }

  lemma InvOwnsSlot(s: Machine, i: nat)
    requires Inv(s) && i < |Pending(s)|
    ensures OwnsItsSlot(s, i)
  {
    hide Pending, BytesOf, LogCopy;
    var p := Pending(s);
    CopyIsBytes(p[i].sent);
    assert SlotHolds(s.ring, p[i]);
    assert |p| <= QUEUE_SIZE + 1 by { PendingSize(s); }
    forall j | 0 <= j < |p| && j != i ensures p[j].msg.data != p[i].msg.data {
      assert SlotHolds(s.ring, p[j]);
      if j < i {
        DistinctSlots(p[j].alloc, p[i].alloc);
      } else {
        DistinctSlots(p[i].alloc, p[j].alloc);
      }
    }
  }

  /**
   In every reachable state, in both build modes: each log message queued or in flight points to a ring entry that no
   other pending message uses, and that holds the bytes of the message that was sent.
   */
  lemma LogRingSafety(events: seq<Event>, mode: Mode, i: nat)
    requires forall e | e in events :: Admissible(e)
    requires i < |Pending(Run(events, mode))|
    ensures OwnsItsSlot(Run(events, mode), i)
  {
    RunKeepsInv(events, mode);
    InvOwnsSlot(Run(events, mode), i);
  }

  /**
   The message handled differs from the message sent only in where the data of a log message is, and in its length,
   which is cut to the size of a ring entry.
   */
  predicate AsSent(e: Entry) {
    var sent := e.sent;
    if sent.msgType == LogMsg && sent.data != Null then
      e.msg.data.LogSlot? &&
      e.msg == sent.(data := e.msg.data, dataLen := if sent.dataLen < 88 then sent.dataLen else 88)
    else e.msg == sent
  }

  /** The entries queued or in flight. */
  function Entries(s: Machine): set<Entry> {
    (set e | e in s.queue) + if s.inflight.Some? then {s.inflight.value} else {}
  }

  lemma StepEntries(s: Machine, event: Event, mode: Mode, e: Entry)
    requires WellFormed(s) && e in Entries(Step(s, event, mode))
    ensures e in Entries(s) || (event == SendMsg(e.sent) && AsSent(e))
  {
    hide LogCopy, Insert;
    if event.SendMsg? && |s.queue| < QUEUE_SIZE {
      var m := event.msg;
      InsertMembers(s.queue, Entry(Prepared(BusOf(s), m), s.allocs, m), EntryRanking(mode));
    }
  }

  /** In every run, whatever is queued or in flight was sent, and is as it was sent. */
  lemma {:induction false} HandledAsSent(events: seq<Event>, mode: Mode, e: Entry)
    requires e in Entries(Run(events, mode))
    ensures SendMsg(e.sent) in events && AsSent(e)
  {
    hide Step, AsSent;
    if events != [] {
      var before := events[..|events| - 1];
      StepEntries(Run(before, mode), events[|events| - 1], mode, e);
      if e in Entries(Run(before, mode)) {
        HandledAsSent(before, mode, e);
      }
    }
  }
}
