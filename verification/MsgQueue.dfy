/** The message queue of the board: 32 slots, with a ring of 64 copies behind the log messages. */
module MsgQueue {
  import opened Bytes
  import opened StableQueue

  datatype Module =
    V4l2Module | UdpModule | AlarmModule | LoggerModule | StorageModule | TcpSendModule | TcpRecvModule | CommandModule

  datatype MsgType = ImageMsg | AlarmMsg | LogMsg | CommandMsg | BigDataMsg

  /** What the data pointer of a message points to. */
  datatype Data =
    | Null
    | Memory(bytes: seq<byte>)  // storage of the sender, as it is at send time
    | LogSlot(index: nat)       // an entry of the log ring
    | CameraBuffer(index: nat)
    | Token(id: nat)            // a BigData record

  datatype Msg = Msg(src: Module, dst: Module, dataLen: nat, msgType: MsgType, priority: int, data: Data)

  const QUEUE_SIZE := CAPACITY
  const RING_SIZE := 64
  const LOG_MSG_SIZE := 88
  const NORMAL_PRIORITY := 1

  /** The build option: priority order, or plain order of arrival. */
  datatype Mode = Fifo | Priority

  function PriorityIn(mode: Mode, m: Msg): int {
    if mode == Priority then m.priority else 0
  }

  function Ranking(mode: Mode): Msg -> int {
    (m: Msg) => PriorityIn(mode, m)
  }

  /** The queue, the log ring and the next ring index. */
  datatype Bus = Bus(queue: seq<Msg>, ring: seq<seq<byte>>, logIdx: nat)

  predicate ValidBus(b: Bus) {
    |b.queue| <= QUEUE_SIZE && |b.ring| == RING_SIZE && b.logIdx < RING_SIZE
  }

  predicate NeedsCopy(m: Msg) {
    m.msgType == LogMsg && m.data != Null
  }

  function CopyLength(m: Msg): nat {
    if m.dataLen > LOG_MSG_SIZE then LOG_MSG_SIZE else m.dataLen
  }

  /** The ring entry a log message is copied to: the first bytes of its data, zeros behind them. */
  function LogCopy(m: Msg): (copy: seq<byte>)
    ensures |copy| == LOG_MSG_SIZE
  {
    seq(LOG_MSG_SIZE, i requires 0 <= i < LOG_MSG_SIZE =>
      if i < CopyLength(m) && m.data.Memory? && i < |m.data.bytes| then m.data.bytes[i] else 0)
  }

  function Prepared(b: Bus, m: Msg): Msg {
    if NeedsCopy(m) then m.(data := LogSlot(b.logIdx), dataLen := CopyLength(m)) else m
  }

  function AfterPrepare(b: Bus, m: Msg): Bus
    requires ValidBus(b)
  {
    if NeedsCopy(m) then b.(ring := b.ring[b.logIdx := LogCopy(m)], logIdx := (b.logIdx + 1) % RING_SIZE) else b
  }

  /** Sending: refused when the queue is full, and then nothing changes. */
  function Send(b: Bus, m: Msg, mode: Mode): Bus
    requires ValidBus(b)
  {
    if |b.queue| >= QUEUE_SIZE then b
    else AfterPrepare(b, m).(queue := Insert(b.queue, Prepared(b, m), Ranking(mode)))
  }

  lemma SendRefused(b: Bus, m: Msg, mode: Mode)
    requires ValidBus(b) && |b.queue| >= QUEUE_SIZE
    ensures Send(b, m, mode) == b
  {
  }

  /** Without priorities a message goes to the end. */
  lemma InsertFifo(q: seq<Msg>, m: Msg)
    ensures Insert(q, m, Ranking(Fifo)) == q + [m]
  {
  }

  class Queue {
    const mode: Mode
    const msgBuffer: array<Msg>
    const logMsgBuffer: array<seq<byte>>
    var logIdx: nat
    var count: nat

    ghost predicate Valid()
      reads this, msgBuffer, logMsgBuffer
    {
      msgBuffer.Length == QUEUE_SIZE && logMsgBuffer.Length == RING_SIZE &&
      count <= QUEUE_SIZE && logIdx < RING_SIZE
    }

    ghost function State(): (b: Bus)
      requires Valid()
      reads this, msgBuffer, logMsgBuffer
      ensures ValidBus(b)
    {
      Bus(msgBuffer[..count], logMsgBuffer[..], logIdx)
    }

    constructor (mode: Mode)
      ensures Valid() && fresh(msgBuffer) && fresh(logMsgBuffer) && this.mode == mode
      ensures State().queue == [] && logIdx == 0
    {
      this.mode := mode;
      msgBuffer := new Msg[QUEUE_SIZE](_ => Msg(V4l2Module, V4l2Module, 0, ImageMsg, 0, Null));
      logMsgBuffer := new seq<byte>[RING_SIZE](_ => []);
      logIdx := 0;
      count := 0;
    }

    method Prepare(m: Msg) returns (queued: Msg)
      requires Valid()
      modifies this`logIdx, logMsgBuffer
      ensures Valid()
      ensures queued == Prepared(old(State()), m) && State() == AfterPrepare(old(State()), m)
    {
      queued := m;
      if queued.msgType == LogMsg && queued.data != Null {
        var copyLen := queued.dataLen;
        if copyLen > LOG_MSG_SIZE {
          copyLen := LOG_MSG_SIZE;
        }
        logMsgBuffer[logIdx] := LogCopy(queued);
        queued := queued.(data := LogSlot(logIdx), dataLen := copyLen);
        logIdx := (logIdx + 1) % RING_SIZE;
      }
    }

    /** Make room for `m`: everything of lower priority moves up one place. */
    method ShiftUp(m: Msg) returns (insertAt: nat)
      requires Valid() && count < QUEUE_SIZE
      modifies msgBuffer
      ensures insertAt <= count
      ensures insertAt > 0 ==> old(msgBuffer[insertAt - 1]).priority >= m.priority
      ensures forall i | 0 <= i < insertAt :: msgBuffer[i] == old(msgBuffer[i])
      ensures forall i | insertAt <= i < count ::
        msgBuffer[i + 1] == old(msgBuffer[i]) && old(msgBuffer[i]).priority < m.priority
    {
      insertAt := count;
      while insertAt > 0 && msgBuffer[insertAt - 1].priority < m.priority
        invariant 0 <= insertAt <= count
        invariant forall i | 0 <= i < insertAt :: msgBuffer[i] == old(msgBuffer[i])
        invariant forall i | insertAt <= i < count ::
          msgBuffer[i + 1] == old(msgBuffer[i]) && old(msgBuffer[i]).priority < m.priority
        modifies msgBuffer
      {
        msgBuffer[insertAt] := msgBuffer[insertAt - 1];
        insertAt := insertAt - 1;
      }
    }

    method Push(m: Msg)
      requires Valid() && count < QUEUE_SIZE
      modifies this`count, msgBuffer
      ensures Valid() && State() == old(State()).(queue := Insert(old(State()).queue, m, Ranking(mode)))
    {
      ghost var q := msgBuffer[..count];
      if mode == Priority {
        var insertAt := ShiftUp(m);
        InsertAt(q, m, Ranking(mode), insertAt);
        msgBuffer[insertAt] := m;
        assert msgBuffer[..count + 1] == q[..insertAt] + [m] + q[insertAt..];
      } else {
        InsertFifo(q, m);
        msgBuffer[count] := m;
        assert msgBuffer[..count + 1] == q + [m];
      }
      count := count + 1;
    }

    method Pop() returns (m: Option<Msg>)
      requires Valid()
      modifies this`count, msgBuffer
      ensures Valid()
      ensures var q := old(State()).queue;
        if q == [] then m == None && State() == old(State())
        else m == Some(q[0]) && State() == old(State()).(queue := q[1..])
    {
      if count == 0 {
        return None;
      }
      m := Some(msgBuffer[0]);
      var remaining := count - 1;
      ghost var q := msgBuffer[..count];
      for i := 0 to remaining
        invariant msgBuffer[..i] == q[1..i + 1]
        invariant msgBuffer[i..count] == q[i..]
        modifies msgBuffer
      {
        assert msgBuffer[i + 1] == msgBuffer[i..count][1];
        assert q[i + 1] == q[i..][1];
        msgBuffer[i] := msgBuffer[i + 1];
      }
      assert msgBuffer[..remaining] == q[1..];
      count := remaining;
    }

    /** A refused message is handed to the release handler of its module, after the lock is given up. */
    method MsgSend(m: Msg) returns (accepted: bool, released: Option<Msg>)
      requires Valid()
      modifies this, msgBuffer, logMsgBuffer
      ensures Valid()
      ensures accepted == (|old(State()).queue| < QUEUE_SIZE) && State() == Send(old(State()), m, mode)
      ensures released == if accepted then None else Some(m)
    {
      if count >= QUEUE_SIZE {
        return false, Some(m);
      }
      var queued := Prepare(m);
      Push(queued);
      accepted, released := true, None;
    }
  }
}
