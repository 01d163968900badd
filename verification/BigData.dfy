/**
 Large transfers. A source allocates a token, the queue carries it to the TCP sender, the sending thread works on
 it from a slot, and the queue carries it back to its source, which frees it. The source threads, the delivering
 thread and the sending thread are interleaved step by step. A step that reads or writes a token that is not
 allocated sets `fault`.
 */
module BigData {
  import opened Bytes
  import opened MsgQueue
  import opened StableQueue

  datatype Status = ToSend | Resend | Done | FileDeliverError

  datatype Record = Record(source: Module, status: Status, totalLen: nat, hasData: bool)

  /**
   The delivering thread: waiting for a message; about to run the handler; inside the handler of the TCP sender,
   having marked a token for resending; done with the handler, about to release.
   */
  datatype Delivering = Waiting | Handling(msg: Msg) | Resending(msg: Msg) | Releasing(msg: Msg)

  /** What the TCP sender shares under its lock. */
  datatype Slot = Slot(isSending: bool, big: bool, token: Option<nat>, srcModule: Module)

  /**
   The sending thread: waiting; sending what it saw in the slot; about to report; having dispatched the report and
   about to clear the slot. The lock is held from the report to the end of clearing. Whether the transfer is a large one
   is what the thread saw, not what the slot says.
   */
  datatype Sending =
    | Idle
    | Busy(big: bool, target: Module)
    | Reporting(big: bool, target: Module, ok: bool)
    | Clearing(big: bool)

  datatype Outcome = Sent | SendFailed | Unreachable

  /**
   `held`: tokens allocated and not yet dispatched by their source. `completed` and `returned` record, for every
   token, the final statuses reported by the sending thread and those the source freed it with. `refused` says
   whether the queue ever refused a token.
   */
  datatype System = System(
    bus: Bus, deliver: Delivering, slot: Slot, tcp: Sending,
    live: map<nat, Record>, freed: set<nat>, nextId: nat, held: set<nat>,
    completed: map<nat, seq<Status>>, returned: map<nat, seq<Status>>, refused: bool, fault: bool)

  datatype Event =
    | Create(source: Module, totalLen: nat, hasData: bool)
    | FirstSend(id: nat)
    | Other(msg: Msg)
    | DeliverStep
    | Wake
    | Transfer(outcome: Outcome)
    | Report
    | Clear

  function Initial(): System {
    System(Bus([], seq(RING_SIZE, (i: nat) => []), 0), Waiting, Slot(false, false, None, V4l2Module), Idle,
           map[], {}, 0, {}, map[], map[], false, false)
  }

  predicate Final(status: Status) {
    status == Done || status == FileDeliverError
  }

  predicate IsSource(m: Module) {
    m == CommandModule || m == LoggerModule
  }

  predicate Usable(r: Record) {
    r.hasData && r.totalLen != 0
  }

  function History(h: map<nat, seq<Status>>, id: nat): seq<Status> {
    if id in h then h[id] else []
  }

  function Noted(h: map<nat, seq<Status>>, id: nat, status: Status): map<nat, seq<Status>> {
    h[id := History(h, id) + [status]]
  }

  // ---- Steps ----

  function Touch(s: System, id: nat): System {
    if id in s.live then s else s.(fault := true)
  }

  function SetStatus(s: System, id: nat, status: Status): (r: System)
    ensures r.live.Keys == s.live.Keys && r.freed == s.freed && r.bus == s.bus
  {
    if id in s.live then s.(live := s.live[id := s.live[id].(status := status)]) else s.(fault := true)
  }

  function Free(s: System, id: nat): System {
    if id in s.live then s.(live := s.live - {id}, freed := s.freed + {id}) else s.(fault := true)
  }

  function TokenMsg(s: System, src: Module, dst: Module, id: nat): Msg {
    Msg(src, dst, if id in s.live then s.live[id].totalLen else 0, BigDataMsg, NORMAL_PRIORITY, Token(id))
  }

  predicate Full(s: System) {
    |s.bus.queue| >= QUEUE_SIZE
  }

  /** Dispatching a token reads its length. A refused dispatch leaves the token with nobody. */
  function Dispatch(s: System, src: Module, dst: Module, id: nat, mode: Mode): (r: System)
    requires ValidBus(s.bus)
    ensures ValidBus(r.bus)
    ensures r.live == s.live && r.freed == s.freed
  {
    if Full(s) then Touch(s, id).(refused := true)
    else Touch(s, id).(bus := Send(s.bus, TokenMsg(s, src, dst, id), mode))
  }

  function CreateStep(s: System, source: Module, totalLen: nat, hasData: bool): System {
    if IsSource(source) then
      s.(live := s.live[s.nextId := Record(source, ToSend, totalLen, hasData)],
         held := s.held + {s.nextId}, nextId := s.nextId + 1)
    else s
  }

  /** When its first dispatch is refused, a response is freed at once; a log file is not. */
  function FirstSendStep(s: System, id: nat, mode: Mode): (r: System)
    requires ValidBus(s.bus)
    ensures ValidBus(r.bus)
    ensures s.freed <= r.freed
  {
    if id !in s.held || id !in s.live then s
    else
      var source := s.live[id].source;
      var sent := Dispatch(s, source, TcpSendModule, id, mode).(held := s.held - {id});
      if Full(s) && source == CommandModule then Free(sent, id) else sent
  }

  /** The TCP sender's handler, for a token: take it into the free slot, or ask for it to be sent again. */
  function TcpHandle(s: System, m: Msg, id: nat): (r: System)
    ensures r.live.Keys == s.live.Keys && r.freed == s.freed
  {
    if id !in s.live then s.(fault := true, deliver := Releasing(m))
    else if !Usable(s.live[id]) then s.(deliver := Releasing(m))
    else if s.tcp.Clearing? then s
    else if !s.slot.isSending then
      s.(slot := Slot(true, true, Some(id), m.src), deliver := Releasing(m))
    else SetStatus(s, id, Resend).(deliver := Resending(m))
  }

  /** An image is copied and occupies the slot as well. */
  function TcpHandleImage(s: System, m: Msg): System {
    if s.tcp.Clearing? then s
    else if s.slot.isSending then s.(deliver := Releasing(m))
    else s.(slot := s.slot.(isSending := true, big := false), deliver := Releasing(m))
  }

  /** The handler of a source: free a token that came back for good, send it again when asked to. */
  function SourceHandle(s: System, m: Msg, id: nat, mode: Mode): (r: System)
    requires ValidBus(s.bus)
    ensures ValidBus(r.bus)
    ensures s.freed <= r.freed
  {
    if id !in s.live then s.(fault := true, deliver := Releasing(m))
    else
      var status := s.live[id].status;
      if Final(status) then
        Free(s, id).(returned := Noted(s.returned, id, status), deliver := Releasing(m.(data := Null)))
      else if status == Resend then Dispatch(s, m.dst, TcpSendModule, id, mode).(deliver := Releasing(m))
      else s.(deliver := Releasing(m))
  }

  function Handle(s: System, m: Msg, mode: Mode): (r: System)
    requires ValidBus(s.bus)
    ensures ValidBus(r.bus)
  {
    if m.msgType == BigDataMsg && m.data.Token? && m.dst == TcpSendModule then TcpHandle(s, m, m.data.id)
    else if m.msgType == BigDataMsg && m.data.Token? && IsSource(m.dst) then SourceHandle(s, m, m.data.id, mode)
    else if m.msgType == ImageMsg && m.data != Null && m.dst == TcpSendModule then TcpHandleImage(s, m)
    else s.(deliver := Releasing(m))
  }

  function DeliverNext(s: System, mode: Mode): (r: System)
    requires ValidBus(s.bus)
    ensures ValidBus(r.bus)
    ensures s.freed <= r.freed
  {
    match s.deliver
    case Waiting =>
      if s.bus.queue == [] then s
      else s.(deliver := Handling(s.bus.queue[0]), bus := s.bus.(queue := s.bus.queue[1..]))
    case Handling(m) => Handle(s, m, mode)
    case Resending(m) =>
      if m.data.Token? then Dispatch(s, TcpSendModule, m.src, m.data.id, mode).(deliver := Releasing(m))
      else s.(deliver := Releasing(m))
    case Releasing(m) => s.(deliver := Waiting)
  }

  /** Waking on work, the sending thread looks at the slot, and at the token in it. */
  function WakeStep(s: System): (r: System)
    ensures r.live == s.live && r.freed == s.freed
  {
    if s.tcp != Idle || !s.slot.isSending then s
    else
      var next := s.(tcp := Busy(s.slot.big, s.slot.srcModule));
      if !s.slot.big then next
      else if s.slot.token == None then next.(fault := true)
      else Touch(next, s.slot.token.value)
  }

  /**
   Without a connection the thread goes back to waiting, with the slot as it is. Otherwise it reads the data of a large
   transfer to the end.
   */
  function TransferStep(s: System, outcome: Outcome): (r: System)
    ensures r.live == s.live && r.freed == s.freed
  {
    if !s.tcp.Busy? then s
    else if outcome == Unreachable then s.(tcp := Idle)
    else
      var next := s.(tcp := Reporting(s.tcp.big, s.tcp.target, outcome == Sent));
      if !s.tcp.big then next
      else if s.slot.token == None then next.(fault := true)
      else Touch(next, s.slot.token.value)
  }

  function ReportStep(s: System, mode: Mode): (r: System)
    requires ValidBus(s.bus)
    ensures ValidBus(r.bus)
    ensures r.live.Keys == s.live.Keys && r.freed == s.freed
  {
    if !s.tcp.Reporting? then s
    else if !s.tcp.big then s.(tcp := Clearing(false))
    else if s.slot.token == None then s.(tcp := Clearing(true), fault := true)
    else
      var id := s.slot.token.value;
      var status := if s.tcp.ok then Done else FileDeliverError;
      var marked := SetStatus(s, id, status).(completed := Noted(s.completed, id, status));
      Dispatch(marked, TcpSendModule, s.tcp.target, id, mode).(tcp := Clearing(true))
  }

  function ClearStep(s: System): System {
    if !s.tcp.Clearing? then s
    else
      s.(tcp := Idle, slot := s.slot.(isSending := false, token := if s.tcp.big then None else s.slot.token))
  }

  function Step(s: System, e: Event, mode: Mode): (r: System)
    requires ValidBus(s.bus)
    ensures ValidBus(r.bus)
    ensures s.freed <= r.freed
  {
    match e
    case Create(source, totalLen, hasData) => CreateStep(s, source, totalLen, hasData)
    case FirstSend(id) => FirstSendStep(s, id, mode)
    case Other(m) => s.(bus := Send(s.bus, m, mode))
    case DeliverStep => DeliverNext(s, mode)
    case Wake => WakeStep(s)
    case Transfer(outcome) => TransferStep(s, outcome)
    case Report => ReportStep(s, mode)
    case Clear => ClearStep(s)
  }

  function Run(events: seq<Event>, mode: Mode): (s: System)
    ensures ValidBus(s.bus)
  {
    if events == [] then Initial() else Step(Run(events[..|events| - 1], mode), events[|events| - 1], mode)
  }

  /** Tokens are sent by the two sources and the TCP sender only. */
  predicate Admissible(e: Event) {
    e.Other? ==> e.msg.msgType != BigDataMsg && !e.msg.data.Token?
  }

  // ---- Where a token is ----

  function One(b: bool): nat {
    if b then 1 else 0
  }

  function Refs(q: seq<Msg>, id: nat): nat {
    if q == [] then 0 else Refs(q[..|q| - 1], id) + One(q[|q| - 1].data == Token(id))
  }

  /** The delivering thread owns the token of a message whose handler has not finished with it. */
  predicate DeliverOwns(d: Delivering, id: nat) {
    (d.Handling? || d.Resending?) && d.msg.data == Token(id)
  }

  /** Once the report is dispatched, the slot only holds a stale pointer. */
  predicate SlotOwns(s: System, id: nat) {
    s.slot.token == Some(id) && s.tcp != Clearing(true)
  }

  /** In how many of the four places a token is: with its source, in the queue, in a handler, in the slot. */
  function Places(s: System, id: nat): nat {
    One(id in s.held) + Refs(s.bus.queue, id) + One(DeliverOwns(s.deliver, id)) + One(SlotOwns(s, id))
  }

  lemma {:induction false} RefsInsert(q: seq<Msg>, m: Msg, mode: Mode, id: nat)
    ensures Refs(Insert(q, m, Ranking(mode)), id) == Refs(q, id) + One(m.data == Token(id))
  {
    if q == [] {
      assert [m][..0] == [];
    } else {
      var k := |q| - 1;
      if Ranking(mode)(q[k]) < Ranking(mode)(m) {
        RefsInsert(q[..k], m, mode, id);
        var r := Insert(q[..k], m, Ranking(mode));
        assert (r + [q[k]])[..|r|] == r;
      } else {
        assert (q + [m])[..|q|] == q;
      }
    }
  }

  lemma {:induction false} RefsFront(q: seq<Msg>, id: nat)
    requires q != []
    ensures Refs(q, id) == One(q[0].data == Token(id)) + Refs(q[1..], id)
  {
    if |q| > 1 {
      RefsFront(q[..|q| - 1], id);
      assert q[..|q| - 1][1..] == q[1..][..|q[1..]| - 1];
    } else {
      assert q[..0] == [] && q[1..] == [];
    }
  }

  lemma {:induction false} NoRefs(q: seq<Msg>, id: nat)
    requires Refs(q, id) == 0
    ensures forall k | 0 <= k < |q| :: q[k].data != Token(id)
  {
    if q != [] {
      NoRefs(q[..|q| - 1], id);
      assert forall k | 0 <= k < |q| - 1 :: q[k] == q[..|q| - 1][k];
    }
  }

  // ---- The invariant ----

  /** A token travels from its source to the TCP sender until it is final, and back with any other status. */
  predicate RoutedFor(r: Record, m: Msg) {
    (m.src == r.source && m.dst == TcpSendModule && !Final(r.status)) ||
    (m.src == TcpSendModule && m.dst == r.source && r.status != ToSend)
  }

  predicate Routed(live: map<nat, Record>, m: Msg) {
    (m.data.Token? <==> m.msgType == BigDataMsg) && (m.data.Token? ==> m.priority == NORMAL_PRIORITY) &&
    (m.data.Token? && m.data.id in live ==> RoutedFor(live[m.data.id], m))
  }

  ghost predicate QueueRouted(live: map<nat, Record>, q: seq<Msg>) {
    forall k | 0 <= k < |q| :: Routed(live, q[k])
  }

  predicate DeliverRouted(live: map<nat, Record>, d: Delivering) {
    (d.Handling? || d.Resending? ==> Routed(live, d.msg)) &&
    (d.Resending? ==> d.msg.data.Token? && d.msg.dst == TcpSendModule) &&
    (d.Resending? && d.msg.data.id in live ==> live[d.msg.data.id].status == Resend)
  }

  predicate SlotOk(s: System) {
    match s.tcp
    case Idle =>
      (s.slot.isSending ==> (s.slot.big <==> s.slot.token.Some?)) && (s.slot.token.Some? ==> s.slot.isSending)
    case Busy(big, target) =>
      s.slot.isSending && (big <==> s.slot.token.Some?) && big == s.slot.big && target == s.slot.srcModule
    case Reporting(big, target, ok) =>
      s.slot.isSending && (big <==> s.slot.token.Some?) && big == s.slot.big && target == s.slot.srcModule
    case Clearing(big) => s.slot.isSending && (big <==> s.slot.token.Some?) && big == s.slot.big
  }

  /** The facts about an allocated token. */
  predicate LiveOk(s: System, id: nat)
    requires id in s.live
  {
    var r := s.live[id];
    id < s.nextId && id !in s.freed && IsSource(r.source) &&
    History(s.completed, id) == (if Final(r.status) then [r.status] else []) && History(s.returned, id) == [] &&
    (id in s.held ==> r.status == ToSend) && (r.status != ToSend ==> Usable(r)) &&
    (SlotOwns(s, id) ==> !Final(r.status) && Usable(r) && r.source == s.slot.srcModule)
  }

  predicate TokenOk(s: System, id: nat) {
    Places(s, id) <= 1 &&
    (Places(s, id) > 0 ==> id in s.live) &&
    (id in s.live ==> LiveOk(s, id)) &&
    (id in s.freed ==> id < s.nextId && |History(s.completed, id)| <= 1) &&
    (id in s.freed ==> History(s.returned, id) == History(s.completed, id)) &&
    (id !in s.live && id !in s.freed ==> History(s.completed, id) == [] && History(s.returned, id) == [])
  }

  /** While the queue has refused no token, a token with something to send is somewhere. */
  predicate OnItsWay(s: System, id: nat) {
    id in s.live && Usable(s.live[id]) && !s.refused ==> Places(s, id) == 1
  }

  /** `moving` is a token taken from one place and not yet put in the next; none if negative. */
  predicate Accounted(s: System, id: nat, moving: int) {
    TokenOk(s, id) && (id != moving ==> OnItsWay(s, id))
  }

  ghost predicate Inv(s: System, moving: int) {
    ValidBus(s.bus) && !s.fault && SlotOk(s) &&
    QueueRouted(s.live, s.bus.queue) && DeliverRouted(s.live, s.deliver) &&
    forall id: nat :: Accounted(s, id, moving)
  }

  lemma RoutedInsert(live: map<nat, Record>, q: seq<Msg>, m: Msg, mode: Mode)
    requires QueueRouted(live, q) && Routed(live, m)
    ensures QueueRouted(live, Insert(q, m, Ranking(mode)))
  {
    hide Insert, Routed;
    InsertMembers(q, m, Ranking(mode));
    var r := Insert(q, m, Ranking(mode));
    forall k | 0 <= k < |r| ensures Routed(live, r[k]) {
      assert r[k] in r;
    }
  }

  /** A change to one token's record does not concern messages about other tokens. */
  lemma RoutedChange(live: map<nat, Record>, live': map<nat, Record>, q: seq<Msg>, id: nat)
    requires QueueRouted(live, q) && Refs(q, id) == 0
    requires forall x | x in live' && x != id :: x in live && live[x] == live'[x]
    ensures QueueRouted(live', q)
  {
    NoRefs(q, id);
  }

  // ---- Every step keeps the invariant ----

  lemma DispatchKeepsInv(s: System, src: Module, dst: Module, id: nat, mode: Mode)
    requires Inv(s, id) && id in s.live && Places(s, id) == 0
    requires RoutedFor(s.live[id], TokenMsg(s, src, dst, id))
    ensures Inv(Dispatch(s, src, dst, id, mode), -1)
  {
    hide Insert, Refs, RoutedFor, LogCopy, QueueRouted, DeliverRouted;
    if !Full(s) {
      var m := TokenMsg(s, src, dst, id);
      RoutedInsert(s.live, s.bus.queue, m, mode);
      forall x: nat ensures Accounted(Dispatch(s, src, dst, id, mode), x, -1) {
        assert Accounted(s, x, id);
        RefsInsert(s.bus.queue, m, mode, x);
      }
    } else {
      forall x: nat ensures Accounted(Dispatch(s, src, dst, id, mode), x, -1) {
        assert Accounted(s, x, id);
      }
    }
  }

  lemma CreateKeepsInv(s: System, source: Module, totalLen: nat, hasData: bool)
    requires Inv(s, -1)
    ensures Inv(CreateStep(s, source, totalLen, hasData), -1)
  {
    hide Insert, Refs, RoutedFor, QueueRouted;
    if IsSource(source) {
      var r := CreateStep(s, source, totalLen, hasData);
      assert Accounted(s, s.nextId, -1);
      RoutedChange(s.live, r.live, s.bus.queue, s.nextId);
      forall x: nat ensures Accounted(r, x, -1) {
        assert Accounted(s, x, -1);
      }
    }
  }

  /** The source frees a token that nobody else holds. */
  lemma FreeKeepsInv(s: System, id: nat, moving: int)
    requires Inv(s, moving) && id in s.live && Places(s, id) == 0 && !Final(s.live[id].status)
    ensures Inv(Free(s, id), moving)
  {
    hide Insert, Refs, RoutedFor, QueueRouted;
    var r := Free(s, id);
    assert Accounted(s, id, moving);
    RoutedChange(s.live, r.live, s.bus.queue, id);
    forall x: nat ensures Accounted(r, x, moving) {
      assert Accounted(s, x, moving);
    }
  }

  lemma FirstSendKeepsInv(s: System, id: nat, mode: Mode)
    requires Inv(s, -1)
    ensures Inv(FirstSendStep(s, id, mode), -1)
  {
    hide Insert, Refs, QueueRouted;
    if id in s.held && id in s.live {
      var t := s.(held := s.held - {id});
      var source := s.live[id].source;
      assert Accounted(s, id, -1);
      forall x: nat ensures Accounted(t, x, id) {
        assert Accounted(s, x, -1);
      }
      DispatchKeepsInv(t, source, TcpSendModule, id, mode);
      var sent := Dispatch(t, source, TcpSendModule, id, mode);
      assert Dispatch(s, source, TcpSendModule, id, mode).(held := t.held) == sent;
      if Full(s) && source == CommandModule {
        FreeKeepsInv(sent, id, -1);
      }
    }
  }

  lemma OtherKeepsInv(s: System, m: Msg, mode: Mode)
    requires Inv(s, -1) && m.msgType != BigDataMsg && !m.data.Token?
    ensures Inv(s.(bus := Send(s.bus, m, mode)), -1)
  {
    hide Insert, Refs, RoutedFor, LogCopy, QueueRouted, DeliverRouted;
    if !Full(s) {
      var queued := Prepared(s.bus, m);
      forall x: nat ensures Accounted(s.(bus := Send(s.bus, m, mode)), x, -1) {
        assert Accounted(s, x, -1);
        RefsInsert(s.bus.queue, queued, mode, x);
      }
      RoutedInsert(s.live, s.bus.queue, queued, mode);
    }
  }

  lemma PopKeepsInv(s: System, mode: Mode)
    requires Inv(s, -1) && s.deliver == Waiting
    ensures Inv(DeliverNext(s, mode), -1)
  {
    hide Refs, RoutedFor;
    if s.bus.queue != [] {
      forall x: nat ensures Accounted(DeliverNext(s, mode), x, -1) {
        assert Accounted(s, x, -1);
        RefsFront(s.bus.queue, x);
      }
    }
  }

  /** A handler that is done lets go of its token. */
  lemma LetGo(s: System, id: nat, d: Delivering)
    requires Inv(s, -1) && DeliverOwns(s.deliver, id) && (d.Releasing? || d.Waiting?)
    ensures Inv(s.(deliver := d), id) && Places(s.(deliver := d), id) == 0
  {
    hide Refs, RoutedFor, QueueRouted;
    var t := s.(deliver := d);
    assert Accounted(s, id, -1);
    forall x: nat ensures Accounted(t, x, id) {
      assert Accounted(s, x, -1);
    }
  }

  lemma TcpAcceptKeepsInv(s: System, m: Msg, id: nat)
    requires Inv(s, -1) && s.deliver == Handling(m) && m.data == Token(id) && m.dst == TcpSendModule
    requires !s.tcp.Clearing? && !s.slot.isSending && id in s.live && Usable(s.live[id])
    ensures Inv(TcpHandle(s, m, id), -1)
  {
    hide Refs, QueueRouted;
    assert Accounted(s, id, -1);
    forall x: nat ensures Accounted(TcpHandle(s, m, id), x, -1) {
      assert Accounted(s, x, -1);
    }
  }

  lemma TcpBusyKeepsInv(s: System, m: Msg, id: nat)
    requires Inv(s, -1) && s.deliver == Handling(m) && m.data == Token(id) && m.dst == TcpSendModule
    requires !s.tcp.Clearing? && s.slot.isSending && id in s.live && Usable(s.live[id])
    ensures Inv(TcpHandle(s, m, id), -1)
  {
    hide Refs, QueueRouted;
    var r := TcpHandle(s, m, id);
    assert Accounted(s, id, -1);
    RoutedChange(s.live, r.live, s.bus.queue, id);
    forall x: nat ensures Accounted(r, x, -1) {
      assert Accounted(s, x, -1);
    }
  }

  lemma TcpHandleKeepsInv(s: System, m: Msg, id: nat)
    requires Inv(s, -1) && s.deliver == Handling(m) && m.data == Token(id) && m.dst == TcpSendModule
    ensures Inv(TcpHandle(s, m, id), -1)
  {
    hide Refs, QueueRouted;
    assert Accounted(s, id, -1);
    if !Usable(s.live[id]) {
      forall x: nat ensures Accounted(TcpHandle(s, m, id), x, -1) {
        assert Accounted(s, x, -1);
      }
    } else if s.tcp.Clearing? {
    } else if s.slot.isSending {
      TcpBusyKeepsInv(s, m, id);
    } else {
      TcpAcceptKeepsInv(s, m, id);
    }
  }

  lemma SourceHandleKeepsInv(s: System, m: Msg, id: nat, mode: Mode)
    requires Inv(s, -1) && s.deliver == Handling(m) && m.data == Token(id) && IsSource(m.dst)
    ensures Inv(SourceHandle(s, m, id, mode), -1)
  {
    hide Refs, QueueRouted;
    assert Accounted(s, id, -1);
    var r := SourceHandle(s, m, id, mode);
    if s.live[id].status == Resend {
      LetGo(s, id, Releasing(m));
      DispatchKeepsInv(s.(deliver := Releasing(m)), m.dst, TcpSendModule, id, mode);
    } else {
      RoutedChange(s.live, r.live, s.bus.queue, id);
      forall x: nat ensures Accounted(r, x, -1) {
        assert Accounted(s, x, -1);
      }
    }
  }

  lemma ImageKeepsInv(s: System, m: Msg)
    requires Inv(s, -1) && s.deliver == Handling(m) && m.msgType != BigDataMsg
    ensures Inv(TcpHandleImage(s, m), -1)
  {
    hide Refs, QueueRouted, RoutedFor;
    forall x: nat ensures Accounted(TcpHandleImage(s, m), x, -1) {
      assert Accounted(s, x, -1);
    }
  }

  lemma IgnoredKeepsInv(s: System, m: Msg)
    requires Inv(s, -1) && s.deliver == Handling(m)
    requires !m.data.Token?
    ensures Inv(s.(deliver := Releasing(m)), -1)
  {
    hide Refs, QueueRouted;
    forall x: nat ensures Accounted(s.(deliver := Releasing(m)), x, -1) {
      assert Accounted(s, x, -1);
    }
  }

  lemma HandleKeepsInv(s: System, m: Msg, mode: Mode)
    requires Inv(s, -1) && s.deliver == Handling(m)
    ensures Inv(Handle(s, m, mode), -1)
  {
    assert m.data.Token? <==> m.msgType == BigDataMsg;
    assert m.data.Token? ==> m.dst == TcpSendModule || IsSource(m.dst) by {
      hide Refs, QueueRouted;
      if m.data.Token? {
        assert Accounted(s, m.data.id, -1);
      }
    }
    hide Inv, TcpHandle, SourceHandle, TcpHandleImage;
    if m.data.Token? && m.dst == TcpSendModule {
      TcpHandleKeepsInv(s, m, m.data.id);
    } else if m.data.Token? && IsSource(m.dst) {
      SourceHandleKeepsInv(s, m, m.data.id, mode);
    } else if m.msgType == ImageMsg && m.data != Null && m.dst == TcpSendModule {
      ImageKeepsInv(s, m);
    } else {
      IgnoredKeepsInv(s, m);
    }
  }

  lemma DeliverKeepsInv(s: System, mode: Mode)
    requires Inv(s, -1)
    ensures Inv(DeliverNext(s, mode), -1)
  {
    match s.deliver
    case Waiting => PopKeepsInv(s, mode);
    case Handling(m) => HandleKeepsInv(s, m, mode);
    case Resending(m) =>
      hide Refs, QueueRouted;
      assert Accounted(s, m.data.id, -1);
      LetGo(s, m.data.id, Releasing(m));
      DispatchKeepsInv(s.(deliver := Releasing(m)), TcpSendModule, m.src, m.data.id, mode);
    case Releasing(m) =>
      hide Refs, QueueRouted, RoutedFor;
      forall x: nat ensures Accounted(DeliverNext(s, mode), x, -1) {
        assert Accounted(s, x, -1);
      }
  }

  lemma WakeKeepsInv(s: System)
    requires Inv(s, -1)
    ensures Inv(WakeStep(s), -1)
  {
    hide Refs, QueueRouted, RoutedFor;
    if s.slot.token.Some? {
      assert Accounted(s, s.slot.token.value, -1);
    }
    forall x: nat ensures Accounted(WakeStep(s), x, -1) {
      assert Accounted(s, x, -1);
    }
  }

  lemma TransferKeepsInv(s: System, outcome: Outcome)
    requires Inv(s, -1)
    ensures Inv(TransferStep(s, outcome), -1)
  {
    hide Refs, QueueRouted, RoutedFor;
    if s.slot.token.Some? {
      assert Accounted(s, s.slot.token.value, -1);
    }
    forall x: nat ensures Accounted(TransferStep(s, outcome), x, -1) {
      assert Accounted(s, x, -1);
    }
  }

  /** The report writes the final status and takes the token out of the slot. */
  lemma MarkKeepsInv(s: System, id: nat, status: Status)
    requires Inv(s, -1) && s.tcp.Reporting? && s.slot.token == Some(id) && Final(status)
    ensures id in s.live
    ensures var marked := SetStatus(s, id, status).(completed := Noted(s.completed, id, status), tcp := Clearing(true));
      Inv(marked, id) && Places(marked, id) == 0
  {
    hide Refs, QueueRouted;
    assert Accounted(s, id, -1);
    var marked := SetStatus(s, id, status).(completed := Noted(s.completed, id, status), tcp := Clearing(true));
    RoutedChange(s.live, marked.live, s.bus.queue, id);
    forall x: nat ensures Accounted(marked, x, id) {
      assert Accounted(s, x, -1);
    }
  }

  lemma ReportedToItsSource(s: System)
    requires Inv(s, -1) && s.tcp.Reporting? && s.tcp.big
    ensures s.slot.token.Some? && s.slot.token.value in s.live
    ensures s.live[s.slot.token.value].source == s.tcp.target
  {
    hide Refs, QueueRouted;
    assert s.slot.token.Some? ==> Accounted(s, s.slot.token.value, -1);
  }

  lemma SmallReportKeepsInv(s: System, mode: Mode)
    requires Inv(s, -1) && !(s.tcp.Reporting? && s.tcp.big)
    ensures Inv(ReportStep(s, mode), -1)
  {
    hide Refs, QueueRouted, Dispatch;
    forall x: nat ensures Accounted(ReportStep(s, mode), x, -1) {
      assert Accounted(s, x, -1);
    }
  }

  lemma ReportKeepsInv(s: System, mode: Mode)
    requires Inv(s, -1)
    ensures Inv(ReportStep(s, mode), -1)
  {
    if s.tcp.Reporting? && s.tcp.big {
      ReportedToItsSource(s);
      hide Inv, Places, Dispatch, Noted;
      var id := s.slot.token.value;
      var status := if s.tcp.ok then Done else FileDeliverError;
      MarkKeepsInv(s, id, status);
      var noted := SetStatus(s, id, status).(completed := Noted(s.completed, id, status));
      DispatchKeepsInv(noted.(tcp := Clearing(true)), TcpSendModule, s.tcp.target, id, mode);
      DispatchThread(noted, TcpSendModule, s.tcp.target, id, mode, Clearing(true));
    } else {
      SmallReportKeepsInv(s, mode);
    }
  }

  /** A dispatch does not depend on the sending thread. */
  lemma DispatchThread(s: System, src: Module, dst: Module, id: nat, mode: Mode, tcp: Sending)
    requires ValidBus(s.bus)
    ensures Dispatch(s.(tcp := tcp), src, dst, id, mode) == Dispatch(s, src, dst, id, mode).(tcp := tcp)
  {
    hide Send;
  }

  lemma ClearKeepsInv(s: System)
    requires Inv(s, -1)
    ensures Inv(ClearStep(s), -1)
  {
    hide Refs, QueueRouted, RoutedFor;
    forall x: nat ensures Accounted(ClearStep(s), x, -1) {
      assert Accounted(s, x, -1);
    }
  }

  lemma StepKeepsInv(s: System, e: Event, mode: Mode)
    requires Inv(s, -1) && Admissible(e)
    ensures Inv(Step(s, e, mode), -1)
  {
    assert ValidBus(s.bus);
    hide Inv, ValidBus;
    match e
    case Create(source, totalLen, hasData) => CreateKeepsInv(s, source, totalLen, hasData);
    case FirstSend(id) => FirstSendKeepsInv(s, id, mode);
    case Other(m) => OtherKeepsInv(s, m, mode);
    case DeliverStep => DeliverKeepsInv(s, mode);
    case Wake => WakeKeepsInv(s);
    case Transfer(outcome) => TransferKeepsInv(s, outcome);
    case Report => ReportKeepsInv(s, mode);
    case Clear => ClearKeepsInv(s);
  }

  lemma {:induction false} RunKeepsInv(events: seq<Event>, mode: Mode)
    requires forall e | e in events :: Admissible(e)
    ensures Inv(Run(events, mode), -1)
  {
    if events == [] {
    } else {
      hide Inv, Step;
      RunKeepsInv(events[..|events| - 1], mode);
      StepKeepsInv(Run(events[..|events| - 1], mode), events[|events| - 1], mode);
    }
  }

  // ---- What holds in every run ----

  /** Whoever owns a token finds it allocated. */
  lemma OwnerFindsIt(s: System, id: nat)
    requires Inv(s, -1)
    requires id in s.held || DeliverOwns(s.deliver, id) || SlotOwns(s, id)
    ensures id in s.live
  {
    assert Accounted(s, id, -1);
  }

  /** A token is in at most one place, whoever holds it finds it allocated, and no step touches a freed one. */
  lemma SingleOwner(events: seq<Event>, mode: Mode, id: nat)
    requires forall e | e in events :: Admissible(e)
    ensures var s := Run(events, mode);
      !s.fault && Places(s, id) <= 1 && (Places(s, id) == 1 ==> id in s.live) && (id in s.live ==> id !in s.freed)
  {
    hide Run, Places;
    RunKeepsInv(events, mode);
    assert Accounted(Run(events, mode), id, -1);
  }

  /** The two ways in which a token is freed. */
  predicate FreedBySource(s: System, e: Event, id: nat)
    requires id in s.live
  {
    var r := s.live[id];
    (e == DeliverStep && s.deliver.Handling? && s.deliver.msg.data == Token(id) && s.deliver.msg.dst == r.source &&
     s.deliver.msg.src == TcpSendModule && Final(r.status)) ||
    (e == FirstSend(id) && Full(s) && r.source == CommandModule && r.status == ToSend)
  }

  lemma SourceHandleFrees(s: System, m: Msg, x: nat, mode: Mode, id: nat)
    requires ValidBus(s.bus) && id in s.live && id !in SourceHandle(s, m, x, mode).live
    ensures x == id && Final(s.live[id].status)
  {
    hide Send;
  }

  lemma DeliverFrees(s: System, mode: Mode, id: nat)
    requires Inv(s, -1) && id in s.live && id !in DeliverNext(s, mode).live
    ensures FreedBySource(s, DeliverStep, id)
  {
    hide Refs, QueueRouted, Send, SourceHandle, TcpHandle;
    assert s.deliver.Handling?;
    var m := s.deliver.msg;
    assert m.data.Token? && IsSource(m.dst);
    SourceHandleFrees(s, m, m.data.id, mode, id);
    assert Accounted(s, id, -1);
  }

  lemma StepFrees(s: System, e: Event, mode: Mode, id: nat)
    requires Inv(s, -1) && id in s.live && id !in Step(s, e, mode).live
    ensures FreedBySource(s, e, id)
  {
    assert ValidBus(s.bus);
    assert id in s.held ==> s.live[id].status == ToSend by {
      hide Refs, QueueRouted;
      assert Accounted(s, id, -1);
    }
    hide Send, Inv, DeliverNext, TransferStep, WakeStep;
    if e == DeliverStep {
      DeliverFrees(s, mode, id);
    }
  }

  /**
   An allocated token is freed by its own source only: by its handler, once the token came back with a final
   status, or, for a response, because the queue refused its very first dispatch.
   */
  lemma FreedBySourceOnly(events: seq<Event>, e: Event, mode: Mode, id: nat)
    requires forall e | e in events :: Admissible(e)
    requires id in Run(events, mode).live && id !in Step(Run(events, mode), e, mode).live
    ensures FreedBySource(Run(events, mode), e, id)
  {
    hide *;
    RunKeepsInv(events, mode);
    StepFrees(Run(events, mode), e, mode, id);
  }

  /**
   The sending thread reports each token at most once, and the source frees it at most once, with the status
   reported. If the queue refused no token, every reported token has been freed by its source or is on its way.
   */
  lemma ReportedOnceReturnedOnce(events: seq<Event>, mode: Mode, id: nat)
    requires forall e | e in events :: Admissible(e)
    ensures var s := Run(events, mode);
      var completed, returned := History(s.completed, id), History(s.returned, id);
      |completed| <= 1 && (returned == [] || returned == completed) &&
      (!s.refused && completed != [] && returned == [] ==>
         id in s.live && Refs(s.bus.queue, id) + One(DeliverOwns(s.deliver, id)) == 1)
  {
    hide Run, Refs;
    RunKeepsInv(events, mode);
    assert Accounted(Run(events, mode), id, -1);
  }

  /** A freed token stays freed: numbers are never given out twice. */
  lemma FreedForGood(events: seq<Event>, e: Event, mode: Mode, id: nat)
    requires forall e | e in events :: Admissible(e)
    requires Admissible(e)
    requires id in Run(events, mode).freed
    ensures id in Step(Run(events, mode), e, mode).freed && id !in Step(Run(events, mode), e, mode).live
  {
    var s := Run(events, mode);
    RunKeepsInv(events, mode);
    StepKeepsInv(s, e, mode);
    hide Run, Step;
    assert Accounted(Step(s, e, mode), id, -1);
  }

  // ---- A large transfer leaves its mark on the slot ----

  lemma RunOfPrefix(events: seq<Event>, e: Event, mode: Mode)
    ensures Run(events + [e], mode) == Step(Run(events, mode), e, mode)
  {
    assert (events + [e])[..|events|] == events;
  }

  lemma ReportThenClear(s: System)
    requires ValidBus(s.bus) && s.tcp.Reporting?
    ensures ReportStep(s, Fifo).slot == s.slot && ReportStep(s, Fifo).tcp == Clearing(s.tcp.big)
  {
    hide Send;
  }

  lemma WakeThenBusy(s: System)
    requires s.tcp == Idle && s.slot.isSending
    ensures WakeStep(s).slot == s.slot && WakeStep(s).tcp.Busy? && WakeStep(s).bus == s.bus
  {
  }

  lemma FailedTransferLeavesBig(s: System)
    requires ValidBus(s.bus) && s.tcp == Idle && s.slot.isSending && s.slot.big
    ensures var r := Step(Step(Step(Step(s, Wake, Fifo), Transfer(SendFailed), Fifo), Report, Fifo), Clear, Fifo);
      r.tcp == Idle && !r.slot.isSending && r.slot.big
  {
    hide ReportStep, WakeStep, ValidBus;
    WakeThenBusy(s);
    ReportThenClear(TransferStep(WakeStep(s), SendFailed));
  }

  lemma FirstTransferStarts()
    ensures var s := Step(Step(Initial(), Create(CommandModule, 1, true), Fifo), FirstSend(0), Fifo);
      var r := Step(Step(s, DeliverStep, Fifo), DeliverStep, Fifo);
      r.tcp == Idle && r.slot.isSending && r.slot.big
  {
    hide LogCopy;
    var s := Step(Initial(), Create(CommandModule, 1, true), Fifo);
    var m := TokenMsg(s, CommandModule, TcpSendModule, 0);
    assert Step(s, FirstSend(0), Fifo).bus.queue == [m];
  }

  /** A run that leaves the slot free and marked as large: a response whose transfer failed, reported and cleared. */
  lemma LeftBig() returns (events: seq<Event>)
    ensures forall e | e in events :: Admissible(e)
    ensures var s := Run(events, Fifo); s.tcp == Idle && !s.slot.isSending && s.slot.big
  {
    var start := [Create(CommandModule, 1, true)] + [FirstSend(0)] + [DeliverStep] + [DeliverStep];
    events := start + [Wake] + [Transfer(SendFailed)] + [Report] + [Clear];
    assert Run([], Fifo) == Initial();
    hide Run, Step, Initial;
    RunOfPrefix([], Create(CommandModule, 1, true), Fifo);
    assert [] + [Create(CommandModule, 1, true)] == [Create(CommandModule, 1, true)];
    RunOfPrefix([Create(CommandModule, 1, true)], FirstSend(0), Fifo);
    RunOfPrefix([Create(CommandModule, 1, true)] + [FirstSend(0)], DeliverStep, Fifo);
    RunOfPrefix([Create(CommandModule, 1, true)] + [FirstSend(0)] + [DeliverStep], DeliverStep, Fifo);
    FirstTransferStarts();
    RunOfPrefix(start, Wake, Fifo);
    RunOfPrefix(start + [Wake], Transfer(SendFailed), Fifo);
    RunOfPrefix(start + [Wake] + [Transfer(SendFailed)], Report, Fifo);
    RunOfPrefix(start + [Wake] + [Transfer(SendFailed)] + [Report], Clear, Fifo);
    FailedTransferLeavesBig(Run(start, Fifo));
  }
}
