/**
 What becomes of a token that is sent: no token is lost on the way, each step puts it where it has to go next, and what
 is reported is the outcome of the transfer.
 */
module BigDataSteps {
  import opened Bytes
  import opened MsgQueue
  import opened BigData
  import BigDataReturn
  import StableQueue

  /**
   In every run in which the queue refused no token: an allocated token with data and a length is in exactly one place,
   with its source, in the queue, in a handler or in the slot.
   */
  lemma NeverLost(events: seq<Event>, mode: Mode, id: nat)
    requires forall e | e in events :: Admissible(e)
    ensures var s := Run(events, mode);
      !s.refused && id in s.live && s.live[id].hasData && s.live[id].totalLen != 0 ==> Places(s, id) == 1
  {
    hide Run, Places;
    RunKeepsInv(events, mode);
    assert Accounted(Run(events, mode), id, -1);
  }

  /** A source that allocates a token holds it, as one that was never given out before. */
  lemma CreatedHeld(events: seq<Event>, mode: Mode, source: Module, totalLen: nat, hasData: bool)
    requires forall e | e in events :: Admissible(e)
    requires source == CommandModule || source == LoggerModule
    ensures var s, r := Run(events, mode), Step(Run(events, mode), Create(source, totalLen, hasData), mode);
      var id := s.nextId;
      id !in s.live && id !in s.freed && id in r.held && r.bus == s.bus &&
      r.live == s.live[id := Record(source, ToSend, totalLen, hasData)] &&
      History(s.completed, id) == History(s.returned, id) == []
  {
    RunKeepsInv(events, mode);
    hide Run;
    assert Accounted(Run(events, mode), Run(events, mode).nextId, -1);
  }

  /** A message that carries token `id`, with its length, is in the queue. */
  predicate Underway(s: System, src: Module, dst: Module, id: nat) {
    id in s.live && Msg(src, dst, s.live[id].totalLen, BigDataMsg, 1, Token(id)) in s.bus.queue
  }

  lemma DispatchUnderway(s: System, src: Module, dst: Module, id: nat, mode: Mode)
    requires ValidBus(s.bus) && id in s.live && |s.bus.queue| < 32
    ensures var r := Dispatch(s, src, dst, id, mode);
      Underway(r, src, dst, id) && r == s.(bus := r.bus)
  {
    StableQueue.InsertMembers(s.bus.queue, TokenMsg(s, src, dst, id), Ranking(mode));
    hide StableQueue.Insert, LogCopy;
  }

  lemma DispatchRefused(s: System, src: Module, dst: Module, id: nat, mode: Mode)
    requires ValidBus(s.bus) && id in s.live && |s.bus.queue| >= 32
    ensures Dispatch(s, src, dst, id, mode) == s.(refused := true)
  {
  }

  /** The delivering thread handles a message that carries token `id` to module `dst`. */
  predicate HandlesToken(s: System, dst: Module, id: nat) {
    s.deliver.Handling? && s.deliver.msg.data == Token(id) && s.deliver.msg.dst == dst
  }

  /** What the invariant says about a token that is handled. */
  lemma Handled(s: System, dst: Module, id: nat)
    requires Inv(s, -1) && HandlesToken(s, dst, id)
    ensures ValidBus(s.bus) && id in s.live && IsSource(s.live[id].source) && s.deliver.msg.msgType == BigDataMsg
    ensures dst == TcpSendModule ==> s.deliver.msg.src == s.live[id].source
    ensures dst != TcpSendModule ==> dst == s.live[id].source && s.live[id].status != ToSend
  {
    hide Places, QueueRouted;
    assert DeliverOwns(s.deliver, id);
    OwnerFindsIt(s, id);
    assert Accounted(s, id, -1);
  }

  /**
   The first dispatch puts a token on its way to the TCP sender. Refused, a response is freed at once, and a log file
   stays with nobody.
   */
  lemma FirstSendUnderway(events: seq<Event>, mode: Mode, id: nat)
    requires forall e | e in events :: Admissible(e)
    requires id in Run(events, mode).held
    ensures var s, r := Run(events, mode), Step(Run(events, mode), FirstSend(id), mode);
      id in s.live && id !in r.held &&
      if |s.bus.queue| < 32 then r.live == s.live && Underway(r, s.live[id].source, TcpSendModule, id)
      else if s.live[id].source == CommandModule then r.live == s.live - {id} && id in r.freed
      else r.live == s.live && r.refused
  {
    var s := Run(events, mode);
    hide Run, Inv, Dispatch, Underway;
    RunKeepsInv(events, mode);
    OwnerFindsIt(s, id);
    if |s.bus.queue| < 32 {
      DispatchUnderway(s, s.live[id].source, TcpSendModule, id, mode);
      UnderwayFrame(s, Step(s, FirstSend(id), mode), s.live[id].source, TcpSendModule, id, mode);
    } else {
      DispatchRefused(s, s.live[id].source, TcpSendModule, id, mode);
    }
  }

  lemma UnderwayFrame(s: System, r: System, src: Module, dst: Module, id: nat, mode: Mode)
    requires ValidBus(s.bus) && Underway(Dispatch(s, src, dst, id, mode), src, dst, id)
    requires r.bus == Dispatch(s, src, dst, id, mode).bus && r.live == s.live
    ensures Underway(r, src, dst, id)
  {
    hide Send;
  }

  /**
   A token that its source handles came back from the TCP sender. If that asked for it again, it is on its way to the
   TCP sender once more; otherwise the source frees it.
   */
  lemma SourceSendsAgainOrFrees(events: seq<Event>, mode: Mode, dst: Module, id: nat)
    requires forall e | e in events :: Admissible(e)
    requires HandlesToken(Run(events, mode), dst, id) && dst != TcpSendModule
    ensures var s, r := Run(events, mode), Step(Run(events, mode), DeliverStep, mode);
      r.deliver.Releasing? && id in s.live && s.live[id].status != ToSend &&
      if s.live[id].status == Resend then
        r.live == s.live && if |s.bus.queue| < 32 then Underway(r, dst, TcpSendModule, id) else r.refused
      else
        r.live == s.live - {id} && id in r.freed && History(r.returned, id) == [s.live[id].status]
  {
    var s := Run(events, mode);
    RunKeepsInv(events, mode);
    assert Accounted(s, id, -1);
    hide Run, Places, QueueRouted, Dispatch, Underway, Inv, HandlesToken;
    SourceStep(s, mode, dst, id);
    Handled(s, dst, id);
    if s.live[id].status == Resend {
      if |s.bus.queue| < 32 {
        DispatchUnderway(s, dst, TcpSendModule, id, mode);
        UnderwayFrame(s, Step(s, DeliverStep, mode), dst, TcpSendModule, id, mode);
      } else {
        DispatchRefused(s, dst, TcpSendModule, id, mode);
      }
    }
  }

  lemma SourceStep(s: System, mode: Mode, dst: Module, id: nat)
    requires Inv(s, -1) && HandlesToken(s, dst, id) && dst != TcpSendModule
    ensures ValidBus(s.bus) && DeliverNext(s, mode) == SourceHandle(s, s.deliver.msg, id, mode)
  {
    Handled(s, dst, id);
    hide Inv, SourceHandle;
  }

  lemma TcpStep(s: System, mode: Mode, id: nat)
    requires Inv(s, -1) && HandlesToken(s, TcpSendModule, id)
    ensures ValidBus(s.bus) && DeliverNext(s, mode) == TcpHandle(s, s.deliver.msg, id)
  {
    Handled(s, TcpSendModule, id);
    hide Inv, TcpHandle;
  }

  /**
   The TCP sender takes a token into the free slot, where the sending thread finds it with its source when it wakes.
   When the slot is taken it marks the token and is about to send it back. A token without data is dropped.
   */
  lemma TcpTakesOrReturns(events: seq<Event>, mode: Mode, id: nat)
    requires forall e | e in events :: Admissible(e)
    requires HandlesToken(Run(events, mode), TcpSendModule, id) && !Run(events, mode).tcp.Clearing?
    ensures var s, r := Run(events, mode), Step(Run(events, mode), DeliverStep, mode);
      id in s.live && r.bus == s.bus && r.tcp == s.tcp &&
      if !s.live[id].hasData || s.live[id].totalLen == 0 then
        r.deliver.Releasing? && r.live == s.live && r.slot == s.slot
      else if !s.slot.isSending then
        r.deliver.Releasing? && r.live == s.live && r.slot == Slot(true, true, Some(id), s.live[id].source) &&
        (s.tcp == Idle ==> Step(r, Wake, mode).tcp == Busy(true, s.live[id].source))
      else
        r.deliver == Resending(s.deliver.msg) && r.slot == s.slot &&
        r.live == s.live[id := s.live[id].(status := Resend)]
  {
    var s := Run(events, mode);
    hide Run, Inv, HandlesToken;
    RunKeepsInv(events, mode);
    TcpStep(s, mode, id);
    Handled(s, TcpSendModule, id);
  }

  /** A token that was marked is then on its way back to its source. */
  lemma MarkedUnderway(events: seq<Event>, mode: Mode, id: nat)
    requires forall e | e in events :: Admissible(e)
    requires Run(events, mode).deliver.Resending? && Run(events, mode).deliver.msg.data == Token(id)
    ensures var s, r := Run(events, mode), Step(Run(events, mode), DeliverStep, mode);
      r.deliver.Releasing? && id in s.live && s.live[id].status == Resend && r.live == s.live &&
      if |s.bus.queue| < 32 then Underway(r, TcpSendModule, s.live[id].source, id) else r.refused
  {
    var s := Run(events, mode);
    RunKeepsInv(events, mode);
    assert Accounted(s, id, -1);
    hide Run, Places, QueueRouted, Dispatch, Underway, LiveOk;
    assert s.deliver.msg.src == s.live[id].source;
    hide Inv;
    if |s.bus.queue| < 32 {
      DispatchUnderway(s, TcpSendModule, s.live[id].source, id, mode);
      UnderwayFrame(s, Step(s, DeliverStep, mode), TcpSendModule, s.live[id].source, id, mode);
    } else {
      DispatchRefused(s, TcpSendModule, s.live[id].source, id, mode);
    }
  }

  // ---- The sending thread ----

  /** What the other steps leave alone while the sending thread is busy. */
  predicate SameWork(s: System, r: System) {
    r.tcp == s.tcp && r.slot == s.slot
  }

  lemma DispatchLeaves(s: System, src: Module, dst: Module, id: nat, mode: Mode)
    requires ValidBus(s.bus)
    ensures SameWork(s, Dispatch(s, src, dst, id, mode))
  {
    hide Send;
  }

  lemma SourceLeavesWork(s: System, m: Msg, id: nat, mode: Mode)
    requires ValidBus(s.bus)
    ensures SameWork(s, SourceHandle(s, m, id, mode))
  {
    DispatchLeaves(s, m.dst, TcpSendModule, id, mode);
    hide Dispatch, Noted;
  }

  lemma HandleLeavesWork(s: System, m: Msg, mode: Mode)
    requires ValidBus(s.bus) && s.slot.isSending
    ensures SameWork(s, Handle(s, m, mode))
  {
    if m.data.Token? {
      SourceLeavesWork(s, m, m.data.id, mode);
    }
    hide SourceHandle, IsSource;
  }

  lemma DeliverLeavesWork(s: System, mode: Mode)
    requires ValidBus(s.bus) && s.slot.isSending
    ensures SameWork(s, DeliverNext(s, mode))
  {
    hide Handle, Dispatch;
    match s.deliver
    case Handling(m) => HandleLeavesWork(s, m, mode);
    case Resending(m) =>
      if m.data.Token? {
        DispatchLeaves(s, TcpSendModule, m.src, m.data.id, mode);
      }
    case _ =>
  }

  lemma FirstSendLeavesWork(s: System, id: nat, mode: Mode)
    requires ValidBus(s.bus)
    ensures SameWork(s, FirstSendStep(s, id, mode))
  {
    if id in s.live {
      DispatchLeaves(s, s.live[id].source, TcpSendModule, id, mode);
    }
    hide Dispatch;
  }

  lemma OtherStepsLeaveWork(s: System, e: Event, mode: Mode)
    requires ValidBus(s.bus) && s.slot.isSending && s.tcp.Reporting? && e != Report
    ensures SameWork(s, Step(s, e, mode))
  {
    hide DeliverNext, FirstSendStep, Send;
    match e
    case DeliverStep => DeliverLeavesWork(s, mode);
    case FirstSend(id) => FirstSendLeavesWork(s, id, mode);
    case _ =>
  }

  lemma {:induction false} WorkStays(s: System, es: seq<Event>, mode: Mode)
    requires ValidBus(s.bus) && s.slot.isSending && s.tcp.Reporting? && Report !in es
    ensures SameWork(s, BigDataReturn.RunFrom(s, es, mode))
    decreases |es|
  {
    hide Step;
    if es != [] {
      WorkStays(s, es[..|es| - 1], mode);
      OtherStepsLeaveWork(BigDataReturn.RunFrom(s, es[..|es| - 1], mode), es[|es| - 1], mode);
    }
  }

  /**
   What is reported is the outcome of the transfer, whatever the other threads do between the transfer and the report:
   the token is marked as done if it was sent and as failed otherwise, that is noted once, and it is on its way to its
   source.
   */
  lemma OutcomeIsReported(before: seq<Event>, outcome: Outcome, es: seq<Event>, mode: Mode, id: nat)
    requires forall e | e in before :: Admissible(e)
    requires forall e | e in es :: Admissible(e)
    requires Run(before, mode).tcp.Busy? && Run(before, mode).slot.token == Some(id)
    requires outcome != Unreachable && Report !in es
    ensures var run := before + [Transfer(outcome)] + es;
      var s, r := Run(run, mode), Run(run + [Report], mode);
      id in s.live && id in r.live && r.live[id].source == s.live[id].source &&
      r.live[id].status == (if outcome == Sent then Done else FileDeliverError) &&
      History(r.completed, id) == [r.live[id].status] &&
      if |s.bus.queue| < 32 then Underway(r, TcpSendModule, s.live[id].source, id) else r.refused
  {
    var first := before + [Transfer(outcome)];
    var s := Run(first + es, mode);
    RunKeepsInv(before, mode);
    assert Run(before, mode).tcp.big && Run(before, mode).slot.isSending;
    hide Run, Inv, Underway, Step, ReportStep;
    RunKeepsInv(first + es, mode);
    RunOfPrefix(before, Transfer(outcome), mode);
    TransferReports(Run(before, mode), outcome, mode);
    BigDataReturn.RunOfBoth(first, es, mode);
    WorkStays(Run(first, mode), es, mode);
    RunOfPrefix(first + es, Report, mode);
    ReportMeans(s, mode, id);
  }

  lemma TransferReports(s: System, outcome: Outcome, mode: Mode)
    requires ValidBus(s.bus) && s.tcp.Busy? && outcome != Unreachable
    ensures var r := Step(s, Transfer(outcome), mode);
      r.tcp == Reporting(s.tcp.big, s.tcp.target, outcome == Sent) && r.slot == s.slot
  {
  }

  lemma ReportMeans(s: System, mode: Mode, id: nat)
    requires Inv(s, -1) && s.tcp.Reporting? && s.tcp.big && s.slot.token == Some(id)
    ensures var r := Step(s, Report, mode);
      ValidBus(s.bus) && id in s.live && id in r.live && r.live[id].source == s.live[id].source &&
      r.live[id].status == (if s.tcp.ok then Done else FileDeliverError) &&
      History(r.completed, id) == [r.live[id].status] &&
      if |s.bus.queue| < 32 then Underway(r, TcpSendModule, s.live[id].source, id) else r.refused
  {
    ReportedToItsSource(s);
    assert Accounted(s, id, -1);
    assert History(s.completed, id) == [];
    hide Inv, Places, Dispatch, Underway, LiveOk;
    var status := if s.tcp.ok then Done else FileDeliverError;
    var marked := SetStatus(s, id, status).(completed := Noted(s.completed, id, status));
    if |s.bus.queue| < 32 {
      DispatchUnderway(marked, TcpSendModule, s.tcp.target, id, mode);
      UnderwayFrame(marked, Step(s, Report, mode), TcpSendModule, s.tcp.target, id, mode);
    } else {
      DispatchRefused(marked, TcpSendModule, s.tcp.target, id, mode);
    }
  }

  /** A transfer that found no connection is tried again: after the next wake everything is as before. */
  lemma TriedAgain(events: seq<Event>, mode: Mode)
    requires forall e | e in events :: Admissible(e)
    requires Run(events, mode).tcp.Busy?
    ensures var s := Run(events, mode);
      Step(Step(s, Transfer(Unreachable), mode), Wake, mode) == s
  {
    var s := Run(events, mode);
    RunKeepsInv(events, mode);
    assert s.slot.token.Some? ==> Accounted(s, s.slot.token.value, -1);
    hide Run, Inv;
    assert s.slot.token.Some? ==> s.slot.token.value in s.live;
  }

  /** An image occupies a free slot until it is sent, without a report; while the slot is taken it is dropped. */
  lemma ImageTakesSlot(events: seq<Event>, mode: Mode)
    requires forall e | e in events :: Admissible(e)
    requires var s := Run(events, mode);
      s.deliver.Handling? && s.deliver.msg.msgType == ImageMsg && s.deliver.msg.data != Null &&
      s.deliver.msg.dst == TcpSendModule && !s.tcp.Clearing?
    ensures var s, r := Run(events, mode), Step(Run(events, mode), DeliverStep, mode);
      r.deliver == Releasing(s.deliver.msg) && r.bus == s.bus && r.live == s.live && r.tcp == s.tcp &&
      if s.slot.isSending then r.slot == s.slot
      else
        r.slot.isSending && r.slot.token == None &&
        (s.tcp == Idle ==>
           var sent := Step(Step(Step(r, Wake, mode), Transfer(Sent), mode), Report, mode);
           sent.tcp == Clearing(false) && sent.bus == s.bus && sent.completed == s.completed)
  {
    var s := Run(events, mode);
    RunKeepsInv(events, mode);
    assert !s.slot.isSending ==> s.slot.token == None;
    assert s.deliver.msg.data.Token? <==> s.deliver.msg.msgType == BigDataMsg;
    hide Run, Inv, Dispatch, SourceHandle, TcpHandle;
  }

  /** In the end the slot is free, and holds no token. */
  lemma SlotIsFreed(events: seq<Event>, mode: Mode)
    requires forall e | e in events :: Admissible(e)
    requires Run(events, mode).tcp.Clearing?
    ensures var s, r := Run(events, mode), Step(Run(events, mode), Clear, mode);
      r.tcp == Idle && !r.slot.isSending && r.slot.token == None && r.bus == s.bus && r.live == s.live
  {
    RunKeepsInv(events, mode);
    hide Run;
  }
}
