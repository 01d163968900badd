/**
 A reported token comes back: in every continuation of the run, and in both build variants, as soon as the delivering
 thread has made enough steps. Messages of higher priority that are sent meanwhile can only delay it.
 */
module BigDataReturn {
  import opened MsgQueue
  import opened BigData

  /** The state after the events `es`, from any state. */
  function RunFrom(s: System, es: seq<Event>, mode: Mode): (r: System)
    requires ValidBus(s.bus)
    ensures ValidBus(r.bus) && s.freed <= r.freed
  {
    if es == [] then s else Step(RunFrom(s, es[..|es| - 1], mode), es[|es| - 1], mode)
  }

  lemma {:induction false} RunOfBoth(before: seq<Event>, es: seq<Event>, mode: Mode)
    ensures Run(before + es, mode) == RunFrom(Run(before, mode), es, mode)
    decreases |es|
  {
    hide Step;
    if es == [] {
      assert before + es == before;
    } else {
      var k := |es| - 1;
      assert (before + es)[..|before + es| - 1] == before + es[..k];
      RunOfBoth(before, es[..k], mode);
    }
  }

  // ---- Where a finished token is ----

  datatype Spot = InQueue(at: nat) | InHandler

  predicate On(s: System, id: nat, spot: Spot) {
    match spot
    case InQueue(at) => at < |s.bus.queue| && s.bus.queue[at].data == Token(id)
    case InHandler => s.deliver.Handling? && s.deliver.msg.data == Token(id)
  }

  /** Steps until the delivering thread takes the next message. */
  function Phase(d: Delivering): nat {
    match d
    case Waiting => 0
    case Releasing(_) => 1
    case Resending(_) => 2
    case Handling(_) => 3
  }

  /** How many steps the delivering thread is away from freeing the token. */
  function Distance(s: System, spot: Spot): nat {
    match spot
    case InQueue(at) => 4 * (at + 1) + Phase(s.deliver)
    case InHandler => 3
  }

  /** A step of the delivering thread, and not a wait for a message or for the lock of the TCP sender. */
  predicate IsMove(s: System, e: Event, mode: Mode)
    requires ValidBus(s.bus)
  {
    e == DeliverStep && DeliverNext(s, mode).deliver != s.deliver
  }

  /** Sending a message that may overtake a token. */
  predicate IsUrgent(e: Event, mode: Mode) {
    mode == Priority && e.Other? && e.msg.priority > NORMAL_PRIORITY
  }

  function Moves(s: System, es: seq<Event>, mode: Mode): nat
    requires ValidBus(s.bus)
  {
    if es == [] then 0
    else Moves(s, es[..|es| - 1], mode) + One(IsMove(RunFrom(s, es[..|es| - 1], mode), es[|es| - 1], mode))
  }

  function Urgents(es: seq<Event>, mode: Mode): nat {
    if es == [] then 0 else Urgents(es[..|es| - 1], mode) + One(IsUrgent(es[|es| - 1], mode))
  }

  lemma {:induction false} RefsSome(q: seq<Msg>, id: nat, at: nat)
    requires at < |q| && q[at].data == Token(id)
    ensures Refs(q, id) > 0
  {
    if at < |q| - 1 {
      RefsSome(q[..|q| - 1], id, at);
    }
  }

  lemma {:induction false} RefsFind(q: seq<Msg>, id: nat) returns (at: nat)
    requires Refs(q, id) > 0
    ensures at < |q| && q[at].data == Token(id)
  {
    at := |q| - 1;
    if q[at].data != Token(id) {
      at := RefsFind(q[..at], id);
    }
  }

  /** What the invariant says about a finished token at its spot. */
  lemma Finished(s: System, id: nat, spot: Spot)
    requires Inv(s, -1) && id in s.live && Final(s.live[id].status) && On(s, id, spot)
    ensures ValidBus(s.bus) && id !in s.held && id < s.nextId && !SlotOwns(s, id)
    ensures spot.InQueue? ==> !DeliverOwns(s.deliver, id) && s.bus.queue[spot.at].priority == NORMAL_PRIORITY
    ensures spot.InHandler? ==> s.deliver.msg.dst == s.live[id].source && IsSource(s.live[id].source)
  {
    assert Accounted(s, id, -1);
    if spot.InQueue? {
      RefsSome(s.bus.queue, id, spot.at);
    }
    hide Refs;
  }

  /** `r` is a step closer, or has only been delayed by an urgent message. */
  predicate Closer(s: System, r: System, id: nat, spot: Spot, spot': Spot, moved: bool, urgent: bool) {
    id in s.live && id in r.live && r.live[id] == s.live[id] && On(r, id, spot') &&
    Distance(r, spot') + One(moved) <= Distance(s, spot) + 4 * One(urgent)
  }

  lemma Passed(s: System, r: System, id: nat, spot: Spot, moved: bool)
    requires id in s.live && id in r.live && r.live[id] == s.live[id] && spot.InQueue? && On(r, id, spot)
    requires if moved then Phase(r.deliver) < Phase(s.deliver) else r.deliver == s.deliver
    ensures Closer(s, r, id, spot, spot, moved, false)
  {
  }

  lemma OnSame(s: System, r: System, id: nat, spot: Spot)
    requires r.bus == s.bus && spot.InQueue? && On(s, id, spot)
    ensures On(r, id, spot)
  {
  }

  // ---- One step ----

  lemma SendBehind(s: System, m: Msg, mode: Mode, id: nat, at: nat) returns (at': nat)
    requires ValidBus(s.bus) && On(s, id, InQueue(at)) && s.bus.queue[at].priority == NORMAL_PRIORITY
    ensures On(s.(bus := Send(s.bus, m, mode)), id, InQueue(at'))
    ensures at <= at' <= at + One(mode == Priority && m.priority > NORMAL_PRIORITY)
  {
    at' := at;
    if !Full(s) {
      var queued := Prepared(s.bus, m);
      at' := StableQueue.InsertMoves(s.bus.queue, queued, Ranking(mode), at);
    }
  }

  /** Tokens have normal priority: they do not overtake each other. */
  lemma DispatchBehind(s: System, src: Module, dst: Module, x: nat, mode: Mode, id: nat, spot: Spot)
    requires ValidBus(s.bus) && On(s, id, spot)
    requires spot.InQueue? ==> s.bus.queue[spot.at].priority == NORMAL_PRIORITY
    ensures var r := Dispatch(s, src, dst, x, mode);
      On(r, id, spot) && r.deliver == s.deliver && r.live == s.live
  {
    if !Full(s) && spot.InQueue? {
      var at' := SendBehind(s, TokenMsg(s, src, dst, x), mode, id, spot.at);
    }
    hide Send;
  }

  lemma SetStatusOther(s: System, x: nat, status: Status, id: nat)
    requires id in s.live && x != id
    ensures var r := SetStatus(s, x, status); r.live[id] == s.live[id] && r.deliver == s.deliver && r.bus == s.bus
  {
  }

  lemma FreeOther(s: System, x: nat, id: nat)
    requires id in s.live && x != id
    ensures var r := Free(s, x); id in r.live && r.live[id] == s.live[id] && r.deliver == s.deliver && r.bus == s.bus
  {
  }

  lemma SourceHandleFacts(s: System, m: Msg, x: nat, mode: Mode, id: nat)
    requires ValidBus(s.bus) && x != id && id in s.live
    ensures var r, sent := SourceHandle(s, m, x, mode), Dispatch(s, m.dst, TcpSendModule, x, mode);
      r.deliver.Releasing? && id in r.live && r.live[id] == s.live[id] && (r.bus == s.bus || r.bus == sent.bus)
  {
    FreeOther(s, x, id);
    hide Dispatch, Free, Noted, Final;
  }

  lemma SourceHandleOther(s: System, m: Msg, x: nat, mode: Mode, id: nat, spot: Spot)
    requires ValidBus(s.bus) && s.deliver == Handling(m) && x != id && id in s.live && spot.InQueue?
    requires On(s, id, spot) && s.bus.queue[spot.at].priority == NORMAL_PRIORITY
    ensures Closer(s, SourceHandle(s, m, x, mode), id, spot, spot, true, false)
  {
    DispatchBehind(s, m.dst, TcpSendModule, x, mode, id, spot);
    SourceHandleFacts(s, m, x, mode, id);
    hide SourceHandle, Dispatch, On, Closer;
    var r := SourceHandle(s, m, x, mode);
    if r.bus == s.bus {
      OnSame(s, r, id, spot);
    } else {
      OnSame(Dispatch(s, m.dst, TcpSendModule, x, mode), r, id, spot);
    }
    Passed(s, r, id, spot, true);
  }

  lemma TcpHandleFacts(s: System, m: Msg, x: nat, id: nat)
    requires x != id && id in s.live
    ensures var r := TcpHandle(s, m, x);
      id in r.live && r.live[id] == s.live[id] && r.bus == s.bus &&
      (r.deliver == s.deliver || r.deliver == Releasing(m) || r.deliver == Resending(m))
  {
    SetStatusOther(s, x, Resend, id);
    hide SetStatus, Usable;
  }

  lemma TcpHandleOther(s: System, m: Msg, x: nat, id: nat, spot: Spot)
    requires s.deliver == Handling(m) && x != id && id in s.live && On(s, id, spot) && spot.InQueue?
    ensures var r := TcpHandle(s, m, x); Closer(s, r, id, spot, spot, r.deliver != s.deliver, false)
  {
    hide TcpHandle, On, Closer;
    var r := TcpHandle(s, m, x);
    TcpHandleFacts(s, m, x, id);
    OnSame(s, r, id, spot);
    Passed(s, r, id, spot, r.deliver != s.deliver);
  }

  /** A message without a token, or to another module. */
  lemma PlainHandleOther(s: System, m: Msg, id: nat, spot: Spot)
    requires s.deliver == Handling(m) && id in s.live && On(s, id, spot) && spot.InQueue?
    ensures Closer(s, s.(deliver := Releasing(m)), id, spot, spot, true, false)
    ensures var r := TcpHandleImage(s, m); Closer(s, r, id, spot, spot, r.deliver != s.deliver, false)
  {
    var r := TcpHandleImage(s, m);
    hide On, Closer;
    OnSame(s, r, id, spot);
    Passed(s, r, id, spot, r.deliver != s.deliver);
    OnSame(s, s.(deliver := Releasing(m)), id, spot);
    Passed(s, s.(deliver := Releasing(m)), id, spot, true);
  }

  lemma HandleOther(s: System, m: Msg, mode: Mode, id: nat, spot: Spot)
    requires ValidBus(s.bus) && s.deliver == Handling(m) && m.data != Token(id) && id in s.live && spot.InQueue?
    requires On(s, id, spot) && s.bus.queue[spot.at].priority == NORMAL_PRIORITY
    ensures var r := Handle(s, m, mode); Closer(s, r, id, spot, spot, r.deliver != s.deliver, false)
  {
    hide TcpHandle, SourceHandle, TcpHandleImage, On, Closer, IsSource;
    PlainHandleOther(s, m, id, spot);
    if m.data.Token? {
      SourceHandleOther(s, m, m.data.id, mode, id, spot);
      SourceHandleFacts(s, m, m.data.id, mode, id);
      TcpHandleOther(s, m, m.data.id, id, spot);
    }
  }

  lemma DeliverApproaches(s: System, mode: Mode, id: nat, spot: Spot) returns (spot': Spot)
    requires Inv(s, -1) && id in s.live && Final(s.live[id].status) && On(s, id, spot)
    ensures var r := DeliverNext(s, mode);
      id in r.freed || Closer(s, r, id, spot, spot', r.deliver != s.deliver, false)
  {
    Finished(s, id, spot);
    assert DeliverRouted(s.live, s.deliver);
    hide Inv, QueueRouted, Send;
    spot' := spot;
    match s.deliver
    case Waiting =>
      if spot.InQueue? {
        spot' := if spot.at == 0 then InHandler else InQueue(spot.at - 1);
      }
    case Handling(m) =>
      if spot.InQueue? {
        HandleOther(s, m, mode, id, spot);
        hide Handle;
      }
    case Resending(m) =>
      if m.data.Token? {
        DispatchBehind(s, TcpSendModule, m.src, m.data.id, mode, id, spot);
        hide Dispatch;
      }
    case Releasing(m) =>
  }

  lemma FirstSendPasses(s: System, x: nat, mode: Mode, id: nat, spot: Spot)
    requires ValidBus(s.bus) && id in s.live && id !in s.held && On(s, id, spot)
    requires spot.InQueue? ==> s.bus.queue[spot.at].priority == NORMAL_PRIORITY
    ensures Closer(s, FirstSendStep(s, x, mode), id, spot, spot, false, false)
  {
    if x in s.live {
      DispatchBehind(s, s.live[x].source, TcpSendModule, x, mode, id, spot);
    }
    hide Dispatch;
  }

  lemma ReportPasses(s: System, mode: Mode, id: nat, spot: Spot)
    requires ValidBus(s.bus) && id in s.live && !SlotOwns(s, id) && On(s, id, spot)
    requires spot.InQueue? ==> s.bus.queue[spot.at].priority == NORMAL_PRIORITY
    ensures Closer(s, ReportStep(s, mode), id, spot, spot, false, false)
  {
    if s.tcp.Reporting? && s.tcp.big && s.slot.token.Some? {
      var x := s.slot.token.value;
      var status := if s.tcp.ok then Done else FileDeliverError;
      var marked := SetStatus(s, x, status).(completed := Noted(s.completed, x, status));
      SetStatusOther(s, x, status, id);
      DispatchBehind(marked, TcpSendModule, s.tcp.target, x, mode, id, spot);
    }
    hide Dispatch, SetStatus, Noted;
  }

  lemma StepApproaches(s: System, e: Event, mode: Mode, id: nat, spot: Spot) returns (spot': Spot)
    requires Inv(s, -1) && id in s.live && Final(s.live[id].status) && On(s, id, spot) && Admissible(e)
    ensures var r := Step(s, e, mode);
      id in r.freed || Closer(s, r, id, spot, spot', IsMove(s, e, mode), IsUrgent(e, mode))
  {
    Finished(s, id, spot);
    hide Inv, QueueRouted, Send, DeliverNext, ReportStep, FirstSendStep;
    spot' := spot;
    match e
    case DeliverStep => spot' := DeliverApproaches(s, mode, id, spot);
    case FirstSend(x) => FirstSendPasses(s, x, mode, id, spot);
    case Report => ReportPasses(s, mode, id, spot);
    case Other(m) =>
      if spot.InQueue? {
        var at' := SendBehind(s, m, mode, id, spot.at);
        spot' := InQueue(at');
      }
    case Create(_, _, _) =>
    case Wake =>
    case Transfer(_) =>
    case Clear =>
  }

  // ---- Every continuation ----

  lemma {:induction false} RunFromKeepsInv(s: System, es: seq<Event>, mode: Mode)
    requires Inv(s, -1) && forall e | e in es :: Admissible(e)
    ensures Inv(RunFrom(s, es, mode), -1)
    decreases |es|
  {
    hide Step, Inv;
    assert ValidBus(s.bus) by { InvValid(s); }
    if es != [] {
      RunFromKeepsInv(s, es[..|es| - 1], mode);
      StepKeepsInv(RunFrom(s, es[..|es| - 1], mode), es[|es| - 1], mode);
    }
  }

  lemma InvValid(s: System)
    requires Inv(s, -1)
    ensures ValidBus(s.bus)
  {
  }

  /** The token is freed, or so much closer. */
  lemma {:induction false} Approaches(s: System, es: seq<Event>, mode: Mode, id: nat, spot: Spot) returns (spot': Spot)
    requires Inv(s, -1) && id in s.live && Final(s.live[id].status) && On(s, id, spot)
    requires forall e | e in es :: Admissible(e)
    ensures ValidBus(s.bus)
    ensures var r := RunFrom(s, es, mode);
      id in r.freed ||
      (id in r.live && r.live[id] == s.live[id] && On(r, id, spot') &&
       Distance(r, spot') + Moves(s, es, mode) <= Distance(s, spot) + 4 * Urgents(es, mode))
    decreases |es|
  {
    hide Inv, Step, IsMove, On, Distance;
    InvValid(s);
    spot' := spot;
    if es != [] {
      var k := |es| - 1;
      var before, e := RunFrom(s, es[..k], mode), es[k];
      RunFromKeepsInv(s, es[..k], mode);
      spot' := Approaches(s, es[..k], mode, id, spot);
      if id in before.freed {
        assert before.freed <= Step(before, e, mode).freed;
      } else {
        spot' := StepApproaches(before, e, mode, id, spot');
      }
    }
  }

  /** What has been reported stays reported. */
  lemma {:induction false} CompletedGrows(s: System, es: seq<Event>, mode: Mode, id: nat)
    requires ValidBus(s.bus)
    ensures History(s.completed, id) <= History(RunFrom(s, es, mode).completed, id)
    decreases |es|
  {
    hide DeliverNext, Send, Step;
    if es != [] {
      CompletedGrows(s, es[..|es| - 1], mode, id);
      StepCompletes(RunFrom(s, es[..|es| - 1], mode), es[|es| - 1], mode, id);
    }
  }

  lemma DispatchCompletes(s: System, src: Module, dst: Module, x: nat, mode: Mode)
    requires ValidBus(s.bus)
    ensures Dispatch(s, src, dst, x, mode).completed == s.completed
  {
    hide Send;
  }

  lemma SourceHandleCompletes(s: System, m: Msg, x: nat, mode: Mode)
    requires ValidBus(s.bus)
    ensures SourceHandle(s, m, x, mode).completed == s.completed
  {
    DispatchCompletes(s, m.dst, TcpSendModule, x, mode);
    hide Dispatch, Noted;
  }

  lemma TcpHandleCompletes(s: System, m: Msg, x: nat)
    ensures TcpHandle(s, m, x).completed == s.completed
  {
  }

  lemma HandleCompletes(s: System, m: Msg, mode: Mode)
    requires ValidBus(s.bus)
    ensures Handle(s, m, mode).completed == s.completed
  {
    hide SourceHandle, TcpHandle, IsSource;
    if m.data.Token? {
      SourceHandleCompletes(s, m, m.data.id, mode);
      TcpHandleCompletes(s, m, m.data.id);
    }
  }

  lemma DeliverCompletes(s: System, mode: Mode)
    requires ValidBus(s.bus)
    ensures DeliverNext(s, mode).completed == s.completed
  {
    hide Dispatch, Handle;
    match s.deliver
    case Handling(m) => HandleCompletes(s, m, mode);
    case Resending(m) =>
      if m.data.Token? {
        DispatchCompletes(s, TcpSendModule, m.src, m.data.id, mode);
      }
    case _ =>
  }

  lemma ReportCompletes(s: System, mode: Mode, id: nat)
    requires ValidBus(s.bus)
    ensures History(s.completed, id) <= History(ReportStep(s, mode).completed, id)
  {
    if s.tcp.Reporting? && s.tcp.big && s.slot.token.Some? {
      var x := s.slot.token.value;
      var status := if s.tcp.ok then Done else FileDeliverError;
      var marked := SetStatus(s, x, status).(completed := Noted(s.completed, x, status));
      DispatchCompletes(marked, TcpSendModule, s.tcp.target, x, mode);
    }
    hide Dispatch, SetStatus;
  }

  lemma FirstSendCompletes(s: System, x: nat, mode: Mode)
    requires ValidBus(s.bus)
    ensures FirstSendStep(s, x, mode).completed == s.completed
  {
    if x in s.live {
      DispatchCompletes(s, s.live[x].source, TcpSendModule, x, mode);
    }
    hide Dispatch;
  }

  lemma StepCompletes(s: System, e: Event, mode: Mode, id: nat)
    requires ValidBus(s.bus)
    ensures History(s.completed, id) <= History(Step(s, e, mode).completed, id)
  {
    hide DeliverNext, ReportStep, FirstSendStep, Send, History;
    match e
    case DeliverStep => DeliverCompletes(s, mode);
    case Report => ReportCompletes(s, mode, id);
    case FirstSend(x) => FirstSendCompletes(s, x, mode);
    case Create(_, _, _) =>
    case Other(_) =>
    case Wake =>
    case Transfer(_) =>
    case Clear =>
  }

  /** The most steps the delivering thread needs: 32 messages in front and the present one, four steps each. */
  const FARTHEST := 4 * QUEUE_SIZE + 3

  /** Where a reported token is that has not been freed. */
  lemma FindSpot(s: System, id: nat) returns (spot: Spot)
    requires Inv(s, -1) && !s.refused && History(s.completed, id) != [] && id !in s.freed
    ensures ValidBus(s.bus) && id in s.live && Final(s.live[id].status) && On(s, id, spot)
    ensures Distance(s, spot) <= FARTHEST
  {
    assert Accounted(s, id, -1);
    hide QueueRouted;
    if DeliverOwns(s.deliver, id) {
      spot := InHandler;
    } else {
      var at := RefsFind(s.bus.queue, id);
      spot := InQueue(at);
    }
  }

  /**
   A token that was reported, in a run in which the queue had refused no token: in every continuation, whatever the
   other threads do and whatever else is sent, it has been freed by its source with the reported status once the
   delivering thread has made 131 steps, and four more for every message of higher priority sent meanwhile.
   */
  lemma ReportedTokenReturns(before: seq<Event>, es: seq<Event>, mode: Mode, id: nat)
    requires forall e | e in before :: Admissible(e)
    requires forall e | e in es :: Admissible(e)
    requires var s := Run(before, mode);
      !s.refused && History(s.completed, id) != [] && Moves(s, es, mode) >= FARTHEST + 4 * Urgents(es, mode)
    ensures var s, r := Run(before, mode), Run(before + es, mode);
      id in r.freed && History(r.returned, id) == History(s.completed, id)
  {
    var s := Run(before, mode);
    hide Run, Inv, Moves, RunFrom, On;
    RunKeepsInv(before, mode);
    RunOfBoth(before, es, mode);
    if id !in s.freed {
      var spot := FindSpot(s, id);
      var spot' := Approaches(s, es, mode, id, spot);
    }
    RunFromKeepsInv(s, es, mode);
    CompletedGrows(s, es, mode, id);
    ReturnedAsReported(RunFrom(s, es, mode), id);
  }

  lemma ReturnedAsReported(s: System, id: nat)
    requires Inv(s, -1) && id in s.freed
    ensures History(s.returned, id) == History(s.completed, id) && |History(s.completed, id)| <= 1
  {
    assert Accounted(s, id, -1);
  }

  /** Only the lock of the TCP sender, held while a report is being cleared, can keep the delivering thread waiting. */
  lemma NeverStuck(s: System, mode: Mode, id: nat, spot: Spot)
    requires Inv(s, -1) && On(s, id, spot) && !s.tcp.Clearing?
    ensures ValidBus(s.bus) && IsMove(s, DeliverStep, mode)
  {
    hide QueueRouted, Send, Refs;
    InvValid(s);
  }
}
