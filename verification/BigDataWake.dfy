/**
 The timed wake of the sending thread. Idle and without a connection, it looks at the slot under the lock, reconnects
 without the lock, and goes on with what it saw if by then there is something to send. This module adds these steps to
 the runs of the large transfers and says exactly what can go wrong: the look itself fails, or a token accepted between
 the look and the end of reconnecting is stranded.
 */
module BigDataWake {
  import opened Bytes
  import opened MsgQueue
  import opened BigData

  /** What the thread saw in the slot. */
  datatype Snapshot = Snapshot(big: bool, target: Module)

  /** The system, what the thread saw while it reconnects, and whether the present transfer came out of a reconnect. */
  datatype Waking = Waking(s: System, seen: Option<Snapshot>, reached: bool)

  datatype WakeEvent = Ordinary(e: Event) | Look | GoOn(reached: bool)

  /** The wait can end by timeout: nothing to send, and the thread is not reconnecting already. */
  predicate CanLook(w: Waking) {
    w.seen == None && w.s.tcp == Idle && !w.s.slot.isSending
  }

  function LookStep(w: Waking): Waking {
    if !CanLook(w) then w
    else
      var seen := w.(seen := Some(Snapshot(w.s.slot.big, w.s.slot.srcModule)));
      if !w.s.slot.big then seen
      else if w.s.slot.token == None then seen.(s := w.s.(fault := true))
      else seen.(s := Touch(w.s, w.s.slot.token.value))
  }

  /** After reconnecting, or failing to, the thread asks only whether there is something to send. */
  function GoOnStep(w: Waking, reached: bool): Waking {
    if w.seen == None then w
    else if !reached || !w.s.slot.isSending then w.(seen := None)
    else Waking(w.s.(tcp := Busy(w.seen.value.big, w.seen.value.target)), None, true)
  }

  /** While the thread reconnects it does not wait, and a transfer after a reconnect has a connection. */
  predicate Possible(w: Waking, e: Event) {
    !(e == Wake && w.seen.Some?) && !(e == Transfer(Unreachable) && w.reached)
  }

  function WakeRunStep(w: Waking, e: WakeEvent, mode: Mode): (r: Waking)
    requires ValidBus(w.s.bus)
    ensures ValidBus(r.s.bus)
  {
    match e
    case Ordinary(o) =>
      if Possible(w, o) then
        var s := Step(w.s, o, mode);
        Waking(s, w.seen, w.reached && s.tcp != Idle)
      else w
    case Look => LookStep(w)
    case GoOn(reached) => GoOnStep(w, reached)
  }

  function WakeRun(es: seq<WakeEvent>, mode: Mode): (w: Waking)
    ensures ValidBus(w.s.bus)
  {
    if es == [] then Waking(Initial(), None, false)
    else WakeRunStep(WakeRun(es[..|es| - 1], mode), es[|es| - 1], mode)
  }

  predicate AllAdmissible(es: seq<WakeEvent>) {
    forall e | e in es && e.Ordinary? :: Admissible(e.e)
  }

  // ---- What can go wrong ----

  /** A token was accepted after the look. */
  predicate Overtaken(w: Waking) {
    w.seen.Some? && w.s.slot.isSending && w.s.slot.big
  }

  /** The look fails, or the thread goes on with what it saw although a token was accepted since. */
  predicate Breaks(w: Waking, e: WakeEvent) {
    (e == Look && CanLook(w) && w.s.slot.big) || (e == GoOn(true) && Overtaken(w))
  }

  /** A run in which neither has happened. */
  predicate Sound(es: seq<WakeEvent>, mode: Mode) {
    es != [] ==>
      Sound(es[..|es| - 1], mode) && !Breaks(WakeRun(es[..|es| - 1], mode), es[|es| - 1])
  }

  /** What the thread saw is what the slot says, as long as no token was accepted. */
  predicate SeenRight(w: Waking) {
    w.seen.Some? ==>
      w.s.tcp == Idle && !w.seen.value.big &&
      (!Overtaken(w) ==> !w.s.slot.big && w.seen.value.target == w.s.slot.srcModule)
  }

  /** What other threads do to the slot: nothing, or they fill it. */
  predicate Filled(a: Slot, b: Slot) {
    b == a || (!a.isSending && b.isSending && (b.big || b.srcModule == a.srcModule))
  }

  lemma SourceHandleFills(s: System, m: Msg, id: nat, mode: Mode)
    requires ValidBus(s.bus)
    ensures var r := SourceHandle(s, m, id, mode); r.tcp == s.tcp && r.slot == s.slot
  {
    DispatchOnlyQueues(s, m.dst, TcpSendModule, id, mode);
    hide Dispatch, Noted;
  }

  lemma TcpHandleFills(s: System, m: Msg, id: nat)
    ensures var r := TcpHandle(s, m, id); r.tcp == s.tcp && Filled(s.slot, r.slot)
  {
  }

  lemma HandleFills(s: System, m: Msg, mode: Mode)
    requires ValidBus(s.bus)
    ensures var r := Handle(s, m, mode); r.tcp == s.tcp && Filled(s.slot, r.slot)
  {
    hide SourceHandle, TcpHandle, IsSource;
    if m.data.Token? {
      SourceHandleFills(s, m, m.data.id, mode);
      TcpHandleFills(s, m, m.data.id);
    }
  }

  lemma DeliverFills(s: System, mode: Mode)
    requires ValidBus(s.bus)
    ensures var r := DeliverNext(s, mode); r.tcp == s.tcp && Filled(s.slot, r.slot)
  {
    hide Handle, Dispatch;
    if s.deliver.Handling? {
      HandleFills(s, s.deliver.msg, mode);
    }
    if s.deliver.Resending? && s.deliver.msg.data.Token? {
      DispatchOnlyQueues(s, TcpSendModule, s.deliver.msg.src, s.deliver.msg.data.id, mode);
    }
  }

  lemma DispatchOnlyQueues(s: System, src: Module, dst: Module, id: nat, mode: Mode)
    requires ValidBus(s.bus)
    ensures var r := Dispatch(s, src, dst, id, mode);
      r.tcp == s.tcp && r.slot == s.slot && r.held == s.held && r.completed == s.completed && r.deliver == s.deliver &&
      r.live == s.live && r.nextId == s.nextId && r.freed == s.freed
  {
    hide Send;
  }

  lemma FirstSendFills(s: System, id: nat, mode: Mode)
    requires ValidBus(s.bus)
    ensures var r := FirstSendStep(s, id, mode); r.tcp == s.tcp && r.slot == s.slot
  {
    if id in s.live {
      DispatchOnlyQueues(s, s.live[id].source, TcpSendModule, id, mode);
    }
    hide Dispatch;
  }

  /** While the thread is idle and does not wake, the other threads can only fill the slot. */
  lemma StepFills(s: System, e: Event, mode: Mode)
    requires ValidBus(s.bus) && s.tcp == Idle && e != Wake
    ensures var r := Step(s, e, mode); r.tcp == Idle && Filled(s.slot, r.slot)
  {
    hide DeliverNext, FirstSendStep, Send;
    match e
    case DeliverStep => DeliverFills(s, mode);
    case FirstSend(id) => FirstSendFills(s, id, mode);
    case _ =>
  }

  lemma StepKeepsSeen(w: Waking, e: WakeEvent, mode: Mode)
    requires ValidBus(w.s.bus) && SeenRight(w) && !Breaks(w, e)
    ensures SeenRight(WakeRunStep(w, e, mode))
  {
    hide Step;
    if e.Ordinary? && w.seen.Some? && e.e != Wake {
      StepFills(w.s, e.e, mode);
    }
  }

  /**
   As long as nothing has gone wrong, the timed wakes leave no trace: the run is one of the runs without them, and all
   that holds for these holds here.
   */
  lemma {:induction false} SoundRunIsOrdinary(es: seq<WakeEvent>, mode: Mode) returns (events: seq<Event>)
    requires AllAdmissible(es) && Sound(es, mode)
    ensures forall e | e in events :: Admissible(e)
    ensures WakeRun(es, mode).s == Run(events, mode) && SeenRight(WakeRun(es, mode))
  {
    hide Step, Initial;
    if es == [] {
      events := [];
    } else {
      var k := |es| - 1;
      var w, e := WakeRun(es[..k], mode), es[k];
      events := SoundRunIsOrdinary(es[..k], mode);
      StepKeepsSeen(w, e, mode);
      if e.Ordinary? && Possible(w, e.e) {
        RunOfPrefix(events, e.e, mode);
        assert e in es;
        events := events + [e.e];
      } else if e == GoOn(true) && w.seen.Some? && w.s.slot.isSending {
        GoesOnAsIfWoken(w, mode);
        RunOfPrefix(events, Wake, mode);
        events := events + [Wake];
      }
    }
  }

  /** Going on with what was seen rightly is waking on work. */
  lemma GoesOnAsIfWoken(w: Waking, mode: Mode)
    requires ValidBus(w.s.bus) && SeenRight(w) && w.seen.Some? && w.s.slot.isSending && !Overtaken(w)
    ensures GoOnStep(w, true).s == Step(w.s, Wake, mode)
  {
  }

  // ---- The look ----

  lemma SoundMeans(es: seq<WakeEvent>, mode: Mode)
    requires AllAdmissible(es) && Sound(es, mode)
    ensures Inv(WakeRun(es, mode).s, -1) && SeenRight(WakeRun(es, mode))
  {
    hide Inv, Run;
    var events := SoundRunIsOrdinary(es, mode);
    RunKeepsInv(events, mode);
  }

  /** After any run in which nothing has gone wrong: the look fails if and only if the slot is free and marked large. */
  lemma LookFaultsIff(es: seq<WakeEvent>, mode: Mode)
    requires AllAdmissible(es) && Sound(es, mode)
    ensures var w := WakeRun(es, mode);
      WakeRunStep(w, Look, mode).s.fault <==> CanLook(w) && w.s.slot.big
  {
    SoundMeans(es, mode);
    hide WakeRun, Step, QueueRouted;
  }

  function Lifted(events: seq<Event>): (es: seq<WakeEvent>)
    ensures |es| == |events|
  {
    if events == [] then [] else Lifted(events[..|events| - 1]) + [Ordinary(events[|events| - 1])]
  }

  /** Every run without timed wakes is a run here, and nothing goes wrong in it. */
  lemma {:induction false} OrdinaryRunIsSound(events: seq<Event>, mode: Mode)
    requires forall e | e in events :: Admissible(e)
    ensures var es := Lifted(events);
      AllAdmissible(es) && Sound(es, mode) && WakeRun(es, mode) == Waking(Run(events, mode), None, false)
  {
    hide Step, Initial;
    if events != [] {
      var k := |events| - 1;
      OrdinaryRunIsSound(events[..k], mode);
      assert Lifted(events)[..k] == Lifted(events[..k]);
    }
  }

  /** And such states are reached. */
  lemma LookCanFault() returns (es: seq<WakeEvent>)
    ensures AllAdmissible(es) && Sound(es, Fifo)
    ensures WakeRunStep(WakeRun(es, Fifo), Look, Fifo).s.fault
  {
    hide Run, Sound, WakeRun, WakeRunStep, CanLook;
    var events := LeftBig();
    OrdinaryRunIsSound(events, Fifo);
    es := Lifted(events);
    LookFaultsIff(es, Fifo);
    FreeAndBig(Run(events, Fifo));
  }

  lemma FreeAndBig(s: System)
    requires s.tcp == Idle && !s.slot.isSending
    ensures CanLook(Waking(s, None, false))
  {
  }

  // ---- The stranded token ----

  /** The thread will report the token in the slot. */
  predicate WillReport(s: System) {
    if s.tcp == Idle then s.slot.isSending && s.slot.big else s.tcp.big
  }

  /** The token is in the slot, and the thread passes it by. */
  predicate Stranded(w: Waking, id: nat) {
    w.seen == None && w.s.slot.token == Some(id) && !WillReport(w.s)
  }

  /** The token is allocated and unreported, and neither its source, the queue nor a handler has it. */
  predicate Nowhere(s: System, id: nat) {
    id in s.live && id < s.nextId && id !in s.freed && id !in s.held &&
    Refs(s.bus.queue, id) == 0 && !DeliverOwns(s.deliver, id) &&
    History(s.completed, id) == [] && History(s.returned, id) == []
  }

  /** The thread passes the token by, even if the slot still points to it. */
  predicate PassedBy(w: Waking, id: nat) {
    (w.s.slot.token == Some(id) ==> !WillReport(w.s)) &&
    (w.s.tcp != Idle ==> w.s.slot.isSending) &&
    (w.s.tcp.Busy? && !w.reached ==> w.s.tcp.big == w.s.slot.big)
  }

  predicate Lost(w: Waking, id: nat) {
    w.seen == None && Nowhere(w.s, id) && PassedBy(w, id)
  }

  /** In a run in which nothing has gone wrong no token is stranded. */
  lemma NoneStranded(w: Waking, id: nat)
    requires Inv(w.s, -1) && SeenRight(w)
    ensures !Stranded(w, id)
  {
    hide QueueRouted;
  }

  lemma OvertakenIsLost(w: Waking, id: nat)
    requires Inv(w.s, -1) && SeenRight(w) && Overtaken(w) && w.s.slot.token == Some(id)
    ensures Lost(GoOnStep(w, true), id) && Stranded(GoOnStep(w, true), id)
  {
    hide QueueRouted;
    assert Accounted(w.s, id, -1);
    hide Refs;
  }

  /** Otherwise nothing is stranded. */
  lemma NotStrandedOtherwise(es: seq<WakeEvent>, e: WakeEvent, mode: Mode, id: nat)
    requires AllAdmissible(es + [e]) && AllAdmissible(es) && Sound(es, mode)
    requires !(e == GoOn(true) && Overtaken(WakeRun(es, mode)))
    ensures !Stranded(WakeRun(es + [e], mode), id)
  {
    assert (es + [e])[..|es|] == es;
    hide WakeRunStep, Inv, Overtaken, Stranded, SeenRight;
    if Breaks(WakeRun(es, mode), e) {
      LookStrandsNone(WakeRun(es, mode), mode, id);
    } else {
      SoundMeans(es + [e], mode);
      NoneStranded(WakeRun(es + [e], mode), id);
    }
  }

  lemma GoingOnStrands(w: Waking)
    requires Inv(w.s, -1) && SeenRight(w) && Overtaken(w)
    ensures exists id: nat :: Stranded(GoOnStep(w, true), id)
    ensures forall id: nat :: Stranded(GoOnStep(w, true), id) ==>
      w.s.slot.token == Some(id) && Lost(GoOnStep(w, true), id)
  {
    hide Inv, SeenRight, Overtaken, Lost, WillReport;
    OvertakenHasToken(w);
    var only: nat := w.s.slot.token.value;
    OvertakenIsLost(w, only);
    forall id: nat | Stranded(GoOnStep(w, true), id) ensures id == only {
      GoOnKeepsToken(w);
    }
  }

  lemma WakeRunNext(es: seq<WakeEvent>, e: WakeEvent, mode: Mode)
    ensures WakeRun(es + [e], mode) == WakeRunStep(WakeRun(es, mode), e, mode)
    ensures e == GoOn(true) ==> WakeRun(es + [e], mode) == GoOnStep(WakeRun(es, mode), true)
  {
    hide Step;
    assert (es + [e])[..|es|] == es;
  }

  /**
   Exactly when a token is stranded for the first time: when the thread goes on, over a new connection, with what it saw
   before the token was accepted. The token stranded is the one accepted, and it is lost.
   */
  lemma StrandedIff(es: seq<WakeEvent>, e: WakeEvent, mode: Mode)
    requires AllAdmissible(es + [e]) && Sound(es, mode)
    ensures var w, r := WakeRun(es, mode), WakeRun(es + [e], mode);
      (exists id: nat :: Stranded(r, id)) <==> (e == GoOn(true) && Overtaken(w))
    ensures var w, r := WakeRun(es, mode), WakeRun(es + [e], mode);
      forall id: nat :: Stranded(r, id) ==> w.s.slot.token == Some(id) && Lost(r, id)
  {
    hide *;
    AdmissiblePrefix(es, e);
    var w, r := WakeRun(es, mode), WakeRun(es + [e], mode);
    if e == GoOn(true) && Overtaken(w) {
      SoundMeans(es, mode);
      WakeRunNext(es, e, mode);
      GoingOnStrands(w);
    } else {
      forall id: nat ensures !Stranded(r, id) {
        NotStrandedOtherwise(es, e, mode, id);
      }
    }
  }

  lemma AdmissiblePrefix(es: seq<WakeEvent>, e: WakeEvent)
    requires AllAdmissible(es + [e])
    ensures AllAdmissible(es)
  {
    forall x | x in es && x.Ordinary? ensures Admissible(x.e) {
      assert x in es + [e];
    }
  }

  lemma GoOnKeepsToken(w: Waking)
    ensures GoOnStep(w, true).s.slot == w.s.slot
  {
  }

  lemma OvertakenHasToken(w: Waking)
    requires Inv(w.s, -1) && SeenRight(w) && Overtaken(w)
    ensures w.s.slot.token.Some?
  {
    hide QueueRouted;
  }

  lemma LookStrandsNone(w: Waking, mode: Mode, id: nat)
    requires ValidBus(w.s.bus) && CanLook(w)
    ensures !Stranded(WakeRunStep(w, Look, mode), id)
  {
  }

  // ---- Lost for good ----

  /** Nothing about token `id` has changed, and it has not been handed to anybody. */
  predicate Untouched(s: System, r: System, id: nat) {
    (id in s.live ==> id in r.live) && s.nextId <= r.nextId &&
    (id !in s.freed ==> id !in r.freed) && (id !in s.held && id < s.nextId ==> id !in r.held) &&
    (Refs(s.bus.queue, id) == 0 && !DeliverOwns(s.deliver, id) ==>
       Refs(r.bus.queue, id) == 0 && !DeliverOwns(r.deliver, id)) &&
    History(r.completed, id) == History(s.completed, id) && History(r.returned, id) == History(s.returned, id)
  }

  lemma SendOther(s: System, m: Msg, mode: Mode, id: nat)
    requires ValidBus(s.bus) && m.data != Token(id)
    ensures Refs(Send(s.bus, m, mode).queue, id) == Refs(s.bus.queue, id)
  {
    hide Refs;
    if !Full(s) {
      RefsInsert(s.bus.queue, Prepared(s.bus, m), mode, id);
    }
  }

  lemma DispatchOther(s: System, src: Module, dst: Module, x: nat, mode: Mode, id: nat)
    requires ValidBus(s.bus) && x != id
    ensures var r := Dispatch(s, src, dst, x, mode);
      Untouched(s, r, id) && r.deliver == s.deliver &&
      Refs(r.bus.queue, id) == Refs(s.bus.queue, id)
  {
    if !Full(s) {
      SendOther(s, TokenMsg(s, src, dst, x), mode, id);
    }
    hide Send, Refs;
  }

  /** A handler of the sources frees another token, dispatches it, or does nothing. */
  lemma FreeOther(s: System, m: Msg, x: nat, status: Status, id: nat)
    requires x != id && s.deliver == Handling(m)
    ensures var returned := Noted(s.returned, x, status);
      Untouched(s, Free(s, x).(returned := returned, deliver := Releasing(m.(data := Null))), id)
    ensures Untouched(s, s.(deliver := Releasing(m)), id)
  {
    hide Refs;
  }

  lemma SourceHandleOther(s: System, m: Msg, x: nat, mode: Mode, id: nat)
    requires ValidBus(s.bus) && x != id && s.deliver == Handling(m)
    ensures Untouched(s, SourceHandle(s, m, x, mode), id)
  {
    DispatchOther(s, m.dst, TcpSendModule, x, mode, id);
    FreeOther(s, m, x, if x in s.live then s.live[x].status else Done, id);
    Releases(s, Dispatch(s, m.dst, TcpSendModule, x, mode), m, id);
    hide Dispatch, Free, Noted, Untouched;
    if x !in s.live {
      Faults(s, m, id);
    }
  }

  lemma Faults(s: System, m: Msg, id: nat)
    requires s.deliver == Handling(m)
    ensures Untouched(s, s.(fault := true, deliver := Releasing(m)), id)
  {
    hide Refs;
  }

  lemma Releases(s: System, r: System, m: Msg, id: nat)
    requires Untouched(s, r, id) && r.deliver == s.deliver
    ensures Untouched(s, r.(deliver := Releasing(m)), id)
  {
    hide Refs;
  }

  lemma TcpHandleOther(s: System, m: Msg, x: nat, id: nat)
    requires x != id && s.deliver == Handling(m) && m.data == Token(x)
    ensures Untouched(s, TcpHandle(s, m, x), id)
    ensures var r := TcpHandle(s, m, x); r.slot == s.slot || (!s.slot.isSending && r.slot.token == Some(x))
  {
    hide Refs;
  }

  lemma HandleOther(s: System, m: Msg, mode: Mode, id: nat)
    requires ValidBus(s.bus) && s.deliver == Handling(m) && m.data != Token(id)
    ensures var r := Handle(s, m, mode);
      Untouched(s, r, id) && r.tcp == s.tcp &&
      (r.slot == s.slot || (!s.slot.isSending && (r.slot.token != Some(id) || !r.slot.big)))
  {
    hide SourceHandle, TcpHandle, IsSource, Refs;
    if m.data.Token? {
      SourceHandleOther(s, m, m.data.id, mode, id);
      SourceHandleFills(s, m, m.data.id, mode);
      TcpHandleOther(s, m, m.data.id, id);
      TcpHandleFills(s, m, m.data.id);
    }
  }

  lemma DeliverOther(s: System, mode: Mode, id: nat)
    requires ValidBus(s.bus) && Nowhere(s, id)
    ensures var r := DeliverNext(s, mode);
      Untouched(s, r, id) && r.tcp == s.tcp &&
      (r.slot == s.slot || (!s.slot.isSending && (r.slot.token != Some(id) || !r.slot.big)))
  {
    hide Handle, Dispatch, Refs;
    match s.deliver
    case Waiting =>
      if s.bus.queue != [] {
        NoRefs(s.bus.queue, id);
        RefsFront(s.bus.queue, id);
      }
    case Handling(m) => HandleOther(s, m, mode, id);
    case Resending(m) =>
      if m.data.Token? {
        var sent := Dispatch(s, TcpSendModule, m.src, m.data.id, mode);
        DispatchOther(s, TcpSendModule, m.src, m.data.id, mode, id);
        DispatchOnlyQueues(s, TcpSendModule, m.src, m.data.id, mode);
      }
    case Releasing(_) =>
  }

  lemma FirstSendOther(s: System, x: nat, mode: Mode, id: nat)
    requires ValidBus(s.bus) && Nowhere(s, id)
    ensures Untouched(s, FirstSendStep(s, x, mode), id)
  {
    if x in s.held && x in s.live {
      DispatchOther(s, s.live[x].source, TcpSendModule, x, mode, id);
      DispatchOnlyQueues(s, s.live[x].source, TcpSendModule, x, mode);
    }
    hide Dispatch, Refs;
  }

  /** The report writes the status of another token. */
  lemma MarkOther(s: System, x: nat, status: Status, id: nat)
    requires x != id
    ensures var marked := SetStatus(s, x, status).(completed := Noted(s.completed, x, status));
      Untouched(s, marked, id) && marked.slot == s.slot && marked.bus == s.bus && marked.deliver == s.deliver
  {
    hide Refs;
  }

  lemma UntouchedTwice(a: System, b: System, c: System, id: nat)
    requires Untouched(a, b, id) && Untouched(b, c, id)
    ensures Untouched(a, c, id)
  {
    hide Refs;
  }

  lemma UntouchedThread(a: System, b: System, tcp: Sending, id: nat)
    requires Untouched(a, b, id)
    ensures Untouched(a, b.(tcp := tcp), id) && Untouched(a, b.(tcp := tcp, fault := true), id)
  {
    hide Refs;
  }

  lemma ReportOther(s: System, mode: Mode, id: nat)
    requires ValidBus(s.bus) && (s.tcp.Reporting? && s.tcp.big ==> s.slot.token != Some(id))
    ensures var r := ReportStep(s, mode);
      Untouched(s, r, id) && r.slot == s.slot &&
      r.tcp == if s.tcp.Reporting? then Clearing(s.tcp.big) else s.tcp
  {
    assert Untouched(s, s, id);
    if s.tcp.Reporting? && s.tcp.big && s.slot.token.Some? {
      var x := s.slot.token.value;
      var status := if s.tcp.ok then Done else FileDeliverError;
      var marked := SetStatus(s, x, status).(completed := Noted(s.completed, x, status));
      var sent := Dispatch(marked, TcpSendModule, s.tcp.target, x, mode);
      MarkOther(s, x, status, id);
      DispatchOther(marked, TcpSendModule, s.tcp.target, x, mode, id);
      DispatchOnlyQueues(marked, TcpSendModule, s.tcp.target, x, mode);
      hide Dispatch, Untouched, SetStatus, Noted;
      UntouchedTwice(s, marked, sent, id);
      UntouchedThread(s, sent, Clearing(true), id);
    } else {
      hide Untouched;
      UntouchedThread(s, s, Clearing(s.tcp.Reporting? && s.tcp.big), id);
    }
  }

  /** One step of whatever thread that is not a look. */
  lemma StepOther(w: Waking, e: Event, mode: Mode, id: nat)
    requires ValidBus(w.s.bus) && Lost(w, id) && Admissible(e) && Possible(w, e)
    ensures Untouched(w.s, Step(w.s, e, mode), id)
  {
    hide DeliverNext, FirstSendStep, ReportStep, Send, Refs;
    match e
    case DeliverStep => DeliverOther(w.s, mode, id);
    case FirstSend(x) => FirstSendOther(w.s, x, mode, id);
    case Report => ReportOther(w.s, mode, id);
    case Other(m) => SendOther(w.s, m, mode, id);
    case Create(_, _, _) =>
    case Wake =>
    case Transfer(_) =>
    case Clear =>
  }

  lemma StepPassesBy(w: Waking, e: Event, mode: Mode, id: nat)
    requires ValidBus(w.s.bus) && Lost(w, id) && Admissible(e) && Possible(w, e)
    ensures var s := Step(w.s, e, mode); PassedBy(Waking(s, None, w.reached && s.tcp != Idle), id)
  {
    hide DeliverNext, FirstSendStep, ReportStep, Send, Refs;
    match e
    case DeliverStep => DeliverOther(w.s, mode, id);
    case FirstSend(x) => FirstSendFills(w.s, x, mode);
    case Report => ReportOther(w.s, mode, id);
    case Other(_) =>
    case Create(_, _, _) =>
    case Wake =>
    case Transfer(_) =>
    case Clear =>
  }

  lemma StaysNowhere(s: System, r: System, id: nat)
    requires Nowhere(s, id) && Untouched(s, r, id)
    ensures Nowhere(r, id)
  {
    hide Refs;
  }

  lemma StepKeepsLost(w: Waking, e: WakeEvent, mode: Mode, id: nat)
    requires ValidBus(w.s.bus) && Lost(w, id) && e != Look && (e.Ordinary? ==> Admissible(e.e))
    ensures Lost(WakeRunStep(w, e, mode), id)
  {
    if e.Ordinary? && Possible(w, e.e) {
      StepOther(w, e.e, mode, id);
      StepPassesBy(w, e.e, mode, id);
      StaysNowhere(w.s, Step(w.s, e.e, mode), id);
    }
    hide Step, Nowhere, PassedBy, Untouched;
  }

  /**
   A stranded token is lost for good: in every continuation without another timed wake it stays allocated, is never
   reported and never comes back to its source.
   */
  lemma {:induction false} StrandedForGood(es: seq<WakeEvent>, e: WakeEvent, more: seq<WakeEvent>, mode: Mode, id: nat)
    requires AllAdmissible(es + [e]) && AllAdmissible(more) && Look !in more && Sound(es, mode)
    requires Stranded(WakeRun(es + [e], mode), id)
    ensures var r := WakeRun(es + [e] + more, mode);
      Lost(r, id) && id in r.s.live && id !in r.s.freed && History(r.s.completed, id) == [] &&
      One(id in r.s.held) + Refs(r.s.bus.queue, id) + One(DeliverOwns(r.s.deliver, id)) == 0
    decreases |more|
  {
    hide WakeRunStep, Stranded, PassedBy;
    if more == [] {
      assert es + [e] + more == es + [e];
      StrandedIff(es, e, mode);
    } else {
      var k := |more| - 1;
      assert (es + [e] + more)[..|es + [e]| + k] == es + [e] + more[..k];
      StrandedForGood(es, e, more[..k], mode, id);
      StepKeepsLost(WakeRun(es + [e] + more[..k], mode), more[k], mode, id);
    }
  }

  // ---- It happens ----

  /** A response that the delivering thread has just taken from the queue. */
  lemma FirstTokenTaken()
    ensures var sent := Step(Step(Initial(), Create(CommandModule, 1, true), Fifo), FirstSend(0), Fifo);
      var s := Step(sent, DeliverStep, Fifo);
      Step(s, DeliverStep, Fifo).slot == Slot(true, true, Some(0), CommandModule) &&
      s.tcp == Idle && Step(s, DeliverStep, Fifo).tcp == Idle && s.slot == Initial().slot
  {
    hide LogCopy;
    var s := Step(Initial(), Create(CommandModule, 1, true), Fifo);
    var m := TokenMsg(s, CommandModule, TcpSendModule, 0);
    assert Step(s, FirstSend(0), Fifo).bus.queue == [m];
  }

  lemma AcceptedMeanwhile(w: Waking)
    requires ValidBus(w.s.bus) && w.seen == None && w.s.tcp == Idle && !w.s.slot.isSending && !w.s.slot.big
    requires var r := Step(w.s, DeliverStep, Fifo); r.slot.isSending && r.slot.big
    ensures !Breaks(w, Look)
    ensures var looked := WakeRunStep(w, Look, Fifo);
      !Breaks(looked, Ordinary(DeliverStep)) && Overtaken(WakeRunStep(looked, Ordinary(DeliverStep), Fifo))
  {
    hide Step;
  }

  /** A token is accepted while the thread, woken by timeout, reconnects: it is stranded. */
  lemma TokensAreStranded() returns (es: seq<WakeEvent>)
    ensures AllAdmissible(es) && Sound(es, Fifo) && Overtaken(WakeRun(es, Fifo))
  {
    var first, second := [Create(CommandModule, 1, true)], [Create(CommandModule, 1, true)] + [FirstSend(0)];
    var events := second + [DeliverStep];
    assert Run([], Fifo) == Initial() && [] + first == first;
    FirstTokenTaken();
    RunOfPrefix([], Create(CommandModule, 1, true), Fifo);
    RunOfPrefix(first, FirstSend(0), Fifo);
    RunOfPrefix(second, DeliverStep, Fifo);
    assert !Initial().slot.isSending && !Initial().slot.big;
    hide Run, Step, Initial;
    OrdinaryRunIsSound(events, Fifo);
    var start := Lifted(events);
    var looked := start + [Look];
    es := looked + [Ordinary(DeliverStep)];
    WakeRunNext(start, Look, Fifo);
    WakeRunNext(looked, Ordinary(DeliverStep), Fifo);
    AcceptedMeanwhile(WakeRun(start, Fifo));
    assert looked[..|start|] == start && es[..|looked|] == looked;
    hide WakeRun, WakeRunStep, Breaks, Overtaken;
    assert Sound(looked, Fifo);
  }
}
