/** What the capturing thread sends: every image it publishes is offered to each of its receivers, once and in order. */
module CameraOffers {
  import opened MsgQueue
  import opened Camera

  /** A message about a buffer that is given to the queue, which may refuse it. */
  datatype Offer = Offer(dst: Module, buffer: int)

  predicate Offers(s: System, e: Event) {
    e.Camera? && s.pc.Dispatch?
  }

  predicate Publishes(s: System, e: Event)
    requires WellFormed(s)
  {
    s.pc == Capture && Step(s, e).pc != Capture
  }

  /** The offers made so far, the buffers published so far, and for which of them an alarm image was found to be due. */
  datatype Record = Record(offers: seq<Offer>, published: seq<int>, due: seq<bool>)

  function After(r: Record, s: System, e: Event): Record
    requires WellFormed(s)
  {
    if Offers(s, e) then r.(offers := r.offers + [Offer(s.pc.dst, s.buffers.latest)])
    else if Publishes(s, e) then r.(published := r.published + [Step(s, e).buffers.latest])
    else if e.Camera? && s.pc == AlarmDue then r.(due := r.due + [e.alarmDue])
    else r
  }

  function Recorded(events: seq<Event>): Record {
    if events == [] then Record([], [], [])
    else
      var k := |events| - 1;
      After(Recorded(events[..k]), Run(events[..k]), events[k])
  }

  function OffersOf(buffer: int, alarm: bool): seq<Offer> {
    [Offer(UdpModule, buffer)] + [Offer(StorageModule, buffer)] + if alarm then [Offer(AlarmModule, buffer)] else []
  }

  function OffersOfAll(published: seq<int>, due: seq<bool>): seq<Offer>
    requires |published| == |due|
  {
    if published == [] then []
    else
      var k := |published| - 1;
      OffersOfAll(published[..k], due[..k]) + OffersOf(published[k], due[k])
  }

  lemma OneMore(published: seq<int>, due: seq<bool>, buffer: int, alarm: bool)
    requires |published| == |due|
    ensures OffersOfAll(published + [buffer], due + [alarm]) == OffersOfAll(published, due) + OffersOf(buffer, alarm)
  {
    assert (published + [buffer])[..|published|] == published && (due + [alarm])[..|due|] == due;
  }

  /** The part of the record that belongs to the image the thread is busy with. */
  ghost predicate Follows(r: Record, s: System) {
    var n := |r.published|;
    match s.pc
    case Capture => n == |r.due| && r.offers == OffersOfAll(r.published, r.due)
    case _ => n > 0 && r.published[n - 1] == s.buffers.latest && Within(r, s.pc, r.published[..n - 1], s.buffers.latest)
  }

  ghost predicate Within(r: Record, pc: Pc, before: seq<int>, buffer: int) {
    var udp, storage := [Offer(UdpModule, buffer)], [Offer(StorageModule, buffer)];
    match pc
    case Capture => false
    case FirstReference => |before| == |r.due| && r.offers == OffersOfAll(before, r.due)
    case SecondReference => |before| == |r.due| && r.offers == OffersOfAll(before, r.due)
    case AlarmDue => |before| == |r.due| && r.offers == OffersOfAll(before, r.due) + (udp + storage)
    case AlarmReference => BeforeAlarm(r, before, udp + storage)
    case Dispatch(dst) =>
      if dst == AlarmModule then BeforeAlarm(r, before, udp + storage)
      else
        |before| == |r.due| && (dst == UdpModule || dst == StorageModule) &&
        r.offers == OffersOfAll(before, r.due) + if dst == UdpModule then [] else udp
    case Refused(dst) =>
      if dst == AlarmModule then |r.published| == |r.due| && r.offers == OffersOfAll(r.published, r.due)
      else
        |before| == |r.due| && (dst == UdpModule || dst == StorageModule) &&
        r.offers == OffersOfAll(before, r.due) + if dst == UdpModule then udp else udp + storage
  }

  ghost predicate BeforeAlarm(r: Record, before: seq<int>, offered: seq<Offer>) {
    var k := |before|;
    |r.due| == k + 1 && r.due[k] && r.offers == OffersOfAll(before, r.due[..k]) + offered
  }

  lemma OffersConcat(before: seq<Offer>, buffer: int)
    ensures before + OffersOf(buffer, false) == before + ([Offer(UdpModule, buffer)] + [Offer(StorageModule, buffer)])
    ensures before + OffersOf(buffer, true) ==
      before + ([Offer(UdpModule, buffer)] + [Offer(StorageModule, buffer)]) + [Offer(AlarmModule, buffer)]
    ensures before + [Offer(UdpModule, buffer)] + [Offer(StorageModule, buffer)] ==
      before + ([Offer(UdpModule, buffer)] + [Offer(StorageModule, buffer)])
  {
  }

  lemma OthersLeaveCamera(s: System, e: Event)
    requires WellFormed(s) && !e.Camera?
    ensures Step(s, e).pc == s.pc && Step(s, e).buffers.latest == s.buffers.latest
  {
    hide Send;
  }

  lemma DueFollows(r: Record, s: System, alarmDue: bool)
    requires WellFormed(s) && Follows(r, s) && s.pc == AlarmDue
    ensures Follows(After(r, s, Camera(alarmDue)), Step(s, Camera(alarmDue)))
  {
    hide OffersOfAll, OffersOf, Send;
    var n, buffer := |r.published|, s.buffers.latest;
    var before := r.published[..n - 1];
    assert r.published == before + [buffer];
    OneMore(before, r.due, buffer, alarmDue);
    OffersConcat(OffersOfAll(before, r.due), buffer);
    assert (r.due + [alarmDue])[..n - 1] == r.due;
  }

  lemma DispatchFollows(r: Record, s: System, alarmDue: bool)
    requires WellFormed(s) && Follows(r, s) && s.pc.Dispatch?
    ensures Follows(After(r, s, Camera(alarmDue)), Step(s, Camera(alarmDue)))
  {
    hide OffersOfAll, OffersOf, Send;
    var n, buffer := |r.published|, s.buffers.latest;
    var before := r.published[..n - 1];
    assert r.published == before + [buffer];
    if s.pc.dst == AlarmModule {
      assert r.due == r.due[..n - 1] + [true];
      OneMore(before, r.due[..n - 1], buffer, true);
      OffersConcat(OffersOfAll(before, r.due[..n - 1]), buffer);
    } else {
      OffersConcat(OffersOfAll(before, r.due), buffer);
    }
  }

  lemma CameraFollows(r: Record, s: System, alarmDue: bool)
    requires WellFormed(s) && Follows(r, s)
    ensures Follows(After(r, s, Camera(alarmDue)), Step(s, Camera(alarmDue)))
  {
    hide *;
    if s.pc == AlarmDue {
      DueFollows(r, s, alarmDue);
    } else if s.pc.Dispatch? {
      DispatchFollows(r, s, alarmDue);
    } else {
      OtherFollows(r, s, alarmDue);
    }
  }

  lemma OtherFollows(r: Record, s: System, alarmDue: bool)
    requires WellFormed(s) && Follows(r, s) && s.pc != AlarmDue && !s.pc.Dispatch?
    ensures Follows(After(r, s, Camera(alarmDue)), Step(s, Camera(alarmDue)))
  {
    hide OffersOfAll, OffersOf, Send;
    if s.pc == Capture {
      assert (r.published + [s.writeIndex])[..|r.published|] == r.published;
    }
  }

  lemma {:induction false} AlwaysFollows(events: seq<Event>)
    ensures Follows(Recorded(events), Run(events))
  {
    hide Step, Follows, Run;
    if events == [] {
      StartFollows();
    } else {
      var k := |events| - 1;
      AlwaysFollows(events[..k]);
      StepFollows(Recorded(events[..k]), Run(events[..k]), events[k]);
      LastStep(events);
    }
  }

  lemma LastStep(events: seq<Event>)
    requires events != []
    ensures Run(events) == Step(Run(events[..|events| - 1]), events[|events| - 1])
  {
    hide Step;
  }

  lemma StartFollows()
    ensures Follows(Recorded([]), Run([]))
  {
  }

  lemma StepFollows(r: Record, s: System, e: Event)
    requires WellFormed(s) && Follows(r, s)
    ensures Follows(After(r, s, e), Step(s, e))
  {
    if e.Camera? {
      hide *;
      CameraFollows(r, s, e.alarmDue);
    } else {
      OthersLeaveCamera(s, e);
      hide Step, Within;
    }
  }

  /**
   In every run, whenever the capturing thread is back at the camera: every image published has been offered to the UDP
   sender, to the storage and, exactly if an alarm image was due, to the alarm module, in this order, and nothing else
   has been offered.
   */
  lemma EveryImageIsOffered(events: seq<Event>)
    requires Run(events).pc == Capture
    ensures var r := Recorded(events);
      |r.published| == |r.due| && r.offers == OffersOfAll(r.published, r.due)
  {
    hide Run, Recorded, OffersOfAll;
    AlwaysFollows(events);
  }

  /**
   An offer puts a message about the image behind all others, or, when the queue is full, is released by the thread
   itself in its next step.
   */
  lemma OfferIsQueuedOrReleased(events: seq<Event>, a: bool, b: bool)
    requires forall e | e in events :: Admissible(e)
    requires Run(events).pc.Dispatch?
    ensures var s, r := Run(events), CameraStep(Run(events), a);
      0 <= s.buffers.latest < 2 &&
      if |s.bus.queue| < 32 then
        r.buffers == s.buffers &&
        r.bus.queue == s.bus.queue + [Msg(V4l2Module, s.pc.dst, 32, ImageMsg, 1, CameraBuffer(s.buffers.latest))]
      else
        var i := s.buffers.latest;
        r.bus == s.bus && r.buffers == s.buffers && CameraStep(r, b).bus == s.bus &&
        CameraStep(r, b).buffers.counter == s.buffers.counter[i := s.buffers.counter[i] - 1]
  {
    var s := Run(events);
    RunKeepsInv(events);
    hide Run, Outstanding;
    if |s.bus.queue| < 32 {
      InsertFifo(s.bus.queue, ImageOf(s, s.pc.dst));
    }
  }
}
