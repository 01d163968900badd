/** The Python UDP receiver: it keeps only the newest frame and completes it between two drains of the socket. */
module PyReceiver {
  import opened Bytes
  import opened Frame
  import opened Packets
  import opened UdpReceiver

  const IMAGE: u32 := 1

  datatype PyFrame = PyFrame(kind: u32, pkgs: seq<Option<seq<byte>>>)

  datatype Completed = Completed(frameId: u32, data: seq<byte>)

  /** The frame dictionary, the newest frame id seen (-1 at the start), and the images shown so far. */
  datatype Py = Py(frames: map<u32, PyFrame>, maxId: int, done: seq<Completed>)

  const START := Py(map[], -1, [])

  /** The slice takes what is there: a short datagram yields a short payload. */
  function PayloadOf(raw: seq<byte>, h: Header): seq<byte>
    requires |raw| >= HEADER_SIZE
  {
    if |raw| < HEADER_SIZE + h.dataLen then raw[HEADER_SIZE..] else raw[HEADER_SIZE..HEADER_SIZE + h.dataLen]
  }

  /** A frame id above the newest one replaces everything collected. */
  function Advance(py: Py, h: Header): Py {
    if h.frameId > py.maxId then
      py.(maxId := h.frameId, frames := map[h.frameId := PyFrame(h.kind, seq(h.pkgCnt, _ => None))])
    else
      py
  }

  /** An index beyond the list raises an exception, which leaves the dictionary as it is. */
  function Store(py: Py, h: Header, payload: seq<byte>): Py {
    if h.pkgId < h.pkgCnt && h.frameId in py.frames && h.pkgId < |py.frames[h.frameId].pkgs| then
      var f := py.frames[h.frameId];
      py.(frames := py.frames[h.frameId := f.(pkgs := f.pkgs[h.pkgId := Some(payload)])])
    else
      py
  }

  function OnDatagram(py: Py, raw: seq<byte>): Py {
    if |raw| < HEADER_SIZE || !ValidHeader(raw) then py
    else
      var h := Decode(raw);
      if h.frameId < py.maxId then py else Store(Advance(py, h), h, PayloadOf(raw, h))
  }

  predicate AllArrived(pkgs: seq<Option<seq<byte>>>) {
    forall p | p in pkgs :: p.Some?
  }

  function JoinPkgs(pkgs: seq<Option<seq<byte>>>): seq<byte>
    requires AllArrived(pkgs)
  {
    if pkgs == [] then [] else JoinPkgs(pkgs[..|pkgs| - 1]) + pkgs[|pkgs| - 1].value
  }

  /** What becomes of a joined image: it is shown, it does not decode, or an exception is raised on the way. */
  datatype Handling = Shown | Undecodable | Raised

  /** What happens once the socket is drained. An exception while the image is handled leaves the frame as it is. */
  function OnDrained(py: Py, handling: Handling): Py {
    if py.maxId >= 0 && py.maxId < 0x1_0000_0000 && py.maxId in py.frames && AllArrived(py.frames[py.maxId].pkgs) then
      var f := py.frames[py.maxId];
      if f.kind == IMAGE && handling == Raised then py
      else
        var joined := Completed(py.maxId, JoinPkgs(f.pkgs));
        py.(frames := map[], done := if f.kind == IMAGE && handling == Shown then py.done + [joined] else py.done)
    else
      py
  }

  datatype Event = Datagram(raw: seq<byte>) | Drained(handling: Handling)

  function Step(py: Py, e: Event): Py {
    match e
    case Datagram(raw) => OnDatagram(py, raw)
    case Drained(handling) => OnDrained(py, handling)
  }

  function Run(events: seq<Event>): Py {
    if events == [] then START else Step(Run(events[..|events| - 1]), events[|events| - 1])
  }

  /** The receiver's loop state, updated in place. */
  class Receiver {
    var frameBuffer: map<u32, PyFrame>
    var maxId: int
    var done: seq<Completed>

    function State(): Py
      reads this
    {
      Py(frameBuffer, maxId, done)
    }

    constructor ()
      ensures State() == START
    {
      frameBuffer := map[];
      maxId := -1;
      done := [];
    }

    method HandleDatagram(raw: seq<byte>)
      modifies this
      ensures State() == OnDatagram(old(State()), raw)
    {
      hide ValidHeader, Decode;
      if |raw| < HEADER_SIZE {
        return;
      }
      var valid := ValidateFrameHeader(raw);
      if !valid {
        return;
      }
      var h := Decode(raw);
      if h.frameId < maxId {
        return;
      }
      if h.frameId > maxId {
        maxId := h.frameId;
        frameBuffer := map[h.frameId := PyFrame(h.kind, seq(h.pkgCnt, _ => None))];
      }
      if h.pkgId < h.pkgCnt && h.frameId in frameBuffer && h.pkgId < |frameBuffer[h.frameId].pkgs| {
        var f := frameBuffer[h.frameId];
        frameBuffer := frameBuffer[h.frameId := f.(pkgs := f.pkgs[h.pkgId := Some(PayloadOf(raw, h))])];
      }
    }

    method HandleDrained(handling: Handling)
      modifies this
      ensures State() == OnDrained(old(State()), handling)
    {
      if !(0 <= maxId < 0x1_0000_0000 && maxId in frameBuffer) {
        return;
      }
      var f := frameBuffer[maxId];
      var joined: seq<byte> := [];
      for i := 0 to |f.pkgs|
        invariant AllArrived(f.pkgs[..i])
        invariant joined == JoinPkgs(f.pkgs[..i])
      {
        if f.pkgs[i].None? {
          assert f.pkgs[i] in f.pkgs;
          return;
        }
        assert f.pkgs[..i + 1][..i] == f.pkgs[..i];
        joined := joined + f.pkgs[i].value;
      }
      assert f.pkgs[..|f.pkgs|] == f.pkgs;
      if f.kind == IMAGE {
        if handling == Raised {
          return;
        }
        if handling == Shown {
          done := done + [Completed(maxId, joined)];
        }
      }
      frameBuffer := map[];
    }
  }

  // ---- Safety ----

  ghost predicate Collected(b: Blob, f: PyFrame)
    requires Sendable(b)
  {
    f.kind == b.kind && |f.pkgs| == TotalPackets(|b.data|) &&
    forall i: u16 | i < |f.pkgs| && f.pkgs[i].Some? :: i * CHUNK <= |b.data| && f.pkgs[i].value == Chunk(b.data, i)
  }

  ghost predicate StrictlyIncreasing(done: seq<Completed>) {
    forall i, j | 0 <= i < j < |done| :: done[i].frameId < done[j].frameId
  }

  ghost predicate PySafe(sent: Sent, py: Py)
    requires HonestSender(sent)
  {
    (forall id | id in py.frames :: id == py.maxId && id in sent && Collected(sent[id], py.frames[id])) &&
    (forall c | c in py.done :: c.frameId in sent && c.data == sent[c.frameId].data && c.frameId <= py.maxId) &&
    (py.frames != map[] ==> forall c | c in py.done :: c.frameId < py.maxId) &&
    StrictlyIncreasing(py.done)
  }

  lemma {:induction false} JoinPkgsIsJoined(b: Blob, pkgs: seq<Option<seq<byte>>>, n: nat)
    requires 0 < |b.data| <= MAX_BLOB
    requires n <= |pkgs| == TotalPackets(|b.data|) && AllArrived(pkgs) && Collected(b, PyFrame(b.kind, pkgs))
    requires n == 0 || (n - 1) * CHUNK <= |b.data|
    ensures JoinPkgs(pkgs[..n]) == Joined(b.data, n)
  {
    hide Chunk;
    if n > 0 {
      assert pkgs[..n][..n - 1] == pkgs[..n - 1];
      JoinPkgsIsJoined(b, pkgs, n - 1);
      assert pkgs[n - 1] in pkgs;
    }
  }

  lemma CollectedIsBlob(b: Blob, f: PyFrame)
    requires 0 < |b.data| <= MAX_BLOB && Collected(b, f) && AllArrived(f.pkgs)
    ensures JoinPkgs(f.pkgs) == b.data
  {
    hide Chunk;
    SplitJoin(b);
    JoinPkgsIsJoined(b, f.pkgs, |f.pkgs|);
    assert f.pkgs[..|f.pkgs|] == f.pkgs;
  }

  lemma StoreKeepsSafe(sent: Sent, py: Py, id: u32, i: u16)
    requires HonestSender(sent) && PySafe(sent, py) && id == py.maxId
    requires id in sent && i < TotalPackets(|sent[id].data|)
    ensures var p := PacketAt(sent[id], id, i); PySafe(sent, Store(py, p.header, p.payload))
  {
    hide Chunk;
    PacketsWithinBlob(|sent[id].data|, i);
  }

  lemma AdvanceKeepsSafe(sent: Sent, py: Py, id: u32, i: u16)
    requires HonestSender(sent) && PySafe(sent, py) && id >= py.maxId
    requires id in sent && i < TotalPackets(|sent[id].data|)
    ensures var r := Advance(py, PacketAt(sent[id], id, i).header); PySafe(sent, r) && r.maxId == id
  {
    hide Chunk;
  }

  lemma DatagramKeepsSafe(sent: Sent, py: Py, raw: seq<byte>, id: u32, i: u16)
    requires HonestSender(sent) && PySafe(sent, py) && IsPacket(sent, raw, id, i)
    ensures PySafe(sent, OnDatagram(py, raw))
  {
    hide ValidHeader, Decode, PacketBytes, Advance, Store, PySafe;
    ReceivedPacket(sent, raw, id, i);
    if id >= py.maxId {
      var p := PacketAt(sent[id], id, i);
      AdvanceKeepsSafe(sent, py, id, i);
      StoreKeepsSafe(sent, Advance(py, p.header), id, i);
    }
  }

  lemma DrainedKeepsSafe(sent: Sent, py: Py, handling: Handling)
    requires HonestSender(sent) && PySafe(sent, py)
    ensures PySafe(sent, OnDrained(py, handling))
  {
    if OnDrained(py, handling) != py {
      hide JoinPkgs, Collected;
      CollectedIsBlob(sent[py.maxId], py.frames[py.maxId]);
    }
  }

  /** A datagram the Python receiver takes notice of is a packet of the sender. */
  ghost predicate OnPyNetwork(sent: Sent, e: Event)
    requires HonestSender(sent)
  {
    e.Datagram? && |e.raw| >= HEADER_SIZE && ValidHeader(e.raw) ==>
      exists id: u32, i: u16 :: IsPacket(sent, e.raw, id, i)
  }

  /**
   For any arrival order and any drain boundaries: every completed image is one of the blobs sent, and the
   completed frame ids strictly increase, so no frame is completed twice.
   */
  lemma {:induction false} PySafety(sent: Sent, events: seq<Event>)
    requires HonestSender(sent)
    requires forall e | e in events :: OnPyNetwork(sent, e)
    ensures PySafe(sent, Run(events))
  {
    hide PySafe, OnDrained, ValidHeader, Decode, Store, Advance, PacketBytes, IsPacket;
    if events == [] {
      StartIsSafe(sent);
    } else {
      var k := |events| - 1;
      var e := events[k];
      var py := Run(events[..k]);
      PySafety(sent, events[..k]);
      if e.Drained? {
        DrainedKeepsSafe(sent, py, e.handling);
      } else if |e.raw| >= HEADER_SIZE && ValidHeader(e.raw) {
        assert OnPyNetwork(sent, e);
        var id: u32, i: u16 :| IsPacket(sent, e.raw, id, i);
        DatagramKeepsSafe(sent, py, e.raw, id, i);
      }
    }
  }

  lemma StartIsSafe(sent: Sent)
    requires HonestSender(sent)
    ensures PySafe(sent, START)
  {
  }

  // ---- Exactly when an image is shown ----

  /** A datagram the receiver takes notice of. */
  predicate Taken(e: Event) {
    e.Datagram? && |e.raw| >= HEADER_SIZE && ValidHeader(e.raw)
  }

  predicate OfFrame(e: Event, id: u32) {
    Taken(e) && Decode(e.raw).frameId == id
  }

  ghost predicate PacketOfBlob(e: Event, b: Blob, id: u32)
    requires Sendable(b)
  {
    e.Datagram? && exists i: u16 :: i < TotalPackets(|b.data|) && e.raw == PacketBytes(PacketAt(b, id, i))
  }

  /** Whatever arrives under frame id `id` is a packet of `b`; all else is arbitrary. */
  ghost predicate OnlyPacketsOf(es: seq<Event>, b: Blob, id: u32)
    requires Sendable(b)
  {
    forall e | e in es && OfFrame(e, id) :: PacketOfBlob(e, b, id)
  }

  function ArrivalOf(e: Event, id: u32): set<u16> {
    if OfFrame(e, id) then {Decode(e.raw).pkgId} else {}
  }

  /** The packets of frame `id` among the first `k` events. */
  function Arrivals(es: seq<Event>, k: nat, id: u32): set<u16>
    requires k <= |es|
  {
    if k == 0 then {} else Arrivals(es, k - 1, id) + ArrivalOf(es[k - 1], id)
  }

  ghost predicate AllPacketsArrived(es: seq<Event>, k: nat, b: Blob, id: u32)
    requires k <= |es| && Sendable(b)
  {
    forall i: u16 | i < TotalPackets(|b.data|) :: i in Arrivals(es, k, id)
  }

  /** A datagram of a later frame is among the first `k` events. */
  ghost predicate Overtaken(es: seq<Event>, k: nat, id: u32)
    requires k <= |es|
  {
    exists j :: 0 <= j < k && Taken(es[j]) && Decode(es[j].raw).frameId > id
  }

  /** A drain that is the end of a whole frame: unless an exception is raised while an image is handled. */
  predicate Concludes(e: Event, b: Blob) {
    e.Drained? && (b.kind == IMAGE ==> e.handling != Raised)
  }

  /** The frame was whole at a drain among the first `k` events, and is done with. */
  ghost predicate Concluded(es: seq<Event>, k: nat, b: Blob, id: u32)
    requires k <= |es| && Sendable(b)
  {
    exists j :: 0 <= j < k && Concludes(es[j], b) && AllPacketsArrived(es, j, b, id)
  }

  /** The state after the first `k` events. */
  function At(es: seq<Event>, k: nat): Py
    requires k <= |es|
  {
    Run(es[..k])
  }

  lemma AtNext(es: seq<Event>, k: nat)
    requires k < |es|
    ensures At(es, k + 1) == Step(At(es, k), es[k])
  {
    hide Step;
    assert es[..k + 1][..k] == es[..k];
  }

  /** Of frame `id` the receiver holds exactly the packets `arrived`. */
  ghost predicate Holds(py: Py, b: Blob, id: u32, arrived: set<u16>)
    requires Sendable(b)
  {
    if arrived == {} then py.maxId < id
    else
      py.maxId == id && id in py.frames && Collected(b, py.frames[id]) &&
      forall i: u16 | i < TotalPackets(|b.data|) :: py.frames[id].pkgs[i].Some? <==> i in arrived
  }

  /** At most one image is added, and none of frame `id`. */
  predicate NoneOf(done: seq<Completed>, done': seq<Completed>, id: u32) {
    done' == done || (|done'| == |done| + 1 && done'[..|done|] == done && done'[|done|].frameId != id)
  }

  /** Event `k` is the first drain at which a whole image is shown. */
  ghost predicate DueAt(es: seq<Event>, k: nat, b: Blob, id: u32)
    requires k < |es| && Sendable(b)
  {
    es[k] == Drained(Shown) && b.kind == IMAGE && AllPacketsArrived(es, k, b, id) &&
    !Overtaken(es, k, id) && !Concluded(es, k, b, id)
  }

  /** Event `k` shows the image of frame `id` if that is due, and otherwise nothing of frame `id`. */
  ghost predicate ShownIff(es: seq<Event>, k: nat, b: Blob, id: u32)
    requires k < |es| && Sendable(b)
  {
    if DueAt(es, k, b, id) then At(es, k + 1).done == At(es, k).done + [Completed(id, b.data)]
    else NoneOf(At(es, k).done, At(es, k + 1).done, id)
  }

  /** What the receiver holds of frame `id` after the first `k` events. */
  ghost predicate Tracks(es: seq<Event>, k: nat, b: Blob, id: u32, py: Py)
    requires k <= |es| && Sendable(b)
  {
    if Overtaken(es, k, id) then py.maxId > id
    else if Concluded(es, k, b, id) then py.maxId == id && py.frames == map[]
    else Holds(py, b, id, Arrivals(es, k, id))
  }

  lemma OvertakenNext(es: seq<Event>, k: nat, id: u32)
    requires k < |es|
    ensures Overtaken(es, k + 1, id) <==> Overtaken(es, k, id) || (Taken(es[k]) && Decode(es[k].raw).frameId > id)
  {
    hide ValidHeader, Decode;
  }

  lemma ConcludedNext(es: seq<Event>, k: nat, b: Blob, id: u32)
    requires k < |es| && Sendable(b)
    ensures Concluded(es, k + 1, b, id) <==>
      Concluded(es, k, b, id) || (Concludes(es[k], b) && AllPacketsArrived(es, k, b, id))
  {
    hide Concludes, AllPacketsArrived;
  }

  /** A datagram that is none of frame `id`, nor of a later one. */
  lemma EarlierDatagram(py: Py, e: Event, id: u32)
    requires e.Datagram? && (Taken(e) ==> Decode(e.raw).frameId != id)
    ensures var r := Step(py, e);
      r.done == py.done &&
      if Taken(e) && Decode(e.raw).frameId > id then r.maxId > id
      else if py.maxId < id then r.maxId < id else r == py
  {
    hide ValidHeader, Decode;
  }

  lemma PacketOfFrame(py: Py, e: Event, b: Blob, id: u32, arrived: set<u16>)
    requires Sendable(b) && OfFrame(e, id) && PacketOfBlob(e, b, id)
    ensures py.maxId > id || (py.maxId == id && py.frames == map[]) ==> Step(py, e) == py
    ensures Holds(py, b, id, arrived) ==>
      Holds(Step(py, e), b, id, arrived + ArrivalOf(e, id)) && Step(py, e).done == py.done
  {
    hide ValidHeader, Decode, Encode, Chunk;
    var i: u16 :| i < TotalPackets(|b.data|) && e.raw == PacketBytes(PacketAt(b, id, i));
    PacketsWithinBlob(|b.data|, i);
    var p := PacketAt(b, id, i);
    HeaderRoundTrip(p.header, p.payload);
    assert PacketBytes(p)[HEADER_SIZE..HEADER_SIZE + p.header.dataLen] == p.payload;
  }

  lemma WholeIff(b: Blob, f: PyFrame, arrived: set<u16>)
    requires Sendable(b) && Collected(b, f)
    requires forall i: u16 | i < TotalPackets(|b.data|) :: f.pkgs[i].Some? <==> i in arrived
    ensures AllArrived(f.pkgs) <==> forall i: u16 | i < TotalPackets(|b.data|) :: i in arrived
  {
    hide Chunk, TotalPackets;
    if !AllArrived(f.pkgs) {
      var i: u16 :| i < |f.pkgs| && f.pkgs[i].None?;
    }
  }

  /** What a drain does to frame `id`, by what has arrived of it. */
  lemma DrainOfFrame(py: Py, e: Event, b: Blob, id: u32, arrived: set<u16>)
    requires 0 < |b.data| <= MAX_BLOB && e.Drained? && Holds(py, b, id, arrived)
    ensures var whole, r := (forall i: u16 | i < TotalPackets(|b.data|) :: i in arrived), Step(py, e);
      (whole ==> arrived != {}) &&
      if whole && Concludes(e, b) then
        r.maxId == id && r.frames == map[] &&
        r.done == if b.kind == IMAGE && e.handling == Shown then py.done + [Completed(id, b.data)] else py.done
      else if arrived == {} then
        r.maxId == py.maxId && NoneOf(py.done, r.done, id)
      else r == py
  {
    var zero: u16 := 0;
    assert zero < TotalPackets(|b.data|);
    hide Chunk, TotalPackets, JoinPkgs;
    if arrived == {} {
      assert zero !in arrived;
    } else {
      var f := py.frames[id];
      WholeIff(b, f, arrived);
      if AllArrived(f.pkgs) {
        CollectedIsBlob(b, f);
      }
    }
  }

  lemma DrainOfNothing(py: Py, e: Event, id: u32)
    requires e.Drained? && (py.maxId > id || py.frames == map[])
    ensures var r := Step(py, e);
      r.maxId == py.maxId && (py.frames == map[] ==> r == py) && NoneOf(py.done, r.done, id)
  {
    hide JoinPkgs;
  }

  lemma TracksMeans(es: seq<Event>, k: nat, b: Blob, id: u32, py: Py)
    requires k <= |es| && Sendable(b)
    ensures Tracks(es, k, b, id, py) <==>
      if Overtaken(es, k, id) then py.maxId > id
      else if Concluded(es, k, b, id) then py.maxId == id && py.frames == map[]
      else Holds(py, b, id, Arrivals(es, k, id))
  {
  }

  lemma ArrivalsNext(es: seq<Event>, k: nat, id: u32)
    requires k < |es|
    ensures Arrivals(es, k + 1, id) == Arrivals(es, k, id) + ArrivalOf(es[k], id)
    ensures es[k].Drained? ==> !Taken(es[k]) && Arrivals(es, k + 1, id) == Arrivals(es, k, id)
    ensures !OfFrame(es[k], id) ==> Arrivals(es, k + 1, id) == Arrivals(es, k, id)
    ensures OfFrame(es[k], id) <==> Taken(es[k]) && Decode(es[k].raw).frameId == id
  {
    hide ValidHeader, Decode;
  }

  lemma DrainTracks(es: seq<Event>, k: nat, b: Blob, id: u32)
    requires 0 < |b.data| <= MAX_BLOB && k < |es| && es[k].Drained? && Tracks(es, k, b, id, At(es, k))
    ensures Tracks(es, k + 1, b, id, At(es, k + 1))
    ensures ShownIff(es, k, b, id)
  {
    hide Arrivals, Overtaken, Concluded, At, Step, Decode, ValidHeader, Holds, TotalPackets, Tracks;
    var py, e := At(es, k), es[k];
    AtNext(es, k);
    OvertakenNext(es, k, id);
    ConcludedNext(es, k, b, id);
    ArrivalsNext(es, k, id);
    TracksMeans(es, k, b, id, py);
    TracksMeans(es, k + 1, b, id, At(es, k + 1));
    if Overtaken(es, k, id) || Concluded(es, k, b, id) {
      DrainOfNothing(py, e, id);
    } else {
      DrainOfFrame(py, e, b, id, Arrivals(es, k, id));
      HoldsStays(py, Step(py, e), b, id, Arrivals(es, k, id));
    }
  }

  lemma DatagramTracks(es: seq<Event>, k: nat, b: Blob, id: u32)
    requires Sendable(b) && OnlyPacketsOf(es, b, id) && k < |es| && es[k].Datagram? && Tracks(es, k, b, id, At(es, k))
    ensures Tracks(es, k + 1, b, id, At(es, k + 1))
    ensures At(es, k + 1).done == At(es, k).done
  {
    hide Arrivals, Overtaken, Concluded, At, Step, Decode, ValidHeader, Holds, TotalPackets, Tracks, OfFrame, Taken,
      PacketOfBlob, ArrivalOf;
    var py, e := At(es, k), es[k];
    AtNext(es, k);
    OvertakenNext(es, k, id);
    ConcludedNext(es, k, b, id);
    ArrivalsNext(es, k, id);
    TracksMeans(es, k, b, id, py);
    TracksMeans(es, k + 1, b, id, At(es, k + 1));
    if OfFrame(e, id) {
      PacketOfFrame(py, e, b, id, Arrivals(es, k, id));
    } else {
      EarlierDatagram(py, e, id);
      HoldsStays(py, Step(py, e), b, id, Arrivals(es, k, id));
    }
  }

  lemma HoldsStays(py: Py, r: Py, b: Blob, id: u32, arrived: set<u16>)
    requires Sendable(b)
    ensures Holds(py, b, id, arrived) ==> if arrived == {} then py.maxId < id else py.maxId == id
    ensures arrived == {} && r.maxId < id ==> Holds(r, b, id, arrived)
  {
  }

  lemma BlobFits(b: Blob)
    requires |b.data| <= MAX_BLOB
    ensures Sendable(b)
  {
  }

  lemma NotDue(es: seq<Event>, k: nat, b: Blob, id: u32)
    requires Sendable(b) && k < |es| && es[k].Datagram? && At(es, k + 1).done == At(es, k).done
    ensures ShownIff(es, k, b, id)
  {
    hide At;
  }

  lemma TracksNext(es: seq<Event>, k: nat, b: Blob, id: u32)
    requires 0 < |b.data| <= MAX_BLOB && OnlyPacketsOf(es, b, id) && k < |es| && Tracks(es, k, b, id, At(es, k))
    ensures Tracks(es, k + 1, b, id, At(es, k + 1))
    ensures ShownIff(es, k, b, id)
  {
    hide *;
    BlobFits(b);
    if es[k].Drained? {
      DrainTracks(es, k, b, id);
    } else {
      DatagramTracks(es, k, b, id);
      NotDue(es, k, b, id);
    }
  }

  lemma {:induction false} AlwaysTracks(es: seq<Event>, k: nat, b: Blob, id: u32)
    requires 0 < |b.data| <= MAX_BLOB && OnlyPacketsOf(es, b, id) && k <= |es|
    ensures Tracks(es, k, b, id, At(es, k))
  {
    hide Tracks, At, OnlyPacketsOf;
    if k == 0 {
      TracksAtStart(es, b, id);
    } else {
      AlwaysTracks(es, k - 1, b, id);
      TracksNext(es, k - 1, b, id);
    }
  }

  lemma TracksAtStart(es: seq<Event>, b: Blob, id: u32)
    requires Sendable(b)
    ensures Tracks(es, 0, b, id, At(es, 0))
  {
    assert es[..0] == [];
  }

  /**
   Exactly when the image sent as frame `id` is shown, in every run and whatever else arrives: at the first drain after
   its last missing packet, in whatever order and with whatever repetitions and drains its packets arrive, unless a
   later frame has arrived before. A drain that raises an exception leaves the image to the next one; one at which it
   does not decode ends it. What is shown is the blob that was sent.
   */
  lemma ShownExactly(es: seq<Event>, k: nat, b: Blob, id: u32)
    requires 0 < |b.data| <= MAX_BLOB && OnlyPacketsOf(es, b, id) && k < |es|
    ensures ShownIff(es, k, b, id)
  {
    hide Tracks, At, OnlyPacketsOf, ShownIff;
    AlwaysTracks(es, k, b, id);
    TracksNext(es, k, b, id);
  }
}
