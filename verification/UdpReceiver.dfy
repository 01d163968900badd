/** The desktop's UDP receiver: frames from datagrams that may be lost, repeated and reordered. */
module UdpReceiver {
  import opened Bytes
  import opened Frame
  import opened Packets
  import opened Reassembly

  /** The datagram holds a valid header and the payload its header announces. */
  predicate Acceptable(raw: seq<byte>) {
    |raw| >= HEADER_SIZE && ValidHeader(raw) && |raw| >= HEADER_SIZE + Decode(raw).dataLen
  }

  function Receive(rx: Rx, raw: seq<byte>): Rx {
    if Acceptable(raw) then
      var h := Decode(raw);
      Accept(rx, h, raw[HEADER_SIZE..HEADER_SIZE + h.dataLen])
    else
      rx
  }

  function ReceiveAll(rx: Rx, datagrams: seq<seq<byte>>): Rx {
    if datagrams == [] then rx
    else Receive(ReceiveAll(rx, datagrams[..|datagrams| - 1]), datagrams[|datagrams| - 1])
  }

  class UdpReceiverWorker {
    const frames: Reassembler

    function State(): Rx
      reads frames
    {
      frames.State()
    }

    constructor ()
      ensures fresh(frames) && State() == FRESH
    {
      frames := new Reassembler();
    }

    /** Handle all pending datagrams. */
    method OnReadyRead(pending: seq<seq<byte>>)
      modifies frames
      ensures State() == ReceiveAll(old(State()), pending)
    {
      hide ValidHeader, Decode, Accept;
      for i := 0 to |pending|
        invariant State() == ReceiveAll(old(State()), pending[..i])
      {
        assert pending[..i + 1][..i] == pending[..i];
        var raw := pending[i];
        if |raw| < HEADER_SIZE {
          continue;
        }
        var valid := ValidateFrameHeader(raw);
        if !valid {
          continue;
        }
        var h := Decode(raw);
        if |raw| < HEADER_SIZE + h.dataLen {
          continue;
        }
        frames.AcceptPacket(h, raw[HEADER_SIZE..HEADER_SIZE + h.dataLen]);
      }
      assert pending[..|pending|] == pending;
    }
  }

  // ---- The honest sender ----

  /** The blobs sent so far by frame id: an id is never reused. */
  type Sent = map<u32, Blob>

  ghost predicate HonestSender(sent: Sent) {
    forall id | id in sent :: 0 < |sent[id].data| <= MAX_BLOB
  }

  /** The datagram is packet `i` of the blob sent under `id`. */
  ghost predicate IsPacket(sent: Sent, raw: seq<byte>, id: u32, i: u16)
    requires HonestSender(sent)
  {
    id in sent && i < TotalPackets(|sent[id].data|) && raw == PacketBytes(PacketAt(sent[id], id, i))
  }

  /** A datagram on the network: one the sender sent, or one the receiver drops. */
  ghost predicate OnNetwork(sent: Sent, raw: seq<byte>)
    requires HonestSender(sent)
  {
    Acceptable(raw) ==> exists id: u32, i: u16 :: IsPacket(sent, raw, id, i)
  }

  /** Every datagram the sender produces for a blob is one of its packets. */
  lemma SenderProducesPackets(sent: Sent, id: u32, raw: seq<byte>)
    requires HonestSender(sent) && id in sent
    requires raw in Datagrams(PacketsOf(sent[id], id))
    ensures exists i: u16 :: IsPacket(sent, raw, id, i)
  {
    hide PacketBytes, PacketAt;
    var ps := PacketsOf(sent[id], id);
    var i: u16 :| i < |ps| && raw == Datagrams(ps)[i];
    assert IsPacket(sent, raw, id, i);
  }

  // ---- Safety ----

  ghost predicate StoredPackets(b: Blob, pkgs: FramePackets)
    requires Sendable(b)
  {
    forall i | i in pkgs :: i < TotalPackets(|b.data|) && i * CHUNK <= |b.data| && pkgs[i] == Chunk(b.data, i)
  }

  ghost predicate Genuine(sent: Sent, d: Dispatch) {
    d.frameId in sent &&
    d == Dispatch(d.frameId, sent[d.frameId].kind, sent[d.frameId].timestamp, sent[d.frameId].data)
  }

  ghost predicate NeverDecreasing(out: seq<Dispatch>) {
    forall i, j | 0 <= i < j < |out| :: out[i].frameId <= out[j].frameId
  }

  ghost predicate Safe(sent: Sent, rx: Rx)
    requires HonestSender(sent)
  {
    FramesGenuine(sent, rx.frames) &&
    (forall d | d in rx.out :: Genuine(sent, d)) &&
    NeverDecreasing(rx.out) &&
    (rx.out != [] ==> rx.last == rx.out[|rx.out| - 1].frameId)
  }

  function Below(n: nat): (s: set<u16>)
    requires n <= 0xFFFF
    ensures forall i: u16 :: i in s <==> i < n
    ensures |s| == n
  {
    if n == 0 then {} else Below(n - 1) + {n - 1}
  }

  lemma SubsetOfSameSize(a: set<u16>, b: set<u16>)
    requires a <= b && |a| == |b|
    ensures a == b
  {
    assert b == a + (b - a);
    assert |b| == |a| + |b - a|;
  }

  lemma {:induction false} JoinStored(b: Blob, pkgs: FramePackets, n: nat)
    requires Sendable(b) && StoredPackets(b, pkgs)
    requires n <= TotalPackets(|b.data|) && pkgs.Keys == Below(TotalPackets(|b.data|))
    requires n == 0 || (n - 1) * CHUNK <= |b.data|
    ensures Join(pkgs, n) == Joined(b.data, n)
  {
    hide Chunk;
    if n > 0 {
      assert n - 1 in pkgs.Keys;
      JoinStored(b, pkgs, n - 1);
    }
  }

  /** As many distinct packets as the frame has can only be all of them: their join is the blob. */
  lemma CompleteFrameIsBlob(b: Blob, pkgs: FramePackets)
    requires 0 < |b.data| <= MAX_BLOB && StoredPackets(b, pkgs)
    requires |pkgs| == TotalPackets(|b.data|)
    ensures Join(pkgs, TotalPackets(|b.data|)) == b.data
  {
    hide Chunk;
    var n := TotalPackets(|b.data|);
    SubsetOfSameSize(pkgs.Keys, Below(n));
    SplitJoin(b);
    JoinStored(b, pkgs, n);
  }

  lemma SinglePacketIsBlob(b: Blob)
    requires 0 < |b.data| <= MAX_BLOB && TotalPackets(|b.data|) == 1
    ensures Chunk(b.data, 0) == b.data
  {
  }

  lemma ReceivedPacket(sent: Sent, raw: seq<byte>, id: u32, i: u16)
    requires HonestSender(sent) && IsPacket(sent, raw, id, i)
    ensures var p := PacketAt(sent[id], id, i);
      Acceptable(raw) && Decode(raw) == p.header && raw[HEADER_SIZE..HEADER_SIZE + p.header.dataLen] == p.payload
  {
    hide ValidHeader, Decode, Encode;
    var p := PacketAt(sent[id], id, i);
    HeaderRoundTrip(p.header, p.payload);
  }

  lemma EmitKeepsSafe(sent: Sent, frames: map<u32, FramePackets>, rx: Rx, d: Dispatch)
    requires HonestSender(sent) && Safe(sent, rx) && !Stale(rx, d.frameId) && Genuine(sent, d)
    requires FramesGenuine(sent, frames)
    ensures Safe(sent, Rx(frames, d.frameId, rx.out + [d]))
  {
    hide StoredPackets, Genuine;
  }

  lemma StorePacket(b: Blob, pkgs: FramePackets, i: u16)
    requires Sendable(b) && StoredPackets(b, pkgs) && i < TotalPackets(|b.data|) && i * CHUNK <= |b.data|
    ensures StoredPackets(b, pkgs[i := Chunk(b.data, i)])
  {
    hide Chunk;
  }

  ghost predicate FramesGenuine(sent: Sent, frames: map<u32, FramePackets>)
    requires HonestSender(sent)
  {
    forall id | id in frames :: id in sent && StoredPackets(sent[id], frames[id])
  }

  /** The packets of frame `id` once packet `i` is stored, among the frames that survive the clean-up. */
  lemma StoreInFrames(sent: Sent, frames: map<u32, FramePackets>, id: u32, i: u16)
    requires HonestSender(sent) && FramesGenuine(sent, frames)
    requires id in sent && i < TotalPackets(|sent[id].data|) && i * CHUNK <= |sent[id].data|
    ensures var cleaned := CleanExpired(frames, id);
      var pkgs := FramesOf(cleaned, id)[i := Chunk(sent[id].data, i)];
      StoredPackets(sent[id], pkgs) && FramesGenuine(sent, cleaned) &&
      FramesGenuine(sent, cleaned - {id}) && FramesGenuine(sent, cleaned[id := pkgs])
  {
    hide Chunk, StoredPackets;
    var cleaned := CleanExpired(frames, id);
    StoredOrEmpty(sent[id], cleaned, id);
    StorePacket(sent[id], FramesOf(cleaned, id), i);
  }

  lemma AcceptKeepsSafe(sent: Sent, rx: Rx, id: u32, i: u16)
    requires HonestSender(sent) && Safe(sent, rx)
    requires id in sent && i < TotalPackets(|sent[id].data|)
    ensures var p := PacketAt(sent[id], id, i); Safe(sent, Accept(rx, p.header, p.payload))
  {
    hide Chunk, StoredPackets, Join, Genuine, NeverDecreasing, CleanExpired, FramesOf, TotalPackets;
    var b := sent[id];
    PacketsWithinBlob(|b.data|, i);
    if !Stale(rx, id) {
      StoreInFrames(sent, rx.frames, id, i);
      var frames := CleanExpired(rx.frames, id);
      var pkgs := FramesOf(frames, id)[i := Chunk(b.data, i)];
      var d := Dispatch(id, b.kind, b.timestamp, b.data);
      GenuineDispatch(sent, id);
      EmitKeepsSafe(sent, frames, rx, d);
      EmitKeepsSafe(sent, frames - {id}, rx, d);
      if TotalPackets(|b.data|) == 1 {
        SinglePacketIsBlob(b);
      } else if |pkgs| == TotalPackets(|b.data|) {
        CompleteFrameIsBlob(b, pkgs);
      }
    }
  }

  lemma GenuineDispatch(sent: Sent, id: u32)
    requires id in sent
    ensures Genuine(sent, Dispatch(id, sent[id].kind, sent[id].timestamp, sent[id].data))
  {
  }

  lemma StoredOrEmpty(b: Blob, frames: map<u32, FramePackets>, id: u32)
    requires Sendable(b) && (id in frames ==> StoredPackets(b, frames[id]))
    ensures StoredPackets(b, FramesOf(frames, id))
  {
  }

  /**
   Whatever the network loses, repeats or reorders, and whatever is evicted: every frame dispatched is one of the
   blobs sent, whole and unchanged, and the frame ids dispatched never decrease.
   */
  lemma {:induction false} UdpSafety(sent: Sent, datagrams: seq<seq<byte>>)
    requires HonestSender(sent)
    requires forall raw | raw in datagrams :: OnNetwork(sent, raw)
    ensures Safe(sent, ReceiveAll(FRESH, datagrams))
  {
    hide Safe, Accept, ValidHeader, Decode, PacketBytes, IsPacket;
    if datagrams == [] {
      FreshIsSafe(sent);
    } else {
      var k := |datagrams| - 1;
      var raw := datagrams[k];
      UdpSafety(sent, datagrams[..k]);
      if Acceptable(raw) {
        assert OnNetwork(sent, raw);
        var id: u32, i: u16 :| IsPacket(sent, raw, id, i);
        PacketReceived(sent, ReceiveAll(FRESH, datagrams[..k]), raw, id, i);
      }
    }
  }

  lemma PacketReceived(sent: Sent, rx: Rx, raw: seq<byte>, id: u32, i: u16)
    requires HonestSender(sent) && IsPacket(sent, raw, id, i) && Safe(sent, rx)
    ensures Safe(sent, Receive(rx, raw))
  {
    hide Safe, Accept, ValidHeader, Decode, PacketBytes;
    ReceivedPacket(sent, raw, id, i);
    AcceptKeepsSafe(sent, rx, id, i);
  }

  lemma FreshIsSafe(sent: Sent)
    requires HonestSender(sent)
    ensures Safe(sent, FRESH)
  {
  }
}
