/** From the board's TCP sender to the desktop's dispatch: what arrives is what was sent. */
module TcpEndToEnd {
  import opened Bytes
  import opened Frame
  import opened Packets
  import opened Reassembly
  import opened TcpStream

  function AcceptAll(rx: Rx, ps: seq<Packet>): Rx
    decreases |ps|
  {
    if ps == [] then rx else AcceptAll(Accept(rx, ps[0].header, ps[0].payload), ps[1..])
  }

  predicate WellFormed(p: Packet) {
    p.header.dataLen == |p.payload|
  }

  // ---- From bytes to packets ----

  lemma DrainPacket(rx: Rx, p: Packet, rest: seq<byte>)
    requires WellFormed(p)
    ensures Drain(Stream(PacketBytes(p) + rest, rx)) == Drain(Stream(rest, Accept(rx, p.header, p.payload)))
  {
    hide ValidHeader, Decode, Accept, Encode;
    var all := PacketBytes(p) + rest;
    assert all == Encode(p.header) + (p.payload + rest);
    HeaderRoundTrip(p.header, p.payload + rest);
    var end := HEADER_SIZE + |p.payload|;
    assert all[end..] == rest;
    assert all[HEADER_SIZE..end] == p.payload;
    assert PacketReady(all);
    assert TakePacket(Stream(all, rx)) == Stream(rest, Accept(rx, p.header, p.payload));
  }

  lemma {:induction false} DrainPackets(rx: Rx, ps: seq<Packet>, rest: seq<byte>)
    requires forall p | p in ps :: WellFormed(p)
    ensures Drain(Stream(WireOf(ps) + rest, rx)) == Drain(Stream(rest, AcceptAll(rx, ps)))
    decreases |ps|
  {
    hide Drain, Accept, PacketBytes;
    if ps == [] {
      assert WireOf(ps) + rest == rest;
    } else {
      var tail := WireOf(ps[1..]) + rest;
      assert WireOf(ps) + rest == PacketBytes(ps[0]) + tail;
      DrainPacket(rx, ps[0], tail);
      DrainPackets(Accept(rx, ps[0].header, ps[0].payload), ps[1..], rest);
    }
  }

  // ---- From packets to one frame ----

  /** The first `k` packets of a blob, as the receiver stores them. */
  function FirstPackets(data: seq<byte>, k: nat): FramePackets
    requires k <= 0xFFFF && (k == 0 || (k - 1) * CHUNK <= |data|)
  {
    map i: u16 | 0 <= i < k :: Chunk(data, i)
  }

  lemma {:induction false} FirstPacketsCount(data: seq<byte>, k: nat)
    requires k <= 0xFFFF && (k == 0 || (k - 1) * CHUNK <= |data|)
    ensures |FirstPackets(data, k)| == k
  {
    if k > 0 {
      FirstPacketsCount(data, k - 1);
      assert FirstPackets(data, k) == FirstPackets(data, k - 1)[k - 1 := Chunk(data, k - 1)];
    }
  }

  lemma {:induction false} JoinFirstPackets(data: seq<byte>, k: nat, n: nat)
    requires k <= n <= 0xFFFF && (n == 0 || (n - 1) * CHUNK <= |data|)
    ensures Join(FirstPackets(data, n), k) == Joined(data, k)
  {
    if k > 0 {
      JoinFirstPackets(data, k - 1, n);
    }
  }

  function AfterFirst(rx: Rx, b: Blob, frameId: u32, k: nat): Rx
    requires k <= 0xFFFF && (k == 0 || (k - 1) * CHUNK <= |b.data|)
  {
    rx.(frames := if k == 0 then map[] else map[frameId := FirstPackets(b.data, k)])
  }

  function Delivered(rx: Rx, b: Blob, frameId: u32): Rx
    requires Sendable(b) && TotalPackets(|b.data|) > 0
  {
    PacketsWithinBlob(|b.data|, TotalPackets(|b.data|) - 1);
    Rx(map[], frameId,
       rx.out + [Dispatch(frameId, b.kind, b.timestamp, Joined(b.data, TotalPackets(|b.data|)))])
  }

  /** The packets collected for the current frame once packet `k` is in. */
  lemma CollectedPackets(b: Blob, frameId: u32, rx: Rx, k: nat)
    requires k < 0xFFFF && k * CHUNK <= |b.data|
    requires rx.frames == map[]
    ensures var frames := AfterFirst(rx, b, frameId, k).frames;
      CleanExpired(frames, frameId) == frames &&
      FramesOf(frames, frameId)[k := Chunk(b.data, k)] == FirstPackets(b.data, k + 1) &&
      frames - {frameId} == map[] &&
      frames[frameId := FirstPackets(b.data, k + 1)] == AfterFirst(rx, b, frameId, k + 1).frames
  {
    hide Chunk;
    var frames := AfterFirst(rx, b, frameId, k).frames;
    assert FramesOf(frames, frameId) == FirstPackets(b.data, k);
  }

  lemma AcceptNext(rx: Rx, b: Blob, frameId: u32, k: nat)
    requires Sendable(b) && k < TotalPackets(|b.data|) && TotalPackets(|b.data|) > 1
    requires rx.frames == map[] && !Stale(rx, frameId)
    requires k * CHUNK <= |b.data|
    ensures var p := PacketAt(b, frameId, k);
      Accept(AfterFirst(rx, b, frameId, k), p.header, p.payload) ==
      if k + 1 < TotalPackets(|b.data|) then AfterFirst(rx, b, frameId, k + 1) else Delivered(rx, b, frameId)
  {
    hide CleanExpired, FramesOf, FirstPackets, Chunk, Joined, Join;
    var n := TotalPackets(|b.data|);
    CollectedPackets(b, frameId, rx, k);
    FirstPacketsCount(b.data, k + 1);
    if k + 1 == n {
      JoinFirstPackets(b.data, n, n);
    }
  }

  lemma {:induction false} AcceptRest(rx: Rx, b: Blob, frameId: u32, k: nat)
    requires Sendable(b) && k < TotalPackets(|b.data|) && TotalPackets(|b.data|) > 1
    requires rx.frames == map[] && !Stale(rx, frameId)
    requires k * CHUNK <= |b.data|
    ensures AcceptAll(AfterFirst(rx, b, frameId, k), PacketsOf(b, frameId)[k..]) == Delivered(rx, b, frameId)
    decreases TotalPackets(|b.data|) - k
  {
    hide Accept, AfterFirst, Delivered, PacketAt;
    var ps := PacketsOf(b, frameId);
    AcceptNext(rx, b, frameId, k);
    assert ps[k..][1..] == ps[k + 1..];
    assert ps[k..][0] == PacketAt(b, frameId, k);
    if k + 1 < |ps| {
      PacketsWithinBlob(|b.data|, k + 1);
      AcceptRest(rx, b, frameId, k + 1);
    } else {
      assert ps[k + 1..] == [];
    }
  }

  lemma AcceptSingle(rx: Rx, b: Blob, frameId: u32)
    requires Sendable(b) && TotalPackets(|b.data|) == 1
    requires rx.frames == map[] && !Stale(rx, frameId)
    ensures var p := PacketAt(b, frameId, 0); Accept(rx, p.header, p.payload) == Delivered(rx, b, frameId)
  {
    hide Chunk;
    assert CleanExpired(rx.frames, frameId) == map[];
    assert Joined(b.data, 1) == Joined(b.data, 0) + Chunk(b.data, 0) == Chunk(b.data, 0);
  }

  /** All packets of a blob, received in order by an idle receiver, make it dispatch their joined payloads. */
  lemma AcceptBlob(rx: Rx, b: Blob, frameId: u32)
    requires Sendable(b) && TotalPackets(|b.data|) > 0
    requires rx.frames == map[] && !Stale(rx, frameId)
    ensures AcceptAll(rx, PacketsOf(b, frameId)) == Delivered(rx, b, frameId)
  {
    hide Accept, Delivered, PacketAt;
    var ps := PacketsOf(b, frameId);
    if |ps| == 1 {
      AcceptSingle(rx, b, frameId);
      assert ps[0] == PacketAt(b, frameId, 0) && ps[1..] == [];
    } else {
      assert ps[0..] == ps;
      assert AfterFirst(rx, b, frameId, 0) == rx;
      AcceptRest(rx, b, frameId, 0);
    }
  }

  /**
   Exactly when is a non-empty blob delivered whole? When it fits 65535 packets. A longer one is cut, or not sent
   at all, because the packet count is stored in 16 bits.
   */
  lemma DeliveredWholeIff(rx: Rx, b: Blob, frameId: u32)
    requires Sendable(b) && b.data != []
    requires rx.frames == map[] && !Stale(rx, frameId)
    ensures (AcceptAll(rx, PacketsOf(b, frameId)).out ==
             rx.out + [Dispatch(frameId, b.kind, b.timestamp, b.data)]) <==> |b.data| <= MAX_BLOB
  {
    hide Accept, Joined;
    SplitJoin(b);
    var whole := Dispatch(frameId, b.kind, b.timestamp, b.data);
    assert (rx.out + [whole])[|rx.out|] == whole;
    if TotalPackets(|b.data|) > 0 {
      AcceptBlob(rx, b, frameId);
      var out := AcceptAll(rx, PacketsOf(b, frameId)).out;
      assert out[|rx.out|].data == Joined(b.data, TotalPackets(|b.data|));
    } else {
      assert PacketsOf(b, frameId) == [];
      assert |b.data| > MAX_BLOB by { JoinedIsPrefix(b.data, 0); }
    }
  }

  // ---- From blobs to bytes to dispatches ----
  // Blobs are numbered from the frame counter the connection starts with; the number goes on where the counter wraps.

  /** Blobs the protocol can carry. */
  predicate Carried(blobs: seq<Blob>) {
    forall b | b in blobs :: 0 < |b.data| <= MAX_BLOB
  }

  const WRAP := 0x1_0000_0000

  /** The frame id of blob number `n`. */
  function FrameId(n: nat): u32 {
    n % WRAP
  }

  /** Once the counter has wrapped, only the last frame id is not stale. */
  predicate Reaches(n: nat) {
    n < WRAP || FrameId(n) == WRAP - 1
  }

  /** The bytes the sender writes for `blobs`, the first being number `n`. */
  function WireOfBlobs(blobs: seq<Blob>, n: nat): seq<byte>
    requires Carried(blobs)
  {
    if blobs == [] then []
    else WireOf(PacketsOf(blobs[0], FrameId(n))) + WireOfBlobs(blobs[1..], n + 1)
  }

  lemma {:induction false} WireOfBlobsConcat(a: seq<Blob>, b: seq<Blob>, n: nat)
    requires Carried(a) && Carried(b)
    ensures Carried(a + b)
    ensures WireOfBlobs(a + b, n) == WireOfBlobs(a, n) + WireOfBlobs(b, n + |a|)
    decreases |a|
  {
    hide WireOf, PacketsOf, FrameId;
    if a == [] {
      assert a + b == b;
    } else {
      assert (a + b)[1..] == a[1..] + b;
      WireOfBlobsConcat(a[1..], b, n + 1);
    }
  }

  lemma NoBlobsNoWire(n: nat)
    ensures WireOfBlobs([], n) == []
  {
  }

  lemma WireOfOneMore(blobs: seq<Blob>, i: nat, n: nat)
    requires Carried(blobs) && i < |blobs|
    ensures WireOfBlobs(blobs[..i + 1], n) ==
      WireOfBlobs(blobs[..i], n) + WireOf(PacketsOf(blobs[i], FrameId(n + i)))
  {
    hide WireOf, PacketsOf, FrameId;
    var b := blobs[i];
    assert blobs[..i] + [b] == blobs[..i + 1];
    WireOfBlobsConcat(blobs[..i], [b], n);
    assert [b][1..] == [];
    assert WireOfBlobs([b], n + i) == WireOf(PacketsOf(b, FrameId(n + i))) + [];
  }

  lemma NextFrameId(n: nat)
    ensures FrameId(n + 1) == (FrameId(n) + 1) % WRAP
  {
  }

  /** The bytes of the first `sent` blobs and of a part, but not all, of the next one. */
  ghost predicate BrokenOff(bytes: seq<byte>, blobs: seq<Blob>, n: nat, sent: nat)
    requires Carried(blobs)
  {
    sent < |blobs| &&
    exists part :: PartOf(part, blobs[sent], FrameId(n + sent)) && bytes == WireOfBlobs(blobs[..sent], n) + part
  }

  predicate PartOf(part: seq<byte>, b: Blob, frameId: u32)
    requires Sendable(b)
  {
    part < WireOf(PacketsOf(b, frameId))
  }

  /** The send cycles of the sending thread, one per blob, until the connection fails or all blobs are sent. */
  method SendBlobs(sender: TcpSender, blobs: seq<Blob>, ghost n: nat) returns (sent: nat)
    requires Carried(blobs) && sender.connected && sender.wire == [] && sender.currentFrameId == FrameId(n)
    modifies sender
    ensures sent <= |blobs| && sender.currentFrameId == FrameId(n + sent)
    ensures sender.connected <==> |WireOfBlobs(blobs, n)| <= old(sender.capacity)
    ensures sender.connected ==> sent == |blobs| && sender.wire == WireOfBlobs(blobs, n)
    ensures !sender.connected ==> BrokenOff(sender.wire, blobs, n, sent)
  {
    hide WireOf, WireOfBlobs, PacketsOf, Taken, FrameId;
    sent := 0;
    NoBlobsNoWire(n);
    ghost var room := sender.capacity;
    assert blobs[..0] == [];
    while sent < |blobs|
      invariant sent <= |blobs| && sender.connected && sender.currentFrameId == FrameId(n + sent)
      invariant sender.wire == WireOfBlobs(blobs[..sent], n)
      invariant sender.capacity + |sender.wire| == room
    {
      WireOfOneMore(blobs, sent, n);
      WireSplits(blobs, sent, n);
      NextFrameId(n + sent);
      ghost var bytes, left := WireOf(PacketsOf(blobs[sent], FrameId(n + sent))), sender.capacity;
      var ok := sender.SendCycle(blobs[sent]);
      if !ok {
        PartTaken(blobs, n, sent, left);
        return;
      }
      TakenAll(bytes, left);
      sent := sent + 1;
    }
    assert blobs[..|blobs|] == blobs;
  }

  lemma WireSplits(blobs: seq<Blob>, i: nat, n: nat)
    requires Carried(blobs) && i < |blobs|
    ensures |WireOfBlobs(blobs, n)| >= |WireOfBlobs(blobs[..i], n)| + |WireOf(PacketsOf(blobs[i], FrameId(n + i)))|
  {
    hide WireOf, PacketsOf, FrameId, WireOfBlobs;
    WireOfOneMore(blobs, i, n);
    WireOfBlobsConcat(blobs[..i + 1], blobs[i + 1..], n);
    assert blobs[..i + 1] + blobs[i + 1..] == blobs;
  }

  lemma PartTaken(blobs: seq<Blob>, n: nat, sent: nat, left: nat)
    requires Carried(blobs) && sent < |blobs|
    requires |WireOf(PacketsOf(blobs[sent], FrameId(n + sent)))| > left
    ensures BrokenOff(WireOfBlobs(blobs[..sent], n) + Taken(WireOf(PacketsOf(blobs[sent], FrameId(n + sent))), left),
                      blobs, n, sent)
  {
    hide WireOf, PacketsOf, FrameId, WireOfBlobs;
    var bytes := WireOf(PacketsOf(blobs[sent], FrameId(n + sent)));
    assert PartOf(Taken(bytes, left), blobs[sent], FrameId(n + sent));
  }

  // ---- What a connection delivers ----

  function Expected(blobs: seq<Blob>, n: nat): seq<Dispatch> {
    if blobs == [] then []
    else
      (if Reaches(n) then [Dispatch(FrameId(n), blobs[0].kind, blobs[0].timestamp, blobs[0].data)] else []) +
      Expected(blobs[1..], n + 1)
  }

  /** The receiver between two frames, blob `n` being next. */
  predicate Between(rx: Rx, n: nat) {
    rx.frames == map[] && if n < WRAP then rx.last <= n else rx.last == WRAP - 1
  }

  function AfterBlob(rx: Rx, b: Blob, n: nat): Rx {
    if Reaches(n) then Rx(map[], FrameId(n), rx.out + [Dispatch(FrameId(n), b.kind, b.timestamp, b.data)]) else rx
  }

  lemma BetweenMeans(rx: Rx, b: Blob, n: nat)
    requires Between(rx, n)
    ensures Stale(rx, FrameId(n)) <==> !Reaches(n)
    ensures Between(AfterBlob(rx, b, n), n + 1)
  {
  }

  /** Packets of a stale frame are ignored. */
  lemma {:induction false} AcceptStale(rx: Rx, ps: seq<Packet>, frameId: u32)
    requires Stale(rx, frameId) && forall p | p in ps :: p.header.frameId == frameId
    ensures AcceptAll(rx, ps) == rx
    decreases |ps|
  {
    if ps != [] {
      AcceptStale(rx, ps[1..], frameId);
    }
  }

  lemma DrainBlob(rx: Rx, b: Blob, n: nat, rest: seq<byte>)
    requires 0 < |b.data| <= MAX_BLOB && Between(rx, n)
    ensures Drain(Stream(WireOf(PacketsOf(b, FrameId(n))) + rest, rx)) == Drain(Stream(rest, AfterBlob(rx, b, n)))
  {
    hide Accept, Drain, PacketBytes, Stale, Joined;
    DrainPackets(rx, PacketsOf(b, FrameId(n)), rest);
    BetweenMeans(rx, b, n);
    if Reaches(n) {
      AcceptBlob(rx, b, FrameId(n));
      SplitJoin(b);
    } else {
      AcceptStale(rx, PacketsOf(b, FrameId(n)), FrameId(n));
    }
  }

  function AfterBlobs(rx: Rx, blobs: seq<Blob>, n: nat): Rx
    decreases |blobs|
  {
    if blobs == [] then rx else AfterBlobs(AfterBlob(rx, blobs[0], n), blobs[1..], n + 1)
  }

  lemma {:induction false} AfterBlobsExpected(rx: Rx, blobs: seq<Blob>, n: nat)
    requires Between(rx, n)
    ensures AfterBlobs(rx, blobs, n).out == rx.out + Expected(blobs, n)
    ensures Between(AfterBlobs(rx, blobs, n), n + |blobs|)
    decreases |blobs|
  {
    hide Between, Reaches, FrameId;
    if blobs != [] {
      BetweenMeans(rx, blobs[0], n);
      AfterBlobsExpected(AfterBlob(rx, blobs[0], n), blobs[1..], n + 1);
    }
  }

  lemma {:induction false} DrainBlobs(rx: Rx, blobs: seq<Blob>, n: nat, rest: seq<byte>)
    requires Carried(blobs) && Between(rx, n)
    ensures Drain(Stream(WireOfBlobs(blobs, n) + rest, rx)) == Drain(Stream(rest, AfterBlobs(rx, blobs, n)))
    decreases |blobs|
  {
    hide Drain, Between, WireOf, PacketsOf, AfterBlob, FrameId;
    if blobs == [] {
      assert WireOfBlobs(blobs, n) + rest == rest;
    } else {
      var b, behind := blobs[0], WireOfBlobs(blobs[1..], n + 1) + rest;
      assert b in blobs;
      assert WireOfBlobs(blobs, n) + rest == WireOf(PacketsOf(b, FrameId(n))) + behind;
      BetweenMeans(rx, b, n);
      DrainBlob(rx, b, n, behind);
      DrainBlobs(AfterBlob(rx, b, n), blobs[1..], n + 1, rest);
    }
  }

  lemma DrainShort(s: Stream)
    requires |s.buffer| < HEADER_SIZE
    ensures Drain(s) == s
  {
  }

  /** A fresh connection that has received `bytes`, in whatever pieces. */
  lemma FeedIsDrain(out: seq<Dispatch>, pieces: seq<seq<byte>>)
    ensures var start := Stream([], FRESH.(out := out));
      FeedAll(start, pieces) == Drain(Stream(Flatten(pieces), FRESH.(out := out)))
  {
    hide Drain;
    var start := Stream([], FRESH.(out := out));
    assert Drain(start) == start by {
      DrainShort(start);
    }
    ChunkingIndependence(start, pieces);
    assert [] + Flatten(pieces) == Flatten(pieces);
  }

  /**
   End to end: whatever blobs of carriable size are sent on a fresh connection, whatever the frame counter is, and
   however the network cuts the bytes into pieces, the receiver dispatches, in order and once each, exactly the blobs
   before the counter wraps, and from then on those that get the last frame id. It is left with nothing pending.
   */
  lemma EndToEnd(out: seq<Dispatch>, blobs: seq<Blob>, n: nat, pieces: seq<seq<byte>>)
    requires Carried(blobs) && n < WRAP
    requires Flatten(pieces) == WireOfBlobs(blobs, n)
    ensures var s := FeedAll(Stream([], FRESH.(out := out)), pieces);
      s.rx.out == out + Expected(blobs, n) && s.buffer == [] && s.rx.frames == map[]
  {
    hide Drain, WireOfBlobs, Expected, AfterBlobs;
    var rx := FRESH.(out := out);
    FeedIsDrain(out, pieces);
    DrainBlobs(rx, blobs, n, []);
    assert WireOfBlobs(blobs, n) + [] == WireOfBlobs(blobs, n);
    AfterBlobsExpected(rx, blobs, n);
    DrainShort(Stream([], AfterBlobs(rx, blobs, n)));
  }

  /** Before the counter wraps these are all blobs. */
  lemma {:induction false} AllBeforeTheWrap(blobs: seq<Blob>, n: nat)
    requires n + |blobs| <= WRAP
    ensures |Expected(blobs, n)| == |blobs|
    ensures forall i | 0 <= i < |blobs| ::
      Expected(blobs, n)[i] == Dispatch(n + i, blobs[i].kind, blobs[i].timestamp, blobs[i].data)
    decreases |blobs|
  {
    if blobs != [] {
      AllBeforeTheWrap(blobs[1..], n + 1);
      forall i | 0 < i < |blobs|
        ensures Expected(blobs, n)[i] == Dispatch(n + i, blobs[i].kind, blobs[i].timestamp, blobs[i].data)
      {
        assert Expected(blobs, n)[i] == Expected(blobs[1..], n + 1)[i - 1];
      }
    }
  }

  // ---- A connection that fails ----

  lemma BehindFirst(first: seq<byte>, rest: seq<byte>, part: seq<byte>)
    requires part < first + rest && |first| <= |part|
    ensures part == first + part[|first|..] && part[|first|..] < rest
  {
    assert (first + rest)[..|part|] == part;
  }

  lemma Regroup(a: seq<byte>, b: seq<byte>, c: seq<byte>)
    ensures a + (b + c) == a + b + c
  {
  }

  /** A part of a packet sequence: some whole packets and a part of the next one. */
  lemma {:induction false} PartOfPackets(ps: seq<Packet>, part: seq<byte>) returns (j: nat, q: seq<byte>)
    requires part < WireOf(ps)
    ensures j < |ps| && part == WireOf(ps[..j]) + q && q < PacketBytes(ps[j])
    decreases |ps|
  {
    hide PacketBytes;
    var first := PacketBytes(ps[0]);
    if |part| < |first| {
      j, q := 0, part;
      assert ps[..0] == [];
      assert part == [] + q;
    } else {
      BehindFirst(first, WireOf(ps[1..]), part);
      j, q := PartOfPackets(ps[1..], part[|first|..]);
      assert ps[..j + 1][1..] == ps[1..][..j];
      Regroup(first, WireOf(ps[1..][..j]), q);
      j := j + 1;
    }
  }

  /** A part of a packet is kept until the rest arrives. */
  lemma DrainPart(rx: Rx, p: Packet, q: seq<byte>)
    requires WellFormed(p) && q < PacketBytes(p)
    ensures Drain(Stream(q, rx)) == Stream(q, rx)
  {
    hide ValidHeader, Decode, Encode;
    if |q| >= HEADER_SIZE {
      var payload := q[HEADER_SIZE..];
      assert q == Encode(p.header) + payload;
      HeaderRoundTrip(p.header, payload);
    }
  }

  lemma {:induction false} AcceptAllConcat(rx: Rx, a: seq<Packet>, p: Packet)
    ensures AcceptAll(rx, a + [p]) == Accept(AcceptAll(rx, a), p.header, p.payload)
    decreases |a|
  {
    hide Accept;
    if a == [] {
      assert [p][1..] == [] && a + [p] == [p];
    } else {
      assert (a + [p])[1..] == a[1..] + [p];
      AcceptAllConcat(Accept(rx, a[0].header, a[0].payload), a[1..], p);
    }
  }

  /** Some of the packets of a frame, but not the last, dispatch nothing. */
  lemma {:induction false} AcceptSome(rx: Rx, b: Blob, frameId: u32, j: nat)
    requires Sendable(b) && j < TotalPackets(|b.data|)
    requires rx.frames == map[] && !Stale(rx, frameId)
    ensures (j == 0 || (j - 1) * CHUNK <= |b.data|) &&
      AcceptAll(rx, PacketsOf(b, frameId)[..j]) == AfterFirst(rx, b, frameId, j)
  {
    hide Accept, PacketAt, TotalPackets;
    var ps := PacketsOf(b, frameId);
    if j > 0 {
      PacketsWithinBlob(|b.data|, j - 1);
      AcceptSome(rx, b, frameId, j - 1);
      assert ps[..j] == ps[..j - 1] + [ps[j - 1]];
      AcceptAllConcat(rx, ps[..j - 1], ps[j - 1]);
      assert ps[j - 1] == PacketAt(b, frameId, j - 1);
      AcceptNext(rx, b, frameId, j - 1);
    } else {
      assert ps[..0] == [];
    }
  }

  /** A frame that breaks off is not dispatched. */
  lemma DrainPartOfBlob(rx: Rx, b: Blob, n: nat, part: seq<byte>)
    requires 0 < |b.data| <= MAX_BLOB && Between(rx, n) && PartOf(part, b, FrameId(n))
    ensures Drain(Stream(part, rx)).rx.out == rx.out
  {
    hide Accept, Drain, PacketBytes, Stale, WireOf, FrameId;
    var ps := PacketsOf(b, FrameId(n));
    var j, q := PartOfPackets(ps, part);
    DrainPackets(rx, ps[..j], q);
    DrainPart(AcceptAll(rx, ps[..j]), ps[j], q);
    BetweenMeans(rx, b, n);
    if Reaches(n) {
      AcceptSome(rx, b, FrameId(n), j);
    } else {
      AcceptStale(rx, ps[..j], FrameId(n));
    }
  }

  /** Any part of what is sent for `blobs` breaks off in one of them. */
  lemma {:induction false} PartBreaksOff(bytes: seq<byte>, blobs: seq<Blob>, n: nat) returns (sent: nat)
    requires Carried(blobs) && bytes < WireOfBlobs(blobs, n)
    ensures BrokenOff(bytes, blobs, n, sent)
    decreases |blobs|
  {
    hide WireOf, PacketsOf, FrameId;
    var b := blobs[0];
    var first, rest := WireOf(PacketsOf(b, FrameId(n))), WireOfBlobs(blobs[1..], n + 1);
    if |bytes| < |first| {
      sent := 0;
      assert blobs[..0] == [];
      assert PartOf(bytes, blobs[sent], FrameId(n + sent));
      assert bytes == WireOfBlobs(blobs[..sent], n) + bytes;
    } else {
      BehindFirst(first, rest, bytes);
      sent := PartBreaksOff(bytes[|first|..], blobs[1..], n + 1);
      BreaksOffLater(bytes, blobs, n, sent);
      sent := sent + 1;
    }
  }

  lemma BreaksOffLater(bytes: seq<byte>, blobs: seq<Blob>, n: nat, sent: nat)
    requires Carried(blobs) && blobs != [] && WireOf(PacketsOf(blobs[0], FrameId(n))) <= bytes
    requires BrokenOff(bytes[|WireOf(PacketsOf(blobs[0], FrameId(n)))|..], blobs[1..], n + 1, sent)
    ensures BrokenOff(bytes, blobs, n, sent + 1)
  {
    hide WireOf, PacketsOf, FrameId, PartOf;
    var first, behind := WireOf(PacketsOf(blobs[0], FrameId(n))), WireOfBlobs(blobs[1..][..sent], n + 1);
    var part :| PartOf(part, blobs[1..][sent], FrameId(n + 1 + sent)) && bytes[|first|..] == behind + part;
    assert blobs[..sent + 1][1..] == blobs[1..][..sent] && blobs[..sent + 1][0] == blobs[0];
    Regroup(first, behind, part);
    assert bytes == first + bytes[|first|..];
    assert blobs[1..][sent] == blobs[sent + 1] && n + 1 + sent == n + (sent + 1);
    assert WireOfBlobs(blobs[..sent + 1], n) == first + behind;
    assert PartOf(part, blobs[sent + 1], FrameId(n + (sent + 1)));
  }

  /**
   Wherever a connection fails: of the blobs begun, the receiver dispatches exactly those written whole, in order and
   once each, and nothing of the one that broke off.
   */
  lemma FailingConnection(out: seq<Dispatch>, blobs: seq<Blob>, n: nat, sent: nat, pieces: seq<seq<byte>>)
    requires Carried(blobs) && n < WRAP
    requires BrokenOff(Flatten(pieces), blobs, n, sent)
    ensures FeedAll(Stream([], FRESH.(out := out)), pieces).rx.out == out + Expected(blobs[..sent], n)
  {
    hide Drain, WireOfBlobs, Expected, AfterBlobs, PartOf;
    var rx := FRESH.(out := out);
    var part :| PartOf(part, blobs[sent], FrameId(n + sent)) && Flatten(pieces) == WireOfBlobs(blobs[..sent], n) + part;
    FeedIsDrain(out, pieces);
    DrainBlobs(rx, blobs[..sent], n, part);
    AfterBlobsExpected(rx, blobs[..sent], n);
    DrainPartOfBlob(AfterBlobs(rx, blobs[..sent], n), blobs[sent], n + sent, part);
  }
}
