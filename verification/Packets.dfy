/** How the TCP and the UDP sender cut a blob into packets of at most 1400 payload bytes. */
module Packets {
  import opened Bytes
  import CrcTable
  import opened Frame

  datatype Packet = Packet(header: Header, payload: seq<byte>)

  datatype Blob = Blob(kind: u32, timestamp: u64, data: seq<byte>)

  /** The length of a blob is a 32-bit number. */
  predicate Sendable(b: Blob) {
    |b.data| < 0x1_0000_0000
  }

  /** The packet count, computed in 32 bits and stored in 16. */
  function TotalPackets(len: u32): u16 {
    (len + CHUNK - 1) % 0x1_0000_0000 / CHUNK % 0x1_0000
  }

  /** The largest blob whose packet count fits its field. */
  const MAX_BLOB := 0xFFFF * CHUNK

  function Chunk(data: seq<byte>, i: nat): (c: seq<byte>)
    requires i * CHUNK <= |data|
    ensures |c| <= CHUNK
  {
    if |data| - i * CHUNK > CHUNK then data[i * CHUNK..(i + 1) * CHUNK] else data[i * CHUNK..]
  }

  lemma PacketsWithinBlob(len: u32, i: nat)
    requires i < TotalPackets(len)
    ensures i * CHUNK < len
  {
  }

  function PacketAt(b: Blob, frameId: u32, i: u16): Packet
    requires Sendable(b) && i < TotalPackets(|b.data|)
  {
    PacketsWithinBlob(|b.data|, i);
    var chunk := Chunk(b.data, i);
    Packet(Header(|chunk|, frameId, TotalPackets(|b.data|), i, b.kind, b.timestamp), chunk)
  }

  /** All packets of a blob, in sending order. */
  function PacketsOf(b: Blob, frameId: u32): (ps: seq<Packet>)
    requires Sendable(b)
    ensures |ps| == TotalPackets(|b.data|)
  {
    seq(TotalPackets(|b.data|), i requires 0 <= i < TotalPackets(|b.data|) => PacketAt(b, frameId, i))
  }

  function PacketBytes(p: Packet): seq<byte> {
    Encode(p.header) + p.payload
  }

  /** The bytes of a packet sequence on a stream. */
  function WireOf(ps: seq<Packet>): seq<byte> {
    if ps == [] then [] else PacketBytes(ps[0]) + WireOf(ps[1..])
  }

  /** The datagrams of a packet sequence, one packet each. */
  function Datagrams(ps: seq<Packet>): seq<seq<byte>> {
    seq(|ps|, i requires 0 <= i < |ps| => PacketBytes(ps[i]))
  }

  lemma {:induction false} WireOfConcat(a: seq<Packet>, b: seq<Packet>)
    ensures WireOf(a + b) == WireOf(a) + WireOf(b)
  {
    hide PacketBytes;
    if a == [] {
      assert a + b == b;
    } else {
      assert (a + b)[1..] == a[1..] + b;
      WireOfConcat(a[1..], b);
    }
  }

  /** What a connection takes of `bytes` when it takes `capacity` bytes and then fails. */
  function Taken(bytes: seq<byte>, capacity: nat): (t: seq<byte>)
    ensures t <= bytes && (t == bytes <==> |bytes| <= capacity)
  {
    if |bytes| <= capacity then bytes else bytes[..capacity]
  }

  lemma TakenFirst(a: seq<byte>, b: seq<byte>, capacity: nat)
    requires |a| > capacity
    ensures Taken(a + b, capacity) == Taken(a, capacity)
  {
  }

  lemma TakenBoth(a: seq<byte>, b: seq<byte>, capacity: nat)
    requires |a| <= capacity
    ensures Taken(a + b, capacity) == a + Taken(b, capacity - |a|)
  {
  }

  /** The board's own way to build a header: the same layout, and the checksum from the table. */
  method BoardHeader(h: Header) returns (raw: seq<byte>)
    ensures raw == Encode(h)
  {
    var covered := LittleEndian(MAGIC, 2) + LittleEndian(h.dataLen, 2) + LittleEndian(h.frameId, 4) +
                   LittleEndian(h.pkgCnt, 2) + LittleEndian(h.pkgId, 2) + LittleEndian(h.kind, 4) +
                   LittleEndian(h.timestamp, 8) + LittleEndian(0, 4) + LittleEndian(0, 2);
    var crc := CrcTable.Crc16Ccitt(covered);
    raw := covered + ChecksumBytes(crc);
  }

  /**
   The board's TCP sender: the frame counter, and of the present connection the bytes written so far and the number of
   bytes it will still take before it fails.
   */
  class TcpSender {
    var currentFrameId: u32
    var connected: bool
    var capacity: nat
    var wire: seq<byte>

    constructor (frameId: u32, capacity: nat)
      ensures currentFrameId == frameId && connected && this.capacity == capacity && wire == []
    {
      currentFrameId, connected, this.capacity, wire := frameId, true, capacity, [];
    }

    /** A new connection; the frame counter goes on. */
    method Reconnect(capacity: nat)
      requires !connected
      modifies this
      ensures connected && this.capacity == capacity && wire == [] && currentFrameId == old(currentFrameId)
    {
      connected, this.capacity, wire := true, capacity, [];
    }

    /** Each call of the library takes some of the bytes. */
    method TcpSendAll(bytes: seq<byte>) returns (ok: bool)
      modifies this`wire, this`capacity
      ensures ok == (|bytes| <= old(capacity))
      ensures wire == old(wire) + Taken(bytes, old(capacity))
      ensures capacity == old(capacity) - |Taken(bytes, old(capacity))|
    {
      var total := 0;
      while total < |bytes|
        invariant total <= |bytes| && capacity == old(capacity) - total
        invariant wire == old(wire) + bytes[..total]
      {
        if capacity == 0 {
          return false;
        }
        var sent: nat :| 1 <= sent <= |bytes| - total && sent <= capacity;
        wire := wire + bytes[total..total + sent];
        capacity := capacity - sent;
        total := total + sent;
      }
      ok := true;
    }

    method TcpSendPacket(header: seq<byte>, payload: seq<byte>) returns (ok: bool)
      modifies this`wire, this`capacity
      ensures var bytes := header + payload;
        ok == (|bytes| <= old(capacity)) && wire == old(wire) + Taken(bytes, old(capacity)) &&
        capacity == old(capacity) - |Taken(bytes, old(capacity))|
    {
      ghost var before := capacity;
      ok := TcpSendAll(header);
      if !ok {
        TakenFirst(header, payload, before);
        return;
      }
      TakenBoth(header, payload, before);
      if |payload| > 0 {
        ok := TcpSendAll(payload);
      }
    }

    /** The packets of a blob in order; after a failure nothing more is written. */
    method TcpSendFrame(b: Blob) returns (ok: bool)
      requires Sendable(b)
      modifies this`wire, this`capacity
      ensures var bytes := WireOf(PacketsOf(b, currentFrameId));
        ok == (|bytes| <= old(capacity)) && wire == old(wire) + Taken(bytes, old(capacity)) &&
        capacity == old(capacity) - |Taken(bytes, old(capacity))|
    {
      hide PacketBytes, Encode, Taken, WireOf;
      ghost var ps, room, id := PacketsOf(b, currentFrameId), capacity, currentFrameId;
      NoPacket();
      if |b.data| == 0 {
        assert ps == [];
        TakenAll([], room);
        return true;
      }
      var total := TotalPackets(|b.data|);
      assert ps[..0] == [];
      for i := 0 to total
        invariant currentFrameId == id
        invariant |WireOf(ps[..i])| <= room && capacity == room - |WireOf(ps[..i])|
        invariant wire == old(wire) + WireOf(ps[..i])
      {
        PacketsWithinBlob(|b.data|, i);
        var offset := i * CHUNK;
        var size := if |b.data| - offset > CHUNK then CHUNK else |b.data| - offset;
        var h := Header(size, currentFrameId, total, i, b.kind, b.timestamp);
        var header := BoardHeader(h);
        assert Packet(h, b.data[offset..offset + size]) == ps[i];
        PacketNext(ps, i, room);
        assert header + b.data[offset..offset + size] == PacketBytes(ps[i]) by { PacketBytesMeans(ps[i]); }
        ok := TcpSendPacket(header, b.data[offset..offset + size]);
        if !ok {
          return;
        }
        TakenAll(PacketBytes(ps[i]), room - |WireOf(ps[..i])|);
      }
      assert ps[..total] == ps;
      TakenAll(WireOf(ps), room);
      ok := true;
    }

    /** A send cycle: one frame; the counter moves on if all of it was written, otherwise the connection is lost. */
    method SendCycle(b: Blob) returns (ok: bool)
      requires Sendable(b) && connected
      modifies this
      ensures var bytes := WireOf(PacketsOf(b, old(currentFrameId)));
        ok == (|bytes| <= old(capacity)) && wire == old(wire) + Taken(bytes, old(capacity)) &&
        capacity == old(capacity) - |Taken(bytes, old(capacity))|
      ensures connected == ok
      ensures currentFrameId == if ok then (old(currentFrameId) + 1) % 0x1_0000_0000 else old(currentFrameId)
    {
      ok := TcpSendFrame(b);
      if ok {
        currentFrameId := (currentFrameId + 1) % 0x1_0000_0000;
      } else {
        connected := false;
      }
    }
  }

  lemma NoPacket()
    ensures WireOf([]) == []
  {
  }

  lemma TakenAll(bytes: seq<byte>, capacity: nat)
    requires |bytes| <= capacity
    ensures Taken(bytes, capacity) == bytes
  {
  }

  lemma PacketBytesMeans(p: Packet)
    ensures PacketBytes(p) == Encode(p.header) + p.payload
  {
  }

  /** Packet `i` in the stream: what is written with it, and what remains if the connection fails in it. */
  lemma PacketNext(ps: seq<Packet>, i: nat, room: nat)
    requires i < |ps| && |WireOf(ps[..i])| <= room
    ensures WireOf(ps[..i + 1]) == WireOf(ps[..i]) + PacketBytes(ps[i])
    ensures var left: nat := room - |WireOf(ps[..i])|;
      |PacketBytes(ps[i])| > left ==>
        Taken(WireOf(ps), room) == WireOf(ps[..i]) + Taken(PacketBytes(ps[i]), left) && |WireOf(ps)| > room
  {
    hide PacketBytes, Taken;
    var p, rest := ps[i], ps[i + 1..];
    assert ps[..i + 1] == ps[..i] + [p] && ps == ps[..i] + ([p] + rest);
    WireOfConcat(ps[..i], [p]);
    WireOfConcat(ps[..i], [p] + rest);
    assert ([p] + rest)[1..] == rest && [p][1..] == [];
    assert WireOf([p]) == PacketBytes(p) + [] == PacketBytes(p);
    assert WireOf([p] + rest) == PacketBytes(p) + WireOf(rest);
    TakenBoth(WireOf(ps[..i]), PacketBytes(p) + WireOf(rest), room);
    var left: nat := room - |WireOf(ps[..i])|;
    if |PacketBytes(p)| > left {
      TakenFirst(PacketBytes(p), WireOf(rest), left);
    }
  }

  /** The board's UDP sender: the frame counter and the datagrams handed to the socket so far. */
  class UdpSender {
    var currentFrameId: u32
    var datagrams: seq<seq<byte>>

    constructor ()
      ensures currentFrameId == 0 && datagrams == []
    {
      currentFrameId := 0;
      datagrams := [];
    }

    method UdpSendFrame(b: Blob)
      requires Sendable(b)
      modifies this
      ensures datagrams == old(datagrams) + Datagrams(PacketsOf(b, old(currentFrameId)))
      ensures currentFrameId == (old(currentFrameId) + 1) % 0x1_0000_0000
    {
      hide PacketBytes, Encode;
      ghost var ps := PacketsOf(b, currentFrameId);
      var total := TotalPackets(|b.data|);
      for i := 0 to total
        invariant currentFrameId == old(currentFrameId)
        invariant datagrams == old(datagrams) + Datagrams(ps[..i])
      {
        PacketsWithinBlob(|b.data|, i);
        var offset := i * CHUNK;
        var size := if |b.data| - offset > CHUNK then CHUNK else |b.data| - offset;
        var h := Header(size, currentFrameId, total, i, b.kind, b.timestamp);
        var header := BoardHeader(h);
        assert Packet(h, b.data[offset..offset + size]) == ps[i];
        PacketBytesMeans(ps[i]);
        assert Datagrams(ps[..i + 1]) == Datagrams(ps[..i]) + [PacketBytes(ps[i])];
        datagrams := datagrams + [header + b.data[offset..offset + size]];
      }
      assert ps[..total] == ps;
      currentFrameId := (currentFrameId + 1) % 0x1_0000_0000;
    }
  }

  // ---- Splitting and joining ----

  /** The payloads of the first `n` packets, joined. */
  function Joined(data: seq<byte>, n: nat): seq<byte>
    requires n == 0 || (n - 1) * CHUNK <= |data|
  {
    if n == 0 then [] else Joined(data, n - 1) + Chunk(data, n - 1)
  }

  lemma {:induction false} JoinedIsPrefix(data: seq<byte>, n: nat)
    requires n == 0 || (n - 1) * CHUNK <= |data|
    ensures Joined(data, n) == if n * CHUNK <= |data| then data[..n * CHUNK] else data
  {
    if n > 0 {
      JoinedIsPrefix(data, n - 1);
    }
  }

  /**
   Cutting and joining gives the blob back exactly when the blob fits 65535 packets: a longer one loses its
   tail to the 16-bit packet count.
   */
  lemma SplitJoin(b: Blob)
    requires Sendable(b)
    ensures var n := TotalPackets(|b.data|);
      (n > 0 ==> (n - 1) * CHUNK <= |b.data|) && (Joined(b.data, n) == b.data <==> |b.data| <= MAX_BLOB)
  {
    var n := TotalPackets(|b.data|);
    if n > 0 {
      PacketsWithinBlob(|b.data|, n - 1);
    }
    JoinedIsPrefix(b.data, n);
  }

  /**
   How many packets are sent for `len` bytes that fill `k` packets: that many, less the multiples of 65536 that the
   16-bit field loses; and none at all in the last 1399 lengths below 2^32, where rounding up wraps around.
   */
  lemma PacketCount(len: u32, k: nat)
    requires k * CHUNK >= len && (k == 0 || (k - 1) * CHUNK < len)
    ensures len <= 0xFFFF_FFFF - (CHUNK - 1) ==> TotalPackets(len) <= k && (k - TotalPackets(len)) % 0x1_0000 == 0
    ensures len > 0xFFFF_FFFF - (CHUNK - 1) ==> TotalPackets(len) == 0
  {
    assert (len + CHUNK - 1) / CHUNK == k;
  }
}
