/**
 Datagrams that are shorter or longer than their header announces: the desktop drops a cut one, the Python receiver
 takes it for whole; both ignore what stands behind the payload.
 */
module CutDatagrams {
  import opened Bytes
  import opened Frame
  import opened Packets
  import PyReceiver
  import Reassembly
  import TcpEndToEnd
  import UdpReceiver

  lemma CutHeader(p: Packet, n: nat)
    requires TcpEndToEnd.WellFormed(p) && HEADER_SIZE <= n <= |PacketBytes(p)|
    ensures var raw := PacketBytes(p)[..n];
      ValidHeader(raw) && Decode(raw) == p.header && raw[HEADER_SIZE..] == p.payload[..n - HEADER_SIZE]
  {
    hide ValidHeader, Decode, Encode;
    var payload := p.payload[..n - HEADER_SIZE];
    HeaderRoundTrip(p.header, payload);
    assert PacketBytes(p)[..n] == Encode(p.header) + payload;
  }

  /** The desktop drops every datagram that was cut, wherever. */
  lemma DesktopDropsCut(rx: Reassembly.Rx, p: Packet, n: nat)
    requires TcpEndToEnd.WellFormed(p) && n < |PacketBytes(p)|
    ensures UdpReceiver.Receive(rx, PacketBytes(p)[..n]) == rx
  {
    hide ValidHeader, Decode, Encode;
    if n >= HEADER_SIZE {
      CutHeader(p, n);
    }
  }

  lemma OnePiece(payload: seq<byte>)
    ensures PyReceiver.AllArrived([Some(payload)]) && PyReceiver.JoinPkgs([Some(payload)]) == payload
  {
    assert [Some(payload)][..0] == [];
    assert PyReceiver.JoinPkgs([]) == [];
  }

  /**
   The Python receiver drops it only if the header was cut. Otherwise what is left of the payload is taken for all of
   it: the only packet of a newer image, cut behind its header, is shown as the image.
   */
  lemma PythonShowsCut(py: PyReceiver.Py, b: Blob, id: u32, n: nat)
    requires 0 < |b.data| <= CHUNK && b.kind == PyReceiver.IMAGE && py.maxId < id
    requires n <= HEADER_SIZE + |b.data|
    ensures TotalPackets(|b.data|) == 1
    ensures var raw := PacketBytes(PacketAt(b, id, 0))[..n];
      var r := PyReceiver.OnDatagram(py, raw);
      var done := PyReceiver.OnDrained(r, PyReceiver.Shown).done;
      if n < HEADER_SIZE then r == py
      else done == py.done + [PyReceiver.Completed(id, b.data[..n - HEADER_SIZE])]
  {
    hide ValidHeader, Decode, Encode;
    var p := PacketAt(b, id, 0);
    if n >= HEADER_SIZE {
      CutHeader(p, n);
      var payload := b.data[..n - HEADER_SIZE];
      var raw := PacketBytes(p)[..n];
      var r := PyReceiver.OnDatagram(py, raw);
      assert p.payload == b.data && PyReceiver.PayloadOf(raw, p.header) == payload;
      assert r.frames[id].pkgs == [Some(payload)];
      OnePiece(payload);
    }
  }

  /** Neither receiver looks at what stands behind the payload. */
  lemma RestIgnored(rx: Reassembly.Rx, py: PyReceiver.Py, p: Packet, rest: seq<byte>)
    requires TcpEndToEnd.WellFormed(p)
    ensures UdpReceiver.Receive(rx, PacketBytes(p) + rest) == Reassembly.Accept(rx, p.header, p.payload)
    ensures PyReceiver.OnDatagram(py, PacketBytes(p) + rest) == PyReceiver.OnDatagram(py, PacketBytes(p))
  {
    hide ValidHeader, Decode, Encode, Reassembly.Accept, PyReceiver.Store, PyReceiver.Advance;
    var raw := PacketBytes(p) + rest;
    HeaderRoundTrip(p.header, p.payload + rest);
    HeaderRoundTrip(p.header, p.payload);
    assert raw == Encode(p.header) + (p.payload + rest);
    assert raw[HEADER_SIZE..HEADER_SIZE + |p.payload|] == p.payload;
    assert PacketBytes(p)[HEADER_SIZE..HEADER_SIZE + |p.payload|] == p.payload;
    assert PacketBytes(p)[HEADER_SIZE..] == p.payload;
  }
}
