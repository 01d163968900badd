/** The desktop's TCP receiver: frames in a byte stream that arrives in arbitrary pieces. */
module TcpStream {
  import opened Bytes
  import opened Frame
  import opened Reassembly

  /** The unread bytes and the reassembly state. */
  datatype Stream = Stream(buffer: seq<byte>, rx: Rx)

  /** The header at the front of the buffer is complete and its payload has arrived. */
  predicate PacketReady(buffer: seq<byte>) {
    |buffer| >= HEADER_SIZE && ValidHeader(buffer) && |buffer| >= HEADER_SIZE + Decode(buffer).dataLen
  }

  /** One round of the parsing loop on a buffer that starts with a ready packet. */
  function TakePacket(s: Stream): (r: Stream)
    requires PacketReady(s.buffer)
    ensures |r.buffer| < |s.buffer|
  {
    var h := Decode(s.buffer);
    var end := HEADER_SIZE + h.dataLen;
    Stream(s.buffer[end..], Accept(s.rx, h, s.buffer[HEADER_SIZE..end]))
  }

  /** The parsing loop, run until it stops. */
  function Drain(s: Stream): Stream
    decreases |s.buffer|
  {
    if |s.buffer| < HEADER_SIZE then s
    else if !ValidHeader(s.buffer) then Drain(s.(buffer := s.buffer[1..]))
    else if !PacketReady(s.buffer) then s
    else Drain(TakePacket(s))
  }

  function Feed(s: Stream, bytes: seq<byte>): Stream {
    Drain(s.(buffer := s.buffer + bytes))
  }

  function FeedAll(s: Stream, pieces: seq<seq<byte>>): Stream
    decreases |pieces|
  {
    if pieces == [] then s else FeedAll(Feed(s, pieces[0]), pieces[1..])
  }

  function Flatten(pieces: seq<seq<byte>>): seq<byte> {
    if pieces == [] then [] else pieces[0] + Flatten(pieces[1..])
  }

  /** The receiver object: the stream buffer beside its reassembly state. */
  class TcpControlWorker {
    var buffer: seq<byte>
    const frames: Reassembler

    function State(): Stream
      reads this, frames
    {
      Stream(buffer, frames.State())
    }

    constructor ()
      ensures fresh(frames) && State() == Stream([], FRESH)
    {
      buffer := [];
      frames := new Reassembler();
    }

    method OnNewConnection()
      modifies this, frames
      ensures State() == Stream([], FRESH.(out := old(State()).rx.out))
    {
      buffer := [];
      frames.Reset();
    }

    method OnReadyRead(bytes: seq<byte>)
      modifies this, frames
      ensures State() == Feed(old(State()), bytes)
    {
      buffer := buffer + bytes;
      ProcessBuffer();
    }

    method ProcessBuffer()
      modifies this, frames
      ensures State() == Drain(old(State()))
    {
      while |buffer| >= HEADER_SIZE
        invariant Drain(State()) == Drain(old(State()))
        decreases |buffer|
      {
        var valid := ValidateFrameHeader(buffer);
        if !valid {
          buffer := buffer[1..];
          continue;
        }
        var h := Decode(buffer);
        if |buffer| < HEADER_SIZE + h.dataLen {
          break;
        }
        var payload := buffer[HEADER_SIZE..HEADER_SIZE + h.dataLen];
        ghost var before := State();
        buffer := buffer[HEADER_SIZE + h.dataLen..];
        frames.AcceptPacket(h, payload);
        assert State() == TakePacket(before);
      }
    }
  }

  // ---- Independence of the cuts ----

  /** A header is judged on its own bytes: more input behind it changes nothing. */
  lemma HeaderPrefix(buffer: seq<byte>, more: seq<byte>)
    requires |buffer| >= HEADER_SIZE
    ensures ValidHeader(buffer + more) == ValidHeader(buffer)
    ensures Decode(buffer + more) == Decode(buffer)
  {
    var all := buffer + more;
    assert all[..HEADER_SIZE] == buffer[..HEADER_SIZE];
    assert all[0..2] == buffer[0..2];
    assert all[2..4] == buffer[2..4];
    assert all[4..8] == buffer[4..8];
    assert all[8..10] == buffer[8..10];
    assert all[10..12] == buffer[10..12];
    assert all[12..16] == buffer[12..16];
    assert all[16..24] == buffer[16..24];
  }

  /** Draining early does not matter: the rest of the input finishes the job. */
  lemma {:induction false} DrainThenMore(s: Stream, more: seq<byte>)
    ensures Feed(Drain(s), more) == Feed(s, more)
    decreases |s.buffer|
  {
    hide ValidHeader, Decode, Accept;
    if |s.buffer| >= HEADER_SIZE {
      HeaderPrefix(s.buffer, more);
      var all := s.(buffer := s.buffer + more);
      if !ValidHeader(s.buffer) {
        var next := s.(buffer := s.buffer[1..]);
        DrainThenMore(next, more);
        assert all.buffer[1..] == next.buffer + more;
      } else if PacketReady(s.buffer) {
        var next := TakePacket(s);
        DrainThenMore(next, more);
        TakePacketThenMore(s, more);
      }
    }
  }

  lemma TakePacketThenMore(s: Stream, more: seq<byte>)
    requires PacketReady(s.buffer)
    ensures var all := s.(buffer := s.buffer + more);
      PacketReady(all.buffer) && TakePacket(all) == TakePacket(s).(buffer := TakePacket(s).buffer + more)
  {
    hide ValidHeader, Decode, Accept;
    HeaderPrefix(s.buffer, more);
    var all := s.buffer + more;
    var end := HEADER_SIZE + Decode(s.buffer).dataLen;
    assert all[end..] == s.buffer[end..] + more;
    assert all[HEADER_SIZE..end] == s.buffer[HEADER_SIZE..end];
  }

  /** However the stream is cut into reads, the outcome is that of one read of the whole. */
  lemma {:induction false} ChunkingIndependence(s: Stream, pieces: seq<seq<byte>>)
    requires Drain(s) == s
    ensures FeedAll(s, pieces) == Feed(s, Flatten(pieces))
    decreases |pieces|
  {
    hide Drain;
    if pieces == [] {
      assert s.buffer + [] == s.buffer;
    } else {
      var first, rest := pieces[0], Flatten(pieces[1..]);
      var joined := s.(buffer := s.buffer + first);
      DrainTwice(joined);
      ChunkingIndependence(Feed(s, first), pieces[1..]);
      DrainThenMore(joined, rest);
      assert joined.buffer + rest == s.buffer + Flatten(pieces);
    }
  }

  lemma DrainTwice(s: Stream)
    ensures Drain(Drain(s)) == Drain(s)
  {
    hide Drain;
    DrainThenMore(s, []);
    assert s.buffer + [] == s.buffer;
    assert Drain(s).buffer + [] == Drain(s).buffer;
  }

  // ---- Resynchronisation ----

  /** No header starts inside the first `n` bytes. */
  ghost predicate NoHeaderBefore(buffer: seq<byte>, n: nat) {
    n <= |buffer| && forall k | 0 <= k < n && k + HEADER_SIZE <= |buffer| :: !ValidHeader(buffer[k..])
  }

  /**
   Garbage in which no header starts is skipped: the frames dispatched are those of the stream behind it, and
   so is the final state unless the stream is too short to hold a header.
   */
  lemma {:induction false} Resynchronise(rx: Rx, garbage: seq<byte>, stream: seq<byte>)
    requires NoHeaderBefore(garbage + stream, |garbage|)
    ensures Drain(Stream(garbage + stream, rx)).rx == Drain(Stream(stream, rx)).rx
    ensures |stream| >= HEADER_SIZE - 1 ==> Drain(Stream(garbage + stream, rx)) == Drain(Stream(stream, rx))
    decreases |garbage|
  {
    hide ValidHeader, Accept;
    var all := garbage + stream;
    if garbage == [] {
      assert all == stream;
    } else if |all| >= HEADER_SIZE {
      assert all[0..] == all;
      assert all[1..] == garbage[1..] + stream;
      forall k | 0 <= k < |garbage| - 1 && k + HEADER_SIZE <= |all| - 1
        ensures !ValidHeader(all[1..][k..])
      {
        assert all[1..][k..] == all[k + 1..];
      }
      Resynchronise(rx, garbage[1..], stream);
    }
  }
}
