/** Several connections one after the other: the sender reconnects after a failure, and the receiver starts afresh. */
module TcpSession {
  import opened Bytes
  import opened Frame
  import opened Packets
  import opened Reassembly
  import opened TcpEndToEnd
  import opened TcpStream

  /** One connection: the blobs waiting when it began, the frame counter, how many were written whole, and the bytes. */
  datatype Connection = Connection(waiting: seq<Blob>, counter: u32, sent: nat, wire: seq<byte>)

  /** What the sending thread wrote: everything, or everything up to a point within one of the blobs. */
  ghost predicate Written(c: Connection) {
    Carried(c.waiting) && c.sent <= |c.waiting| &&
    if c.sent == |c.waiting| then c.wire == WireOfBlobs(c.waiting, c.counter)
    else BrokenOff(c.wire, c.waiting, c.counter, c.sent)
  }

  /** The blob that broke off is given up; the next connection goes on behind it, with its frame id. */
  predicate Follows(c: Connection, d: Connection) {
    c.sent < |c.waiting| && d.waiting == c.waiting[c.sent + 1..] && d.counter == FrameId(c.counter + c.sent)
  }

  ghost predicate Session(cs: seq<Connection>) {
    (forall i | 0 <= i < |cs| :: Written(cs[i])) && forall i | 0 < i < |cs| :: Follows(cs[i - 1], cs[i])
  }

  lemma SmallFrameId(n: u32)
    ensures FrameId(n) == n
  {
  }

  /** The connections so far began with `blobs` at frame id `start`, and leave `waiting` at frame id `counter`. */
  ghost predicate Leads(cs: seq<Connection>, blobs: seq<Blob>, start: u32, waiting: seq<Blob>, counter: u32) {
    if cs == [] then waiting == blobs && counter == start
    else
      cs[0].waiting == blobs && cs[0].counter == start &&
      Follows(cs[|cs| - 1], Connection(waiting, counter, 0, []))
  }

  lemma OneMore(cs: seq<Connection>, c: Connection, blobs: seq<Blob>, start: u32)
    requires Session(cs) && Written(c) && Leads(cs, blobs, start, c.waiting, c.counter)
    ensures Session(cs + [c]) && (cs + [c])[0].waiting == blobs && (cs + [c])[0].counter == start
    ensures c.sent < |c.waiting| ==>
      Leads(cs + [c], blobs, start, c.waiting[c.sent + 1..], FrameId(c.counter + c.sent))
  {
    hide Written, FrameId;
    var r := cs + [c];
    forall i | 0 < i < |r| ensures Follows(r[i - 1], r[i]) {
      assert i == |cs| || (r[i] == cs[i] && r[i - 1] == cs[i - 1]);
    }
  }

  lemma RestCarried(waiting: seq<Blob>, sent: nat)
    requires Carried(waiting) && sent < |waiting|
    ensures Carried(waiting[sent + 1..])
  {
  }

  lemma BreaksWithin(bytes: seq<byte>, blobs: seq<Blob>, n: nat, sent: nat)
    requires Carried(blobs) && BrokenOff(bytes, blobs, n, sent)
    ensures sent < |blobs|
  {
  }

  /** One connection of the sending thread. */
  method SendConnection(sender: TcpSender, waiting: seq<Blob>, capacity: nat) returns (sent: nat, ghost c: Connection)
    requires Carried(waiting) && !sender.connected
    modifies sender
    ensures Written(c) && c.waiting == waiting && c.counter == old(sender.currentFrameId) && c.sent == sent
    ensures sender.currentFrameId == FrameId(c.counter + sent)
    ensures if sender.connected then sent == |waiting| else sent < |waiting|
  {
    hide WireOfBlobs, FrameId, BrokenOff, Carried;
    ghost var counter := sender.currentFrameId;
    sender.Reconnect(capacity);
    SmallFrameId(counter);
    sent := SendBlobs(sender, waiting, counter);
    c := Connection(waiting, counter, sent, sender.wire);
    if !sender.connected {
      BreaksWithin(sender.wire, waiting, counter, sent);
    }
  }

  /** The sending thread over connections that take `capacities` bytes each, until all blobs are dealt with. */
  method SendSession(sender: TcpSender, blobs: seq<Blob>, capacities: seq<nat>) returns (ghost cs: seq<Connection>)
    requires Carried(blobs) && !sender.connected
    modifies sender
    ensures Session(cs) && |cs| <= |capacities| && (cs == [] ==> capacities == [])
    ensures cs != [] ==> cs[0].waiting == blobs && cs[0].counter == old(sender.currentFrameId)
    ensures |cs| < |capacities| ==> cs != [] && cs[|cs| - 1].sent == |cs[|cs| - 1].waiting|
  {
    hide Session, Leads, Written, FrameId, Carried;
    cs := [];
    NoConnection(blobs, sender.currentFrameId);
    var waiting := blobs;
    for i := 0 to |capacities|
      invariant Session(cs) && |cs| == i && Carried(waiting) && !sender.connected
      invariant Leads(cs, blobs, old(sender.currentFrameId), waiting, sender.currentFrameId)
      invariant cs != [] ==> cs[0].waiting == blobs && cs[0].counter == old(sender.currentFrameId)
    {
      var sent, c := SendConnection(sender, waiting, capacities[i]);
      OneMore(cs, c, blobs, old(sender.currentFrameId));
      cs := cs + [c];
      if sender.connected {
        return;
      }
      RestCarried(waiting, sent);
      waiting := waiting[sent + 1..];
    }
  }

  lemma NoConnection(blobs: seq<Blob>, start: u32)
    ensures Session([]) && Leads([], blobs, start, blobs, start)
  {
  }

  // ---- What arrives ----

  /** The receiver over several connections: each starts from nothing but what was dispatched. */
  function ReceiveSession(out: seq<Dispatch>, arrivals: seq<seq<seq<byte>>>): seq<Dispatch> {
    if arrivals == [] then out
    else
      var k := |arrivals| - 1;
      FeedAll(Stream([], FRESH.(out := ReceiveSession(out, arrivals[..k]))), arrivals[k]).rx.out
  }

  /** The blobs dispatched when the first `got[i]` blobs of connection `i` have arrived whole. */
  function Dispatched(cs: seq<Connection>, got: seq<nat>): seq<Dispatch>
    requires |got| == |cs| && forall i | 0 <= i < |cs| :: got[i] <= |cs[i].waiting|
  {
    if cs == [] then []
    else
      var k := |cs| - 1;
      Dispatched(cs[..k], got[..k]) + Expected(cs[k].waiting[..got[k]], cs[k].counter)
  }

  lemma WireGrows(blobs: seq<Blob>, i: nat, j: nat, n: nat)
    requires Carried(blobs) && i <= j <= |blobs|
    ensures Carried(blobs[..i]) && Carried(blobs[..j])
    ensures WireOfBlobs(blobs[..i], n) <= WireOfBlobs(blobs[..j], n)
  {
    assert blobs[..j] == blobs[..i] + blobs[i..j];
    WireOfBlobsConcat(blobs[..i], blobs[i..j], n);
    hide WireOfBlobs;
  }

  /** What breaks off in blob `sent` is shorter than the first `sent + 1` blobs, and part of all of them. */
  lemma BrokenOffIsPart(bytes: seq<byte>, blobs: seq<Blob>, n: nat, sent: nat)
    requires Carried(blobs) && BrokenOff(bytes, blobs, n, sent)
    ensures |WireOfBlobs(blobs[..sent], n)| <= |bytes| < |WireOfBlobs(blobs[..sent + 1], n)|
    ensures bytes < WireOfBlobs(blobs, n)
  {
    hide WireOfBlobs, WireOf, PacketsOf, FrameId;
    var part :| PartOf(part, blobs[sent], FrameId(n + sent)) && bytes == WireOfBlobs(blobs[..sent], n) + part;
    WireOfOneMore(blobs, sent, n);
    WireGrows(blobs, sent + 1, |blobs|, n);
    assert blobs[..|blobs|] == blobs;
    PrefixBehind(WireOfBlobs(blobs[..sent], n), part, WireOf(PacketsOf(blobs[sent], FrameId(n + sent))));
  }

  lemma PrefixBehind(a: seq<byte>, p: seq<byte>, b: seq<byte>)
    requires p < b
    ensures a + p < a + b
  {
  }

  lemma ProperPart(a: seq<byte>, b: seq<byte>, c: seq<byte>)
    requires a <= b <= c && a != b
    ensures a < c
  {
  }

  /** One connection: the blobs that arrive whole are dispatched, and no more of them than were written whole. */
  lemma ConnectionDelivers(c: Connection, out: seq<Dispatch>, pieces: seq<seq<byte>>) returns (got: nat)
    requires Written(c) && Flatten(pieces) <= c.wire
    ensures got <= c.sent && (Flatten(pieces) == c.wire ==> got == c.sent)
    ensures FeedAll(Stream([], FRESH.(out := out)), pieces).rx.out == out + Expected(c.waiting[..got], c.counter)
  {
    hide FeedAll, Flatten, WireOfBlobs, Expected, BrokenOff;
    if Flatten(pieces) == c.wire {
      got := c.sent;
      if c.sent == |c.waiting| {
        assert c.waiting[..got] == c.waiting;
        EndToEnd(out, c.waiting, c.counter, pieces);
      } else {
        FailingConnection(out, c.waiting, c.counter, c.sent, pieces);
      }
    } else {
      if c.sent < |c.waiting| {
        BrokenOffIsPart(c.wire, c.waiting, c.counter, c.sent);
      }
      ProperPart(Flatten(pieces), c.wire, WireOfBlobs(c.waiting, c.counter));
      got := PartBreaksOff(Flatten(pieces), c.waiting, c.counter);
      BreaksWithin(Flatten(pieces), c.waiting, c.counter, got);
      BrokenOffIsPart(Flatten(pieces), c.waiting, c.counter, got);
      FailingConnection(out, c.waiting, c.counter, got, pieces);
      if c.sent < got {
        WireGrows(c.waiting, c.sent + 1, got, c.counter);
      }
    }
  }

  /**
   Over any number of connections, each failing anywhere, and however much of what was written on each of them arrives
   in whatever pieces: the receiver dispatches, in order, on each connection a first part of the blobs written whole
   there, and all of them if all its bytes arrive.
   */
  lemma {:induction false} SessionDelivers(cs: seq<Connection>, out: seq<Dispatch>, arrivals: seq<seq<seq<byte>>>)
      returns (got: seq<nat>)
    requires |arrivals| == |cs| && forall i | 0 <= i < |cs| :: Written(cs[i]) && Flatten(arrivals[i]) <= cs[i].wire
    ensures |got| == |cs| && forall i | 0 <= i < |cs| ::
      got[i] <= cs[i].sent <= |cs[i].waiting| && (Flatten(arrivals[i]) == cs[i].wire ==> got[i] == cs[i].sent)
    ensures ReceiveSession(out, arrivals) == out + Dispatched(cs, got)
    decreases |cs|
  {
    hide FeedAll, Flatten, WireOfBlobs, Expected, BrokenOff;
    if cs == [] {
      got := [];
    } else {
      var k := |cs| - 1;
      var before := SessionDelivers(cs[..k], out, arrivals[..k]);
      var last := ConnectionDelivers(cs[k], ReceiveSession(out, arrivals[..k]), arrivals[k]);
      got := before + [last];
      assert got[..k] == before;
    }
  }

  // ---- The wrap ----

  /** Of two blobs sent when the frame counter stands at its last value, only the first arrives. */
  lemma WrapLosesBlobs(a: Blob, b: Blob, pieces: seq<seq<byte>>)
    requires Carried([a, b]) && Flatten(pieces) == WireOfBlobs([a, b], WRAP - 1)
    ensures FeedAll(Stream([], FRESH), pieces).rx.out == [Dispatch(WRAP - 1, a.kind, a.timestamp, a.data)]
  {
    hide FeedAll, Flatten, WireOfBlobs;
    EndToEnd([], [a, b], WRAP - 1, pieces);
    assert FRESH.(out := []) == FRESH;
    assert [a, b][1..] == [b] && [b][1..] == [];
    assert Expected([b], WRAP) == [];
  }
}
