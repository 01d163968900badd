/**
 Exactly when the desktop's UDP receiver dispatches a frame, and how often, over every run: whatever is lost, repeated,
 reordered or evicted.
 */
module UdpDispatch {
  import opened Bytes
  import opened Frame
  import opened Packets
  import opened Reassembly
  import TcpEndToEnd
  import opened UdpReceiver

  function Count(sent: Sent, id: u32): (n: u16)
    requires HonestSender(sent) && id in sent
    ensures n > 0
  {
    TotalPackets(|sent[id].data|)
  }

  /** Every datagram comes from the sender or is dropped. */
  ghost predicate Network(sent: Sent, ds: seq<seq<byte>>)
    requires HonestSender(sent)
  {
    forall k | 0 <= k < |ds| :: OnNetwork(sent, ds[k])
  }

  // ---- One packet ----

  /** The packets of frame `id` that are stored. */
  function Have(rx: Rx, id: u32): set<u16> {
    FramesOf(rx.frames, id).Keys
  }

  /** What is left of frame `id` once a packet of frame `current` has made room. */
  function Cleaned(rx: Rx, current: u32, id: u32): set<u16> {
    if |rx.frames| > 3 && Expired(id, current) then {} else Have(rx, id)
  }

  /** `rx'` has dispatched frame `id` in addition. */
  predicate Emitted(rx: Rx, rx': Rx, id: u32) {
    |rx'.out| == |rx.out| + 1 && rx'.out[..|rx.out|] == rx.out && rx'.out[|rx.out|].frameId == id && rx'.last == id
  }

  predicate Silent(rx: Rx, rx': Rx) {
    rx'.out == rx.out && rx'.last == rx.last
  }

  lemma CleanedFrames(rx: Rx, current: u32, id: u32)
    ensures FramesOf(CleanExpired(rx.frames, current), id).Keys == Cleaned(rx, current, id)
  {
    hide Expired;
  }

  lemma AcceptOnly(rx: Rx, h: Header, payload: seq<byte>, x: u32)
    requires !Stale(rx, h.frameId) && h.pkgCnt == 1
    ensures var rx' := Accept(rx, h, payload);
      Emitted(rx, rx', h.frameId) && Have(rx', x) == Cleaned(rx, h.frameId, x)
  {
    hide CleanExpired, FramesOf, Cleaned;
    CleanedFrames(rx, h.frameId, x);
  }

  lemma AcceptOneOfMany(rx: Rx, h: Header, payload: seq<byte>, x: u32)
    requires !Stale(rx, h.frameId) && h.pkgCnt > 1
    ensures var rx' := Accept(rx, h, payload);
      var keys := Cleaned(rx, h.frameId, h.frameId) + {h.pkgId};
      if |keys| == h.pkgCnt then
        Emitted(rx, rx', h.frameId) && Have(rx', x) == if x == h.frameId then {} else Cleaned(rx, h.frameId, x)
      else
        Silent(rx, rx') && Have(rx', x) == if x == h.frameId then keys else Cleaned(rx, h.frameId, x)
  {
    hide CleanExpired, Cleaned, Join;
    CleanedFrames(rx, h.frameId, x);
    CleanedFrames(rx, h.frameId, h.frameId);
    var pkgs := FramesOf(CleanExpired(rx.frames, h.frameId), h.frameId)[h.pkgId := payload];
    assert pkgs.Keys == Cleaned(rx, h.frameId, h.frameId) + {h.pkgId};
    assert |pkgs| == |pkgs.Keys|;
  }

  /** What is stored of a frame is never the whole frame. */
  ghost predicate Incomplete(sent: Sent, rx: Rx)
    requires HonestSender(sent)
  {
    forall id: u32 | Have(rx, id) != {} :: id in sent && Have(rx, id) < Below(Count(sent, id))
  }

  lemma AllOfThem(keys: set<u16>, i: u16, n: u16)
    requires keys <= Below(n) && i < n
    ensures |keys + {i}| == n <==> keys + {i} == Below(n)
    ensures keys + {i} <= Below(n)
  {
    if |keys + {i}| == n {
      SubsetOfSameSize(keys + {i}, Below(n));
    }
  }

  lemma OnlyOne(keys: set<u16>)
    requires keys < Below(1)
    ensures keys + {0} == Below(1)
  {
    assert keys == {};
  }

  lemma StoredOfFrame(sent: Sent, rx: Rx, current: u32, id: u32)
    requires HonestSender(sent) && Incomplete(sent, rx) && id in sent
    ensures Cleaned(rx, current, id) < Below(Count(sent, id))
  {
    assert 0 in Below(Count(sent, id));
  }

  /**
   A packet of a frame that is not stale: the frame is dispatched exactly if this was the missing packet, and what is
   stored of any frame `x` afterwards.
   */
  lemma PacketStep(sent: Sent, rx: Rx, p: Packet, id: u32, i: u16, x: u32)
    requires HonestSender(sent) && id in sent && i < Count(sent, id) && p == PacketAt(sent[id], id, i)
    requires Incomplete(sent, rx) && !Stale(rx, id)
    ensures var rx' := Accept(rx, p.header, p.payload);
      var keys := Cleaned(rx, id, id) + {i};
      if keys == Below(Count(sent, id)) then
        Emitted(rx, rx', id) && Have(rx', x) == if x == id then {} else Cleaned(rx, id, x)
      else
        Silent(rx, rx') && keys < Below(Count(sent, id)) &&
        Have(rx', x) == if x == id then keys else Cleaned(rx, id, x)
  {
    hide Accept, Incomplete, Cleaned, Below, Chunk, TotalPackets, Have, Emitted, Silent;
    var n := Count(sent, id);
    StoredOfFrame(sent, rx, id, id);
    AllOfThem(Cleaned(rx, id, id), i, n);
    if n == 1 {
      OnlyOne(Cleaned(rx, id, id));
      NothingOfOne(Cleaned(rx, id, id));
      AcceptOnly(rx, p.header, p.payload, x);
    } else {
      AcceptOneOfMany(rx, p.header, p.payload, x);
    }
  }

  lemma NothingOfOne(keys: set<u16>)
    requires keys < Below(1)
    ensures keys == {}
  {
  }

  // ---- One datagram ----

  /** Handling `raw` evicts what is stored of frame `id`. */
  predicate Evicts(rx: Rx, raw: seq<byte>, id: u32) {
    Acceptable(raw) && !Stale(rx, Decode(raw).frameId) && |rx.frames| > 3 && Expired(id, Decode(raw).frameId)
  }

  function Kept(rx: Rx, raw: seq<byte>, id: u32): set<u16> {
    if Evicts(rx, raw, id) then {} else Have(rx, id)
  }

  /** The packet of frame `id` that `raw` carries, if it does. */
  function ArrivalOf(raw: seq<byte>, id: u32): set<u16> {
    if Acceptable(raw) && Decode(raw).frameId == id then {Decode(raw).pkgId} else {}
  }

  /** Handling `raw` dispatches frame `id`. */
  predicate Dispatches(rx: Rx, raw: seq<byte>, id: u32) {
    var out := Receive(rx, raw).out;
    |out| == |rx.out| + 1 && out[|rx.out|].frameId == id
  }

  /** A datagram is a packet of the sender, or it changes nothing. */
  lemma ReceiveMeans(sent: Sent, rx: Rx, raw: seq<byte>) returns (id: u32, i: u16)
    requires HonestSender(sent) && OnNetwork(sent, raw)
    ensures !Acceptable(raw) ==> Receive(rx, raw) == rx
    ensures Acceptable(raw) ==>
      id in sent && i < Count(sent, id) && Decode(raw).frameId == id && Decode(raw).pkgId == i &&
      (if Stale(rx, id) then Receive(rx, raw) == rx
       else var p := PacketAt(sent[id], id, i); Receive(rx, raw) == Accept(rx, p.header, p.payload))
  {
    hide ValidHeader, Decode, PacketBytes, CleanExpired, Join, Chunk;
    id, i := 0, 0;
    if Acceptable(raw) {
      id, i :| IsPacket(sent, raw, id, i);
      ReceivedPacket(sent, raw, id, i);
    }
  }

  lemma DispatchesMeans(rx: Rx, raw: seq<byte>, c: u32, id: u32)
    ensures Emitted(rx, Receive(rx, raw), c) ==> (Dispatches(rx, raw, id) <==> id == c)
    ensures Silent(rx, Receive(rx, raw)) ==> !Dispatches(rx, raw, id)
  {
    hide Receive;
  }

  /**
   What one datagram does to a frame that is not stale: it is dispatched exactly if this was the missing packet, and
   otherwise the packet is stored with those that were not evicted.
   */
  lemma HaveNext(sent: Sent, rx: Rx, raw: seq<byte>, id: u32)
    requires HonestSender(sent) && OnNetwork(sent, raw) && Incomplete(sent, rx) && !Stale(rx, id) && id in sent
    ensures Dispatches(rx, raw, id) <==>
      (Acceptable(raw) && Decode(raw).frameId == id && Kept(rx, raw, id) + ArrivalOf(raw, id) == Below(Count(sent, id)))
    ensures Have(Receive(rx, raw), id) ==
      if Dispatches(rx, raw, id) then {} else Kept(rx, raw, id) + ArrivalOf(raw, id)
  {
    hide Acceptable, Receive, Decode, Accept, Have, Below, PacketAt, Incomplete, Stale, Expired, TotalPackets;
    hide Emitted, Dispatches;
    var c, i := ReceiveMeans(sent, rx, raw);
    DispatchesMeans(rx, raw, c, id);
    if Acceptable(raw) && !Stale(rx, c) {
      PacketStep(sent, rx, PacketAt(sent[c], c, i), c, i, id);
    }
  }

  /** What one datagram keeps, whatever it is. */
  lemma StepKeeps(sent: Sent, rx: Rx, raw: seq<byte>, x: u32)
    requires HonestSender(sent) && OnNetwork(sent, raw) && Incomplete(sent, rx)
    ensures rx.last <= Receive(rx, raw).last || rx.last == 0
    ensures Receive(rx, raw).out == rx.out ||
      (|Receive(rx, raw).out| == |rx.out| + 1 && Receive(rx, raw).out[..|rx.out|] == rx.out)
    ensures Dispatches(rx, raw, x) ==> !Stale(rx, x) && x in sent && Have(Receive(rx, raw), x) == {}
    ensures Have(Receive(rx, raw), x) != {} ==> x in sent && Have(Receive(rx, raw), x) < Below(Count(sent, x))
  {
    hide Acceptable, Receive, Decode, Accept, Have, Below, PacketAt, Expired, TotalPackets;
    var c, i := ReceiveMeans(sent, rx, raw);
    if Acceptable(raw) && !Stale(rx, c) {
      PacketStep(sent, rx, PacketAt(sent[c], c, i), c, i, x);
    }
  }

  lemma StepKeepsIncomplete(sent: Sent, rx: Rx, raw: seq<byte>)
    requires HonestSender(sent) && OnNetwork(sent, raw) && Incomplete(sent, rx)
    ensures Incomplete(sent, Receive(rx, raw))
  {
    hide Acceptable, Receive, Have, Below, Count, Dispatches;
    forall x: u32 | Have(Receive(rx, raw), x) != {}
      ensures x in sent && Have(Receive(rx, raw), x) < Below(Count(sent, x))
    {
      StepKeeps(sent, rx, raw, x);
    }
  }

  // ---- Runs ----

  /** The state after the first `k` datagrams. */
  function At(ds: seq<seq<byte>>, k: nat): Rx
    requires k <= |ds|
  {
    ReceiveAll(FRESH, ds[..k])
  }

  lemma AtNext(ds: seq<seq<byte>>, k: nat)
    requires k < |ds|
    ensures At(ds, k + 1) == Receive(At(ds, k), ds[k])
  {
    hide Receive;
    assert ds[..k + 1][..k] == ds[..k];
  }

  lemma AtStart(ds: seq<seq<byte>>)
    ensures At(ds, 0) == FRESH && At(ds, |ds|) == ReceiveAll(FRESH, ds)
  {
    assert ds[..0] == [] && ds[..|ds|] == ds;
  }

  /** Datagram `k` makes the receiver dispatch frame `id`. */
  predicate DispatchedAt(ds: seq<seq<byte>>, k: nat, id: u32) {
    k < |ds| && Dispatches(At(ds, k), ds[k], id)
  }

  lemma {:induction false} AlwaysIncomplete(sent: Sent, ds: seq<seq<byte>>, k: nat)
    requires HonestSender(sent) && Network(sent, ds) && k <= |ds|
    ensures Incomplete(sent, At(ds, k))
  {
    hide Receive, At, Count, OnNetwork;
    if k == 0 {
      AtStart(ds);
    } else {
      AlwaysIncomplete(sent, ds, k - 1);
      AtNext(ds, k - 1);
      hide Incomplete;
      StepKeepsIncomplete(sent, At(ds, k - 1), ds[k - 1]);
    }
  }

  /** A frame that has become stale stays so. */
  lemma {:induction false} StaysStale(sent: Sent, ds: seq<seq<byte>>, j: nat, k: nat, id: u32)
    requires HonestSender(sent) && Network(sent, ds) && j <= k <= |ds| && Stale(At(ds, j), id)
    ensures Stale(At(ds, k), id)
    decreases k
  {
    hide Receive, At, Incomplete, OnNetwork;
    if j < k {
      StaysStale(sent, ds, j, k - 1, id);
      AlwaysIncomplete(sent, ds, k - 1);
      AtNext(ds, k - 1);
      StepKeeps(sent, At(ds, k - 1), ds[k - 1], id);
    }
  }

  /** The packets of frame `id` among the datagrams from `s` up to `t`. */
  function Arrivals(ds: seq<seq<byte>>, s: nat, t: nat, id: u32): set<u16>
    requires t <= |ds|
  {
    if t <= s then {} else Arrivals(ds, s, t - 1, id) + ArrivalOf(ds[t - 1], id)
  }

  /** From `s` up to `t` frame `id` is not stale, and nothing of it that arrives there is evicted before `t`. */
  ghost predicate Undisturbed(ds: seq<seq<byte>>, s: nat, t: nat, id: u32) {
    s <= t <= |ds| &&
    (forall k | s <= k < t :: !Stale(At(ds, k), id)) &&
    (forall k | s < k < t :: !Evicts(At(ds, k), ds[k], id))
  }

  /** All packets of frame `id` arrive from `s` up to `t`, undisturbed. */
  ghost predicate Whole(sent: Sent, ds: seq<seq<byte>>, s: nat, t: nat, id: u32)
    requires HonestSender(sent)
  {
    id in sent && Undisturbed(ds, s, t, id) && Below(Count(sent, id)) <= Arrivals(ds, s, t, id)
  }

  lemma UndisturbedNext(ds: seq<seq<byte>>, s: nat, k: nat, id: u32)
    requires s <= k < |ds| && (s < k ==> Undisturbed(ds, s, k, id) && !Evicts(At(ds, k), ds[k], id))
    requires !Stale(At(ds, k), id)
    ensures Undisturbed(ds, s, k + 1, id)
  {
    hide Stale, Evicts, At;
  }

  /**
   What is stored of a frame that is not stale is exactly what arrived of it since some position: the last one at
   which it was dispatched or evicted.
   */
  lemma {:induction false} StoredSince(sent: Sent, ds: seq<seq<byte>>, p: nat, k: nat, id: u32) returns (s: nat)
    requires HonestSender(sent) && Network(sent, ds) && id in sent && p <= k <= |ds|
    requires Have(At(ds, p), id) == {} && !Stale(At(ds, k), id)
    ensures p <= s <= k && Undisturbed(ds, s, k, id) && Have(At(ds, k), id) == Arrivals(ds, s, k, id)
    decreases k
  {
    hide Stale, Evicts, At, Have, Dispatches, OnNetwork, Receive, ArrivalOf, Below, Count;
    s := k;
    if p < k {
      var j := k - 1;
      if Stale(At(ds, j), id) {
        StaysStale(sent, ds, j, k, id);
      }
      AlwaysIncomplete(sent, ds, j);
      AtNext(ds, j);
      HaveNext(sent, At(ds, j), ds[j], id);
      if !Dispatches(At(ds, j), ds[j], id) {
        if Evicts(At(ds, j), ds[j], id) {
          s := j;
        } else {
          s := StoredSince(sent, ds, p, j, id);
        }
        UndisturbedNext(ds, s, j, id);
      }
    }
  }

  /** A frame of which nothing was stored at `p` is dispatched later only once all its packets have arrived since. */
  lemma DispatchNeedsAll(sent: Sent, ds: seq<seq<byte>>, p: nat, k: nat, id: u32) returns (s: nat)
    requires HonestSender(sent) && Network(sent, ds) && p <= k && DispatchedAt(ds, k, id)
    requires Have(At(ds, p), id) == {}
    ensures p <= s <= k && Whole(sent, ds, s, k + 1, id)
  {
    hide Stale, Evicts, At, Have, Dispatches, OnNetwork, Receive, ArrivalOf, Below, Count, Undisturbed;
    AlwaysIncomplete(sent, ds, k);
    StepKeeps(sent, At(ds, k), ds[k], id);
    HaveNext(sent, At(ds, k), ds[k], id);
    if Evicts(At(ds, k), ds[k], id) {
      s := k;
    } else {
      s := StoredSince(sent, ds, p, k, id);
    }
    UndisturbedNext(ds, s, k, id);
  }

  /** Packets that arrive undisturbed are stored, or lead to a dispatch. */
  lemma {:induction false} StoredOrDispatched(sent: Sent, ds: seq<seq<byte>>, s: nat, t: nat, id: u32)
    requires HonestSender(sent) && Network(sent, ds) && id in sent && Undisturbed(ds, s, t, id)
    requires forall k | s <= k < t :: !DispatchedAt(ds, k, id)
    ensures Arrivals(ds, s, t, id) <= Have(At(ds, t), id)
    decreases t
  {
    hide Stale, Evicts, At, Have, Dispatches, OnNetwork, Receive, ArrivalOf, Below, Count;
    if s < t {
      var j := t - 1;
      StoredOrDispatched(sent, ds, s, j, id);
      AlwaysIncomplete(sent, ds, j);
      AtNext(ds, j);
      assert !DispatchedAt(ds, j, id);
      HaveNext(sent, At(ds, j), ds[j], id);
    }
  }

  lemma WholeRange(sent: Sent, ds: seq<seq<byte>>, id: u32, s: nat, t: nat)
    requires HonestSender(sent) && Whole(sent, ds, s, t, id)
    ensures s <= t <= |ds|
  {
  }

  lemma AllMakeDispatch(sent: Sent, ds: seq<seq<byte>>, s: nat, t: nat, id: u32) returns (k: nat)
    requires HonestSender(sent) && Network(sent, ds) && Whole(sent, ds, s, t, id)
    ensures s <= k < t && DispatchedAt(ds, k, id)
  {
    hide DispatchedAt, At, Have, Below, Count, Undisturbed, OnNetwork;
    if k': nat :| s <= k' < t && DispatchedAt(ds, k', id) {
      k := k';
    } else {
      WholeRange(sent, ds, id, s, t);
      StoredOrDispatched(sent, ds, s, t, id);
      AlwaysIncomplete(sent, ds, t);
      NeverAll(sent, At(ds, t), id);
      assert false;
    }
  }

  lemma NeverAll(sent: Sent, rx: Rx, id: u32)
    requires HonestSender(sent) && Incomplete(sent, rx) && id in sent
    ensures !(Below(Count(sent, id)) <= Have(rx, id))
  {
    assert 0 in Below(Count(sent, id));
  }

  /** Nothing of a frame is stored right after it was dispatched. */
  lemma DispatchForgets(sent: Sent, ds: seq<seq<byte>>, k: nat, id: u32)
    requires HonestSender(sent) && Network(sent, ds) && DispatchedAt(ds, k, id)
    ensures Have(At(ds, k + 1), id) == {}
  {
    hide At, Have, Dispatches, OnNetwork, Receive, Incomplete;
    AlwaysIncomplete(sent, ds, k);
    AtNext(ds, k);
    StepKeeps(sent, At(ds, k), ds[k], id);
  }

  /**
   Exactly when a frame is dispatched from position `p` on, if nothing of it is stored there: when from there on all
   its packets arrive undisturbed. Nothing is stored at the start, and nothing right after a dispatch, so this says both
   when a frame is dispatched and when it is dispatched again.
   */
  lemma DispatchedIff(sent: Sent, ds: seq<seq<byte>>, p: nat, id: u32)
    requires HonestSender(sent) && Network(sent, ds) && p <= |ds|
    requires p == 0 || (p > 0 && DispatchedAt(ds, p - 1, id)) || id !in At(ds, p).frames
    ensures (exists k :: p <= k && DispatchedAt(ds, k, id)) <==>
            (exists s, t :: p <= s && Whole(sent, ds, s, t, id))
  {
    hide DispatchedAt, At, Whole, OnNetwork;
    if p == 0 {
      AtStart(ds);
    } else if DispatchedAt(ds, p - 1, id) {
      DispatchForgets(sent, ds, p - 1, id);
    }
    if k :| p <= k && DispatchedAt(ds, k, id) {
      var s := DispatchNeedsAll(sent, ds, p, k, id);
    }
    if s, t :| p <= s && Whole(sent, ds, s, t, id) {
      var k := AllMakeDispatch(sent, ds, s, t, id);
    }
  }

  // ---- At most once ----

  ghost predicate StrictlyIncreasing(out: seq<Dispatch>) {
    forall i, j | 0 <= i < j < |out| :: out[i].frameId < out[j].frameId
  }

  /** Every dispatch was made at some datagram. */
  lemma {:induction false} DispatchedSomewhere(sent: Sent, ds: seq<seq<byte>>, k: nat, n: nat) returns (j: nat)
    requires HonestSender(sent) && Network(sent, ds) && k <= |ds| && n < |At(ds, k).out|
    ensures j < k && DispatchedAt(ds, j, At(ds, k).out[n].frameId) && |At(ds, j).out| == n
    decreases k
  {
    hide At, OnNetwork, Receive, Incomplete;
    if k == 0 {
      AtStart(ds);
      assert false;
    } else {
      AlwaysIncomplete(sent, ds, k - 1);
      AtNext(ds, k - 1);
      var before := At(ds, k - 1);
      StepKeeps(sent, before, ds[k - 1], 0);
      if n < |before.out| {
        assert Receive(before, ds[k - 1]).out[..|before.out|] == before.out;
        j := DispatchedSomewhere(sent, ds, k - 1, n);
      } else {
        j := k - 1;
      }
    }
  }

  lemma {:induction false} OutGrows(sent: Sent, ds: seq<seq<byte>>, j: nat, k: nat)
    requires HonestSender(sent) && Network(sent, ds) && j <= k <= |ds|
    ensures At(ds, j).out <= At(ds, k).out
    decreases k
  {
    hide At, OnNetwork, Receive, Incomplete;
    if j < k {
      OutGrows(sent, ds, j, k - 1);
      AlwaysIncomplete(sent, ds, k - 1);
      AtNext(ds, k - 1);
      var before, after := At(ds, k - 1).out, At(ds, k).out;
      StepKeeps(sent, At(ds, k - 1), ds[k - 1], 0);
      assert after[..|before|] == before;
    }
  }

  /** Frame `id` arrives whole, and afterwards once more. */
  ghost predicate WholeTwice(sent: Sent, ds: seq<seq<byte>>, id: u32, s: nat, t: nat, s': nat, t': nat)
    requires HonestSender(sent)
  {
    t <= s' && Whole(sent, ds, s, t, id) && Whole(sent, ds, s', t', id)
  }

  lemma TwiceDispatchedNotStrict(sent: Sent, ds: seq<seq<byte>>, id: u32, s: nat, t: nat, s': nat, t': nat)
    requires HonestSender(sent) && Network(sent, ds) && WholeTwice(sent, ds, id, s, t, s', t')
    ensures !StrictlyIncreasing(ReceiveAll(FRESH, ds).out)
  {
    hide At, OnNetwork, Receive, Whole;
    var k := AllMakeDispatch(sent, ds, s, t, id);
    var k' := AllMakeDispatch(sent, ds, s', t', id);
    AtStart(ds);
    AtNext(ds, k);
    AtNext(ds, k');
    OutGrows(sent, ds, k + 1, k');
    OutGrows(sent, ds, k', k' + 1);
    OutGrows(sent, ds, k' + 1, |ds|);
    var out := ReceiveAll(FRESH, ds).out;
    var n, n' := |At(ds, k).out|, |At(ds, k').out|;
    assert At(ds, k + 1).out[n] == At(ds, k').out[n] == At(ds, k' + 1).out[n] == out[n];
    assert out[n'] == At(ds, k' + 1).out[n'];
  }

  lemma RepeatedId(sent: Sent, ds: seq<seq<byte>>) returns (n: nat, n': nat)
    requires HonestSender(sent) && Network(sent, ds) && !StrictlyIncreasing(ReceiveAll(FRESH, ds).out)
    ensures n < n' < |ReceiveAll(FRESH, ds).out|
    ensures ReceiveAll(FRESH, ds).out[n].frameId == ReceiveAll(FRESH, ds).out[n'].frameId
  {
    hide OnNetwork, ReceiveAll, Genuine, FramesGenuine;
    UdpSafety(sent, ds);
    var out := ReceiveAll(FRESH, ds).out;
    n, n' :| n < n' < |out| && out[n].frameId >= out[n'].frameId;
  }

  lemma EarlierDispatch(sent: Sent, ds: seq<seq<byte>>, k: nat, k': nat)
    requires HonestSender(sent) && Network(sent, ds) && k <= |ds| && k' <= |ds|
    requires |At(ds, k).out| < |At(ds, k').out|
    ensures k < k'
  {
    hide At, OnNetwork;
    if k' <= k {
      OutGrows(sent, ds, k', k);
    }
  }

  lemma NothingAtStart(ds: seq<seq<byte>>, id: u32)
    ensures Have(At(ds, 0), id) == {}
  {
    AtStart(ds);
  }

  lemma DispatchedTwiceArrivesTwice(sent: Sent, ds: seq<seq<byte>>, id: u32, k: nat, k': nat) returns (s: nat, s': nat)
    requires HonestSender(sent) && Network(sent, ds) && k < k' && DispatchedAt(ds, k, id) && DispatchedAt(ds, k', id)
    ensures WholeTwice(sent, ds, id, s, k + 1, s', k' + 1)
  {
    hide At, OnNetwork, Whole, Dispatches, Have, Count;
    NothingAtStart(ds, id);
    s := DispatchNeedsAll(sent, ds, 0, k, id);
    DispatchForgets(sent, ds, k, id);
    s' := DispatchNeedsAll(sent, ds, k + 1, k', id);
  }

  lemma NotStrictArrivesTwice(sent: Sent, ds: seq<seq<byte>>) returns (id: u32, s: nat, t: nat, s': nat, t': nat)
    requires HonestSender(sent) && Network(sent, ds) && !StrictlyIncreasing(ReceiveAll(FRESH, ds).out)
    ensures WholeTwice(sent, ds, id, s, t, s', t')
  {
    hide At, OnNetwork, Whole, WholeTwice, ReceiveAll, DispatchedAt, StrictlyIncreasing;
    AtStart(ds);
    var n, n' := RepeatedId(sent, ds);
    id := ReceiveAll(FRESH, ds).out[n].frameId;
    var k := DispatchedSomewhere(sent, ds, |ds|, n);
    var k' := DispatchedSomewhere(sent, ds, |ds|, n');
    assert k < |ds| && k' < |ds|;
    EarlierDispatch(sent, ds, k, k');
    s, s' := DispatchedTwiceArrivesTwice(sent, ds, id, k, k');
    t, t' := k + 1, k' + 1;
  }

  /**
   Exactly when each frame is dispatched at most once, in strictly increasing order of frame ids: when no frame arrives
   whole and undisturbed, and afterwards once more.
   */
  lemma StrictIff(sent: Sent, ds: seq<seq<byte>>)
    requires HonestSender(sent) && Network(sent, ds)
    ensures StrictlyIncreasing(ReceiveAll(FRESH, ds).out) <==>
            (forall id, s, t, s', t' :: !WholeTwice(sent, ds, id, s, t, s', t'))
  {
    hide StrictlyIncreasing, WholeTwice, ReceiveAll, OnNetwork;
    if !StrictlyIncreasing(ReceiveAll(FRESH, ds).out) {
      var id, s, t, s', t' := NotStrictArrivesTwice(sent, ds);
    }
    if id, s, t, s', t' :| WholeTwice(sent, ds, id, s, t, s', t') {
      TwiceDispatchedNotStrict(sent, ds, id, s, t, s', t');
    }
  }

  // ---- Without repetition ----

  lemma {:induction false} ArrivedAt(ds: seq<seq<byte>>, s: nat, t: nat, id: u32, i: u16) returns (k: nat)
    requires t <= |ds| && i in Arrivals(ds, s, t, id)
    ensures s <= k < t && Acceptable(ds[k]) && Decode(ds[k]).frameId == id && Decode(ds[k]).pkgId == i
    decreases t
  {
    hide Acceptable, Decode;
    if i in ArrivalOf(ds[t - 1], id) {
      k := t - 1;
    } else {
      k := ArrivedAt(ds, s, t - 1, id, i);
    }
  }

  /** A packet of a blob is one datagram only. */
  lemma SamePacketSameBytes(sent: Sent, raw: seq<byte>, raw': seq<byte>)
    requires HonestSender(sent) && OnNetwork(sent, raw) && OnNetwork(sent, raw') && Acceptable(raw) && Acceptable(raw')
    requires Decode(raw).frameId == Decode(raw').frameId && Decode(raw).pkgId == Decode(raw').pkgId
    ensures raw == raw'
  {
    hide ValidHeader, Decode, PacketBytes;
    var id: u32, i: u16 :| IsPacket(sent, raw, id, i);
    var id': u32, i': u16 :| IsPacket(sent, raw', id', i');
    ReceivedPacket(sent, raw, id, i);
    ReceivedPacket(sent, raw', id', i');
  }

  /** If the network repeats no packet, each frame is dispatched at most once and the frame ids strictly increase. */
  lemma NoRepetitionStrict(sent: Sent, ds: seq<seq<byte>>)
    requires HonestSender(sent) && Network(sent, ds)
    requires forall i, j | 0 <= i < j < |ds| && Acceptable(ds[i]) :: ds[i] != ds[j]
    ensures StrictlyIncreasing(ReceiveAll(FRESH, ds).out)
  {
    hide Acceptable, Decode, ReceiveAll, StrictlyIncreasing, OnNetwork, Undisturbed;
    StrictIff(sent, ds);
    forall id: u32, s: nat, t: nat, s': nat, t': nat ensures !WholeTwice(sent, ds, id, s, t, s', t') {
      if WholeTwice(sent, ds, id, s, t, s', t') {
        assert 0 in Below(Count(sent, id));
        assert t <= |ds| && t' <= |ds| by { WholeRange(sent, ds, id, s, t); WholeRange(sent, ds, id, s', t'); }
        var k := ArrivedAt(ds, s, t, id, 0);
        var k' := ArrivedAt(ds, s', t', id, 0);
        SamePacketSameBytes(sent, ds[k], ds[k']);
        assert false;
      }
    }
  }

  // ---- With repetition ----

  lemma {:induction false} ReceiveAllConcat(rx: Rx, a: seq<seq<byte>>, b: seq<seq<byte>>)
    ensures ReceiveAll(rx, a + b) == ReceiveAll(ReceiveAll(rx, a), b)
    decreases |b|
  {
    hide Receive;
    if b == [] {
      assert a + b == a;
    } else {
      var n := |b| - 1;
      assert (a + b)[..|a + b| - 1] == a + b[..n];
      ReceiveAllConcat(rx, a, b[..n]);
    }
  }

  lemma {:induction false} ReceiveDatagrams(rx: Rx, ps: seq<Packet>)
    requires forall p | p in ps :: TcpEndToEnd.WellFormed(p)
    ensures ReceiveAll(rx, Datagrams(ps)) == TcpEndToEnd.AcceptAll(rx, ps)
    decreases |ps|
  {
    hide Accept, Receive, PacketBytes;
    if ps != [] {
      var p := ps[0];
      assert Datagrams(ps) == [PacketBytes(p)] + Datagrams(ps[1..]);
      ReceiveAllConcat(rx, [PacketBytes(p)], Datagrams(ps[1..]));
      assert [PacketBytes(p)][..0] == [];
      assert ReceiveAll(rx, [PacketBytes(p)]) == Receive(ReceiveAll(rx, []), PacketBytes(p));
      ReceiveOne(rx, p);
      ReceiveDatagrams(Accept(rx, p.header, p.payload), ps[1..]);
    }
  }

  lemma ReceiveOne(rx: Rx, p: Packet)
    requires TcpEndToEnd.WellFormed(p)
    ensures Receive(rx, PacketBytes(p)) == Accept(rx, p.header, p.payload)
  {
    hide Accept, ValidHeader, Decode, Encode;
    HeaderRoundTrip(p.header, p.payload);
    assert PacketBytes(p)[HEADER_SIZE..HEADER_SIZE + |p.payload|] == p.payload;
  }

  /** The datagrams of any blob, received in order and then all of them again, make the receiver dispatch it twice. */
  lemma RepeatedFrameDispatchedTwice(b: Blob, id: u32)
    requires 0 < |b.data| <= MAX_BLOB
    ensures var ds, d := Datagrams(PacketsOf(b, id)), Dispatch(id, b.kind, b.timestamp, b.data);
      ReceiveAll(FRESH, ds + ds).out == [d, d]
  {
    hide ReceiveAll, Datagrams, TcpEndToEnd.AcceptAll;
    var ps := PacketsOf(b, id);
    var ds, d := Datagrams(ps), Dispatch(id, b.kind, b.timestamp, b.data);
    ReceiveAllConcat(FRESH, ds, ds);
    DatagramsOfBlob(FRESH, b, id);
    DatagramsOfBlob(Rx(map[], id, [d]), b, id);
    assert FRESH.out + [d] == [d] && [d] + [d] == [d, d];
  }

  lemma DatagramsOfBlob(rx: Rx, b: Blob, id: u32)
    requires 0 < |b.data| <= MAX_BLOB && rx.frames == map[] && !Stale(rx, id)
    ensures ReceiveAll(rx, Datagrams(PacketsOf(b, id))) ==
            Rx(map[], id, rx.out + [Dispatch(id, b.kind, b.timestamp, b.data)])
  {
    hide ReceiveAll, Datagrams, TcpEndToEnd.AcceptAll, Joined;
    ReceiveDatagrams(rx, PacketsOf(b, id));
    SplitJoin(b);
    TcpEndToEnd.AcceptBlob(rx, b, id);
  }
}
