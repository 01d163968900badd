/**
 Which incomplete frames the desktop gives up, in plain arithmetic on frame ids, and how much reordering a frame
 survives.
 */
module UdpReordering {
  import opened Bytes
  import opened Frame
  import opened Reassembly
  import opened UdpReceiver
  import opened UdpDispatch

  /** Frame `x` is pending in both states or in neither, with the same packets. */
  predicate SamePending(rx: Rx, rx': Rx, x: u32) {
    (x in rx'.frames <==> x in rx.frames) && (x in rx.frames ==> rx'.frames[x] == rx.frames[x])
  }

  /**
   What a packet of frame `c` does to another frame `x`. With at most three frames pending it stays as it is. With more,
   it is given up if it is more than three below `c`, and stays as it is otherwise. For `c` below 3 the bound wraps
   around: every frame is given up but the last ones before the wrap.
   */
  lemma OtherFrames(rx: Rx, h: Header, payload: seq<byte>, x: u32)
    requires rx.last == 0 || rx.last <= h.frameId
    requires x != h.frameId
    ensures var rx', c := Accept(rx, h, payload), h.frameId;
      if |rx.frames| <= 3 then SamePending(rx, rx', x)
      else if c >= 3 then if x < c - 3 then x !in rx'.frames else SamePending(rx, rx', x)
      else if x < 0x1_0000_0000 + c - 3 then x !in rx'.frames else SamePending(rx, rx', x)
  {
    hide Join;
  }

  /** What a packet leaves of the other packets of its own frame: all of them, unless the bound wraps around. */
  lemma OwnFrame(rx: Rx, h: Header, payload: seq<byte>, i: u16)
    requires rx.last == 0 || rx.last <= h.frameId
    requires h.frameId in Accept(rx, h, payload).frames && i != h.pkgId && h.pkgCnt > 1
    ensures var pkgs := Accept(rx, h, payload).frames[h.frameId];
      h.pkgId in pkgs && pkgs[h.pkgId] == payload &&
      (h.frameId < 3 && |rx.frames| > 3 ==> i !in pkgs) &&
      (h.frameId >= 3 || |rx.frames| <= 3 ==>
         (i in pkgs <==> h.frameId in rx.frames && i in rx.frames[h.frameId]) &&
         (i in pkgs ==> pkgs[i] == rx.frames[h.frameId][i]))
  {
    hide Join;
  }

  /** From `s` up to `t`, nothing arrives from more than three frames ahead of frame `id`. */
  ghost predicate AtMostThreeAhead(ds: seq<seq<byte>>, s: nat, t: nat, id: u32) {
    s <= t <= |ds| &&
    forall k | s <= k < t && Acceptable(ds[k]) :: 3 <= Decode(ds[k]).frameId <= id + 3
  }

  /** Frame `id` is not overtaken up to `t`: no later frame is the last complete one. */
  ghost predicate NotOvertaken(ds: seq<seq<byte>>, s: nat, t: nat, id: u32) {
    s <= t <= |ds| && forall k | s <= k < t :: At(ds, k).last <= id
  }

  lemma NobodyEvicts(ds: seq<seq<byte>>, s: nat, t: nat, id: u32)
    requires AtMostThreeAhead(ds, s, t, id) && NotOvertaken(ds, s, t, id)
    ensures Undisturbed(ds, s, t, id)
  {
    hide ValidHeader, Decode, At;
    forall k | s < k < t ensures !Evicts(At(ds, k), ds[k], id) {
      if Acceptable(ds[k]) {
        assert 3 <= Decode(ds[k]).frameId <= id + 3;
      }
    }
  }

  /** The last complete frame changes only by a dispatch. */
  lemma LastDispatched(ds: seq<seq<byte>>, k: nat)
    requires k < |ds|
    ensures At(ds, k + 1).last == At(ds, k).last || DispatchedAt(ds, k, At(ds, k + 1).last)
  {
    hide At, CleanExpired, Join, FramesOf;
    AtNext(ds, k);
  }

  lemma {:induction false} OvertakenByDispatch(ds: seq<seq<byte>>, s: nat, t: nat, id: u32)
    requires s <= t <= |ds| && At(ds, s).last <= id
    requires forall k: nat, x: u32 | s <= k < t && DispatchedAt(ds, k, x) :: x <= id
    ensures At(ds, t).last <= id && NotOvertaken(ds, s, t, id)
    decreases t
  {
    hide At, DispatchedAt;
    if s < t {
      OvertakenByDispatch(ds, s, t - 1, id);
      LastDispatched(ds, t - 1);
    }
  }

  /**
   A frame that is not stale is dispatched under any reordering, repetition and loss in which all its packets arrive,
   meanwhile nothing arrives from more than three frames ahead, and no later frame is dispatched.
   */
  lemma BoundedReordering(sent: Sent, ds: seq<seq<byte>>, s: nat, t: nat, id: u32) returns (k: nat)
    requires HonestSender(sent) && Network(sent, ds) && id in sent
    requires AtMostThreeAhead(ds, s, t, id) && At(ds, s).last <= id
    requires forall k: nat, x: u32 | s <= k < t && DispatchedAt(ds, k, x) :: x <= id
    requires forall i: u16 | i < Count(sent, id) :: i in Arrivals(ds, s, t, id)
    ensures s <= k < t && DispatchedAt(ds, k, id)
  {
    hide Undisturbed, NotOvertaken, Network, DispatchedAt, Count, Arrivals, At;
    OvertakenByDispatch(ds, s, t, id);
    NobodyEvicts(ds, s, t, id);
    k := AllMakeDispatch(sent, ds, s, t, id);
  }

  // ---- Packets that no sender makes ----

  lemma JoinOfTwo(pkgs: FramePackets)
    ensures Join(pkgs, 2) == (if 0 in pkgs then pkgs[0] else []) + (if 1 in pkgs then pkgs[1] else [])
  {
    assert Join(pkgs, 1) == Join(pkgs, 0) + PacketOrEmpty(pkgs, 0);
  }

  lemma FirstStored(h: Header, payload: seq<byte>)
    requires h.pkgCnt > 1
    ensures Accept(FRESH, h, payload) == Rx(map[h.frameId := map[h.pkgId := payload]], 0, [])
  {
    var pkgs: FramePackets := map[h.pkgId := payload];
    assert FramesOf(map[], h.frameId)[h.pkgId := payload] == pkgs;
    assert |pkgs| == 1;
  }

  /**
   Packets are counted, not checked: a frame announced with two packets is dispatched once packets with any two indices
   are there, and what is joined are those with the indices 0 and 1. One announced with at most one packet is dispatched
   at once, whatever its index.
   */
  lemma CountedNotChecked(h: Header, i: u16, first: seq<byte>, second: seq<byte>)
    requires h.pkgId != i
    ensures var rx := Accept(FRESH, h, first);
      var out := Accept(rx, h.(pkgId := i), second).out;
      if h.pkgCnt <= 1 then
        rx.out == [Dispatch(h.frameId, h.kind, h.timestamp, first)]
      else
        rx.out == [] &&
        if h.pkgCnt == 2 then
          out == [Dispatch(h.frameId, h.kind, h.timestamp,
                           (if h.pkgId == 0 then first else if i == 0 then second else []) +
                           (if h.pkgId == 1 then first else if i == 1 then second else []))]
        else out == []
  {
    if h.pkgCnt > 1 {
      FirstStored(h, first);
      var pkgs: FramePackets := map[h.pkgId := first];
      var frames: map<u32, FramePackets> := map[h.frameId := pkgs];
      assert |pkgs[i := second]| == 2 && |frames| == 1;
      JoinOfTwo(pkgs[i := second]);
    }
    hide Join;
  }
}
