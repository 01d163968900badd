/** Reassembly of frames from packets, as the TCP and the UDP receiver of the desktop do it. */
module Reassembly {
  import opened Bytes
  import opened Frame

  /** A call of `dispatchFrame`. The frame id is not an argument of the call; it is kept to speak about order. */
  datatype Dispatch = Dispatch(frameId: u32, kind: u32, timestamp: u64, data: seq<byte>)

  type FramePackets = map<u16, seq<byte>>

  /** Incomplete frames by frame id, the last complete frame id, and the calls of `dispatchFrame` so far. */
  datatype Rx = Rx(frames: map<u32, FramePackets>, last: u32, out: seq<Dispatch>)

  const FRESH := Rx(map[], 0, [])

  /** The subtraction wraps around in 32 bits. */
  predicate Expired(id: u32, current: u32) {
    id < (current - 3) % 0x1_0000_0000
  }

  function CleanExpired(frames: map<u32, FramePackets>, current: u32): map<u32, FramePackets> {
    if |frames| <= 3 then frames else map id | id in frames && !Expired(id, current) :: frames[id]
  }

  function PacketOrEmpty(pkgs: FramePackets, i: u16): seq<byte> {
    if i in pkgs then pkgs[i] else []
  }

  function Join(pkgs: FramePackets, n: nat): seq<byte>
    requires n <= 0x1_0000
  {
    if n == 0 then [] else Join(pkgs, n - 1) + PacketOrEmpty(pkgs, n - 1)
  }

  function FramesOf(frames: map<u32, FramePackets>, id: u32): FramePackets {
    if id in frames then frames[id] else map[]
  }

  predicate Stale(rx: Rx, frameId: u32) {
    rx.last > 0 && frameId < rx.last
  }

  /** What one packet that passed the header test does to the receiver. */
  function Accept(rx: Rx, h: Header, payload: seq<byte>): Rx {
    if Stale(rx, h.frameId) then
      rx
    else
      var frames := CleanExpired(rx.frames, h.frameId);
      if h.pkgCnt <= 1 then
        Rx(frames, h.frameId, rx.out + [Dispatch(h.frameId, h.kind, h.timestamp, payload)])
      else
        var pkgs := FramesOf(frames, h.frameId)[h.pkgId := payload];
        if |pkgs| == h.pkgCnt then
          Rx(frames - {h.frameId}, h.frameId,
             rx.out + [Dispatch(h.frameId, h.kind, h.timestamp, Join(pkgs, h.pkgCnt))])
        else
          rx.(frames := frames[h.frameId := pkgs])
  }

  /** The reassembly state of a receiver, updated in place. */
  class Reassembler {
    var frameBuffer: map<u32, FramePackets>
    var lastCompleteFrameId: u32
    var dispatched: seq<Dispatch>

    function State(): Rx
      reads this
    {
      Rx(frameBuffer, lastCompleteFrameId, dispatched)
    }

    constructor ()
      ensures State() == FRESH
    {
      frameBuffer := map[];
      lastCompleteFrameId := 0;
      dispatched := [];
    }

    /** A new connection starts from nothing; what was dispatched stays dispatched. */
    method Reset()
      modifies this
      ensures State() == FRESH.(out := old(State()).out)
    {
      frameBuffer := map[];
      lastCompleteFrameId := 0;
    }

    method CleanExpiredFrames(current: u32)
      modifies this`frameBuffer
      ensures frameBuffer == CleanExpired(old(frameBuffer), current)
    {
      if |frameBuffer| <= 3 {
        return;
      }
      var ids := frameBuffer.Keys;
      while ids != {}
        invariant ids <= frameBuffer.Keys <= old(frameBuffer.Keys)
        invariant forall id | id in frameBuffer :: frameBuffer[id] == old(frameBuffer)[id]
        invariant forall id | id in frameBuffer && id !in ids :: !Expired(id, current)
        invariant forall id | id in old(frameBuffer) && !Expired(id, current) :: id in frameBuffer
        decreases |ids|
      {
        var id :| id in ids;
        ids := ids - {id};
        if Expired(id, current) {
          frameBuffer := frameBuffer - {id};
        }
      }
    }

    method AcceptPacket(h: Header, payload: seq<byte>)
      modifies this
      ensures State() == Accept(old(State()), h, payload)
    {
      if lastCompleteFrameId > 0 && h.frameId < lastCompleteFrameId {
        return;
      }
      CleanExpiredFrames(h.frameId);
      if h.pkgCnt <= 1 {
        dispatched := dispatched + [Dispatch(h.frameId, h.kind, h.timestamp, payload)];
        lastCompleteFrameId := h.frameId;
      } else {
        var pkgs := FramesOf(frameBuffer, h.frameId)[h.pkgId := payload];
        frameBuffer := frameBuffer[h.frameId := pkgs];
        if |frameBuffer[h.frameId]| == h.pkgCnt {
          var complete := [];
          for i := 0 to h.pkgCnt
            invariant complete == Join(pkgs, i)
          {
            complete := complete + PacketOrEmpty(pkgs, i);
          }
          dispatched := dispatched + [Dispatch(h.frameId, h.kind, h.timestamp, complete)];
          frameBuffer := frameBuffer - {h.frameId};
          lastCompleteFrameId := h.frameId;
        }
      }
    }
  }
}
