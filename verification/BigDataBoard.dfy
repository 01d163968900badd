/**
 The code behind the steps of the large transfers: the fields the threads share, and the handlers and lock regions
 that change them in place. None of it checks whether a token is still allocated. That every token it reads is
 allocated follows from the invariant.
 */
module BigDataBoard {
  import opened Bytes
  import opened MsgQueue
  import opened BigData

  class Board {
    const queue: Queue
    // shared by the handler and the sending thread, under the lock of the link
    var isSending: bool
    var bigData: bool
    var pBigData: Option<nat>
    var srcModule: Module
    // allocated tokens
    var tokens: map<nat, Record>
    var nextId: nat
    // where the delivering and the sending thread stand
    var delivering: Delivering
    var sending: Sending
    // bookkeeping
    ghost var freed: set<nat>
    ghost var held: set<nat>
    ghost var completed: map<nat, seq<Status>>
    ghost var returned: map<nat, seq<Status>>
    ghost var refused: bool

    ghost predicate Valid()
      reads this, queue, queue.msgBuffer, queue.logMsgBuffer
    {
      queue.Valid()
    }

    ghost function State(): (s: System)
      requires Valid()
      reads this, queue, queue.msgBuffer, queue.logMsgBuffer
      ensures ValidBus(s.bus)
    {
      System(queue.State(), delivering, Slot(isSending, bigData, pBigData, srcModule), sending,
             tokens, freed, nextId, held, completed, returned, refused, false)
    }

    constructor (mode: Mode)
      ensures Valid() && fresh(queue) && fresh(queue.msgBuffer) && fresh(queue.logMsgBuffer)
      ensures queue.mode == mode && Inv(State(), -1)
    {
      queue := new Queue(mode);
      isSending, bigData, pBigData, srcModule := false, false, None, V4l2Module;
      tokens, nextId := map[], 0;
      delivering, sending := Waiting, Idle;
      freed, held, completed, returned, refused := {}, {}, map[], map[], false;
    }

    method MsgDispatch(src: Module, dst: Module, id: nat) returns (accepted: bool)
      requires Valid() && id in tokens
      modifies this`refused, queue, queue.msgBuffer, queue.logMsgBuffer
      ensures Valid() && accepted == !Full(old(State()))
      ensures State() == Dispatch(old(State()), src, dst, id, queue.mode)
    {
      hide Send;
      var m := Msg(src, dst, tokens[id].totalLen, BigDataMsg, NORMAL_PRIORITY, Token(id));
      ghost var before := State();
      if Full(before) {
        SendRefused(before.bus, m, queue.mode);
      }
      assert m == TokenMsg(before, src, dst, id);
      var ok, _ := queue.MsgSend(m);
      accepted := ok;
      if !accepted {
        refused := true;
      }
    }

    /** Allocating the token of a response or of a log file. */
    method NewToken(source: Module, totalLen: nat, hasData: bool) returns (id: nat)
      requires Valid() && Inv(State(), -1) && IsSource(source)
      modifies this`tokens, this`nextId, this`held
      ensures Valid() && Inv(State(), -1)
      ensures id == old(nextId) && State() == CreateStep(old(State()), source, totalLen, hasData)
    {
      CreateKeepsInv(State(), source, totalLen, hasData);
      id := nextId;
      tokens := tokens[id := Record(source, ToSend, totalLen, hasData)];
      nextId := nextId + 1;
      held := held + {id};
    }

    /** The first dispatch. A response frees its token when the queue is full, a log file does not. */
    method SendNewToken(id: nat) returns (ok: bool)
      requires Valid() && Inv(State(), -1) && id in held
      modifies this`tokens, this`held, this`freed, this`refused, queue, queue.msgBuffer, queue.logMsgBuffer
      ensures Valid() && Inv(State(), -1)
      ensures State() == FirstSendStep(old(State()), id, queue.mode) && ok == !Full(old(State()))
    {
      hide Inv, Dispatch;
      OwnerFindsIt(State(), id);
      FirstSendKeepsInv(State(), id, queue.mode);
      var source := tokens[id].source;
      ok := MsgDispatch(source, TcpSendModule, id);
      held := held - {id};
      if !ok && source == CommandModule {
        tokens := tokens - {id};
        freed := freed + {id};
      }
    }

    method TakeIntoSlot(m: Msg, id: nat)
      requires Valid() && !isSending
      modifies this`isSending, this`bigData, this`pBigData, this`srcModule, this`delivering
      ensures Valid()
      ensures State() == old(State()).(slot := Slot(true, true, Some(id), m.src), deliver := Releasing(m))
    {
      bigData := true;
      pBigData := Some(id);
      isSending := true;
      srcModule := m.src;
      delivering := Releasing(m);
    }

    method MarkForResend(m: Msg, id: nat)
      requires Valid() && id in tokens
      modifies this`tokens, this`delivering
      ensures Valid()
      ensures State() == SetStatus(old(State()), id, Resend).(deliver := Resending(m))
    {
      tokens := tokens[id := tokens[id].(status := Resend)];
      delivering := Resending(m);
    }

    /** The handler of the TCP sender for a token; a busy slot leads to the second half. */
    method TcpSendHandleToken(m: Msg, id: nat)
      requires Valid() && Inv(State(), -1)
      requires delivering == Handling(m) && m.data == Token(id) && m.dst == TcpSendModule && !sending.Clearing?
      modifies this`tokens, this`isSending, this`bigData, this`pBigData, this`srcModule, this`delivering
      ensures Valid() && Inv(State(), -1) && State() == TcpHandle(old(State()), m, id)
    {
      hide Inv;
      OwnerFindsIt(State(), id);
      TcpHandleKeepsInv(State(), m, id);
      if !tokens[id].hasData || tokens[id].totalLen == 0 {
        delivering := Releasing(m);
      } else if !isSending {
        TakeIntoSlot(m, id);
      } else {
        MarkForResend(m, id);
      }
    }

    method TcpSendAskAgain(m: Msg, id: nat)
      requires Valid() && Inv(State(), -1) && delivering == Resending(m) && m.data == Token(id)
      modifies this, queue, queue.msgBuffer, queue.logMsgBuffer
      ensures Valid() && Inv(State(), -1) && State() == DeliverNext(old(State()), queue.mode)
    {
      hide Inv, Dispatch;
      OwnerFindsIt(State(), id);
      DeliverKeepsInv(State(), queue.mode);
      var _ := MsgDispatch(TcpSendModule, m.src, id);
      delivering := Releasing(m);
    }

    /** A token that came back for good: its memory is given up, and the message no longer points to it. */
    method FreeReturned(m: Msg, id: nat)
      requires Valid() && id in tokens && Final(tokens[id].status)
      modifies this`tokens, this`freed, this`returned, this`delivering
      ensures Valid() && State() == SourceHandle(old(State()), m, id, queue.mode)
    {
      hide Dispatch;
      returned := Noted(returned, id, tokens[id].status);
      freed := freed + {id};
      tokens := tokens - {id};
      delivering := Releasing(m.(data := Null));
    }

    /** The handler of a source for a token that came back. */
    method SourceHandleToken(m: Msg, id: nat)
      requires Valid() && Inv(State(), -1)
      requires delivering == Handling(m) && m.data == Token(id) && IsSource(m.dst)
      modifies this`tokens, this`freed, this`returned, this`refused, this`delivering
      modifies queue, queue.msgBuffer, queue.logMsgBuffer
      ensures Valid() && Inv(State(), -1) && State() == SourceHandle(old(State()), m, id, queue.mode)
    {
      hide Inv, Dispatch;
      OwnerFindsIt(State(), id);
      SourceHandleKeepsInv(State(), m, id, queue.mode);
      var status := tokens[id].status;
      if status == Done || status == FileDeliverError {
        FreeReturned(m, id);
      } else {
        if status == Resend {
          var _ := MsgDispatch(m.dst, TcpSendModule, id);
        }
        delivering := Releasing(m);
      }
    }

    /** What the sending thread reads under the lock before it sends. */
    method TakeWork() returns (big: bool, target: Module, length: Option<nat>)
      requires Valid() && Inv(State(), -1) && sending == Idle && isSending
      modifies this`sending
      ensures Valid() && Inv(State(), -1) && State() == WakeStep(old(State()))
      ensures big == bigData && target == srcModule
      ensures big ==> pBigData.Some? && pBigData.value in tokens && length == Some(tokens[pBigData.value].totalLen)
    {
      assert bigData ==> pBigData.Some?;
      assert pBigData.Some? ==> Accounted(State(), pBigData.value, -1);
      WakeKeepsInv(State());
      hide Inv;
      big, target, length := bigData, srcModule, None;
      if big {
        length := Some(tokens[pBigData.value].totalLen);
      }
      sending := Busy(big, target);
    }

    method WriteResult(id: nat, status: Status)
      requires Valid() && id in tokens
      modifies this`tokens, this`completed
      ensures Valid() && tokens.Keys == old(tokens.Keys)
      ensures State() == SetStatus(old(State()), id, status).(completed := Noted(old(completed), id, status))
    {
      tokens := tokens[id := tokens[id].(status := status)];
      completed := Noted(completed, id, status);
    }

    /** After the transfer, first half of the lock region: write the status and send the token back. */
    method ReportResult()
      requires Valid() && Inv(State(), -1) && sending.Reporting?
      modifies this, queue, queue.msgBuffer, queue.logMsgBuffer
      ensures Valid() && Inv(State(), -1) && sending.Clearing?
      ensures State() == ReportStep(old(State()), queue.mode)
    {
      hide Inv, Dispatch, SetStatus, Noted;
      ReportKeepsInv(State(), queue.mode);
      if sending.big {
        ReportedToItsSource(State());
        WriteResult(pBigData.value, if sending.ok then Done else FileDeliverError);
        var _ := MsgDispatch(TcpSendModule, sending.target, pBigData.value);
      }
      sending := Clearing(sending.big);
    }

    /** Second half: forget the token and free the slot. */
    method ClearSlot()
      requires Valid() && Inv(State(), -1) && sending.Clearing?
      modifies this`pBigData, this`isSending, this`sending
      ensures Valid() && Inv(State(), -1) && State() == ClearStep(old(State()))
    {
      ClearKeepsInv(State());
      hide Inv;
      if sending.big {
        pBigData := None;
      }
      isSending := false;
      sending := Idle;
    }
  }
}
