/** The sending role in the source's own form: a context whose callbacks update its fields in place. */
module SenderContext {
  import opened CanTpTypes
  import opened Frames
  import opened Segmentation
  import Spec = SenderSpec

  class Sender {
    // ctx->sndr
    var state: State
    var data: seq<byte>
    var len: uint16
    var index: nat
    var sn: byte
    var bsPair: byte
    var blIndex: byte
    var stPair: byte
    var stTimUs: nat
    var timer: Timer

    /** The receiving thread's Flow Control frame while it blocks on a sender state change. */
    var held: Option<wire>
    /** A state change has been signalled since the frame was held. */
    var signalled: bool

    /** Frames handed to the link layer, reports to the session layer, and time slept for STmin. */
    var tx: seq<wire>
    var results: seq<Outcome>
    var sleptUs: nat

    /** Whether Flow Control is also accepted after a full block. */
    const wide: bool

    ghost function View(): Spec.Sndr
      reads this
    {
      Spec.Sndr(state, data, len, index, sn, bsPair, blIndex, stPair, stTimUs, timer)
    }

    constructor (wide: bool)
      ensures View() == Spec.ZERO_SNDR && Spec.Good(View())
      ensures held == None && tx == [] && results == [] && sleptUs == 0 && this.wide == wide
    {
      state, data, len, index, sn := Idle, [], 0, 0, 0;
      bsPair, blIndex, stPair, stTimUs, timer := 0, 0, 0, 0, Stopped;
      held, signalled, tx, results, sleptUs := None, false, [], [], 0;
      this.wide := wide;
    }

    /** Between the old state and this one the callback did exactly `o`. */
    twostate predicate Did(o: Spec.Out)
      reads this
    {
      && View() == o.s
      && (if o.tx.Some? then Proper(o.tx.value) && tx == old(tx) + [Encode(o.tx.value)] else tx == old(tx))
      && (if o.report.Some? then results == old(results) + [o.report.value] else results == old(results))
      && signalled == (old(signalled) || o.gave)
    }

    /** The next Consecutive Frame; the byte-copy loop advances `index` as it copies. */
    method BuildNextCf(n: nat) returns (bytes: wire)
      requires n <= 7 && index + n <= |data|
      modifies this`index
      ensures index == old(index) + n
      ensures bytes == Encode(CF(sn % 16, Pad7(data[old(index)..old(index) + n])))
      ensures bytes[0] == 0x20 + sn % 16
      ensures forall i :: 0 <= i < n ==> bytes[1..][i] == data[old(index) + i]
    {
      hide Encode, Pad7, WithHigh, WithLow, High, Low;
      var frame := new byte[8](_ => 0);
      NibblesIndependent(0, PCI_CF, sn % 16);
      frame[0] := WithHigh(frame[0], PCI_CF);
      frame[0] := WithLow(frame[0], sn % 16);
      var i := 0;
      while i < n
        invariant 0 <= i <= n && index == old(index) + i
        invariant frame[0] == PCI_CF * 16 + sn % 16
        invariant forall j :: 0 < j <= i ==> frame[j] == data[old(index) + j - 1]
        invariant forall j :: i < j < 8 ==> frame[j] == 0
      {
        frame[1 + i] := data[index];
        index := index + 1;
        i := i + 1;
      }
      bytes := frame[..];
      ghost var c := data[old(index)..index];
      FrameBytes(bytes, CF(sn % 16, Pad7(c)), 1, c);
      WireLayout(CF(sn % 16, Pad7(c)));
    }

    method SendCfAfterCf()
      requires index <= len == |data|
      modifies this`index, this`timer, this`state, this`signalled, this`tx
      ensures Did(Spec.SendCfAfterCf(old(View())))
    {
      hide Encode, Pad7;
      var remaining := len - index;
      var n := if remaining > CF_DATA then CF_DATA else remaining;
      var frame := BuildNextCf(n);
      timer := Stopped;
      timer := Armed(N_As);
      state, signalled := CfSending, true;
      tx := tx + [frame];
    }

    method SendCfAfterFc()
      requires len > index ==> len == |data|
      modifies this`index, this`timer, this`state, this`signalled, this`tx
      ensures Did(Spec.SendCfAfterFc(old(View())))
    {
      hide Encode, Pad7;
      timer := Stopped;
      timer := Armed(N_As);
      var remaining := len - index;
      if remaining <= 0 {
        return;
      }
      var n := if remaining > CF_DATA then CF_DATA else remaining;
      var frame := BuildNextCf(n);
      state, signalled := CfSending, true;
      tx := tx + [frame];
    }

    method BuildSf(msg: seq<byte>) returns (bytes: wire)
      requires |msg| <= SF_DATA
      ensures bytes == Encode(SF(|msg|, Pad7(msg)))
      ensures bytes[0] == |msg| && bytes[1..1 + |msg|] == msg
    {
      hide Encode, Pad7, WithHigh, WithLow, High, Low;
      var frame := new byte[8](_ => 0);
      NibblesIndependent(0, PCI_SF, |msg|);
      frame[0] := WithLow(frame[0], |msg|);
      frame[0] := WithHigh(frame[0], PCI_SF);
      var i := 0;
      while i < |msg|
        invariant 0 <= i <= |msg|
        invariant frame[0] == PCI_SF * 16 + |msg|
        invariant forall j :: 0 < j <= i ==> frame[j] == msg[j - 1]
        invariant forall j :: i < j < 8 ==> frame[j] == 0
      {
        frame[1 + i] := msg[i];
        i := i + 1;
      }
      bytes := frame[..];
      FrameBytes(bytes, SF(|msg|, Pad7(msg)), 1, msg);
      WireLayout(SF(|msg|, Pad7(msg)));
    }

    method BuildFf(msg: seq<byte>) returns (bytes: wire)
      requires SF_DATA < |msg| < 0x1_0000
      ensures bytes == Encode(FF(|msg| % 0x1000, msg[..FF_DATA]))
      ensures bytes[0] == 0x10 + |msg| % 0x1000 / 256 && bytes[1] == |msg| % 256 && bytes[2..] == msg[..6]
    {
      hide Encode, WithHigh, WithLow, High, Low, LenHigh, LenLow;
      var frame := new byte[8](_ => 0);
      NibblesIndependent(0, PCI_FF, LenHigh(|msg|));
      frame[0] := WithHigh(frame[0], PCI_FF);
      FfLenSet(frame, |msg|);
      ghost var n := |msg| % 0x1000;
      LenBytes(|msg|);
      var i := 0;
      while i < FF_DATA
        invariant 0 <= i <= FF_DATA
        invariant frame[0] == PCI_FF * 16 + LenHigh(n) && frame[1] == LenLow(n)
        invariant forall j :: 2 <= j < 2 + i ==> frame[j] == msg[j - 2]
      {
        frame[2 + i] := msg[i];
        i := i + 1;
      }
      bytes := frame[..];
      FrameBytes(bytes, FF(n, msg[..FF_DATA]), 2, msg[..FF_DATA]);
      WireLayout(FF(n, msg[..FF_DATA]));
    }

    method SendSingle(msg: seq<byte>)
      requires |msg| <= SF_DATA
      modifies this`timer, this`state, this`signalled, this`tx
      ensures Did(Spec.SendMsg(old(View()), msg))
    {
      hide Encode, Pad7;
      var frame := BuildSf(msg);
      timer := Armed(N_As);
      state, signalled := SfSending, true;
      tx := tx + [frame];
    }

    method SendFirst(msg: seq<byte>)
      requires SF_DATA < |msg| < 0x1_0000
      modifies this`len, this`data, this`timer, this`state, this`signalled, this`tx
      ensures Did(Spec.SendMsg(old(View()), msg))
    {
      hide Encode, Pad7;
      len := |msg|;
      data := msg;
      var frame := BuildFf(msg);
      timer := Armed(N_As);
      state, signalled := FfSending, true;
      tx := tx + [frame];
    }

    /** A message that fits one frame leaves as a Single Frame, a longer one begins with a First Frame. */
    method Send(msg: seq<byte>)
      requires |msg| < 0x1_0000
      modifies this`len, this`data, this`timer, this`state, this`signalled, this`tx
      ensures Did(Spec.SendMsg(old(View()), msg))
    {
      hide Encode, Pad7, Did, Spec.SendMsg;
      if |msg| <= SF_DATA {
        SendSingle(msg);
      } else {
        SendFirst(msg);
      }
    }

    /** Counts a confirmed frame that is not the last one; `full` tells whether its block is complete. */
    method CountConfirmed() returns (full: bool)
      modifies this`sn, this`blIndex
      ensures sn == NextSn(old(sn))
      ensures full <==> bsPair > 0 && (old(blIndex) + 1) % 256 >= bsPair
      ensures blIndex == if bsPair == 0 then old(blIndex) else if full then 0 else (old(blIndex) + 1) % 256
    {
      sn := (sn + 1) % 256;
      if sn > 0x0f {
        sn := 0;
      }
      full := false;
      if bsPair > 0 {
        blIndex := (blIndex + 1) % 256;
        if blIndex >= bsPair {
          blIndex := 0;
          full := true;
        }
      }
    }

    /** More frames are to follow: at once, or, after a full block, once Flow Control has come. */
    method ConfirmNotLast() returns (again: bool)
      modifies this`timer, this`state, this`signalled, this`sn, this`blIndex
      ensures sn == NextSn(old(sn)) && signalled
      ensures again <==> bsPair == 0 || (old(blIndex) + 1) % 256 < bsPair
      ensures blIndex == if bsPair == 0 then old(blIndex) else if again then (old(blIndex) + 1) % 256 else 0
      ensures if again then state == CfSent && timer == old(timer) else state == CfFcWait && timer == Armed(N_Bs)
    {
      var full := CountConfirmed();
      if full {
        timer := Armed(N_Bs);
        state, signalled := CfFcWait, true;
        return false;
      }
      state, signalled := CfSent, true;
      return true;
    }

    /** The confirm handler for Consecutive Frames, up to the sleep; `again` tells whether it goes on. */
    method ConfirmCf() returns (again: bool)
      requires state == CfSending || state == CfSent
      modifies this`timer, this`state, this`signalled, this`results, this`sn, this`blIndex
      ensures Did(Spec.Confirm(old(View())))
      ensures again <==> Spec.Confirm(old(View())).gave && state == CfSent
    {
      hide Encode, NextSn, Proper;
      timer := Stopped;
      var remaining := len - index;
      if remaining < 0 {
        return false;
      } else if remaining == 0 {
        state, signalled := Idle, true;
        results := results + [TxDoneCb];
        return false;
      }
      again := ConfirmNotLast();
    }

    method SleepAndSend()
      requires index <= len == |data|
      modifies this`index, this`timer, this`state, this`signalled, this`tx, this`sleptUs
      ensures Did(Spec.SendCfAfterCf(old(View())))
      ensures sleptUs == old(sleptUs) + stTimUs
    {
      if stTimUs > 0 {
        sleptUs := sleptUs + stTimUs;
      }
      timer := Armed(N_Cs);
      SendCfAfterCf();
    }

    method ConfirmSf()
      requires state == SfSending
      modifies this`timer, this`state, this`signalled, this`results
      ensures Did(Spec.Confirm(old(View())))
    {
      hide Encode;
      state, signalled := Idle, true;
      timer := Stopped;
      results := results + [ResultOk];
    }

    method ConfirmFf()
      requires state == FfSending
      modifies this`timer, this`state, this`signalled, this`sn, this`index
      ensures Did(Spec.Confirm(old(View())))
    {
      hide Encode;
      timer := Stopped;
      timer := Armed(N_Bs);
      sn := 1;
      index := FF_DATA;
      state, signalled := FfFcWait, true;
    }

    method CantxConfirm()
      requires state == CfSending || state == CfSent ==> index <= len == |data|
      modifies this
      ensures Did(Spec.ConfirmAndSend(old(View()))) && held == old(held)
      ensures var o := Spec.Confirm(old(View()));
              sleptUs == old(sleptUs) + if o.gave && o.s.state == CfSent then old(stTimUs) else 0
    {
      Spec.ConfirmEndsElsewhere(View());
      hide Encode, Spec.Confirm, Spec.NextCf, Spec.NextCount;
      match state {
        case SfSending => ConfirmSf();
        case FfSending => ConfirmFf();
        case CfSent | CfSending =>
          var again := ConfirmCf();
          if again {
            SleepAndSend();
          }
        case _ =>
      }
    }

    /** Takes over block size and separation time; `valid` tells whether the separation time is not reserved. */
    method TakeParameters(bs: byte, st: byte) returns (valid: bool)
      modifies this`timer, this`bsPair, this`stPair, this`stTimUs
      ensures timer == Armed(N_Cs) && bsPair == bs && stPair == st
      ensures valid <==> Spec.DecodeSt(st).Some?
      ensures stTimUs == if valid then Spec.DecodeSt(st).value else old(stTimUs)
    {
      timer := Stopped;
      timer := Armed(N_Cs);
      bsPair := bs;
      stPair := st;
      valid := true;
      if stPair < 0x80 {
        stTimUs := 1000 * stPair;
      } else if stPair >= 0xf1 && stPair <= 0xf9 {
        stTimUs := 100 * (stPair - 0xf0);
      } else {
        valid := false;
      }
    }

    method RxFlowControlFrame(frame: wire)
      requires len > index ==> len == |data|
      modifies this`timer, this`bsPair, this`stPair, this`stTimUs, this`index, this`state, this`signalled, this`tx
      ensures Did(Spec.FlowControl(old(View()), Low(frame[0]), frame[1], frame[2]))
    {
      hide Encode, Spec.SendCfAfterFc, Spec.DecodeSt;
      var valid := TakeParameters(frame[1], frame[2]);
      if !valid {
        return;
      }
      var fs := Low(frame[0]);
      if fs == FS_CTS {
        SendCfAfterFc();
      } else if fs == FS_WAIT {
        timer := Armed(N_Bs);
      }
    }

    /** A Flow Control frame arrives: it is handled at once, or held until the sender's state changes. */
    method CanRxFlowControl(frame: wire)
      requires len > index ==> len == |data|
      requires Decode(frame).FC? && held == None
      modifies this
      ensures var f := Decode(frame);
              if Spec.Accepts(wide, old(state)) then
                Did(Spec.FlowControl(old(View()), f.fs, f.bs, f.st)) && held == None
              else
                held == Some(frame) && !signalled && View() == old(View()) && tx == old(tx) && results == old(results)
    {
      if Spec.Accepts(wide, state) {
        RxFlowControlFrame(frame);
      } else {
        held := Some(frame);
        signalled := false;
      }
    }

    /** The wait for a state change is over: the frame is handled if the state now allows it, else dropped. */
    method WaitEnded(timedOut: bool)
      requires len > index ==> len == |data|
      requires held.Some? && Decode(held.value).FC?
      requires timedOut || signalled
      modifies this
      ensures held == None
      ensures var f := Decode(old(held).value);
              if !timedOut && Spec.Accepts(wide, old(state)) then Did(Spec.FlowControl(old(View()), f.fs, f.bs, f.st))
              else View() == old(View()) && tx == old(tx) && results == old(results)
    {
      var frame := held.value;
      held := None;
      if !timedOut && Spec.Accepts(wide, state) {
        RxFlowControlFrame(frame);
      }
    }

    /** The timer has run out; being one-shot, it has stopped by itself. */
    method TimerExpired()
      requires timer.Armed?
      modifies this`timer, this`state, this`signalled, this`results
      ensures Did(Spec.Expire(old(View())))
    {
      timer := Stopped;
      match state {
        case FfSending | CfSending | SfSending =>
          state, signalled := Idle, true;
          results := results + [TimeoutAs];
        case FfFcWait =>
          state, signalled := Idle, true;
          results := results + [TimeoutBs];
        case _ =>
      }
    }
  }
}
