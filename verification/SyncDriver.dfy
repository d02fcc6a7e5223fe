/** A link layer that confirms inside the transmit call: confirmation, next frame and transmission call each
    other, and the recursion ends because every round sends message bytes. */
module SyncDriver {
  import opened CanTpTypes
  import opened Frames
  import opened Segmentation
  import opened SenderSpec
  import SenderContext

  /** What a chain of nested calls does: the final state, the frames sent, the report if any, its depth. */
  datatype Chain = Chain(s: Sndr, frames: seq<Frame>, report: Option<Outcome>, depth: nat)

  /** Good states that a confirmation can find. */
  predicate Confirmable(s: Sndr) {
    Good(s) && s.state != CfSent
  }

  lemma ConfirmAndSendKeeps(s: Sndr)
    requires Confirmable(s)
    ensures var o := ConfirmAndSend(s);
            && Confirmable(o.s)
            && (o.tx.Some? ==> s.state == CfSending && o.s.state == CfSending && o.report == None && o.tx.value.CF?
                               && 0 <= Remaining(o.s) < Remaining(s))
  {
    StepKeepsGood(false, s, EvConfirm);
    if Confirm(s).s.state == CfSent {
      StepKeepsGood(false, Confirm(s).s, EvWake);
    }
  }

  /** The bytes a nested confirmation still has to send. */
  function Rest(s: Sndr): nat {
    if s.state == CfSending && Remaining(s) > 0 then Remaining(s) else 0
  }

  /** The confirm handler when its transmit call confirms at once. */
  function SyncConfirm(s: Sndr): (ch: Chain)
    requires Confirmable(s)
    ensures Confirmable(ch.s) && ch.depth == |ch.frames| + 1
    ensures forall i :: 0 <= i < |ch.frames| ==> ch.frames[i].CF?
    decreases Rest(s), if ConfirmAndSend(s).tx.Some? then 1 else 0
  {
    ConfirmAndSendKeeps(s);
    var o := ConfirmAndSend(s);
    if o.tx == None then Chain(o.s, [], o.report, 1)
    else
      var ch := SyncConfirm(o.s);
      Chain(ch.s, [o.tx.value] + ch.frames, ch.report, ch.depth + 1)
  }

  /** The same chain as separate events of the asynchronous machine. */
  function Unrolled(s: Sndr): (evs: seq<Event>)
    requires Confirmable(s)
    decreases Rest(s), if ConfirmAndSend(s).tx.Some? then 1 else 0
  {
    ConfirmAndSendKeeps(s);
    var o := ConfirmAndSend(s);
    if o.tx == None then [EvConfirm] else [EvConfirm, EvWake] + Unrolled(o.s)
  }

  /** The asynchronous machine from any good state: state, frames and last report after some events. */
  function Drive(wide: bool, s: Sndr, evs: seq<Event>): (ch: Option<Chain>)
    requires Good(s)
    decreases |evs|
  {
    if evs == [] then Some(Chain(s, [], None, 0))
    else if !Enabled(wide, s, evs[0]) then None
    else
      StepKeepsGood(wide, s, evs[0]);
      var o := Step(wide, s, evs[0]);
      match Drive(wide, o.s, evs[1..])
      case None => None
      case Some(ch) =>
        Some(Chain(ch.s, if o.tx.Some? then [o.tx.value] + ch.frames else ch.frames,
                   if ch.report.Some? then ch.report else o.report, ch.depth))
  }

  lemma DriveFirst(wide: bool, s: Sndr, ev: Event, evs: seq<Event>)
    requires Good(s) && Enabled(wide, s, ev)
    ensures Good(Step(wide, s, ev).s)
    ensures var o := Step(wide, s, ev);
            var d := Drive(wide, o.s, evs);
            Drive(wide, s, [ev] + evs) ==
            if d == None then None
            else Some(Chain(d.value.s, if o.tx.Some? then [o.tx.value] + d.value.frames else d.value.frames,
                            if d.value.report.Some? then d.value.report else o.report, d.value.depth))
  {
    StepKeepsGood(wide, s, ev);
    assert ([ev] + evs)[1..] == evs;
    hide Step, Good;
  }

  /** The nested calls end in the state, with the frames and the report, that the asynchronous machine
      reaches by the same confirmations one after the other. */
  lemma {:induction false} SyncIsAsync(wide: bool, s: Sndr)
    requires Confirmable(s)
    ensures var ch := SyncConfirm(s);
            Drive(wide, s, Unrolled(s)) == Some(Chain(ch.s, ch.frames, ch.report, 0))
    decreases Rest(s), if ConfirmAndSend(s).tx.Some? then 1 else 0
  {
    ConfirmAndSendKeeps(s);
    ConfirmEndsElsewhere(s);
    var o := ConfirmAndSend(s);
    if o.tx == None {
      DriveFirst(wide, s, EvConfirm, []);
      assert [EvConfirm] + [] == Unrolled(s);
    } else {
      var rest := Unrolled(o.s);
      SyncIsAsync(wide, o.s);
      DriveFirst(wide, s, EvConfirm, [EvWake] + rest);
      DriveFirst(wide, Confirm(s).s, EvWake, rest);
      assert [EvConfirm] + ([EvWake] + rest) == Unrolled(s);
    }
    hide Drive, Good, NextCf;
  }

  /** What the chain from a state that has emitted `log` comes to. */
  predicate Emits(s: Sndr, msg: seq<byte>, log: seq<Frame>, ch: Chain)
    requires |msg| >= 8
  {
    && log + ch.frames <= Segment(msg) && Tracks(ch.s, msg, log + ch.frames)
    && (ch.s.state == Idle || ch.s.state == CfFcWait)
    && (ch.s.state == Idle ==> log + ch.frames == Segment(msg) && ch.report == Some(TxDoneCb))
    && (s.bsPair == 0 ==> ch.s.state == Idle)
    && |log| + |ch.frames| <= NumCf(|msg|) + 1
  }

  lemma EmitsMore(s: Sndr, t: Sndr, msg: seq<byte>, log: seq<Frame>, f: Frame, ch: Chain)
    requires |msg| >= 8 && Emits(t, msg, log + [f], ch) && t.bsPair == s.bsPair
    ensures Emits(s, msg, log, Chain(ch.s, [f] + ch.frames, ch.report, ch.depth + 1))
  {
    hide Segment, Tracks, NumCf;
    assert log + ([f] + ch.frames) == (log + [f]) + ch.frames;
  }

  lemma SegmentedTracks(s: Sndr, msg: seq<byte>, log: seq<Frame>)
    requires Good(s) && Tracks(s, msg, log) && s.state == CfSending
    ensures |msg| >= 8 && |log| >= 2 && s.index <= s.len == |s.data|
  {
  }

  lemma EmittedBound(s: Sndr, msg: seq<byte>, log: seq<Frame>, ch: Chain)
    requires |msg| >= 8 && Emits(s, msg, log, ch)
    ensures |log| + |ch.frames| <= NumCf(|msg|) + 1
  {
  }

  lemma StoppedChain(s: Sndr, msg: seq<byte>, log: seq<Frame>)
    requires Good(s) && s.state == CfSending && Tracks(s, msg, log) && ConfirmAndSend(s).tx == None
    ensures |msg| >= 8 && Emits(s, msg, log, Chain(ConfirmAndSend(s).s, [], ConfirmAndSend(s).report, 1))
  {
    ConfirmTracks(s, msg, log);
    assert log + [] == log;
    if Remaining(s) == 0 {
      assert |log| == |Segment(msg)|;
      assert log == Segment(msg)[..|log|];
    }
  }

  lemma NextRound(s: Sndr, msg: seq<byte>, log: seq<Frame>)
    requires Good(s) && s.state == CfSending && Tracks(s, msg, log) && ConfirmAndSend(s).tx.Some?
    ensures var o := ConfirmAndSend(s);
            o.s.bsPair == s.bsPair && |msg| >= 8 && Tracks(o.s, msg, log + [o.tx.value])
  {
    var t := Confirm(s).s;
    ConfirmTracks(s, msg, log);
    StepKeepsGood(false, s, EvConfirm);
    EmittingStepTracks(false, t, EvWake, msg, log);
  }

  /** From a state that has emitted `log`, the chain emits the next frames of the segmentation, as many as the
      block or the message allows, and is nested no deeper than there are Consecutive Frames. */
  lemma {:induction false} SyncEmitsSegments(s: Sndr, msg: seq<byte>, log: seq<Frame>)
    requires Confirmable(s) && s.state == CfSending && Tracks(s, msg, log)
    ensures |msg| >= 8 && |log| >= 2
    ensures Emits(s, msg, log, SyncConfirm(s)) && SyncConfirm(s).depth <= NumCf(|msg|)
    decreases Rest(s), if ConfirmAndSend(s).tx.Some? then 1 else 0
  {
    hide Good, NextCf, Tracks, Segment, Confirm, Emits, NumCf;
    SegmentedTracks(s, msg, log);
    ConfirmAndSendKeeps(s);
    var o := ConfirmAndSend(s);
    if o.tx == None {
      StoppedChain(s, msg, log);
    } else {
      NextRound(s, msg, log);
      SyncEmitsSegments(o.s, msg, log + [o.tx.value]);
      EmitsMore(s, o.s, msg, log, o.tx.value, SyncConfirm(o.s));
    }
    EmittedBound(s, msg, log, SyncConfirm(s));
  }

  lemma AllEmitted(s: Sndr, msg: seq<byte>, log: seq<Frame>, ch: Chain)
    requires |msg| >= 8 && Emits(s, msg, log, ch) && s.bsPair == 0
    ensures log + ch.frames == Segment(msg) && ch.s.state == Idle && ch.report == Some(TxDoneCb)
  {
  }

  /** One Flow Control frame that allows everything makes the nested calls send the whole rest of the
      message and report it done before the frame's handler returns. */
  lemma OneCtsSendsAll(s: Sndr, msg: seq<byte>, log: seq<Frame>, st: byte)
    requires Good(s) && s.state == FfFcWait && Tracks(s, msg, log) && DecodeSt(st).Some?
    ensures |msg| >= 8
    ensures var o := FlowControl(s, FS_CTS, 0, st);
            && o.tx.Some? && Confirmable(o.s)
            && var ch := SyncConfirm(o.s);
               && log + [o.tx.value] + ch.frames == Segment(msg)
               && ch.s.state == Idle && ch.report == Some(TxDoneCb) && ch.depth <= NumCf(|msg|)
  {
    hide Segment, NextCf, NumCf, Emits, SyncConfirm;
    var o := FlowControl(s, FS_CTS, 0, st);
    StepKeepsGood(false, s, EvFc(FS_CTS, 0, st));
    EmittingStepTracks(false, s, EvFc(FS_CTS, 0, st), msg, log);
    hide Good, Tracks;
    SyncEmitsSegments(o.s, msg, log + [o.tx.value]);
    AllEmitted(o.s, msg, log + [o.tx.value], SyncConfirm(o.s));
  }

  lemma GoodCounters(s: Sndr)
    requires Good(s)
    ensures s.state == CfSending || s.state == CfSent ==> s.index <= s.len == |s.data|
  {
  }

  /** The confirm handler of a context whose transmit call confirms at once: as the last thing it does,
      the handler transmits the next frame, and so is called again. */
  method ConfirmNested(ctx: SenderContext.Sender)
    requires Confirmable(ctx.View())
    modifies ctx
    ensures var ch := SyncConfirm(old(ctx.View()));
            && ctx.View() == ch.s
            && (forall i :: 0 <= i < |ch.frames| ==> Proper(ch.frames[i]))
            && ctx.tx == old(ctx.tx) + Wires(ch.frames)
            && ctx.results == Append(old(ctx.results), ch.report)
    decreases Rest(ctx.View()), if ConfirmAndSend(ctx.View()).tx.Some? then 1 else 0
  {
    hide Encode, Good, Confirm, NextCf;
    ghost var s, tx := ctx.View(), ctx.tx;
    ConfirmAndSendKeeps(s);
    GoodCounters(s);
    var sent := |ctx.tx|;
    ctx.CantxConfirm();
    if |ctx.tx| > sent {
      ghost var o := ConfirmAndSend(s);
      assert Wires([o.tx.value] + SyncConfirm(o.s).frames) == [Encode(o.tx.value)] + Wires(SyncConfirm(o.s).frames);
      ConfirmNested(ctx);
    } else {
      assert Wires([]) == [];
    }
  }
}
