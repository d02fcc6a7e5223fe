/** Without timeouts, sender and receiver stay in lockstep although they share no state: both block counters
    count the same frames, and the sender waits exactly for the Flow Control that is owed to it. */
module Lockstep {
  import opened CanTpTypes
  import opened Frames
  import opened Segmentation
  import opened Protocol
  import P = ParamsSpec
  import R = ReceiverSpec
  import S = SenderSpec

  /** The session layer takes the message, and the receiver's parameters are as initialisation leaves them. */
  predicate Viable(c: Cfg) {
    && Sound(c) && Proceeds(c)
    && P.WaitsNeedSmallBlocks(c.p)
    && S.DecodeSt(c.p.stMin).Some?
  }

  function N(c: Cfg): nat { NumCf(|c.msg|) }

  /** The steps of a run without timeouts. */
  predicate Timely(st: Step) {
    st != DoExpire && st != DoGiveUp
  }

  /** The frame before which the sender has to wait: the e-th frame ends a block that is not the message's end. */
  predicate EndsBlock(c: Cfg, e: nat) {
    c.p.blockSize > 0 && (e - 1) % c.p.blockSize == 0
  }

  /** As written, the message must fit one block; with the documented guard every message completes. */
  predicate Completes(c: Cfg) {
    c.wide || c.p.blockSize == 0 || N(c) <= c.p.blockSize
  }

  lemma ModSmall(a: nat, b: nat)
    requires a < b
    ensures a % b == a
  {
  }

  lemma OneBlock(c: Cfg, e: nat)
    requires c.p.blockSize > 0 && EndsBlock(c, e) && 2 <= e <= c.p.blockSize + 1
    ensures e == c.p.blockSize + 1
  {
    if e <= c.p.blockSize {
      ModSmall(e - 1, c.p.blockSize);
    }
  }

  // ----- The sender against the number of frames it has emitted -----

  function WaitingState(c: Cfg, e: nat, unconfirmed: nat): State {
    if e == 0 then Idle
    else if unconfirmed > 0 then (if e == 1 then FfSending else CfSending)
    else if e == 1 then FfFcWait
    else if e == N(c) + 1 then Idle
    else if EndsBlock(c, e) then CfFcWait
    else CfSent
  }

  /** How many Consecutive Frames other than the last the sender has counted. */
  function Counted(c: Cfg, e: nat, unconfirmed: nat): nat {
    if e < 2 then 0 else if unconfirmed > 0 || e == N(c) + 1 then e - 2 else e - 1
  }

  predicate SenderInStep(c: Cfg, s: S.Sndr, e: nat, unconfirmed: nat, reports: seq<Outcome>) {
    && unconfirmed <= (if e == 0 then 0 else 1)
    && s.state == WaitingState(c, e, unconfirmed)
    && reports == (if e == N(c) + 1 && unconfirmed == 0 then [TxDoneCb] else [])
    && s.blIndex == (if c.p.blockSize == 0 then 0 else Counted(c, e, unconfirmed) % c.p.blockSize)
    && (s.state == CfSending || s.state == CfSent ==>
          s.bsPair == c.p.blockSize && Some(s.stTimUs) == S.DecodeSt(c.p.stMin))
    && (!c.wide && c.p.blockSize > 0 ==> e <= c.p.blockSize + 1)
  }

  lemma SendInStep(c: Cfg, s: S.Sndr)
    requires SenderInStep(c, s, 0, 0, [])
    ensures SenderInStep(c, S.SendMsg(s, c.msg).s, 1, 1, []) && S.SendMsg(s, c.msg).report == None
  {
  }

  lemma AllSentWhenLast(c: Cfg, s: S.Sndr, log: seq<Frame>)
    requires S.Good(s) && S.Tracks(s, c.msg, log) && s.state == CfSending
    ensures 2 <= |log| <= N(c) + 1 && S.Remaining(s) >= 0
    ensures S.Remaining(s) == 0 <==> |log| == N(c) + 1
  {
  }

  lemma ConfirmCases(s: S.Sndr)
    requires s.state == CfSending && S.Remaining(s) >= 0
    ensures var o := S.Confirm(s);
            var bl := (s.blIndex + 1) % 256;
            && o.gave
            && (S.Remaining(s) == 0 ==> o.s == s.(timer := Stopped, state := Idle) && o.report == Some(TxDoneCb))
            && (S.Remaining(s) > 0 ==>
                  && o.report == None && o.s.bsPair == s.bsPair && o.s.stTimUs == s.stTimUs
                  && (if s.bsPair == 0 then o.s.state == CfSent && o.s.blIndex == s.blIndex
                      else if bl >= s.bsPair then o.s.state == CfFcWait && o.s.blIndex == 0
                      else o.s.state == CfSent && o.s.blIndex == bl))
  {
  }

  lemma SmallCounter(s: S.Sndr)
    requires S.Good(s)
    ensures s.blIndex <= 254
  {
  }

  /** The confirmation of the (e-1)-th Consecutive Frame, in terms of e alone. */
  lemma ConfirmCf(c: Cfg, s: S.Sndr, log: seq<Frame>)
    requires S.Good(s) && S.Tracks(s, c.msg, log) && s.state == CfSending
    requires s.bsPair == c.p.blockSize && s.blIndex == if c.p.blockSize == 0 then 0 else (|log| - 2) % c.p.blockSize
    ensures var o := S.Confirm(s);
            var e := |log|;
            && o.gave
            && (e == N(c) + 1 ==> o.s == s.(timer := Stopped, state := Idle) && o.report == Some(TxDoneCb))
            && (e != N(c) + 1 ==>
                  && o.report == None && o.s.bsPair == s.bsPair && o.s.stTimUs == s.stTimUs
                  && o.s.state == (if EndsBlock(c, e) then CfFcWait else CfSent)
                  && o.s.blIndex == if c.p.blockSize == 0 then 0 else (e - 1) % c.p.blockSize)
  {
    hide S.Tracks, S.Good, S.CountersOk, N, S.Confirm;
    AllSentWhenLast(c, s, log);
    ConfirmCases(s);
    SmallCounter(s);
    if c.p.blockSize > 0 {
      R.ModNext(|log| - 2, c.p.blockSize);
    }
  }

  lemma ConfirmInStep(c: Cfg, s: S.Sndr, log: seq<Frame>, reports: seq<Outcome>)
    requires SenderInStep(c, s, |log|, 1, reports) && S.Good(s) && S.Tracks(s, c.msg, log)
    ensures SenderInStep(c, S.Confirm(s).s, |log|, 0, Append(reports, S.Confirm(s).report))
    ensures S.Confirm(s).gave
  {
    if |log| >= 2 {
      ConfirmCf(c, s, log);
      hide S.Confirm;
    }
    hide S.Tracks, Segment;
  }

  lemma WakeInStep(c: Cfg, s: S.Sndr, e: nat, reports: seq<Outcome>)
    requires SenderInStep(c, s, e, 0, reports) && S.Good(s) && s.state == CfSent
    ensures SenderInStep(c, S.SendCfAfterCf(s).s, e + 1, 1, reports)
  {
    hide S.NextCf;
    assert c.p.blockSize > 0 ==> c.p.blockSize % c.p.blockSize == 0;
  }

  lemma CtsInStep(c: Cfg, s: S.Sndr, e: nat, reports: seq<Outcome>)
    requires Viable(c) && SenderInStep(c, s, e, 0, reports) && S.Good(s) && S.Accepts(c.wide, s.state)
    ensures var o := S.FlowControl(s, FS_CTS, c.p.blockSize, c.p.stMin);
            o.tx.Some? && o.report == None && SenderInStep(c, o.s, e + 1, 1, reports)
  {
    hide S.NextCf;
  }

  lemma WaitInStep(c: Cfg, s: S.Sndr, e: nat, reports: seq<Outcome>)
    requires SenderInStep(c, s, e, 0, reports) && S.Good(s) && S.Accepts(c.wide, s.state)
    ensures var o := S.FlowControl(s, FS_WAIT, 0, 0);
            o.tx == None && o.report == None && SenderInStep(c, o.s, e, 0, reports)
  {
    hide S.NextCf;
  }

  // ----- The Flow Control frames on their way -----

  /** Flow Control not yet handled by the sender, in order. */
  function FlightOf(held: Option<Frame>, rev: seq<Frame>, outbox: seq<Frame>): (f: seq<Frame>)
    ensures f == [] <==> held == None && rev == [] && outbox == []
  {
    if held.Some? then [held.value] + (rev + outbox) else rev + outbox
  }

  function Flight(w: World): seq<Frame> {
    FlightOf(w.held, w.rev, w.outbox)
  }

  /** Sending and holding a frame leave it in its place; taking the first one leaves the others. */
  lemma FlightMoves(held: Option<Frame>, rev: seq<Frame>, outbox: seq<Frame>)
    ensures outbox != [] ==> FlightOf(held, rev + [outbox[0]], outbox[1..]) == FlightOf(held, rev, outbox)
    ensures var f := FlightOf(held, rev, outbox);
            && (held.Some? ==> f[0] == held.value && f[1..] == FlightOf(None, rev, outbox))
            && (held == None && rev != [] ==>
                  && f[0] == rev[0] && f[1..] == FlightOf(None, rev[1..], outbox)
                  && FlightOf(Some(rev[0]), rev[1..], outbox) == f)
  {
    if outbox != [] {
      assert (rev + [outbox[0]]) + outbox[1..] == rev + outbox;
    }
    if rev != [] {
      assert rev + outbox == [rev[0]] + (rev[1..] + outbox);
    }
  }

  /** `k` wait frames and then the one that lets the sender continue. */
  function Owed(p: P.Params, k: nat): (f: seq<Frame>)
    ensures |f| == k + 1
  {
    R.Waits(k) + [R.Cts(p)]
  }

  /** Flow Control is on its way only when the receiver has caught up with a sender that needs it, and then
      it is wait frames followed by one frame to continue; unless the sender drops such frames, it is there. */
  predicate FlightOk(c: Cfg, f: seq<Frame>, e: nat, q: int) {
    if e == q && 1 <= q <= N(c) && R.CtsDue(c.p, q) then
      && (f != [] ==> f == Owed(c.p, |f| - 1) && |f| - 1 <= (if q == 1 then 0 else c.p.wftNum))
      && (c.wide || q == 1 ==> f != [])
    else f == []
  }

  /** No frame the receiver has still to handle, except the newest, makes the sender wait. */
  predicate Clear(c: Cfg, e: nat, q: int) {
    forall k: nat :: q < k < e ==> !R.CtsDue(c.p, k)
  }

  /** A held frame waits for a change of state that will let it pass, or, as written, for nothing. */
  predicate HeldOk(c: Cfg, w: World) {
    w.held.Some? ==>
      if w.signalled then w.s.state == FfFcWait || w.s.state == CfFcWait
      else w.s.state == FfSending || w.s.state == CfSending || (!c.wide && w.s.state == CfFcWait)
  }

  /** What lockstep is about, apart from safety. */
  predicate InStep(c: Cfg, w: World) {
    && SenderInStep(c, w.s, |w.log|, w.unconfirmed, w.reports)
    && FlightOk(c, Flight(w), |w.log|, Taken(w))
    && Clear(c, |w.log|, Taken(w))
    && HeldOk(c, w)
  }

  predicate LockInv(c: Cfg, w: World) {
    SafeInv(c, w) && InStep(c, w)
  }

  lemma OwedFront(p: P.Params, f: seq<Frame>)
    requires f != [] && f == Owed(p, |f| - 1)
    ensures f[0] == if |f| == 1 then R.Cts(p) else R.WAIT
    ensures |f| > 1 ==> f[1..] == Owed(p, |f| - 2)
    ensures |f| == 1 ==> f[1..] == []
  {
  }

  /** What the receiver sends on account of a frame is exactly what the sender will need. */
  lemma AnswerIsOwed(c: Cfg, q: nat)
    requires Viable(c)
    ensures R.Answer(c.p, N(c), q) ==
            if 1 <= q <= N(c) && R.CtsDue(c.p, q) then Owed(c.p, if q == 1 then 0 else c.p.wftNum) else []
  {
    assert c.p.blockSize == 1 ==> q <= 1 || (q - 1) % 1 == 0;
    assert [] + [R.Cts(c.p)] == R.Waits(0) + [R.Cts(c.p)];
    assert c.p.wftNum == 0 ==> R.Waits(c.p.wftNum) + [] == [];
  }

  /** Handling a frame, in terms of what the sender makes of it. */
  lemma HandleIs(c: Cfg, w: World, f: Frame)
    requires S.Good(w.s) && f.FC? && S.Accepts(c.wide, w.s.state)
    ensures var o, v := S.FlowControl(w.s, f.fs, f.bs, f.st), Handle(c, w, f);
            && v.s == o.s && |v.log| == |w.log| + Count(o.tx) && Taken(v) == Taken(w)
            && v.unconfirmed == w.unconfirmed + Count(o.tx) && v.reports == Append(w.reports, o.report)
  {
    hide S.FlowControl, S.Good;
  }

  lemma WaitsForNothing(c: Cfg, w: World)
    requires SenderInStep(c, w.s, |w.log|, w.unconfirmed, w.reports) && S.Accepts(c.wide, w.s.state)
    ensures w.unconfirmed == 0
  {
  }

  lemma RestOfFlight(c: Cfg, f: seq<Frame>, e: nat, q: nat)
    requires f != [] && FlightOk(c, f, e, q) && Clear(c, e, q)
    ensures f[0] == if |f| == 1 then R.Cts(c.p) else R.WAIT
    ensures if |f| == 1 then FlightOk(c, f[1..], e + 1, q) && Clear(c, e + 1, q) else FlightOk(c, f[1..], e, q)
  {
    OwedFront(c.p, f);
    hide R.CtsDue, Owed;
  }

  /** The sender takes the front of the flight: a wait frame, or the frame that lets it continue. */
  lemma FcInStep(c: Cfg, w: World, f: seq<Frame>)
    requires Viable(c) && S.Good(w.s) && S.Accepts(c.wide, w.s.state) && Taken(w) >= 0
    requires SenderInStep(c, w.s, |w.log|, w.unconfirmed, w.reports)
    requires f != [] && FlightOk(c, f, |w.log|, Taken(w)) && Clear(c, |w.log|, Taken(w)) && f[0].FC?
    ensures var v := Handle(c, w, f[0]);
            && SenderInStep(c, v.s, |v.log|, v.unconfirmed, v.reports)
            && FlightOk(c, f[1..], |v.log|, Taken(v)) && Clear(c, |v.log|, Taken(v))
  {
    hide S.FlowControl, S.Good, SenderInStep, Viable, Handle, FlightOk, Clear;
    WaitsForNothing(c, w);
    RestOfFlight(c, f, |w.log|, Taken(w));
    HandleIs(c, w, f[0]);
    if |f| == 1 {
      CtsInStep(c, w.s, |w.log|, w.reports);
    } else {
      WaitInStep(c, w.s, |w.log|, w.reports);
    }
  }

  lemma SegmentBound(c: Cfg, w: World)
    requires SafeInv(c, w)
    ensures 0 <= Taken(w) <= |w.log| <= N(c) + 1 && N(c) >= 1
  {
  }

  lemma BeforeEnd(c: Cfg, w: World)
    requires LockInv(c, w) && w.s.state == CfFcWait
    ensures 2 <= |w.log| <= N(c) && EndsBlock(c, |w.log|)
  {
    SegmentBound(c, w);
    hide SafeInv, FlightOk, Clear, HeldOk;
  }

  /** As written, a transfer that completes never waits after a block. */
  lemma NoBlockWait(c: Cfg, w: World)
    requires LockInv(c, w) && Completes(c) && !c.wide
    ensures w.s.state != CfFcWait
  {
    hide SafeInv, FlightOk, Clear, HeldOk, N;
    if w.s.state == CfFcWait && c.p.blockSize > 0 {
      OneBlock(c, |w.log|);
      BeforeEnd(c, w);
    }
  }

  // ----- Every timely step keeps lockstep -----

  /** No Flow Control frame was spent. */
  predicate SameCounts(w: World, v: World) {
    v.ctsSeen == w.ctsSeen && v.waitsSeen == w.waitsSeen && v.fcDropped == w.fcDropped
  }

  lemma Untouched(c: Cfg, w: World)
    requires LockInv(c, w) && w.log == []
    ensures w.fwd == [] && Taken(w) == 0 && w.held == None && Flight(w) == [] && w.unconfirmed == 0 && w.reports == []
    ensures SenderInStep(c, w.s, 0, 0, [])
  {
  }

  lemma SendLock(c: Cfg, w: World)
    requires Viable(c) && LockInv(c, w) && Workable(c, w) && Enabled(c, w, DoSend)
    ensures InStep(c, Apply(c, w, DoSend))
  {
    SendInStep(c, w.s);
    Untouched(c, w);
    hide SafeInv, AllFc, R.Ready, S.SendMsg, SenderInStep, FlightOf;
  }

  /** A confirmation changes the sender and signals it, nothing else. */
  lemma ConfirmFacts(c: Cfg, w: World)
    requires Workable(c, w) && Enabled(c, w, DoConfirm)
    ensures var o, v := S.Confirm(w.s), Apply(c, w, DoConfirm);
            v == w.(s := o.s, unconfirmed := w.unconfirmed - 1, reports := Append(w.reports, o.report),
                    signalled := w.signalled || o.gave)
  {
    S.ConfirmEndsElsewhere(w.s);
    hide S.Confirm, S.Good, AllFc, R.Ready;
  }

  lemma SenderFacts(c: Cfg, w: World)
    requires SafeInv(c, w)
    ensures S.Good(w.s) && S.Tracks(w.s, c.msg, w.log)
    ensures 0 <= Taken(w) <= |w.log|
  {
  }

  lemma OneUnconfirmed(c: Cfg, w: World)
    requires LockInv(c, w) && w.unconfirmed > 0
    ensures w.unconfirmed == 1
    ensures var o := S.Confirm(w.s);
            && SenderInStep(c, o.s, |w.log|, 0, Append(w.reports, o.report)) && o.gave
            && o.s.state == WaitingState(c, |w.log|, 0)
  {
    SenderFacts(c, w);
    assert w.unconfirmed == 1;
    hide SafeInv, S.Confirm;
    ConfirmInStep(c, w.s, w.log, w.reports);
  }

  /** A frame that is held when the awaited confirmation comes is the one the sender will now wait for. */
  lemma HeldAfterConfirm(c: Cfg, w: World)
    requires LockInv(c, w) && w.unconfirmed == 1
    ensures w.held.Some? ==> WaitingState(c, |w.log|, 0) in {FfFcWait, CfFcWait}
  {
    hide SafeInv, SenderInStep;
    assert w.held.Some? ==> Flight(w) != [];
  }

  lemma ConfirmLock(c: Cfg, w: World)
    requires Viable(c) && LockInv(c, w) && Workable(c, w) && Enabled(c, w, DoConfirm)
    ensures InStep(c, Apply(c, w, DoConfirm))
  {
    ConfirmFacts(c, w);
    OneUnconfirmed(c, w);
    HeldAfterConfirm(c, w);
    hide SafeInv, Workable, Apply, FlightOk, Clear, SenderInStep, S.Confirm, FlightOf, WaitingState;
  }

  /** Waking up sends the next frame. */
  lemma WakeFacts(c: Cfg, w: World)
    requires Workable(c, w) && Enabled(c, w, DoWake)
    ensures var o, v := S.SendCfAfterCf(w.s), Apply(c, w, DoWake);
            && v.s == o.s && |v.log| == |w.log| + 1 && |v.fwd| == |w.fwd| + 1
            && v.unconfirmed == w.unconfirmed + 1 && v.reports == w.reports
            && v.held == w.held && v.rev == w.rev && v.outbox == w.outbox && SameCounts(w, v)
  {
    hide S.NextCf, AllFc, R.Ready;
  }

  lemma WakeFlight(c: Cfg, e: nat, q: nat)
    requires q <= e && Clear(c, e, q) && !R.CtsDue(c.p, e)
    ensures FlightOk(c, [], e + 1, q) && Clear(c, e + 1, q)
  {
  }

  lemma Asleep(c: Cfg, w: World)
    requires LockInv(c, w) && w.s.state == CfSent
    ensures w.unconfirmed == 0 && w.held == None && !R.CtsDue(c.p, |w.log|) && Flight(w) == []
    ensures 0 <= Taken(w) <= |w.log|
    ensures SenderInStep(c, S.SendCfAfterCf(w.s).s, |w.log| + 1, 1, w.reports)
  {
    SenderFacts(c, w);
    hide SafeInv, S.SendCfAfterCf, S.Tracks, FlightOf;
    WakeInStep(c, w.s, |w.log|, w.reports);
  }

  lemma WakeLock(c: Cfg, w: World)
    requires Viable(c) && LockInv(c, w) && Workable(c, w) && Enabled(c, w, DoWake)
    ensures InStep(c, Apply(c, w, DoWake))
  {
    WakeFacts(c, w);
    Asleep(c, w);
    WakeFlight(c, |w.log|, Taken(w));
    hide SafeInv, Workable, Apply, SenderInStep, FlightOk, Clear, FlightOf, S.SendCfAfterCf;
  }

  lemma FlightOfOutbox(outbox: seq<Frame>)
    ensures FlightOf(None, [], outbox) == outbox
  {
  }

  /** The receiver's step leaves the sender alone and fills the receiver's outbox. */
  lemma DeliverFacts(c: Cfg, w: World)
    requires Sound(c) && Proceeds(c) && SafeInv(c, w) && Workable(c, w) && Enabled(c, w, DoDeliver)
    ensures var v := Apply(c, w, DoDeliver);
            && v.s == w.s && v.log == w.log && v.unconfirmed == w.unconfirmed && v.reports == w.reports
            && v.held == w.held && v.signalled == w.signalled && v.rev == w.rev && |v.fwd| == |w.fwd| - 1
            && v.outbox == R.Answer(c.p, N(c), Taken(w) + 1) && SameCounts(w, v)
  {
    DeliverKeepsReceiver(c, w);
    hide SafeInv, AllFc, R.Rx, R.Ready, R.Answer, ReceiverOk;
  }

  lemma CaughtUp(c: Cfg, w: World)
    requires LockInv(c, w) && w.fwd != []
    ensures 0 <= Taken(w) < |w.log| <= N(c) + 1
    ensures w.held == None && w.rev == [] && w.outbox == []
  {
    SegmentBound(c, w);
    hide SafeInv, SenderInStep;
  }

  lemma DeliverFlight(c: Cfg, e: nat, q: nat)
    requires Viable(c) && q < e <= N(c) + 1 && Clear(c, e, q)
    ensures FlightOk(c, R.Answer(c.p, N(c), q + 1), e, q + 1) && Clear(c, e, q + 1)
  {
    AnswerIsOwed(c, q + 1);
    hide R.Answer, NumCf;
  }

  lemma DeliverLock(c: Cfg, w: World)
    requires Viable(c) && LockInv(c, w) && Workable(c, w) && Enabled(c, w, DoDeliver)
    ensures InStep(c, Apply(c, w, DoDeliver))
  {
    DeliverFacts(c, w);
    CaughtUp(c, w);
    DeliverFlight(c, |w.log|, Taken(w));
    FlightOfOutbox(Apply(c, w, DoDeliver).outbox);
    hide SafeInv, Workable, Apply, SenderInStep, FlightOk, Clear, R.Answer, FlightOf;
  }

  lemma EmitLock(c: Cfg, w: World)
    requires Viable(c) && LockInv(c, w) && Workable(c, w) && Enabled(c, w, DoEmit)
    ensures InStep(c, Apply(c, w, DoEmit))
  {
    FlightMoves(w.held, w.rev, w.outbox);
    hide SafeInv, AllFc, R.Ready, SenderInStep, FlightOk, Clear, FlightOf, S.Good;
  }

  /** What receiving a Flow Control frame does, handled or held. */
  lemma ReceiveFcIs(c: Cfg, w: World)
    requires Workable(c, w) && Enabled(c, w, DoReceiveFc)
    ensures w.rev[0].FC?
    ensures var v := w.(rev := w.rev[1..]);
            Apply(c, w, DoReceiveFc) ==
            if S.Accepts(c.wide, w.s.state) then Handle(c, v, w.rev[0])
            else v.(held := Some(w.rev[0]), signalled := false)
  {
    hide Handle, R.Ready, S.Good;
  }

  /** The sender handles the front of the flight; `v` is the world without it. */
  lemma TakeFront(c: Cfg, w: World, v: World)
    requires Viable(c) && LockInv(c, w) && S.Accepts(c.wide, w.s.state)
    requires v == w.(held := v.held, rev := v.rev) && v.held == None
    requires Flight(w) != [] && Flight(w)[0].FC? && Flight(w)[1..] == Flight(v)
    ensures S.Good(v.s) && InStep(c, Handle(c, v, Flight(w)[0]))
  {
    SenderFacts(c, w);
    hide SafeInv, S.Tracks, S.Good, FlightOf, S.FlowControl;
    FcInStep(c, v, Flight(w));
  }

  /** Flow Control under way means a sender that waits for it or still waits for a confirmation. */
  lemma FlightMeansNeed(c: Cfg, w: World)
    requires LockInv(c, w) && Flight(w) != []
    ensures w.s.state in {FfSending, FfFcWait, CfSending, CfFcWait}
  {
    hide SafeInv, FlightOf;
  }

  lemma ReceiveFcLock(c: Cfg, w: World)
    requires Viable(c) && LockInv(c, w) && Workable(c, w) && Enabled(c, w, DoReceiveFc)
    ensures InStep(c, Apply(c, w, DoReceiveFc))
  {
    hide SafeInv, Workable, Apply, SenderInStep, FlightOk, Clear, FlightOf, Handle, S.Good;
    ReceiveFcIs(c, w);
    FlightMoves(w.held, w.rev, w.outbox);
    if S.Accepts(c.wide, w.s.state) {
      TakeFront(c, w, w.(rev := w.rev[1..]));
    } else {
      FlightMeansNeed(c, w);
    }
  }

  /** As written, a sender waiting after a full block drops what it needs. */
  lemma DropInStep(c: Cfg, w: World)
    requires LockInv(c, w) && w.held.Some? && w.signalled && !S.Accepts(c.wide, w.s.state)
    ensures !c.wide && w.s.state == CfFcWait
    ensures FlightOk(c, FlightOf(None, w.rev, w.outbox), |w.log|, Taken(w))
  {
    hide SafeInv, FlightOf;
    FlightMoves(w.held, w.rev, w.outbox);
    OwedFront(c.p, Flight(w));
  }

  lemma RecheckLock(c: Cfg, w: World)
    requires Viable(c) && LockInv(c, w) && Workable(c, w) && Enabled(c, w, DoRecheck)
    ensures InStep(c, Apply(c, w, DoRecheck))
  {
    FlightMoves(w.held, w.rev, w.outbox);
    hide SafeInv, AllFc, R.Ready, SenderInStep, FlightOk, Clear, FlightOf, S.FlowControl, Handle, S.Good;
    if S.Accepts(c.wide, w.s.state) {
      TakeFront(c, w, w.(held := None));
    } else {
      DropInStep(c, w);
    }
  }

  lemma StepKeepsLock(c: Cfg, w: World, st: Step)
    requires Viable(c) && LockInv(c, w) && Workable(c, w) && Enabled(c, w, st) && Timely(st)
    ensures LockInv(c, Apply(c, w, st))
  {
    StepKeepsSafe(c, w, st);
    match st {
      case DoSend => SendLock(c, w);
      case DoConfirm => ConfirmLock(c, w);
      case DoWake => WakeLock(c, w);
      case DoDeliver => DeliverLock(c, w);
      case DoEmit => EmitLock(c, w);
      case DoReceiveFc => ReceiveFcLock(c, w);
      case DoRecheck => RecheckLock(c, w);
      case _ =>
    }
    hide SafeInv, Workable, Apply, Enabled, SenderInStep, FlightOk, Clear, HeldOk;
  }

  // ----- Counting Flow Control -----

  /** How many frames that let the sender continue the receiver has answered with after q frames. */
  function CtsTotal(c: Cfg, q: nat): nat {
    if q == 0 then 0 else 1 + if c.p.blockSize == 0 then 0 else R.NonLast(N(c), q) / c.p.blockSize
  }

  function WaitTotal(c: Cfg, q: nat): nat {
    c.p.wftNum * R.NonLast(N(c), q)
  }

  /** No Flow Control frame was dropped: what was sent was handled or is on its way. */
  predicate CountsOk(c: Cfg, f: seq<Frame>, q: nat, ctsSeen: nat, waitsSeen: nat, dropped: nat) {
    && dropped == 0
    && ctsSeen + (if f == [] then 0 else 1) == CtsTotal(c, q)
    && waitsSeen + (if f == [] then 0 else |f| - 1) == WaitTotal(c, q)
  }

  predicate Counts(c: Cfg, w: World) {
    Taken(w) >= 0 && CountsOk(c, Flight(w), Taken(w), w.ctsSeen, w.waitsSeen, w.fcDropped)
  }

  lemma AnswerCounts(c: Cfg, q: nat, cts: nat, waits: nat)
    requires Viable(c) && q <= N(c) && CountsOk(c, [], q, cts, waits, 0)
    ensures CountsOk(c, R.Answer(c.p, N(c), q + 1), q + 1, cts, waits, 0)
  {
    AnswerIsOwed(c, q + 1);
    if 1 <= q < N(c) {
      P.Distribute(q - 1, c.p.wftNum);
      assert WaitTotal(c, q + 1) == WaitTotal(c, q) + c.p.wftNum;
      if c.p.blockSize > 0 {
        R.ModNext(q - 1, c.p.blockSize);
      }
    }
    hide R.Answer, NumCf;
  }

  lemma HandleCounts(c: Cfg, w: World, f: Frame)
    requires S.Good(w.s) && f.FC? && S.Accepts(c.wide, w.s.state)
    ensures var v := Handle(c, w, f);
            && v.held == w.held && v.rev == w.rev && v.outbox == w.outbox && Taken(v) == Taken(w)
            && v.fcDropped == w.fcDropped
            && v.ctsSeen == w.ctsSeen + (if f.fs == FS_CTS then 1 else 0)
            && v.waitsSeen == w.waitsSeen + (if f.fs == FS_WAIT then 1 else 0)
  {
    hide S.FlowControl, S.Good;
  }

  lemma FrontIsOwed(c: Cfg, w: World)
    requires LockInv(c, w) && Flight(w) != []
    ensures Flight(w) == Owed(c.p, |Flight(w)| - 1)
  {
    hide SafeInv, SenderInStep, FlightOf, Owed;
  }

  lemma FrontCounts(c: Cfg, w: World, v: World)
    requires LockInv(c, w) && Counts(c, w) && S.Accepts(c.wide, w.s.state)
    requires v == w.(held := v.held, rev := v.rev) && v.held == None
    requires Flight(w) != [] && Flight(w)[0].FC? && Flight(w)[1..] == Flight(v)
    ensures S.Good(v.s) && Counts(c, Handle(c, v, Flight(w)[0]))
  {
    hide InStep, S.Good, S.Tracks, FlightOf, Handle, CtsTotal, WaitTotal, Owed, SenderOk, ReceiverOk, ChannelsOk;
    SenderFacts(c, w);
    HandleCounts(c, v, Flight(w)[0]);
    FrontIsOwed(c, w);
    OwedFront(c.p, Flight(w));
  }

  /** Where transfers complete, a held frame is never rechecked in vain. */
  lemma RecheckPasses(c: Cfg, w: World)
    requires LockInv(c, w) && Completes(c) && w.held.Some? && w.signalled
    ensures S.Accepts(c.wide, w.s.state)
  {
    hide SafeInv, SenderInStep, FlightOk, Clear, Completes;
    if !c.wide {
      NoBlockWait(c, w);
    }
  }

  lemma SendCounts(c: Cfg, w: World)
    requires LockInv(c, w) && Counts(c, w) && Workable(c, w) && Enabled(c, w, DoSend)
    ensures Counts(c, Apply(c, w, DoSend))
  {
    Untouched(c, w);
    hide LockInv, S.SendMsg, S.Good, AllFc, R.Ready, CtsTotal, WaitTotal;
  }

  lemma ConfirmCounts(c: Cfg, w: World)
    requires Counts(c, w) && Workable(c, w) && Enabled(c, w, DoConfirm)
    ensures Counts(c, Apply(c, w, DoConfirm))
  {
    hide Workable, Apply, S.Confirm, CountsOk;
    ConfirmFacts(c, w);
  }

  lemma WakeCounts(c: Cfg, w: World)
    requires Counts(c, w) && Workable(c, w) && Enabled(c, w, DoWake)
    ensures Counts(c, Apply(c, w, DoWake))
  {
    hide Workable, Apply, S.SendCfAfterCf, CountsOk;
    WakeFacts(c, w);
  }

  lemma EmitCounts(c: Cfg, w: World)
    requires Counts(c, w) && Workable(c, w) && Enabled(c, w, DoEmit)
    ensures Counts(c, Apply(c, w, DoEmit))
  {
    hide AllFc, R.Ready, S.Good, FlightOf, CountsOk;
    FlightMoves(w.held, w.rev, w.outbox);
  }

  lemma NothingUnderWay(c: Cfg, w: World)
    requires Counts(c, w) && w.held == None && w.rev == [] && w.outbox == []
    ensures w.fcDropped == 0 && CountsOk(c, [], Taken(w), w.ctsSeen, w.waitsSeen, 0)
  {
    hide CtsTotal, WaitTotal;
  }

  lemma DeliverCounts(c: Cfg, w: World)
    requires Viable(c) && LockInv(c, w) && Counts(c, w) && Workable(c, w) && Enabled(c, w, DoDeliver)
    ensures Counts(c, Apply(c, w, DoDeliver))
  {
    hide SafeInv, InStep, Workable, Apply, R.Answer, FlightOf, CountsOk;
    CaughtUp(c, w);
    hide Enabled;
    DeliverFacts(c, w);
    NothingUnderWay(c, w);
    hide LockInv;
    AnswerCounts(c, Taken(w), w.ctsSeen, w.waitsSeen);
    FlightOfOutbox(Apply(c, w, DoDeliver).outbox);
  }

  lemma ReceiveFcCounts(c: Cfg, w: World)
    requires Viable(c) && LockInv(c, w) && Counts(c, w) && Workable(c, w) && Enabled(c, w, DoReceiveFc)
    ensures Counts(c, Apply(c, w, DoReceiveFc))
  {
    hide LockInv, Workable, Apply, FlightOf, Handle, CountsOk;
    ReceiveFcIs(c, w);
    FlightMoves(w.held, w.rev, w.outbox);
    if S.Accepts(c.wide, w.s.state) {
      FrontCounts(c, w, w.(rev := w.rev[1..]));
    }
  }

  lemma RecheckCounts(c: Cfg, w: World)
    requires Viable(c) && Completes(c) && LockInv(c, w) && Counts(c, w) && Workable(c, w) && Enabled(c, w, DoRecheck)
    ensures Counts(c, Apply(c, w, DoRecheck))
  {
    hide LockInv, AllFc, R.Ready, S.Good, FlightOf, Handle, Counts;
    RecheckPasses(c, w);
    FlightMoves(w.held, w.rev, w.outbox);
    FrontCounts(c, w, w.(held := None));
  }

  lemma StepKeepsCounts(c: Cfg, w: World, st: Step)
    requires Viable(c) && Completes(c) && LockInv(c, w) && Counts(c, w)
    requires Workable(c, w) && Enabled(c, w, st) && Timely(st)
    ensures Counts(c, Apply(c, w, st))
  {
    hide LockInv, Counts, Workable, Apply, Enabled;
    match st
    case DoSend => SendCounts(c, w);
    case DoConfirm => ConfirmCounts(c, w);
    case DoWake => WakeCounts(c, w);
    case DoDeliver => DeliverCounts(c, w);
    case DoEmit => EmitCounts(c, w);
    case DoReceiveFc => ReceiveFcCounts(c, w);
    case DoRecheck => RecheckCounts(c, w);
    case _ =>
  }

  // ----- Runs without timeouts -----

  predicate AllTimely(steps: seq<Step>) {
    forall i :: 0 <= i < |steps| ==> Timely(steps[i])
  }

  lemma ZeroInStep(c: Cfg)
    ensures SenderInStep(c, S.ZERO_SNDR, 0, 0, [])
  {
    hide N;
  }

  lemma InitInStep(c: Cfg)
    requires Sound(c)
    ensures LockInv(c, INIT)
  {
    hide SafeInv, R.CtsDue, R.At, FlightOf, SenderInStep, Workable, Exec, Sound, N;
    InitSafe(c);
    ZeroInStep(c);
  }

  lemma InitCounts(c: Cfg)
    ensures Counts(c, INIT)
  {
    assert WaitTotal(c, 0) == 0;
    hide WaitTotal, FlightOf, N;
  }

  /** A run's last step, unfolded. */
  lemma LastStep(c: Cfg, steps: seq<Step>)
    requires Sound(c) && steps != [] && Exec(c, steps).Some?
    ensures var k := |steps| - 1;
            && Exec(c, steps[..k]).Some?
            && Enabled(c, Exec(c, steps[..k]).value, steps[k])
            && Exec(c, steps).value == Apply(c, Exec(c, steps[..k]).value, steps[k])
  {
    hide SafeInv, Workable, Apply, Enabled;
  }

  lemma {:induction false} LockstepOnRuns(c: Cfg, steps: seq<Step>)
    requires Viable(c) && AllTimely(steps) && Exec(c, steps).Some?
    ensures LockInv(c, Exec(c, steps).value)
    ensures Completes(c) ==> Counts(c, Exec(c, steps).value)
  {
    if steps == [] {
      InitInStep(c);
      InitCounts(c);
    } else {
      var k := |steps| - 1;
      LastStep(c, steps);
      LockstepOnRuns(c, steps[..k]);
      var w := Exec(c, steps[..k]).value;
      StepKeepsLock(c, w, steps[k]);
      if Completes(c) {
        StepKeepsCounts(c, w, steps[k]);
      }
    }
    hide LockInv, Counts, Apply, Enabled;
  }

  /** The sender waits exactly when the frame it sent last is confirmed and the receiver's answer to it is one
      that lets the sender continue. */
  lemma WaitsWhenDue(c: Cfg, w: World)
    requires LockInv(c, w)
    ensures w.s.state in {FfFcWait, CfFcWait} <==>
            w.unconfirmed == 0 && 1 <= |w.log| <= N(c) && R.CtsDue(c.p, |w.log|)
  {
    SegmentBound(c, w);
    hide SafeInv, FlightOk, Clear, HeldOk;
  }

  lemma SenderCounter(c: Cfg, w: World)
    requires LockInv(c, w)
    ensures w.s.blIndex == if c.p.blockSize == 0 then 0 else Counted(c, |w.log|, w.unconfirmed) % c.p.blockSize
    ensures w.s.state == CfSending ==> w.s.bsPair == c.p.blockSize && Some(w.s.stTimUs) == S.DecodeSt(c.p.stMin)
    ensures Flight(w) != [] ==> Taken(w) == |w.log|
  {
    hide SafeInv, Counted, FlightOf;
  }

  lemma CountsAgree(c: Cfg, e: nat, q: nat, unconfirmed: nat)
    requires e <= N(c) + 1
    ensures q == e && unconfirmed == 0 ==> Counted(c, e, unconfirmed) == R.NonLast(N(c), q)
  {
  }

  lemma ReceiverCounter(c: Cfg, w: World)
    requires Viable(c) && SafeInv(c, w)
    ensures w.r.blocks == if c.p.blockSize == 0 then 0 else R.NonLast(N(c), Taken(w)) % c.p.blockSize
  {
    hide SenderOk, ChannelsOk;
  }

  /** In every run without timeouts both sides count the same frames modulo the block size, agree exactly
      whenever everything sent was confirmed and handled, and the sender sends by the receiver's parameters
      although wait frames overwrite them in between; Flow Control is under way only to a sender that needs it,
      and the sender waits exactly when its last frame, once confirmed, is one to be answered. */
  lemma BlockLockstep(c: Cfg, steps: seq<Step>)
    requires Viable(c) && AllTimely(steps) && Exec(c, steps).Some?
    ensures var w := Exec(c, steps).value;
            var e, q, bs := |w.log|, Taken(w), c.p.blockSize;
            && 0 <= q <= e
            && w.r.blocks == (if bs == 0 then 0 else R.NonLast(N(c), q) % bs)
            && w.s.blIndex == (if bs == 0 then 0 else Counted(c, e, w.unconfirmed) % bs)
            && (q == e && w.unconfirmed == 0 ==> w.s.blIndex == w.r.blocks)
            && (w.s.state == CfSending ==> w.s.bsPair == bs && Some(w.s.stTimUs) == S.DecodeSt(c.p.stMin))
            && (Flight(w) != [] ==> q == e && w.s.state in {FfSending, FfFcWait, CfSending, CfFcWait})
            && (w.s.state in {FfFcWait, CfFcWait} <==> w.unconfirmed == 0 && 1 <= e <= N(c) && R.CtsDue(c.p, e))
  {
    hide Exec, SafeInv, InStep, N, R.NonLast, Counted, S.DecodeSt, FlightOf;
    var w := Exec(c, steps).value;
    LockstepOnRuns(c, steps);
    SegmentBound(c, w);
    ReceiverCounter(c, w);
    SenderCounter(c, w);
    CountsAgree(c, |w.log|, Taken(w), w.unconfirmed);
    WaitsWhenDue(c, w);
    if Flight(w) != [] {
      FlightMeansNeed(c, w);
    }
  }

  lemma AllTaken(c: Cfg, w: World)
    requires SafeInv(c, w) && w.delivered != []
    ensures Taken(w) == N(c) + 1
  {
  }

  lemma CountsAtEnd(c: Cfg, w: World)
    requires Viable(c) && Completes(c) && LockInv(c, w) && Counts(c, w)
    ensures w.fcDropped == 0
    ensures w.delivered != [] ==>
              && w.ctsSeen == 1 + (if c.p.blockSize == 0 then 0 else (N(c) - 1) / c.p.blockSize)
              && w.waitsSeen == c.p.wftNum * (N(c) - 1)
  {
    if w.delivered != [] {
      AllTaken(c, w);
    }
    hide SafeInv, SenderInStep, Clear, HeldOk, FlightOf;
  }

  lemma WaitingIsServed(c: Cfg, w: World)
    requires Viable(c) && Completes(c) && LockInv(c, w) && w.s.state in {FfFcWait, CfFcWait}
    ensures Taken(w) < |w.log| || Flight(w) != []
  {
    hide SafeInv, Clear, HeldOk, FlightOf, Completes, N;
    SegmentBound(c, w);
    if !c.wide {
      NoBlockWait(c, w);
    }
  }

  /** Where transfers complete, no Flow Control frame is ever dropped, a waiting sender has a frame that lets
      it continue coming, and a whole transfer takes exactly 1 + floor((n - 1) / BS) such frames (one if there
      are no blocks) and wft_num wait frames for each Consecutive Frame but the last. */
  lemma FlowControlCounts(c: Cfg, steps: seq<Step>)
    requires Viable(c) && Completes(c) && AllTimely(steps) && Exec(c, steps).Some?
    ensures var w := Exec(c, steps).value;
            && w.fcDropped == 0
            && (w.s.state in {FfFcWait, CfFcWait} ==> Taken(w) < |w.log| || Flight(w) != [])
            && (w.delivered != [] ==>
                  && w.ctsSeen == 1 + (if c.p.blockSize == 0 then 0 else (N(c) - 1) / c.p.blockSize)
                  && w.waitsSeen == c.p.wftNum * (N(c) - 1))
  {
    hide Exec, SafeInv, InStep, Counts, N, FlightOf;
    var w := Exec(c, steps).value;
    LockstepOnRuns(c, steps);
    if w.s.state in {FfFcWait, CfFcWait} {
      WaitingIsServed(c, w);
    }
    CountsAtEnd(c, w);
  }

  // ----- Parameters as initialisation leaves them -----

  /** Everything proved here applies to every configuration that initialisation accepts. */
  lemma InitialisedIsViable(c: Cfg, p: P.Params)
    requires p.stMin == 0 && p.wftNum == 0 && P.Init(p) == (c.p, true)
    requires Sound(c) && Proceeds(c)
    ensures Viable(c)
  {
    P.InitLimitsBlocks(p);
    P.InitCodeValid(p);
  }

  /** Whenever the sender transmits a Consecutive Frame it uses the separation time configured at the receiver,
      rounded down to what a code byte can say. */
  lemma SendsAtConfiguredRate(c: Cfg, p: P.Params, steps: seq<Step>)
    requires p.stMin == 0 && p.wftNum == 0 && P.Init(p) == (c.p, true)
    requires p.stMinUs <= 127000 && !(900 < p.stMinUs < 1000)
    requires Sound(c) && Proceeds(c) && AllTimely(steps) && Exec(c, steps).Some?
    requires Exec(c, steps).value.s.state == CfSending
    ensures Exec(c, steps).value.s.stTimUs == P.Representable(p.stMinUs)
  {
    hide Exec, SafeInv, Viable, S.DecodeSt, AllTimely;
    InitialisedIsViable(c, p);
    BlockLockstep(c, steps);
    P.StMinRoundTrip(p);
  }
}
