/** Both roles against one clock: how far apart the sender's Consecutive Frames are, whatever makes it wait. */
module Spacing {
  import opened CanTpTypes
  import opened Frames
  import opened Protocol
  import opened Lockstep
  import opened Timing
  import Completion
  import P = ParamsSpec
  import R = ReceiverSpec
  import S = SenderSpec

  /** The least time between the k-th Consecutive Frame and the next: after a block the wait frames' time,
      inside a block the separation time. */
  function Gap(c: Cfg, k: nat): nat
    requires Viable(c) && k >= 1
  {
    if EndsBlock(c, k + 1) then c.p.wftNum * c.p.wftTimUs else S.DecodeSt(c.p.stMin).value
  }

  /** The next Consecutive Frame is not yet due: a sleep ends no sooner, and the frame that lets the sender continue
      leaves the receiver no sooner than the wait frames' time after the frame it answers. */
  predicate NotBefore(c: Cfg, t: TimedWorld) {
    && t.txAt <= t.now && t.cfAt <= t.now
    && (t.w.log != [] && t.w.fwd == [] ==> t.txAt <= t.cfAt)
    && (t.w.s.state == CfSent ==> t.txAt + t.w.s.stTimUs <= t.wakeAt)
    && (Flight(t.w) != [] && t.w.outbox == [] && |t.w.log| >= 2 ==> t.cfAt + c.p.wftNum * c.p.wftTimUs <= t.now)
  }

  lemma SendSpaced(c: Cfg, lat: nat, t: TimedWorld, at: nat)
    requires LockInv(c, t.w) && Workable(c, t.w) && MayStep(c, lat, t, DoSend, at) && NotBefore(c, t)
    ensures NotBefore(c, Tick(c, t, DoSend, at))
  {
    hide LockInv, AllFc, R.Ready, S.Good, Punctual;
    Untouched(c, t.w);
  }

  lemma ConfirmSpaced(c: Cfg, lat: nat, t: TimedWorld, at: nat)
    requires LockInv(c, t.w) && Workable(c, t.w) && MayStep(c, lat, t, DoConfirm, at) && NotBefore(c, t)
    ensures NotBefore(c, Tick(c, t, DoConfirm, at))
  {
    hide LockInv, Workable, Apply, S.Confirm, Punctual, FlightOf;
    ConfirmFacts(c, t.w);
  }

  lemma WakeSpaced(c: Cfg, lat: nat, t: TimedWorld, at: nat)
    requires LockInv(c, t.w) && Workable(c, t.w) && MayStep(c, lat, t, DoWake, at) && NotBefore(c, t)
    ensures NotBefore(c, Tick(c, t, DoWake, at))
  {
    hide LockInv, Workable, Apply, S.NextCf, Punctual, FlightOf;
    WakeFacts(c, t.w);
    Asleep(c, t.w);
  }

  lemma DeliverSpaced(c: Cfg, lat: nat, t: TimedWorld, at: nat)
    requires Viable(c) && LockInv(c, t.w) && Workable(c, t.w)
    requires MayStep(c, lat, t, DoDeliver, at) && NotBefore(c, t)
    ensures NotBefore(c, Tick(c, t, DoDeliver, at))
  {
    hide SafeInv, InStep, Workable, Apply, R.Answer, Pause, Sound, Punctual;
    CaughtUp(c, t.w);
    DeliverFacts(c, t.w);
  }

  /** The receiver answers the newest frame only. */
  lemma CaughtUpAnswering(c: Cfg, w: World)
    requires LockInv(c, w) && Flight(w) != []
    ensures Taken(w) == |w.log| && w.fwd == []
  {
    hide SafeInv, SenderInStep, Clear, HeldOk, FlightOf;
  }

  lemma EmitSpaced(c: Cfg, lat: nat, t: TimedWorld, at: nat)
    requires LockInv(c, t.w) && Workable(c, t.w) && MayStep(c, lat, t, DoEmit, at) && NotBefore(c, t)
    requires HoldsBack(c, t)
    ensures NotBefore(c, Tick(c, t, DoEmit, at))
  {
    hide SafeInv, InStep, AllFc, R.Ready, S.Good, Pause, Punctual, FlightOf, Owed;
    CaughtUpAnswering(c, t.w);
  }

  /** Handling a Flow Control frame leaves the others where they are. */
  lemma HandleSpaced(c: Cfg, lat: nat, t: TimedWorld, v: World, f: Frame, st: Step, at: nat)
    requires LockInv(c, t.w) && Workable(c, t.w) && MayStep(c, lat, t, st, at) && NotBefore(c, t)
    requires (st == DoReceiveFc || st == DoRecheck) && Flight(t.w) != []
    requires v == t.w.(held := None, rev := v.rev)
    requires S.Good(v.s) && f.FC? && S.Accepts(c.wide, v.s.state)
    requires Apply(c, t.w, st) == Handle(c, v, f) && LockInv(c, Apply(c, t.w, st))
    ensures NotBefore(c, Tick(c, t, st, at))
  {
    hide LockInv, Workable, Apply, Handle, S.FlowControl, S.Good, Punctual, FlightOf;
    CaughtUpAnswering(c, t.w);
    HandleCounts(c, v, f);
    HandleIs(c, v, f);
    Completion.HandleState(c, v, f);
    if Flight(Apply(c, t.w, st)) != [] {
      CaughtUpAnswering(c, Apply(c, t.w, st));
    }
  }

  /** Holding a Flow Control frame, or dropping it, changes no time and lets nothing leave the receiver. */
  lemma HeldSpaced(c: Cfg, lat: nat, t: TimedWorld, st: Step, at: nat)
    requires LockInv(c, t.w) && Workable(c, t.w) && MayStep(c, lat, t, st, at) && NotBefore(c, t)
    requires (st == DoReceiveFc || st == DoRecheck) && !S.Accepts(c.wide, t.w.s.state)
    ensures NotBefore(c, Tick(c, t, st, at))
  {
    hide LockInv, AllFc, R.Ready, S.Good, Handle, Punctual;
  }

  lemma ReceiveFcSpaced(c: Cfg, lat: nat, t: TimedWorld, at: nat)
    requires LockInv(c, t.w) && Workable(c, t.w) && MayStep(c, lat, t, DoReceiveFc, at) && NotBefore(c, t)
    requires LockInv(c, Apply(c, t.w, DoReceiveFc))
    ensures NotBefore(c, Tick(c, t, DoReceiveFc, at))
  {
    hide LockInv, AllFc, R.Ready, S.Good, Handle, Tick, NotBefore, Punctual, FlightOf, Apply;
    if S.Accepts(c.wide, t.w.s.state) {
      ReceiveFcIs(c, t.w);
      HandleSpaced(c, lat, t, t.w.(rev := t.w.rev[1..]), t.w.rev[0], DoReceiveFc, at);
    } else {
      HeldSpaced(c, lat, t, DoReceiveFc, at);
    }
  }

  lemma RecheckSpaced(c: Cfg, lat: nat, t: TimedWorld, at: nat)
    requires LockInv(c, t.w) && Workable(c, t.w) && MayStep(c, lat, t, DoRecheck, at) && NotBefore(c, t)
    requires LockInv(c, Apply(c, t.w, DoRecheck))
    ensures NotBefore(c, Tick(c, t, DoRecheck, at))
  {
    hide LockInv, AllFc, R.Ready, S.Good, Handle, Tick, NotBefore, Punctual, FlightOf;
    if S.Accepts(c.wide, t.w.s.state) {
      HandleSpaced(c, lat, t, t.w.(held := None), t.w.held.value, DoRecheck, at);
    } else {
      HeldSpaced(c, lat, t, DoRecheck, at);
    }
  }

  lemma StepSpaced(c: Cfg, lat: nat, t: TimedWorld, st: Step, at: nat)
    requires Viable(c) && LockInv(c, t.w) && Workable(c, t.w) && Timely(st)
    requires MayStep(c, lat, t, st, at) && NotBefore(c, t) && HoldsBack(c, t)
    ensures NotBefore(c, Tick(c, t, st, at))
  {
    hide LockInv, Workable, Apply, Tick, NotBefore, HoldsBack, Punctual;
    StepKeepsLock(c, t.w, st);
    match st
    case DoSend => SendSpaced(c, lat, t, at);
    case DoConfirm => ConfirmSpaced(c, lat, t, at);
    case DoWake => WakeSpaced(c, lat, t, at);
    case DoDeliver => DeliverSpaced(c, lat, t, at);
    case DoEmit => EmitSpaced(c, lat, t, at);
    case DoReceiveFc => ReceiveFcSpaced(c, lat, t, at);
    case DoRecheck => RecheckSpaced(c, lat, t, at);
    case _ =>
  }

  lemma LockOnTimedRuns(c: Cfg, lat: nat, run: seq<Timed>)
    requires Viable(c) && TimedExec(c, lat, run).Some? && AllTimely(Steps(run))
    ensures LockInv(c, TimedExec(c, lat, run).value.w)
  {
    hide LockInv, TimedExec, Exec, AllTimely;
    TimedRunsRun(c, lat, run);
    LockstepOnRuns(c, Steps(run));
  }

  lemma TimelyPrefix(run: seq<Timed>, k: nat)
    requires AllTimely(Steps(run)) && k <= |run|
    ensures AllTimely(Steps(run[..k])) && forall i :: 0 <= i < |run| ==> Timely(run[i].st)
  {
    forall i | 0 <= i < |run| ensures Timely(run[i].st) {
      assert Steps(run)[i] == run[i].st;
    }
  }

  lemma {:induction false} NotBeforeOnRuns(c: Cfg, lat: nat, run: seq<Timed>)
    requires Viable(c) && TimedExec(c, lat, run).Some? && AllTimely(Steps(run))
    ensures NotBefore(c, TimedExec(c, lat, run).value)
  {
    hide SafeInv, InStep, Workable, Apply, MayStep, Tick, HoldsBack, AllTimely;
    if run != [] {
      var k := |run| - 1;
      LastTimed(c, lat, run);
      TimelyPrefix(run, k);
      NotBeforeOnRuns(c, lat, run[..k]);
      LockOnTimedRuns(c, lat, run[..k]);
      HoldsBackOnRuns(c, lat, run[..k]);
      StepSpaced(c, lat, TimedExec(c, lat, run[..k]).value, run[k].st, run[k].at);
    }
  }

  // ----- From one emission to the next -----

  lemma LogGrows(c: Cfg, w: World, st: Step)
    requires Workable(c, w) && Enabled(c, w, st)
    ensures |w.log| <= |Apply(c, w, st).log| <= |w.log| + 1
  {
    hide S.Step, AllFc, R.Ready;
  }

  lemma SleepsAsAsked(c: Cfg, w: World)
    requires LockInv(c, w) && w.s.state == CfSent
    ensures Some(w.s.stTimUs) == S.DecodeSt(c.p.stMin)
  {
    hide SafeInv, FlightOk, Clear, HeldOk;
  }

  /** Only a waking sender and one that is let continue send; the one slept inside a block, the other waited
      after it. */
  lemma WakeDue(c: Cfg, lat: nat, t: TimedWorld, at: nat)
    requires Viable(c) && LockInv(c, t.w) && MayStep(c, lat, t, DoWake, at) && NotBefore(c, t) && |t.w.log| >= 2
    ensures at >= t.txAt + Gap(c, |t.w.log| - 1)
  {
    Asleep(c, t.w);
    SleepsAsAsked(c, t.w);
    hide LockInv, Punctual, FlightOf, N;
  }

  /** A frame that makes the sender send is the last one under way. */
  lemma LastUnderWay(c: Cfg, w: World)
    requires LockInv(c, w) && Flight(w) != [] && |w.log| >= 2
    ensures EndsBlock(c, |w.log|)
    ensures Flight(w)[0] != R.WAIT ==> w.outbox == [] || (w.held == None && w.rev == [])
  {
    FrontIsOwed(c, w);
    OwedFront(c.p, Flight(w));
    hide SafeInv, SenderInStep, Clear, HeldOk, Owed;
  }

  lemma WaitSendsNothing(s: S.Sndr, f: Frame)
    requires S.Good(s) && S.Accepts(true, s.state) && f.FC? && f == R.WAIT
    ensures S.FlowControl(s, f.fs, f.bs, f.st).tx == None
  {
    hide S.NextCf;
  }

  lemma HandleDue(c: Cfg, lat: nat, t: TimedWorld, v: World, f: Frame, st: Step, at: nat)
    requires Viable(c) && LockInv(c, t.w) && Workable(c, t.w) && MayStep(c, lat, t, st, at) && NotBefore(c, t)
    requires |t.w.log| >= 2 && Flight(t.w) != [] && f == Flight(t.w)[0] && (t.w.held != None || t.w.rev != [])
    requires v == t.w.(held := None, rev := v.rev)
    requires S.Good(v.s) && f.FC? && S.Accepts(c.wide, v.s.state)
    requires |Handle(c, v, f).log| > |t.w.log|
    ensures at >= t.txAt + Gap(c, |t.w.log| - 1)
  {
    hide LockInv, Workable, Handle, S.FlowControl, S.Good, Punctual, FlightOf, Apply, Enabled, N;
    HandleIs(c, v, f);
    if f == R.WAIT {
      WaitSendsNothing(v.s, f);
    }
    LastUnderWay(c, t.w);
    CaughtUpAnswering(c, t.w);
  }

  lemma RefusedIsSilent(c: Cfg, w: World, st: Step)
    requires Workable(c, w) && Enabled(c, w, st) && (st == DoReceiveFc || st == DoRecheck)
    ensures !S.Accepts(c.wide, w.s.state) ==> Apply(c, w, st).log == w.log
  {
    hide Handle, AllFc, R.Ready, S.Good;
  }

  lemma FcDue(c: Cfg, lat: nat, t: TimedWorld, st: Step, at: nat)
    requires Viable(c) && LockInv(c, t.w) && Workable(c, t.w) && MayStep(c, lat, t, st, at) && NotBefore(c, t)
    requires (st == DoReceiveFc || st == DoRecheck) && |t.w.log| >= 2
    requires |Apply(c, t.w, st).log| > |t.w.log|
    ensures at >= t.txAt + Gap(c, |t.w.log| - 1)
  {
    hide LockInv, R.Ready, S.Good, Handle, NotBefore, Punctual, FlightOf, Gap;
    RefusedIsSilent(c, t.w, st);
    FlightMoves(t.w.held, t.w.rev, t.w.outbox);
    if st == DoReceiveFc {
      ReceiveFcIs(c, t.w);
      HandleDue(c, lat, t, t.w.(rev := t.w.rev[1..]), t.w.rev[0], st, at);
    } else {
      HandleDue(c, lat, t, t.w.(held := None), t.w.held.value, st, at);
    }
  }

  lemma SilentSteps(c: Cfg, w: World, st: Step)
    requires Viable(c) && LockInv(c, w) && Workable(c, w) && Enabled(c, w, st)
    requires (st == DoSend && |w.log| >= 1) || st == DoConfirm || st == DoDeliver || st == DoEmit
    ensures |Apply(c, w, st).log| == |w.log|
  {
    hide LockInv, S.Confirm, AllFc, R.Ready, R.Rx, S.Good;
    if st == DoConfirm {
      hide Apply;
      ConfirmFacts(c, w);
    }
  }

  lemma EmissionDue(c: Cfg, lat: nat, t: TimedWorld, st: Step, at: nat)
    requires Viable(c) && LockInv(c, t.w) && Workable(c, t.w) && Timely(st)
    requires MayStep(c, lat, t, st, at) && NotBefore(c, t) && |t.w.log| >= 2
    requires |Apply(c, t.w, st).log| > |t.w.log|
    ensures at >= t.txAt + Gap(c, |t.w.log| - 1)
  {
    hide LockInv, Workable, Apply, NotBefore, Punctual, Gap;
    match st
    case DoWake => WakeDue(c, lat, t, at);
    case DoReceiveFc | DoRecheck => FcDue(c, lat, t, st, at);
    case _ => SilentSteps(c, t.w, st);
  }

  // ----- Whole timed runs -----

  /** Step i of the run transmits frame k of the message, the First Frame being number 0. */
  predicate Transmits(c: Cfg, lat: nat, run: seq<Timed>, i: nat, k: nat)
    requires Sound(c)
  {
    && i < |run| && TimedExec(c, lat, run[..i]).Some? && TimedExec(c, lat, run[..i + 1]).Some?
    && |TimedExec(c, lat, run[..i]).value.w.log| == k && |TimedExec(c, lat, run[..i + 1]).value.w.log| == k + 1
  }

  lemma {:induction false} LogMonotone(c: Cfg, lat: nat, run: seq<Timed>, m: nat)
    requires Sound(c) && TimedExec(c, lat, run).Some? && m <= |run|
    ensures TimedExec(c, lat, run[..m]).Some?
    ensures |TimedExec(c, lat, run[..m]).value.w.log| <= |TimedExec(c, lat, run).value.w.log|
    decreases |run|
  {
    hide SafeInv, Workable, Apply, Enabled, Punctual;
    if m == |run| {
      assert run[..m] == run;
    } else {
      var k := |run| - 1;
      LastTimed(c, lat, run);
      LogGrows(c, TimedExec(c, lat, run[..k]).value.w, run[k].st);
      LogMonotone(c, lat, run[..k], m);
      assert run[..k][..m] == run[..m];
    }
  }

  lemma {:induction false} LastTransmission(c: Cfg, lat: nat, run: seq<Timed>, i: nat, k: nat)
    requires Sound(c) && TimedExec(c, lat, run).Some? && Transmits(c, lat, run, i, k)
    requires |TimedExec(c, lat, run).value.w.log| == k + 1
    ensures TimedExec(c, lat, run).value.txAt == run[i].at
    decreases |run|
  {
    hide SafeInv, Workable, Apply, Enabled, Punctual;
    var n := |run| - 1;
    LastTimed(c, lat, run);
    if i == n {
      assert run[..i + 1] == run;
    } else {
      assert run[..n][..i] == run[..i] && run[..n][..i + 1] == run[..i + 1];
      LogMonotone(c, lat, run[..n], i + 1);
      LogGrows(c, TimedExec(c, lat, run[..n]).value.w, run[n].st);
      LastTransmission(c, lat, run[..n], i, k);
    }
  }

  lemma PrefixesMonotone(c: Cfg, lat: nat, run: seq<Timed>, a: nat, b: nat)
    requires Sound(c) && a <= b <= |run| && TimedExec(c, lat, run[..b]).Some?
    ensures TimedExec(c, lat, run[..a]).Some?
    ensures |TimedExec(c, lat, run[..a]).value.w.log| <= |TimedExec(c, lat, run[..b]).value.w.log|
  {
    hide TimedExec;
    LogMonotone(c, lat, run[..b], a);
    assert run[..b][..a] == run[..a];
  }

  lemma InThisOrder(c: Cfg, lat: nat, run: seq<Timed>, i: nat, j: nat, k: nat)
    requires Sound(c) && Transmits(c, lat, run, i, k) && Transmits(c, lat, run, j, k + 1)
    ensures i < j && TimedExec(c, lat, run[..j]).Some? && Transmits(c, lat, run[..j], i, k)
  {
    hide TimedExec, SafeInv, Workable;
    if j <= i {
      PrefixesMonotone(c, lat, run, j + 1, i + 1);
      assert false;
    }
    assert run[..j][..i] == run[..i] && run[..j][..i + 1] == run[..i + 1];
  }

  /** A transmission seen from the step that makes it. */
  lemma TransmissionStep(c: Cfg, lat: nat, run: seq<Timed>, j: nat, k: nat)
    requires Sound(c) && Transmits(c, lat, run, j, k)
    ensures var t := TimedExec(c, lat, run[..j]).value;
            && MayStep(c, lat, t, run[j].st, run[j].at)
            && |Apply(c, t.w, run[j].st).log| > |t.w.log| == k
  {
    hide TimedExec, MayStep, Apply, SafeInv, Workable;
    assert run[..j + 1][..j] == run[..j] && run[..j + 1][j] == run[j];
    LastTimed(c, lat, run[..j + 1]);
  }

  lemma FacedAt(c: Cfg, lat: nat, run: seq<Timed>)
    requires Viable(c) && TimedExec(c, lat, run).Some? && AllTimely(Steps(run))
    ensures var t := TimedExec(c, lat, run).value; LockInv(c, t.w) && Workable(c, t.w) && NotBefore(c, t)
  {
    hide LockInv, Workable, NotBefore, AllTimely;
    LockOnTimedRuns(c, lat, run);
    NotBeforeOnRuns(c, lat, run);
  }

  /** Between one Consecutive Frame and the next at least the wait frames' time passes after a block, and at least the
      separation time the receiver asks for inside a block, in every run without timeouts. */
  lemma FramesApart(c: Cfg, lat: nat, run: seq<Timed>, i: nat, j: nat, k: nat)
    requires Viable(c) && TimedExec(c, lat, run).Some? && AllTimely(Steps(run)) && k >= 1
    requires Transmits(c, lat, run, i, k) && Transmits(c, lat, run, j, k + 1)
    ensures i < j && run[j].at - run[i].at >= Gap(c, k)
  {
    hide LockInv, TimedExec, NotBefore, AllTimely, Gap, MayStep, Apply, SafeInv, Workable;
    InThisOrder(c, lat, run, i, j, k);
    TimelyPrefix(run, j);
    FacedAt(c, lat, run[..j]);
    TransmissionStep(c, lat, run, j, k + 1);
    LastTransmission(c, lat, run[..j], i, k);
    EmissionDue(c, lat, TimedExec(c, lat, run[..j]).value, run[j].st, run[j].at);
  }

  /** The separation time configured at the receiver is kept by the sender: rounded down to what a code byte can say
      inside a block, and, where wait frames stand in for it and their number fits its byte, short of it by less
      than one wait period. */
  lemma ConfiguredSeparation(c: Cfg, lat: nat, run: seq<Timed>, i: nat, j: nat, k: nat, p: P.Params)
    requires p.stMin == 0 && p.wftNum == 0 && P.Init(p) == (c.p, true)
    requires Sound(c) && Proceeds(c) && TimedExec(c, lat, run).Some? && AllTimely(Steps(run)) && k >= 1
    requires Transmits(c, lat, run, i, k) && Transmits(c, lat, run, j, k + 1)
    ensures p.stMinUs <= 127000 && !(900 < p.stMinUs < 1000) && !EndsBlock(c, k + 1) ==>
              run[j].at - run[i].at >= P.Representable(p.stMinUs)
    ensures p.stMinUs > 127000 && p.stMinUs / p.wftTimUs <= 255 ==> run[j].at - run[i].at > p.stMinUs - p.wftTimUs
  {
    hide TimedExec, Transmits, AllTimely, S.DecodeSt;
    InitialisedIsViable(c, p);
    FramesApart(c, lat, run, i, j, k);
    if p.stMinUs > 127000 {
      P.WaitsCoverStMin(p);
      assert k % 1 == 0;
    } else {
      P.StMinRoundTrip(p);
    }
  }
}
