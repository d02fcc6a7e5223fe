/** Both roles against one clock, where transfers complete: the wait frames hold the sender back as long as
    configured, and when they come often enough no timer runs out and every transfer completes. */
module Timing {
  import opened CanTpTypes
  import opened Frames
  import opened Protocol
  import opened Lockstep
  import opened Completion
  import P = ParamsSpec
  import R = ReceiverSpec
  import S = SenderSpec

  /** A world and the times, in microseconds, that matter in it: of the last step, of the sender's last
      transmission, of the last start of its timer, of holding a Flow Control frame, since when the sender has
      Flow Control to deal with, before which the receiver sends nothing, of the last frame the
      receiver handled, and before which the sender's STmin sleep does not end. */
  datatype TimedWorld = TimedWorld(
    w: World, now: nat, txAt: nat, armedAt: nat, heldAt: nat, fcAt: nat, readyAt: nat, cfAt: nat, wakeAt: nat)

  const START := TimedWorld(INIT, 0, 0, 0, 0, 0, 0, 0, 0)

  /** The sender's receiving thread can go on. */
  predicate Busy(w: World) {
    if w.held.Some? then w.signalled else w.rev != []
  }

  /** Transmissions are confirmed and handled, ready Flow Control is sent, and Flow Control the sender can deal
      with is dealt with, each within `lat`: time does not pass beyond that. */
  predicate Punctual(lat: nat, t: TimedWorld, at: nat) {
    && (t.w.unconfirmed > 0 || t.w.fwd != [] ==> at <= t.txAt + lat)
    && (t.w.outbox != [] ==> at <= t.readyAt + lat)
    && (Busy(t.w) ==> at <= t.fcAt + lat)
  }

  /** A step at a given time: timers and waits run for their full length, sleeps are not cut short. */
  predicate MayStep(c: Cfg, lat: nat, t: TimedWorld, st: Step, at: nat) {
    && Enabled(c, t.w, st) && t.now <= at && Punctual(lat, t, at)
    && match st
       case DoEmit => t.readyAt <= at
       case DoWake => t.wakeAt <= at
       case DoExpire => t.armedAt + TIMER_US <= at
       case DoGiveUp => t.heldAt + TIMER_US <= at
       case _ => true
  }

  /** How long the receiver sleeps before it sends what is next in its outbox. */
  function Pause(c: Cfg, outbox: seq<Frame>): nat {
    if outbox != [] && outbox[0] == R.WAIT then c.p.wftTimUs else 0
  }

  function Pauses(c: Cfg, outbox: seq<Frame>): nat {
    if outbox == [] then 0 else Pause(c, outbox) + Pauses(c, outbox[1..])
  }

  /** The pauses between the frames of an outbox are what its handler sleeps for in all. */
  lemma {:induction false} PausesAreSleeps(c: Cfg, outbox: seq<Frame>)
    ensures Pauses(c, outbox) == R.WaitTime(c.p, R.WaitsIn(outbox)) == R.WaitsIn(outbox) * c.p.wftTimUs
  {
    R.WaitTimeIsProduct(c.p, R.WaitsIn(outbox));
    if outbox != [] {
      PausesAreSleeps(c, outbox[1..]);
      R.WaitsInFront(outbox);
    }
  }

  /** The step starts the sender's timer afresh or, after the last frame of a block or message, stops it. */
  predicate Rearms(c: Cfg, w: World, st: Step) {
    match st
    case DoSend | DoWake => true
    case DoConfirm => w.s.state == FfSending || w.s.state == CfSending
    case DoReceiveFc | DoRecheck => S.Accepts(c.wide, w.s.state)
    case _ => false
  }

  function Tick(c: Cfg, t: TimedWorld, st: Step, at: nat): TimedWorld
    requires Workable(c, t.w) && Enabled(c, t.w, st)
  {
    var v := Apply(c, t.w, st);
    TimedWorld(v, at,
      if |v.log| > |t.w.log| then at else t.txAt,
      if Rearms(c, t.w, st) then at else t.armedAt,
      if t.w.held == None && v.held.Some? then at else t.heldAt,
      if Busy(v) && (!Busy(t.w) || st == DoReceiveFc || st == DoRecheck) then at else t.fcAt,
      if st == DoDeliver || st == DoEmit then at + Pause(c, v.outbox) else t.readyAt,
      if st == DoDeliver then at else t.cfAt,
      if st == DoConfirm && v.s.state == CfSent then at + v.s.stTimUs else t.wakeAt)
  }

  datatype Timed = Timed(st: Step, at: nat)

  function Steps(run: seq<Timed>): (steps: seq<Step>)
    ensures |steps| == |run| && forall i :: 0 <= i < |run| ==> steps[i] == run[i].st
  {
    seq(|run|, i requires 0 <= i < |run| => run[i].st)
  }

  function TimedExec(c: Cfg, lat: nat, run: seq<Timed>): (t: Option<TimedWorld>)
    requires Sound(c)
    ensures t.Some? ==> SafeInv(c, t.value.w) && Workable(c, t.value.w)
  {
    if run == [] then
      InitSafe(c);
      Some(START)
    else
      var k := |run| - 1;
      match TimedExec(c, lat, run[..k])
      case None => None
      case Some(t) =>
        if MayStep(c, lat, t, run[k].st, run[k].at) then
          StepKeepsSafe(c, t.w, run[k].st);
          SafeIsWorkable(c, Apply(c, t.w, run[k].st));
          Some(Tick(c, t, run[k].st, run[k].at))
        else None
  }

  /** A timed run's last step, unfolded. */
  lemma LastTimed(c: Cfg, lat: nat, run: seq<Timed>)
    requires Sound(c) && run != [] && TimedExec(c, lat, run).Some?
    ensures var k := |run| - 1;
            && TimedExec(c, lat, run[..k]).Some?
            && MayStep(c, lat, TimedExec(c, lat, run[..k]).value, run[k].st, run[k].at)
            && TimedExec(c, lat, run).value == Tick(c, TimedExec(c, lat, run[..k]).value, run[k].st, run[k].at)
  {
    hide SafeInv, Workable, MayStep, Tick, Apply;
  }

  /** Forgetting the times of a timed run leaves a run. */
  lemma {:induction false} TimedRunsRun(c: Cfg, lat: nat, run: seq<Timed>)
    requires Sound(c) && TimedExec(c, lat, run).Some?
    ensures Exec(c, Steps(run)) == Some(TimedExec(c, lat, run).value.w)
  {
    hide SafeInv, Workable, Apply, Enabled, Punctual;
    if run != [] {
      var k := |run| - 1;
      LastTimed(c, lat, run);
      TimedRunsRun(c, lat, run[..k]);
      OneMoreStep(c, Steps(run[..k]), run[k].st);
      assert Steps(run) == Steps(run[..k]) + [run[k].st];
    }
  }

  // ----- What the clocks say in every timed run -----

  /** The longest the receiver sleeps before it sends Flow Control: it does so only before wait frames, and
      sends those only if the message has more than one Consecutive Frame. */
  function Wft(c: Cfg): nat {
    if c.p.wftNum > 0 && N(c) > 1 then c.p.wftTimUs else 0
  }

  predicate ClockInv(c: Cfg, lat: nat, t: TimedWorld) {
    && t.txAt <= t.armedAt <= t.now && t.fcAt <= t.now && t.heldAt <= t.now
    && t.readyAt <= t.now + Wft(c)
    && (t.w.unconfirmed > 0 ==> t.armedAt == t.txAt)
    && (Busy(t.w) ==> t.fcAt <= t.armedAt + Wft(c) + 2 * lat)
    && (!Busy(t.w) && t.w.outbox != [] ==> t.readyAt <= t.armedAt + Wft(c) + lat)
    && (t.w.held.Some? ==> t.txAt <= t.heldAt)
    && (t.w.held.Some? && t.w.signalled ==> t.fcAt <= t.heldAt + lat)
    && Punctual(lat, t, t.now)
  }

  /** No sleep without wait frames. */
  lemma PauseBound(c: Cfg, w: World)
    requires LockInv(c, w)
    ensures Pause(c, w.outbox) <= Wft(c)
  {
    hide SafeInv, SenderInStep, Clear, HeldOk;
    if (c.p.wftNum == 0 || N(c) == 1) && w.outbox != [] {
      assert |Flight(w)| == 1;
      assert w.outbox[0] == Flight(w)[0] == R.Cts(c.p);
    }
  }

  lemma SendClock(c: Cfg, lat: nat, t: TimedWorld, at: nat)
    requires LockInv(c, t.w) && Workable(c, t.w) && MayStep(c, lat, t, DoSend, at) && ClockInv(c, lat, t)
    ensures ClockInv(c, lat, Tick(c, t, DoSend, at))
  {
    hide LockInv, S.SendMsg, S.Good, AllFc, R.Ready;
    Untouched(c, t.w);
  }

  /** The sender has an unconfirmed frame exactly in the sending states. */
  lemma SendingState(c: Cfg, w: World)
    requires LockInv(c, w)
    ensures w.unconfirmed > 0 <==> w.s.state == FfSending || w.s.state == CfSending
  {
    hide SafeInv, FlightOk, Clear, HeldOk;
  }

  lemma ConfirmClock(c: Cfg, lat: nat, t: TimedWorld, at: nat)
    requires LockInv(c, t.w) && Workable(c, t.w) && MayStep(c, lat, t, DoConfirm, at) && ClockInv(c, lat, t)
    ensures ClockInv(c, lat, Tick(c, t, DoConfirm, at))
  {
    hide LockInv, Workable, S.Confirm, Apply;
    ConfirmFacts(c, t.w);
    OneUnconfirmed(c, t.w);
    SendingState(c, t.w);
  }

  lemma HeldWhileSending(c: Cfg, w: World)
    requires LockInv(c, w) && Completes(c) && w.held.Some? && !w.signalled
    ensures w.unconfirmed > 0
  {
    SendingState(c, w);
    if !c.wide {
      NoBlockWait(c, w);
    }
    hide SafeInv, SenderInStep, FlightOk, Clear;
  }

  lemma WakeClock(c: Cfg, lat: nat, t: TimedWorld, at: nat)
    requires LockInv(c, t.w) && Workable(c, t.w) && MayStep(c, lat, t, DoWake, at) && ClockInv(c, lat, t)
    ensures ClockInv(c, lat, Tick(c, t, DoWake, at))
  {
    hide LockInv, Workable, Apply, S.SendCfAfterCf, FlightOf;
    WakeFacts(c, t.w);
    Asleep(c, t.w);
  }

  lemma DeliverClock(c: Cfg, lat: nat, t: TimedWorld, at: nat)
    requires Viable(c) && LockInv(c, t.w) && Workable(c, t.w)
    requires MayStep(c, lat, t, DoDeliver, at) && ClockInv(c, lat, t)
    requires LockInv(c, Apply(c, t.w, DoDeliver))
    ensures ClockInv(c, lat, Tick(c, t, DoDeliver, at))
  {
    hide SafeInv, InStep, Workable, Apply, R.Answer, Pause, Sound;
    CaughtUp(c, t.w);
    DeliverFacts(c, t.w);
    PauseBound(c, Apply(c, t.w, DoDeliver));
  }

  lemma EmitClock(c: Cfg, lat: nat, t: TimedWorld, at: nat)
    requires Completes(c) && LockInv(c, t.w) && Workable(c, t.w)
    requires MayStep(c, lat, t, DoEmit, at) && ClockInv(c, lat, t)
    requires LockInv(c, Apply(c, t.w, DoEmit))
    ensures ClockInv(c, lat, Tick(c, t, DoEmit, at))
  {
    hide LockInv, AllFc, R.Ready, S.Good, Pause;
    PauseBound(c, Apply(c, t.w, DoEmit));
    if t.w.held.Some? && !t.w.signalled {
      HeldWhileSending(c, t.w);
    }
  }

  /** Handling Flow Control starts the sender's timer and lets everything else wait from then on. */
  lemma HandleClock(c: Cfg, lat: nat, t: TimedWorld, v: World, f: Frame, st: Step, at: nat)
    requires LockInv(c, t.w) && Workable(c, t.w) && MayStep(c, lat, t, st, at) && ClockInv(c, lat, t)
    requires st == DoReceiveFc || st == DoRecheck
    requires v == t.w.(held := None, rev := v.rev)
    requires S.Good(v.s) && f.FC? && S.Accepts(c.wide, v.s.state)
    requires Apply(c, t.w, st) == Handle(c, v, f)
    ensures ClockInv(c, lat, Tick(c, t, st, at))
  {
    hide LockInv, Workable, Apply, Handle, S.FlowControl, S.Good;
    SendingState(c, t.w);
    HandleCounts(c, v, f);
    HandleIs(c, v, f);
  }

  lemma NeverRefused(c: Cfg, w: World)
    requires LockInv(c, w) && Completes(c)
    ensures w.s.state == CfFcWait ==> S.Accepts(c.wide, w.s.state)
  {
    hide LockInv, Completes;
    if !c.wide {
      NoBlockWait(c, w);
    }
  }

  lemma ReceiveFcClock(c: Cfg, lat: nat, t: TimedWorld, at: nat)
    requires Completes(c) && LockInv(c, t.w) && Workable(c, t.w)
    requires MayStep(c, lat, t, DoReceiveFc, at) && ClockInv(c, lat, t)
    ensures ClockInv(c, lat, Tick(c, t, DoReceiveFc, at))
  {
    hide LockInv, AllFc, R.Ready, S.Good, Apply, Handle, FlightOf;
    ReceiveFcIs(c, t.w);
    if S.Accepts(c.wide, t.w.s.state) {
      hide Tick, MayStep, ClockInv;
      HandleClock(c, lat, t, t.w.(rev := t.w.rev[1..]), t.w.rev[0], DoReceiveFc, at);
    } else {
      NeverRefused(c, t.w);
      FlightMeansNeed(c, t.w);
      SendingState(c, t.w);
    }
  }

  lemma RecheckClock(c: Cfg, lat: nat, t: TimedWorld, at: nat)
    requires Completes(c) && LockInv(c, t.w) && Workable(c, t.w)
    requires MayStep(c, lat, t, DoRecheck, at) && ClockInv(c, lat, t)
    ensures ClockInv(c, lat, Tick(c, t, DoRecheck, at))
  {
    hide LockInv, AllFc, R.Ready, S.Good, Handle, Tick, ClockInv;
    RecheckPasses(c, t.w);
    HandleClock(c, lat, t, t.w.(held := None), t.w.held.value, DoRecheck, at);
  }

  lemma StepKeepsClock(c: Cfg, lat: nat, t: TimedWorld, st: Step, at: nat)
    requires Viable(c) && Completes(c) && LockInv(c, t.w) && Workable(c, t.w) && Timely(st)
    requires MayStep(c, lat, t, st, at) && ClockInv(c, lat, t)
    requires LockInv(c, Apply(c, t.w, st))
    ensures ClockInv(c, lat, Tick(c, t, st, at))
  {
    hide LockInv, Workable, Apply, Tick, ClockInv, Punctual;
    match st
    case DoSend => SendClock(c, lat, t, at);
    case DoConfirm => ConfirmClock(c, lat, t, at);
    case DoWake => WakeClock(c, lat, t, at);
    case DoDeliver => DeliverClock(c, lat, t, at);
    case DoEmit => EmitClock(c, lat, t, at);
    case DoReceiveFc => ReceiveFcClock(c, lat, t, at);
    case DoRecheck => RecheckClock(c, lat, t, at);
    case _ =>
  }

  // ----- No timer runs out -----

  /** The wait frames come often enough for N_Bs: a wait period and three hops fit into it. */
  predicate OftenEnough(c: Cfg, lat: nat) {
    Wft(c) + 3 * lat < TIMER_US
  }

  /** In microseconds: all timers last 1000 ms, and a timer runs out, or a wait is given up, no sooner and, the other
      conditions met, any time after that. */
  lemma OneSecond(c: Cfg, lat: nat, t: TimedWorld, at: nat)
    ensures OftenEnough(c, lat) <==> Wft(c) + 3 * lat < 1_000_000
    ensures MayStep(c, lat, t, DoExpire, at) <==>
            Enabled(c, t.w, DoExpire) && t.now <= at && Punctual(lat, t, at) && at - t.armedAt >= 1_000_000
    ensures MayStep(c, lat, t, DoGiveUp, at) <==>
            Enabled(c, t.w, DoGiveUp) && t.now <= at && Punctual(lat, t, at) && at - t.heldAt >= 1_000_000
  {
  }

  lemma ArmedMeansWaiting(c: Cfg, w: World)
    requires LockInv(c, w) && w.s.timer.Armed? && w.unconfirmed == 0
    ensures w.s.state == FfFcWait || w.s.state == CfFcWait
  {
    SenderFacts(c, w);
    hide SafeInv, FlightOk, Clear, HeldOk, S.CountersOk, S.Tracks;
  }

  /** A frame held by a waiting sender is about to be looked at again. */
  lemma HeldWhileWaiting(c: Cfg, w: World)
    requires LockInv(c, w) && Completes(c) && (w.s.state == FfFcWait || w.s.state == CfFcWait)
    ensures w.held.Some? ==> w.signalled
  {
    hide SafeInv, SenderInStep, FlightOk, Clear;
    if !c.wide {
      NoBlockWait(c, w);
    }
  }

  /** In the states in which a timer runs, its time is not up: something is due before. */
  lemma NoExpiry(c: Cfg, lat: nat, t: TimedWorld, at: nat)
    requires Viable(c) && Completes(c) && OftenEnough(c, lat)
    requires LockInv(c, t.w) && Workable(c, t.w) && ClockInv(c, lat, t)
    ensures !MayStep(c, lat, t, DoExpire, at)
  {
    if MayStep(c, lat, t, DoExpire, at) {
      hide LockInv, AllFc, R.Ready, FlightOf, Handle;
      SendingState(c, t.w);
      if t.w.unconfirmed == 0 {
        ArmedMeansWaiting(c, t.w);
        WaitingIsServed(c, t.w);
        HeldWhileWaiting(c, t.w);
      }
      assert false;
    }
  }

  lemma NoGivingUp(c: Cfg, lat: nat, t: TimedWorld, at: nat)
    requires Completes(c) && OftenEnough(c, lat)
    requires LockInv(c, t.w) && ClockInv(c, lat, t)
    ensures !MayStep(c, lat, t, DoGiveUp, at)
  {
    if MayStep(c, lat, t, DoGiveUp, at) {
      hide LockInv;
      if !t.w.signalled {
        HeldWhileSending(c, t.w);
      }
      assert false;
    }
  }

  lemma InitClock(c: Cfg, lat: nat)
    ensures ClockInv(c, lat, START)
  {
  }

  lemma NextClock(c: Cfg, lat: nat, t: TimedWorld, st: Step, at: nat)
    requires Viable(c) && Completes(c) && OftenEnough(c, lat)
    requires LockInv(c, t.w) && Workable(c, t.w) && ClockInv(c, lat, t) && MayStep(c, lat, t, st, at)
    ensures Timely(st) && LockInv(c, Apply(c, t.w, st)) && Tick(c, t, st, at).w == Apply(c, t.w, st)
    ensures ClockInv(c, lat, Tick(c, t, st, at))
  {
    hide LockInv, Workable, Apply, ClockInv, Punctual, OftenEnough;
    NoExpiry(c, lat, t, at);
    NoGivingUp(c, lat, t, at);
    StepKeepsLock(c, t.w, st);
    StepKeepsClock(c, lat, t, st, at);
  }

  lemma {:induction false} ClocksOnRuns(c: Cfg, lat: nat, run: seq<Timed>)
    requires Viable(c) && Completes(c) && OftenEnough(c, lat) && TimedExec(c, lat, run).Some?
    ensures AllTimely(Steps(run))
    ensures LockInv(c, TimedExec(c, lat, run).value.w) && ClockInv(c, lat, TimedExec(c, lat, run).value)
  {
    hide LockInv, Workable, Apply, Tick, ClockInv, Punctual, MayStep, OftenEnough, SafeInv;
    if run == [] {
      InitClock(c, lat);
      InitInStep(c);
    } else {
      var k := |run| - 1;
      LastTimed(c, lat, run);
      ClocksOnRuns(c, lat, run[..k]);
      NextClock(c, lat, TimedExec(c, lat, run[..k]).value, run[k].st, run[k].at);
      assert forall i :: 0 <= i < k ==> Steps(run)[i] == Steps(run[..k])[i];
    }
  }

  // ----- Every timed run completes -----

  lemma OneMoreTimed(c: Cfg, lat: nat, run: seq<Timed>, st: Step, at: nat)
    requires Sound(c) && TimedExec(c, lat, run).Some? && MayStep(c, lat, TimedExec(c, lat, run).value, st, at)
    ensures TimedExec(c, lat, run + [Timed(st, at)]) == Some(Tick(c, TimedExec(c, lat, run).value, st, at))
  {
    hide SafeInv, Workable, Apply, MayStep, Tick;
    assert (run + [Timed(st, at)])[..|run|] == run;
  }

  lemma NothingElseDue(c: Cfg, w: World)
    requires LockInv(c, w) && w.outbox != []
    ensures w.fwd == []
  {
    if w.fwd != [] {
      CaughtUp(c, w);
      assert false;
    }
  }

  lemma OtherStep(c: Cfg, w: World) returns (st: Step)
    requires LockInv(c, w) && Completes(c) && !AtRest(c, w)
    requires !Busy(w) && w.unconfirmed == 0 && w.outbox == [] && w.fwd == []
    ensures (st == DoSend || st == DoWake) && Enabled(c, w, st)
  {
    hide LockInv;
    if w.held.Some? {
      HeldWhileSending(c, w);
    }
    st :| Timely(st) && Enabled(c, w, st);
  }

  /** Time never runs into a deadline that nothing can meet: unless the run has come to rest, some step is possible. */
  lemma NoTimelock(c: Cfg, lat: nat, t: TimedWorld) returns (st: Step, at: nat)
    requires Viable(c) && Completes(c) && LockInv(c, t.w) && ClockInv(c, lat, t) && !AtRest(c, t.w)
    ensures Timely(st) && MayStep(c, lat, t, st, at)
  {
    hide LockInv, AtRest, Sound, FlightOf;
    var w := t.w;
    SendingState(c, w);
    at := t.now;
    if Busy(w) {
      st := if w.held.Some? then DoRecheck else DoReceiveFc;
    } else if w.unconfirmed > 0 {
      st := DoConfirm;
    } else if w.outbox != [] {
      st := DoEmit;
      at := if t.readyAt > t.now then t.readyAt else t.now;
      NothingElseDue(c, w);
    } else if w.fwd != [] {
      st := DoDeliver;
    } else {
      st := OtherStep(c, w);
      at := if t.wakeAt > t.now then t.wakeAt else t.now;
    }
  }

  lemma BoundedTimedRun(c: Cfg, lat: nat, run: seq<Timed>)
    requires Viable(c) && Completes(c) && OftenEnough(c, lat) && TimedExec(c, lat, run).Some?
    ensures |run| <= StepBound(c)
    ensures AtRest(c, TimedExec(c, lat, run).value.w) ==> Complete(c, TimedExec(c, lat, run).value.w)
  {
    hide LockInv, ClockInv, TimedExec, StepBound, Exec, OftenEnough, AtRest, Complete;
    ClocksOnRuns(c, lat, run);
    TimedRunsRun(c, lat, run);
    TimelyRunsAreFinite(c, Steps(run));
    if AtRest(c, TimedExec(c, lat, run).value.w) {
      CompletionExact(c, Steps(run));
    }
  }

  lemma TimedProgress(c: Cfg, lat: nat, run: seq<Timed>) returns (e: Timed)
    requires Viable(c) && Completes(c) && OftenEnough(c, lat) && TimedExec(c, lat, run).Some?
    requires !AtRest(c, TimedExec(c, lat, run).value.w)
    ensures TimedExec(c, lat, run + [e]).Some? && |run + [e]| <= StepBound(c)
  {
    hide LockInv, ClockInv, TimedExec, SafeInv, Workable, AtRest, StepBound, MayStep, OftenEnough, Tick;
    ClocksOnRuns(c, lat, run);
    var st, at := NoTimelock(c, lat, TimedExec(c, lat, run).value);
    e := Timed(st, at);
    OneMoreTimed(c, lat, run, st, at);
    BoundedTimedRun(c, lat, run + [e]);
  }

  /** Where transfers complete and wait frames come often enough, every timed run can be continued until
      the whole message is delivered and reported, in a bounded number of steps, without any timer running out. */
  lemma {:induction false} TimedTransfersComplete(c: Cfg, lat: nat, run: seq<Timed>) returns (more: seq<Timed>)
    requires Viable(c) && Completes(c) && OftenEnough(c, lat) && TimedExec(c, lat, run).Some?
    ensures TimedExec(c, lat, run + more).Some? && Complete(c, TimedExec(c, lat, run + more).value.w)
    ensures AllTimely(Steps(run + more)) && |run + more| <= StepBound(c)
    decreases StepBound(c) - |run|
  {
    hide TimedExec, SafeInv, Workable, AtRest, Complete, StepBound, OftenEnough, Sound;
    ClocksOnRuns(c, lat, run);
    BoundedTimedRun(c, lat, run);
    if AtRest(c, TimedExec(c, lat, run).value.w) {
      more := [];
      assert run + [] == run;
    } else {
      var e := TimedProgress(c, lat, run);
      var rest := TimedTransfersComplete(c, lat, run + [e]);
      more := [e] + rest;
      assert run + more == run + [e] + rest;
    }
  }

  // ----- The receiver holds the sender back -----

  /** While it still has `k` wait frames to send before the frame that lets the sender continue, the receiver
      is not ready before that many periods more than the others have passed since the frame it answers. */
  predicate HoldsBack(c: Cfg, t: TimedWorld) {
    t.w.outbox != [] && Taken(t.w) > 1 ==>
      var k := |t.w.outbox| - 1;
      && k <= c.p.wftNum && t.w.outbox == Owed(c.p, k)
      && t.cfAt + (c.p.wftNum - k + (if k > 0 then 1 else 0)) * c.p.wftTimUs <= t.readyAt
  }

  lemma OthersKeepOutbox(c: Cfg, w: World, st: Step)
    requires Workable(c, w) && Enabled(c, w, st) && st != DoDeliver && st != DoEmit
    ensures Apply(c, w, st).outbox == w.outbox && Taken(Apply(c, w, st)) == Taken(w)
  {
    hide S.Step, AllFc, R.Ready;
  }

  lemma DeliverHoldsBack(c: Cfg, t: TimedWorld, at: nat)
    requires Viable(c) && SafeInv(c, t.w) && Workable(c, t.w) && Enabled(c, t.w, DoDeliver)
    ensures HoldsBack(c, Tick(c, t, DoDeliver, at))
  {
    hide SafeInv, Workable, R.Answer, R.Rx, Owed, R.CtsDue;
    SegmentBound(c, t.w);
    DeliverFacts(c, t.w);
    AnswerIsOwed(c, Taken(t.w) + 1);
    if Tick(c, t, DoDeliver, at).w.outbox != [] {
      OwedFront(c.p, Tick(c, t, DoDeliver, at).w.outbox);
    }
  }

  lemma EmitHoldsBack(c: Cfg, t: TimedWorld, at: nat)
    requires Workable(c, t.w) && Enabled(c, t.w, DoEmit) && t.readyAt <= at && HoldsBack(c, t)
    ensures HoldsBack(c, Tick(c, t, DoEmit, at))
  {
    hide Workable, Owed;
    var f := t.w.outbox;
    if |f| > 1 && Taken(t.w) > 1 {
      OwedFront(c.p, f);
      OwedFront(c.p, f[1..]);
      P.Distribute(c.p.wftNum - (|f| - 1) + 1, c.p.wftTimUs);
    }
  }

  lemma {:induction false} HoldsBackOnRuns(c: Cfg, lat: nat, run: seq<Timed>)
    requires Viable(c) && TimedExec(c, lat, run).Some?
    ensures HoldsBack(c, TimedExec(c, lat, run).value)
  {
    hide SafeInv, Workable, Apply, Punctual, Owed;
    if run != [] {
      var k := |run| - 1;
      LastTimed(c, lat, run);
      HoldsBackOnRuns(c, lat, run[..k]);
      var t := TimedExec(c, lat, run[..k]).value;
      match run[k].st {
        case DoDeliver => DeliverHoldsBack(c, t, run[k].at);
        case DoEmit => EmitHoldsBack(c, t, run[k].at);
        case _ => OthersKeepOutbox(c, t.w, run[k].st);
      }
    }
  }

  lemma {:induction false} LastDelivery(c: Cfg, lat: nat, run: seq<Timed>, i: nat)
    requires Sound(c) && TimedExec(c, lat, run).Some? && i < |run| && run[i].st == DoDeliver
    requires forall k :: i < k < |run| ==> run[k].st != DoDeliver
    ensures TimedExec(c, lat, run).value.cfAt == run[i].at
  {
    hide SafeInv, Workable, Apply, MayStep;
    LastTimed(c, lat, run);
    if i < |run| - 1 {
      LastDelivery(c, lat, run[..|run| - 1], i);
    }
  }

  /** From the handling of a Consecutive Frame that is not the last to the Flow Control frame that lets the
      sender continue, at least the wait frames' time passes, in every timed run. */
  lemma WaitsHoldBack(c: Cfg, lat: nat, run: seq<Timed>, i: nat, j: nat)
    requires Viable(c) && i < j < |run| && TimedExec(c, lat, run[..j]).Some?
    requires var t := TimedExec(c, lat, run[..j]).value;
             Taken(t.w) > 1 && t.w.outbox == [R.Cts(c.p)] && MayStep(c, lat, t, DoEmit, run[j].at)
    requires run[i].st == DoDeliver && forall k :: i < k < j ==> run[k].st != DoDeliver
    ensures run[j].at - run[i].at >= c.p.wftNum * c.p.wftTimUs
  {
    hide SafeInv, Workable, TimedExec, Punctual;
    HoldsBackOnRuns(c, lat, run[..j]);
    LastDelivery(c, lat, run[..j], i);
  }

  /** With parameters as initialisation leaves them, the wait frames stand in for a separation time that no code
      byte can express: they hold the sender back for the configured time, short of it by less than one
      period, if their number fits its byte. */
  lemma WaitsStandForStMin(c: Cfg, lat: nat, run: seq<Timed>, i: nat, j: nat, p: P.Params)
    requires P.Init(p) == (c.p, true) && p.stMinUs > 127000 && p.stMinUs / p.wftTimUs <= 255
    requires Viable(c) && i < j < |run| && TimedExec(c, lat, run[..j]).Some?
    requires var t := TimedExec(c, lat, run[..j]).value;
             Taken(t.w) > 1 && t.w.outbox == [R.Cts(c.p)] && MayStep(c, lat, t, DoEmit, run[j].at)
    requires run[i].st == DoDeliver && forall k :: i < k < j ==> run[k].st != DoDeliver
    ensures run[j].at - run[i].at > p.stMinUs - p.wftTimUs
    ensures 0 <= p.stMinUs - c.p.wftNum * c.p.wftTimUs < p.wftTimUs
  {
    hide TimedExec, MayStep;
    P.WaitsCoverStMin(p);
    WaitsHoldBack(c, lat, run, i, j);
  }
}
