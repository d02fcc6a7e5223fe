/** The bound on the wait period is exact: as soon as a wait period and three hops do not fit into N_Bs,
    some punctual run lets it expire. */
module TimingBound {
  import opened CanTpTypes
  import opened Protocol
  import opened Lockstep
  import opened Timing
  import R = ReceiverSpec
  import S = SenderSpec

  /** The e-th frame has just been sent, at time 0, and makes the sender wait once it is confirmed. */
  predicate Sending(c: Cfg, t: TimedWorld, e: nat) {
    && LockInv(c, t.w) && |t.w.log| == e && Taken(t.w) == e - 1 && 1 <= e <= N(c) && R.CtsDue(c.p, e)
    && t.w.unconfirmed == 1 && t.w.held == None && t.w.rev == t.w.outbox == []
    && t.txAt == t.armedAt == t.now == 0
  }

  /** It is confirmed: N_Bs has been running since time 0, and nothing has reached the receiver yet. */
  predicate Waiting(c: Cfg, t: TimedWorld, e: nat) {
    && LockInv(c, t.w) && |t.w.log| == e && Taken(t.w) == e - 1 && 1 <= e <= N(c) && R.CtsDue(c.p, e)
    && t.w.unconfirmed == 0 && t.w.held == None && t.w.rev == t.w.outbox == []
    && S.Accepts(c.wide, t.w.s.state) && t.w.s.timer.Armed?
    && t.txAt == t.armedAt == t.now == 0
  }

  /** The receiver has handled it and still has all its Flow Control to send, the first not before a pause. */
  predicate Answering(c: Cfg, t: TimedWorld, e: nat, at: nat, pause: nat) {
    && LockInv(c, t.w) && |t.w.log| == Taken(t.w) == e && 1 <= e <= N(c) && R.CtsDue(c.p, e)
    && t.w.unconfirmed == 0 && t.w.held == None && t.w.rev == [] && t.w.fwd == []
    && t.w.outbox == Owed(c.p, if e == 1 then 0 else c.p.wftNum)
    && S.Accepts(c.wide, t.w.s.state) && t.w.s.timer.Armed?
    && t.armedAt == 0 && t.now == at && t.readyAt == at + pause
  }

  lemma SendFields(c: Cfg)
    requires Workable(c, INIT)
    ensures N(c) >= 1
    ensures var v := Apply(c, INIT, DoSend);
            && |v.log| == |v.fwd| == v.unconfirmed == 1 && v.held == None && v.rev == v.outbox == []
  {
    hide AllFc, R.Ready, S.Good;
  }

  lemma SendFirst(c: Cfg, lat: nat)
    requires Viable(c)
    ensures LockInv(c, INIT) && Workable(c, INIT) && MayStep(c, lat, START, DoSend, 0)
    ensures Sending(c, Tick(c, START, DoSend, 0), 1)
  {
    hide SafeInv, InStep, Workable, S.SendMsg, N, FlightOf;
    InitInStep(c);
    InitSafe(c);
    StepKeepsLock(c, INIT, DoSend);
    SendFields(c);
  }

  lemma ConfirmArms(s: S.Sndr)
    requires s.state == FfSending || s.state == CfSending
    ensures S.Confirm(s).s.state in {FfFcWait, CfFcWait} ==> S.Confirm(s).s.timer == Armed(N_Bs)
  {
  }

  lemma NotBusy(c: Cfg, lat: nat, t: TimedWorld, e: nat)
    requires Sending(c, t, e)
    ensures Punctual(lat, t, 0)
  {
    hide LockInv;
  }

  lemma ConfirmWaits(c: Cfg, lat: nat, t: TimedWorld, e: nat)
    requires Viable(c) && Completes(c) && Workable(c, t.w) && Sending(c, t, e)
    ensures MayStep(c, lat, t, DoConfirm, 0) && Waiting(c, Tick(c, t, DoConfirm, 0), e)
  {
    hide SafeInv, InStep, Workable, Apply, S.Confirm, FlightOf, N, Completes;
    SendingState(c, t.w);
    NotBusy(c, lat, t, e);
    StepKeepsLock(c, t.w, DoConfirm);
    NeverRefused(c, Apply(c, t.w, DoConfirm));
    ConfirmFacts(c, t.w);
    OneUnconfirmed(c, t.w);
    ConfirmArms(t.w.s);
  }

  /** The receiver handles the frame at any time within a hop. */
  lemma DeliverAnswers(c: Cfg, lat: nat, t: TimedWorld, e: nat, at: nat)
    requires Viable(c) && Workable(c, t.w) && Waiting(c, t, e) && at <= lat
    ensures MayStep(c, lat, t, DoDeliver, at)
    ensures Answering(c, Tick(c, t, DoDeliver, at), e, at, if e > 1 && c.p.wftNum > 0 then c.p.wftTimUs else 0)
  {
    hide SafeInv, InStep, Workable, Apply, R.Answer, Owed, N, FlightOf, R.CtsDue;
    StepKeepsLock(c, t.w, DoDeliver);
    DeliverFacts(c, t.w);
    AnswerIsOwed(c, e);
    OwedFront(c.p, Owed(c.p, if e == 1 then 0 else c.p.wftNum));
  }

  lemma EmitFirst(c: Cfg, lat: nat, t: TimedWorld, e: nat, at0: nat, pause: nat, at: nat)
    requires Workable(c, t.w) && Answering(c, t, e, at0, pause) && at0 + pause <= at <= at0 + pause + lat
    ensures MayStep(c, lat, t, DoEmit, at)
    ensures var u := Tick(c, t, DoEmit, at);
            && u.w == t.w.(outbox := t.w.outbox[1..], rev := [t.w.outbox[0]])
            && u.now == u.fcAt == at && u.readyAt >= at && u.armedAt == 0
  {
    hide LockInv, Owed, AllFc, R.Ready, S.Good;
    assert [] + [t.w.outbox[0]] == [t.w.outbox[0]];
  }

  lemma HandledCts(c: Cfg, w: World)
    requires Viable(c) && LockInv(c, w) && Workable(c, w) && S.Accepts(c.wide, w.s.state) && w.unconfirmed == 0
    requires w.held == None && w.rev == [R.Cts(c.p)] && w.outbox == [] && w.fwd == []
    ensures var v := Apply(c, w, DoReceiveFc);
            && |v.log| == |w.log| + 1 && Taken(v) == Taken(w) && v.unconfirmed == 1
            && v.held == None && v.rev == v.outbox == []
  {
    hide SafeInv, Workable, Apply, Handle, FlightOf, FlightOk, Clear, S.FlowControl, SenderInStep, S.Good;
    ReceiveFcIs(c, w);
    SenderFacts(c, w);
    var u := w.(rev := w.rev[1..]);
    HandleIs(c, u, w.rev[0]);
    HandleCounts(c, u, w.rev[0]);
    CtsInStep(c, w.s, |w.log|, w.reports);
  }

  /** The first frame to continue is handled at time 0 too, and the second frame sent. */
  lemma SecondSent(c: Cfg, lat: nat, t: TimedWorld)
    requires Viable(c) && Completes(c) && c.p.wftNum > 0 && N(c) > 1
    requires Workable(c, t.w) && Answering(c, t, 1, 0, 0)
    requires Workable(c, Tick(c, t, DoEmit, 0).w)
    ensures MayStep(c, lat, t, DoEmit, 0)
    ensures var u := Tick(c, t, DoEmit, 0);
            && MayStep(c, lat, u, DoReceiveFc, 0)
            && Sending(c, Tick(c, u, DoReceiveFc, 0), 2)
  {
    hide SafeInv, InStep, Workable, Apply, Owed, N, FlightOf;
    EmitFirst(c, lat, t, 1, 0, 0, 0);
    OwedFront(c.p, t.w.outbox);
    StepKeepsLock(c, t.w, DoEmit);
    var u := Tick(c, t, DoEmit, 0);
    StepKeepsLock(c, u.w, DoReceiveFc);
    HandledCts(c, u.w);
  }

  // ----- Runs -----

  lemma FirstWaits(c: Cfg, lat: nat) returns (run: seq<Timed>)
    requires Viable(c) && Completes(c)
    ensures TimedExec(c, lat, run).Some? && Waiting(c, TimedExec(c, lat, run).value, 1)
  {
    hide Workable, SafeInv, MayStep, Tick, Waiting, Sending, LockInv;
    SendFirst(c, lat);
    OneMoreTimed(c, lat, [], DoSend, 0);
    run := [] + [Timed(DoSend, 0)];
    ConfirmWaits(c, lat, TimedExec(c, lat, run).value, 1);
    OneMoreTimed(c, lat, run, DoConfirm, 0);
    run := run + [Timed(DoConfirm, 0)];
  }

  lemma SecondWaits(c: Cfg, lat: nat, first: seq<Timed>) returns (run: seq<Timed>)
    requires Viable(c) && Completes(c) && c.p.wftNum > 0 && N(c) > 1
    requires TimedExec(c, lat, first).Some? && Waiting(c, TimedExec(c, lat, first).value, 1)
    ensures TimedExec(c, lat, run).Some? && Waiting(c, TimedExec(c, lat, run).value, 2)
  {
    hide Workable, SafeInv, MayStep, Tick, Waiting, Sending, Answering, LockInv, N, TimedExec;
    DeliverAnswers(c, lat, TimedExec(c, lat, first).value, 1, 0);
    OneMoreTimed(c, lat, first, DoDeliver, 0);
    run := first + [Timed(DoDeliver, 0)];
    var t := TimedExec(c, lat, run).value;
    EmitFirst(c, lat, t, 1, 0, 0, 0);
    OneMoreTimed(c, lat, run, DoEmit, 0);
    SecondSent(c, lat, t);
    run := run + [Timed(DoEmit, 0)];
    OneMoreTimed(c, lat, run, DoReceiveFc, 0);
    run := run + [Timed(DoReceiveFc, 0)];
    ConfirmWaits(c, lat, TimedExec(c, lat, run).value, 2);
    OneMoreTimed(c, lat, run, DoConfirm, 0);
    run := run + [Timed(DoConfirm, 0)];
  }

  lemma ExpireBeforeAnswer(c: Cfg, lat: nat, t: TimedWorld, e: nat, a: nat, pause: nat)
    requires Answering(c, t, e, a, pause) && a <= TIMER_US <= a + pause
    ensures MayStep(c, lat, t, DoExpire, TIMER_US)
  {
    hide LockInv;
  }

  lemma ExpireAfterAnswer(c: Cfg, lat: nat, t: TimedWorld, e: nat, a: nat, pause: nat, b: nat)
    requires Workable(c, t.w) && Answering(c, t, e, a, pause) && a + pause <= b <= a + pause + lat
    requires b <= TIMER_US <= b + lat
    ensures MayStep(c, lat, Tick(c, t, DoEmit, b), DoExpire, TIMER_US)
  {
    hide LockInv, Workable, Tick, Owed;
    EmitFirst(c, lat, t, e, a, pause, b);
  }

  /** N_Bs expires if every hop takes as long as it may. */
  lemma Overdue(c: Cfg, lat: nat, first: seq<Timed>, e: nat) returns (run: seq<Timed>)
    requires Viable(c) && Completes(c)
    requires TimedExec(c, lat, first).Some? && Waiting(c, TimedExec(c, lat, first).value, e)
    requires (if e > 1 && c.p.wftNum > 0 then c.p.wftTimUs else 0) + 3 * lat >= TIMER_US
    ensures TimedExec(c, lat, run + [Timed(DoExpire, TIMER_US)]).Some?
  {
    hide Workable, SafeInv, MayStep, Tick, Waiting, Answering, LockInv, N, TimedExec;
    var pause := if e > 1 && c.p.wftNum > 0 then c.p.wftTimUs else 0;
    var a := Min(lat, TIMER_US);
    DeliverAnswers(c, lat, TimedExec(c, lat, first).value, e, a);
    OneMoreTimed(c, lat, first, DoDeliver, a);
    run := first + [Timed(DoDeliver, a)];
    var t := TimedExec(c, lat, run).value;
    if a + pause >= TIMER_US {
      ExpireBeforeAnswer(c, lat, t, e, a, pause);
    } else {
      var b := Min(a + pause + lat, TIMER_US);
      EmitFirst(c, lat, t, e, a, pause, b);
      OneMoreTimed(c, lat, run, DoEmit, b);
      run := run + [Timed(DoEmit, b)];
      ExpireAfterAnswer(c, lat, t, e, a, pause, b);
    }
    OneMoreTimed(c, lat, run, DoExpire, TIMER_US);
  }

  lemma TimerRunsOut(c: Cfg, lat: nat) returns (run: seq<Timed>)
    requires Viable(c) && Completes(c) && !OftenEnough(c, lat)
    ensures TimedExec(c, lat, run).Some? && !AllTimely(Steps(run))
  {
    hide Waiting, TimedExec, N;
    run := FirstWaits(c, lat);
    var e := 1;
    if c.p.wftNum > 0 && N(c) > 1 {
      run := SecondWaits(c, lat, run);
      e := 2;
    }
    run := Overdue(c, lat, run, e);
    run := run + [Timed(DoExpire, TIMER_US)];
    assert Steps(run)[|run| - 1] == DoExpire;
  }

  /** Thirteen bytes fit the First Frame and one Consecutive Frame. */
  lemma MoreThanOneFrame(c: Cfg)
    ensures N(c) > 1 <==> |c.msg| > 13
  {
  }

  /** Exactly when a wait period and three hops fit into N_Bs, no timer of the sender runs out and no Flow Control
      frame is given up in any punctual run. */
  lemma OftenEnoughExactly(c: Cfg, lat: nat)
    requires Viable(c) && Completes(c)
    ensures OftenEnough(c, lat) <==>
            forall run :: TimedExec(c, lat, run).Some? ==> AllTimely(Steps(run))
    ensures (if c.p.wftNum > 0 && |c.msg| > 13 then c.p.wftTimUs else 0) + 3 * lat < 1_000_000 <==>
            forall run :: TimedExec(c, lat, run).Some? ==> AllTimely(Steps(run))
  {
    hide TimedExec, AllTimely, Sound;
    MoreThanOneFrame(c);
    if OftenEnough(c, lat) {
      forall run | TimedExec(c, lat, run).Some? ensures AllTimely(Steps(run)) {
        ClocksOnRuns(c, lat, run);
      }
    } else {
      var run := TimerRunsOut(c, lat);
      assert !AllTimely(Steps(run));
    }
  }
}
