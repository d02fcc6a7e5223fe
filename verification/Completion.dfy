/** Which transfers complete: every run without timeouts is finite, and where it cannot go on the transfer is
    complete, or, as written and for a message longer than one block, stuck for good. */
module Completion {
  import opened CanTpTypes
  import opened Frames
  import opened Protocol
  import opened Lockstep
  import P = ParamsSpec
  import R = ReceiverSpec
  import S = SenderSpec

  // ----- Termination -----

  /** The work one emitted frame can cause at the receiver and on the way back. */
  function FrameWork(c: Cfg): nat { 3 * c.p.wftNum + 6 }

  function Chores(w: World): nat {
    2 * w.unconfirmed + 3 * |w.outbox| + 2 * |w.rev| + Count(w.held) + if w.s.state == CfSent then 1 else 0
  }

  /** What is left to do, all of it: every timely step makes it smaller. */
  function Work(c: Cfg, w: World): int {
    (FrameWork(c) + 4) * (N(c) + 1 - |w.log|) + FrameWork(c) * |w.fwd| + Chores(w)
  }

  lemma MulNext(a: int, b: int)
    ensures a * (b + 1) == a * b + a
  {
  }

  /** Emitting a frame costs more than it brings. */
  lemma EmissionPays(c: Cfg, w: World, v: World)
    requires |v.log| == |w.log| + 1 && |v.fwd| == |w.fwd| + 1
    requires Chores(v) <= Chores(w) + 3
    ensures Work(c, v) < Work(c, w)
  {
    MulNext(FrameWork(c) + 4, N(c) + 1 - |v.log|);
    MulNext(FrameWork(c), |w.fwd|);
  }

  /** A step that emits nothing and delivers nothing does some chore. */
  lemma ChoreDone(c: Cfg, w: World, v: World)
    requires |v.log| == |w.log| && |v.fwd| == |w.fwd| && Chores(v) < Chores(w)
    ensures Work(c, v) < Work(c, w)
  {
  }

  lemma DeliveryPays(c: Cfg, w: World, v: World)
    requires |v.log| == |w.log| && |v.fwd| == |w.fwd| - 1 && Chores(v) < Chores(w) + FrameWork(c)
    ensures Work(c, v) < Work(c, w)
  {
    MulNext(FrameWork(c), |v.fwd|);
  }

  lemma SendWorks(c: Cfg, w: World)
    requires LockInv(c, w) && Workable(c, w) && Enabled(c, w, DoSend)
    ensures Work(c, Apply(c, w, DoSend)) < Work(c, w)
  {
    Untouched(c, w);
    hide LockInv, S.Good, AllFc, R.Ready, Work;
    EmissionPays(c, w, Apply(c, w, DoSend));
  }

  lemma ConfirmWorks(c: Cfg, w: World)
    requires Workable(c, w) && Enabled(c, w, DoConfirm)
    ensures Work(c, Apply(c, w, DoConfirm)) < Work(c, w)
  {
    hide Workable, Apply, S.Confirm, Work;
    ConfirmFacts(c, w);
    ChoreDone(c, w, Apply(c, w, DoConfirm));
  }

  lemma WakeWorks(c: Cfg, w: World)
    requires Workable(c, w) && Enabled(c, w, DoWake)
    ensures Work(c, Apply(c, w, DoWake)) < Work(c, w)
  {
    hide Workable, Apply, S.NextCf, Work;
    WakeFacts(c, w);
    EmissionPays(c, w, Apply(c, w, DoWake));
  }

  lemma AnswerLength(c: Cfg, q: nat)
    ensures |R.Answer(c.p, N(c), q)| <= c.p.wftNum + 1
  {
  }

  lemma DeliverWorks(c: Cfg, w: World)
    requires Viable(c) && LockInv(c, w) && Workable(c, w) && Enabled(c, w, DoDeliver)
    ensures Work(c, Apply(c, w, DoDeliver)) < Work(c, w)
  {
    CaughtUp(c, w);
    hide SafeInv, InStep, Workable, Apply, R.Answer, Work;
    DeliverFacts(c, w);
    AnswerLength(c, Taken(w) + 1);
    DeliveryPays(c, w, Apply(c, w, DoDeliver));
  }

  lemma EmitWorks(c: Cfg, w: World)
    requires Workable(c, w) && Enabled(c, w, DoEmit)
    ensures Work(c, Apply(c, w, DoEmit)) < Work(c, w)
  {
    hide Workable, Work;
    ChoreDone(c, w, Apply(c, w, DoEmit));
  }

  lemma HandleState(c: Cfg, w: World, f: Frame)
    requires S.Good(w.s) && f.FC? && S.Accepts(c.wide, w.s.state)
    ensures Handle(c, w, f).s.state != CfSent
  {
    hide S.NextCf;
  }

  /** Handling a frame is paid for by its removal, whether or not it makes the sender emit. */
  lemma HandleWorks(c: Cfg, w: World, v: World, f: Frame)
    requires S.Good(v.s) && f.FC? && S.Accepts(c.wide, v.s.state)
    requires v == w.(held := v.held, rev := v.rev) && Chores(v) < Chores(w)
    ensures Work(c, Handle(c, v, f)) < Work(c, w)
  {
    HandleIs(c, v, f);
    HandleCounts(c, v, f);
    HandleState(c, v, f);
    hide Handle, S.FlowControl, S.Good, Work;
    var u := Handle(c, v, f);
    if |u.log| == |w.log| {
      ChoreDone(c, w, u);
    } else {
      EmissionPays(c, w, u);
    }
  }

  lemma ReceiveFcWorks(c: Cfg, w: World)
    requires Workable(c, w) && Enabled(c, w, DoReceiveFc)
    ensures Work(c, Apply(c, w, DoReceiveFc)) < Work(c, w)
  {
    ReceiveFcIs(c, w);
    if S.Accepts(c.wide, w.s.state) {
      HandleWorks(c, w, w.(rev := w.rev[1..]), w.rev[0]);
    } else {
      hide Work;
      ChoreDone(c, w, Apply(c, w, DoReceiveFc));
    }
    hide Apply, Handle, Work;
  }

  lemma RecheckWorks(c: Cfg, w: World)
    requires Workable(c, w) && Enabled(c, w, DoRecheck)
    ensures Work(c, Apply(c, w, DoRecheck)) < Work(c, w)
  {
    if S.Accepts(c.wide, w.s.state) {
      HandleWorks(c, w, w.(held := None), w.held.value);
    } else {
      hide Work;
      ChoreDone(c, w, Apply(c, w, DoRecheck));
    }
    hide Handle, Work;
  }

  lemma StepWorks(c: Cfg, w: World, st: Step)
    requires Viable(c) && LockInv(c, w) && Workable(c, w) && Enabled(c, w, st) && Timely(st)
    ensures Work(c, Apply(c, w, st)) < Work(c, w)
  {
    hide LockInv, Workable, Apply, Enabled, Work;
    match st
    case DoSend => SendWorks(c, w);
    case DoConfirm => ConfirmWorks(c, w);
    case DoWake => WakeWorks(c, w);
    case DoDeliver => DeliverWorks(c, w);
    case DoEmit => EmitWorks(c, w);
    case DoReceiveFc => ReceiveFcWorks(c, w);
    case DoRecheck => RecheckWorks(c, w);
    case _ =>
  }

  lemma MulNonNegative(a: nat, b: nat)
    ensures a * b >= 0
  {
  }

  lemma WorkNonNegative(c: Cfg, w: World)
    requires SafeInv(c, w)
    ensures Work(c, w) >= 0
  {
    SegmentBound(c, w);
    MulNonNegative(FrameWork(c) + 4, N(c) + 1 - |w.log|);
    MulNonNegative(FrameWork(c), |w.fwd|);
    hide SafeInv, N;
  }

  /** (3 wft_num + 10) (n + 1) for a message of n Consecutive Frames. */
  function StepBound(c: Cfg): nat {
    (3 * c.p.wftNum + 10) * (N(c) + 1)
  }

  lemma InitialWork(c: Cfg)
    ensures Work(c, INIT) == StepBound(c)
  {
    assert FrameWork(c) * 0 == 0;
  }

  lemma {:induction false} WorkBoundsRuns(c: Cfg, steps: seq<Step>)
    requires Viable(c) && AllTimely(steps) && Exec(c, steps).Some?
    ensures |steps| + Work(c, Exec(c, steps).value) <= StepBound(c)
  {
    hide Work, LockInv, Apply, Enabled, StepBound, SafeInv, Workable;
    if steps == [] {
      InitialWork(c);
    } else {
      var k := |steps| - 1;
      LastStep(c, steps);
      LockstepOnRuns(c, steps[..k]);
      WorkBoundsRuns(c, steps[..k]);
      StepWorks(c, Exec(c, steps[..k]).value, steps[k]);
    }
  }

  /** Termination: a run without timeouts has a bounded number of steps, whatever their order. */
  lemma TimelyRunsAreFinite(c: Cfg, steps: seq<Step>)
    requires Viable(c) && AllTimely(steps) && Exec(c, steps).Some?
    ensures |steps| <= StepBound(c)
  {
    hide Work, Exec, StepBound, SafeInv, Workable;
    WorkBoundsRuns(c, steps);
    WorkNonNegative(c, Exec(c, steps).value);
  }

  // ----- Where a run without timeouts can end -----

  /** No step but a timeout is possible. */
  predicate AtRest(c: Cfg, w: World) {
    forall st :: Timely(st) ==> !Enabled(c, w, st)
  }

  /** The whole message is delivered, once, and its transmission reported, once. */
  predicate Complete(c: Cfg, w: World) {
    && w.r.state == TxDone && w.r.data == c.msg
    && w.delivered == [R.Delivery(c.msg, |c.msg| % 256)]
    && w.s.state == Idle && w.reports == [TxDoneCb]
  }

  /** One block has arrived, and the sender waits in the state the guard does not let Flow Control into. */
  predicate Stuck(c: Cfg, w: World) {
    && c.p.blockSize > 0
    && w.s.state == CfFcWait && w.s.index == FF_DATA + CF_DATA * c.p.blockSize
    && w.r.state == FcSent && w.r.index == FF_DATA + CF_DATA * c.p.blockSize < |c.msg|
    && w.fwd == [] && w.delivered == [] && w.reports == []
  }

  lemma NothingSentYet(c: Cfg, w: World)
    requires LockInv(c, w) && w.log == []
    ensures w.s.state == Idle && w.unconfirmed == 0 && w.outbox == []
  {
  }

  lemma RestFacts(c: Cfg, w: World)
    requires LockInv(c, w) && AtRest(c, w)
    ensures w.log != [] && w.fwd == [] && w.outbox == [] && w.unconfirmed == 0 && w.s.state != CfSent
    ensures w.held == None ==> w.rev == []
    ensures w.held.Some? ==> !w.signalled
  {
    assert !Enabled(c, w, DoSend) && !Enabled(c, w, DoConfirm) && !Enabled(c, w, DoWake) && !Enabled(c, w, DoDeliver);
    assert !Enabled(c, w, DoEmit) && !Enabled(c, w, DoReceiveFc) && !Enabled(c, w, DoRecheck);
    if w.log == [] {
      NothingSentYet(c, w);
    }
    hide LockInv, AtRest;
  }

  /** At rest the sender is done, or waits for Flow Control that will never come. */
  lemma RestCases(c: Cfg, w: World)
    requires Viable(c) && LockInv(c, w) && AtRest(c, w)
    ensures |w.log| == N(c) + 1 ||
            (!c.wide && c.p.blockSize > 0 && 2 <= |w.log| <= N(c) && EndsBlock(c, |w.log|) && w.s.state == CfFcWait)
  {
    RestFacts(c, w);
    SegmentBound(c, w);
    hide SafeInv, AtRest, FlightOf, Clear;
  }

  lemma DoneFacts(c: Cfg, w: World)
    requires Viable(c) && SafeInv(c, w) && Taken(w) == N(c) + 1
    ensures w.r.state == TxDone && |w.r.data| == |c.msg| && w.r.data[..|c.msg|] == c.msg[..|c.msg|]
    ensures w.delivered == [R.Delivery(c.msg, |c.msg| % 256)]
  {
    hide SenderOk, ChannelsOk;
  }

  lemma CompleteAtEnd(c: Cfg, w: World)
    requires Viable(c) && LockInv(c, w) && |w.log| == N(c) + 1 && w.fwd == [] && w.unconfirmed == 0
    ensures Complete(c, w)
  {
    DoneFacts(c, w);
    R.WholeBuffer(w.r.data, c.msg);
    hide SafeInv;
  }

  lemma MiddleFacts(c: Cfg, w: World)
    requires Viable(c) && SafeInv(c, w) && 1 <= Taken(w) <= N(c)
    ensures w.r.state == FcSent && w.r.index == FF_DATA + CF_DATA * (Taken(w) - 1) < |c.msg| && w.delivered == []
  {
    hide SenderOk, ChannelsOk;
  }

  lemma StuckAtBlock(c: Cfg, w: World)
    requires Viable(c) && LockInv(c, w) && w.s.state == CfFcWait && w.fwd == []
    requires c.p.blockSize > 0 && |w.log| == c.p.blockSize + 1 <= N(c)
    ensures Stuck(c, w)
  {
    SenderFacts(c, w);
    MiddleFacts(c, w);
    hide SafeInv, Clear, HeldOk, FlightOk, S.Good;
  }

  lemma BlockBound(c: Cfg, w: World)
    requires LockInv(c, w)
    ensures !c.wide && c.p.blockSize > 0 ==> |w.log| <= c.p.blockSize + 1
  {
    hide SafeInv;
  }

  /** Completion, exactly: wherever a run without timeouts can go no further, the transfer is complete if and only
      if the guard is the documented one, there are no blocks or the message fits in one; otherwise the sender is
      stuck after exactly one block. */
  lemma CompletionExact(c: Cfg, steps: seq<Step>)
    requires Viable(c) && AllTimely(steps) && Exec(c, steps).Some? && AtRest(c, Exec(c, steps).value)
    ensures !Completes(c) ==> Stuck(c, Exec(c, steps).value)
    ensures Completes(c) <==> Complete(c, Exec(c, steps).value)
  {
    hide SafeInv, InStep, AtRest, Exec;
    var w := Exec(c, steps).value;
    LockstepOnRuns(c, steps);
    RestFacts(c, w);
    RestCases(c, w);
    BlockBound(c, w);
    if |w.log| == N(c) + 1 {
      CompleteAtEnd(c, w);
    } else {
      OneBlock(c, |w.log|);
      StuckAtBlock(c, w);
    }
  }

  lemma OneMoreStep(c: Cfg, steps: seq<Step>, st: Step)
    requires Sound(c) && Exec(c, steps).Some? && Enabled(c, Exec(c, steps).value, st)
    ensures Exec(c, steps + [st]).Some? && Exec(c, steps + [st]).value == Apply(c, Exec(c, steps).value, st)
  {
    hide SafeInv, Workable, Apply, Enabled;
    assert (steps + [st])[..|steps|] == steps;
  }

  /** Any run without timeouts can be continued to one that has come to rest. */
  lemma {:induction false} EveryRunComesToRest(c: Cfg, steps: seq<Step>) returns (more: seq<Step>)
    requires Viable(c) && AllTimely(steps) && Exec(c, steps).Some?
    ensures AllTimely(steps + more) && Exec(c, steps + more).Some? && AtRest(c, Exec(c, steps + more).value)
    decreases StepBound(c) - |steps|
  {
    hide Exec, Enabled, StepBound, SafeInv, Workable;
    var w := Exec(c, steps).value;
    if AtRest(c, w) {
      more := [];
      assert steps + [] == steps;
    } else {
      var st :| Timely(st) && Enabled(c, w, st);
      hide AtRest;
      OneMoreStep(c, steps, st);
      TimelyRunsAreFinite(c, steps + [st]);
      var rest := EveryRunComesToRest(c, steps + [st]);
      more := [st] + rest;
      assert steps + more == steps + [st] + rest;
    }
  }

  /** Nothing leads out of the stuck state, timeouts included, and nothing is ever reported from it. */
  lemma StuckForGood(c: Cfg, w: World, st: Step)
    requires !c.wide && Sound(c) && SafeInv(c, w) && Workable(c, w) && Stuck(c, w) && Enabled(c, w, st)
    ensures Stuck(c, Apply(c, w, st))
  {
    hide R.At, S.Tracks, R.Ready;
  }

  /** Once stuck, a transfer stays stuck over whole runs, however many timers expire. */
  lemma {:induction false} StuckRuns(c: Cfg, steps: seq<Step>, more: seq<Step>)
    requires !c.wide && Sound(c) && Exec(c, steps).Some? && Stuck(c, Exec(c, steps).value)
    requires Exec(c, steps + more).Some?
    ensures Stuck(c, Exec(c, steps + more).value)
  {
    hide Exec, SafeInv, Workable, Apply, Enabled, Stuck;
    if more == [] {
      assert steps + more == steps;
    } else {
      var k, all := |more| - 1, steps + more;
      assert all[..|all| - 1] == steps + more[..k] && all[|all| - 1] == more[k];
      LastStep(c, all);
      StuckRuns(c, steps, more[..k]);
      StuckForGood(c, Exec(c, steps + more[..k]).value, more[k]);
    }
  }

  lemma NothingDone(c: Cfg)
    requires Sound(c)
    ensures Exec(c, []).Some? && AllTimely([])
  {
  }

  /** As written, transfers that initialisation and the session layer accept do stick: 20 bytes need two Consecutive
      Frames, and with blocks of one frame the second is never sent. */
  lemma SomeTransferSticks() returns (c: Cfg, steps: seq<Step>)
    ensures !c.wide && Viable(c) && !Completes(c)
    ensures AllTimely(steps) && Exec(c, steps).Some? && Stuck(c, Exec(c, steps).value)
  {
    hide Exec, SafeInv, Stuck, AtRest;
    var p := P.Params(1, 0, 0, 0, 0, 0);
    c := Cfg(Zeros(20), 1, p, R.Session(true, Zeros(20)), false);
    InitialisedIsViable(c, p);
    NothingDone(c);
    steps := EveryRunComesToRest(c, []);
    assert [] + steps == steps;
    CompletionExact(c, steps);
  }
}
