/** Where Flow Control goes, in every run of the joint machine, timeouts included and under either guard: each frame
    the receiver sends is handled, dropped, or still under way. */
module Conservation {
  import opened CanTpTypes
  import opened Frames
  import opened Protocol
  import opened Lockstep
  import R = ReceiverSpec
  import S = SenderSpec

  /** How many Flow Control frames the receiver has answered with after q frames of the transfer. */
  function Answered(c: Cfg, q: nat): nat {
    if q == 0 || !Proceeds(c) then 0 else Answered(c, q - 1) + |R.Answer(c.p, N(c), q)|
  }

  predicate CtsOrWait(c: Cfg, fs: seq<Frame>) {
    forall i :: 0 <= i < |fs| ==> fs[i] == R.Cts(c.p) || fs[i] == R.WAIT
  }

  predicate Spent(c: Cfg, w: World) {
    && Taken(w) >= 0 && CtsOrWait(c, Flight(w))
    && w.ctsSeen + w.waitsSeen + w.fcDropped + |Flight(w)| == Answered(c, Taken(w))
  }

  lemma AnswerIsCtsOrWait(c: Cfg, q: nat)
    ensures CtsOrWait(c, R.Answer(c.p, N(c), q))
  {
  }

  /** Handling a frame counts it as what it is. */
  lemma HandleSpent(c: Cfg, w: World, v: World, f: Frame)
    requires Spent(c, w) && Flight(w) != [] && f == Flight(w)[0] && f.FC?
    requires v == w.(held := v.held, rev := v.rev) && Flight(v) == Flight(w)[1..]
    requires S.Good(v.s) && S.Accepts(c.wide, v.s.state)
    ensures Spent(c, Handle(c, v, f))
  {
    hide FlightOf, Handle, S.Good, Answered;
    HandleCounts(c, v, f);
  }

  lemma DropSpent(c: Cfg, w: World)
    requires Spent(c, w) && w.held.Some?
    ensures Spent(c, Drop(w))
  {
    hide FlightOf, Answered;
    FlightMoves(w.held, w.rev, w.outbox);
  }

  /** Steps of the sender alone leave the frames under way, and the count of them, as they are. */
  lemma OthersSpent(c: Cfg, w: World, st: Step)
    requires Spent(c, w) && Workable(c, w) && Enabled(c, w, st)
    requires st in {DoSend, DoConfirm, DoWake, DoExpire}
    ensures Spent(c, Apply(c, w, st))
  {
    hide S.Step, S.Good, AllFc, R.Ready, Answered, FlightOf, CtsOrWait;
  }

  lemma FlightGrows(held: Option<Frame>, rev: seq<Frame>, outbox: seq<Frame>)
    ensures FlightOf(held, rev, outbox) == FlightOf(held, rev, []) + outbox
  {
    assert rev + [] == rev;
  }

  lemma DeliverSpent(c: Cfg, w: World)
    requires Sound(c) && SafeInv(c, w) && Workable(c, w) && Enabled(c, w, DoDeliver) && Spent(c, w)
    ensures Spent(c, Apply(c, w, DoDeliver))
  {
    hide SafeInv, R.Rx, R.Ready, R.Answer, ReceiverOk, S.Good, AllFc, FlightOf;
    DeliverKeepsReceiver(c, w);
    DeliverFields(c, w);
    AnswerIsCtsOrWait(c, Taken(w) + 1);
    FlightGrows(w.held, w.rev, Deliver(c, w).outbox);
  }

  lemma EmitSpent(c: Cfg, w: World)
    requires Workable(c, w) && Enabled(c, w, DoEmit) && Spent(c, w)
    ensures Spent(c, Apply(c, w, DoEmit))
  {
    hide AllFc, R.Ready, S.Good, FlightOf, Answered;
    FlightMoves(w.held, w.rev, w.outbox);
  }

  lemma ReceiveFcSpent(c: Cfg, w: World)
    requires Workable(c, w) && Enabled(c, w, DoReceiveFc) && Spent(c, w)
    ensures Spent(c, Apply(c, w, DoReceiveFc))
  {
    ReceiveFcIs(c, w);
    hide Apply, R.Ready, S.Good, FlightOf, Handle, Answered;
    FlightMoves(w.held, w.rev, w.outbox);
    if S.Accepts(c.wide, w.s.state) {
      HandleSpent(c, w, w.(rev := w.rev[1..]), w.rev[0]);
    }
  }

  lemma RecheckSpent(c: Cfg, w: World)
    requires Workable(c, w) && Enabled(c, w, DoRecheck) && Spent(c, w)
    ensures Spent(c, Apply(c, w, DoRecheck))
  {
    hide R.Ready, S.Good, FlightOf, Handle, Answered, Spent, Drop;
    FlightMoves(w.held, w.rev, w.outbox);
    if S.Accepts(c.wide, w.s.state) {
      HandleSpent(c, w, w.(held := None), w.held.value);
    } else {
      DropSpent(c, w);
    }
  }

  lemma StepSpent(c: Cfg, w: World, st: Step)
    requires Sound(c) && SafeInv(c, w) && Workable(c, w) && Enabled(c, w, st) && Spent(c, w)
    ensures Spent(c, Apply(c, w, st))
  {
    hide SafeInv, Workable, Spent;
    match st
    case DoSend | DoConfirm | DoWake | DoExpire => OthersSpent(c, w, st);
    case DoDeliver => DeliverSpent(c, w);
    case DoEmit => EmitSpent(c, w);
    case DoReceiveFc => ReceiveFcSpent(c, w);
    case DoRecheck => RecheckSpent(c, w);
    case DoGiveUp => DropSpent(c, w);
  }

  lemma InitSpent(c: Cfg)
    ensures Spent(c, INIT)
  {
  }

  /** In every reachable world the frames handled to continue, handled to wait, dropped and still under way add up to
      all that the receiver answered with, and each one under way is one of the two it sends. */
  lemma {:induction false} FlowControlConserved(c: Cfg, steps: seq<Step>)
    requires Sound(c) && Exec(c, steps).Some?
    ensures var w := Exec(c, steps).value;
            && Taken(w) >= 0
            && w.ctsSeen + w.waitsSeen + w.fcDropped + |Flight(w)| == Answered(c, Taken(w))
            && CtsOrWait(c, Flight(w))
  {
    hide SafeInv, Workable, Apply, Enabled, Answered, CtsOrWait, FlightOf;
    if steps == [] {
      InitSpent(c);
    } else {
      var k := |steps| - 1;
      LastStep(c, steps);
      FlowControlConserved(c, steps[..k]);
      StepSpent(c, Exec(c, steps[..k]).value, steps[k]);
    }
  }

  /** All of that, as numbers: one frame to continue for the First Frame and one for each full block, and the wait
      frames for each Consecutive Frame but the last. */
  lemma {:induction false} AnsweredExactly(c: Cfg, q: nat)
    requires Viable(c) && q <= N(c) + 1
    ensures Answered(c, q) == CtsTotal(c, q) + WaitTotal(c, q)
  {
    if q == 0 {
      assert WaitTotal(c, 0) == 0;
    } else {
      hide CtsTotal, WaitTotal, R.Answer, N;
      AnsweredExactly(c, q - 1);
      AnswerCounts(c, q - 1, CtsTotal(c, q - 1), WaitTotal(c, q - 1));
    }
  }
}
