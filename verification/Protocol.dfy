/** Sender and receiver joined by a first-in first-out channel each way: every interleaving of sends,
    confirmations, deliveries, blocking sends, sleeps and timer expiries, and what none of them can break. */
module Protocol {
  import opened CanTpTypes
  import opened Frames
  import opened Segmentation
  import P = ParamsSpec
  import R = ReceiverSpec
  import S = SenderSpec

  /** One segmented transfer: the message, the sender's identifier, the receiver's parameters, the session
      layer's answer, and whether the sender also accepts Flow Control after a full block. */
  datatype Cfg = Cfg(msg: message, id: nat, p: P.Params, session: R.Session, wide: bool)

  predicate Proceeds(c: Cfg) {
    c.session.accepted && c.session.buffer != []
  }

  predicate Sound(c: Cfg) {
    R.Fits(c.session, |c.msg|)
  }

  /** The two contexts, the channels (`outbox`: Flow Control the receiver's running handler still has to send),
      the sender's held Flow Control frame, pending confirmations, and the history: all frames
      emitted, all deliveries and reports, and how the Flow Control frames were spent. */
  datatype World = World(
    s: S.Sndr, r: R.Rcvr,
    fwd: seq<Frame>, rev: seq<Frame>, outbox: seq<Frame>,
    held: Option<Frame>, signalled: bool, unconfirmed: nat,
    log: seq<Frame>, delivered: seq<R.Delivery>, reports: seq<Outcome>,
    ctsSeen: nat, waitsSeen: nat, fcDropped: nat)

  const INIT := World(S.ZERO_SNDR, R.ZERO_RCVR, [], [], [], None, false, 0, [], [], [], 0, 0, 0)

  datatype Step =
    | DoSend
    | DoConfirm       // the link layer confirms a frame
    | DoWake          // the sender's STmin sleep ends
    | DoDeliver       // the receiver handles the next frame
    | DoEmit          // the receiver's handler sends its next Flow Control frame
    | DoReceiveFc     // a Flow Control frame reaches the sender: handled, or held
    | DoRecheck       // the sender's state has changed: the held frame is handled or dropped
    | DoExpire        // the sender's timer runs out
    | DoGiveUp        // the wait for a state change ends without one that helps: the held frame is dropped

  predicate Enabled(c: Cfg, w: World, st: Step) {
    match st
    case DoSend => w.s.state == Idle && w.log == []
    case DoConfirm => w.unconfirmed > 0 && w.s.state != CfSent
    case DoWake => w.s.state == CfSent
    case DoDeliver => w.fwd != [] && w.outbox == []
    case DoEmit => w.outbox != []
    case DoReceiveFc => w.rev != [] && w.held == None
    case DoRecheck => w.held.Some? && w.signalled
    case DoExpire => w.s.timer.Armed?
    case DoGiveUp => w.held.Some?
  }

  /** How many frames the receiver has handled. */
  function Taken(w: World): int {
    |w.log| - |w.fwd|
  }

  predicate AllFc(fs: seq<Frame>) {
    forall i :: 0 <= i < |fs| ==> fs[i].FC?
  }

  // ----- Steps -----

  /** The sender handles an event. */
  function Act(c: Cfg, w: World, ev: S.Event): World
    requires S.Good(w.s) && S.Enabled(c.wide, w.s, ev)
  {
    var o := S.Step(c.wide, w.s, ev);
    w.(s := o.s, fwd := Append(w.fwd, o.tx), log := Append(w.log, o.tx),
       unconfirmed := w.unconfirmed + Count(o.tx), reports := Append(w.reports, o.report),
       signalled := w.signalled || o.gave)
  }

  /** The sender handles an accepted Flow Control frame. */
  function Handle(c: Cfg, w: World, f: Frame): World
    requires S.Good(w.s) && f.FC? && S.Accepts(c.wide, w.s.state)
  {
    var v := Act(c, w, S.EvFc(f.fs, f.bs, f.st));
    if f.fs == FS_CTS then v.(ctsSeen := w.ctsSeen + 1)
    else if f.fs == FS_WAIT then v.(waitsSeen := w.waitsSeen + 1)
    else v
  }

  function Drop(w: World): World {
    w.(held := None, fcDropped := w.fcDropped + 1)
  }

  function Deliver(c: Cfg, w: World): World
    requires w.fwd != [] && R.Ready(w.r, R.Arrival(c.id, w.fwd[0]), c.session)
  {
    var o := R.Rx(c.p, w.r, R.Arrival(c.id, w.fwd[0]), c.session);
    w.(r := o.r, fwd := w.fwd[1..], outbox := o.fcs, delivered := Append(w.delivered, o.delivery))
  }

  /** What the handlers need of the world: a sender in order, Flow Control where it is expected, a buffer. */
  predicate Workable(c: Cfg, w: World) {
    && S.Good(w.s)
    && AllFc(w.rev) && (w.held.Some? ==> w.held.value.FC?)
    && (w.fwd != [] ==> R.Ready(w.r, R.Arrival(c.id, w.fwd[0]), c.session))
  }

  function Apply(c: Cfg, w: World, st: Step): World
    requires Workable(c, w) && Enabled(c, w, st)
  {
    match st
    case DoSend => Act(c, w, S.EvSend(c.msg))
    case DoConfirm => Act(c, w.(unconfirmed := w.unconfirmed - 1), S.EvConfirm)
    case DoWake => Act(c, w, S.EvWake)
    case DoDeliver => Deliver(c, w)
    case DoEmit => w.(outbox := w.outbox[1..], rev := w.rev + [w.outbox[0]])
    case DoReceiveFc =>
      var v := w.(rev := w.rev[1..]);
      if S.Accepts(c.wide, w.s.state) then Handle(c, v, w.rev[0])
      else v.(held := Some(w.rev[0]), signalled := false)
    case DoRecheck =>
      if S.Accepts(c.wide, w.s.state) then Handle(c, w.(held := None), w.held.value) else Drop(w)
    case DoExpire => Act(c, w, S.EvExpire)
    case DoGiveUp => Drop(w)
  }

  // ----- The invariant of every interleaving -----

  predicate SenderOk(c: Cfg, w: World) {
    && S.Good(w.s) && S.Tracks(w.s, c.msg, w.log)
    && |w.reports| + (if w.s.state == Idle then 0 else 1) == (if w.log == [] then 0 else 1)
  }

  predicate ReceiverOk(c: Cfg, w: World) {
    var q := Taken(w);
    && q >= 0
    && (if q == 0 || Proceeds(c) then R.At(c.p, c.msg, c.id, w.r, q)
        else q == 1 && w.r.state != FcSent && w.r.state != TxDone && w.r.index == 0)
    && w.delivered == (if Proceeds(c) && q == NumCf(|c.msg|) + 1 then [R.Delivery(c.msg, |c.msg| % 256)] else [])
  }

  predicate ChannelsOk(c: Cfg, w: World) {
    && |w.fwd| <= |w.log| && w.fwd == w.log[Taken(w)..]
    && AllFc(w.rev) && AllFc(w.outbox) && (w.held.Some? ==> w.held.value.FC?)
    && (Taken(w) == 0 || !Proceeds(c) ==> w.rev == w.outbox == [] && w.held == None && |w.log| <= 1)
  }

  predicate SafeInv(c: Cfg, w: World) {
    SenderOk(c, w) && ReceiverOk(c, w) && ChannelsOk(c, w)
  }

  lemma FrontIsSegment(c: Cfg, w: World)
    requires SenderOk(c, w) && ChannelsOk(c, w) && w.fwd != []
    ensures Taken(w) <= NumCf(|c.msg|) && w.fwd[0] == SegFrame(c.msg, Taken(w))
  {
    assert w.fwd[0] == w.log[Taken(w)] == S.Emission(c.msg)[Taken(w)];
  }

  lemma SafeIsWorkable(c: Cfg, w: World)
    requires Sound(c) && SafeInv(c, w)
    ensures Workable(c, w)
  {
    if w.fwd != [] {
      FrontIsSegment(c, w);
    }
  }

  // ----- Every step keeps it -----

  lemma ActKeepsSender(c: Cfg, w: World, ev: S.Event)
    requires SenderOk(c, w) && S.Enabled(c.wide, w.s, ev)
    requires if ev.EvSend? then ev.msg == c.msg && w.log == [] else w.log != [] || ev.EvConfirm?
    ensures SenderOk(c, Act(c, w, ev))
  {
    S.StepKeeps(c.wide, w.s, ev, c.msg, w.log);
    assert w.log == [] ==> w.s.state == Idle;
  }

  lemma ActKeepsChannels(c: Cfg, w: World, ev: S.Event)
    requires SafeInv(c, w) && S.Enabled(c.wide, w.s, ev)
    requires ev.EvSend? ==> w.log == []
    requires ev.EvFc? || ev.EvWake? ==> Taken(w) > 0 && Proceeds(c)
    ensures ChannelsOk(c, Act(c, w, ev)) && Taken(Act(c, w, ev)) == Taken(w)
  {
    var o := S.Step(c.wide, w.s, ev);
    assert o.tx.Some? ==> ev.EvSend? || ev.EvFc? || ev.EvWake?;
    assert (Append(w.log, o.tx))[Taken(w)..] == Append(w.fwd, o.tx);
  }

  lemma ActKeeps(c: Cfg, w: World, ev: S.Event)
    requires SafeInv(c, w) && S.Enabled(c.wide, w.s, ev)
    requires if ev.EvSend? then ev.msg == c.msg && w.log == [] else w.log != [] || ev.EvConfirm?
    requires ev.EvFc? || ev.EvWake? ==> Taken(w) > 0 && Proceeds(c)
    ensures SafeInv(c, Act(c, w, ev))
    ensures Taken(Act(c, w, ev)) == Taken(w)
  {
    ActKeepsSender(c, w, ev);
    ActKeepsChannels(c, w, ev);
  }

  lemma DeliverFirst(c: Cfg, w: World)
    requires Sound(c) && SafeInv(c, w) && Workable(c, w) && w.fwd != [] && Taken(w) == 0
    ensures ReceiverOk(c, Deliver(c, w))
    ensures Deliver(c, w).outbox == if Proceeds(c) then R.Answer(c.p, NumCf(|c.msg|), 1) else []
  {
    FrontIsSegment(c, w);
    R.RxDispatch(c.p, w.r, R.Arrival(c.id, w.fwd[0]), c.session);
    hide R.Rx, S.Good, S.Tracks;
    if Proceeds(c) {
      R.FirstFrameStep(c.p, c.msg, c.id, c.session);
    }
  }

  /** In the middle of a transfer the channel's front is the frame the receiver waits for. */
  lemma ExpectedFront(c: Cfg, w: World)
    requires Sound(c) && SafeInv(c, w) && w.fwd != [] && Taken(w) > 0
    ensures Proceeds(c) && Taken(w) <= NumCf(|c.msg|) && w.delivered == []
    ensures R.At(c.p, c.msg, c.id, w.r, Taken(w)) && w.r.state == FcSent
    ensures w.fwd[0] == SegFrame(c.msg, Taken(w)) && Carries(c.msg, Taken(w), w.fwd[0])
  {
    FrontIsSegment(c, w);
    SegFrameCarries(c.msg, Taken(w));
  }

  lemma DeliverFields(c: Cfg, w: World)
    requires w.fwd != [] && R.Ready(w.r, R.Arrival(c.id, w.fwd[0]), c.session)
    ensures var o, v := R.Rx(c.p, w.r, R.Arrival(c.id, w.fwd[0]), c.session), Deliver(c, w);
            && v.r == o.r && Taken(v) == Taken(w) + 1
            && v.outbox == o.fcs && v.delivered == Append(w.delivered, o.delivery)
  {
    hide R.Rx, R.Ready;
  }

  lemma DeliverNext(c: Cfg, w: World)
    requires Sound(c) && SafeInv(c, w) && Workable(c, w) && w.fwd != [] && Taken(w) > 0
    ensures ReceiverOk(c, Deliver(c, w)) && Proceeds(c)
    ensures Deliver(c, w).outbox == R.Answer(c.p, NumCf(|c.msg|), Taken(w) + 1)
  {
    ExpectedFront(c, w);
    DeliverFields(c, w);
    hide SafeInv, Workable, Sound, Deliver, Carries, NumCf, R.Ready, R.Rx, R.At, R.Answer, SegFrame;
    R.NextReception(c.p, c.msg, w.r, Taken(w), R.Arrival(c.id, w.fwd[0]), c.session);
  }

  lemma DeliverKeepsReceiver(c: Cfg, w: World)
    requires Sound(c) && SafeInv(c, w) && Workable(c, w) && w.fwd != []
    ensures ReceiverOk(c, Deliver(c, w))
    ensures Deliver(c, w).outbox == if Proceeds(c) then R.Answer(c.p, NumCf(|c.msg|), Taken(w) + 1) else []
  {
    if Taken(w) == 0 {
      DeliverFirst(c, w);
    } else {
      DeliverNext(c, w);
    }
  }

  lemma AnswerIsFc(p: P.Params, n: nat, q: nat)
    ensures AllFc(R.Answer(p, n, q))
  {
  }

  lemma DeliverKeeps(c: Cfg, w: World)
    requires Sound(c) && SafeInv(c, w) && Workable(c, w) && w.fwd != [] && w.outbox == []
    ensures SafeInv(c, Deliver(c, w))
  {
    DeliverKeepsReceiver(c, w);
    AnswerIsFc(c.p, NumCf(|c.msg|), Taken(w) + 1);
  }

  lemma HandleKeeps(c: Cfg, w: World, f: Frame)
    requires SafeInv(c, w) && f.FC? && S.Accepts(c.wide, w.s.state) && Taken(w) > 0 && Proceeds(c)
    ensures SafeInv(c, Handle(c, w, f))
  {
    hide R.At, S.Good, S.Tracks, S.Step;
    ActKeeps(c, w, S.EvFc(f.fs, f.bs, f.st));
  }

  lemma ReceiveFcKeeps(c: Cfg, w: World)
    requires SafeInv(c, w) && Workable(c, w) && Enabled(c, w, DoReceiveFc)
    ensures SafeInv(c, Apply(c, w, DoReceiveFc))
  {
    hide R.At, S.Good, S.Tracks, S.Step, Handle, Act;
    var v := w.(rev := w.rev[1..]);
    assert Taken(v) == Taken(w) > 0;
    if S.Accepts(c.wide, w.s.state) {
      HandleKeeps(c, v, w.rev[0]);
    }
  }

  lemma RecheckKeeps(c: Cfg, w: World)
    requires SafeInv(c, w) && Workable(c, w) && Enabled(c, w, DoRecheck)
    ensures SafeInv(c, Apply(c, w, DoRecheck))
  {
    hide R.At, S.Good, S.Tracks, S.Step, Handle, Act;
    if S.Accepts(c.wide, w.s.state) {
      HandleKeeps(c, w.(held := None), w.held.value);
    }
  }

  /** The sender's own steps: sending, waking up and timing out. */
  lemma SenderStepKeeps(c: Cfg, w: World, st: Step)
    requires SafeInv(c, w) && Workable(c, w) && Enabled(c, w, st)
    requires st == DoSend || st == DoWake || st == DoExpire
    ensures SafeInv(c, Apply(c, w, st))
  {
    var ev := if st == DoSend then S.EvSend(c.msg) else if st == DoWake then S.EvWake else S.EvExpire;
    assert ev.EvSend? || w.log != [];
    assert ev.EvWake? ==> Taken(w) > 0 && Proceeds(c);
    hide R.At, S.Good, S.Tracks, S.Step, Act;
    ActKeeps(c, w, ev);
  }

  lemma ConfirmKeeps(c: Cfg, w: World)
    requires SafeInv(c, w) && Workable(c, w) && Enabled(c, w, DoConfirm)
    ensures SafeInv(c, Apply(c, w, DoConfirm))
  {
    hide R.At, S.Good, S.Tracks, S.Step, Act;
    ActKeeps(c, w.(unconfirmed := w.unconfirmed - 1), S.EvConfirm);
  }

  lemma EmitOrGiveUpKeeps(c: Cfg, w: World, st: Step)
    requires SafeInv(c, w) && Workable(c, w) && Enabled(c, w, st)
    requires st == DoEmit || st == DoGiveUp
    ensures SafeInv(c, Apply(c, w, st))
  {
    hide R.At, S.Good, S.Tracks, S.Step;
  }

  lemma StepKeepsSafe(c: Cfg, w: World, st: Step)
    requires Sound(c) && SafeInv(c, w) && Workable(c, w) && Enabled(c, w, st)
    ensures SafeInv(c, Apply(c, w, st))
  {
    match st
    case DoSend | DoWake | DoExpire => SenderStepKeeps(c, w, st);
    case DoConfirm => ConfirmKeeps(c, w);
    case DoDeliver =>
      hide R.At, S.Good, S.Tracks, S.Step;
      DeliverKeeps(c, w);
    case DoEmit | DoGiveUp => EmitOrGiveUpKeeps(c, w, st);
    case DoReceiveFc => ReceiveFcKeeps(c, w);
    case DoRecheck => RecheckKeeps(c, w);
  }

  // ----- Runs -----

  /** The world after a sequence of steps, if each was enabled when it was taken. */
  function Exec(c: Cfg, steps: seq<Step>): (w: Option<World>)
    requires Sound(c)
    ensures w.Some? ==> SafeInv(c, w.value) && Workable(c, w.value)
  {
    if steps == [] then Some(INIT) else
      var k := |steps| - 1;
      match Exec(c, steps[..k])
      case None => None
      case Some(w) =>
        if Enabled(c, w, steps[k]) then
          StepKeepsSafe(c, w, steps[k]);
          SafeIsWorkable(c, Apply(c, w, steps[k]));
          Some(Apply(c, w, steps[k]))
        else None
  }

  lemma InitSafe(c: Cfg)
    requires Sound(c)
    ensures SafeInv(c, INIT) && Workable(c, INIT)
  {
    assert Exec(c, []) == Some(INIT);
    hide SafeInv, Workable;
  }

  /** Joint safety: in every reachable world, whatever was lost to timeouts or given up, the receiver's
      buffer agrees with the message as far as it was filled, the sender has sent a prefix of the
      segmentation, and the message is delivered at most once, whole, and exactly when the receiver is done.
      None of the error exits for negative or exhausted remainders can be taken, and the outcome is
      reported at most once. */
  lemma JointSafety(c: Cfg, steps: seq<Step>)
    requires Sound(c) && Exec(c, steps).Some?
    ensures var w := Exec(c, steps).value;
            && w.r.index <= Min(|c.msg|, |w.r.data|) && w.r.data[..w.r.index] == c.msg[..w.r.index]
            && w.log <= Segment(c.msg)
            && (w.s.state == CfSending ==> w.s.index <= |c.msg|)
            && (w.s.state == CfSent || w.s.state == FfFcWait || w.s.state == CfFcWait ==> w.s.index < |c.msg|)
            && (w.r.state == FcSent ==> w.r.index < |c.msg|)
            && (w.r.state == TxDone <==> w.delivered != [])
            && (w.delivered != [] ==>
                  w.r.data == c.msg && w.delivered == [R.Delivery(c.msg, |c.msg| % 256)] && Proceeds(c))
            && |w.reports| <= 1 && (|w.reports| == 1 ==> w.s.state == Idle)
  {
    var w := Exec(c, steps).value;
    if w.delivered != [] {
      R.WholeBuffer(w.r.data, c.msg);
    }
  }

  lemma ProperUnderWay(c: Cfg, w: World, f: Frame)
    requires SenderOk(c, w) && ChannelsOk(c, w)
    requires f in w.log || f in w.fwd || f in w.rev || f in w.outbox || w.held == Some(f)
    ensures Proper(f)
  {
    if f in w.fwd {
      var i :| 0 <= i < |w.fwd| && w.fwd[i] == f;
      assert w.log[Taken(w) + i] == f;
    }
    if f in w.log {
      var i :| 0 <= i < |w.log| && w.log[i] == f;
      assert Segment(c.msg)[i] == SegFrame(c.msg, i);
    }
  }

  /** Nothing is lost by carrying bytes instead of frames: in every reachable world each frame under way,
      and each one the sender has emitted, is what its eight bytes decode to. */
  lemma WireTransparent(c: Cfg, steps: seq<Step>, f: Frame)
    requires Sound(c) && Exec(c, steps).Some?
    requires var w := Exec(c, steps).value;
             f in w.log || f in w.fwd || f in w.rev || f in w.outbox || w.held == Some(f)
    ensures Proper(f) && Decode(Encode(f)) == f
  {
    ProperUnderWay(c, Exec(c, steps).value, f);
    DecodeEncode(f);
  }

  /** A message of at most seven bytes: one frame, delivered with its exact length by any receiver whatever its
      state, and reported once it is confirmed. */
  lemma SingleFrameTransfer(p: P.Params, s: S.Sndr, r: R.Rcvr, id: nat, session: R.Session, msg: seq<byte>)
    requires S.Good(s) && s.state == Idle && |msg| <= SF_DATA
    ensures var o := S.SendMsg(s, msg);
            && o.tx.Some? && Decode(Encode(o.tx.value)) == o.tx.value
            && S.Confirm(o.s).s == s && S.Confirm(o.s).report == Some(ResultOk)
            && var a := R.Arrival(id, o.tx.value);
               R.Ready(r, a, session) ==>
                 var d := R.Rx(p, r, a, session).delivery;
                 d.Some? && d.value.len == |msg| && d.value.data[..d.value.len] == msg
  {
    DecodeEncode(SF(|msg|, Pad7(msg)));
  }
}
