/** Receptions one after the other, each with the session layer's own answer: what refused First Frames leave behind,
    and what a receiver that is done, or stuck without a buffer, still hears. */
module Reception {
  import opened CanTpTypes
  import opened Frames
  import opened Segmentation
  import opened ReceiverSpec
  import P = ParamsSpec

  /** A reception and what the session layer would answer to it. */
  datatype Offer = Offer(a: Arrival, session: Session)

  /** The history after a sequence of receptions by a receiver that was in state `r`. */
  function ReceiveFrom(p: P.Params, r: Rcvr, offers: seq<Offer>): (h: Option<Hist>) {
    if offers == [] then Some(Hist(r, [], [])) else
      var k := |offers| - 1;
      match ReceiveFrom(p, r, offers[..k])
      case None => None
      case Some(h) =>
        if Ready(h.r, offers[k].a, offers[k].session) then
          var o := Rx(p, h.r, offers[k].a, offers[k].session);
          Some(Hist(o.r, h.fcs + o.fcs, Append(h.deliveries, o.delivery)))
        else None
  }

  lemma LastOffer(p: P.Params, r: Rcvr, offers: seq<Offer>, f: Offer)
    requires ReceiveFrom(p, r, offers).Some? && Ready(ReceiveFrom(p, r, offers).value.r, f.a, f.session)
    ensures var h, all := ReceiveFrom(p, r, offers).value, ReceiveFrom(p, r, offers + [f]);
            var o := Rx(p, h.r, f.a, f.session);
            all == Some(Hist(o.r, h.fcs + o.fcs, Append(h.deliveries, o.delivery)))
  {
    assert (offers + [f])[..|offers|] == offers;
  }

  // ----- Refused First Frames -----

  /** The session layer refuses the frame, or an idle receiver does not hear it. */
  predicate Refusal(f: Offer) {
    if f.a.f.FF? then !f.session.accepted else !f.a.f.SF?
  }

  predicate Refusals(offers: seq<Offer>) {
    forall i :: 0 <= i < |offers| ==> Refusal(offers[i])
  }

  lemma RefusalStep(p: P.Params, r: Rcvr, f: Offer)
    requires r.state == Idle && r.timer == Stopped && Refusal(f)
    ensures Ready(r, f.a, f.session)
    ensures var o := Rx(p, r, f.a, f.session);
            && o.r.state == Idle && o.r.timer == Stopped && o.fcs == [] && o.delivery == None
            && o.r.sn == r.sn && o.r.blocks == r.blocks && o.r.wftCntr == r.wftCntr
  {
    if f.a.f.FF? {
      RxDispatch(p, r, f.a, f.session);
      FirstFrameRefused(p, r, f.a.id, f.a.f.ffLen, f.a.f.ffData, f.session);
    }
  }

  /** However many First Frames are refused, and whatever else an idle receiver hears meanwhile: it is idle, its timer
      is stopped, it has sent and delivered nothing, and its counters are untouched. */
  lemma {:induction false} RefusedStaysIdle(p: P.Params, r: Rcvr, offers: seq<Offer>)
    requires r.state == Idle && r.timer == Stopped && Refusals(offers)
    ensures var h := ReceiveFrom(p, r, offers);
            && h.Some? && h.value.r.state == Idle && h.value.r.timer == Stopped
            && h.value.fcs == [] && h.value.deliveries == []
            && h.value.r.sn == r.sn && h.value.r.blocks == r.blocks && h.value.r.wftCntr == r.wftCntr
  {
    hide Rx, Ready;
    if offers != [] {
      var k := |offers| - 1;
      RefusedStaysIdle(p, r, offers[..k]);
      RefusalStep(p, ReceiveFrom(p, r, offers[..k]).value.r, offers[k]);
      LastOffer(p, r, offers[..k], offers[k]);
      assert offers == offers[..k] + [offers[k]];
    }
  }

  function Offers(id: nat, session: Session, fs: seq<Frame>): (os: seq<Offer>)
    ensures |os| == |fs| && forall i :: 0 <= i < |fs| ==> os[i] == Offer(Arrival(id, fs[i]), session)
  {
    seq(|fs|, i requires 0 <= i < |fs| => Offer(Arrival(id, fs[i]), session))
  }

  /** An idle receiver with its counters at zero begins a transfer like a fresh one. */
  lemma BeginsAfresh(p: P.Params, r: Rcvr, id: nat, session: Session, msg: message)
    requires r.state == Idle && r.sn == 0 && r.blocks == 0
    requires session.accepted && |session.buffer| == |msg|
    ensures var a := Arrival(id, SegFrame(msg, 0));
            && Ready(r, a, session)
            && var o := Rx(p, r, a, session);
               At(p, msg, id, o.r, 1) && o.fcs == [Cts(p)] && o.delivery == None
  {
    var a := Arrival(id, SegFrame(msg, 0));
    RxDispatch(p, r, a, session);
    FirstFrameAccepted(p, r, id, |msg|, msg[..6], session);
    if p.blockSize > 0 {
      assert 0 % p.blockSize == 0;
    }
    hide Rx, RxFirst;
  }

  lemma NextOffer(p: P.Params, msg: message, r: Rcvr, q: nat, f: Offer)
    requires 1 <= q <= NumCf(|msg|) && At(p, msg, f.a.id, r, q) && f.a.f == SegFrame(msg, q)
    ensures Ready(r, f.a, f.session)
    ensures var o := Rx(p, r, f.a, f.session);
            && At(p, msg, f.a.id, o.r, q + 1)
            && o.delivery == if q == NumCf(|msg|) then Some(Delivery(msg, |msg| % 256)) else None
  {
    SegFrameCarries(msg, q);
    assert Ready(r, f.a, f.session);
    hide Rx, At, Ready, Carries, SegFrame;
    NextReception(p, msg, r, q, f.a, f.session);
  }

  /** The transfer that follows, frame by frame. */
  lemma {:induction false} TransferAfter(p: P.Params, before: seq<Offer>, id: nat, session: Session, msg: message,
                                         q: nat)
    requires Refusals(before) && session.accepted && |session.buffer| == |msg| && 1 <= q <= NumCf(|msg|) + 1
    ensures var h := ReceiveFrom(p, ZERO_RCVR, before + Offers(id, session, Segment(msg)[..q]));
            && h.Some? && At(p, msg, id, h.value.r, q)
            && h.value.deliveries == if q == NumCf(|msg|) + 1 then [Delivery(msg, |msg| % 256)] else []
  {
    hide ReceiveFrom, Rx, At, Ready, SegFrame, NumCf;
    var fs := Segment(msg);
    var done := before + Offers(id, session, fs[..q - 1]);
    var next := Offer(Arrival(id, fs[q - 1]), session);
    assert before + Offers(id, session, fs[..q]) == done + [next];
    RefusedStaysIdle(p, ZERO_RCVR, before);
    if q == 1 {
      assert done == before;
      BeginsAfresh(p, ReceiveFrom(p, ZERO_RCVR, before).value.r, id, session, msg);
    } else {
      TransferAfter(p, before, id, session, msg, q - 1);
      NextOffer(p, msg, ReceiveFrom(p, ZERO_RCVR, done).value.r, q - 1, next);
    }
    LastOffer(p, ZERO_RCVR, done, next);
  }

  /** Refused First Frames do no harm: a transfer that is accepted after any number of them is received and
      delivered, whole and once. */
  lemma RefusedThenDelivered(p: P.Params, before: seq<Offer>, id: nat, session: Session, msg: message)
    requires Refusals(before) && session.accepted && |session.buffer| == |msg|
    ensures var h := ReceiveFrom(p, ZERO_RCVR, before + Offers(id, session, Segment(msg)));
            && h.Some? && h.value.r.state == TxDone && h.value.r.data == msg
            && h.value.deliveries == [Delivery(msg, |msg| % 256)]
  {
    hide ReceiveFrom;
    TransferAfter(p, before, id, session, msg, NumCf(|msg|) + 1);
    assert Segment(msg)[..NumCf(|msg|) + 1] == Segment(msg);
    var h := ReceiveFrom(p, ZERO_RCVR, before + Offers(id, session, Segment(msg))).value;
    WholeBuffer(h.r.data, msg);
  }

  // ----- A receiver that hears no segmented message -----

  /** What the Single Frames among the offers deliver. */
  function SingleDeliveries(offers: seq<Offer>): (ds: seq<Delivery>)
    ensures |ds| <= |offers|
  {
    if offers == [] then [] else
      var k := |offers| - 1;
      var f := offers[k].a.f;
      SingleDeliveries(offers[..k]) + if f.SF? then [Delivery(f.sfData, f.sfLen)] else []
  }

  lemma {:induction false} NoneDelivered(offers: seq<Offer>)
    ensures SingleDeliveries(offers) == [] <==> forall i :: 0 <= i < |offers| ==> !offers[i].a.f.SF?
  {
    if offers != [] {
      NoneDelivered(offers[..|offers| - 1]);
      assert forall i :: 0 <= i < |offers| - 1 ==> offers[i] == offers[..|offers| - 1][i];
    }
  }

  /** Once done or stuck, a receiver changes at most to done. */
  lemma ClosedStep(p: P.Params, r: Rcvr, f: Offer)
    requires r.state != Idle && r.state != FcSent
    ensures Ready(r, f.a, f.session)
    ensures Rx(p, r, f.a, f.session) ==
            if f.a.f.SF? then Out(r.(state := RxDone), [], Some(Delivery(f.a.f.sfData, f.a.f.sfLen)))
            else Out(r, [], None)
  {
    if f.a.f.SF? {
      SingleFrameEffect(p, r, f.a, f.session);
    } else {
      UnheardFrames(p, r, f.a, f.session);
    }
  }

  lemma NothingReceived(p: P.Params, r: Rcvr)
    ensures ReceiveFrom(p, r, []) == Some(Hist(r, [], []))
  {
  }

  /** A receiver that is neither idle nor waiting for a Consecutive Frame stays as it is over any receptions: it sends
      no Flow Control, begins no transfer, and delivers the Single Frames, each of which leaves it done. */
  lemma {:induction false} ClosedForSegments(p: P.Params, r: Rcvr, offers: seq<Offer>)
    requires r.state != Idle && r.state != FcSent
    ensures var h := ReceiveFrom(p, r, offers);
            && h.Some? && h.value.fcs == [] && h.value.deliveries == SingleDeliveries(offers)
            && h.value.r == r.(state := if SingleDeliveries(offers) == [] then r.state else RxDone)
  {
    hide Rx, Ready, ReceiveFrom;
    if offers == [] {
      NothingReceived(p, r);
    } else {
      var k := |offers| - 1;
      ClosedForSegments(p, r, offers[..k]);
      ClosedStep(p, ReceiveFrom(p, r, offers[..k]).value.r, offers[k]);
      LastOffer(p, r, offers[..k], offers[k]);
      assert offers == offers[..k] + [offers[k]];
    }
  }

  /** After a Single Frame nothing but further Single Frames is heard, so a segmented message is never taken. */
  lemma DoneAfterSingleFrame(p: P.Params, r: Rcvr, f: Offer, offers: seq<Offer>)
    requires f.a.f.SF? && Ready(r, f.a, f.session)
    ensures var h := ReceiveFrom(p, Rx(p, r, f.a, f.session).r, offers);
            && h.Some? && h.value.r == r.(state := RxDone) && h.value.fcs == []
            && h.value.deliveries == SingleDeliveries(offers)
            && (h.value.deliveries == [] <==> forall i :: 0 <= i < |offers| ==> !offers[i].a.f.SF?)
  {
    NoneDelivered(offers);
    SingleFrameEffect(p, r, f.a, f.session);
    ClosedForSegments(p, r.(state := RxDone), offers);
    hide Rx;
  }

  /** A First Frame that was accepted without a buffer blocks every later one. */
  lemma UnbufferedBlocks(p: P.Params, r: Rcvr, f: Offer, offers: seq<Offer>)
    requires r.state == Idle && f.a.f.FF? && f.session.accepted && f.session.buffer == []
    requires forall i :: 0 <= i < |offers| ==> !offers[i].a.f.SF?
    ensures Ready(r, f.a, f.session)
    ensures var u := Rx(p, r, f.a, f.session).r;
            u.state == FfRcvd && u.timer == Armed(N_Br) && ReceiveFrom(p, u, offers) == Some(Hist(u, [], []))
  {
    RxDispatch(p, r, f.a, f.session);
    FirstFrameUnbuffered(p, r, f.a.id, f.a.f.ffLen, f.a.f.ffData, f.session);
    hide Rx, RxFirst;
    ClosedForSegments(p, Rx(p, r, f.a, f.session).r, offers);
    NoneDelivered(offers);
  }
}
