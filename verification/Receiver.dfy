/** The receiving role in the source's own form: frames are stored in place into the session layer's buffer,
    Flow Control is sent by blocking calls whose results only affect what is reported. */
module ReceiverContext {
  import opened CanTpTypes
  import opened Frames
  import P = ParamsSpec
  import Spec = ReceiverSpec

  /** The report caused by blocking send number `n`, if it fails. */
  function Failed(link: nat -> bool, n: nat): (f: seq<Outcome>)
    ensures |f| <= 1
  {
    if link(n) then [] else [TimeoutAs]
  }

  /** The reports caused by `n` blocking sends starting with send number `from`: one for each failure. */
  function Failures(link: nat -> bool, from: nat, n: nat): (f: seq<Outcome>)
    ensures |f| <= n
  {
    if n == 0 then [] else Failures(link, from, n - 1) + Failed(link, from + n - 1)
  }

  /** Reports are made for exactly the sends that fail, and all say that N_As ran out. */
  lemma {:induction false} FailuresAre(link: nat -> bool, from: nat, n: nat)
    ensures forall k :: 0 <= k < |Failures(link, from, n)| ==> Failures(link, from, n)[k] == TimeoutAs
    ensures |Failures(link, from, n)| == |set i | from <= i < from + n && !link(i)|
    ensures (forall i :: from <= i < from + n ==> link(i)) <==> Failures(link, from, n) == []
  {
    if n > 0 {
      var before, now := set i | from <= i < from + n - 1 && !link(i), set i | from <= i < from + n && !link(i);
      FailuresAre(link, from, n - 1);
      if link(from + n - 1) {
        assert now == before;
      } else {
        assert now == before + {from + n - 1};
      }
    }
  }

  lemma NothingSent(link: nat -> bool, p: P.Params, from: nat)
    ensures Wires([]) == [] && Failures(link, from, 0) == [] && Spec.WaitTime(p, Spec.WaitsIn([])) == 0
  {
  }

  lemma WiresNext(fcs: seq<Frame>, fc: Frame)
    requires (forall i :: 0 <= i < |fcs| ==> Proper(fcs[i])) && Proper(fc)
    ensures Wires(fcs + [fc]) == Wires(fcs) + [Encode(fc)]
  {
    hide Encode, Proper;
  }

  lemma WaitsNext(p: P.Params, fcs: seq<Frame>, fc: Frame)
    ensures Spec.WaitTime(p, Spec.WaitsIn(fcs + [fc]))
            == Spec.WaitTime(p, Spec.WaitsIn(fcs)) + if fc == Spec.WAIT then p.wftTimUs else 0
  {
    assert (fcs + [fc])[..|fcs|] == fcs;
  }

  /** What one more blocking send adds. */
  lemma SendOne(link: nat -> bool, p: P.Params, from: nat, fcs: seq<Frame>, fc: Frame)
    requires (forall i :: 0 <= i < |fcs| ==> Proper(fcs[i])) && Proper(fc)
    ensures Wires(fcs + [fc]) == Wires(fcs) + [Encode(fc)]
    ensures Failures(link, from, |fcs| + 1) == Failures(link, from, |fcs|) + Failed(link, from + |fcs|)
    ensures Spec.WaitTime(p, Spec.WaitsIn(fcs + [fc]))
            == Spec.WaitTime(p, Spec.WaitsIn(fcs)) + if fc == Spec.WAIT then p.wftTimUs else 0
  {
    hide Encode, Wires, Spec.WaitsIn, Spec.WaitTime, Failed, Proper;
    WiresNext(fcs, fc);
    WaitsNext(p, fcs, fc);
  }

  class Receiver {
    // ctx->rcvr; `blocks` is ctx->sndr.bl_index
    var state: State
    var data: array?<byte>
    var len: nat
    var index: nat
    var idPair: nat
    var sn: byte
    var blocks: byte
    var wftCntr: byte
    var timer: Timer

    const p: P.Params
    /** Whether the i-th blocking send of this context succeeds. */
    const link: nat -> bool

    /** Frames given to the blocking send, reports and deliveries to the session layer, time slept. */
    var tx: seq<wire>
    var reports: seq<Outcome>
    var delivered: seq<Spec.Delivery>
    var sleptUs: nat

    ghost function View(): Spec.Rcvr
      reads this, if data == null then {} else {data}
    {
      Spec.Rcvr(state, if data == null then [] else data[..], len, index, idPair, sn, blocks, wftCntr, timer)
    }

    constructor (p: P.Params, link: nat -> bool)
      ensures View() == Spec.ZERO_RCVR && data == null && this.p == p && this.link == link
      ensures tx == [] && reports == [] && delivered == [] && sleptUs == 0
    {
      state, data, len, index, idPair := Idle, null, 0, 0, 0;
      sn, blocks, wftCntr, timer := 0, 0, 0, Stopped;
      tx, reports, delivered, sleptUs := [], [], [], 0;
      this.p, this.link := p, link;
    }

    /** Since the logs were `tx0`, `reports0` and `slept0`, these Flow Control frames and nothing else were sent,
        and the handler slept for one period before each wait frame and at no other time. */
    ghost predicate SentSince(fcs: seq<Frame>, tx0: seq<wire>, reports0: seq<Outcome>, slept0: nat)
      reads this`tx, this`reports, this`sleptUs
    {
      && (forall i :: 0 <= i < |fcs| ==> Proper(fcs[i]))
      && tx == tx0 + Wires(fcs)
      && reports == reports0 + Failures(link, |tx0|, |fcs|)
      && sleptUs == slept0 + Spec.WaitTime(p, Spec.WaitsIn(fcs))
    }

    /** The same, between the old state and this one. */
    twostate predicate Sent(fcs: seq<Frame>)
      reads this
    {
      SentSince(fcs, old(tx), old(reports), old(sleptUs))
    }

    /** What the session layer hears of the sends since the old state: nothing if all succeed, and otherwise one
        N_TIMEOUT_As for each that fails. */
    twostate predicate ReportsFailures()
      reads this
    {
      && |old(tx)| <= |tx| && old(reports) <= reports
      && ((forall i :: |old(tx)| <= i < |tx| ==> link(i)) <==> reports == old(reports))
      && (forall k :: |old(reports)| <= k < |reports| ==> reports[k] == TimeoutAs)
      && |reports| - |old(reports)| == |set i | |old(tx)| <= i < |tx| && !link(i)|
    }

    twostate lemma SentReports(fcs: seq<Frame>)
      requires Sent(fcs)
      ensures ReportsFailures()
    {
      hide Wires, Failures, Spec.WaitsIn, Spec.WaitTime, Encode;
      FailuresAre(link, |old(tx)|, |fcs|);
    }

    /** Blocking send; a failure is reported and otherwise ignored. */
    method CanTx(fc: Frame)
      requires Proper(fc)
      modifies this`tx, this`reports
      ensures tx == old(tx) + [Encode(fc)] && reports == old(reports) + Failed(link, |old(tx)|)
      ensures link(|old(tx)|) ==> reports == old(reports)
      ensures !link(|old(tx)|) ==> reports == old(reports) + [TimeoutAs]
    {
      var n := |tx|;
      tx := tx + [Encode(fc)];
      if !link(n) {
        reports := reports + [TimeoutAs];
      }
    }

    /** The byte-copy loop: `n` bytes of a frame go to the buffer at `index`, which advances. */
    method Store(d: seq<byte>, n: nat)
      requires data != null && index + n <= data.Length && n <= |d|
      modifies this`index, data
      ensures index == old(index) + n
      ensures data[..] == Spec.Patched(old(data[..]), old(index), d, n)
    {
      hide Spec.Patched;
      ghost var was := data[..];
      var start := index;
      var i := 0;
      Spec.PatchNone(was, start, d);
      while i < n
        invariant 0 <= i <= n && index == start + i
        invariant data[..] == Spec.Patched(was, start, d, i)
      {
        Spec.PatchNext(was, start, d, i);
        ghost var before := data[..];
        data[index] := d[i];
        assert data[..] == before[index := d[i]];
        index := index + 1;
        i := i + 1;
      }
    }

    /** One turn of the loop; `over` tells whether more wait frames were sent than are to be sent. */
    method SendWait(ghost tx0: seq<wire>, ghost reports0: seq<Outcome>, ghost slept0: nat) returns (over: bool)
      requires wftCntr < p.wftNum && SentSince(Spec.Waits(wftCntr), tx0, reports0, slept0)
      modifies this`tx, this`reports, this`state, this`sleptUs, this`wftCntr, this`timer
      ensures wftCntr == old(wftCntr) + 1 && SentSince(Spec.Waits(wftCntr), tx0, reports0, slept0)
      ensures state == FcSent && timer == Armed(N_Br) && !over
    {
      hide Encode, Wires, Failures, Failed, Spec.WaitsIn, Spec.WaitTime;
      assert Spec.Waits(wftCntr + 1) == Spec.Waits(wftCntr) + [Spec.WAIT];
      SendOne(link, p, |tx0|, Spec.Waits(wftCntr), Spec.WAIT);
      sleptUs := sleptUs + p.wftTimUs;
      CanTx(Spec.WAIT);
      state := FcSent;
      wftCntr := (wftCntr + 1) % 256;
      over := wftCntr > p.wftNum;
      timer := Armed(if over then N_Cr else N_Br);
    }

    lemma NothingSinceNow()
      ensures SentSince([], tx, reports, sleptUs) && SentSince(Spec.Waits(0), tx, reports, sleptUs)
    {
      NothingSent(link, p, |tx|);
      assert Spec.Waits(0) == [];
    }

    /** The FC.WAIT loop: it sends exactly `wft_num` wait frames, a period apart, whatever each send returns;
        `exceeded` tells whether the branch for too many wait frames was taken. */
    method SendWaits() returns (exceeded: bool)
      requires p.wftNum > 0
      modifies this`tx, this`reports, this`wftCntr, this`state, this`timer, this`sleptUs
      ensures Sent(Spec.Waits(p.wftNum))
      ensures wftCntr == p.wftNum && state == FcSent && timer == Armed(N_Br)
      ensures !exceeded
      ensures ReportsFailures()
      ensures (forall i :: |old(tx)| <= i < |tx| ==> link(i)) ==> reports == old(reports)
    {
      NothingSinceNow();
      hide SentSince, Spec.Waits;
      wftCntr := 0;
      exceeded := SendWait(tx, reports, sleptUs);
      while !exceeded && wftCntr < p.wftNum
        invariant 1 <= wftCntr <= p.wftNum && !exceeded
        invariant state == FcSent && timer == Armed(N_Br)
        invariant SentSince(Spec.Waits(wftCntr), old(tx), old(reports), old(sleptUs))
        decreases p.wftNum - wftCntr
      {
        exceeded := SendWait(old(tx), old(reports), old(sleptUs));
      }
      SentReports(Spec.Waits(p.wftNum));
    }

    /** Counts a stored frame that is not the last one; `full` tells whether its block is complete. */
    method CountBlock() returns (full: bool)
      modifies this`blocks
      ensures full <==> p.blockSize > 0 && (old(blocks) + 1) % 256 >= p.blockSize
      ensures blocks == if p.blockSize == 0 then old(blocks) else if full then 0 else (old(blocks) + 1) % 256
    {
      full := false;
      if p.blockSize > 0 {
        blocks := (blocks + 1) % 256;
        if blocks >= p.blockSize {
          blocks := 0;
          full := true;
        }
      }
    }

    /** The Flow Control frame that lets the sender continue, after those in `fcs`. */
    method SendCts(ghost fcs: seq<Frame>, ghost tx0: seq<wire>, ghost reports0: seq<Outcome>, ghost slept0: nat)
      requires SentSince(fcs, tx0, reports0, slept0)
      modifies this`tx, this`reports, this`state
      ensures SentSince(fcs + [Spec.Cts(p)], tx0, reports0, slept0) && state == FcSent
    {
      hide Encode, Wires, Failures, Failed, Spec.WaitsIn, Spec.WaitTime;
      SendOne(link, p, |tx0|, fcs, Spec.Cts(p));
      CanTx(Spec.Cts(p));
      state := FcSent;
    }

    /** A Consecutive Frame that was not the last has been stored: wait frames, then block counting. */
    method AfterConsecutive()
      modifies this`tx, this`reports, this`wftCntr, this`state, this`timer, this`sleptUs, this`blocks
      ensures View() == Spec.AfterConsecutive(p, old(View())).r
      ensures Sent(Spec.AfterConsecutive(p, old(View())).fcs)
      ensures ReportsFailures()
    {
      hide SentSince, Spec.Waits;
      NothingSinceNow();
      if p.wftNum > 0 {
        var exceeded := SendWaits();
      }
      var full := CountBlock();
      if full {
        SendCts(Spec.Waits(p.wftNum), old(tx), old(reports), old(sleptUs));
      }
      timer := Armed(N_Cr);
      SentReports(Spec.AfterConsecutive(p, old(View())).fcs);
    }

    /** Stores what the message still needs of a frame and delivers the message if that completes it. */
    method StoreFrame(d: payload7) returns (last: bool)
      requires data != null && index < len <= data.Length
      modifies this`index, this`state, this`delivered, data
      ensures var r, n := old(View()), Min(len - old(index), CF_DATA);
              View() == r.(data := Spec.Stored(r, d, n), index := r.index + n,
                           state := if last then TxDone else r.state)
      ensures last <==> len - old(index) <= CF_DATA
      ensures delivered == old(delivered) + if last then [Spec.Delivery(data[..], len % 256)] else []
    {
      var remaining := len - index;
      Store(d, if remaining < CF_DATA then remaining else CF_DATA);
      last := remaining <= CF_DATA;
      if last {
        state := TxDone;
        delivered := delivered + [Spec.Delivery(data[..], len % 256)];
      }
    }

    /** The sequence number advances and is compared; `expected` tells whether the frame is the expected one. */
    method CheckSn(frameSn: nibble) returns (expected: bool)
      modifies this`sn, this`timer
      ensures timer == Stopped && sn == NextSn(old(sn))
      ensures expected <==> sn == frameSn
    {
      timer := Stopped;
      sn := (sn + 1) % 256;
      if sn > 0x0f {
        sn := 0;
      }
      expected := sn == frameSn;
    }

    method AcceptFrame(d: payload7)
      requires data != null && index < len <= data.Length
      modifies this`tx, this`reports, this`wftCntr, this`state, this`timer, this`sleptUs, this`blocks
      modifies this`index, this`delivered, data
      ensures var o := Spec.Accept(p, old(View()), d);
              View() == o.r && Sent(o.fcs) && delivered == Append(old(delivered), o.delivery)
      ensures ReportsFailures()
    {
      hide SentSince, Spec.AfterConsecutive;
      NothingSinceNow();
      var last := StoreFrame(d);
      if !last {
        AfterConsecutive();
      }
      SentReports(Spec.Accept(p, old(View()), d).fcs);
    }

    method RxConsecutiveFrame(id: nat, frameSn: nibble, d: payload7)
      requires data != null && len <= data.Length
      modifies this`tx, this`reports, this`wftCntr, this`state, this`timer, this`sleptUs, this`blocks
      modifies this`index, this`delivered, this`sn, data
      ensures var o := Spec.RxConsecutive(p, old(View()), id, frameSn, d);
              View() == o.r && Sent(o.fcs) && delivered == Append(old(delivered), o.delivery)
      ensures ReportsFailures()
    {
      hide SentSince, Spec.Accept;
      NothingSinceNow();
      if idPair != id {
        SentReports([]);
        return;
      }
      var expected := CheckSn(frameSn);
      if expected && len - index > 0 {
        AcceptFrame(d);
      }
      SentReports(Spec.RxConsecutive(p, old(View()), id, frameSn, d).fcs);
    }

    /** The first six bytes of the message. */
    method StoreFirst(d: payload6)
      requires data != null && index == 0 && data.Length >= FF_DATA
      modifies this`index, data
      ensures index == FF_DATA && data[..] == d + old(data[FF_DATA..])
    {
      Store(d, FF_DATA);
      assert d[..FF_DATA] == d;
    }

    method SendFirstCts()
      modifies this`tx, this`reports, this`state, this`timer
      ensures Sent([Spec.Cts(p)]) && state == FcSent && timer == Armed(N_Cr)
    {
      hide SentSince;
      NothingSinceNow();
      timer := Armed(N_Ar);
      state := FcSending;
      SendCts([], old(tx), old(reports), old(sleptUs));
      assert [] + [Spec.Cts(p)] == [Spec.Cts(p)];
      timer := Armed(N_Cr);
    }

    /** The session layer has provided a buffer: the first six bytes are stored and the sender may continue. */
    method AcceptFirst(d: payload6)
      requires data != null && index == 0 && data.Length >= FF_DATA
      modifies this`state, this`timer, this`index, this`tx, this`reports, data
      ensures View() == old(View()).(data := d + old(data[FF_DATA..]), index := FF_DATA, state := FcSent,
                                     timer := Armed(N_Cr))
      ensures Sent([Spec.Cts(p)])
    {
      hide SentSince;
      StoreFirst(d);
      index := FF_DATA;
      SendFirstCts();
    }

    method BeginReception(id: nat, ffLen: len12, buffer: array?<byte>)
      modifies this`state, this`timer, this`idPair, this`len, this`index, this`data
      ensures data == buffer
      ensures View() == old(View()).(state := FfRcvd, timer := Armed(N_Br), idPair := id, len := ffLen, index := 0,
                                     data := if buffer == null then [] else buffer[..])
    {
      state := FfRcvd;
      timer := Armed(N_Br);
      idPair, len, index := id, ffLen, 0;
      data := buffer;
    }

    /** A First Frame in the idle state; `accepted` and `buffer` are the session layer's answer. */
    method RxFirstFrame(id: nat, ffLen: len12, d: payload6, accepted: bool, buffer: array?<byte>)
      requires Spec.Fits(Spec.Session(accepted, if buffer == null then [] else buffer[..]), ffLen)
      modifies this`state, this`timer, this`idPair, this`len, this`index, this`data, this`tx, this`reports
      modifies if buffer == null then {} else {buffer}
      ensures var session := Spec.Session(accepted, if buffer == null then [] else old(buffer[..]));
              var o := Spec.RxFirst(p, old(View()), id, ffLen, d, session);
              View() == o.r && Sent(o.fcs)
      ensures data == buffer
      ensures ReportsFailures()
    {
      hide SentSince;
      NothingSinceNow();
      BeginReception(id, ffLen, buffer);
      if !accepted {
        timer := Stopped;
        state := Idle;
      } else if buffer != null && buffer.Length != 0 {
        AcceptFirst(d);
      }
      SentReports(if accepted && buffer != null && buffer.Length != 0 then [Spec.Cts(p)] else []);
    }

    /** The receiving role's part of the frame-reception callback, on the raw bytes of a CAN frame. */
    method CanRx(id: nat, raw: seq<byte>, accepted: bool, buffer: array?<byte>)
      requires |raw| <= 8
      requires data != null ==> data != buffer
      requires Spec.Ready(View(), Spec.Arrival(id, Decode(raw + Zeros(8 - |raw|))),
                          Spec.Session(accepted, if buffer == null then [] else buffer[..]))
      modifies this
      modifies if buffer == null then {} else {buffer}
      modifies if data == null then {} else {data}
      ensures var a := Spec.Arrival(id, Decode(raw + Zeros(8 - |raw|)));
              var session := Spec.Session(accepted, if buffer == null then [] else old(buffer[..]));
              var o := Spec.Rx(p, old(View()), a, session);
              View() == o.r && Sent(o.fcs) && delivered == Append(old(delivered), o.delivery)
      ensures ReportsFailures()
      ensures (forall i :: |old(tx)| <= i < |tx| ==> link(i)) ==> reports == old(reports)
    {
      hide SentSince, Decode, Spec.RxFirst, Spec.RxConsecutive;
      NothingSinceNow();
      var frame: wire := raw + Zeros(8 - |raw|);
      match Decode(frame) {
        case SF(n, d) =>
          state := RxDone;
          delivered := delivered + [Spec.Delivery(d, n)];
          SentReports([]);
        case FF(n, d) =>
          if state == Idle {
            RxFirstFrame(id, n, d, accepted, buffer);
          } else {
            SentReports([]);
          }
        case CF(frameSn, d) =>
          if state == FcSent {
            RxConsecutiveFrame(id, frameSn, d);
          } else {
            SentReports([]);
          }
        case _ => SentReports([]);
      }

    }
  }
}
