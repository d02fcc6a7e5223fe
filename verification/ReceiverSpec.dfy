/** The receiving role as a state machine on values, and its refinement of reassembly. */
module ReceiverSpec {
  import opened CanTpTypes
  import opened Frames
  import opened Segmentation
  import P = ParamsSpec

  /** The session layer's answer to a First Frame: whether it takes the message, and the receive buffer
      it leaves in the context (empty: none). */
  datatype Session = Session(accepted: bool, buffer: seq<byte>)

  /** The receiver's half of a context. `blocks` is `sndr.bl_index` of the receiving context,
      which is where the receiver counts. */
  datatype Rcvr = Rcvr(
    state: State, data: seq<byte>, len: nat, index: nat, idPair: nat, sn: byte,
    blocks: byte, wftCntr: byte, timer: Timer)

  const ZERO_RCVR := Rcvr(Idle, [], 0, 0, 0, 0, 0, 0, Stopped)

  /** What the session layer is handed: the buffer, and a length that went through eight bits. */
  datatype Delivery = Delivery(data: seq<byte>, len: byte)

  /** What one callback does: the new state, the Flow Control frames it sends in order, and a delivery. */
  datatype Out = Out(r: Rcvr, fcs: seq<Frame>, delivery: Option<Delivery>)

  function Quiet(r: Rcvr): Out { Out(r, [], None) }

  function Cts(p: P.Params): Frame { FC(FS_CTS, p.blockSize, p.stMin) }

  const WAIT: Frame := FC(FS_WAIT, 0, 0)

  function Waits(n: nat): (fs: seq<Frame>)
    ensures |fs| == n && forall i :: 0 <= i < n ==> fs[i] == WAIT
  {
    seq(n, _ => WAIT)
  }

  // ----- The callbacks -----

  /** The buffer the session layer provides holds the whole message. */
  predicate Fits(session: Session, len: nat) {
    session.accepted && session.buffer != [] ==> |session.buffer| == len >= FF_DATA
  }

  function RxFirst(p: P.Params, r: Rcvr, id: nat, len: len12, d: payload6, session: Session): (o: Out)
    requires Fits(session, len)
    ensures o.delivery == None
  {
    var t := r.(idPair := id, len := len, index := 0, data := session.buffer);
    if !session.accepted then Quiet(t.(state := Idle, timer := Stopped))
    else if session.buffer == [] then Quiet(t.(state := FfRcvd, timer := Armed(N_Br)))
    else
      Out(t.(data := d + session.buffer[FF_DATA..], index := FF_DATA, state := FcSent, timer := Armed(N_Cr)),
          [Cts(p)], None)
  }

  /** A buffer after the first `n` bytes of `d` were stored from `at` on. */
  function Patched(data: seq<byte>, at: nat, d: seq<byte>, n: nat): (b: seq<byte>)
    requires n <= |d| && at + n <= |data|
    ensures |b| == |data|
  {
    data[..at] + d[..n] + data[at + n..]
  }

  /** Storing byte by byte. */
  lemma PatchNext(data: seq<byte>, at: nat, d: seq<byte>, n: nat)
    requires n < |d| && at + n < |data|
    ensures Patched(data, at, d, n)[at + n := d[n]] == Patched(data, at, d, n + 1)
  {
    assert d[..n + 1] == d[..n] + [d[n]];
    assert data[at + n..] == [data[at + n]] + data[at + n + 1..];
  }

  lemma PatchNone(data: seq<byte>, at: nat, d: seq<byte>)
    requires at <= |data|
    ensures Patched(data, at, d, 0) == data
  {
    assert data[..at] + data[at..] == data;
  }

  /** The buffer after the next `n` bytes of a Consecutive Frame were stored at `index`. */
  function Stored(r: Rcvr, d: payload7, n: nat): seq<byte>
    requires n <= 7 && r.index + n <= |r.data|
  {
    Patched(r.data, r.index, d, n)
  }

  /** A Consecutive Frame that was not the last has been stored: wait frames, then block counting. */
  function AfterConsecutive(p: P.Params, u: Rcvr): (o: Out)
    ensures o.delivery == None
  {
    var v := if p.wftNum > 0 then u.(wftCntr := p.wftNum, state := FcSent) else u;
    if p.blockSize > 0 then
      var b := (v.blocks + 1) % 256;
      if b >= p.blockSize then
        Out(v.(blocks := 0, state := FcSent, timer := Armed(N_Cr)), Waits(p.wftNum) + [Cts(p)], None)
      else Out(v.(blocks := b, timer := Armed(N_Cr)), Waits(p.wftNum), None)
    else Out(v.(timer := Armed(N_Cr)), Waits(p.wftNum), None)
  }

  /** The expected Consecutive Frame of an unfinished message: store it, then deliver or answer. */
  function Accept(p: P.Params, t: Rcvr, d: payload7): Out
    requires t.index < t.len <= |t.data|
  {
    var remaining := t.len - t.index;
    var n := if remaining < CF_DATA then remaining else CF_DATA;
    var u := t.(data := Stored(t, d, n), index := t.index + n);
    if remaining <= CF_DATA then Out(u.(state := TxDone), [], Some(Delivery(u.data, u.len % 256)))
    else AfterConsecutive(p, u)
  }

  function RxConsecutive(p: P.Params, r: Rcvr, id: nat, sn: nibble, d: payload7): Out
    requires r.len <= |r.data|
  {
    if r.idPair != id then Quiet(r)
    else
      var t := r.(timer := Stopped, sn := NextSn(r.sn));
      if t.sn != sn then Quiet(t)
      else if t.len - t.index <= 0 then Quiet(t)
      else Accept(p, t, d)
  }

  /** How long the handler sleeps over `k` wait frames: one period before each. */
  function WaitTime(p: P.Params, k: nat): nat {
    if k == 0 then 0 else WaitTime(p, k - 1) + p.wftTimUs
  }

  lemma {:induction false} WaitTimeIsProduct(p: P.Params, k: nat)
    ensures WaitTime(p, k) == k * p.wftTimUs
  {
    if k > 0 {
      WaitTimeIsProduct(p, k - 1);
      P.Distribute(k - 1, p.wftTimUs);
    }
  }

  /** How many of the frames are wait frames. */
  function WaitsIn(fcs: seq<Frame>): nat {
    if fcs == [] then 0 else WaitsIn(fcs[..|fcs| - 1]) + if fcs[|fcs| - 1] == WAIT then 1 else 0
  }

  lemma {:induction false} WaitsInFront(fcs: seq<Frame>)
    requires fcs != []
    ensures WaitsIn(fcs) == WaitsIn(fcs[1..]) + if fcs[0] == WAIT then 1 else 0
  {
    var k := |fcs| - 1;
    if k > 0 {
      WaitsInFront(fcs[..k]);
      assert fcs[..k][1..] == fcs[1..][..k - 1];
    }
  }

  lemma {:induction false} WaitsInWaits(p: P.Params, k: nat)
    ensures WaitsIn(Waits(k)) == k && WaitsIn(Waits(k) + [Cts(p)]) == k
  {
    assert (Waits(k) + [Cts(p)])[..k] == Waits(k);
    if k > 0 {
      WaitsInWaits(p, k - 1);
      assert Waits(k)[..k - 1] == Waits(k - 1);
    }
  }

  /** A reception as the link layer presents it: the sender's identifier and the frame. */
  datatype Arrival = Arrival(id: nat, f: Frame)

  /** The callback may be run: a buffer is provided and holds what the length announces. */
  predicate Ready(r: Rcvr, a: Arrival, session: Session) {
    && (r.state == Idle && a.f.FF? ==> Fits(session, a.f.ffLen))
    && (r.state == FcSent ==> r.data != [] && r.len <= |r.data|)
  }

  /** The receiving role's part of the frame-reception callback. */
  function Rx(p: P.Params, r: Rcvr, a: Arrival, session: Session): Out
    requires Ready(r, a, session)
  {
    match a.f
    case SF(len, d) => Out(r.(state := RxDone), [], Some(Delivery(d, len)))
    case FF(len, d) => if r.state == Idle then RxFirst(p, r, a.id, len, d, session) else Quiet(r)
    case CF(sn, d) => if r.state == FcSent then RxConsecutive(p, r, a.id, sn, d) else Quiet(r)
    case _ => Quiet(r)
  }

  /** Which handler a reception goes to. */
  lemma RxDispatch(p: P.Params, r: Rcvr, a: Arrival, session: Session)
    requires Ready(r, a, session)
    ensures a.f.FF? && r.state == Idle ==> Rx(p, r, a, session) == RxFirst(p, r, a.id, a.f.ffLen, a.f.ffData, session)
    ensures a.f.CF? && r.state == FcSent ==> Rx(p, r, a, session) == RxConsecutive(p, r, a.id, a.f.sn, a.f.cfData)
  {
  }

  // ----- What each reception does and what it leaves alone -----

  /** The Flow Control frames as bytes. */
  lemma FlowControlBytes(p: P.Params)
    ensures Encode(Cts(p)) == [0x30, p.blockSize, p.stMin, 0, 0, 0, 0, 0]
    ensures Encode(WAIT) == [0x31, 0, 0, 0, 0, 0, 0, 0]
  {
    WireLayout(Cts(p));
    WireLayout(WAIT);
  }

  /** A refused First Frame: idle again with the timer stopped, nothing sent, nothing delivered, no counter touched. */
  lemma FirstFrameRefused(p: P.Params, r: Rcvr, id: nat, len: len12, d: payload6, session: Session)
    requires !session.accepted
    ensures var o := RxFirst(p, r, id, len, d, session);
            && o.r.state == Idle && o.r.timer == Stopped && o.fcs == [] && o.delivery == None
            && o.r.sn == r.sn && o.r.blocks == r.blocks && o.r.wftCntr == r.wftCntr
  {
  }

  /** An accepted First Frame without a buffer: the reception is left begun, with N_Br running, and nothing is sent. */
  lemma FirstFrameUnbuffered(p: P.Params, r: Rcvr, id: nat, len: len12, d: payload6, session: Session)
    requires session.accepted && session.buffer == []
    ensures var o := RxFirst(p, r, id, len, d, session);
            && o.r.state == FfRcvd && o.r.timer == Armed(N_Br) && o.fcs == [] && o.delivery == None
            && o.r.data == [] && o.r.index == 0 && o.r.len == len && o.r.idPair == id
            && o.r.sn == r.sn && o.r.blocks == r.blocks && o.r.wftCntr == r.wftCntr
  {
  }

  /** An accepted First Frame with a buffer: six bytes are stored, and one frame lets the sender continue. The sequence
      number and the block count are not reset. */
  lemma FirstFrameAccepted(p: P.Params, r: Rcvr, id: nat, len: len12, d: payload6, session: Session)
    requires session.accepted && session.buffer != [] && Fits(session, len)
    ensures var o := RxFirst(p, r, id, len, d, session);
            && o.r.state == FcSent && o.r.timer == Armed(N_Cr) && o.delivery == None
            && o.fcs == [FC(0, p.blockSize, p.stMin)]
            && o.r.data == d + session.buffer[6..] && o.r.index == 6 && o.r.len == len && o.r.idPair == id
            && o.r.sn == r.sn && o.r.blocks == r.blocks && o.r.wftCntr == r.wftCntr
  {
  }

  /** A Consecutive Frame with another number, or beyond the end of the message, only counts and stops the timer. */
  lemma ConsecutiveRefused(p: P.Params, r: Rcvr, id: nat, sn: nibble, d: payload7)
    requires r.len <= |r.data| && r.idPair == id
    requires sn != (if r.sn <= 14 then r.sn + 1 else 0) || r.index >= r.len
    ensures RxConsecutive(p, r, id, sn, d) == Quiet(r.(timer := Stopped, sn := if r.sn <= 14 then r.sn + 1 else 0))
  {
  }

  /** After a stored frame that was not the last: the wait frames first and then, exactly when the count reaches the
      block size, the frame to continue; N_Cr runs, and message, index and sequence number stay. */
  lemma AfterConsecutiveEffect(p: P.Params, u: Rcvr)
    ensures var o := AfterConsecutive(p, u);
            && o.r == u.(blocks := o.r.blocks, wftCntr := o.r.wftCntr, state := o.r.state, timer := Armed(N_Cr))
            && o.r.wftCntr == (if p.wftNum > 0 then p.wftNum else u.wftCntr)
            && (p.blockSize == 0 ==> o.r.blocks == u.blocks && |o.fcs| == p.wftNum)
            && (u.blocks < p.blockSize - 1 ==> o.r.blocks == u.blocks + 1 && |o.fcs| == p.wftNum)
            && (0 < p.blockSize <= u.blocks + 1 <= 255 ==>
                  && o.r.blocks == 0 && o.r.state == FcSent && |o.fcs| == p.wftNum + 1
                  && o.fcs[p.wftNum] == FC(0, p.blockSize, p.stMin))
            && (o.r.state == if p.wftNum > 0 || |o.fcs| > p.wftNum then FcSent else u.state)
            && forall i :: 0 <= i < p.wftNum ==> o.fcs[i] == FC(1, 0, 0)
  {
  }

  /** A Single Frame ends up done in any state, is delivered with the length it announces, is answered by nothing, and
      changes no other field. */
  lemma SingleFrameEffect(p: P.Params, r: Rcvr, a: Arrival, session: Session)
    requires a.f.SF? && Ready(r, a, session)
    ensures Rx(p, r, a, session) == Out(r.(state := RxDone), [], Some(Delivery(a.f.sfData, a.f.sfLen)))
  {
  }

  /** First Frames are heard only when idle, Consecutive Frames only once Flow Control was sent, and the receiving role
      never minds Flow Control or undefined types. */
  lemma UnheardFrames(p: P.Params, r: Rcvr, a: Arrival, session: Session)
    requires Ready(r, a, session)
    requires a.f.FC? || a.f.Other? || (a.f.FF? && r.state != Idle) || (a.f.CF? && r.state != FcSent)
    ensures Rx(p, r, a, session) == Out(r, [], None)
  {
  }

  // ----- One transfer -----

  /** How many Consecutive Frames other than the last are among the first q frames of a transfer. */
  function NonLast(n: nat, q: nat): nat
    requires n >= 1
  {
    if q == 0 then 0 else if q <= n then q - 1 else n - 1
  }

  /** The receiver after the first q frames of a transfer of `msg` from `id`, as a closed form. */
  predicate At(p: P.Params, msg: seq<byte>, id: nat, r: Rcvr, q: nat)
    requires |msg| >= 8
  {
    var n := NumCf(|msg|);
    if q == 0 then r == ZERO_RCVR
    else
      && q <= n + 1
      && r.state == (if q == n + 1 then TxDone else FcSent)
      && |r.data| == |msg| == r.len && r.idPair == id
      && r.index == Carried(|msg|, q - 1)
      && r.data[..r.index] == msg[..r.index]
      && r.sn == (q - 1) % 16
      && r.blocks == (if p.blockSize == 0 then 0 else NonLast(n, q) % p.blockSize)
      && r.timer == (if q == n + 1 then Stopped else Armed(N_Cr))
  }

  /** After its q-th frame the receiver owes the sender a Flow Control frame that lets it continue. */
  predicate CtsDue(p: P.Params, q: nat) {
    q == 1 || (q > 1 && p.blockSize > 0 && (q - 1) % p.blockSize == 0)
  }

  /** The Flow Control frames sent on account of the q-th frame of a transfer with n Consecutive Frames. */
  function Answer(p: P.Params, n: nat, q: nat): seq<Frame>
  {
    if q == 0 || q > n then []
    else (if q == 1 then [] else Waits(p.wftNum)) + (if CtsDue(p, q) then [Cts(p)] else [])
  }

  lemma FirstFrameStep(p: P.Params, msg: message, id: nat, session: Session)
    requires session.accepted && |session.buffer| == |msg|
    ensures var o := RxFirst(p, ZERO_RCVR, id, |msg|, msg[..FF_DATA], session);
            At(p, msg, id, o.r, 1) && o.fcs == Answer(p, NumCf(|msg|), 1) && o.delivery == None
  {
    assert [] + [Cts(p)] == [Cts(p)];
    if p.blockSize > 0 {
      assert 0 % p.blockSize == 0;
    }
  }

  lemma MulGap(m: nat, a: nat, b: nat)
    requires a < b
    ensures m * a + m <= m * b
  {
    assert m * b == m * (a + 1) + m * (b - a - 1);
  }

  lemma DivModUnique(x: nat, m: nat, k: nat, y: nat)
    requires m > 0 && x == m * k + y && y < m
    ensures x / m == k && x % m == y
  {
    var k', y' := x / m, x % m;
    assert x == m * k' + y';
    if k' > k {
      MulGap(m, k, k');
    } else if k' < k {
      MulGap(m, k', k);
    }
  }

  lemma ModNext(x: nat, m: nat)
    requires m > 0
    ensures (x + 1) % m == if x % m + 1 == m then 0 else x % m + 1
    ensures (x + 1) / m == if x % m + 1 == m then x / m + 1 else x / m
  {
    var k, y := x / m, x % m;
    assert x == m * k + y;
    if y + 1 == m {
      assert x + 1 == m * (k + 1);
      DivModUnique(x + 1, m, k + 1, 0);
    } else {
      DivModUnique(x + 1, m, k, y + 1);
    }
  }

  /** Bytes of the next chunk are stored where the message has them. */
  lemma StoredExtends(r: Rcvr, msg: seq<byte>, d: payload7, n: nat)
    requires n <= 7 && r.index + n <= |r.data| == |msg|
    requires r.data[..r.index] == msg[..r.index] && d[..n] == msg[r.index..r.index + n]
    ensures |Stored(r, d, n)| == |msg| && Stored(r, d, n)[..r.index + n] == msg[..r.index + n]
  {
    assert msg[..r.index + n] == msg[..r.index] + msg[r.index..r.index + n];
  }

  lemma CountStep(p: P.Params, u: Rcvr, n: nat, q: nat)
    requires 1 <= q < n && u.blocks == (if p.blockSize == 0 then 0 else NonLast(n, q) % p.blockSize)
    ensures var o := AfterConsecutive(p, u);
            && o.r.blocks == (if p.blockSize == 0 then 0 else NonLast(n, q + 1) % p.blockSize)
            && o.fcs == Answer(p, n, q + 1)
            && (u.state == FcSent ==> o.r == u.(blocks := o.r.blocks, wftCntr := o.r.wftCntr, timer := Armed(N_Cr)))
  {
    if p.blockSize > 0 {
      ModNext(q - 1, p.blockSize);
    }
    assert Waits(p.wftNum) + [] == Waits(p.wftNum);
  }

  /** Where the frame due next goes, and whether it is the last. */
  lemma DueNext(p: P.Params, msg: seq<byte>, id: nat, r: Rcvr, q: nat)
    requires |msg| >= 8 && 1 <= q <= NumCf(|msg|) && At(p, msg, id, r, q)
    ensures r.state == FcSent && r.idPair == id && r.sn == (q - 1) % 16 && r.len == |msg| == |r.data|
    ensures r.index < r.len && |Chunk(msg, q)| == Min(r.len - r.index, CF_DATA)
    ensures q == NumCf(|msg|) <==> r.len - r.index <= CF_DATA
    ensures r.index + |Chunk(msg, q)| == Carried(|msg|, q) && Chunk(msg, q) == msg[r.index..Carried(|msg|, q)]
  {
    assert r.index == FF_DATA + CF_DATA * (q - 1) < |msg|;
  }

  /** The frame due next passes every check of the handler. */
  lemma AcceptedFrame(p: P.Params, msg: seq<byte>, id: nat, r: Rcvr, q: nat, f: Frame)
    requires |msg| >= 8 && 1 <= q <= NumCf(|msg|)
    requires At(p, msg, id, r, q) && Carries(msg, q, f)
    ensures var c := |Chunk(msg, q)|;
            var t := r.(timer := Stopped, sn := NextSn(r.sn));
            var u := t.(data := Stored(t, f.cfData, c), index := t.index + c);
            && t.sn == q % 16 && f.cfData[..c] == msg[r.index..r.index + c]
            && r.index + c == Carried(|msg|, q)
            && RxConsecutive(p, r, id, f.sn, f.cfData) ==
               if q == NumCf(|msg|) then Out(u.(state := TxDone), [], Some(Delivery(u.data, u.len % 256)))
               else AfterConsecutive(p, u)
  {
    hide At, NumCf, Chunk, Carried, Patched, AfterConsecutive;
    DueNext(p, msg, id, r, q);
    ModNext(q - 1, 16);
  }

  /** The next frame of the transfer: stored in place, answered as due, delivered exactly if it is the last. */
  lemma ConsecutiveStep(p: P.Params, msg: seq<byte>, id: nat, r: Rcvr, q: nat, f: Frame)
    requires |msg| >= 8 && 1 <= q <= NumCf(|msg|)
    requires At(p, msg, id, r, q) && Carries(msg, q, f)
    ensures var o := RxConsecutive(p, r, id, f.sn, f.cfData);
            && At(p, msg, id, o.r, q + 1)
            && o.fcs == Answer(p, NumCf(|msg|), q + 1)
            && o.delivery == if q == NumCf(|msg|) then Some(Delivery(msg, |msg| % 256)) else None
  {
    AcceptedFrame(p, msg, id, r, q, f);
    var n := NumCf(|msg|);
    var c := |Chunk(msg, q)|;
    var t := r.(timer := Stopped, sn := NextSn(r.sn));
    StoredExtends(t, msg, f.cfData, c);
    var u := t.(data := Stored(t, f.cfData, c), index := t.index + c);
    if q < n {
      CountStep(p, u, n, q);
    } else {
      assert u.data == u.data[..|msg|] && msg == msg[..|msg|];
    }
  }

  lemma NextReception(p: P.Params, msg: seq<byte>, r: Rcvr, q: nat, a: Arrival, session: Session)
    requires |msg| >= 8 && 1 <= q <= NumCf(|msg|)
    requires At(p, msg, a.id, r, q) && Carries(msg, q, a.f) && Ready(r, a, session)
    ensures var o := Rx(p, r, a, session);
            && At(p, msg, a.id, o.r, q + 1)
            && o.fcs == Answer(p, NumCf(|msg|), q + 1)
            && o.delivery == if q == NumCf(|msg|) then Some(Delivery(msg, |msg| % 256)) else None
  {
    RxDispatch(p, r, a, session);
    ConsecutiveStep(p, msg, a.id, r, q, a.f);
    hide RxConsecutive;
  }

  // ----- Whole runs of receptions -----

  /** A receiver's history: its state, all Flow Control sent and all deliveries. */
  datatype Hist = Hist(r: Rcvr, fcs: seq<Frame>, deliveries: seq<Delivery>)

  /** The history after a sequence of receptions, while each finds the buffer it needs. */
  function Receive(p: P.Params, session: Session, arrivals: seq<Arrival>): (h: Option<Hist>) {
    if arrivals == [] then Some(Hist(ZERO_RCVR, [], [])) else
      var k := |arrivals| - 1;
      match Receive(p, session, arrivals[..k])
      case None => None
      case Some(h) =>
        if Ready(h.r, arrivals[k], session) then
          var o := Rx(p, h.r, arrivals[k], session);
          Some(Hist(o.r, h.fcs + o.fcs, Append(h.deliveries, o.delivery)))
        else None
  }

  /** A run's last reception, unfolded. */
  lemma LastReception(p: P.Params, session: Session, arrivals: seq<Arrival>, a: Arrival)
    ensures var h, all := Receive(p, session, arrivals), Receive(p, session, arrivals + [a]);
            && (all.Some? <==> h.Some? && Ready(h.value.r, a, session))
            && (all.Some? ==>
                  var o := Rx(p, h.value.r, a, session);
                  all.value == Hist(o.r, h.value.fcs + o.fcs, Append(h.value.deliveries, o.delivery)))
  {
    assert (arrivals + [a])[..|arrivals|] == arrivals;
  }

  function From(id: nat, fs: seq<Frame>): (as_: seq<Arrival>)
    ensures |as_| == |fs| && forall i :: 0 <= i < |fs| ==> as_[i] == Arrival(id, fs[i])
  {
    seq(|fs|, i requires 0 <= i < |fs| => Arrival(id, fs[i]))
  }

  lemma FirstReassembled(p: P.Params, session: Session, id: nat, fs: seq<Frame>, q: nat)
    requires WholeTransfer(fs) && q <= 1
    requires session.accepted && |session.buffer| == fs[0].ffLen
    ensures var msg := Reassemble(fs).value;
            var h := Receive(p, session, From(id, fs)[..q]);
            h.Some? && At(p, msg, id, h.value.r, q) && h.value.deliveries == []
  {
    if q == 1 {
      var a := Arrival(id, fs[0]);
      assert From(id, fs)[..1] == [] + [a];
      LastReception(p, session, [], a);
      ReassembledChunks(fs, 1);
      RxDispatch(p, ZERO_RCVR, a, session);
      FirstFrameStep(p, Reassemble(fs).value, id, session);
    }
  }

  /** The receiver refines reassembly: fed the first q frames of any whole transfer, its buffer holds
      exactly the bytes they carry, and it delivers the reassembled message once, with the last frame. */
  lemma {:induction false} ReceiverReassembles(p: P.Params, session: Session, id: nat, fs: seq<Frame>, q: nat)
    requires WholeTransfer(fs) && q <= |fs|
    requires session.accepted && |session.buffer| == fs[0].ffLen
    ensures var msg := Reassemble(fs).value;
            var h := Receive(p, session, From(id, fs)[..q]);
            && h.Some?
            && At(p, msg, id, h.value.r, q)
            && h.value.deliveries == if q == |fs| then [Delivery(msg, |msg| % 256)] else []
  {
    if q <= 1 {
      FirstReassembled(p, session, id, fs, q);
    } else {
      var before, a := From(id, fs)[..q - 1], Arrival(id, fs[q - 1]);
      assert From(id, fs)[..q] == before + [a];
      ReassembledChunks(fs, q - 1);
      hide Receive, Rx, Answer, Reassemble, Chunk, Carries, At, InOrder, Payload;
      ReceiverReassembles(p, session, id, fs, q - 1);
      LastReception(p, session, before, a);
      NextReception(p, Reassemble(fs).value, Receive(p, session, before).value.r, q - 1, a, session);
    }
  }

  lemma WholeBuffer(data: seq<byte>, msg: seq<byte>)
    requires |data| == |msg| && data[..|msg|] == msg[..|msg|]
    ensures data == msg
  {
    assert data[..|msg|] == data && msg[..|msg|] == msg;
  }

  lemma WholeTransferReceived(p: P.Params, session: Session, id: nat, fs: seq<Frame>)
    requires WholeTransfer(fs)
    requires session.accepted && |session.buffer| == fs[0].ffLen
    ensures var msg := Reassemble(fs).value;
            var h := Receive(p, session, From(id, fs));
            && h.Some? && h.value.r.state == TxDone && h.value.r.data == msg
            && h.value.deliveries == [Delivery(msg, |msg| % 256)]
  {
    ReceiverReassembles(p, session, id, fs, |fs|);
    assert From(id, fs)[..|fs|] == From(id, fs);
    WholeBuffer(Receive(p, session, From(id, fs)).value.r.data, Reassemble(fs).value);
  }

  /** Segmentation followed by the receiver gives the message back; the length handed to the session
      layer is the message's exactly up to 255 bytes. */
  lemma SegmentThenReceive(p: P.Params, session: Session, id: nat, msg: message)
    requires session.accepted && |session.buffer| == |msg|
    ensures var h := Receive(p, session, From(id, Segment(msg)));
            && h.Some? && h.value.r.state == TxDone && h.value.r.data == msg
            && h.value.deliveries == [Delivery(msg, |msg| % 256)]
            && (h.value.deliveries[0].len == |msg| <==> |msg| <= 255)
  {
    RoundTrip(msg);
    SegmentIsWhole(msg);
    hide Receive, Reassemble, WholeTransfer, Segment;
    WholeTransferReceived(p, session, id, Segment(msg));
  }

  // ----- Noise -----

  /** Frames a receiver in the middle of a transfer from `id` must ignore: Consecutive Frames of others,
      further First Frames, Flow Control and undefined types. */
  predicate Noise(id: nat, a: Arrival) {
    !a.f.SF? && (a.f.CF? ==> a.id != id)
  }

  function WithoutNoise(id: nat, arrivals: seq<Arrival>): seq<Arrival> {
    if arrivals == [] then [] else
      var k := |arrivals| - 1;
      WithoutNoise(id, arrivals[..k]) + if Noise(id, arrivals[k]) then [] else [arrivals[k]]
  }

  predicate Engaged(id: nat, r: Rcvr) {
    r.state == TxDone || r.state == RxDone || (r.state == FcSent && r.idPair == id && r.data != [] && r.len <= |r.data|)
  }

  lemma RxEngaged(p: P.Params, session: Session, id: nat, r: Rcvr, a: Arrival)
    requires Engaged(id, r)
    ensures Ready(r, a, session)
    ensures Engaged(id, Rx(p, r, a, session).r)
    ensures Noise(id, a) ==> Rx(p, r, a, session) == Quiet(r)
  {
  }

  lemma NoiseStep(p: P.Params, session: Session, id: nat, all: seq<Arrival>, clean: seq<Arrival>, a: Arrival)
    requires Receive(p, session, all).Some? && Engaged(id, Receive(p, session, all).value.r)
    requires Receive(p, session, all) == Receive(p, session, clean)
    ensures Receive(p, session, all + [a]).Some? && Engaged(id, Receive(p, session, all + [a]).value.r)
    ensures Receive(p, session, all + [a]) == Receive(p, session, if Noise(id, a) then clean else clean + [a])
  {
    var h := Receive(p, session, all).value;
    RxEngaged(p, session, id, h.r, a);
    LastReception(p, session, all, a);
    if Noise(id, a) {
      assert h.fcs + [] == h.fcs && h.deliveries + [] == h.deliveries;
    } else {
      LastReception(p, session, clean, a);
    }
  }

  /** Interleaving noise with a transfer already begun changes no receiver field, no Flow Control
      frame and no delivery. */
  lemma {:induction false} NoiseIgnored(p: P.Params, session: Session, id: nat, first: Arrival, rest: seq<Arrival>)
    requires Receive(p, session, [first]).Some? && Engaged(id, Receive(p, session, [first]).value.r)
    ensures Receive(p, session, [first] + rest).Some?
    ensures Engaged(id, Receive(p, session, [first] + rest).value.r)
    ensures Receive(p, session, [first] + rest) == Receive(p, session, [first] + WithoutNoise(id, rest))
  {
    if rest == [] {
      assert [first] + rest == [first] + WithoutNoise(id, rest) == [first];
    } else {
      var k := |rest| - 1;
      var before, clean := [first] + rest[..k], [first] + WithoutNoise(id, rest[..k]);
      assert [first] + rest == before + [rest[k]];
      assert [first] + WithoutNoise(id, rest) == if Noise(id, rest[k]) then clean else clean + [rest[k]];
      NoiseIgnored(p, session, id, first, rest[..k]);
      NoiseStep(p, session, id, before, clean, rest[k]);
    }
  }

  /** A whole transfer delivers its message however much noise follows the First Frame. */
  lemma NoisyTransferDelivers(p: P.Params, session: Session, id: nat, msg: message, rest: seq<Arrival>)
    requires session.accepted && |session.buffer| == |msg|
    requires WithoutNoise(id, rest) == From(id, Segment(msg)[1..])
    ensures var h := Receive(p, session, [Arrival(id, SegFrame(msg, 0))] + rest);
            && h.Some? && h.value.r.state == TxDone && h.value.r.data == msg
            && h.value.deliveries == [Delivery(msg, |msg| % 256)]
  {
    var fs := Segment(msg);
    var first := Arrival(id, SegFrame(msg, 0));
    RoundTrip(msg);
    SegmentIsWhole(msg);
    ReceiverReassembles(p, session, id, fs, 1);
    assert From(id, fs)[..1] == [first];
    NoiseIgnored(p, session, id, first, rest);
    assert [first] + WithoutNoise(id, rest) == From(id, fs);
    SegmentThenReceive(p, session, id, msg);
  }
}
