/** What lost Consecutive Frames do to a reception: the sequence number advances even on a mismatch, so a frame is
    taken exactly if its number agrees modulo sixteen with the count of arrivals. Up to fifteen losses silence the
    receiver for good, sixteen in a row deceive it, and the message is delivered only if nothing was lost. */
module Drops {
  import opened CanTpTypes
  import opened Frames
  import opened Segmentation
  import opened ReceiverSpec
  import P = ParamsSpec

  /** The numbers of the Consecutive Frames that arrive: a subsequence of 1, 2, ..., n. */
  predicate Arriving(ks: seq<nat>, n: nat) {
    && (forall i :: 0 <= i < |ks| ==> i + 1 <= ks[i] <= n)
    && (forall i, j :: 0 <= i < j < |ks| ==> ks[j] - ks[i] >= j - i)
  }

  function Kept(msg: seq<byte>, ks: seq<nat>): (fs: seq<Frame>)
    requires |msg| >= 8 && Arriving(ks, NumCf(|msg|))
    ensures |fs| == |ks| && forall i :: 0 <= i < |ks| ==> fs[i] == SegFrame(msg, ks[i])
  {
    seq(|ks|, i requires 0 <= i < |ks| => SegFrame(msg, ks[i]))
  }

  function Stream(id: nat, msg: seq<byte>, ks: seq<nat>): seq<Arrival>
    requires |msg| >= 8 && Arriving(ks, NumCf(|msg|))
  {
    [Arrival(id, SegFrame(msg, 0))] + From(id, Kept(msg, ks))
  }

  // ----- Any losses -----

  /** Arrival i has the sequence number the receiver has counted up to. */
  predicate Matches(ks: seq<nat>, i: nat)
    requires i < |ks|
  {
    ks[i] % 16 == (i + 1) % 16
  }

  function Accepted(ks: seq<nat>): (m: nat)
    ensures m <= |ks|
  {
    if ks == [] then 0 else Accepted(ks[..|ks| - 1]) + if Matches(ks, |ks| - 1) then 1 else 0
  }

  /** The data bytes of the arrivals that match, one after the other. */
  function AcceptedBytes(msg: seq<byte>, ks: seq<nat>): (b: seq<byte>)
    requires |msg| >= 8 && Arriving(ks, NumCf(|msg|))
    ensures |b| == CF_DATA * Accepted(ks)
  {
    if ks == [] then [] else
      var k := |ks| - 1;
      AcceptedBytes(msg, ks[..k]) + if Matches(ks, k) then Pad7(Chunk(msg, ks[k])) else []
  }

  /** The receiver after arrivals with losses, as a closed form: what matched was stored in a row, and the rest
      of the session layer's buffer is untouched. */
  predicate Lossy(p: P.Params, msg: seq<byte>, id: nat, buffer: seq<byte>, r: Rcvr, ks: seq<nat>)
    requires |buffer| == |msg| >= 8 && Arriving(ks, NumCf(|msg|)) && |ks| < NumCf(|msg|)
  {
    var m := Accepted(ks);
    && r.state == FcSent && r.len == |msg| && r.idPair == id && r.index == FF_DATA + CF_DATA * m
    && r.data == msg[..FF_DATA] + AcceptedBytes(msg, ks) + buffer[FF_DATA + CF_DATA * m..]
    && r.sn == |ks| % 16
    && r.blocks == (if p.blockSize == 0 then 0 else m % p.blockSize)
    && r.timer == (if ks == [] || Matches(ks, |ks| - 1) then Armed(N_Cr) else Stopped)
  }

  /** The handler takes a full frame with the right number that is not the last. */
  lemma TakenFrame(p: P.Params, r: Rcvr, id: nat, sn: nibble, d: payload7)
    requires r.idPair == id && r.state == FcSent && r.len <= |r.data| && r.len - r.index > CF_DATA
    requires NextSn(r.sn) == sn
    ensures var u := r.(timer := Stopped, sn := sn, data := Stored(r, d, CF_DATA), index := r.index + CF_DATA);
            RxConsecutive(p, r, id, sn, d) == AfterConsecutive(p, u)
  {
    hide Patched;
  }

  lemma PatchMiddle(front: seq<byte>, back: seq<byte>, d: payload7)
    requires |back| >= CF_DATA
    ensures Patched(front + back, |front|, d, CF_DATA) == front + d + back[CF_DATA..]
  {
    assert d[..CF_DATA] == d;
    assert (front + back)[|front| + CF_DATA..] == back[CF_DATA..];
  }

  lemma AcceptedLast(msg: seq<byte>, ks: seq<nat>)
    requires |msg| >= 8 && ks != [] && Arriving(ks, NumCf(|msg|))
    ensures var k := |ks| - 1;
            && Arriving(ks[..k], NumCf(|msg|))
            && Accepted(ks) == Accepted(ks[..k]) + (if Matches(ks, k) then 1 else 0)
            && AcceptedBytes(msg, ks)
               == AcceptedBytes(msg, ks[..k]) + if Matches(ks, k) then Pad7(Chunk(msg, ks[k])) else []
  {
    hide Pad7, Chunk;
  }

  /** Before the last Consecutive Frame there is always room for a full one. */
  lemma Room(len: nat, m: nat)
    requires len >= 8 && m < NumCf(len)
    ensures FF_DATA + CF_DATA * m < len
  {
  }

  lemma Regroup(first: seq<byte>, got: seq<byte>, d: payload7, buffer: seq<byte>, at: nat)
    requires at + CF_DATA <= |buffer|
    ensures (first + got) + d + buffer[at..][CF_DATA..] == first + (got + d) + buffer[at + CF_DATA..]
  {
    assert buffer[at..][CF_DATA..] == buffer[at + CF_DATA..];
  }

  /** A frame with the right number goes behind what was accepted before it. */
  lemma NextPlace(p: P.Params, msg: seq<byte>, id: nat, r: Rcvr, q: nat, m: nat, k: nat,
                  front: seq<byte>, back: seq<byte>, d: payload7)
    requires |msg| >= 8 && q >= 1 && k % 16 == q % 16 && r.sn == (q - 1) % 16 && m + 1 < NumCf(|msg|)
    requires r.state == FcSent && r.len == |msg| && r.idPair == id && r.index == FF_DATA + CF_DATA * m == |front|
    requires r.data == front + back && |front| + |back| == |msg| > |front| + CF_DATA
    requires r.blocks == if p.blockSize == 0 then 0 else m % p.blockSize
    ensures var o := RxConsecutive(p, r, id, k % 16, d);
            && o.r == r.(timer := Armed(N_Cr), sn := q % 16, data := front + d + back[CF_DATA..],
                         index := r.index + CF_DATA, wftCntr := o.r.wftCntr,
                         blocks := if p.blockSize == 0 then 0 else (m + 1) % p.blockSize)
            && o.delivery == None
  {
    hide RxConsecutive, AfterConsecutive, Patched, NumCf;
    ModNext(q - 1, 16);
    TakenFrame(p, r, id, k % 16, d);
    PatchMiddle(front, back, d);
    var u := r.(timer := Stopped, sn := k % 16, data := Stored(r, d, CF_DATA), index := r.index + CF_DATA);
    CountStep(p, u, NumCf(|msg|), m + 1);
  }

  lemma MatchStep(p: P.Params, msg: seq<byte>, id: nat, buffer: seq<byte>, r: Rcvr, ks: seq<nat>)
    requires |buffer| == |msg| >= 8 && ks != [] && |ks| < NumCf(|msg|)
    requires Arriving(ks, NumCf(|msg|)) && Arriving(ks[..|ks| - 1], NumCf(|msg|)) && Matches(ks, |ks| - 1)
    requires Lossy(p, msg, id, buffer, r, ks[..|ks| - 1])
    ensures var k := ks[|ks| - 1];
            var o := RxConsecutive(p, r, id, k % 16, Pad7(Chunk(msg, k)));
            Lossy(p, msg, id, buffer, o.r, ks) && o.delivery == None
  {
    hide RxConsecutive, Pad7, Chunk, AcceptedBytes, Accepted, NumCf;
    var m, k := Accepted(ks[..|ks| - 1]), ks[|ks| - 1];
    var got, at := AcceptedBytes(msg, ks[..|ks| - 1]), FF_DATA + CF_DATA * m;
    var d := Pad7(Chunk(msg, k));
    AcceptedLast(msg, ks);
    hide Arriving;
    Room(|msg|, m + 1);
    NextPlace(p, msg, id, r, |ks|, m, k, msg[..FF_DATA] + got, buffer[at..], d);
    Regroup(msg[..FF_DATA], got, d, buffer, at);
  }

  /** A frame with another number is counted and nothing else. */
  lemma RefusedFrame(p: P.Params, r: Rcvr, id: nat, q: nat, k: nat, d: payload7)
    requires q >= 1 && k % 16 != q % 16 && r.sn == (q - 1) % 16 && r.idPair == id && r.len <= |r.data|
    ensures RxConsecutive(p, r, id, k % 16, d) == Quiet(r.(timer := Stopped, sn := q % 16))
  {
    hide Accept;
    ModNext(q - 1, 16);
  }

  lemma MismatchStep(p: P.Params, msg: seq<byte>, id: nat, buffer: seq<byte>, r: Rcvr, ks: seq<nat>)
    requires |buffer| == |msg| >= 8 && ks != [] && |ks| < NumCf(|msg|)
    requires Arriving(ks, NumCf(|msg|)) && Arriving(ks[..|ks| - 1], NumCf(|msg|)) && !Matches(ks, |ks| - 1)
    requires Lossy(p, msg, id, buffer, r, ks[..|ks| - 1])
    ensures var k := ks[|ks| - 1];
            var o := RxConsecutive(p, r, id, k % 16, Pad7(Chunk(msg, k)));
            Lossy(p, msg, id, buffer, o.r, ks) && o.delivery == None
  {
    var k := ks[|ks| - 1];
    AcceptedLast(msg, ks);
    RefusedFrame(p, r, id, |ks|, k, Pad7(Chunk(msg, k)));
    hide RxConsecutive, Pad7, Chunk, AcceptedBytes, Accepted, Arriving, NumCf;
  }

  lemma StreamLast(id: nat, msg: message, ks: seq<nat>)
    requires ks != [] && Arriving(ks, NumCf(|msg|))
    ensures var k := |ks| - 1;
            && Arriving(ks[..k], NumCf(|msg|))
            && Stream(id, msg, ks) == Stream(id, msg, ks[..k]) + [Arrival(id, SegFrame(msg, ks[k]))]
  {
  }

  lemma FirstFrameKept(p: P.Params, session: Session, id: nat, msg: message)
    requires session.accepted && |session.buffer| == |msg|
    ensures var o := RxFirst(p, ZERO_RCVR, id, |msg|, msg[..FF_DATA], session);
            Lossy(p, msg, id, session.buffer, o.r, []) && o.delivery == None
  {
    hide NumCf;
    assert AcceptedBytes(msg, []) == [];
    if p.blockSize > 0 {
      assert 0 % p.blockSize == 0;
    }
  }

  lemma OnlyFirst(id: nat, msg: message)
    ensures Stream(id, msg, []) == [] + [Arrival(id, SegFrame(msg, 0))]
  {
  }

  lemma OnlyFirstFrame(p: P.Params, session: Session, id: nat, msg: message)
    requires session.accepted && |session.buffer| == |msg|
    ensures var h := Receive(p, session, Stream(id, msg, []));
            && h.Some? && Lossy(p, msg, id, session.buffer, h.value.r, []) && h.value.deliveries == []
  {
    hide Lossy, Stream, Rx, RxFirst, NumCf;
    var first := Arrival(id, SegFrame(msg, 0));
    OnlyFirst(id, msg);
    LastReception(p, session, [], first);
    RxDispatch(p, ZERO_RCVR, first, session);
    FirstFrameKept(p, session, id, msg);
  }
  lemma LossStep(p: P.Params, session: Session, id: nat, msg: message, ks: seq<nat>)
    requires |session.buffer| == |msg|
    requires ks != [] && Arriving(ks, NumCf(|msg|)) && Arriving(ks[..|ks| - 1], NumCf(|msg|)) && |ks| < NumCf(|msg|)
    requires var h := Receive(p, session, Stream(id, msg, ks[..|ks| - 1]));
             && h.Some? && Lossy(p, msg, id, session.buffer, h.value.r, ks[..|ks| - 1])
             && h.value.deliveries == []
    ensures var h := Receive(p, session, Stream(id, msg, ks));
            h.Some? && Lossy(p, msg, id, session.buffer, h.value.r, ks) && h.value.deliveries == []
  {
    hide Receive, Rx, RxConsecutive, Chunk, Pad7, Accepted, AcceptedBytes;
    var k := |ks| - 1;
    var before, a := Stream(id, msg, ks[..k]), Arrival(id, SegFrame(msg, ks[k]));
    var r := Receive(p, session, before).value.r;
    StreamLast(id, msg, ks);
    LastReception(p, session, before, a);
    RxDispatch(p, r, a, session);
    if Matches(ks, k) {
      MatchStep(p, msg, id, session.buffer, r, ks);
    } else {
      MismatchStep(p, msg, id, session.buffer, r, ks);
    }
  }

  lemma NothingMissing(ks: seq<nat>, n: nat)
    requires Arriving(ks, n) && |ks| == n
    ensures forall i :: 0 <= i < |ks| ==> ks[i] == i + 1
  {
    forall i | 0 <= i < |ks| ensures ks[i] == i + 1 {
      if i < |ks| - 1 {
        assert ks[|ks| - 1] - ks[i] >= |ks| - 1 - i;
      }
    }
  }

  lemma WholeStream(id: nat, msg: message, ks: seq<nat>)
    requires Arriving(ks, NumCf(|msg|)) && |ks| == NumCf(|msg|)
    ensures Stream(id, msg, ks) == From(id, Segment(msg))
  {
    hide NumCf, SegFrame;
    NothingMissing(ks, NumCf(|msg|));
  }

  /** Nothing was lost: the stream is the whole transfer. */
  lemma AllArrived(p: P.Params, session: Session, id: nat, msg: message, ks: seq<nat>)
    requires session.accepted && |session.buffer| == |msg|
    requires Arriving(ks, NumCf(|msg|)) && |ks| == NumCf(|msg|)
    ensures forall i :: 0 <= i < |ks| ==> ks[i] == i + 1
    ensures var h := Receive(p, session, Stream(id, msg, ks));
            && h.Some? && At(p, msg, id, h.value.r, NumCf(|msg|) + 1) && h.value.r.data == msg
            && h.value.deliveries == [Delivery(msg, |msg| % 256)]
  {
    hide Receive, At, Reassemble, Stream, Arriving, NumCf, WholeTransfer, SegFrame;
    var fs := Segment(msg);
    NothingMissing(ks, NumCf(|msg|));
    WholeStream(id, msg, ks);
    assert From(id, fs)[..|fs|] == From(id, fs);
    SegmentIsWhole(msg);
    RoundTrip(msg);
    ReceiverReassembles(p, session, id, fs, |fs|);
    SegmentThenReceive(p, session, id, msg);
  }

  /** Whatever is lost: the buffer holds the data of exactly the arrivals whose number agrees modulo sixteen with their
      place, in a row behind the First Frame's bytes, and is otherwise untouched; the message is delivered,
      whole and once, if nothing was lost, and nothing is delivered otherwise. */
  lemma {:induction false} LossesExact(p: P.Params, session: Session, id: nat, msg: message, ks: seq<nat>)
    requires session.accepted && |session.buffer| == |msg| && Arriving(ks, NumCf(|msg|))
    ensures |ks| <= NumCf(|msg|)
    ensures var h := Receive(p, session, Stream(id, msg, ks));
            && h.Some?
            && if |ks| == NumCf(|msg|) then
                 h.value.r.state == TxDone && h.value.r.data == msg
                 && h.value.deliveries == [Delivery(msg, |msg| % 256)]
               else Lossy(p, msg, id, session.buffer, h.value.r, ks) && h.value.deliveries == []
  {
    hide Receive, Lossy;
    if |ks| == NumCf(|msg|) {
      AllArrived(p, session, id, msg, ks);
    } else if ks == [] {
      OnlyFirstFrame(p, session, id, msg);
    } else {
      StreamLast(id, msg, ks);
      LossesExact(p, session, id, msg, ks[..|ks| - 1]);
      LossStep(p, session, id, msg, ks);
    }
  }

  // ----- Few losses -----

  /** How many frames arrive before the first loss. */
  function BeforeLoss(ks: seq<nat>): (m: nat)
    ensures m <= |ks|
    ensures forall i :: 0 <= i < m ==> ks[i] == i + 1
    ensures m < |ks| ==> ks[m] != m + 1
  {
    if ks == [] then 0 else
      var k := |ks| - 1;
      var m := BeforeLoss(ks[..k]);
      if m == k && ks[k] == k + 1 then k + 1 else m
  }

  /** No more than fifteen frames were lost before any arrival. */
  predicate FewLosses(ks: seq<nat>) {
    forall i :: 0 <= i < |ks| ==> ks[i] - (i + 1) <= 15
  }

  /** The receiver is where the first m Consecutive Frames left it, except that its sequence number
      has advanced `seen` times and its timer may have been stopped. */
  predicate FrozenAt(p: P.Params, msg: seq<byte>, id: nat, r: Rcvr, m: nat, seen: nat)
    requires |msg| >= 8
  {
    && At(p, msg, id, r.(sn := m % 16, timer := if m == NumCf(|msg|) then Stopped else Armed(N_Cr)), m + 1)
    && r.sn == seen % 16
    && (seen == m ==> At(p, msg, id, r, m + 1))
  }

  /** After few losses an arrival matches only if nothing was lost before it. */
  lemma FewMatch(ks: seq<nat>, n: nat, i: nat)
    requires Arriving(ks, n) && FewLosses(ks) && i < |ks|
    ensures Matches(ks, i) <==> ks[i] == i + 1
    ensures BeforeLoss(ks[..i]) < i ==> !Matches(ks, i)
  {
    var m := BeforeLoss(ks[..i]);
    if m < i {
      assert ks[m] == ks[..i][m] != m + 1;
      assert ks[i] - ks[m] >= i - m;
    }
  }

  lemma NextBeforeLoss(ks: seq<nat>, n: nat)
    requires ks != [] && Arriving(ks, n) && FewLosses(ks)
    ensures var k := |ks| - 1;
            && Arriving(ks[..k], n) && FewLosses(ks[..k])
            && (if Matches(ks, k) then BeforeLoss(ks[..k]) == k && BeforeLoss(ks) == k + 1 && ks[k] == k + 1
                else BeforeLoss(ks) == BeforeLoss(ks[..k]))
  {
    FewMatch(ks, n, |ks| - 1);
  }

  lemma FullChunk(msg: seq<byte>, k: nat)
    requires |msg| >= 8 && 1 <= k < NumCf(|msg|)
    ensures Pad7(Chunk(msg, k)) == Chunk(msg, k) == msg[FF_DATA + CF_DATA * (k - 1)..FF_DATA + CF_DATA * k]
  {
  }

  lemma ChunkAfter(msg: seq<byte>, k: nat)
    requires |msg| >= 8 && 1 <= k < NumCf(|msg|)
    ensures var a, b := FF_DATA + CF_DATA * (k - 1), FF_DATA + CF_DATA * k;
            msg[FF_DATA..a] + msg[a..b] == msg[FF_DATA..b]
  {
  }

  /** With few losses exactly the frames before the first loss match. */
  lemma {:induction false} FewCount(ks: seq<nat>, n: nat)
    requires Arriving(ks, n) && FewLosses(ks)
    ensures Accepted(ks) == BeforeLoss(ks)
  {
    hide BeforeLoss, Arriving, FewLosses, Matches;
    if ks != [] {
      NextBeforeLoss(ks, n);
      FewCount(ks[..|ks| - 1], n);
    }
  }

  /** The message bytes that the first m Consecutive Frames carry, all of them full. */
  function Front(msg: seq<byte>, m: nat): (f: seq<byte>)
    requires |msg| >= 8 && m < NumCf(|msg|)
    ensures |f| == CF_DATA * m
  {
    Room(|msg|, m);
    msg[FF_DATA..FF_DATA + CF_DATA * m]
  }

  lemma FrontNext(msg: seq<byte>, m: nat)
    requires |msg| >= 8 && m + 1 < NumCf(|msg|)
    ensures Front(msg, m + 1) == Front(msg, m) + Pad7(Chunk(msg, m + 1))
  {
    FullChunk(msg, m + 1);
    ChunkAfter(msg, m + 1);
  }

  /** And they carry what the message has there. */
  lemma {:induction false} FewAccepted(msg: seq<byte>, ks: seq<nat>)
    requires |msg| >= 8 && Arriving(ks, NumCf(|msg|)) && FewLosses(ks) && |ks| < NumCf(|msg|)
    ensures Accepted(ks) == BeforeLoss(ks) && AcceptedBytes(msg, ks) == Front(msg, BeforeLoss(ks))
  {
    FewCount(ks, NumCf(|msg|));
    if ks != [] {
      hide BeforeLoss, Arriving, FewLosses, Matches, Pad7, Chunk, Accepted, AcceptedBytes, NumCf, Front;
      AcceptedLast(msg, ks);
      NextBeforeLoss(ks, NumCf(|msg|));
      FewAccepted(msg, ks[..|ks| - 1]);
      if Matches(ks, |ks| - 1) {
        FrontNext(msg, |ks| - 1);
      }
    }
  }

  lemma FewData(msg: message, buffer: seq<byte>, ks: seq<nat>)
    requires |buffer| == |msg| && Arriving(ks, NumCf(|msg|)) && FewLosses(ks) && |ks| < NumCf(|msg|)
    ensures Accepted(ks) == BeforeLoss(ks)
    ensures var at := FF_DATA + CF_DATA * BeforeLoss(ks);
            && at < |msg| && at == Carried(|msg|, BeforeLoss(ks))
            && var data := msg[..FF_DATA] + AcceptedBytes(msg, ks) + buffer[at..];
               |data| == |msg| && data[..at] == msg[..at]
  {
    FewAccepted(msg, ks);
    hide AcceptedBytes, Accepted, BeforeLoss, Arriving, FewLosses;
    var at := FF_DATA + CF_DATA * BeforeLoss(ks);
    assert msg[..at] == msg[..FF_DATA] + msg[FF_DATA..at];
  }

  /** The receiver's answer to the latest frame, if nothing was lost yet, is still running. */
  lemma LastMatched(ks: seq<nat>, n: nat)
    requires Arriving(ks, n) && FewLosses(ks) && BeforeLoss(ks) == |ks|
    ensures ks == [] || Matches(ks, |ks| - 1)
  {
    if ks != [] {
      FewMatch(ks, n, |ks| - 1);
    }
  }

  lemma FewFreeze(p: P.Params, msg: message, id: nat, buffer: seq<byte>, r: Rcvr, ks: seq<nat>)
    requires |buffer| == |msg| && Arriving(ks, NumCf(|msg|)) && FewLosses(ks) && |ks| < NumCf(|msg|)
    requires Lossy(p, msg, id, buffer, r, ks)
    ensures FrozenAt(p, msg, id, r, BeforeLoss(ks), |ks|)
  {
    hide AcceptedBytes, Accepted, BeforeLoss, Arriving, FewLosses, Matches, Carried, NumCf;
    FewData(msg, buffer, ks);
    if BeforeLoss(ks) == |ks| {
      LastMatched(ks, NumCf(|msg|));
    }
  }

  /** With at most fifteen losses before any arrival, the buffer is exactly the prefix before the first
      loss, nothing after it is accepted, and the message is delivered exactly if nothing was lost. */
  lemma LossesFreeze(p: P.Params, session: Session, id: nat, msg: message, ks: seq<nat>)
    requires session.accepted && |session.buffer| == |msg|
    requires Arriving(ks, NumCf(|msg|)) && FewLosses(ks)
    ensures var h, m := Receive(p, session, Stream(id, msg, ks)), BeforeLoss(ks);
            && h.Some?
            && FrozenAt(p, msg, id, h.value.r, m, |ks|)
            && h.value.deliveries == if m == NumCf(|msg|) then [Delivery(msg, |msg| % 256)] else []
  {
    hide Receive, Lossy;
    LossesExact(p, session, id, msg, ks);
    if |ks| == NumCf(|msg|) {
      AllArrived(p, session, id, msg, ks);
    } else {
      FewFreeze(p, msg, id, session.buffer, Receive(p, session, Stream(id, msg, ks)).value.r, ks);
    }
  }

  /** Between 1 and 15 of a message's n frames lost in total: never delivered, and the buffer is the
      prefix that came before the first loss. */
  lemma DropResilience(p: P.Params, session: Session, id: nat, msg: message, ks: seq<nat>)
    requires session.accepted && |session.buffer| == |msg|
    requires Arriving(ks, NumCf(|msg|)) && 1 <= NumCf(|msg|) - |ks| <= 15
    ensures var h := Receive(p, session, Stream(id, msg, ks));
            var got := Carried(|msg|, BeforeLoss(ks));
            && h.Some? && h.value.deliveries == [] && h.value.r.state == FcSent && |h.value.r.data| == |msg|
            && h.value.r.index == got < |msg| && h.value.r.data[..got] == msg[..got]
  {
    hide Receive;
    forall i | 0 <= i < |ks| ensures ks[i] - (i + 1) <= 15 {
      if i < |ks| - 1 {
        assert ks[|ks| - 1] - ks[i] >= |ks| - 1 - i;
      }
    }
    LossesFreeze(p, session, id, msg, ks);
  }

  // ----- Sixteen losses -----

  /** The frames before the k-th, and then the one sixteen after it. */
  function Skipping(k: nat): (ks: seq<nat>)
    requires k >= 1
    ensures |ks| == k && ks[k - 1] == k + 16
    ensures forall i :: 0 <= i < k - 1 ==> ks[i] == i + 1
  {
    seq(k, i => if i == k - 1 then k + 16 else i + 1)
  }

  lemma SkippingArrives(k: nat, n: nat)
    requires k >= 1 && k + 16 <= n
    ensures var ks := Skipping(k);
            && Arriving(ks, n) && Arriving(ks[..k - 1], n) && FewLosses(ks[..k - 1])
            && BeforeLoss(ks[..k - 1]) == k - 1 && Matches(ks, k - 1)
  {
  }

  lemma {:induction false} SkippingAccepted(msg: message, k: nat)
    requires k >= 1 && k + 16 <= NumCf(|msg|)
    ensures Arriving(Skipping(k), NumCf(|msg|)) && Accepted(Skipping(k)) == k
    ensures AcceptedBytes(msg, Skipping(k)) == msg[FF_DATA..FF_DATA + CF_DATA * (k - 1)] + Pad7(Chunk(msg, k + 16))
  {
    hide Pad7, Chunk, AcceptedBytes, Accepted, BeforeLoss, FewLosses, Arriving, Matches, Skipping, NumCf;
    SkippingArrives(k, NumCf(|msg|));
    FewAccepted(msg, Skipping(k)[..k - 1]);
    AcceptedLast(msg, Skipping(k));
  }

  lemma SamePrefix(msg: seq<byte>, at: nat, d: payload7, rest: seq<byte>)
    requires at + CF_DATA <= |msg|
    ensures (msg[..at] + d + rest)[..at + CF_DATA] == msg[..at + CF_DATA] <==> d == msg[at..at + CF_DATA]
  {
    var data := msg[..at] + d + rest;
    assert data[..at + CF_DATA] == msg[..at] + d;
    assert msg[..at + CF_DATA] == msg[..at] + msg[at..at + CF_DATA];
    assert data[..at + CF_DATA][at..] == d && msg[..at + CF_DATA][at..] == msg[at..at + CF_DATA];
  }

  /** The bound is tight: when the frames k to k + 15 are lost, the next one is stored where the k-th belongs, the rest
      of the buffer stays as it was, and what was filled is a prefix of the message exactly if the bytes happen
      to agree. */
  lemma SixteenLossesDeceive(p: P.Params, session: Session, id: nat, msg: message, k: nat)
    requires session.accepted && |session.buffer| == |msg|
    requires 1 <= k && k + 16 <= NumCf(|msg|)
    ensures Arriving(Skipping(k), NumCf(|msg|))
    ensures var h := Receive(p, session, Stream(id, msg, Skipping(k)));
            var at, d := FF_DATA + CF_DATA * (k - 1), Pad7(Chunk(msg, k + 16));
            && h.Some? && h.value.deliveries == [] && h.value.r.index == at + CF_DATA
            && h.value.r.data == msg[..at] + d + session.buffer[at + CF_DATA..]
            && (h.value.r.data[..at + CF_DATA] == msg[..at + CF_DATA] <==> d == Chunk(msg, k))
  {
    hide Receive, Pad7, Stream, AcceptedBytes, Accepted;
    SkippingAccepted(msg, k);
    LossesExact(p, session, id, msg, Skipping(k));
    var at, d := FF_DATA + CF_DATA * (k - 1), Pad7(Chunk(msg, k + 16));
    assert msg[..at] == msg[..FF_DATA] + msg[FF_DATA..at];
    SamePrefix(msg, at, d, session.buffer[at + CF_DATA..]);
  }
}
