/** Connection parameters and their initialisation as functions on values. */
module ParamsSpec {
  import opened CanTpTypes
  import Sender = SenderSpec

  type uint32 = x: int | 0 <= x < 0x1_0000_0000

  datatype Params = Params(
    blockSize: byte, stMinUs: uint32, stMin: byte, wftNum: byte, wftMax: byte, wftTimUs: uint32)

  /** Initialisation: the parameters afterwards, and whether they were accepted. A rejected
      configuration keeps what was written before the rejection. */
  function Init(p: Params): (Params, bool) {
    if p.stMinUs == 0 then (p.(stMin := 0), true)
    else if p.stMinUs < 100 then (p, false)
    else if p.stMinUs > 127000 then
      var q := p.(blockSize := 1, stMin := 0);
      if q.wftTimUs < 127000 then (q, false)
      else
        var r := q.(wftNum := q.stMinUs / q.wftTimUs % 256);
        (r, r.wftNum <= r.wftMax)
    else if 900 < p.stMinUs < 1000 then (p.(stMinUs := if p.stMinUs >= 950 then 1000 else 900), true)
    else if p.stMinUs >= 1000 then (p.(stMin := p.stMinUs / 1000), true)
    else (p.(stMin := (p.stMinUs / 100 + 0xf0) % 256), true)
  }

  /** The configuration invariant the transfer relies on: Flow Control that makes the sender wait is only
      ever used with blocks of one frame, so a Flow Control that lets it continue always follows. */
  predicate WaitsNeedSmallBlocks(p: Params) {
    p.wftNum > 0 ==> p.blockSize == 1
  }

  /** Initialising zeroed wait parameters establishes it, whether or not the configuration is accepted. */
  lemma InitLimitsBlocks(p: Params)
    requires p.wftNum == 0
    ensures WaitsNeedSmallBlocks(Init(p).0)
  {
  }

  /** Which configurations are accepted, by their inputs alone: no separation, one from 100 us to 127 ms, or a longer
      one served by wait periods of at least 127 ms whose number, as eight bits keep it, is within `wft_max`. */
  lemma InitAccepts(p: Params)
    ensures Init(p).1 <==>
            || p.stMinUs == 0
            || 100 <= p.stMinUs <= 127000
            || (p.stMinUs > 127000 && p.wftTimUs >= 127000 && p.stMinUs / p.wftTimUs % 256 <= p.wftMax)
  {
  }

  /** What initialisation writes, accepted or not: the code byte, the time only from 901 to 999 us, and blocks of one
      and the number of wait frames only for times above 127 ms. */
  lemma InitWrites(p: Params)
    ensures var q := Init(p).0;
            && q.wftMax == p.wftMax && q.wftTimUs == p.wftTimUs
            && (901 <= p.stMinUs <= 949 ==> q.stMinUs == 900)
            && (950 <= p.stMinUs <= 999 ==> q.stMinUs == 1000)
            && (p.stMinUs <= 900 || p.stMinUs >= 1000 ==> q.stMinUs == p.stMinUs)
            && q.blockSize == (if p.stMinUs > 127000 then 1 else p.blockSize)
            && (p.stMinUs > 127000 && p.wftTimUs >= 127000 ==> q.wftNum == p.stMinUs / p.wftTimUs % 256)
            && (p.stMinUs <= 127000 || p.wftTimUs < 127000 ==> q.wftNum == p.wftNum)
            && (p.stMinUs == 0 || p.stMinUs > 127000 ==> q.stMin == 0)
            && (1 <= p.stMinUs <= 99 || 901 <= p.stMinUs <= 999 ==> q.stMin == p.stMin)
            && (100 <= p.stMinUs <= 900 ==> q.stMin == 240 + p.stMinUs / 100)
            && (1000 <= p.stMinUs <= 127000 ==> q.stMin == p.stMinUs / 1000)
  {
    if 100 <= p.stMinUs <= 900 {
      assert 1 <= p.stMinUs / 100 <= 9;
    }
  }

  /** What an accepted configuration guarantees: a time that needs wait frames gets at most `wft_max` of them, each
      at least 127 ms after the one before; and a time below 100 microseconds other than 0 is never accepted. */
  lemma AcceptedWaits(p: Params)
    requires p.wftNum == 0 && Init(p).1
    ensures var q := Init(p).0;
            && (q.wftNum > 0 ==> q.wftNum <= q.wftMax && q.wftTimUs >= 127000 && p.stMinUs > 127000)
            && (p.stMinUs == 0 || p.stMinUs >= 100)
            && (p.stMinUs <= 127000 ==> q.blockSize == p.blockSize && q.wftNum == 0)
  {
  }

  /** Starting from a zeroed code byte, the code is always one the sender accepts. */
  lemma InitCodeValid(p: Params)
    requires p.stMin == 0 && Init(p).1
    ensures Sender.DecodeSt(Init(p).0.stMin).Some?
  {
  }

  /** A time in microseconds rounded down to what one code byte can say. */
  function Representable(us: nat): nat {
    if us < 1000 then us / 100 * 100 else us / 1000 * 1000
  }

  /** The sender decodes the configured separation time, rounded down, exactly for the times outside
      901..999: in that range the initialisation rounds the time itself but never writes its code. */
  lemma StMinRoundTrip(p: Params)
    requires p.stMin == 0 && Init(p).1 && p.stMinUs <= 127000
    ensures Sender.DecodeSt(Init(p).0.stMin) == Some(Representable(Init(p).0.stMinUs))
            <==> !(900 < p.stMinUs < 1000)
    ensures 900 < p.stMinUs < 1000 ==> Sender.DecodeSt(Init(p).0.stMin) == Some(0)
  {
    var q := Init(p).0;
    if p.stMinUs >= 1000 {
      assert q.stMin == p.stMinUs / 1000 < 0x80;
    } else if 100 <= p.stMinUs <= 900 {
      assert 1 <= p.stMinUs / 100 <= 9;
      assert q.stMin == 0xf0 + p.stMinUs / 100;
    }
  }

  /** Whatever the code byte held before, 901..999 leaves it there. */
  lemma StMinGapKeepsOldCode(p: Params)
    requires 900 < p.stMinUs < 1000
    ensures Init(p).1 && Init(p).0.stMin == p.stMin
  {
  }

  lemma RepresentableMonotone(a: nat, b: nat)
    requires a <= b
    ensures Representable(a) <= Representable(b)
  {
    if b < 1000 {
      assert a / 100 <= b / 100;
    } else if a >= 1000 {
      assert a / 1000 <= b / 1000;
    } else {
      assert a / 100 * 100 <= a < 1000 <= b / 1000 * 1000;
    }
  }

  /** Longer configured times never decode to shorter ones. */
  lemma StMinMonotone(p: Params, q: Params)
    requires p.stMin == q.stMin == 0 && Init(p).1 && Init(q).1
    requires p.stMinUs <= q.stMinUs <= 127000
    requires !(900 < p.stMinUs < 1000) && !(900 < q.stMinUs < 1000)
    ensures exists a, b ::
              Sender.DecodeSt(Init(p).0.stMin) == Some(a) && Sender.DecodeSt(Init(q).0.stMin) == Some(b) && a <= b
  {
    InitCodeValid(p);
    InitCodeValid(q);
    StMinRoundTrip(p);
    StMinRoundTrip(q);
    RepresentableMonotone(Init(p).0.stMinUs, Init(q).0.stMinUs);
  }

  lemma Distribute(a: nat, c: nat)
    ensures (a + 1) * c == a * c + c
  {
  }

  lemma MulMonotone(a: nat, b: nat, c: nat)
    requires a <= b
    ensures a * c <= b * c
  {
  }

  lemma CoverExactly(us: nat, period: nat, w: nat)
    requires period > 0 && w == us / period % 256
    ensures 0 <= us - w * period < period <==> us / period <= 255
  {
    var k := us / period;
    assert us == period * k + us % period;
    assert period * k == k * period;
    if k > 255 {
      MulMonotone(w + 1, k, period);
      Distribute(w, period);
    }
  }

  /** Separation by waiting: the wait frames together last the configured time, short by less than one
      wait period, exactly when their number fits the eight-bit counter. */
  lemma WaitsCoverStMin(p: Params)
    requires Init(p).1 && p.stMinUs > 127000
    ensures var q := Init(p).0;
            0 <= q.stMinUs - q.wftNum * q.wftTimUs < q.wftTimUs <==> p.stMinUs / p.wftTimUs <= 255
  {
    CoverExactly(p.stMinUs, p.wftTimUs, Init(p).0.wftNum);
  }

  /** The failing side is reached by configurations that are accepted: 256 wait periods of 127 ms ask for over
      32 seconds of separation and get none, neither by wait frames nor by the code byte. */
  lemma WaitsWrapToNone()
    ensures var p := Params(0, 127000 * 256, 0, 0, 0, 127000);
            && Init(p).1 && Init(p).0.wftNum == 0 && Sender.DecodeSt(Init(p).0.stMin) == Some(0)
            && !(0 <= Init(p).0.stMinUs - Init(p).0.wftNum * Init(p).0.wftTimUs < Init(p).0.wftTimUs)
  {
    var p := Params(0, 127000 * 256, 0, 0, 0, 127000);
    assert p.stMinUs / p.wftTimUs == 256;
    WaitsCoverStMin(p);
  }
}
