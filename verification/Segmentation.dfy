/** Segmentation and reassembly as pure functions: the meaning of a segmented transfer. */
module Segmentation {
  import opened CanTpTypes
  import opened Frames

  type message = m: seq<byte> | 8 <= |m| <= 4095 witness Zeros(8)

  /** ceil((len - 6) / 7): how many Consecutive Frames follow the First Frame. */
  function NumCf(len: nat): (n: nat)
    requires len >= 8
    ensures n >= 1
    ensures FF_DATA + CF_DATA * (n - 1) < len <= FF_DATA + CF_DATA * n
  {
    (len - FF_DATA + CF_DATA - 1) / CF_DATA
  }

  /** How many message bytes the First Frame and the first k Consecutive Frames carry. */
  function Carried(len: nat, k: nat): nat {
    Min(len, FF_DATA + CF_DATA * k)
  }

  /** The message bytes of the k-th Consecutive Frame, k counting from 1. */
  function Chunk(msg: seq<byte>, k: nat): (c: seq<byte>)
    requires |msg| >= 8 && 1 <= k <= NumCf(|msg|)
    ensures 1 <= |c| <= CF_DATA
    ensures k < NumCf(|msg|) ==> |c| == CF_DATA
  {
    msg[FF_DATA + CF_DATA * (k - 1)..Carried(|msg|, k)]
  }

  function Pad7(s: seq<byte>): (d: payload7)
    requires |s| <= 7
    ensures d[..|s|] == s
    ensures forall i :: |s| <= i < 7 ==> d[i] == 0
  {
    s + Zeros(7 - |s|)
  }

  /** A frame is known by its header and its bytes, the rest being zero. */
  lemma FrameBytes(b: wire, f: Frame, at: nat, c: seq<byte>)
    requires match f
             case SF(n, d) => at == 1 && |c| <= 7 && d == Pad7(c) && b[0] == PCI_SF * 16 + n
             case CF(sn, d) => at == 1 && |c| <= 7 && d == Pad7(c) && b[0] == PCI_CF * 16 + sn
             case FF(n, d) => at == 2 && c == d && b[0] == PCI_FF * 16 + LenHigh(n) && b[1] == LenLow(n)
             case _ => false
    requires forall j :: at <= j < at + |c| ==> b[j] == c[j - at]
    requires forall j :: at + |c| <= j < 8 ==> b[j] == 0
    ensures b == Encode(f)
  {
  }

  /** Frame k of the transfer: frame 0 is the First Frame. */
  function SegFrame(msg: seq<byte>, k: nat): (f: Frame)
    requires |msg| >= 8 && k <= NumCf(|msg|)
    ensures Proper(f)
  {
    if k == 0 then FF(|msg| % 0x1000, msg[..FF_DATA]) else CF(k % 16, Pad7(Chunk(msg, k)))
  }

  lemma CfBytes(msg: message, k: nat)
    requires 1 <= k <= NumCf(|msg|)
    ensures forall i :: 0 <= i < 7 ==> Pad7(Chunk(msg, k))[i]
                                       == if 6 + 7 * (k - 1) + i < |msg| then msg[6 + 7 * (k - 1) + i] else 0
  {
  }

  /** Every byte of every frame of a segmented transfer. */
  lemma SegmentBytes(msg: message, k: nat)
    requires k <= NumCf(|msg|)
    ensures var b := Encode(SegFrame(msg, k));
            if k == 0 then b == [0x10 + |msg| / 256, |msg| % 256] + msg[..6]
            else
              && b[0] == 0x20 + k % 16
              && var d := b[1..];
                 forall i :: 0 <= i < 7 ==> d[i] == if 6 + 7 * (k - 1) + i < |msg| then msg[6 + 7 * (k - 1) + i] else 0
  {
    var f := SegFrame(msg, k);
    WireLayout(f);
    var b := Encode(f);
    if k == 0 {
      assert b == [b[0], b[1]] + b[2..];
    } else {
      CfBytes(msg, k);
    }
  }

  function Segment(msg: seq<byte>): (fs: seq<Frame>)
    requires |msg| >= 8
    ensures |fs| == NumCf(|msg|) + 1
    ensures forall k :: 0 <= k < |fs| ==> fs[k] == SegFrame(msg, k)
  {
    seq(NumCf(|msg|) + 1, k requires 0 <= k <= NumCf(|msg|) => SegFrame(msg, k))
  }

  /** The frames carry consecutive sequence numbers 1, 2, ..., 15, 0, 1, ... */
  predicate InOrder(cfs: seq<Frame>) {
    forall i :: 0 <= i < |cfs| ==> cfs[i].CF? && cfs[i].sn == (i + 1) % 16
  }

  /** All data bytes of the Consecutive Frames, padding included. */
  function Payload(cfs: seq<Frame>): (p: seq<byte>)
    requires InOrder(cfs)
    ensures |p| == CF_DATA * |cfs|
  {
    if cfs == [] then [] else
      var k := |cfs| - 1;
      Payload(cfs[..k]) + cfs[k].cfData
  }

  lemma {:induction false} PayloadAt(cfs: seq<Frame>, i: nat)
    requires InOrder(cfs) && i < |cfs|
    ensures Payload(cfs)[CF_DATA * i..CF_DATA * (i + 1)] == cfs[i].cfData
  {
    var k := |cfs| - 1;
    if i < k {
      PayloadAt(cfs[..k], i);
      assert Payload(cfs)[..CF_DATA * k] == Payload(cfs[..k]);
      assert Payload(cfs)[CF_DATA * i..CF_DATA * (i + 1)] == Payload(cfs[..k])[CF_DATA * i..CF_DATA * (i + 1)];
    } else {
      assert Payload(cfs)[CF_DATA * k..] == cfs[k].cfData;
    }
  }

  /** A First Frame announcing `len` bytes, followed by exactly the frames that length needs. */
  predicate WholeTransfer(fs: seq<Frame>) {
    && fs != [] && fs[0].FF? && fs[0].ffLen >= 8
    && |fs| == NumCf(fs[0].ffLen) + 1
    && InOrder(fs[1..])
  }

  /** The message a frame sequence stands for, if it is one whole transfer. */
  function Reassemble(fs: seq<Frame>): (m: Option<seq<byte>>)
    ensures m.Some? <==> WholeTransfer(fs)
    ensures m.Some? ==> |m.value| == fs[0].ffLen
  {
    if WholeTransfer(fs) then Some((fs[0].ffData + Payload(fs[1..]))[..fs[0].ffLen]) else None
  }

  /** `f` is a Consecutive Frame bringing the k-th chunk of `msg`; its padding may be anything. */
  predicate Carries(msg: seq<byte>, k: nat, f: Frame)
    requires |msg| >= 8 && 1 <= k <= NumCf(|msg|)
  {
    f.CF? && f.sn == k % 16 && f.cfData[..|Chunk(msg, k)|] == Chunk(msg, k)
  }

  /** Every Consecutive Frame of a whole transfer brings its own chunk of the reassembled message. */
  lemma ReassembledChunks(fs: seq<Frame>, k: nat)
    requires WholeTransfer(fs) && 1 <= k < |fs|
    ensures Carries(Reassemble(fs).value, k, fs[k])
    ensures Reassemble(fs).value[..FF_DATA] == fs[0].ffData
  {
    var m := Reassemble(fs).value;
    var whole := fs[0].ffData + Payload(fs[1..]);
    PayloadAt(fs[1..], k - 1);
    var c := Chunk(m, k);
    var at := CF_DATA * (k - 1);
    assert Payload(fs[1..])[at..at + CF_DATA] == fs[k].cfData;
    forall i | 0 <= i < |c| ensures c[i] == fs[k].cfData[i] {
      assert c[i] == whole[FF_DATA + at + i] == Payload(fs[1..])[at + i];
    }
  }

  /** A message is determined by its first six bytes and its chunks. */
  lemma {:induction false} SameChunks(a: seq<byte>, b: seq<byte>, k: nat)
    requires |a| == |b| >= 8 && a[..FF_DATA] == b[..FF_DATA]
    requires k <= NumCf(|a|)
    requires forall j :: 1 <= j <= k ==> Chunk(a, j) == Chunk(b, j)
    ensures a[..Carried(|a|, k)] == b[..Carried(|a|, k)]
  {
    if k > 0 {
      SameChunks(a, b, k - 1);
      var lo, hi := Carried(|a|, k - 1), Carried(|a|, k);
      assert a[..hi] == a[..lo] + Chunk(a, k);
      assert b[..hi] == b[..lo] + Chunk(b, k);
    }
  }

  lemma SegmentIsWhole(msg: message)
    ensures var fs := Segment(msg);
            WholeTransfer(fs) && fs[0].ffLen == |msg| && fs[0].ffData == msg[..FF_DATA]
  {
    var fs := Segment(msg);
    assert fs[0] == SegFrame(msg, 0);
    forall i | 0 <= i < |fs[1..]| ensures fs[1..][i].CF? && fs[1..][i].sn == (i + 1) % 16 {
      assert fs[1..][i] == SegFrame(msg, i + 1);
    }
  }

  lemma SegFrameCarries(msg: seq<byte>, k: nat)
    requires |msg| >= 8 && 1 <= k <= NumCf(|msg|)
    ensures Carries(msg, k, SegFrame(msg, k))
  {
  }

  lemma SameChunk(a: seq<byte>, b: seq<byte>, k: nat, f: Frame)
    requires |a| == |b| >= 8 && 1 <= k <= NumCf(|a|)
    requires Carries(a, k, f) && Carries(b, k, f)
    ensures Chunk(a, k) == Chunk(b, k)
  {
  }

  /** Reassembling what was segmented gives the message back, for every length the 12-bit field can announce. */
  lemma RoundTrip(msg: message)
    ensures Reassemble(Segment(msg)) == Some(msg)
  {
    var fs := Segment(msg);
    SegmentIsWhole(msg);
    var m := Reassemble(fs).value;
    ReassembledChunks(fs, 1);
    forall j | 1 <= j <= NumCf(|msg|) ensures Chunk(m, j) == Chunk(msg, j) {
      ReassembledChunks(fs, j);
      SegFrameCarries(msg, j);
      SameChunk(m, msg, j, fs[j]);
    }
    SameChunks(m, msg, NumCf(|msg|));
    assert m[..|msg|] == m && msg[..|msg|] == msg;
  }

  /** The converse: a whole transfer is the segmentation of its message exactly when its last frame is zero-padded. */
  lemma SegmentReassemble(fs: seq<Frame>)
    requires WholeTransfer(fs)
    ensures var m := Reassemble(fs).value;
            var n := NumCf(|m|);
            Segment(m) == fs <==> forall i :: |Chunk(m, n)| <= i < 7 ==> fs[n].cfData[i] == 0
  {
    var m := Reassemble(fs).value;
    var n := NumCf(|m|);
    var ss := Segment(m);
    ReassembledChunks(fs, 1);
    assert ss[n] == SegFrame(m, n);
    if forall i :: |Chunk(m, n)| <= i < 7 ==> fs[n].cfData[i] == 0 {
      forall k | 0 <= k < |fs| ensures ss[k] == fs[k] {
        if k > 0 {
          ReassembledChunks(fs, k);
          var c := Chunk(m, k);
          assert fs[k].cfData == fs[k].cfData[..|c|] + fs[k].cfData[|c|..];
          assert fs[k].cfData == Pad7(c);
        }
      }
      assert ss == fs;
    }
  }
}
