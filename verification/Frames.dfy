/** The eight-byte wire layout of the four protocol frames (Table 8 in section 9.6 of ISO 15765-2:2016).
    Byte 0 holds the frame type in its high nibble and a type-specific nibble in its low one. */
module Frames {
  import opened CanTpTypes

  const PCI_SF: nibble := 0
  const PCI_FF: nibble := 1
  const PCI_CF: nibble := 2
  const PCI_FC: nibble := 3

  const FS_CTS: nibble := 0
  const FS_WAIT: nibble := 1
  const FS_OVF: nibble := 2

  type len12 = x: int | 0 <= x < 0x1000

  datatype Frame =
    | SF(sfLen: nibble, sfData: payload7)
    | FF(ffLen: len12, ffData: payload6)
    | CF(sn: nibble, cfData: payload7)
    | FC(fs: nibble, bs: byte, st: byte)
    | Other(pci: nibble, low: nibble, rest: payload7)

  /** `Other` stands only for the frame types the protocol does not define. */
  predicate Proper(f: Frame) {
    f.Other? ==> f.pci > PCI_FC
  }

  function High(b: byte): nibble { b / 16 }

  function Low(b: byte): nibble { b % 16 }

  /** A bit-field store into the high nibble. */
  function WithHigh(b: byte, n: nibble): byte { n * 16 + b % 16 }

  /** A bit-field store into the low nibble. */
  function WithLow(b: byte, n: nibble): byte { b / 16 * 16 + n }

  /** The two nibbles of byte 0 never disturb each other, in either order of writing. */
  lemma NibblesIndependent(b: byte, hi: nibble, lo: nibble)
    ensures WithLow(WithHigh(b, hi), lo) == WithHigh(WithLow(b, lo), hi) == hi * 16 + lo
    ensures High(WithHigh(b, hi)) == hi && Low(WithHigh(b, hi)) == Low(b)
    ensures Low(WithLow(b, lo)) == lo && High(WithLow(b, lo)) == High(b)
  {
  }

  function LenHigh(len: uint16): nibble { len / 0x100 % 0x10 }

  function LenLow(len: uint16): byte { len % 0x100 }

  /** The two length fields keep the low twelve bits. */
  lemma LenBytes(len: uint16)
    ensures LenHigh(len % 0x1000) == LenHigh(len) && LenLow(len % 0x1000) == LenLow(len)
  {
    var k, r := len / 0x1000, len % 0x1000;
    assert len == 0x1000 * k + r;
    assert len / 0x100 == 0x10 * k + r / 0x100;
    assert len % 0x100 == r % 0x100;
  }

  function FfLen(b: wire): len12 { Low(b[0]) * 0x100 + b[1] }

  function Encode(f: Frame): (b: wire)
    requires Proper(f)
  {
    match f
    case SF(len, d) => [PCI_SF * 16 + len] + d
    case FF(len, d) => [PCI_FF * 16 + LenHigh(len), LenLow(len)] + d
    case CF(sn, d) => [PCI_CF * 16 + sn] + d
    case FC(fs, bs, st) => [PCI_FC * 16 + fs, bs, st] + Zeros(5)
    case Other(pci, low, rest) => [pci * 16 + low] + rest
  }

  /** Frames in the form in which they are handed to the link layer. */
  function Wires(fs: seq<Frame>): (ws: seq<wire>)
    requires forall i :: 0 <= i < |fs| ==> Proper(fs[i])
    ensures |ws| == |fs|
    ensures forall i :: 0 <= i < |fs| ==> ws[i] == Encode(fs[i])
  {
    seq(|fs|, i requires 0 <= i < |fs| => Encode(fs[i]))
  }

  function Decode(b: wire): (f: Frame)
    ensures Proper(f)
  {
    var t := High(b[0]);
    if t == PCI_SF then SF(Low(b[0]), b[1..])
    else if t == PCI_FF then FF(FfLen(b), b[2..])
    else if t == PCI_CF then CF(Low(b[0]), b[1..])
    else if t == PCI_FC then FC(Low(b[0]), b[1], b[2])
    else Other(t, Low(b[0]), b[1..])
  }

  /** The bytes on the wire, by number: types 0 to 3 in the high nibble of byte 0, twelve bits of length, the
      sequence number or the flow status in the low nibble, and everything else in its place. */
  lemma WireLayout(f: Frame)
    requires Proper(f)
    ensures var b := Encode(f);
            match f
            case SF(n, d) => b[0] == 0x00 + n && b[1..] == d
            case FF(len, d) => b[0] == 0x10 + len / 256 && b[1] == len % 256 && b[2..] == d
            case CF(sn, d) => b[0] == 0x20 + sn && b[1..] == d
            case FC(fs, bs, st) => b == [0x30 + fs, bs, st, 0, 0, 0, 0, 0]
            case Other(pci, low, rest) => pci >= 4 && b[0] == 16 * pci + low && b[1..] == rest
  {
    match f
    case FF(len, d) => assert len / 0x100 % 0x10 == len / 256;
    case FC(fs, bs, st) => assert Zeros(5) == [0, 0, 0, 0, 0];
    case _ =>
  }

  /** What a receiver makes of each value of byte 0. */
  lemma WireTypes(b: wire)
    ensures var t: int, l: int := b[0], b[1];
            Decode(b) == if t <= 0x0f then SF(t, b[1..])
                         else if t <= 0x1f then FF((t - 0x10) * 256 + l, b[2..])
                         else if t <= 0x2f then CF(t - 0x20, b[1..])
                         else if t <= 0x3f then FC(t - 0x30, l, b[2])
                         else Other(t / 16, t % 16, b[1..])
  {
  }

  /** What is encoded is decoded, whatever the type and the field values. */
  lemma DecodeEncode(f: Frame)
    requires Proper(f)
    ensures Decode(Encode(f)) == f
  {
    var b := Encode(f);
    match f
    case SF(len, d) => assert b[1..] == d;
    case FF(len, d) => assert b[2..] == d;
    case CF(sn, d) => assert b[1..] == d;
    case FC(fs, bs, st) =>
    case Other(pci, low, rest) => assert b[1..] == rest;
  }

  /** Decoding loses nothing except the five unused bytes of a flow-control frame. */
  lemma EncodeDecode(b: wire)
    ensures Encode(Decode(b)) == if High(b[0]) == PCI_FC then b[..3] + Zeros(5) else b
  {
    var c := Encode(Decode(b));
    if High(b[0]) == PCI_FC {
      assert c == b[..3] + Zeros(5);
    } else {
      assert c[0] == b[0];
      assert c == b;
    }
  }

  /** The setter keeps the frame type and stores the length modulo 4096: the getter returns
      the length that was set exactly for lengths of at most 4095. */
  lemma FfLenRoundTrip(b: wire, len: uint16)
    ensures var c := b[0 := WithLow(b[0], LenHigh(len))][1 := LenLow(len)];
            && FfLen(c) == len % 0x1000
            && High(c[0]) == High(b[0])
            && (FfLen(c) == len <==> len <= 4095)
  {
    assert len % 0x1000 == len / 0x100 % 0x10 * 0x100 + len % 0x100;
  }

  method FfLenSet(frame: array<byte>, len: uint16)
    requires frame.Length == 8
    modifies frame
    ensures frame[..] == old(frame[..])[0 := WithLow(old(frame[0]), LenHigh(len))][1 := LenLow(len)]
  {
    frame[0] := WithLow(frame[0], LenHigh(len));
    frame[1] := LenLow(len);
  }

  method FfLenGet(frame: array<byte>) returns (len: uint16)
    requires frame.Length == 8
    ensures len == FfLen(frame[..])
  {
    len := Low(frame[0]) * 0x100 + frame[1];
  }

  /** What is set is got back, up to the twelve bits there are, and the rest of the frame is left alone. */
  method FfLenSetGet(frame: array<byte>, len: uint16) returns (got: uint16)
    requires frame.Length == 8
    modifies frame
    ensures got == len % 0x1000 && (got == len <==> len <= 4095)
    ensures High(frame[0]) == High(old(frame[0])) && frame[2..] == old(frame[2..])
  {
    FfLenRoundTrip(frame[..], len);
    FfLenSet(frame, len);
    got := FfLenGet(frame);
    assert frame[2..] == frame[..][2..] == old(frame[..])[2..];
  }
}
