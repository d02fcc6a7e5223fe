/** Value types shared by both roles of the transport layer: bytes, states, timers and outcomes. */
module CanTpTypes {

  type byte = x: int | 0 <= x < 256
  type nibble = x: int | 0 <= x < 16
  type uint16 = x: int | 0 <= x < 0x1_0000

  /** A classic CAN frame always carries eight data bytes here. */
  type wire = b: seq<byte> | |b| == 8 witness [0, 0, 0, 0, 0, 0, 0, 0]
  type payload6 = d: seq<byte> | |d| == 6 witness [0, 0, 0, 0, 0, 0]
  type payload7 = d: seq<byte> | |d| == 7 witness [0, 0, 0, 0, 0, 0, 0]

  const SF_DATA := 7
  const FF_DATA := 6
  const CF_DATA := 7

  /** N_As, N_Bs, N_Cs, N_Ar, N_Br and N_Cr all last 1000 ms. */
  const TIMER_US := 1_000_000

  datatype Option<+T> = None | Some(value: T)

  datatype State =
    | Idle | SfSending | FfSending | FfSent | FfRcvd | FfFcWait | FcSending | FcSent
    | FcRcvd | CfWait | CfSending | CfSent | CfFcWait | TxDone | RxDone

  datatype TimerLabel = N_As | N_Bs | N_Cs | N_Ar | N_Br | N_Cr

  /** A one-shot timer: its callback runs only while it is armed. */
  datatype Timer = Stopped | Armed(name: TimerLabel)

  /** What the sender reports to the session layer, one per finished transmission. */
  datatype Outcome = ResultOk | TxDoneCb | TimeoutAs | TimeoutBs

  function Count<T>(o: Option<T>): nat {
    if o.Some? then 1 else 0
  }

  function Append<T>(s: seq<T>, o: Option<T>): seq<T> {
    if o.Some? then s + [o.value] else s
  }

  function Min(a: int, b: int): int {
    if a <= b then a else b
  }

  /** The frame's unused tail: `n` zero bytes. */
  function Zeros(n: nat): (z: seq<byte>)
    ensures |z| == n
    ensures forall i :: 0 <= i < n ==> z[i] == 0
  {
    seq(n, _ => 0)
  }

  /** The four-bit sequence number after `sn`, as both roles compute it. */
  function NextSn(sn: byte): (r: byte)
    ensures sn <= 15 ==> r == (sn + 1) % 16
    ensures sn > 15 ==> r == 0
  {
    if (sn + 1) % 256 > 0x0f then 0 else (sn + 1) % 256
  }
}
