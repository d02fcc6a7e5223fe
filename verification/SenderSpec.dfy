/** The sending role as a state machine on values: one function per callback of the source,
    and what holds on every run of them. */
module SenderSpec {
  import opened CanTpTypes
  import opened Frames
  import opened Segmentation

  /** The sender's half of a context. */
  datatype Sndr = Sndr(
    state: State, data: seq<byte>, len: uint16, index: nat, sn: byte,
    bsPair: byte, blIndex: byte, stPair: byte, stTimUs: nat, timer: Timer)

  const ZERO_SNDR := Sndr(Idle, [], 0, 0, 0, 0, 0, 0, 0, Stopped)

  /** What one callback does: the new state, the frame handed to the link layer if any, the report to
      the session layer if any, and whether a state change was signalled to a waiting thread. */
  datatype Out = Out(s: Sndr, tx: Option<Frame>, report: Option<Outcome>, gave: bool)

  function Quiet(s: Sndr): Out { Out(s, None, None, false) }

  function Moved(s: Sndr): Out { Out(s, None, None, true) }

  function Remaining(s: Sndr): int { s.len - s.index }

  // ----- The callbacks -----

  function SendMsg(s: Sndr, msg: seq<byte>): Out
    requires |msg| < 0x1_0000
  {
    if |msg| <= SF_DATA then
      Out(s.(timer := Armed(N_As), state := SfSending), Some(SF(|msg|, Pad7(msg))), None, true)
    else
      Out(s.(len := |msg|, data := msg, timer := Armed(N_As), state := FfSending),
          Some(FF(|msg| % 0x1000, msg[..FF_DATA])), None, true)
  }

  /** How many message bytes the next Consecutive Frame takes. */
  function NextCount(s: Sndr): nat
    requires s.index <= s.len
  {
    if Remaining(s) > CF_DATA then CF_DATA else Remaining(s)
  }

  function NextCf(s: Sndr): Frame
    requires s.index <= s.len == |s.data|
  {
    CF(s.sn % 16, Pad7(s.data[s.index..s.index + NextCount(s)]))
  }

  function SendCfAfterCf(s: Sndr): Out
    requires s.index <= s.len == |s.data|
  {
    Out(s.(index := s.index + NextCount(s), timer := Armed(N_As), state := CfSending), Some(NextCf(s)), None, true)
  }

  function SendCfAfterFc(s: Sndr): Out
    requires Remaining(s) > 0 ==> s.len == |s.data|
  {
    var t := s.(timer := Armed(N_As));
    if Remaining(s) <= 0 then Quiet(t)
    else Out(t.(index := s.index + NextCount(s), state := CfSending), Some(NextCf(s)), None, true)
  }

  /** A transmission confirmation, up to the point where the handler sleeps for STmin or returns. */
  function Confirm(s: Sndr): Out {
    match s.state
    case SfSending => Out(s.(state := Idle, timer := Stopped), None, Some(ResultOk), true)
    case FfSending => Moved(s.(timer := Armed(N_Bs), sn := 1, index := FF_DATA, state := FfFcWait))
    case CfSent | CfSending =>
      var t := s.(timer := Stopped);
      if Remaining(t) < 0 then Quiet(t)
      else if Remaining(t) == 0 then Out(t.(state := Idle), None, Some(TxDoneCb), true)
      else
        var u := t.(sn := NextSn(t.sn));
        if u.bsPair > 0 then
          var bl := (u.blIndex + 1) % 256;
          if bl >= u.bsPair then Moved(u.(blIndex := 0, timer := Armed(N_Bs), state := CfFcWait))
          else Moved(u.(blIndex := bl, state := CfSent))
        else Moved(u.(state := CfSent))
    case _ => Quiet(s)
  }

  /** Only the confirmation of a Consecutive Frame can lead on to the next one, silently so far; in the
      states that wait for no confirmation nothing happens. */
  lemma ConfirmEndsElsewhere(s: Sndr)
    ensures Confirm(s).tx == None && (Confirm(s).s.state == CfSent ==> Confirm(s).report == None)
    ensures s.state != CfSending && s.state != CfSent ==> Confirm(s).s.state != CfSent
    ensures s.state !in {SfSending, FfSending, CfSending, CfSent} ==> Confirm(s) == Quiet(s)
  {
  }

  /** Separation time in microseconds from its one-byte code; the other codes are reserved
      (section 9.6.5 of ISO 15765-2:2016). */
  function DecodeSt(st: byte): Option<nat> {
    if st < 0x80 then Some(1000 * st)
    else if 0xf1 <= st <= 0xf9 then Some(100 * (st - 0xf0))
    else None
  }

  /** An accepted Flow Control frame. */
  function FlowControl(s: Sndr, fs: nibble, bs: byte, st: byte): Out
    requires Remaining(s) > 0 ==> s.len == |s.data|
  {
    var t := s.(timer := Armed(N_Cs), bsPair := bs, stPair := st);
    match DecodeSt(st)
    case None => Quiet(t)
    case Some(us) =>
      var u := t.(stTimUs := us);
      if fs == FS_CTS then SendCfAfterFc(u)
      else if fs == FS_WAIT then Quiet(u.(timer := Armed(N_Bs)))
      else Quiet(u)
  }

  /** The timer callback; the timer is one-shot, so it is stopped when the callback starts. */
  function Expire(s: Sndr): Out {
    var t := s.(timer := Stopped);
    match s.state
    case FfSending | CfSending | SfSending => Out(t.(state := Idle), None, Some(TimeoutAs), true)
    case FfFcWait => Out(t.(state := Idle), None, Some(TimeoutBs), true)
    case _ => Quiet(t)
  }

  // ----- Events and runs -----

  /** States in which Flow Control is accepted: as written only after the First Frame; `wide` adds
      the state documented as waiting for Flow Control after a Consecutive Frame. */
  predicate Accepts(wide: bool, st: State) {
    st == FfFcWait || (wide && st == CfFcWait)
  }

  datatype Event =
    | EvSend(msg: seq<byte>)
    | EvConfirm                                // outside the STmin sleep: the handler is not entered a second time
    | EvWake                                   // the STmin sleep inside the confirm handler ends
    | EvFc(fs: nibble, bs: byte, st: byte)     // a Flow Control frame that passed the guard
    | EvExpire

  predicate Enabled(wide: bool, s: Sndr, ev: Event) {
    match ev
    case EvSend(msg) => s.state == Idle && |msg| < 0x1_0000
    case EvConfirm => s.state != CfSent
    case EvWake => s.state == CfSent
    case EvFc(_, _, _) => Accepts(wide, s.state)
    case EvExpire => s.timer.Armed?
  }

  /** Which timer runs in which state at step boundaries. */
  predicate TimerDiscipline(s: Sndr) {
    match s.state
    case Idle | CfSent => s.timer == Stopped
    case SfSending | FfSending | CfSending => s.timer == Armed(N_As)
    case FfFcWait => s.timer == Armed(N_Bs) || s.timer == Armed(N_Cs)
    case CfFcWait => s.timer == Armed(N_Bs) || s.timer == Armed(N_Cs) || s.timer == Stopped
    case _ => false
  }

  predicate CountersOk(s: Sndr) {
    && s.blIndex <= 254
    && (s.state == FfSending ==> s.len == |s.data| > SF_DATA)
    && (s.state == FfFcWait ==> s.len == |s.data| > SF_DATA && s.index == FF_DATA && s.sn == 1)
    && (s.state == CfSending ==> FF_DATA < s.index <= s.len == |s.data| && s.sn <= 15)
    && (s.state == CfSent || s.state == CfFcWait ==> FF_DATA < s.index < s.len == |s.data| && s.sn <= 15)
  }

  /** What every reachable sender state satisfies. */
  predicate Good(s: Sndr) {
    TimerDiscipline(s) && CountersOk(s)
  }

  function Step(wide: bool, s: Sndr, ev: Event): Out
    requires Good(s) && Enabled(wide, s, ev)
  {
    match ev
    case EvSend(msg) => SendMsg(s, msg)
    case EvConfirm => Confirm(s)
    case EvWake => SendCfAfterCf(s)
    case EvFc(fs, bs, st) => FlowControl(s, fs, bs, st)
    case EvExpire => Expire(s)
  }

  /** All frames of one message, in order. */
  function Emission(msg: seq<byte>): (fs: seq<Frame>)
    ensures fs != []
  {
    if |msg| <= SF_DATA then [SF(|msg|, Pad7(msg))] else Segment(msg)
  }

  /** `log`, the frames emitted for `msg` so far, is a prefix of its segmentation, and the
      sender's counters say exactly how long that prefix is. */
  predicate Tracks(s: Sndr, msg: seq<byte>, log: seq<Frame>) {
    && log <= Emission(msg)
    && (s.state == SfSending ==> |msg| <= SF_DATA && |log| == 1)
    && (s.state == FfSending || s.state == FfFcWait || s.state == CfSending || s.state == CfSent
        || s.state == CfFcWait ==>
          |msg| > SF_DATA && s.data == msg)
    && (s.state == FfSending || s.state == FfFcWait ==> |log| == 1)
    && (s.state == CfSending ==>
          |log| >= 2 && s.index == Carried(|msg|, |log| - 1) && s.sn == (|log| - 1) % 16)
    && (s.state == CfSent || s.state == CfFcWait ==>
          2 <= |log| < |Emission(msg)| && s.index == FF_DATA + CF_DATA * (|log| - 1) && s.sn == |log| % 16)
  }

  /** A run's history: the last message, the frames emitted for it, all reports and the number of sends. */
  datatype Hist = Hist(s: Sndr, msg: seq<byte>, log: seq<Frame>, results: seq<Outcome>, sends: nat)

  const START := Hist(ZERO_SNDR, [], [], [], 0)

  predicate HistInv(h: Hist) {
    && Good(h.s)
    && h.sends == |h.results| + (if h.s.state == Idle then 0 else 1)
    && Tracks(h.s, h.msg, h.log)
  }

  function Advance(wide: bool, h: Hist, ev: Event): (r: Hist)
    requires Good(h.s) && Enabled(wide, h.s, ev)
  {
    var o := Step(wide, h.s, ev);
    match ev
    case EvSend(msg) => Hist(o.s, msg, Append([], o.tx), Append(h.results, o.report), h.sends + 1)
    case _ => Hist(o.s, h.msg, Append(h.log, o.tx), Append(h.results, o.report), h.sends)
  }

  // ----- What each callback does and what it leaves alone -----

  /** A send starts N_As and signals; it resets no counter, and a Single Frame does not even take the message over. */
  lemma SendEffect(s: Sndr, msg: seq<byte>)
    requires |msg| < 0x1_0000
    ensures var o := SendMsg(s, msg);
            && o.report == None && o.gave && o.s.timer == Armed(N_As)
            && o.s.index == s.index && o.s.sn == s.sn && o.s.bsPair == s.bsPair && o.s.blIndex == s.blIndex
            && o.s.stPair == s.stPair && o.s.stTimUs == s.stTimUs
            && (|msg| <= 7 ==> o.s.state == SfSending && o.s.data == s.data && o.s.len == s.len
                               && o.tx == Some(SF(|msg|, Pad7(msg))))
            && (|msg| >= 8 ==> o.s.state == FfSending && o.s.data == msg && o.s.len == |msg|
                               && o.tx == Some(FF(|msg| % 4096, msg[..6])))
  {
  }

  /** A confirmation never sends by itself and never touches the message or what the receiver asked for; outside the
      sending states it does nothing at all. */
  lemma ConfirmEffect(s: Sndr)
    ensures var o := Confirm(s);
            && o.tx == None && o.s.data == s.data && o.s.len == s.len
            && o.s.bsPair == s.bsPair && o.s.stPair == s.stPair && o.s.stTimUs == s.stTimUs
            && (s.state != FfSending ==> o.s.index == s.index)
            && (s.state !in {SfSending, FfSending, CfSending, CfSent} ==> o == Quiet(s) && !o.gave)
  {
  }

  /** The First Frame's confirmation: six bytes are out, the next frame is number 1, Flow Control is awaited. */
  lemma ConfirmFirst(s: Sndr)
    requires s.state == FfSending
    ensures var o := Confirm(s);
            && o.s.state == FfFcWait && o.s.timer == Armed(N_Bs) && o.s.sn == 1 && o.s.index == 6
            && o.s.blIndex == s.blIndex && o.report == None && o.gave
  {
  }

  /** A Consecutive Frame's confirmation stops N_As and then ends the message, or counts the frame and ends the block
      exactly when the count reaches the block size; an index beyond the message stops the timer and nothing else. */
  lemma ConfirmCfEffect(s: Sndr)
    requires s.state == CfSending || s.state == CfSent
    ensures var o := Confirm(s);
            && (s.index > s.len ==> o.s == s.(timer := Stopped) && o.report == None && !o.gave)
            && (s.index == s.len ==> o.s == s.(timer := Stopped, state := Idle) && o.report == Some(TxDoneCb) && o.gave)
            && (s.index < s.len ==>
                  && o.report == None && o.gave
                  && o.s.sn == (if s.sn <= 14 then s.sn + 1 else 0)
                  && (s.bsPair == 0 ==> o.s.blIndex == s.blIndex && o.s.state == CfSent && o.s.timer == Stopped)
                  && (s.bsPair > 0 && s.blIndex < s.bsPair - 1 ==>
                        o.s.blIndex == s.blIndex + 1 && o.s.state == CfSent && o.s.timer == Stopped)
                  && (s.bsPair > 0 && s.bsPair - 1 <= s.blIndex <= 254 ==>
                        o.s.blIndex == 0 && o.s.state == CfFcWait && o.s.timer == Armed(N_Bs))
                  && (s.bsPair > 0 && s.blIndex == 255 ==>
                        o.s.blIndex == 0 && o.s.state == CfSent && o.s.timer == Stopped))
  {
  }

  /** Both CF-sending functions change the byte index, the timer and the state, and nothing else. */
  lemma SendCfEffect(s: Sndr)
    requires s.index <= s.len == |s.data|
    ensures var o := SendCfAfterCf(s);
            && o.s == s.(index := Min(s.len, s.index + 7), timer := Armed(N_As), state := CfSending)
            && o.tx.Some? && o.report == None && o.gave
            && (s.index < s.len ==> SendCfAfterFc(s) == o)
  {
  }

  /** The separation time each code byte stands for; 0x80..0xf0 and 0xfa..0xff stand for none. */
  lemma DecodeStValues(st: byte)
    ensures st <= 127 ==> DecodeSt(st) == Some(1000 * st)
    ensures 128 <= st <= 240 || 250 <= st ==> DecodeSt(st) == None
    ensures 241 <= st <= 249 ==> DecodeSt(st) == Some(100 * (st - 240))
  {
  }

  /** Flow Control that is handled always replaces block size, code byte and, unless the code is reserved, separation
      time, and leaves the message and the counters alone. Only status 0 with a valid code sends, and then the next
      frame; status 1 waits again; every other status, and every reserved code, emits nothing, signals nothing, and
      leaves state and index as they are, with N_Cs running. */
  lemma FlowControlEffect(s: Sndr, fs: nibble, bs: byte, st: byte)
    requires s.index < s.len ==> s.len == |s.data|
    ensures var o := FlowControl(s, fs, bs, st);
            var reserved := 128 <= st <= 240 || 250 <= st;
            && o.report == None && o.s.bsPair == bs && o.s.stPair == st
            && o.s.data == s.data && o.s.len == s.len && o.s.sn == s.sn && o.s.blIndex == s.blIndex
            && o.s.stTimUs == (if reserved then s.stTimUs else if st <= 127 then 1000 * st else 100 * (st - 240))
            && (fs == 0 && !reserved && s.index < s.len ==>
                  && o.tx.Some? && o.tx.value.CF? && o.gave
                  && o.s.state == CfSending && o.s.timer == Armed(N_As) && o.s.index == Min(s.len, s.index + 7))
            && (fs >= 1 || reserved || s.index >= s.len ==>
                  o.tx == None && !o.gave && o.s.state == s.state && o.s.index == s.index)
            && (fs == 0 && !reserved ==> o.s.timer == Armed(N_As))
            && (fs == 1 && !reserved ==> o.s.timer == Armed(N_Bs))
            && (fs >= 2 || reserved ==> o.s.timer == Armed(N_Cs))
  {
  }

  /** An expiry stops the timer, changes at most the state, and reports at most once. */
  lemma ExpireEffect(s: Sndr)
    ensures var o := Expire(s);
            && o.tx == None && o.s == s.(timer := Stopped, state := o.s.state)
            && (s.state in {SfSending, FfSending, CfSending} ==>
                  o.s.state == Idle && o.report == Some(TimeoutAs) && o.gave)
            && (s.state == FfFcWait ==> o.s.state == Idle && o.report == Some(TimeoutBs) && o.gave)
            && (s.state !in {SfSending, FfSending, CfSending, FfFcWait} ==>
                  o.s.state == s.state && o.report == None && !o.gave)
  {
  }

  /** A waiting thread is signalled exactly when the state changes. */
  lemma SignalsStateChanges(wide: bool, s: Sndr, ev: Event)
    requires Good(s) && Enabled(wide, s, ev)
    ensures Step(wide, s, ev).gave <==> Step(wide, s, ev).s.state != s.state
  {
    hide NextCf, DecodeSt;
  }

  // ----- What runs keep -----

  /** The segment a CF-sending function emits is the next one of the segmentation. */
  lemma NextCfIsNextSegment(s: Sndr, msg: seq<byte>, k: nat)
    requires 8 <= |msg| && s.data == msg && s.len == |msg|
    requires 1 <= k <= NumCf(|msg|)
    requires s.index == FF_DATA + CF_DATA * (k - 1) && s.sn == k % 16
    ensures NextCf(s) == SegFrame(msg, k)
    ensures s.index + NextCount(s) == Carried(|msg|, k)
  {
  }

  lemma TracksAppend(msg: seq<byte>, log: seq<Frame>, f: Frame)
    requires |msg| >= 8 && log <= Segment(msg) && |log| <= NumCf(|msg|) && f == SegFrame(msg, |log|)
    ensures log + [f] <= Segment(msg)
  {
  }

  /** Every event keeps the counters and the timer in order; a message in progress ends exactly with a report. */
  lemma StepKeepsGood(wide: bool, s: Sndr, ev: Event)
    requires Good(s) && Enabled(wide, s, ev)
    ensures var o := Step(wide, s, ev);
            && Good(o.s)
            && Count(o.report) + (if o.s.state == Idle then 0 else 1)
               == (if s.state == Idle then 0 else 1) + (if ev.EvSend? then 1 else 0)
  {
    hide NextCf;
  }

  lemma SendTracks(s: Sndr, msg: seq<byte>)
    requires |msg| < 0x1_0000
    ensures SendMsg(s, msg).tx.Some? && Tracks(SendMsg(s, msg).s, msg, Append([], SendMsg(s, msg).tx))
  {
    if |msg| > SF_DATA {
      assert Segment(msg)[0] == SegFrame(msg, 0);
    }
  }

  lemma ConfirmTracks(s: Sndr, msg: seq<byte>, log: seq<Frame>)
    requires Good(s) && Tracks(s, msg, log) && s.state != CfSent
    ensures Tracks(Confirm(s).s, msg, log)
  {
    hide Segment, Pad7, Chunk, SegFrame;
    if s.state == CfSending && Remaining(s) > 0 {
      assert s.index == FF_DATA + CF_DATA * (|log| - 1) < |msg|;
      assert NextSn(s.sn) == |log| % 16;
    }
  }

  lemma StaleCounts(s: Sndr, e: nat)
    requires Good(s) && s.state == CfSent && s.sn == e % 16
    ensures Confirm(s).s.state == CfSent || Confirm(s).s.state == CfFcWait
    ensures Confirm(s).s.sn == (e + 1) % 16 != e % 16
  {
  }

  /** A confirmation keeps the counters in step with the emitted frames exactly when it does not come during the
      STmin sleep, where it would count a frame that was already counted. That sleep is part of the handler, so only
      a handler entered a second time can see such a confirmation. */
  lemma ConfirmTracksExactly(s: Sndr, msg: seq<byte>, log: seq<Frame>)
    requires Good(s) && Tracks(s, msg, log)
    ensures Tracks(Confirm(s).s, msg, log) <==> s.state != CfSent
  {
    hide Segment, Pad7, Chunk, SegFrame, Emission, NumCf, Carried;
    if s.state == CfSent {
      StaleCounts(s, |log|);
    } else {
      hide Tracks;
      ConfirmTracks(s, msg, log);
    }
  }

  /** Why such a confirmation must not come: with the last frame to be sent, the two handlers then asleep each send
      and are each confirmed, and the one message is reported done twice. */
  lemma ReentryReportsTwice(s: Sndr)
    requires Good(s) && s.state == CfSent && s.bsPair == 0 && Remaining(s) <= CF_DATA
    ensures var stale := Confirm(s);
            var first := SendCfAfterCf(stale.s);
            var done := Confirm(first.s);
            stale.s.state == CfSent && done.s.index == done.s.len == |done.s.data| && done.report == Some(TxDoneCb)
            && var second := SendCfAfterCf(done.s);
               second.tx.Some? && Confirm(second.s).report == Some(TxDoneCb)
  {
    hide NextCf;
  }

  lemma SilentStepTracks(wide: bool, s: Sndr, ev: Event, msg: seq<byte>, log: seq<Frame>)
    requires Good(s) && Enabled(wide, s, ev) && Tracks(s, msg, log) && !ev.EvSend?
    requires Step(wide, s, ev).tx == None
    ensures Tracks(Step(wide, s, ev).s, msg, log)
  {
    if ev.EvConfirm? {
      ConfirmTracks(s, msg, log);
    }
    hide Segment, NextCf, SendMsg, DecodeSt, Confirm;
  }

  /** Whichever function sends a Consecutive Frame, it sends the next one and counts its bytes. */
  lemma EmittingStepIs(wide: bool, s: Sndr, ev: Event)
    requires Good(s) && Enabled(wide, s, ev) && !ev.EvSend?
    requires Step(wide, s, ev).tx != None
    ensures s.state == FfFcWait || s.state == CfSent || s.state == CfFcWait
    ensures var o := Step(wide, s, ev);
            && o.tx == Some(NextCf(s)) && o.s.state == CfSending && o.s.sn == s.sn
            && o.s.index == s.index + NextCount(s) && o.s.data == s.data
  {
    hide Pad7;
  }

  /** A sender about to send a Consecutive Frame has sent some of the segmentation, but not all of it. */
  lemma EmittingFrom(s: Sndr, msg: seq<byte>, log: seq<Frame>)
    requires Good(s) && Tracks(s, msg, log) && (s.state == FfFcWait || s.state == CfSent || s.state == CfFcWait)
    ensures |msg| > SF_DATA && Emission(msg) == Segment(msg)
    ensures 1 <= |log| <= NumCf(|msg|) && |log| < |Emission(msg)|
    ensures s.data == msg && s.len == |msg| && s.index == FF_DATA + CF_DATA * (|log| - 1) && s.sn == |log| % 16
  {
    hide SegFrame, Pad7;
  }

  lemma EmittingStepTracks(wide: bool, s: Sndr, ev: Event, msg: seq<byte>, log: seq<Frame>)
    requires Good(s) && Enabled(wide, s, ev) && Tracks(s, msg, log) && !ev.EvSend?
    requires Step(wide, s, ev).tx != None
    ensures 1 <= |log| < |Emission(msg)| && |msg| > SF_DATA
    ensures Step(wide, s, ev).tx == Some(SegFrame(msg, |log|))
    ensures Tracks(Step(wide, s, ev).s, msg, log + [SegFrame(msg, |log|)])
  {
    hide Step, Enabled, NextCf, SegFrame, Segment, Emission, Pad7, NumCf;
    EmittingStepIs(wide, s, ev);
    EmittingFrom(s, msg, log);
    NextCfIsNextSegment(s, msg, |log|);
    TracksAppend(msg, log, SegFrame(msg, |log|));
  }

  /** Every event keeps the emitted frames a prefix of the segmentation, whichever of the two
      CF-sending functions produced the frame. */
  lemma StepKeeps(wide: bool, s: Sndr, ev: Event, msg: seq<byte>, log: seq<Frame>)
    requires Good(s) && Enabled(wide, s, ev) && Tracks(s, msg, log)
    ensures var o := Step(wide, s, ev);
            && Good(o.s)
            && Count(o.report) + (if o.s.state == Idle then 0 else 1)
               == (if s.state == Idle then 0 else 1) + (if ev.EvSend? then 1 else 0)
            && (if ev.EvSend? then o.tx.Some? && Tracks(o.s, ev.msg, Append([], o.tx))
                else Tracks(o.s, msg, Append(log, o.tx)))
  {
    StepKeepsGood(wide, s, ev);
    var o := Step(wide, s, ev);
    if ev.EvSend? {
      SendTracks(s, ev.msg);
    } else if o.tx == None {
      SilentStepTracks(wide, s, ev, msg, log);
    } else {
      EmittingStepTracks(wide, s, ev, msg, log);
    }
  }

  /** The history after a sequence of events, if each was enabled when it came. */
  function Run(wide: bool, evs: seq<Event>): (h: Option<Hist>)
    ensures h.Some? ==> HistInv(h.value)
  {
    if evs == [] then Some(START) else
      var k := |evs| - 1;
      match Run(wide, evs[..k])
      case None => None
      case Some(h) =>
        if Enabled(wide, h.s, evs[k]) then
          StepKeeps(wide, h.s, evs[k], h.msg, h.log);
          Some(Advance(wide, h, evs[k]))
        else None
  }

  // ----- Runs, in terms of their events -----

  /** A run's last event, unfolded. */
  lemma LastStep(wide: bool, evs: seq<Event>)
    requires evs != [] && Run(wide, evs).Some?
    ensures var k := |evs| - 1;
            && Run(wide, evs[..k]).Some?
            && Enabled(wide, Run(wide, evs[..k]).value.s, evs[k])
            && Run(wide, evs).value == Advance(wide, Run(wide, evs[..k]).value, evs[k])
  {
  }

  function Sends(evs: seq<Event>): nat {
    if evs == [] then 0 else Sends(evs[..|evs| - 1]) + if evs[|evs| - 1].EvSend? then 1 else 0
  }

  /** The message sent last. */
  function LastSent(evs: seq<Event>): seq<byte> {
    if evs == [] then []
    else if evs[|evs| - 1].EvSend? then evs[|evs| - 1].msg
    else LastSent(evs[..|evs| - 1])
  }

  lemma {:induction false} HistoryOfEvents(wide: bool, evs: seq<Event>)
    requires Run(wide, evs).Some?
    ensures Run(wide, evs).value.sends == Sends(evs) && Run(wide, evs).value.msg == LastSent(evs)
  {
    if evs != [] {
      LastStep(wide, evs);
      HistoryOfEvents(wide, evs[..|evs| - 1]);
      hide Step, Tracks, Good, Run;
    }
  }

  /** Conservation: in any order of confirmations outside the STmin sleep, Flow Control and expiries, every message
      sent has been reported exactly once, except one that is still in progress, which has not. */
  lemma OutcomesConserved(wide: bool, evs: seq<Event>)
    requires Run(wide, evs).Some?
    ensures var h := Run(wide, evs).value;
            Sends(evs) == |h.results| + (if h.s.state == Idle then 0 else 1)
  {
    HistoryOfEvents(wide, evs);
  }

  lemma PrefixSegments(s: Sndr, msg: seq<byte>, log: seq<Frame>, k: nat)
    requires Tracks(s, msg, log) && k < |log|
    ensures |log| <= (if |msg| <= SF_DATA then 1 else NumCf(|msg|) + 1)
    ensures log[k] == if |msg| <= SF_DATA then SF(|msg|, Pad7(msg)) else SegFrame(msg, k)
  {
    hide Pad7, SegFrame;
    assert log[k] == Emission(msg)[k];
  }

  /** Whatever the schedule, the sender emits the segmentation of its message in order: the First Frame with the
      length and six bytes, then Consecutive Frames numbered modulo 16, with seven bytes each, zero-padded. */
  lemma EmitsSegmentation(wide: bool, evs: seq<Event>, k: nat)
    requires Run(wide, evs).Some? && k < |Run(wide, evs).value.log|
    ensures var msg, log := LastSent(evs), Run(wide, evs).value.log;
            && |log| <= (if |msg| <= SF_DATA then 1 else NumCf(|msg|) + 1)
            && log[k] == if |msg| <= SF_DATA then SF(|msg|, Pad7(msg))
                         else if k == 0 then FF(|msg| % 0x1000, msg[..FF_DATA])
                         else CF(k % 16, Pad7(msg[FF_DATA + CF_DATA * (k - 1)..Min(|msg|, FF_DATA + CF_DATA * k)]))
  {
    hide Pad7, Run, Good;
    HistoryOfEvents(wide, evs);
    PrefixSegments(Run(wide, evs).value.s, LastSent(evs), Run(wide, evs).value.log, k);
  }

  /** The whole confirm handler: confirmation, sleep, next Consecutive Frame. */
  function ConfirmAndSend(s: Sndr): Out
    requires s.state == CfSending || s.state == CfSent ==> s.index <= s.len == |s.data|
  {
    var o := Confirm(s);
    if o.gave && o.s.state == CfSent then SendCfAfterCf(o.s) else o
  }

  // ----- Timers -----

  /** One expiry ends the transmission with exactly one report from every state with a running timer
      except the wait after a full block, where the callback has no case and nothing is reported. */
  lemma ExpiryReports(s: Sndr)
    requires Good(s) && s.timer.Armed?
    ensures Expire(s).s.timer == Stopped
    ensures Expire(s).s.state == Idle <==> s.state != CfFcWait
    ensures Expire(s).report == match s.state
                                case FfFcWait => Some(TimeoutBs)
                                case CfFcWait => None
                                case _ => Some(TimeoutAs)
  {
  }

  /** Flow Control that neither lets the sender continue nor makes it wait again. */
  predicate Refused(fs: nibble, st: byte) {
    DecodeSt(st).None? || fs >= FS_OVF
  }

  /** The latest event, confirmations aside, is a refused Flow Control frame. */
  predicate EndsRefused(evs: seq<Event>) {
    && evs != []
    && var ev := evs[|evs| - 1];
       match ev
       case EvFc(fs, _, st) => Refused(fs, st)
       case EvConfirm => EndsRefused(evs[..|evs| - 1])
       case _ => false
  }

  lemma OnlySendStarts(wide: bool, s: Sndr, ev: Event)
    requires Good(s) && Enabled(wide, s, ev)
    ensures Step(wide, s, ev).s.state == FfSending ==> ev.EvSend?
  {
    hide NextCf, DecodeSt;
  }

  /** The First Frame is unconfirmed only right after the send. */
  lemma SendingWasSent(wide: bool, evs: seq<Event>)
    requires Run(wide, evs).Some? && Run(wide, evs).value.s.state == FfSending
    ensures evs != [] && evs[|evs| - 1].EvSend?
  {
    var k := |evs| - 1;
    LastStep(wide, evs);
    OnlySendStarts(wide, Run(wide, evs[..k]).value.s, evs[k]);
    hide Step, Tracks, Run;
  }

  /** On every run, the wait after the First Frame is timed by N_Bs, and by N_Cs exactly when the
      latest Flow Control frame had a reserved STmin, an overflow or an undefined flow status. */
  lemma {:induction false} WaitTimer(wide: bool, evs: seq<Event>)
    requires Run(wide, evs).Some? && Run(wide, evs).value.s.state == FfFcWait
    ensures Run(wide, evs).value.s.timer == if EndsRefused(evs) then Armed(N_Cs) else Armed(N_Bs)
  {
    var k := |evs| - 1;
    var h := Run(wide, evs[..k]).value;
    match evs[k] {
      case EvConfirm =>
        if h.s.state == FfFcWait {
          WaitTimer(wide, evs[..k]);
        } else {
          SendingWasSent(wide, evs[..k]);
        }
      case _ =>
    }
  }

  // ----- The guard as written -----

  lemma StuckStep(h: Hist, ev: Event)
    requires Good(h.s) && h.s.state == CfFcWait && Enabled(false, h.s, ev)
    ensures var h' := Advance(false, h, ev);
            h' == h.(s := h.s.(timer := h'.s.timer))
  {
  }

  /** As written, nothing that can happen to a sender waiting after a full block moves it: no confirmation,
      Flow Control frame or timer expiry changes its state or counters, sends a frame or reports an outcome. */
  lemma {:induction false} StuckAfterBlock(evs: seq<Event>, more: seq<Event>)
    requires Run(false, evs).Some? && Run(false, evs).value.s.state == CfFcWait
    requires Run(false, evs + more).Some?
    ensures var h, h' := Run(false, evs).value, Run(false, evs + more).value;
            h' == h.(s := h.s.(timer := h'.s.timer))
  {
    if more == [] {
      assert evs + more == evs;
    } else {
      var k := |more| - 1;
      var all := evs + more;
      assert all[..|all| - 1] == evs + more[..k] && all[|all| - 1] == more[k];
      LastStep(false, all);
      StuckAfterBlock(evs, more[..k]);
      StuckStep(Run(false, evs + more[..k]).value, more[k]);
    }
  }
}
