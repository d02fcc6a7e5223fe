/** The sender against a clock: Consecutive Frames that follow each other without Flow Control in between
    are at least the separation time apart that the receiver last asked for. */
module Pacing {
  import opened CanTpTypes
  import opened SenderSpec
  import P = ParamsSpec

  /** A callback and the time in microseconds at which it runs. */
  datatype Timed = Timed(at: nat, ev: Event)

  /** The sender, the time of its last event, and the time before which its STmin sleep does not end. */
  datatype Clocked = Clocked(s: Sndr, now: nat, wakeAt: nat)

  /** Time does not run backwards, and a sleep lasts at least as long as was asked for. */
  predicate OnTime(wide: bool, h: Clocked, e: Timed) {
    h.now <= e.at && Enabled(wide, h.s, e.ev) && (e.ev.EvWake? ==> h.wakeAt <= e.at)
  }

  function Next(wide: bool, h: Clocked, e: Timed): Clocked
    requires Good(h.s) && OnTime(wide, h, e)
  {
    var s := Step(wide, h.s, e.ev).s;
    Clocked(s, e.at, if e.ev.EvConfirm? && s.state == CfSent then e.at + s.stTimUs else h.wakeAt)
  }

  function TimedRun(wide: bool, es: seq<Timed>): (h: Option<Clocked>)
    ensures h.Some? ==> Good(h.value.s)
  {
    if es == [] then Some(Clocked(ZERO_SNDR, 0, 0)) else
      var k := |es| - 1;
      match TimedRun(wide, es[..k])
      case None => None
      case Some(h) =>
        if OnTime(wide, h, es[k]) then
          StepKeepsGood(wide, h.s, es[k].ev);
          Some(Next(wide, h, es[k]))
        else None
  }

  /** The separation time that the latest Flow Control frame with a valid code asks for. */
  function AskedSt(es: seq<Timed>): nat {
    if es == [] then 0 else
      var k := |es| - 1;
      match es[k].ev
      case EvFc(_, _, st) => if DecodeSt(st).Some? then DecodeSt(st).value else AskedSt(es[..k])
      case _ => AskedSt(es[..k])
  }

  /** Event k of the run makes the sender transmit a Consecutive Frame. */
  predicate SendsCf(wide: bool, es: seq<Timed>, k: nat)
    requires k < |es|
  {
    && TimedRun(wide, es[..k]).Some?
    && Enabled(wide, TimedRun(wide, es[..k]).value.s, es[k].ev)
    && var tx := Step(wide, TimedRun(wide, es[..k]).value.s, es[k].ev).tx;
       tx.Some? && tx.value.CF?
  }

  /** How many Consecutive Frames events i + 1, ..., j transmit. */
  function CfsAfter(wide: bool, es: seq<Timed>, i: nat, j: nat): nat
    requires i <= j < |es|
    decreases j
  {
    if i == j then 0 else CfsAfter(wide, es, i, j - 1) + if SendsCf(wide, es, j) then 1 else 0
  }

  lemma {:induction false} PrefixRuns(wide: bool, es: seq<Timed>, k: nat)
    requires TimedRun(wide, es).Some? && k <= |es|
    ensures TimedRun(wide, es[..k]).Some?
    decreases |es|
  {
    if k < |es| {
      PrefixRuns(wide, es[..|es| - 1], k);
      assert es[..|es| - 1][..k] == es[..k];
    } else {
      assert es[..k] == es;
    }
  }

  /** The state after k + 1 events comes from the one after k. */
  lemma EventAt(wide: bool, es: seq<Timed>, k: nat)
    requires TimedRun(wide, es).Some? && k < |es|
    ensures TimedRun(wide, es[..k]).Some? && OnTime(wide, TimedRun(wide, es[..k]).value, es[k])
    ensures TimedRun(wide, es[..k + 1]) == Some(Next(wide, TimedRun(wide, es[..k]).value, es[k]))
  {
    hide Good, Enabled, Step, OnTime, Next;
    PrefixRuns(wide, es, k + 1);
    assert es[..k + 1][..k] == es[..k];
  }

  lemma StepSt(wide: bool, s: Sndr, ev: Event)
    requires Good(s) && Enabled(wide, s, ev)
    ensures var st := Step(wide, s, ev).s.stTimUs;
            if ev.EvFc? && DecodeSt(ev.st).Some? then st == DecodeSt(ev.st).value else st == s.stTimUs
  {
    hide NextCf, DecodeSt;
  }

  /** The separation time the sender uses is the one asked for, over whole runs: nothing but Flow Control
      with a valid code changes it, and such Flow Control always does. */
  lemma {:induction false} UsesAskedSt(wide: bool, es: seq<Timed>)
    requires TimedRun(wide, es).Some?
    ensures TimedRun(wide, es).value.s.stTimUs == AskedSt(es)
  {
    if es != [] {
      var k := |es| - 1;
      EventAt(wide, es, k);
      assert es[..k + 1] == es;
      UsesAskedSt(wide, es[..k]);
      StepSt(wide, TimedRun(wide, es[..k]).value.s, es[k].ev);
      hide Step, Enabled, Good, DecodeSt;
    }
  }

  /** Apart from Flow Control, only waking up sends a Consecutive Frame, and only a confirmation leads to sleep. */
  lemma StepSleeps(wide: bool, s: Sndr, ev: Event)
    requires Good(s) && Enabled(wide, s, ev) && !ev.EvFc?
    ensures var o := Step(wide, s, ev);
            && (o.tx.Some? && o.tx.value.CF? <==> ev.EvWake?)
            && (o.s.state == CfSent ==> ev.EvConfirm? || (s.state == CfSent && !ev.EvWake?))
  {
  }

  /** While `n` frames have followed at distance `st`, a sleeping sender does not wake before the next is due. */
  predicate Spaced(h: Clocked, start: nat, n: nat, st: nat) {
    start + n * st <= h.now && (h.s.state == CfSent ==> start + (n + 1) * st <= h.wakeAt)
  }

  lemma WakeEndsSleep(wide: bool, s: Sndr)
    requires Good(s) && Enabled(wide, s, EvWake)
    ensures s.state == CfSent && Step(wide, s, EvWake).s.state == CfSending
  {
    hide NextCf;
  }

  lemma NextSpaced(wide: bool, h: Clocked, e: Timed, start: nat, n: nat)
    requires Good(h.s) && OnTime(wide, h, e) && !e.ev.EvFc? && Spaced(h, start, n, h.s.stTimUs)
    ensures var tx := Step(wide, h.s, e.ev).tx;
            Spaced(Next(wide, h, e), start, if tx.Some? && tx.value.CF? then n + 1 else n, h.s.stTimUs)
  {
    StepSleeps(wide, h.s, e.ev);
    StepSt(wide, h.s, e.ev);
    P.Distribute(n, h.s.stTimUs);
    hide Step, Good;
    if e.ev.EvWake? {
      WakeEndsSleep(wide, h.s);
    }
  }

  lemma CfMeansSending(wide: bool, s: Sndr, ev: Event)
    requires Good(s) && Enabled(wide, s, ev)
    ensures var o := Step(wide, s, ev); o.tx.Some? && o.tx.value.CF? ==> o.s.state == CfSending
  {
    hide NextCf;
  }

  lemma FirstSpaced(wide: bool, es: seq<Timed>, i: nat)
    requires TimedRun(wide, es).Some? && i < |es| && SendsCf(wide, es, i)
    ensures TimedRun(wide, es[..i + 1]).Some?
    ensures Spaced(TimedRun(wide, es[..i + 1]).value, es[i].at, 0, AskedSt(es[..i + 1]))
  {
    EventAt(wide, es, i);
    CfMeansSending(wide, TimedRun(wide, es[..i]).value.s, es[i].ev);
    assert 0 * AskedSt(es[..i + 1]) == 0;
    hide Step, Good, Enabled, AskedSt, TimedRun;
  }

  lemma SpacedStep(wide: bool, es: seq<Timed>, j: nat, start: nat, n: nat)
    requires TimedRun(wide, es).Some? && j < |es| && !es[j].ev.EvFc?
    requires TimedRun(wide, es[..j]).Some? && Spaced(TimedRun(wide, es[..j]).value, start, n, AskedSt(es[..j]))
    ensures TimedRun(wide, es[..j + 1]).Some? && AskedSt(es[..j + 1]) == AskedSt(es[..j])
    ensures var n' := if SendsCf(wide, es, j) then n + 1 else n;
            Spaced(TimedRun(wide, es[..j + 1]).value, start, n', AskedSt(es[..j]))
  {
    hide Spaced, Step, TimedRun, Good, Enabled, Next;
    EventAt(wide, es, j);
    UsesAskedSt(wide, es[..j]);
    assert es[..j + 1][..j] == es[..j];
    NextSpaced(wide, TimedRun(wide, es[..j]).value, es[j], start, n);
  }

  lemma {:induction false} SpacedAlong(wide: bool, es: seq<Timed>, i: nat, j: nat)
    requires TimedRun(wide, es).Some? && i <= j < |es| && SendsCf(wide, es, i)
    requires forall k :: i < k <= j ==> !es[k].ev.EvFc?
    ensures TimedRun(wide, es[..j + 1]).Some? && AskedSt(es[..j + 1]) == AskedSt(es[..i + 1])
    ensures Spaced(TimedRun(wide, es[..j + 1]).value, es[i].at, CfsAfter(wide, es, i, j), AskedSt(es[..i + 1]))
    decreases j
  {
    hide Spaced, Step, TimedRun, Good, Enabled, OnTime, Next, AskedSt, SendsCf;
    if i == j {
      FirstSpaced(wide, es, i);
    } else {
      SpacedAlong(wide, es, i, j - 1);
      SpacedStep(wide, es, j, es[i].at, CfsAfter(wide, es, i, j - 1));
    }
  }

  /** Pacing over whole runs: from one Consecutive Frame on, as long as no Flow Control is handled, the next
      m frames take at least m separation times; in particular any two neighbours are one apart. */
  lemma CfsArePaced(wide: bool, es: seq<Timed>, i: nat, j: nat)
    requires TimedRun(wide, es).Some? && i <= j < |es| && SendsCf(wide, es, i)
    requires forall k :: i < k <= j ==> !es[k].ev.EvFc?
    ensures es[j].at - es[i].at >= CfsAfter(wide, es, i, j) * AskedSt(es[..i + 1])
  {
    SpacedAlong(wide, es, i, j);
    EventAt(wide, es, j);
    hide Step, Good, Enabled, AskedSt, TimedRun, CfsAfter, SendsCf;
  }
}
