/**
 A wave record inside a run of the whole transmitter: among any passes, calls and other records it
 lives a life as studied in TxWave.dfy, and what is written to its group are its pulses.
 */
module TxWaveRuns {
  import opened TxModel
  import opened TxRuns
  import opened TxWrites
  import W = TxWave

  /** What an operation means for the active wave record t of s. */
  function WaveEvent(s: Sched, op: Op, t: Tx): seq<W.Event> {
    match op
    case DoPass =>
      if HeadDeleted(Aged(s.recs, s.delay)) then [W.Skip(s.delay)] else [W.Visit(s.delay)]
    case DoPwm(_, _, _, _, _, _, _) => []
    case DoWave(c, g, p) => if t.HasKey(c, g, WAVE) then [W.Add(p)] else []
    case DoRelease(c, g) => if t.HasKey(c, g, WAVE) then [W.Kill] else []
    case DoStop(c) => if t.chip == c then [W.Kill] else []
  }

  lemma OneWaveEvent(l: W.Life, ev: W.Event)
    requires W.Good(l.t)
    ensures W.Run(l, [ev]).0 == W.Step(l, ev).0 && W.Run(l, [ev]).1 == W.Step(l, ev).1
  {
    assert [ev][..0] == [];
    assert [] + W.Step(l, ev).1 == W.Step(l, ev).1;
  }

  lemma NoWaveEvent(l: W.Life)
    requires W.Good(l.t)
    ensures W.Run(l, []) == (l, [])
  {
  }

  // ------------------------------------------------------------------------- one operation

  /** A transmitting wave record, and where it is. */
  ghost predicate WaveAt(s: Sched, i: nat) {
    Inv(s) && i < |s.recs| && W.Good(s.recs[i]) && s.recs[i].active
  }

  lemma PassIsWaveEvent(s: Sched, i: nat, clock: int) returns (k: nat)
    requires WaveAt(s, i)
    ensures k < |Pass(s).0.recs|
    ensures var ev := WaveEvent(s, DoPass, s.recs[i])[0];
            Pass(s).0.recs[k] == W.Step(W.Life(s.recs[i], clock), ev).0.t
  {
    hide Fire;
    var a := Aged(s.recs, s.delay);
    if HeadDeleted(a) {
      k := i - 1;
    } else {
      k := KeptTo(a, i);
    }
  }

  lemma WaveIsWaveEvent(s: Sched, op: Op, i: nat, clock: int) returns (k: nat)
    requires WaveAt(s, i) && op.DoWave?
    ensures k < |Apply(s, op).recs|
    ensures var t := s.recs[i]; var u := Apply(s, op).recs[k];
            u == if t.HasKey(op.chip, op.gpio, WAVE) then W.Step(W.Life(t, clock), W.Add(op.pulses)).0.t else t
  {
    k := i;
    if s.recs[i].HasKey(op.chip, op.gpio, WAVE) {
      FoundIsFirst(s.recs, i, op.chip, op.gpio, WAVE);
    } else if !Transmitting(s.recs, op.chip, op.gpio, WAVE) {
      k := i + 1;
    }
  }

  lemma PwmIsNoWaveEvent(s: Sched, op: Op, i: nat) returns (k: nat)
    requires WaveAt(s, i) && op.DoPwm?
    ensures k < |Apply(s, op).recs| && Apply(s, op).recs[k] == s.recs[i]
  {
    k := i;
    if !Transmitting(s.recs, op.chip, op.gpio, PWM) && op.on + op.off > op.minDelay {
      k := i + 1;
    }
  }

  lemma SilenceIsWaveEvent(s: Sched, op: Op, i: nat)
    requires WaveAt(s, i) && (op.DoRelease? || op.DoStop?)
    ensures i < |Apply(s, op).recs|
    ensures var t := s.recs[i];
            Apply(s, op).recs[i] == if WaveEvent(s, op, t) != [] then t.Off() else t
  {
    if op.DoRelease? {
      var half := Silence(s.recs, op.chip, op.gpio, PWM);
      InvSilence(s, op.chip, op.gpio, PWM);
      assert half[i] == s.recs[i];
      if s.recs[i].HasKey(op.chip, op.gpio, WAVE) {
        FoundIsFirst(half, i, op.chip, op.gpio, WAVE);
      }
    }
  }

  /** After one operation the wave record is in the list as its own life says. */
  lemma OpIsWaveEvent(s: Sched, op: Op, i: nat, clock: int) returns (k: nat)
    requires WaveAt(s, i)
    ensures var evs := WaveEvent(s, op, s.recs[i]);
            k < |Apply(s, op).recs| && Apply(s, op).recs[k] == W.Run(W.Life(s.recs[i], clock), evs).0.t
  {
    var l := W.Life(s.recs[i], clock);
    var evs := WaveEvent(s, op, s.recs[i]);
    assert |evs| <= 1;
    hide W.Run;
    hide Inv;
    NoWaveEvent(l);
    if evs != [] {
      assert evs == [evs[0]];
      OneWaveEvent(l, evs[0]);
    }
    if op.DoPass? {
      hide W.Step;
      k := PassIsWaveEvent(s, i, clock);
    } else if op.DoWave? {
      k := WaveIsWaveEvent(s, op, i, clock);
    } else if op.DoPwm? {
      k := PwmIsNoWaveEvent(s, op, i);
    } else {
      SilenceIsWaveEvent(s, op, i);
      k := i;
    }
  }

  // ------------------------------------------------------------------------------- runs

  /** The events of a run as they concern the wave record that started as t. */
  ghost function WaveEvents(s: Sched, ops: seq<Op>, t: Tx): seq<W.Event>
    requires AllOk(s.recs) && W.Good(t)
  {
    if ops == [] then []
    else
      var front := ops[..|ops| - 1];
      var evs := WaveEvents(s, front, t);
      evs + WaveEvent(RunOps(s, front), ops[|ops| - 1], W.Run(W.Life(t, 0), evs).0.t)
  }

  ghost function WaveLife(s: Sched, ops: seq<Op>, t: Tx): (r: (W.Life, seq<W.Sent>))
    requires AllOk(s.recs) && W.Good(t)
    ensures W.Good(r.0.t)
  {
    W.Run(W.Life(t, 0), WaveEvents(s, ops, t))
  }

  lemma WaveSnoc(l: W.Life, evs: seq<W.Event>, more: seq<W.Event>)
    requires W.Good(l.t) && |more| <= 1
    ensures W.Run(l, evs + more).0 == W.Run(W.Run(l, evs).0, more).0
    ensures W.Run(l, evs + more).1 == W.Run(l, evs).1 + W.Run(W.Run(l, evs).0, more).1
  {
    if more == [] {
      assert evs + more == evs;
      assert W.Run(l, evs).1 + [] == W.Run(l, evs).1;
    } else {
      assert (evs + more)[..|evs|] == evs && (evs + more)[|evs|] == more[0];
      assert more == [more[0]];
      OneWaveEvent(W.Run(l, evs).0, more[0]);
    }
  }

  /** One more operation is one more event. */
  lemma WaveLifeGoesOn(s: Sched, ops: seq<Op>, t: Tx)
    requires AllOk(s.recs) && W.Good(t) && ops != []
    ensures var front := ops[..|ops| - 1]; var b := WaveLife(s, front, t);
            var more := WaveEvent(RunOps(s, front), ops[|ops| - 1], b.0.t);
            && |more| <= 1
            && WaveLife(s, ops, t).0 == W.Run(b.0, more).0 && WaveLife(s, ops, t).1 == b.1 + W.Run(b.0, more).1
  {
    hide W.Run;
    hide Apply;
    hide RunOps;
    var front := ops[..|ops| - 1];
    var evs := WaveEvents(s, front, t);
    WaveSnoc(W.Life(t, 0), evs, WaveEvent(RunOps(s, front), ops[|ops| - 1], W.Run(W.Life(t, 0), evs).0.t));
  }

  /** The record is in the list if it still transmits, and otherwise nowhere active. */
  ghost predicate WaveLives(s: Sched, l: W.Life, id: nat, k: nat) {
    && W.Good(l.t) && l.t.id == id && id < s.made
    && (if l.t.active then k < |s.recs| && s.recs[k] == l.t else NoneActive(s, id))
  }

  lemma WaveRunClock(s: Sched, op: Op, l: W.Life)
    requires W.Good(l.t)
    ensures var r := W.Run(l, WaveEvent(s, op, l.t)).0;
            && r.t.id == l.t.id && r.t.chip == l.t.chip && r.t.gpio == l.t.gpio
            && (!l.t.active ==> r == l)
            && (l.t.active ==> r.clock == l.clock + if op.DoPass? then s.delay else 0)
  {
    hide FireWave;
    var evs := WaveEvent(s, op, l.t);
    NoWaveEvent(l);
    if evs != [] {
      assert evs == [evs[0]];
      OneWaveEvent(l, evs[0]);
    }
  }

  lemma WaveLivesOn(s: Sched, op: Op, l: W.Life, id: nat, k: nat) returns (k': nat)
    requires Inv(s) && LegalOp(op) && WaveLives(s, l, id, k)
    ensures WaveLives(Apply(s, op), W.Run(l, WaveEvent(s, op, l.t)).0, id, k')
  {
    hide Apply;
    hide WaveEvent;
    hide W.Run;
    k' := k;
    InvApply(s, op);
    WaveRunClock(s, op, l);
    if l.t.active {
      k' := OpIsWaveEvent(s, op, k, l.clock);
      OnlyOne(Apply(s, op), k');
    } else {
      StoppedStays(s, op, id);
    }
  }

  /** The projection theorem for wave records, the counterpart of TxRuns.RunIsLife. */
  lemma {:induction false} RunIsWaveLife(s: Sched, ops: seq<Op>, i: nat) returns (k: nat)
    requires WaveAt(s, i) && forall j :: 0 <= j < |ops| ==> LegalOp(ops[j])
    ensures var l := WaveLife(s, ops, s.recs[i]).0;
            && WaveLives(RunOps(s, ops), l, s.recs[i].id, k)
            && l.t.chip == s.recs[i].chip && l.t.gpio == s.recs[i].gpio
            && (l.t.active ==> l.clock == TimeSlept(s, ops))
  {
    var t := s.recs[i];
    k := i;
    if ops == [] {
      NoWaveEvent(W.Life(t, 0));
    } else {
      hide Inv;
      hide Apply;
      hide WaveEvent;
      hide W.Run;
      hide WaveLife;
      var front, op := ops[..|ops| - 1], ops[|ops| - 1];
      k := RunIsWaveLife(s, front, i);
      InvRun(s, front);
      var mid, l := RunOps(s, front), WaveLife(s, front, t).0;
      WaveLifeGoesOn(s, ops, t);
      WaveRunClock(mid, op, l);
      k := WaveLivesOn(mid, op, l, t.id, k);
    }
  }

  // ------------------------------------------------------------------------ the two laws

  /** In every run of the transmitter, from the moment a wave record is made, the pulses it has sent
      and those it still holds are the pulses accepted, in order, each sent at the first due time
      plus all earlier delays; and while it transmits, it stands in the list as that law says. */
  lemma EveryWaveRunConserved(s: Sched, ops: seq<Op>, i: nat) returns (k: nat)
    requires WaveAt(s, i) && forall j :: 0 <= j < |ops| ==> LegalOp(ops[j])
    ensures var t := s.recs[i]; var r := WaveLife(s, ops, t);
            && W.Law(r.0, r.1, W.Left(t) + W.Joined(W.Accepted(W.Life(t, 0), WaveEvents(s, ops, t))), t.next)
            && WaveLives(RunOps(s, ops), r.0, t.id, k)
            && (r.0.t.active ==> r.0.clock == TimeSlept(s, ops))
  {
    hide W.Law;
    hide W.Run;
    hide W.Left;
    hide WaveLives;
    k := RunIsWaveLife(s, ops, i);
    W.WavesConservedOnTime(W.Life(s.recs[i], 0), WaveEvents(s, ops, s.recs[i]));
  }

  /** And a wave record that stops in a run in which no call silences it has sent everything if and
      only if no wave with pulses was queued behind an empty one. */
  lemma EveryWaveRunStopsAfterAll(s: Sched, ops: seq<Op>, i: nat)
    requires WaveAt(s, i) && W.NoKill(WaveEvents(s, ops, s.recs[i]))
    requires !WaveLife(s, ops, s.recs[i]).0.t.active
    ensures var l := W.Life(s.recs[i], 0);
            W.Left(WaveLife(s, ops, s.recs[i]).0.t) == [] <==> !W.EmptyInFront(W.Given(l, WaveEvents(s, ops, s.recs[i])))
  {
    hide W.Run;
    hide W.Given;
    W.StopsAfterAll(W.Life(s.recs[i], 0), WaveEvents(s, ops, s.recs[i]));
  }

  /** What sending the pulses writes. */
  function PulseWrites(t: Tx, log: seq<W.Sent>): seq<Write> {
    if log == [] then []
    else
      var p := log[|log| - 1].p;
      PulseWrites(t, log[..|log| - 1]) + [Group(t.chip, t.gpio, p.bits, p.mask)]
  }

  lemma {:induction false} PulseWritesBoth(t: Tx, a: seq<W.Sent>, b: seq<W.Sent>)
    requires |b| <= 1
    ensures PulseWrites(t, a + b) == PulseWrites(t, a) + PulseWrites(t, b)
  {
    if b == [] {
      assert a + b == a;
    } else {
      assert (a + b)[..|a|] == a && (a + b)[|a|] == b[0] && b[..0] == [];
    }
  }

  lemma VisitWritesPulses(t: Tx, ev: W.Event, clock: int)
    requires W.Good(t) && t.active && (ev.Visit? || ev.Skip?)
    ensures var log := W.Step(W.Life(t, clock), ev).1;
            |log| <= 1 && PulseWrites(t, log) == if ev.Skip? then [] else Serve(Age(t, ev.d)).1
  {
    var log := W.Step(W.Life(t, clock), ev).1;
    if ev.Visit? {
      var u := Age(t, ev.d);
      assert W.Left(u) == W.Left(t);
      W.WaveStep(u);
      hide FireWave;
      hide W.Left;
      assert log != [] ==> log[..0] == [];
    }
  }

  /** One operation writes to the group of a transmitting wave record what its own event sends. */
  lemma OpWritesPulses(s: Sched, op: Op, i: nat, clock: int)
    requires WaveAt(s, i)
    ensures var t := s.recs[i]; var log := W.Run(W.Life(t, clock), WaveEvent(s, op, t)).1;
            |log| <= 1 && On(OpWrites(s, op), t.chip, t.gpio, WAVE) == PulseWrites(t, log)
  {
    var t := s.recs[i];
    var l := W.Life(t, clock);
    var evs := WaveEvent(s, op, t);
    hide Inv;
    hide W.Run;
    hide On;
    NoWaveEvent(l);
    NothingOn(t.chip, t.gpio, WAVE);
    if evs != [] {
      assert evs == [evs[0]];
      OneWaveEvent(l, evs[0]);
    }
    if op.DoPass? {
      hide W.Step;
      PassOn(s, i);
      VisitWritesPulses(t, evs[0], clock);
    }
  }

  lemma {:induction false} SamePulses(t: Tx, u: Tx, log: seq<W.Sent>)
    requires t.chip == u.chip && t.gpio == u.gpio
    ensures PulseWrites(t, log) == PulseWrites(u, log)
  {
    if log != [] {
      SamePulses(t, u, log[..|log| - 1]);
    }
  }

  /** In every run, up to the operation in which a wave record stops, what is written to its group is
      the pulses of its log, in order. */
  lemma {:induction false} RunWritesPulses(s: Sched, ops: seq<Op>, i: nat)
    requires WaveAt(s, i) && forall j :: 0 <= j < |ops| ==> LegalOp(ops[j])
    requires ops != [] ==> WaveLife(s, ops[..|ops| - 1], s.recs[i]).0.t.active
    ensures var t := s.recs[i];
            On(RunWrites(s, ops), t.chip, t.gpio, WAVE) == PulseWrites(t, WaveLife(s, ops, t).1)
  {
    var t := s.recs[i];
    if ops == [] {
      NoWaveEvent(W.Life(t, 0));
      NothingOn(t.chip, t.gpio, WAVE);
    } else {
      hide Inv;
      hide OpWrites;
      hide Apply;
      hide WaveEvent;
      hide On;
      hide PulseWrites;
      hide W.Run;
      hide WaveLife;
      var front, op := ops[..|ops| - 1], ops[|ops| - 1];
      var mid, b := RunOps(s, front), WaveLife(s, front, t);
      if front != [] {
        WaveEarlierToo(s, front, t);
      }
      RunWritesPulses(s, front, i);
      var k := RunIsWaveLife(s, front, i);
      InvRun(s, front);
      WaveLifeGoesOn(s, ops, t);
      var more := W.Run(b.0, WaveEvent(mid, op, b.0.t)).1;
      OpWritesPulses(mid, op, k, b.0.clock);
      SamePulses(t, b.0.t, more);
      PulseWritesBoth(t, b.1, more);
      OnBoth(RunWrites(s, front), OpWrites(mid, op), t.chip, t.gpio, WAVE);
    }
  }

  lemma WaveEarlierToo(s: Sched, ops: seq<Op>, t: Tx)
    requires AllOk(s.recs) && W.Good(t) && WaveLife(s, ops, t).0.t.active && ops != []
    ensures WaveLife(s, ops[..|ops| - 1], t).0.t.active
  {
    hide Apply;
    hide WaveEvent;
    hide W.Run;
    hide WaveLife;
    var front := ops[..|ops| - 1];
    WaveLifeGoesOn(s, ops, t);
    WaveRunClock(RunOps(s, front), ops[|ops| - 1], WaveLife(s, front, t).0);
  }

  // ---------------------------------------------------------------------- pulses lost

  /** Two waves of one pulse, and one of none between them. */
  function ThreeCalls(p: Pulse): seq<Op> { [DoWave(0, 4, [p])] + [DoWave(0, 4, [])] + [DoWave(0, 4, [p])] }

  function Losing(p: Pulse): seq<Op> { ThreeCalls(p) + [DoPass] + [DoPass] + [DoPass] }

  function Holding(next: int, waves: seq<seq<Pulse>>, pos: nat, active: bool): Tx {
    Wave(0, 0, 4, active, next, waves, pos)
  }

  function Alone(t: Tx, delay: int, nsec: int): Sched { Sched([t], delay, 0, nsec, 1) }

  lemma RunMore(s: Sched, ops: seq<Op>, op: Op)
    requires AllOk(s.recs)
    ensures RunOps(s, ops + [op]) == Apply(RunOps(s, ops), op)
    ensures RunWrites(s, ops + [op]) == RunWrites(s, ops) + OpWrites(RunOps(s, ops), op)
  {
    hide Apply;
    hide OpWrites;
    assert (ops + [op])[..|ops|] == ops && (ops + [op])[|ops|] == op;
  }

  lemma FirstWave(p: Pulse)
    ensures Apply(Sched([], 0, 0, 0, 0), DoWave(0, 4, [p])) == Alone(Holding(0, [[p]], 0, true), 0, 0)
  {
  }

  lemma MoreWaves(waves: seq<seq<Pulse>>, w: seq<Pulse>)
    requires 1 <= |waves| < TX_BUF
    ensures Apply(Alone(Holding(0, waves, 0, true), 0, 0), DoWave(0, 4, w)) ==
            Alone(Holding(0, waves + [w], 0, true), 0, 0)
  {
    var t := Holding(0, waves, 0, true);
    assert [t][0 := Holding(0, waves + [w], 0, true)] == [Holding(0, waves + [w], 0, true)];
  }

  lemma AfterThreeCalls(p: Pulse)
    ensures var s, ops := Sched([], 0, 0, 0, 0), ThreeCalls(p);
            RunOps(s, ops) == Alone(Holding(0, [[p], [], [p]], 0, true), 0, 0) && RunWrites(s, ops) == []
  {
    var s, ops := Sched([], 0, 0, 0, 0), ThreeCalls(p);
    var one := [DoWave(0, 4, [p])];
    assert [] + one == one;
    RunMore(s, [], one[0]);
    FirstWave(p);
    RunMore(s, one, DoWave(0, 4, []));
    MoreWaves([[p]], []);
    RunMore(s, one + [DoWave(0, 4, [])], DoWave(0, 4, [p]));
    MoreWaves([[p], []], [p]);
    hide Apply;
    assert [[p]] + [[]] == [[p], []] && [[p], []] + [[p]] == [[p], [], [p]];
  }

  lemma Single(t: Tx)
    requires t.Ok() && t.active
    ensures Kept([t]) == [Serve(t).0] && Writes([t]) == Serve(t).1
  {
    hide Serve;
    assert [t][..0] == [] && [] + [Serve(t).0] == [Serve(t).0] && [] + Serve(t).1 == Serve(t).1;
  }

  lemma SingleSoonest(t: Tx)
    ensures Soonest([t]) == if t.next < MAX_DELAY then t.next else MAX_DELAY
  {
    assert [t][..0] == [] && Soonest([]) == MAX_DELAY;
  }

  lemma OnePass(t: Tx, delay: int, nsec: int)
    requires t.Ok() && t.active
    ensures var u := Serve(Age(t, delay)); var r := Pass(Alone(t, delay, nsec));
            var next := if u.0.next < MAX_DELAY then u.0.next else MAX_DELAY;
            && r.0.recs == [u.0] && r.1 == u.1 && r.0.made == 1 && r.0.delay == next
            && (r.0.sec, r.0.nsec) == Advance(0, nsec, next)
  {
    hide Serve;
    hide Kept;
    hide Writes;
    hide Soonest;
    hide Advance;
    var a := Age(t, delay);
    assert Aged([t], delay) == [a];
    Single(a);
    SingleSoonest(Serve(a).0);
  }

  lemma SendsFirst(p: Pulse)
    ensures Serve(Age(Holding(0, [[p], [], [p]], 0, true), 0)) ==
            (Holding(p.delay, [[p], [], [p]], 1, true), [Group(0, 4, p.bits, p.mask)])
  {
  }

  lemma StopsAtEmpty(p: Pulse)
    ensures Serve(Age(Holding(100, [[p], [], [p]], 1, true), 100)) == (Holding(0, [[], [p]], 0, false), [])
  {
    assert [[p], [], [p]][1..] == [[], [p]];
  }

  lemma PassSends(p: Pulse)
    requires p.delay == 100
    ensures Pass(Alone(Holding(0, [[p], [], [p]], 0, true), 0, 0)) ==
            (Alone(Holding(100, [[p], [], [p]], 1, true), 100, 100_000), [Group(0, 4, p.bits, p.mask)])
  {
    hide Pass;
    hide Serve;
    SendsFirst(p);
    OnePass(Holding(0, [[p], [], [p]], 0, true), 0, 0);
  }

  lemma PassStops(p: Pulse)
    ensures Pass(Alone(Holding(100, [[p], [], [p]], 1, true), 100, 100_000)) ==
            (Alone(Holding(0, [[], [p]], 0, false), 0, 100_000), [])
  {
    hide Pass;
    hide Serve;
    StopsAtEmpty(p);
    OnePass(Holding(100, [[p], [], [p]], 1, true), 100, 100_000);
  }

  lemma PassForgets(t: Tx, nsec: int)
    requires t.Ok() && !t.active
    ensures var r := Pass(Alone(t, 0, nsec)); r.0.recs == [] && r.1 == []
  {
    assert Aged([t], 0)[1..] == [];
  }

  /** From an empty list, three calls and three passes: the third wave is never sent, and the record
      that held it is gone. */
  lemma EmptyWaveLosesPulses(p: Pulse)
    requires p.delay == 100
    ensures var s, ops := Sched([], 0, 0, 0, 0), Losing(p);
            RunOps(s, ops).recs == [] && RunWrites(s, ops) == [Group(0, 4, p.bits, p.mask)]
  {
    var s, three := Sched([], 0, 0, 0, 0), ThreeCalls(p);
    hide RunOps;
    hide RunWrites;
    hide Pass;
    hide ThreeCalls;
    AfterThreeCalls(p);
    RunMore(s, three, DoPass);
    RunMore(s, three + [DoPass], DoPass);
    RunMore(s, three + [DoPass] + [DoPass], DoPass);
    PassSends(p);
    PassStops(p);
    PassForgets(Holding(0, [[], [p]], 0, false), 100_000);
  }
}
