/**
 Deadlines. A pass is punctual unless it deletes the head of the list; then, and only then, later
 records can miss theirs, and the wake-up time can even stop being a valid one.
 */
module TxTiming {
  import opened TxModel
  import opened TxRuns

  predicate NonNegative(t: Tx) {
    match t
    case Pwm(_, _, _, _, _, q, _) => forall i :: 0 <= i < |q| ==> q[i].on >= 0 && q[i].off >= 0
    case Wave(_, _, _, _, _, w, _) => forall i, j :: 0 <= i < |w| && 0 <= j < |w[i]| ==> w[i][j].delay >= 0
  }

  ghost predicate AllNonNegative(recs: seq<Tx>) { forall i :: 0 <= i < |recs| ==> NonNegative(recs[i]) }

  /** No active record is due before the next pass, which is at most 20 ms away. */
  ghost predicate Punctual(s: Sched) {
    && 0 <= s.delay <= MAX_DELAY
    && forall i :: 0 <= i < |s.recs| && s.recs[i].active ==> s.recs[i].next >= s.delay
  }

  predicate Normal(s: Sched) { 0 <= s.nsec < NANOS }

  lemma ServeLater(t: Tx)
    requires t.Ok() && NonNegative(t) && t.next >= 0
    ensures Serve(t).0.next >= t.next && NonNegative(Serve(t).0)
  {
  }

  lemma {:induction false} SoonestBound(recs: seq<Tx>)
    ensures Soonest(recs) <= MAX_DELAY
    ensures forall i :: 0 <= i < |recs| ==> Soonest(recs) <= recs[i].next
    ensures (forall i :: 0 <= i < |recs| ==> recs[i].next >= 0) ==> Soonest(recs) >= 0
  {
    if recs != [] {
      SoonestBound(recs[..|recs| - 1]);
    }
  }

  lemma KeptLater(recs: seq<Tx>)
    requires AllOk(recs) && AllNonNegative(recs)
    requires forall i :: 0 <= i < |recs| && recs[i].active ==> recs[i].next >= 0
    ensures AllNonNegative(Kept(recs))
    ensures forall k :: 0 <= k < |Kept(recs)| ==> Kept(recs)[k].next >= 0
  {
    forall k | 0 <= k < |Kept(recs)|
      ensures Kept(recs)[k].next >= 0 && NonNegative(Kept(recs)[k])
    {
      var i := KeptFrom(recs, k);
      ServeLater(recs[i]);
    }
  }

  /** The next pass deletes no head, or everything behind the head has 20 ms to spare. */
  ghost predicate Spares(s: Sched) {
    HeadDeleted(s.recs) ==>
      forall i :: 1 <= i < |s.recs| && s.recs[i].active ==> s.recs[i].next - s.delay >= MAX_DELAY
  }

  /** After any pass no deadline has been passed over, if and only if the pass did not delete the
      head, or everything behind the head had 20 ms to spare. */
  lemma PassPunctual(s: Sched)
    requires AllOk(s.recs) && AllNonNegative(s.recs) && Punctual(s)
    ensures AllNonNegative(Pass(s).0.recs)
    ensures 0 <= Pass(s).0.delay <= MAX_DELAY
    ensures Punctual(Pass(s).0) <==> Spares(s)
  {
    var a := Aged(s.recs, s.delay);
    assert forall i :: 0 <= i < |a| ==> a[i] == Age(s.recs[i], s.delay);
    if HeadDeleted(a) {
      var r := Pass(s).0;
      assert forall i :: 1 <= i < |a| ==> r.recs[i - 1] == a[i];
      assert forall i :: 0 <= i < |r.recs| ==> r.recs[i] == a[i + 1];
    } else {
      KeptLater(a);
      SoonestBound(Kept(a));
    }
  }

  lemma AdvanceNormal(s: Sched)
    requires AllOk(s.recs) && Normal(s) && 0 <= Pass(s).0.delay <= MAX_DELAY
    ensures Normal(Pass(s).0)
  {
  }

  // -------------------------------------------------------------------- absolute time

  /** The wake-up time in nanoseconds. */
  function WakeUp(s: Sched): int { s.sec * NANOS + s.nsec }

  /** The nominal time of the last pass. */
  function LastPass(s: Sched): int { WakeUp(s) - s.delay * 1000 }

  lemma {:induction false} SleptIsReal(s: Sched, ops: seq<Op>)
    requires AllOk(s.recs)
    ensures LastPass(RunOps(s, ops)) == LastPass(s) + TimeSlept(s, ops) * 1000
  {
    if ops != [] {
      var front, op := ops[..|ops| - 1], ops[|ops| - 1];
      SleptIsReal(s, front);
      OpClock(RunOps(s, front), op);
    }
  }

  lemma OpClock(s: Sched, op: Op)
    requires AllOk(s.recs)
    ensures LastPass(Apply(s, op)) == LastPass(s) + if op.DoPass? then s.delay * 1000 else 0
  {
  }

  /** Whether microsecond x is the least multiple of ct beyond usec. */
  predicate LeastMultipleBeyond(x: int, ct: int, usec: int)
    requires ct > 0
  {
    x % ct == 0 && usec < x <= usec + ct
  }

  /** A new PWM record is first due at the least multiple of its period beyond the current
      microsecond (of the second the thread will wake in), plus its offset. */
  lemma FirstDueIsAligned(s: Sched, chip: int, gpio: int, on: int, off: int, offset: int, cycles: int)
    requires Normal(s) && on + off > 0
    ensures var t := NewPwm(s, chip, gpio, on, off, offset, cycles);
            && LeastMultipleBeyond(s.nsec / 1000 + t.next - s.delay - offset, on + off, s.nsec / 1000)
            && (offset >= 0 ==> t.next >= s.delay)
  {
    var usec, ct := s.nsec / 1000, on + off;
    var q := usec / ct;
    assert usec == ct * q + usec % ct;
    var x := ct * q + ct;
    assert x == ct * (q + 1);
    MultipleMod(ct, q + 1);
  }

  lemma Small(ct: int, k: int)
    requires ct > 0 && 0 <= ct * k < ct
    ensures k == 0
  {
  }

  lemma MultipleMod(ct: int, q: int)
    requires ct > 0
    ensures (ct * q) % ct == 0
  {
    var d := (ct * q) / ct;
    assert ct * (q - d) == (ct * q) % ct;
    Small(ct, q - d);
  }

  // ------------------------------------------------------------------------ whole runs

  /** Calls with durations and offsets that are not negative. */
  predicate PunctualOp(op: Op) {
    match op
    case DoPwm(_, _, on, off, offset, _, _) => on >= 0 && off >= 0 && offset >= 0
    case DoWave(_, _, p) => forall i :: 0 <= i < |p| ==> p[i].delay >= 0
    case _ => true
  }

  /** Every pass of the run meets the exact condition of PassPunctual. */
  ghost predicate AlwaysSpares(s: Sched, ops: seq<Op>)
    requires AllOk(s.recs)
  {
    ops == [] ||
    var front := ops[..|ops| - 1];
    AlwaysSpares(s, front) && (ops[|ops| - 1].DoPass? ==> Spares(RunOps(s, front)))
  }

  /** Every state of the run is fine. */
  ghost predicate AlwaysFine(s: Sched, ops: seq<Op>)
    requires AllOk(s.recs)
  {
    Fine(RunOps(s, ops)) && (ops == [] || AlwaysFine(s, ops[..|ops| - 1]))
  }

  ghost predicate Fine(s: Sched) { AllOk(s.recs) && AllNonNegative(s.recs) && Punctual(s) && Normal(s) }

  lemma FineReplaced(s: Sched, i: nat, u: Tx)
    requires Fine(s) && i < |s.recs| && u.Ok() && NonNegative(u)
    requires u.next == s.recs[i].next && (u.active ==> s.recs[i].active)
    ensures Fine(Replaced(s, i, u))
  {
    hide NonNegative;
  }

  lemma FinePushed(s: Sched, u: Tx)
    requires Fine(s) && u.Ok() && NonNegative(u) && u.next >= s.delay
    ensures Fine(Pushed(s, u))
  {
    hide NonNegative;
    var r := [u] + s.recs;
    assert forall i :: 1 <= i < |r| ==> r[i] == s.recs[i - 1];
  }

  lemma FinePwm(s: Sched, op: Op)
    requires Fine(s) && op.DoPwm? && PunctualOp(op)
    ensures Fine(Apply(s, op))
  {
    var i := Lookup(s.recs, op.chip, op.gpio, PWM);
    if i < |s.recs| && s.recs[i].active {
      if op.on == 0 && op.off == 0 {
        FineReplaced(s, i, s.recs[i].Off());
      } else if op.on + op.off > op.minDelay {
        FineReplaced(s, i, WithEntry(s.recs[i], Entry(op.on, op.off, Stored(op.cycles))));
      }
    } else if op.on + op.off > op.minDelay {
      FirstDueIsAligned(s, op.chip, op.gpio, op.on, op.off, op.offset, op.cycles);
      FinePushed(s, NewPwm(s, op.chip, op.gpio, op.on, op.off, op.offset, op.cycles));
    }
  }

  lemma FineWave(s: Sched, op: Op)
    requires Fine(s) && op.DoWave? && PunctualOp(op)
    ensures Fine(Apply(s, op))
  {
    var i := Lookup(s.recs, op.chip, op.gpio, WAVE);
    if i < |s.recs| && s.recs[i].active {
      if |s.recs[i].waves| < TX_BUF {
        FineReplaced(s, i, s.recs[i].(waves := s.recs[i].waves + [op.pulses]));
      }
    } else {
      FinePushed(s, Wave(s.made, op.chip, op.gpio, true, s.delay, [op.pulses], 0));
    }
  }

  lemma FineSilence(s: Sched, chip: int, gpio: int, kind: Kind)
    requires Fine(s)
    ensures Fine(s.(recs := Silence(s.recs, chip, gpio, kind)))
  {
    var i := Lookup(s.recs, chip, gpio, kind);
    if i < |s.recs| {
      FineReplaced(s, i, s.recs[i].Off());
    }
  }

  lemma CallPunctual(s: Sched, op: Op)
    requires Fine(s) && PunctualOp(op) && !op.DoPass?
    ensures Fine(Apply(s, op))
  {
    hide NonNegative;
    match op
    case DoPwm(_, _, _, _, _, _, _) => FinePwm(s, op);
    case DoWave(_, _, _) => FineWave(s, op);
    case DoRelease(c, g) =>
      FineSilence(s, c, g, PWM);
      FineSilence(s.(recs := Silence(s.recs, c, g, PWM)), c, g, WAVE);
    case DoStop(c) =>
      var r := StopChip(s, c).recs;
      forall i | 0 <= i < |r|
        ensures NonNegative(r[i]) && (r[i].active ==> r[i].next >= s.delay)
      {
        StopNonNegative(s.recs[i], c);
      }
  }

  lemma StopNonNegative(t: Tx, c: int)
    requires NonNegative(t)
    ensures NonNegative(StopOne(t, c))
  {
  }

  /** Punctuality over whole runs: no deadline is ever passed over, every delay is within 0 and 20 ms
      and tv_nsec stays normalised, if and only if each pass finds the head in use or everything
      behind it with 20 ms to spare. */
  lemma {:induction false} RunPunctual(s: Sched, ops: seq<Op>)
    requires Fine(s)
    requires forall i :: 0 <= i < |ops| ==> PunctualOp(ops[i])
    ensures AlwaysSpares(s, ops) <==> AlwaysFine(s, ops)
  {
    assert AllOk(s.recs);
    hide Fine;
    hide Spares;
    if ops != [] {
      var front := ops[..|ops| - 1];
      RunPunctual(s, front);
      if AlwaysFine(s, front) {
        OpFine(RunOps(s, front), ops[|ops| - 1]);
      }
    }
  }

  lemma OpFine(s: Sched, op: Op)
    requires Fine(s) && PunctualOp(op)
    ensures Fine(Apply(s, op)) <==> (op.DoPass? ==> Spares(s))
  {
    if op.DoPass? {
      PassPunctual(s);
      AdvanceNormal(s);
    } else {
      CallPunctual(s, op);
    }
  }

  // ---------------------------------------------------------------- where punctuality ends

  /** An output is pulsed every 100 us, then another, which is stopped before its first edge. */
  function Breaking(): seq<Op> {
    [DoPwm(0, 2, 1, 99, 0, 0, 10), DoPwm(0, 1, 50, 50, 0, 0, 10), DoPwm(0, 1, 0, 0, 0, 0, 10), DoPass, DoPass]
  }

  /** The transmitter at rest, 985 ms into a second. */
  function Resting(): Sched { Sched([], 0, 0, 985_000_000, 0) }

  function Waiting(next: int): Tx { Pwm(0, 0, 2, true, next, [Entry(1, 99, -1)], true) }

  function Second(active: bool): Tx { Pwm(1, 0, 1, active, 100, [Entry(50, 50, -1)], true) }

  lemma FirstCall()
    ensures Apply(Resting(), Breaking()[0]) == Sched([Waiting(100)], 0, 0, 985_000_000, 1)
  {
  }

  lemma SecondCall()
    ensures Apply(Sched([Waiting(100)], 0, 0, 985_000_000, 1), Breaking()[1]) ==
            Sched([Second(true), Waiting(100)], 0, 0, 985_000_000, 2)
  {
  }

  lemma ThirdCall()
    ensures Apply(Sched([Second(true), Waiting(100)], 0, 0, 985_000_000, 2), Breaking()[2]) ==
            Sched([Second(false), Waiting(100)], 0, 0, 985_000_000, 2)
  {
  }

  lemma BreakingPasses()
    ensures Pass(Sched([Second(false), Waiting(100)], 0, 0, 985_000_000, 2)).0 ==
            Sched([Waiting(100)], MAX_DELAY, 1, 5_000_000, 2)
    ensures var r := Pass(Sched([Waiting(100)], MAX_DELAY, 1, 5_000_000, 2)).0;
            r.delay == -19_899 && r.nsec == -14_899_000
  {
    var a := [Waiting(-19_900)];
    assert Aged([Second(false), Waiting(100)], 0) == [Second(false), Waiting(100)];
    assert Aged([Waiting(100)], MAX_DELAY) == a;
    var u := Serve(a[0]).0;
    assert u.next == -19_899;
    assert a[..0] == [] && Kept(a) == [] + [u] == [u];
    assert [u][..0] == [] && Soonest([]) == MAX_DELAY && Soonest([u]) == -19_899;
  }

  /** A head deletion makes a pass late, a late pass chooses a negative delay, and a negative delay
      leaves tv_nsec negative, which no carry repairs: from the empty list, by calls and passes with
      nothing negative in them. */
  lemma HeadDeletionBreaksTheClock()
    ensures var s, ops := Resting(), Breaking();
            && Inv(s) && Fine(s) && (forall i :: 0 <= i < |ops| ==> LegalOp(ops[i]) && PunctualOp(ops[i]))
            && Fine(RunOps(s, ops[..3])) && !Punctual(RunOps(s, ops[..4]))
            && RunOps(s, ops).delay == -19_899 && RunOps(s, ops).nsec == -14_899_000
  {
    var s, ops := Resting(), Breaking();
    FirstCall();
    SecondCall();
    ThirdCall();
    BreakingPasses();
    hide Apply;
    hide Pass;
    assert ops[..0] == [] && ops[..1][..0] == [];
    assert RunOps(s, ops[..1]) == Sched([Waiting(100)], 0, 0, 985_000_000, 1);
    assert ops[..2][..1] == ops[..1];
    assert RunOps(s, ops[..2]) == Sched([Second(true), Waiting(100)], 0, 0, 985_000_000, 2);
    assert ops[..3][..2] == ops[..2];
    assert RunOps(s, ops[..3]) == Sched([Second(false), Waiting(100)], 0, 0, 985_000_000, 2);
    assert ops[..4][..3] == ops[..3];
    PassIs(RunOps(s, ops[..3]));
    var late := RunOps(s, ops[..4]);
    assert late == Sched([Waiting(100)], MAX_DELAY, 1, 5_000_000, 2);
    assert late.recs[0].next < late.delay;
    PassIs(late);
    assert ops[..|ops| - 1] == ops[..4];
  }

  lemma PassIs(s: Sched)
    requires AllOk(s.recs)
    ensures Apply(s, DoPass) == Pass(s).0
  {
  }
}
