/**
 What a run writes to the lines. A pass serves many records; the writes to one key in a run are
 those of the one record that transmits there, mark by mark.
 */
module TxWrites {
  import opened TxModel
  import opened TxRuns
  import L = TxLife

  /** Only passes write. */
  function OpWrites(s: Sched, op: Op): seq<Write>
    requires AllOk(s.recs)
  {
    if op.DoPass? then Pass(s).1 else []
  }

  /** Everything written in a run, in order. */
  function RunWrites(s: Sched, ops: seq<Op>): seq<Write>
    requires AllOk(s.recs)
  {
    if ops == [] then []
    else
      var front := ops[..|ops| - 1];
      RunWrites(s, front) + OpWrites(RunOps(s, front), ops[|ops| - 1])
  }

  /** Levels belong to PWM keys, groups of bits to wave keys. */
  predicate Concerns(w: Write, chip: int, gpio: int, kind: Kind) {
    w.chip == chip && w.gpio == gpio && w.Level? == kind.PWM?
  }

  function On(ws: seq<Write>, chip: int, gpio: int, kind: Kind): seq<Write> {
    if ws == [] then []
    else
      var w := ws[|ws| - 1];
      On(ws[..|ws| - 1], chip, gpio, kind) + if Concerns(w, chip, gpio, kind) then [w] else []
  }

  lemma {:induction false} OnBoth(a: seq<Write>, b: seq<Write>, chip: int, gpio: int, kind: Kind)
    ensures On(a + b, chip, gpio, kind) == On(a, chip, gpio, kind) + On(b, chip, gpio, kind)
    decreases |b|
  {
    if b == [] {
      assert a + b == a;
    } else {
      OnBoth(a, b[..|b| - 1], chip, gpio, kind);
      assert (a + b)[..|a + b| - 1] == a + b[..|b| - 1];
    }
  }

  /** A record writes to its own key, at most once in a pass. */
  lemma ServeOn(t: Tx, chip: int, gpio: int, kind: Kind)
    requires t.Ok()
    ensures On(Serve(t).1, chip, gpio, kind) == if t.HasKey(chip, gpio, kind) then Serve(t).1 else []
  {
    var ws := Serve(t).1;
    assert |ws| <= 1 && (|ws| == 1 ==> ws[0].chip == t.chip && ws[0].gpio == t.gpio && ws[0].Level? == t.Pwm?);
    if |ws| == 1 {
      assert ws[..0] == [];
    }
  }

  /** In a walk the writes to the key of an active record are that record's. */
  lemma {:induction false} WalkOn(recs: seq<Tx>, n: nat, i: nat)
    requires AllOk(recs) && FirstOfKey(recs) && n <= |recs| && i < |recs| && recs[i].active
    ensures var t := recs[i];
            On(Writes(recs[..n]), t.chip, t.gpio, t.Kind()) == if i < n then Serve(t).1 else []
  {
    hide Serve;
    hide On;
    var t := recs[i];
    if n == 0 {
      NothingOn(t.chip, t.gpio, t.Kind());
    } else {
      WalkOn(recs, n - 1, i);
      assert recs[..n][..n - 1] == recs[..n - 1];
      var last := recs[n - 1];
      var more := if last.active then Serve(last).1 else [];
      OnBoth(Writes(recs[..n - 1]), more, t.chip, t.gpio, t.Kind());
      NothingOn(t.chip, t.gpio, t.Kind());
      ServeOn(last, t.chip, t.gpio, t.Kind());
      OneTransmits(recs, i, n - 1);
    }
  }

  lemma NothingOn(chip: int, gpio: int, kind: Kind)
    ensures On([], chip, gpio, kind) == []
  {
  }

  lemma OneTransmits(recs: seq<Tx>, i: nat, j: nat)
    requires FirstOfKey(recs) && i < |recs| && j < |recs| && recs[i].active
    ensures recs[j].active && recs[j].HasKey(recs[i].chip, recs[i].gpio, recs[i].Kind()) ==> i == j
  {
    assert SameKey(recs[i], recs[j]) == SameKey(recs[j], recs[i]);
  }

  lemma PassOn(s: Sched, i: nat)
    requires Inv(s) && i < |s.recs| && s.recs[i].active
    ensures var t := s.recs[i];
            On(Pass(s).1, t.chip, t.gpio, t.Kind()) ==
            if HeadDeleted(Aged(s.recs, s.delay)) then [] else Serve(Age(t, s.delay)).1
  {
    hide Serve;
    var a := Aged(s.recs, s.delay);
    InvAged(s);
    assert a[i] == Age(s.recs[i], s.delay) && a[..|a|] == a;
    WalkOn(a, |a|, i);
  }

  // -------------------------------------------------------------------------- PWM records

  /** What the edges of a log write; requests write nothing. */
  function MarkWrites(t: Tx, log: seq<L.Mark>): seq<Write> {
    if log == [] then []
    else MarkWrites(t, log[..|log| - 1]) + if log[|log| - 1].Asked? then [] else [L.WriteOf(t, log[|log| - 1])]
  }

  lemma {:induction false} MarkWritesBoth(t: Tx, a: seq<L.Mark>, b: seq<L.Mark>)
    requires |b| <= 1
    ensures MarkWrites(t, a + b) == MarkWrites(t, a) + MarkWrites(t, b)
  {
    if b == [] {
      assert a + b == a;
    } else {
      assert (a + b)[..|a|] == a && (a + b)[|a|] == b[0] && b[..0] == [];
    }
  }

  /** One operation writes to the key of a transmitting record what its own event marks. */
  lemma OpWritesMarks(s: Sched, op: Op, i: nat, clock: int)
    requires Inv(s) && i < |s.recs| && s.recs[i].Pwm? && s.recs[i].active
    ensures var t := s.recs[i]; var log := L.Run(L.Life(t, clock), EventOf(s, op, t)).1;
            |log| <= 1 && On(OpWrites(s, op), t.chip, t.gpio, PWM) == MarkWrites(t, log)
  {
    assert s.recs[i].Ok();
    hide Inv;
    hide On;
    hide MarkWrites;
    hide L.Run;
    var t := s.recs[i];
    var evs := EventOf(s, op, t);
    if op.DoPass? {
      hide L.Step;
      OneEvent(L.Life(t, clock), evs[0]);
      PassOn(s, i);
      StepWritesMarks(t, evs[0], clock);
    } else {
      NothingOn(t.chip, t.gpio, PWM);
      CallWritesNothing(s, op, t, clock);
    }
  }

  lemma CallWritesNothing(s: Sched, op: Op, t: Tx, clock: int)
    requires !op.DoPass? && t.Pwm? && t.Ok()
    ensures var log := L.Run(L.Life(t, clock), EventOf(s, op, t)).1; |log| <= 1 && MarkWrites(t, log) == []
  {
    var l, evs := L.Life(t, clock), EventOf(s, op, t);
    hide MarkWrites;
    hide L.Step;
    if evs == [] {
      NothingMarked(l);
    } else {
      assert evs == [evs[0]] && (evs[0].Add? || evs[0].Kill?);
      hide EventOf;
      hide L.Run;
      OneEvent(l, evs[0]);
      AskedWritesNothing(l, evs[0]);
    }
  }

  lemma NothingMarked(l: L.Life)
    requires l.t.Pwm? && l.t.Ok()
    ensures L.Run(l, []).1 == [] && MarkWrites(l.t, []) == []
  {
  }

  lemma AskedWritesNothing(l: L.Life, ev: L.Event)
    requires l.t.Pwm? && l.t.Ok() && (ev.Add? || ev.Kill?)
    ensures var log := L.Step(l, ev).1; |log| <= 1 && MarkWrites(l.t, log) == []
  {
    var log := L.Step(l, ev).1;
    assert log != [] ==> log[..0] == [];
  }

  lemma StepWritesMarks(t: Tx, ev: L.Event, clock: int)
    requires t.Pwm? && t.Ok() && t.active && (ev.Visit? || ev.Skip?)
    ensures MarkWrites(t, L.Step(L.Life(t, clock), ev).1) == if ev.Skip? then [] else Serve(Age(t, ev.d)).1
    ensures |L.Step(L.Life(t, clock), ev).1| <= 1
  {
    var log := L.Step(L.Life(t, clock), ev).1;
    if ev.Visit? && log != [] {
      var u := Age(t, ev.d);
      L.MarksAreTheWrites(u, clock + t.next);
      assert log[..0] == [] && log[0] == L.MarkOf(u, clock + t.next);
    }
  }

  lemma StepLine(l: L.Life, ev: L.Event)
    requires l.t.Pwm? && l.t.Ok()
    ensures L.Step(l, ev).0.t.chip == l.t.chip && L.Step(l, ev).0.t.gpio == l.t.gpio
  {
    hide Fire;
    hide Queued;
    hide L.MarkOf;
  }

  lemma {:induction false} SameLine(l: L.Life, evs: seq<L.Event>)
    requires l.t.Pwm? && l.t.Ok()
    ensures L.Run(l, evs).0.t.chip == l.t.chip && L.Run(l, evs).0.t.gpio == l.t.gpio
  {
    hide L.Step;
    if evs != [] {
      SameLine(l, evs[..|evs| - 1]);
      StepLine(L.Run(l, evs[..|evs| - 1]).0, evs[|evs| - 1]);
    }
  }

  lemma {:induction false} SameWrites(t: Tx, u: Tx, log: seq<L.Mark>)
    requires t.chip == u.chip && t.gpio == u.gpio
    ensures MarkWrites(t, log) == MarkWrites(u, log)
  {
    if log != [] {
      SameWrites(t, u, log[..|log| - 1]);
    }
  }

  /** The record of the run still transmits before the last operation. */
  ghost predicate TransmitsUntilLast(s: Sched, ops: seq<Op>, t: Tx)
    requires AllOk(s.recs) && t.Pwm? && t.Ok()
  {
    ops != [] ==> L.Run(L.Life(t, 0), EventsOf(s, ops[..|ops| - 1], t)).0.t.active
  }

  /** In every run, up to the operation in which a PWM record stops, the levels written to its line
      are those of its marks, in order: the marks that NoDrift and Faithful are about. */
  lemma {:induction false} RunWritesMarks(s: Sched, ops: seq<Op>, i: nat)
    requires Inv(s) && (forall j :: 0 <= j < |ops| ==> LegalOp(ops[j]))
    requires i < |s.recs| && s.recs[i].Pwm? && s.recs[i].active && TransmitsUntilLast(s, ops, s.recs[i])
    ensures var t := s.recs[i];
            On(RunWrites(s, ops), t.chip, t.gpio, PWM) ==
            MarkWrites(t, L.Run(L.Life(t, 0), EventsOf(s, ops, t)).1)
  {
    var t := s.recs[i];
    if ops == [] {
      NothingOn(t.chip, t.gpio, PWM);
    } else {
      var front, op := ops[..|ops| - 1], ops[|ops| - 1];
      EarlierToo(s, front, t);
      hide Inv;
      hide EventOf;
      hide OpWrites;
      hide Apply;
      hide On;
      hide MarkWrites;
      hide L.Step;
      RunWritesMarks(s, front, i);
      var k := RunIsLife(s, front, i);
      InvRun(s, front);
      var mid, evs := RunOps(s, front), EventsOf(s, front, t);
      var l := L.Run(L.Life(t, 0), evs).0;
      var more := EventOf(mid, op, l.t);
      OpWritesMarks(mid, op, k, l.clock);
      SameLine(L.Life(t, 0), evs);
      EventLegal(mid, op, l.t);
      RunSnoc(L.Life(t, 0), evs, more);
      SameWrites(t, l.t, L.Run(l, more).1);
      MarkWritesBoth(t, L.Run(L.Life(t, 0), evs).1, L.Run(l, more).1);
      OnBoth(RunWrites(s, front), OpWrites(mid, op), t.chip, t.gpio, PWM);
    }
  }

  lemma EarlierToo(s: Sched, ops: seq<Op>, t: Tx)
    requires AllOk(s.recs) && t.Pwm? && t.Ok() && L.Run(L.Life(t, 0), EventsOf(s, ops, t)).0.t.active
    ensures TransmitsUntilLast(s, ops, t)
  {
    if ops != [] {
      var front := ops[..|ops| - 1];
      var evs := EventsOf(s, front, t);
      var l := L.Run(L.Life(t, 0), evs).0;
      var more := EventOf(RunOps(s, front), ops[|ops| - 1], l.t);
      assert |more| <= 1;
      RunSnoc(L.Life(t, 0), evs, more);
      L.ActiveBefore(l, more);
    }
  }
}
