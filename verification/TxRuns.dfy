/**
 Whole runs of the transmitter: passes interleaved in any order with API calls. Every reachable
 list keeps one active record per key, found first by the lookup; and the life of each record
 inside a run, among any mix of other records, is a life as studied in TxLife.dfy.
 */
module TxRuns {
  import opened TxModel
  import L = TxLife

  datatype Op =
    | DoPass
    | DoPwm(chip: int, gpio: int, on: int, off: int, offset: int, cycles: int, minDelay: nat)
    | DoWave(chip: int, gpio: int, pulses: seq<Pulse>)
    | DoRelease(chip: int, gpio: int)
    | DoStop(chip: int)

  function Apply(s: Sched, op: Op): (r: Sched)
    requires AllOk(s.recs)
    ensures AllOk(r.recs)
  {
    match op
    case DoPass => Pass(s).0
    case DoPwm(c, g, on, off, offset, cycles, m) => SetAsPwm(s, c, g, on, off, offset, cycles, m).0
    case DoWave(c, g, p) => SetAsWave(s, c, g, p).0
    case DoRelease(c, g) => Release(s, c, g)
    case DoStop(c) => StopChip(s, c)
  }

  function RunOps(s: Sched, ops: seq<Op>): (r: Sched)
    requires AllOk(s.recs)
    ensures AllOk(r.recs)
  {
    if ops == [] then s else Apply(RunOps(s, ops[..|ops| - 1]), ops[|ops| - 1])
  }

  predicate SameKey(a: Tx, b: Tx) { b.HasKey(a.chip, a.gpio, a.Kind()) }

  /** An active record is the first of its key: so there is at most one, ahead of all inactive ones. */
  ghost predicate FirstOfKey(recs: seq<Tx>) {
    forall i, j :: 0 <= i < j < |recs| && SameKey(recs[i], recs[j]) ==> !recs[j].active
  }

  ghost predicate Distinct(recs: seq<Tx>, made: nat) {
    && (forall i :: 0 <= i < |recs| ==> recs[i].id < made)
    && (forall i, j :: 0 <= i < j < |recs| ==> recs[i].id != recs[j].id)
  }

  ghost predicate AllTidy(recs: seq<Tx>) {
    forall i :: 0 <= i < |recs| && recs[i].Pwm? ==> L.Tidy(recs[i].queue)
  }

  ghost predicate Inv(s: Sched) {
    AllOk(s.recs) && FirstOfKey(s.recs) && Distinct(s.recs, s.made) && AllTidy(s.recs)
  }

  /** The cycle counts the interface documents: 0 for ever, otherwise how many. */
  predicate LegalOp(op: Op) { op.DoPwm? ==> op.cycles >= -1 }

  // ------------------------------------------------------------------ what a walk keeps

  /** Everything a record keeps when it is served: whose it is, and a tidy queue. */
  ghost predicate Heir(t: Tx, u: Tx) {
    && u.id == t.id && u.chip == t.chip && u.gpio == t.gpio && u.Kind() == t.Kind()
    && (u.active ==> t.active)
    && (t.Pwm? && L.Tidy(t.queue) ==> u.Pwm? && L.Tidy(u.queue))
  }

  lemma ServeHeir(t: Tx)
    requires t.Ok()
    ensures Heir(t, Serve(t).0)
  {
    if t.Pwm? && t.next <= 0 && L.Tidy(t.queue) && AtStart(t) {
      L.StartPlays(t);
    }
  }

  /** Each kept record was an active record of the list. */
  lemma {:induction false} KeptFrom(recs: seq<Tx>, k: nat) returns (i: nat)
    requires AllOk(recs) && k < |Kept(recs)|
    ensures i < |recs| && recs[i].active && Kept(recs)[k] == Serve(recs[i]).0
  {
    var front := recs[..|recs| - 1];
    if k < |Kept(front)| {
      i := KeptFrom(front, k);
    } else {
      i := |recs| - 1;
    }
  }

  /** And each active record is kept. */
  lemma {:induction false} KeptTo(recs: seq<Tx>, i: nat) returns (k: nat)
    requires AllOk(recs) && i < |recs| && recs[i].active
    ensures k < |Kept(recs)| && Kept(recs)[k] == Serve(recs[i]).0
  {
    var front := recs[..|recs| - 1];
    if i < |front| {
      k := KeptTo(front, i);
    } else {
      k := |Kept(front)|;
    }
  }

  lemma {:induction false} KeptInv(recs: seq<Tx>, made: nat)
    requires AllOk(recs) && FirstOfKey(recs) && Distinct(recs, made) && AllTidy(recs)
    ensures FirstOfKey(Kept(recs)) && Distinct(Kept(recs), made) && AllTidy(Kept(recs))
  {
    hide Serve;
    if recs != [] {
      var front, last := recs[..|recs| - 1], recs[|recs| - 1];
      KeptInv(front, made);
      ServeHeir(last);
      if last.active {
        KeptApart(recs);
        OneMore(Kept(front), Serve(last).0, made);
        hide FirstOfKey;
        hide Distinct;
        hide AllTidy;
      }
    }
  }

  lemma OneMore(recs: seq<Tx>, t: Tx, made: nat)
    requires FirstOfKey(recs) && Distinct(recs, made) && AllTidy(recs) && t.id < made
    requires forall k :: 0 <= k < |recs| ==> recs[k].id != t.id && !SameKey(recs[k], t)
    requires t.Pwm? ==> L.Tidy(t.queue)
    ensures FirstOfKey(recs + [t]) && Distinct(recs + [t], made) && AllTidy(recs + [t])
  {
  }

  /** No kept record shares its identity or key with the last active one. */
  lemma KeptApart(recs: seq<Tx>)
    requires AllOk(recs) && FirstOfKey(recs) && recs != [] && recs[|recs| - 1].active
    requires forall i, j :: 0 <= i < j < |recs| ==> recs[i].id != recs[j].id
    ensures var kept, u := Kept(recs[..|recs| - 1]), Serve(recs[|recs| - 1]).0;
            forall k :: 0 <= k < |kept| ==> kept[k].id != u.id && !SameKey(kept[k], u)
  {
    hide Serve;
    hide Kept;
    var front, last := recs[..|recs| - 1], recs[|recs| - 1];
    ServeHeir(last);
    forall k | 0 <= k < |Kept(front)|
      ensures Kept(front)[k].id != last.id && !SameKey(Kept(front)[k], last)
    {
      var i := KeptFrom(front, k);
      ServeHeir(front[i]);
      assert recs[i] == front[i];
    }
  }

  lemma InvAged(s: Sched)
    requires Inv(s)
    ensures var a := Aged(s.recs, s.delay); FirstOfKey(a) && Distinct(a, s.made) && AllTidy(a) && AllOk(a)
  {
    var a := Aged(s.recs, s.delay);
    assert forall i :: 0 <= i < |a| ==> a[i] == Age(s.recs[i], s.delay);
  }

  lemma InvPass(s: Sched)
    requires Inv(s)
    ensures Inv(Pass(s).0)
  {
    var a := Aged(s.recs, s.delay);
    InvAged(s);
    if !HeadDeleted(a) {
      KeptInv(a, s.made);
    }
  }

  // ------------------------------------------------------------------ what calls keep

  lemma {:induction false} FoundIsFirst(recs: seq<Tx>, i: nat, chip: int, gpio: int, kind: Kind)
    requires FirstOfKey(recs) && i < |recs| && recs[i].active && recs[i].HasKey(chip, gpio, kind)
    ensures Lookup(recs, chip, gpio, kind) == i
  {
  }

  /** lgTxBusy answers whether any record of the key is transmitting. */
  lemma BusyMeansActive(recs: seq<Tx>, chip: int, gpio: int, kind: Kind)
    requires FirstOfKey(recs)
    ensures Transmitting(recs, chip, gpio, kind) <==>
            exists i :: 0 <= i < |recs| && recs[i].active && recs[i].HasKey(chip, gpio, kind)
  {
    forall i | 0 <= i < |recs| && recs[i].active && recs[i].HasKey(chip, gpio, kind)
      ensures Transmitting(recs, chip, gpio, kind)
    {
      FoundIsFirst(recs, i, chip, gpio, kind);
    }
  }

  lemma InvReplaced(s: Sched, i: nat, u: Tx)
    requires Inv(s) && i < |s.recs| && Heir(s.recs[i], u) && u.Ok()
    ensures Inv(Replaced(s, i, u))
  {
  }

  lemma InvPushed(s: Sched, u: Tx)
    requires Inv(s) && u.Ok() && u.id == s.made && (u.Pwm? ==> L.Tidy(u.queue))
    requires !Transmitting(s.recs, u.chip, u.gpio, u.Kind())
    ensures Inv(Pushed(s, u))
  {
    var r := [u] + s.recs;
    assert forall i :: 1 <= i < |r| ==> r[i] == s.recs[i - 1];
    forall j | 1 <= j < |r| && SameKey(u, r[j])
      ensures !r[j].active
    {
      if r[j].active {
        FoundIsFirst(s.recs, j - 1, u.chip, u.gpio, u.Kind());
      }
    }
  }

  lemma InvPwm(s: Sched, op: Op)
    requires Inv(s) && op.DoPwm? && LegalOp(op)
    ensures Inv(Apply(s, op))
  {
    var i := Lookup(s.recs, op.chip, op.gpio, PWM);
    if i < |s.recs| && s.recs[i].active {
      if op.on == 0 && op.off == 0 {
        InvReplaced(s, i, s.recs[i].Off());
      } else if op.on + op.off > op.minDelay {
        var e := Entry(op.on, op.off, Stored(op.cycles));
        L.AddAsks(s.recs[i].queue, e);
        InvReplaced(s, i, WithEntry(s.recs[i], e));
      }
    } else if op.on + op.off > op.minDelay {
      InvPushed(s, NewPwm(s, op.chip, op.gpio, op.on, op.off, op.offset, op.cycles));
    }
  }

  lemma InvWave(s: Sched, op: Op)
    requires Inv(s) && op.DoWave?
    ensures Inv(Apply(s, op))
  {
    var i := Lookup(s.recs, op.chip, op.gpio, WAVE);
    if i < |s.recs| && s.recs[i].active {
      if |s.recs[i].waves| < TX_BUF {
        InvReplaced(s, i, s.recs[i].(waves := s.recs[i].waves + [op.pulses]));
      }
    } else {
      InvPushed(s, Wave(s.made, op.chip, op.gpio, true, s.delay, [op.pulses], 0));
    }
  }

  lemma InvSilence(s: Sched, chip: int, gpio: int, kind: Kind)
    requires Inv(s)
    ensures Inv(s.(recs := Silence(s.recs, chip, gpio, kind)))
  {
    var i := Lookup(s.recs, chip, gpio, kind);
    if i < |s.recs| {
      InvReplaced(s, i, s.recs[i].Off());
    }
  }

  lemma InvApply(s: Sched, op: Op)
    requires Inv(s) && LegalOp(op)
    ensures Inv(Apply(s, op))
  {
    match op
    case DoPass => InvPass(s);
    case DoPwm(_, _, _, _, _, _, _) => InvPwm(s, op);
    case DoWave(_, _, _) => InvWave(s, op);
    case DoRelease(c, g) =>
      InvSilence(s, c, g, PWM);
      InvSilence(s.(recs := Silence(s.recs, c, g, PWM)), c, g, WAVE);
    case DoStop(c) =>
      var r := StopChip(s, c).recs;
      assert forall i :: 0 <= i < |r| ==> r[i] == StopOne(s.recs[i], c);
  }

  /** In every reachable state each key has at most one active record, ahead of the inactive ones,
      each queue holds one to ten entries, and only its last pending entry may be endless. */
  lemma {:induction false} InvRun(s: Sched, ops: seq<Op>)
    requires Inv(s) && forall i :: 0 <= i < |ops| ==> LegalOp(ops[i])
    ensures Inv(RunOps(s, ops))
  {
    if ops != [] {
      InvRun(s, ops[..|ops| - 1]);
      InvApply(RunOps(s, ops[..|ops| - 1]), ops[|ops| - 1]);
    }
  }

  lemma InvInitially(sec: int, nsec: int)
    ensures Inv(Sched([], 0, sec, nsec, 0))
  {
  }

  // -------------------------------------------------------- one record inside a run

  /** What an operation means for the active PWM record t of s. */
  function EventOf(s: Sched, op: Op, t: Tx): seq<L.Event> {
    match op
    case DoPass =>
      if HeadDeleted(Aged(s.recs, s.delay)) then [L.Skip(s.delay)] else [L.Visit(s.delay)]
    case DoPwm(c, g, on, off, _, cycles, m) =>
      if !t.HasKey(c, g, PWM) then []
      else if on == 0 && off == 0 then [L.Kill]
      else if on + off <= m then []
      else [L.Add(Entry(on, off, Stored(cycles)))]
    case DoWave(_, _, _) => []
    case DoRelease(c, g) => if t.HasKey(c, g, PWM) then [L.Kill] else []
    case DoStop(c) => if t.chip == c then [L.Kill] else []
  }

  lemma OneEvent(l: L.Life, ev: L.Event)
    requires l.t.Pwm? && l.t.Ok()
    ensures L.Run(l, [ev]) == L.Step(l, ev)
  {
    assert [ev][..0] == [];
    assert [] + L.Step(l, ev).1 == L.Step(l, ev).1;
  }

  lemma PassIsEvent(s: Sched, op: Op, i: nat, clock: int) returns (k: nat)
    requires Inv(s) && LegalOp(op) && i < |s.recs| && s.recs[i].Pwm? && s.recs[i].active
    requires op.DoPass?
    ensures var evs := EventOf(s, op, s.recs[i]);
            k < |Apply(s, op).recs| && Apply(s, op).recs[k] == L.Run(L.Life(s.recs[i], clock), evs).0.t
  {
    OneEvent(L.Life(s.recs[i], clock), EventOf(s, op, s.recs[i])[0]);
    hide L.Run;
    var a := Aged(s.recs, s.delay);
    if HeadDeleted(a) {
      k := i - 1;
    } else {
      k := KeptTo(a, i);
    }
  }

  lemma PwmIsEvent(s: Sched, op: Op, i: nat, clock: int) returns (k: nat)
    requires Inv(s) && LegalOp(op) && i < |s.recs| && s.recs[i].Pwm? && s.recs[i].active
    requires op.DoPwm?
    ensures var evs := EventOf(s, op, s.recs[i]);
            k < |Apply(s, op).recs| && Apply(s, op).recs[k] == L.Run(L.Life(s.recs[i], clock), evs).0.t
  {
    var t := s.recs[i];
    var evs := EventOf(s, op, t);
    k := i;
    if evs != [] {
      OneEvent(L.Life(t, clock), evs[0]);
    }
    if t.HasKey(op.chip, op.gpio, PWM) {
      FoundIsFirst(s.recs, i, op.chip, op.gpio, PWM);
    } else if !Transmitting(s.recs, op.chip, op.gpio, PWM) && op.on + op.off > op.minDelay {
      k := i + 1;
    }
  }

  lemma OtherIsEvent(s: Sched, op: Op, i: nat, clock: int) returns (k: nat)
    requires Inv(s) && LegalOp(op) && i < |s.recs| && s.recs[i].Pwm? && s.recs[i].active
    requires op.DoWave? || op.DoRelease? || op.DoStop?
    ensures var evs := EventOf(s, op, s.recs[i]);
            k < |Apply(s, op).recs| && Apply(s, op).recs[k] == L.Run(L.Life(s.recs[i], clock), evs).0.t
  {
    var t := s.recs[i];
    var evs := EventOf(s, op, t);
    k := i;
    if evs != [] {
      OneEvent(L.Life(t, clock), evs[0]);
    }
    if op.DoWave? {
      if !Transmitting(s.recs, op.chip, op.gpio, WAVE) {
        k := i + 1;
      }
    } else if op.DoRelease? {
      if t.HasKey(op.chip, op.gpio, PWM) {
        FoundIsFirst(s.recs, i, op.chip, op.gpio, PWM);
      }
    }
  }

  /** After one operation the record is in the list as its own life says. */
  lemma OpIsEvent(s: Sched, op: Op, i: nat, clock: int) returns (k: nat)
    requires Inv(s) && LegalOp(op) && i < |s.recs| && s.recs[i].Pwm? && s.recs[i].active
    ensures var evs := EventOf(s, op, s.recs[i]);
            k < |Apply(s, op).recs| && Apply(s, op).recs[k] == L.Run(L.Life(s.recs[i], clock), evs).0.t
  {
    hide Inv;
    hide Apply;
    hide EventOf;
    hide L.Run;
    if op.DoPass? {
      k := PassIsEvent(s, op, i, clock);
    } else if op.DoPwm? {
      k := PwmIsEvent(s, op, i, clock);
    } else {
      k := OtherIsEvent(s, op, i, clock);
    }
  }

  ghost predicate NoneActive(s: Sched, id: nat) {
    forall i :: 0 <= i < |s.recs| && s.recs[i].id == id ==> !s.recs[i].active
  }

  lemma NonePass(s: Sched, id: nat)
    requires Inv(s) && NoneActive(s, id)
    ensures NoneActive(Pass(s).0, id)
  {
    var a := Aged(s.recs, s.delay);
    if !HeadDeleted(a) {
      forall k | 0 <= k < |Kept(a)|
        ensures Kept(a)[k].id != id
      {
        var i := KeptFrom(a, k);
        ServeHeir(a[i]);
        assert a[i] == Age(s.recs[i], s.delay);
      }
    }
  }

  lemma NoneSilence(s: Sched, id: nat, chip: int, gpio: int, kind: Kind)
    requires AllOk(s.recs) && NoneActive(s, id)
    ensures NoneActive(s.(recs := Silence(s.recs, chip, gpio, kind)), id)
  {
  }

  /** A record that stopped never transmits again, and its identity is never reused. */
  lemma StoppedStays(s: Sched, op: Op, id: nat)
    requires Inv(s) && id < s.made && NoneActive(s, id)
    ensures NoneActive(Apply(s, op), id) && id < Apply(s, op).made
  {
    match op
    case DoPass => NonePass(s, id);
    case DoPwm(_, _, _, _, _, _, _) =>
    case DoWave(_, _, _) =>
    case DoRelease(c, g) =>
      NoneSilence(s, id, c, g, PWM);
      NoneSilence(s.(recs := Silence(s.recs, c, g, PWM)), id, c, g, WAVE);
    case DoStop(c) =>
      var r := StopChip(s, c).recs;
      assert forall i :: 0 <= i < |r| ==> r[i] == StopOne(s.recs[i], c);
  }

  /** The events of a run as they concern the record that started as t. */
  function EventsOf(s: Sched, ops: seq<Op>, t: Tx): seq<L.Event>
    requires AllOk(s.recs) && t.Pwm? && t.Ok()
  {
    if ops == [] then []
    else
      var front := ops[..|ops| - 1];
      var evs := EventsOf(s, front, t);
      evs + EventOf(RunOps(s, front), ops[|ops| - 1], L.Run(L.Life(t, 0), evs).0.t)
  }

  /** The delays applied by the passes of a run. */
  function TimeSlept(s: Sched, ops: seq<Op>): int
    requires AllOk(s.recs)
  {
    if ops == [] then 0
    else
      var front := ops[..|ops| - 1];
      TimeSlept(s, front) + if ops[|ops| - 1].DoPass? then RunOps(s, front).delay else 0
  }

  lemma RunSnoc(l: L.Life, evs: seq<L.Event>, more: seq<L.Event>)
    requires l.t.Pwm? && l.t.Ok() && |more| <= 1
    ensures L.Run(l, evs + more).0 == L.Run(L.Run(l, evs).0, more).0
    ensures L.Run(l, evs + more).1 == L.Run(l, evs).1 + L.Run(L.Run(l, evs).0, more).1
  {
    if more == [] {
      assert evs + more == evs;
      assert L.Run(l, evs).1 + [] == L.Run(l, evs).1;
    } else {
      assert (evs + more)[..|evs|] == evs && (evs + more)[|evs|] == more[0];
      OneEvent(L.Run(l, evs).0, more[0]);
    }
  }

  /** The record of life l is in the list if it still transmits, and otherwise nowhere active. */
  ghost predicate Lives(s: Sched, l: L.Life, id: nat, k: nat) {
    && l.t.Pwm? && l.t.Ok() && l.t.id == id && id < s.made
    && (if l.t.active then k < |s.recs| && s.recs[k] == l.t else NoneActive(s, id))
  }

  lemma LivesOn(s: Sched, op: Op, l: L.Life, id: nat, k: nat) returns (k': nat)
    requires Inv(s) && LegalOp(op) && Lives(s, l, id, k)
    ensures Lives(Apply(s, op), L.Run(l, EventOf(s, op, l.t)).0, id, k')
    ensures l.t.active ==>
              L.Run(l, EventOf(s, op, l.t)).0.clock == l.clock + if op.DoPass? then s.delay else 0
  {
    hide Apply;
    hide EventOf;
    hide L.Run;
    k' := k;
    InvApply(s, op);
    RunClock(s, op, l);
    if l.t.active {
      k' := OpIsEvent(s, op, k, l.clock);
      OnlyOne(Apply(s, op), k');
    } else {
      StoppedStays(s, op, id);
      EventLegal(s, op, l.t);
      DeadRun(l, EventOf(s, op, l.t));
    }
  }

  lemma RunClock(s: Sched, op: Op, l: L.Life)
    requires l.t.Pwm? && l.t.Ok()
    ensures var r := L.Run(l, EventOf(s, op, l.t)).0;
            && r.t.Pwm? && r.t.Ok() && r.t.id == l.t.id
            && (l.t.active ==> r.clock == l.clock + if op.DoPass? then s.delay else 0)
  {
    var evs := EventOf(s, op, l.t);
    if evs != [] {
      OneEvent(l, evs[0]);
    }
  }

  /** A record in the list is the only one of its identity. */
  lemma OnlyOne(s: Sched, k: nat)
    requires Inv(s) && k < |s.recs|
    ensures s.recs[k].id < s.made && (!s.recs[k].active ==> NoneActive(s, s.recs[k].id))
  {
    assert Distinct(s.recs, s.made);
  }

  /** The projection theorem. Whatever passes, calls and other records a run contains, a PWM record
      lives the life its own events dictate, on a clock that counts the delays applied. */
  lemma {:induction false} RunIsLife(s: Sched, ops: seq<Op>, i: nat) returns (k: nat)
    requires Inv(s) && (forall j :: 0 <= j < |ops| ==> LegalOp(ops[j]))
    requires i < |s.recs| && s.recs[i].Pwm? && s.recs[i].active
    ensures var t := s.recs[i]; var evs := EventsOf(s, ops, t); var l := L.Run(L.Life(t, 0), evs).0;
            && L.LegalEvents(evs)
            && Lives(RunOps(s, ops), l, t.id, k)
            && (l.t.active ==> l.clock == TimeSlept(s, ops))
  {
    hide Apply;
    hide EventOf;
    hide L.Step;
    var t := s.recs[i];
    k := i;
    if ops != [] {
      var front, op := ops[..|ops| - 1], ops[|ops| - 1];
      k := RunIsLife(s, front, i);
      InvRun(s, front);
      var mid := RunOps(s, front);
      var evs := EventsOf(s, front, t);
      var l := L.Run(L.Life(t, 0), evs).0;
      EventLegal(mid, op, l.t);
      RunSnoc(L.Life(t, 0), evs, EventOf(mid, op, l.t));
      k := LivesOn(mid, op, l, t.id, k);
      if !l.t.active {
        DeadRun(l, EventOf(mid, op, l.t));
      }
    }
  }

  lemma EventLegal(s: Sched, op: Op, t: Tx)
    requires LegalOp(op)
    ensures |EventOf(s, op, t)| <= 1 && L.LegalEvents(EventOf(s, op, t))
  {
  }

  lemma DeadRun(l: L.Life, evs: seq<L.Event>)
    requires l.t.Pwm? && l.t.Ok() && !l.t.active && |evs| <= 1
    ensures L.Run(l, evs).0 == l
  {
    if evs != [] {
      OneEvent(l, evs[0]);
    }
  }

  /** Together: in every run of the transmitter, from the moment a PWM record is made, its edges are
      on the ideal timeline from its first due time and its cycles are those the reference player
      accepts; and while it transmits, its next edge in the list is the ideal one's. */
  lemma EveryRunOnTimeAndFaithful(s: Sched, ops: seq<Op>, i: nat)
    requires Inv(s) && (forall j :: 0 <= j < |ops| ==> LegalOp(ops[j]))
    requires i < |s.recs| && s.recs[i].Pwm? && s.recs[i].active && AtStart(s.recs[i])
    ensures var t := s.recs[i]; var r := L.Run(L.Life(t, 0), EventsOf(s, ops, t));
            && L.OnTime(r.1, t.next)
            && L.Accept(L.Owes(t.queue), r.1).Some?
            && (r.0.t.active ==>
                exists k :: 0 <= k < |RunOps(s, ops).recs| && RunOps(s, ops).recs[k] == r.0.t
                            && L.Timed(L.Life(RunOps(s, ops).recs[k], TimeSlept(s, ops)), r.1, t.next)
                            && L.Accept(L.Owes(t.queue), r.1) == L.Some(L.Owes(RunOps(s, ops).recs[k].queue)))
  {
    var t := s.recs[i];
    var evs := EventsOf(s, ops, t);
    var k := RunIsLife(s, ops, i);
    L.NoDrift(L.Life(t, 0), evs);
    L.Faithful(L.Life(t, 0), evs);
  }
}
