/**
 The life of one PWM record, whatever passes and calls it meets. Two laws about every run:
 edges fall due on an ideal timeline that lateness cannot move, and the cycles started are
 exactly those asked for, in order.
 */
module TxLife {
  import opened TxModel

  datatype Option<T> = None | Some(value: T)

  /** What can happen to a record: a pass that reaches it, a pass that stops short of it, one
      more entry, or the order to stop. */
  datatype Event = Visit(d: int) | Skip(d: int) | Add(e: Entry) | Kill

  /** `clock` is the total of the delays applied so far. */
  datatype Life = Life(t: Tx, clock: int)

  datatype Mark =
    | Begin(due: int, on: int, off: int)
    | Middle(due: int)
    | End(due: int)
    | Asked(e: Entry)

  function Due(l: Life): int { l.clock + l.t.next }

  /** Which edge a record that fires now is writing. */
  function MarkOf(t: Tx, due: int): Mark
    requires t.Pwm? && t.Ok()
  {
    var h := Yield(t.queue)[0];
    if !AtStart(t) then Middle(due)
    else if h.cycles == 0 then End(due)
    else Begin(due, h.on, h.off)
  }

  /** High for the on-part of a cycle, low otherwise. */
  function WriteOf(t: Tx, m: Mark): Write
  {
    Level(t.chip, t.gpio, m.Begin? && m.on != 0)
  }

  lemma MarksAreTheWrites(t: Tx, due: int)
    requires t.Pwm? && t.Ok()
    ensures FirePwm(t).1 == [WriteOf(t, MarkOf(t, due))]
    ensures t.active ==> MarkOf(t, due).End? == !FirePwm(t).0.active
  {
  }

  function Step(l: Life, ev: Event): (r: (Life, seq<Mark>))
    requires l.t.Pwm? && l.t.Ok()
    ensures r.0.t.Pwm? && r.0.t.Ok()
  {
    if !l.t.active then (l, [])
    else
      match ev
      case Visit(d) =>
        var u := Age(l.t, d);
        var v := Life(Serve(u).0, l.clock + d);
        (v, if u.next <= 0 then [MarkOf(u, Due(l))] else [])
      case Skip(d) => (Life(Age(l.t, d), l.clock + d), [])
      case Add(e) => (Life(WithEntry(l.t, e), l.clock), if HasRoom(l.t.queue) then [Asked(e)] else [])
      case Kill => (Life(l.t.Off(), l.clock), [])
  }

  function Run(l: Life, evs: seq<Event>): (r: (Life, seq<Mark>))
    requires l.t.Pwm? && l.t.Ok()
    ensures r.0.t.Pwm? && r.0.t.Ok()
  {
    if evs == [] then (l, [])
    else
      var before := Run(l, evs[..|evs| - 1]);
      var s := Step(before.0, evs[|evs| - 1]);
      (s.0, before.1 + s.1)
  }

  // ------------------------------------------------------------------------ no drift

  /** Total length of the cycles begun. */
  function Length(log: seq<Mark>): int {
    if log == [] then 0
    else
      var m := log[|log| - 1];
      Length(log[..|log| - 1]) + if m.Begin? then m.on + m.off else 0
  }

  /** The last edge written. */
  function LastEdge(log: seq<Mark>): (r: Option<Mark>)
    ensures r.Some? ==> !r.value.Asked?
  {
    if log == [] then None
    else if log[|log| - 1].Asked? then LastEdge(log[..|log| - 1])
    else Some(log[|log| - 1])
  }

  /** Mark m is where an undisturbed source started at t0 would put it after `before`. */
  predicate Ideal(before: seq<Mark>, m: Mark, t0: int) {
    match m
    case Begin(due, _, _) => due == t0 + Length(before)
    case End(due) => due == t0 + Length(before)
    case Middle(due) =>
      var e := LastEdge(before);
      e.Some? && e.value.Begin? && due == e.value.due + e.value.on
    case Asked(_) => true
  }

  ghost predicate OnTime(log: seq<Mark>, t0: int) {
    forall i :: 0 <= i < |log| ==> Ideal(log[..i], log[i], t0)
  }

  /** What is true of a record between events: its next edge is due when the ideal source's is. */
  ghost predicate Timed(l: Life, log: seq<Mark>, t0: int)
    requires l.t.Pwm? && l.t.Ok()
  {
    var e := LastEdge(log);
    if !l.t.active then true
    else if AtStart(l.t) then Due(l) == t0 + Length(log)
    else
      && e.Some? && e.value.Begin?
      && Due(l) == e.value.due + e.value.on
      && t0 + Length(log) == e.value.due + e.value.on + e.value.off
      && e.value.off == l.t.queue[0].off
  }

  lemma OnTimeExtends(log: seq<Mark>, m: Mark, t0: int)
    requires OnTime(log, t0) && Ideal(log, m, t0)
    ensures OnTime(log + [m], t0)
  {
    forall i | 0 <= i < |log + [m]|
      ensures Ideal((log + [m])[..i], (log + [m])[i], t0)
    {
      assert (log + [m])[..i] == log[..i];
      assert log[..|log|] == log;
    }
  }

  lemma TimedStep(l: Life, ev: Event, log: seq<Mark>, t0: int)
    requires l.t.Pwm? && l.t.Ok()
    requires OnTime(log, t0) && Timed(l, log, t0)
    ensures OnTime(log + Step(l, ev).1, t0) && Timed(Step(l, ev).0, log + Step(l, ev).1, t0)
  {
    var s := Step(l, ev);
    if s.1 == [] {
      assert log + s.1 == log;
    } else {
      var m := s.1[0];
      assert s.1 == [m] && (log + [m])[..|log|] == log;
      OnTimeExtends(log, m, t0);
    }
  }

  /** Drift-free: from a record's creation on, through any events, the k-th cycle is due at the
      first due time plus the lengths of all earlier cycles, and each falling edge one on-time
      after its rising edge, however late the passes that wrote them. */
  lemma {:induction false} NoDrift(l: Life, evs: seq<Event>)
    requires l.t.Pwm? && l.t.Ok() && AtStart(l.t)
    ensures OnTime(Run(l, evs).1, Due(l)) && Timed(Run(l, evs).0, Run(l, evs).1, Due(l))
  {
    if evs != [] {
      var front := evs[..|evs| - 1];
      NoDrift(l, front);
      TimedStep(Run(l, front).0, evs[|evs| - 1], Run(l, front).1, Due(l));
    }
  }

  // -------------------------------------------------------------- cycle conservation

  datatype Cycle = Cycle(on: int, off: int)

  /** What a queue still owes: a finite list of cycles, then possibly one for ever. */
  datatype Demand = Demand(owed: seq<Cycle>, forever: Option<Cycle>)

  function Times(c: Cycle, n: int): (r: seq<Cycle>)
    ensures |r| == if n < 0 then 0 else n
    ensures forall i :: 0 <= i < |r| ==> r[i] == c
  {
    if n <= 0 then [] else [c] + Times(c, n - 1)
  }

  function Wanted(e: Entry): Demand {
    if e.cycles > 0 then Demand(Times(Cycle(e.on, e.off), e.cycles), None)
    else Demand([], Some(Cycle(e.on, e.off)))
  }

  function Owes(q: seq<Entry>): Demand {
    if q == [] then Demand([], None)
    else if q[0].cycles > 0 then
      var rest := Owes(q[1..]);
      Demand(Times(Cycle(q[0].on, q[0].off), q[0].cycles) + rest.owed, rest.forever)
    else if |q| > 1 then Owes(q[1..])
    else if q[0].cycles == 0 then Demand([], None)
    else Wanted(q[0])
  }

  /** A new request follows all that is owed, and replaces what was to go on for ever. */
  function Ask(d: Demand, e: Entry): Demand {
    Demand(d.owed + Wanted(e).owed, Wanted(e).forever)
  }

  /** The next cycle to play, or nothing. */
  function Next(d: Demand): Option<Cycle> {
    if d.owed != [] then Some(d.owed[0]) else d.forever
  }

  function Played(d: Demand): Demand {
    if d.owed != [] then d.(owed := d.owed[1..]) else d
  }

  /** The reference player: accepts a log mark by mark, or refuses it. */
  function Accept(d: Demand, log: seq<Mark>): Option<Demand> {
    if log == [] then Some(d)
    else
      match (Accept(d, log[..|log| - 1]), log[|log| - 1])
      case (None, _) => None
      case (Some(n), Begin(_, on, off)) => if Next(n) == Some(Cycle(on, off)) then Some(Played(n)) else None
      case (Some(n), End(_)) => if Next(n) == None then Some(n) else None
      case (Some(n), Middle(_)) => Some(n)
      case (Some(n), Asked(e)) => Some(Ask(n, e))
  }

  predicate Legal(e: Entry) { e.cycles > 0 || e.cycles == -1 }

  /** Only the last pending entry may be endless. */
  ghost predicate Tidy(q: seq<Entry>) {
    && |q| > 0
    && q[0].cycles >= -1
    && forall i :: 0 < i < |q| ==> q[i].cycles > 0 || (i == |q| - 1 && q[i].cycles == -1)
  }

  lemma TidyTail(q: seq<Entry>)
    requires Tidy(q) && |q| > 1
    ensures Tidy(q[1..])
  {
  }

  lemma TidyQueued(q: seq<Entry>, e: Entry)
    requires Tidy(q) && |q| <= TX_BUF && Legal(e)
    ensures Tidy(Queued(q, e))
  {
  }

  lemma YieldOwes(q: seq<Entry>)
    requires |q| > 0
    ensures Owes(Yield(q)) == Owes(q)
  {
  }

  /** At the start of a cycle the record does what the reference player does. */
  lemma StartPlays(t: Tx)
    requires t.Pwm? && t.Ok() && Tidy(t.queue) && AtStart(t)
    ensures Tidy(FirePwm(t).0.queue)
    ensures var d, h := Owes(t.queue), Yield(t.queue)[0];
            && Next(d) == (if h.cycles == 0 then None else Some(Cycle(h.on, h.off)))
            && (h.cycles != 0 ==> Owes(FirePwm(t).0.queue) == Played(d))
  {
    var q := Yield(t.queue);
    YieldOwes(t.queue);
    if |t.queue| > 1 {
      TidyTail(t.queue);
    }
    var h := q[0];
    var q' := q[0 := h.(cycles := CountDown(h.cycles))];
    assert FirePwm(t).0.queue == q';
    assert q'[1..] == q[1..];
  }

  lemma OwesOne(e: Entry)
    requires Legal(e)
    ensures Owes([e]) == Wanted(e)
  {
    assert [e][1..] == [];
    assert Wanted(e).owed + [] == Wanted(e).owed;
  }

  lemma {:induction false} AskedOwes(q: seq<Entry>, e: Entry)
    requires Tidy(q) && Legal(e)
    requires |q| > 1 ==> q[|q| - 1].cycles != -1
    ensures Owes(q + [e]) == Ask(Owes(q), e)
    decreases |q|
  {
    assert (q + [e])[1..] == q[1..] + [e];
    var c := Times(Cycle(q[0].on, q[0].off), q[0].cycles);
    if |q| > 1 {
      TidyTail(q);
      AskedOwes(q[1..], e);
      assert c + (Owes(q[1..]).owed + Wanted(e).owed) == (c + Owes(q[1..]).owed) + Wanted(e).owed;
    } else {
      OwesOne(e);
      assert q[1..] + [e] == [e];
      assert Owes(q[1..]) == Demand([], None);
      assert c + [] == c;
    }
  }

  /** Taking back a pending endless entry leaves the finite demand as it was. */
  lemma {:induction false} DroppedOwes(q: seq<Entry>)
    requires Tidy(q) && |q| > 1 && q[|q| - 1].cycles == -1
    ensures Tidy(q[..|q| - 1])
    ensures Owes(q[..|q| - 1]).owed == Owes(q).owed
    decreases |q|
  {
    var p := q[..|q| - 1];
    assert p[1..] == q[1..][..|q| - 2];
    if |q| > 2 {
      TidyTail(q);
      DroppedOwes(q[1..]);
    } else {
      assert q[1..] == [q[1]];
      OwesOne(q[1]);
      var c := Times(Cycle(q[0].on, q[0].off), q[0].cycles);
      assert c + [] == c;
    }
  }

  /** Queueing an entry asks the reference player for it. */
  lemma AddAsks(q: seq<Entry>, e: Entry)
    requires Tidy(q) && |q| <= TX_BUF && Legal(e)
    ensures Tidy(Queued(q, e))
    ensures Owes(Queued(q, e)) == if HasRoom(q) then Ask(Owes(q), e) else Owes(q)
  {
    TidyQueued(q, e);
    if |q| > 1 && q[|q| - 1].cycles == -1 {
      var p := q[..|q| - 1];
      DroppedOwes(q);
      AskedOwes(p, e);
    } else if |q| < TX_BUF {
      AskedOwes(q, e);
    }
  }

  ghost predicate LegalEvents(evs: seq<Event>) {
    forall i :: 0 <= i < |evs| && evs[i].Add? ==> Legal(evs[i].e)
  }

  lemma AcceptExtends(d: Demand, log: seq<Mark>, more: seq<Mark>)
    requires |more| <= 1
    ensures more == [] ==> Accept(d, log + more) == Accept(d, log)
    ensures |more| == 1 && Accept(d, log).Some? ==>
              Accept(d, log + more) == Accept(Accept(d, log).value, more)
  {
    if more == [] {
      assert log + more == log;
    } else {
      assert (log + more)[..|log|] == log && more[..0] == [];
    }
  }

  lemma FaithfulStep(l: Life, ev: Event)
    requires l.t.Pwm? && l.t.Ok() && Tidy(l.t.queue) && l.t.active
    requires ev.Add? ==> Legal(ev.e)
    ensures var s := Step(l, ev);
            && Tidy(s.0.t.queue)
            && Accept(Owes(l.t.queue), s.1).Some?
            && (s.0.t.active ==> Accept(Owes(l.t.queue), s.1) == Some(Owes(s.0.t.queue)))
  {
    var d := Owes(l.t.queue);
    var s := Step(l, ev);
    match ev
    case Visit(n) =>
      var u := Age(l.t, n);
      if u.next <= 0 {
        assert s.1 == [MarkOf(u, Due(l))] && s.1[..0] == [];
        assert Accept(d, []) == Some(d);
        if AtStart(u) {
          StartPlays(u);
        }
      }
    case Skip(_) =>
    case Add(e) =>
      AddAsks(l.t.queue, e);
      if s.1 != [] {
        assert s.1 == [Asked(e)] && s.1[..0] == [];
      }
    case Kill =>
  }

  /** Cycle conservation: in every run the record behaves as the reference player: first in first
      out, each finite entry exactly its count of cycles, an endless one until the first cycle
      boundary after a successor, and an end only when nothing is owed. */
  lemma {:induction false} Faithful(l: Life, evs: seq<Event>)
    requires l.t.Pwm? && l.t.Ok() && Tidy(l.t.queue) && LegalEvents(evs)
    requires l.t.active
    ensures var r := Run(l, evs);
            && Tidy(r.0.t.queue)
            && Accept(Owes(l.t.queue), r.1).Some?
            && (r.0.t.active ==> Accept(Owes(l.t.queue), r.1) == Some(Owes(r.0.t.queue)))
  {
    var d := Owes(l.t.queue);
    if evs != [] {
      var front, ev := evs[..|evs| - 1], evs[|evs| - 1];
      assert LegalEvents(front);
      Faithful(l, front);
      var b := Run(l, front);
      var s := Step(b.0, ev);
      AcceptExtends(d, b.1, s.1);
      if b.0.t.active {
        FaithfulStep(b.0, ev);
      }
    }
  }

  // ---------------------------------------------- what the reference player guarantees

  function Begun(log: seq<Mark>): seq<Cycle> {
    if log == [] then []
    else
      var m := log[|log| - 1];
      Begun(log[..|log| - 1]) + if m.Begin? then [Cycle(m.on, m.off)] else []
  }

  function AskedFor(log: seq<Mark>): seq<Cycle> {
    if log == [] then []
    else
      var m := log[|log| - 1];
      AskedFor(log[..|log| - 1]) + if m.Asked? then Wanted(m.e).owed else []
  }

  ghost predicate AllFinite(log: seq<Mark>) {
    forall i :: 0 <= i < |log| && log[i].Asked? ==> log[i].e.cycles > 0
  }

  /** With finite requests only, cycles begun and cycles still owed are together exactly the
      cycles ever asked for, in the order asked. */
  lemma {:induction false} Conserved(d: Demand, log: seq<Mark>)
    requires d.forever == None && AllFinite(log) && Accept(d, log).Some?
    ensures Accept(d, log).value.forever == None
    ensures Begun(log) + Accept(d, log).value.owed == d.owed + AskedFor(log)
  {
    if log == [] {
      assert [] + d.owed == d.owed == d.owed + [];
    } else {
      var front, m := log[..|log| - 1], log[|log| - 1];
      Conserved(d, front);
      assert Begun(front) + [] == Begun(front) && AskedFor(front) + [] == AskedFor(front);
      var n := Accept(d, front).value;
      match m
      case Begin(_, on, off) =>
        assert n.owed == [Cycle(on, off)] + n.owed[1..];
        assert Begun(front) + n.owed == (Begun(front) + [Cycle(on, off)]) + n.owed[1..];
      case End(_) =>
      case Middle(_) =>
      case Asked(e) =>
        assert Begun(front) + (n.owed + Wanted(e).owed) == (Begun(front) + n.owed) + Wanted(e).owed;
    }
  }

  // -------------------------------------------------------------------- endless entries

  ghost predicate NoneAsked(log: seq<Mark>, from: nat, to: nat)
    requires to <= |log|
  {
    forall i :: from <= i < to ==> !log[i].Asked?
  }

  ghost predicate NoneBegun(log: seq<Mark>, from: nat, to: nat)
    requires to <= |log|
  {
    forall i :: from <= i < to ==> !log[i].Begin?
  }

  lemma {:induction false} AcceptFront(d: Demand, log: seq<Mark>, k: nat)
    requires k <= |log| && Accept(d, log).Some?
    ensures Accept(d, log[..k]).Some?
  {
    if k < |log| {
      AcceptFront(d, log[..|log| - 1], k);
      assert log[..|log| - 1][..k] == log[..k];
    } else {
      assert log[..k] == log;
    }
  }

  lemma AcceptOne(d: Demand, log: seq<Mark>, k: nat)
    requires k < |log|
    ensures log[..k + 1][..k] == log[..k] && log[..k + 1][k] == log[k]
  {
  }

  lemma {:induction false} StaysEndless(c: Cycle, log: seq<Mark>, k: nat)
    requires k <= |log| && Accept(Demand([], Some(c)), log).Some? && NoneAsked(log, 0, k)
    ensures Accept(Demand([], Some(c)), log[..k]) == Some(Demand([], Some(c)))
  {
    var d := Demand([], Some(c));
    if k > 0 {
      StaysEndless(c, log, k - 1);
      AcceptFront(d, log, k);
      AcceptOne(d, log, k - 1);
    }
  }

  /** What is owed after the first request in its place, until a cycle begins. */
  lemma {:induction false} OwesTheRequest(c: Cycle, log: seq<Mark>, j: nat, k: nat)
    requires j < k <= |log| && Accept(Demand([], Some(c)), log).Some?
    requires NoneAsked(log, 0, j) && log[j].Asked? && Legal(log[j].e) && NoneBegun(log, j + 1, k)
    requires log[j].e.cycles > 0 || NoneAsked(log, j + 1, k)
    ensures Accept(Demand([], Some(c)), log[..k]).Some?
    ensures var n := Accept(Demand([], Some(c)), log[..k]).value; var e := log[j].e;
            if e.cycles > 0 then n.owed != [] && n.owed[0] == Cycle(e.on, e.off)
            else n == Demand([], Some(Cycle(e.on, e.off)))
  {
    var d := Demand([], Some(c));
    AcceptFront(d, log, k);
    AcceptOne(d, log, k - 1);
    if k == j + 1 {
      StaysEndless(c, log, j);
    } else {
      OwesTheRequest(c, log, j, k - 1);
    }
  }

  /** An accepted mark is what the demand then called for. */
  lemma PlaysNext(d: Demand, log: seq<Mark>, i: nat)
    requires i < |log| && Accept(d, log).Some?
    ensures Accept(d, log[..i]).Some?
    ensures var n := Accept(d, log[..i]).value;
            && (log[i].Begin? ==> Next(n) == Some(Cycle(log[i].on, log[i].off)))
            && (log[i].End? ==> Next(n) == None)
  {
    AcceptFront(d, log, i);
    AcceptFront(d, log, i + 1);
    AcceptOne(d, log, i);
  }

  /** In every run of a record that has only an endless entry to play, each cycle begun before the
      next request is that entry's, and it does not end; and the first cycle begun after the
      request is the request's, unless that was endless itself and gave way in turn. */
  lemma EndlessYields(l: Life, evs: seq<Event>, c: Cycle, i: nat, j: nat)
    requires l.t.Pwm? && l.t.Ok() && Tidy(l.t.queue) && l.t.active && LegalEvents(evs)
    requires Owes(l.t.queue) == Demand([], Some(c)) && i < |Run(l, evs).1|
    ensures var log := Run(l, evs).1;
            NoneAsked(log, 0, i) ==> !log[i].End? && (log[i].Begin? ==> Cycle(log[i].on, log[i].off) == c)
    ensures var log := Run(l, evs).1;
            j < i && NoneAsked(log, 0, j) && log[j].Asked? && NoneBegun(log, j + 1, i)
            && (log[j].e.cycles > 0 || NoneAsked(log, j + 1, i)) ==>
              !log[i].End? && (log[i].Begin? ==> Cycle(log[i].on, log[i].off) == Cycle(log[j].e.on, log[j].e.off))
  {
    Faithful(l, evs);
    var log, d := Run(l, evs).1, Demand([], Some(c));
    hide Run;
    hide Accept;
    hide Owes;
    hide Tidy;
    PlaysNext(d, log, i);
    if NoneAsked(log, 0, i) {
      StaysEndless(c, log, i);
    }
    if j < i && NoneAsked(log, 0, j) && log[j].Asked? && NoneBegun(log, j + 1, i)
       && (log[j].e.cycles > 0 || NoneAsked(log, j + 1, i)) {
      AskedIsLegal(l, evs, j);
      OwesTheRequest(c, log, j, i);
    }
  }

  lemma {:induction false} AskedIsLegal(l: Life, evs: seq<Event>, j: nat)
    requires l.t.Pwm? && l.t.Ok() && LegalEvents(evs) && j < |Run(l, evs).1| && Run(l, evs).1[j].Asked?
    ensures Legal(Run(l, evs).1[j].e)
  {
    var front := evs[..|evs| - 1];
    if j < |Run(l, front).1| {
      AskedIsLegal(l, front, j);
    }
  }

  // ------------------------------------------------- the entry a record is created with

  /** A record as it is created to go on for ever. */
  ghost predicate CreatedEndless(l: Life) {
    l.t.Pwm? && |l.t.queue| == 1 && l.t.queue[0].cycles == -1 && AtStart(l.t)
  }

  ghost predicate NoAdd(evs: seq<Event>) { forall i :: 0 <= i < |evs| ==> !evs[i].Add? }

  /** Before the first edge: the created entry is still at the head, and whatever stands behind it
      was asked for. */
  ghost predicate Unplayed(l: Life, log: seq<Mark>, e0: Entry) {
    && l.t.Pwm? && l.t.Ok() && AtStart(l.t) && l.t.queue[0] == e0
    && (|l.t.queue| == 1 <==> log == [])
    && forall i :: 1 <= i < |l.t.queue| ==> Asked(l.t.queue[i]) in log
  }

  lemma UnplayedStep(l: Life, ev: Event, log: seq<Mark>, e0: Entry)
    requires Unplayed(l, log, e0) && l.t.active && Step(l, ev).0.t.active && e0.cycles == -1
    requires ev.Visit? ==> l.t.next - ev.d > 0
    ensures Unplayed(Step(l, ev).0, log + Step(l, ev).1, e0)
    ensures log + Step(l, ev).1 == [] <==> log == [] && !ev.Add?
  {
    var s := Step(l, ev);
    if !ev.Add? {
      assert log + s.1 == log;
    }
  }

  /** Only a visit that fires writes an edge. */
  lemma EdgelessStep(l: Life, log: seq<Mark>, ev: Event)
    requires l.t.Pwm? && l.t.Ok()
    requires Step(l, ev).0.t.active && LastEdge(log + Step(l, ev).1) == None
    ensures l.t.active && LastEdge(log) == None && (ev.Visit? ==> l.t.next - ev.d > 0)
  {
    var more := Step(l, ev).1;
    StepMarks(l, ev);
    LastEdgeMore(log, more);
    hide Step;
    hide LastEdge;
  }

  lemma RunLast(l: Life, evs: seq<Event>)
    requires l.t.Pwm? && l.t.Ok() && evs != []
    ensures var b := Run(l, evs[..|evs| - 1]); var s := Step(b.0, evs[|evs| - 1]);
            Run(l, evs).0 == s.0 && Run(l, evs).1 == b.1 + s.1
  {
    hide Step;
  }

  lemma StepMarks(l: Life, ev: Event)
    requires l.t.Pwm? && l.t.Ok()
    ensures var s := Step(l, ev);
            && |s.1| <= 1 && (s.0.t.active ==> l.t.active)
            && (l.t.active && ev.Visit? && l.t.next - ev.d <= 0 ==> |s.1| == 1 && !s.1[0].Asked?)
  {
  }

  lemma LastEdgeMore(log: seq<Mark>, more: seq<Mark>)
    requires |more| <= 1
    ensures LastEdge(log + more) == if more != [] && !more[0].Asked? then Some(more[0]) else LastEdge(log)
  {
    if more == [] {
      assert log + more == log;
    } else {
      assert (log + more)[..|log|] == log && (log + more)[|log|] == more[0];
    }
  }

  lemma {:induction false} UnplayedRun(l: Life, evs: seq<Event>)
    requires CreatedEndless(l)
    requires Run(l, evs).0.t.active && LastEdge(Run(l, evs).1) == None
    ensures Unplayed(Run(l, evs).0, Run(l, evs).1, l.t.queue[0])
    ensures Run(l, evs).1 == [] <==> NoAdd(evs)
  {
    if evs != [] {
      var front, ev := evs[..|evs| - 1], evs[|evs| - 1];
      var b := Run(l, front);
      RunLast(l, evs);
      EdgelessStep(b.0, b.1, ev);
      UnplayedRun(l, front);
      UnplayedStep(b.0, ev, b.1, l.t.queue[0]);
      assert NoAdd(evs) <==> NoAdd(front) && !ev.Add?;
    }
  }

  /** "For ever" is not "at least once" for the entry a record is created with. Over all runs up to
      the first edge: that edge begins the created entry's cycle if and only if nothing was queued
      before it; otherwise the entry is dropped there unplayed, and the cycle is one asked for since. */
  lemma FirstEndlessEntry(l: Life, evs: seq<Event>, d: int)
    requires CreatedEndless(l) && LegalEvents(evs)
    requires Run(l, evs).0.t.active && LastEdge(Run(l, evs).1) == None && Run(l, evs).0.t.next - d <= 0
    ensures var (now, log) := Run(l, evs); var (e0, q) := (l.t.queue[0], now.t.queue);
            && q[0] == e0
            && (Yield(q) == q <==> NoAdd(evs))
            && (NoAdd(evs) ==> Step(now, Visit(d)).1 == [Begin(Due(now), e0.on, e0.off)])
            && (!NoAdd(evs) ==>
                Yield(q) == q[1..] &&
                exists e :: Asked(e) in log && Step(now, Visit(d)).1 == [Begin(Due(now), e.on, e.off)])
  {
    UnplayedRun(l, evs);
    OneIsTidy(l.t.queue);
    ActiveBefore(l, evs);
    Faithful(l, evs);
    var now, log := Run(l, evs).0, Run(l, evs).1;
    hide Run;
    hide Accept;
    hide Owes;
    if !NoAdd(evs) {
      assert Asked(now.t.queue[1]) in log;
    }
  }

  lemma OneIsTidy(q: seq<Entry>)
    requires |q| == 1 && q[0].cycles == -1
    ensures Tidy(q)
  {
  }

  lemma {:induction false} ActiveBefore(l: Life, evs: seq<Event>)
    requires l.t.Pwm? && l.t.Ok() && Run(l, evs).0.t.active
    ensures l.t.active
  {
    if evs != [] {
      ActiveBefore(l, evs[..|evs| - 1]);
    }
  }

  lemma FirstEndlessEntryCanBeSkipped()
    ensures var l := Life(Pwm(0, 0, 7, true, 100, [Entry(50, 50, -1)], true), 0);
            Step(Step(l, Add(Entry(20, 80, 1))).0, Visit(100)).1 == [Begin(100, 20, 80)]
  {
    var q := [Entry(50, 50, -1), Entry(20, 80, 1)];
    assert Queued([Entry(50, 50, -1)], Entry(20, 80, 1)) == q && Yield(q) == q[1..] == [Entry(20, 80, 1)];
  }

  /** An endless entry that reaches the head by a shift starts a cycle in that very event. */
  lemma ShiftedEndlessEntryPlays(t: Tx)
    requires t.Pwm? && t.Ok() && AtStart(t) && Yield(t.queue) != t.queue && Yield(t.queue)[0].cycles != 0
    ensures FirePwm(t).0.active == t.active && MarkOf(t, 0).Begin?
  {
  }

  /** So a record that ends by itself has played every cycle it was ever given, in order. */
  lemma EndsAfterAll(d: Demand, log: seq<Mark>)
    requires d.forever == None && AllFinite(log) && Accept(d, log).Some?
    requires log != [] && log[|log| - 1].End?
    ensures Begun(log) == d.owed + AskedFor(log)
  {
    Conserved(d, log);
  }

  // ---------------------------------------------------------------------- no glitches

  /** A record that is between the edges of a cycle has a cycle with both; one of no on-time that has
      not begun yet will begin. */
  predicate Steady(t: Tx)
    requires t.Pwm? && t.Ok()
  {
    t.level || (t.queue[0].on != 0 && t.queue[0].off != 0) || (t.queue[0].on == 0 && t.queue[0].cycles > 0)
  }

  /** The line falls only in cycles that have an off-time. */
  ghost predicate Smooth(log: seq<Mark>) {
    forall i :: 0 <= i < |log| && log[i].Middle? ==>
      var e := LastEdge(log[..i]); e.Some? && e.value.Begin? && e.value.off != 0
  }

  lemma SmoothExtends(log: seq<Mark>, m: Mark)
    requires Smooth(log)
    requires m.Middle? ==> var e := LastEdge(log); e.Some? && e.value.Begin? && e.value.off != 0
    ensures Smooth(log + [m])
  {
    var more := log + [m];
    forall i | 0 <= i < |more| && more[i].Middle?
      ensures var e := LastEdge(more[..i]); e.Some? && e.value.Begin? && e.value.off != 0
    {
      assert more[..i] == log[..i] && log[..|log|] == log;
    }
  }

  lemma SteadyStep(l: Life, ev: Event)
    requires l.t.Pwm? && l.t.Ok() && Steady(l.t)
    ensures Steady(Step(l, ev).0.t)
    ensures forall i :: 0 <= i < |Step(l, ev).1| && Step(l, ev).1[i].Middle? ==> !AtStart(l.t) && l.t.queue[0].off != 0
  {
  }

  /** A line that is never to be low does not fall, not even for a moment between its cycles: in every
      run of a record created high, or with a count, each falling edge is in a cycle with an
      off-time. */
  lemma {:induction false} NoGlitch(l: Life, evs: seq<Event>)
    requires l.t.Pwm? && l.t.Ok() && AtStart(l.t) && Steady(l.t)
    ensures Steady(Run(l, evs).0.t) && Smooth(Run(l, evs).1)
  {
    if evs != [] {
      var front, ev := evs[..|evs| - 1], evs[|evs| - 1];
      NoGlitch(l, front);
      NoDrift(l, front);
      var b := Run(l, front);
      SteadyStep(b.0, ev);
      var more := Step(b.0, ev).1;
      if more == [] {
        assert b.1 + more == b.1;
      } else {
        assert more == [more[0]];
        SmoothExtends(b.1, more[0]);
      }
    }
  }

  lemma RunThree(l: Life, a: Event, b: Event, c: Event)
    requires l.t.Pwm? && l.t.Ok()
    ensures var x := Step(l, a); var y := Step(x.0, b); var z := Step(y.0, c);
            Run(l, [a, b, c]) == (z.0, x.1 + y.1 + z.1)
  {
    RunNext(l, [], a);
    RunNext(l, [a], b);
    RunNext(l, [a, b], c);
    assert Run(l, []) == (l, []);
    hide Step;
    hide Run;
    assert [] + [a] == [a] && [a] + [b] == [a, b] && [a, b] + [c] == [a, b, c];
    assert [] + Step(l, a).1 == Step(l, a).1;
  }

  lemma RunNext(l: Life, evs: seq<Event>, ev: Event)
    requires l.t.Pwm? && l.t.Ok()
    ensures var b := Run(l, evs); var s := Step(b.0, ev); Run(l, evs + [ev]) == (s.0, b.1 + s.1)
  {
    hide Step;
    assert (evs + [ev])[..|evs|] == evs;
  }

  /** The run in which a line falls without an off-time: the entry the record was made with has no
      on-time and is skipped for one that has no off-time. */
  lemma Glitch(l: Life)
    requires l.t.Pwm? && l.t.active && |l.t.queue| == 1 && !l.t.level && l.t.queue[0].on == 0 && l.t.queue[0].cycles == -1
    ensures !Smooth(Run(l, [Add(Entry(5, 0, 2)), Visit(l.t.next), Visit(5)]).1)
  {
    var q := [l.t.queue[0], Entry(5, 0, 2)];
    var x := Step(l, Add(Entry(5, 0, 2)));
    assert l.t.queue + [Entry(5, 0, 2)] == q && x.1 == [Asked(Entry(5, 0, 2))];
    var y := Step(x.0, Visit(l.t.next));
    assert Yield(q) == q[1..] == [Entry(5, 0, 2)];
    assert y.1 == [Begin(Due(x.0), 5, 0)] && !y.0.t.level && y.0.t.next == 5;
    var z := Step(y.0, Visit(5));
    assert z.1 == [Middle(Due(y.0))];
    RunThree(l, Add(Entry(5, 0, 2)), Visit(l.t.next), Visit(5));
    hide Step;
    hide Run;
    var log := x.1 + y.1 + z.1;
    assert log[2].Middle? && log[..2] == [Asked(Entry(5, 0, 2)), Begin(Due(x.0), 5, 0)];
    assert LastEdge(log[..2]) == Some(Begin(Due(x.0), 5, 0));
  }

  /** For a record as it is made that is the one exception: its line never falls without an off-time, in
      any run, if and only if its first entry has an on-time or a count. */
  lemma NoGlitchExactly(l: Life)
    requires l.t.Pwm? && l.t.active && |l.t.queue| == 1 && l.t.level == (l.t.queue[0].on != 0)
    requires l.t.queue[0].cycles > 0 || l.t.queue[0].cycles == -1
    ensures l.t.queue[0].on != 0 || l.t.queue[0].cycles > 0 <==> forall evs :: Smooth(Run(l, evs).1)
  {
    hide Run;
    hide Smooth;
    if l.t.queue[0].on != 0 || l.t.queue[0].cycles > 0 {
      forall evs
        ensures Smooth(Run(l, evs).1)
      {
        NoGlitch(l, evs);
      }
    } else {
      Glitch(l);
    }
  }
}
