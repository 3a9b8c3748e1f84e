/**
 The software PWM/wave transmitter of lgpio/lgPthTx.c and the queueing half of
 lgpio/lgGpio.c, as values: what one record does when it falls due, what one pass of the
 transmit thread does to the whole list, and what each API call does between two passes.
 The imperative form over linked records is in TxScheduler.dfy and is proved against these
 functions; the laws about whole runs are in TxLife.dfy, TxRuns.dfy and TxTiming.dfy.
 */
module TxModel {

  /** Entries that fit in one record's queue. */
  const TX_BUF: nat := 10

  /** The transmit thread runs at least fifty times a second. */
  const MAX_DELAY: int := 20000

  const NANOS: int := 1_000_000_000

  const BAD_PWM_MICROS: int := -86
  const TX_QUEUE_FULL: int := -96

  datatype Kind = PWM | WAVE

  /** One queued pulse train: microseconds on, microseconds off, and how many cycles.
      A negative count means "for ever"; 0 only arises by counting down. */
  datatype Entry = Entry(on: int, off: int, cycles: int)

  datatype Pulse = Pulse(bits: bv64, mask: bv64, delay: int)

  /** A transmit record. `id` stands for the record's address, `next` for next_micros. */
  datatype Tx =
    | Pwm(id: nat, chip: int, gpio: int, active: bool, next: int, queue: seq<Entry>, level: bool)
    | Wave(id: nat, chip: int, gpio: int, active: bool, next: int, waves: seq<seq<Pulse>>, pos: nat)
  {
    /** The same record, no longer transmitting. */
    function Off(): Tx {
      match this
      case Pwm(i, c, g, _, n, q, l) => Pwm(i, c, g, false, n, q, l)
      case Wave(i, c, g, _, n, w, p) => Wave(i, c, g, false, n, w, p)
    }

    function Kind(): Kind { if Pwm? then PWM else WAVE }

    /** Every record holds between one and ten entries. */
    ghost predicate Ok() {
      match this
      case Pwm(_, _, _, _, _, q, _) => 1 <= |q| <= TX_BUF
      case Wave(_, _, _, _, _, w, _) => 1 <= |w| <= TX_BUF
    }

    predicate HasKey(c: int, g: int, k: Kind) { chip == c && gpio == g && Kind() == k }
  }

  datatype Write =
    | Level(chip: int, gpio: int, high: bool)
    | Group(chip: int, gpio: int, bits: bv64, mask: bv64)

  /** The list head first, the delay chosen by the last pass, the absolute wake-up time, and
      how many records were ever made. */
  datatype Sched = Sched(recs: seq<Tx>, delay: int, sec: int, nsec: int, made: nat)

  // ---------------------------------------------------------------------- one record

  /** At the start of a cycle an exhausted or endless head yields to its successor. */
  function Yield(q: seq<Entry>): (r: seq<Entry>)
    requires |q| > 0
    ensures 0 < |r| <= |q| && (r == q || r == q[1..])
  {
    if q[0].cycles <= 0 && |q| > 1 then q[1..] else q
  }

  function CountDown(c: int): int { if c - 1 < 0 then -1 else c - 1 }

  predicate AtStart(t: Tx)
    requires t.Pwm? && t.Ok()
  {
    t.level || t.queue[0].on == 0
  }

  /** A cycle starts with whatever entry is now at the head; a head counted down to 0 ends the record. */
  function StartPwm(t: Tx): (r: (Tx, seq<Write>))
    requires t.Pwm? && t.Ok()
    ensures r.0.Pwm? && r.0.Ok()
  {
    var h := t.queue[0];
    var q := t.queue[0 := h.(cycles := CountDown(h.cycles))];
    if h.cycles == 0 then
      (Pwm(t.id, t.chip, t.gpio, false, t.next, q, t.level), [Level(t.chip, t.gpio, false)])
    else if h.on != 0 then
      (Pwm(t.id, t.chip, t.gpio, t.active, t.next + h.on, q, h.off == 0 && t.level), [Level(t.chip, t.gpio, true)])
    else
      (Pwm(t.id, t.chip, t.gpio, t.active, t.next + h.off, q, true), [Level(t.chip, t.gpio, false)])
  }

  function FirePwm(t: Tx): (r: (Tx, seq<Write>))
    requires t.Pwm? && t.Ok()
    ensures r.0.Pwm? && r.0.Ok()
  {
    if AtStart(t) then StartPwm(t.(queue := Yield(t.queue)))
    else (t.(next := t.next + t.queue[0].off, level := true), [Level(t.chip, t.gpio, false)])
  }

  function FireWave(t: Tx): (r: (Tx, seq<Write>))
    requires t.Wave? && t.Ok()
    ensures r.0.Wave? && r.0.Ok()
  {
    var u := if t.pos >= |t.waves[0]| && |t.waves| > 1 then t.(waves := t.waves[1..], pos := 0) else t;
    if u.pos < |u.waves[0]| then
      var p := u.waves[0][u.pos];
      (u.(next := u.next + p.delay, pos := u.pos + 1), [Group(u.chip, u.gpio, p.bits, p.mask)])
    else
      (u.Off(), [])
  }

  function Fire(t: Tx): (r: (Tx, seq<Write>))
    requires t.Ok()
    ensures r.0.Ok() && r.0.Kind() == t.Kind()
    ensures r.0.id == t.id && r.0.chip == t.chip && r.0.gpio == t.gpio
  {
    if t.Pwm? then FirePwm(t) else FireWave(t)
  }

  function Age(t: Tx, d: int): Tx { t.(next := t.next - d) }

  /** What the walk does to one active record. */
  function Serve(t: Tx): (r: (Tx, seq<Write>))
    requires t.Ok()
    ensures r.0.Ok() && r.0.Kind() == t.Kind()
    ensures r.0.id == t.id && r.0.chip == t.chip && r.0.gpio == t.gpio
  {
    if t.next <= 0 then Fire(t) else (t, [])
  }

  // ------------------------------------------------------------------------ one pass

  ghost predicate AllOk(recs: seq<Tx>) { forall i :: 0 <= i < |recs| ==> recs[i].Ok() }

  function Aged(recs: seq<Tx>, d: int): (r: seq<Tx>)
    ensures |r| == |recs|
    ensures forall i :: 0 <= i < |recs| ==> r[i] == Age(recs[i], d)
  {
    seq(|recs|, i requires 0 <= i < |recs| => Age(recs[i], d))
  }

  /** A complete walk: inactive records are deleted, active ones are served. */
  function Kept(recs: seq<Tx>): (r: seq<Tx>)
    requires AllOk(recs)
    ensures AllOk(r) && |r| <= |recs|
  {
    if recs == [] then []
    else
      var last := recs[|recs| - 1];
      Kept(recs[..|recs| - 1]) + (if last.active then [Serve(last).0] else [])
  }

  function Writes(recs: seq<Tx>): seq<Write>
    requires AllOk(recs)
  {
    if recs == [] then []
    else
      var last := recs[|recs| - 1];
      Writes(recs[..|recs| - 1]) + (if last.active then Serve(last).1 else [])
  }

  function Soonest(recs: seq<Tx>): int {
    if recs == [] then MAX_DELAY
    else
      var d := Soonest(recs[..|recs| - 1]);
      var n := recs[|recs| - 1].next;
      if n < d then n else d
  }

  /** Deleting the head leaves the walk with no predecessor to continue from: it ends there. */
  predicate HeadDeleted(recs: seq<Tx>) { recs != [] && !recs[0].active }

  /** Only one carry out of the nanoseconds, and none into them. */
  function Advance(sec: int, nsec: int, delay: int): (int, int) {
    var n := nsec + delay * 1000;
    if n >= NANOS then (sec + 1, n - NANOS) else (sec, n)
  }

  function Pass(s: Sched): (r: (Sched, seq<Write>))
    requires AllOk(s.recs)
    ensures AllOk(r.0.recs)
  {
    var aged := Aged(s.recs, s.delay);
    var whole := !HeadDeleted(aged);
    var recs := if whole then Kept(aged) else aged[1..];
    var delay := if whole then Soonest(recs) else MAX_DELAY;
    var t := Advance(s.sec, s.nsec, delay);
    (Sched(recs, delay, t.0, t.1, s.made), if whole then Writes(aged) else [])
  }

  // ----------------------------------------------------------------------- API calls

  /** C division: towards zero. */
  function CDiv(a: int, b: int): int
    requires b > 0
  {
    if a >= 0 then a / b else -(-a / b)
  }

  /** Position of the first record with the key, or the length. */
  function Lookup(recs: seq<Tx>, chip: int, gpio: int, kind: Kind): (i: nat)
    ensures i <= |recs|
    ensures i < |recs| ==> recs[i].HasKey(chip, gpio, kind)
    ensures forall j :: 0 <= j < i ==> !recs[j].HasKey(chip, gpio, kind)
  {
    if recs == [] || recs[0].HasKey(chip, gpio, kind) then 0
    else 1 + Lookup(recs[1..], chip, gpio, kind)
  }

  predicate Transmitting(recs: seq<Tx>, chip: int, gpio: int, kind: Kind) {
    var i := Lookup(recs, chip, gpio, kind);
    i < |recs| && recs[i].active
  }

  function Stored(cycles: int): int { if cycles != 0 then cycles else -1 }

  /** A pending endless entry gives way to the new one; then the entry goes in if there is room. */
  function Queued(q: seq<Entry>, e: Entry): (r: seq<Entry>)
    requires 1 <= |q| <= TX_BUF
    ensures 1 <= |r| <= TX_BUF
  {
    var p := if |q| > 1 && q[|q| - 1].cycles == -1 then q[..|q| - 1] else q;
    if |p| < TX_BUF then p + [e] else p
  }

  function WithEntry(t: Tx, e: Entry): (r: Tx)
    requires t.Pwm? && t.Ok()
    ensures r.Pwm? && r.Ok()
  {
    t.(queue := Queued(t.queue, e))
  }

  /** Whether the call finds room, counting the place a pending endless entry gives up. */
  predicate HasRoom(q: seq<Entry>)
  {
    |q| < TX_BUF || q[|q| - 1].cycles == -1
  }

  /** Microseconds from the last pass until a new PWM record first falls due. */
  function FirstDue(nsec: int, delay: int, ct: int, offset: int): int
    requires ct > 0
  {
    var usec := CDiv(nsec, 1000);
    ct - (usec - ct * CDiv(usec, ct)) + delay + offset
  }

  function NewPwm(s: Sched, chip: int, gpio: int, on: int, off: int, offset: int, cycles: int): Tx
    requires on + off > 0
  {
    Pwm(s.made, chip, gpio, true, FirstDue(s.nsec, s.delay, on + off, offset), [Entry(on, off, Stored(cycles))], on != 0)
  }

  function Pushed(s: Sched, t: Tx): Sched { s.(recs := [t] + s.recs, made := s.made + 1) }

  function Replaced(s: Sched, i: nat, t: Tx): Sched
    requires i < |s.recs|
  {
    s.(recs := s.recs[i := t])
  }

  /** xSetAsPwm on a line that is an output; minDelay is the configured smallest period. */
  function SetAsPwm(s: Sched, chip: int, gpio: int, on: int, off: int, offset: int, cycles: int, minDelay: nat)
    : (r: (Sched, int))
    requires AllOk(s.recs)
    ensures AllOk(r.0.recs)
  {
    var i := Lookup(s.recs, chip, gpio, PWM);
    if i < |s.recs| && s.recs[i].active then
      var t := s.recs[i];
      if on == 0 && off == 0 then (Replaced(s, i, t.Off()), 0)
      else if on + off <= minDelay then (s, BAD_PWM_MICROS)
      else
        var u := WithEntry(t, Entry(on, off, Stored(cycles)));
        (Replaced(s, i, u), if HasRoom(t.queue) then TX_BUF - |u.queue| else TX_QUEUE_FULL)
    else if on + off <= minDelay then (s, BAD_PWM_MICROS)
    else (Pushed(s, NewPwm(s, chip, gpio, on, off, offset, cycles)), TX_BUF - 1)
  }

  /** xWave on a line that is an output. */
  function SetAsWave(s: Sched, chip: int, gpio: int, pulses: seq<Pulse>): (r: (Sched, int))
    requires AllOk(s.recs)
    ensures AllOk(r.0.recs)
  {
    var i := Lookup(s.recs, chip, gpio, WAVE);
    if i < |s.recs| && s.recs[i].active then
      var t := s.recs[i];
      if |t.waves| < TX_BUF then
        (Replaced(s, i, t.(waves := t.waves + [pulses])), TX_BUF - |t.waves| - 1)
      else (s, TX_QUEUE_FULL)
    else (Pushed(s, Wave(s.made, chip, gpio, true, s.delay, [pulses], 0)), TX_BUF - 1)
  }

  function Silence(recs: seq<Tx>, chip: int, gpio: int, kind: Kind): (r: seq<Tx>)
    requires AllOk(recs)
    ensures AllOk(r) && |r| == |recs|
  {
    var i := Lookup(recs, chip, gpio, kind);
    if i < |recs| then recs[i := recs[i].Off()] else recs
  }

  /** What freeing a line does to its transmitters. */
  function Release(s: Sched, chip: int, gpio: int): (r: Sched)
    requires AllOk(s.recs)
    ensures AllOk(r.recs)
  {
    s.(recs := Silence(Silence(s.recs, chip, gpio, PWM), chip, gpio, WAVE))
  }

  function StopOne(t: Tx, chip: int): Tx { if t.chip == chip then t.Off() else t }

  /** lgPthTxStop: closing a chip silences all its transmitters. */
  function StopChip(s: Sched, chip: int): (r: Sched)
    requires AllOk(s.recs)
    ensures AllOk(r.recs)
  {
    s.(recs := seq(|s.recs|, i requires 0 <= i < |s.recs| => StopOne(s.recs[i], chip)))
  }

  function Room(s: Sched, chip: int, gpio: int, kind: Kind): int {
    var i := Lookup(s.recs, chip, gpio, kind);
    if i < |s.recs| && s.recs[i].active then
      TX_BUF - (if s.recs[i].Pwm? then |s.recs[i].queue| else |s.recs[i].waves|)
    else TX_BUF
  }
}
