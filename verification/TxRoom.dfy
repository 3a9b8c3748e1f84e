/**
 What the answers of the queueing calls mean: a number is how many more requests will be taken.
 */
module TxRoom {
  import opened TxModel

  // ------------------------------------------------------------------------------ lookups

  lemma LookupKeeps(recs: seq<Tx>, chip: int, gpio: int, kind: Kind, u: Tx)
    requires Lookup(recs, chip, gpio, kind) < |recs| && u.HasKey(chip, gpio, kind)
    ensures Lookup(recs[Lookup(recs, chip, gpio, kind) := u], chip, gpio, kind) == Lookup(recs, chip, gpio, kind)
  {
    var i := Lookup(recs, chip, gpio, kind);
    var more := recs[i := u];
    hide Lookup;
    assert more[i].HasKey(chip, gpio, kind);
    var j := Lookup(more, chip, gpio, kind);
    assert forall x :: 0 <= x < i ==> !recs[x].HasKey(chip, gpio, kind) && more[x] == recs[x];
  }

  /** The record of the key, if it transmits. */
  ghost predicate Holds(s: Sched, chip: int, gpio: int, kind: Kind, t: Tx) {
    var i := Lookup(s.recs, chip, gpio, kind);
    i < |s.recs| && s.recs[i] == t && t.active
  }

  lemma HeldHasKey(s: Sched, chip: int, gpio: int, kind: Kind, t: Tx)
    requires Holds(s, chip, gpio, kind, t)
    ensures t.HasKey(chip, gpio, kind) && (kind.PWM? <==> t.Pwm?)
    ensures AllOk(s.recs) ==> t.Ok()
  {
  }

  // ---------------------------------------------------------------------------------- PWM

  /** The last entry waits for ever, and will give way. */
  predicate Pending(q: seq<Entry>) { |q| > 1 && q[|q| - 1].cycles == -1 }

  /** What is in the queue for good. */
  function Firm(q: seq<Entry>): seq<Entry> { if Pending(q) then q[..|q| - 1] else q }

  /** A request with a count, longer than the smallest period. */
  predicate Counted(e: Entry, minDelay: nat) { e.cycles != 0 && e.cycles != -1 && e.on + e.off > minDelay }

  ghost predicate AllCounted(es: seq<Entry>, minDelay: nat) { forall k :: 0 <= k < |es| ==> Counted(es[k], minDelay) }

  /** The calls for the line, one after the other, and their answers. */
  ghost function Asked(s: Sched, chip: int, gpio: int, offset: int, minDelay: nat, es: seq<Entry>): (r: (Sched, seq<int>))
    requires AllOk(s.recs)
    ensures AllOk(r.0.recs) && |r.1| == |es|
  {
    if es == [] then (s, [])
    else
      var b := Asked(s, chip, gpio, offset, minDelay, es[..|es| - 1]);
      var e := es[|es| - 1];
      var a := SetAsPwm(b.0, chip, gpio, e.on, e.off, offset, e.cycles, minDelay);
      (a.0, b.1 + [a.1])
  }

  /** One call on a transmitting line: the request goes behind what is there for good if that is less
      than full, and the answer is the room then left; otherwise nothing changes. */
  lemma OneAsked(s: Sched, chip: int, gpio: int, offset: int, minDelay: nat, e: Entry, t: Tx)
    requires AllOk(s.recs) && Holds(s, chip, gpio, PWM, t) && Counted(e, minDelay)
    ensures t.Pwm?
    ensures var r := SetAsPwm(s, chip, gpio, e.on, e.off, offset, e.cycles, minDelay); var q := Firm(t.queue);
            if |q| < TX_BUF then
              r.1 == TX_BUF - |q| - 1 && Holds(r.0, chip, gpio, PWM, t.(queue := q + [e])) && !Pending(q + [e])
            else r.1 == TX_QUEUE_FULL && Holds(r.0, chip, gpio, PWM, t) && q == t.queue
  {
    HeldHasKey(s, chip, gpio, PWM, t);
    var u := WithEntry(t, Entry(e.on, e.off, Stored(e.cycles)));
    LookupKeeps(s.recs, chip, gpio, PWM, u);
    hide Lookup;
  }

  /** How many counted requests a queue has room for. */
  function Space(q: seq<Entry>): int { TX_BUF - |Firm(q)| }

  /** The queue after so many counted requests: as many of them as there was room for. */
  function Taken(q: seq<Entry>, es: seq<Entry>): seq<Entry> {
    if es == [] then q else Firm(q) + if |es| <= Space(q) then es else if Space(q) > 0 then es[..Space(q)] else []
  }

  lemma TakenNext(q: seq<Entry>, es: seq<Entry>, e: Entry, minDelay: nat)
    requires 1 <= |q| <= TX_BUF && AllCounted(es, minDelay)
    ensures var p := Taken(q, es);
            && Space(p) == (if |es| < Space(q) then Space(q) - |es| else 0)
            && Taken(q, es + [e]) == if Space(p) > 0 then Firm(p) + [e] else p
  {
    var n, p := Space(q), Taken(q, es);
    if es == [] {
      assert [] + [e] == [e];
    } else if n > 0 {
      var m := if |es| <= n then |es| else n;
      assert es[..|es|] == es && Counted(es[m - 1], minDelay);
      assert p[|p| - 1] == es[m - 1];
      assert !Pending(p);
      if |es| < n {
        assert Firm(q) + (es + [e]) == (Firm(q) + es) + [e];
      } else {
        assert (es + [e])[..n] == es[..n];
      }
    }
  }

  /** Exactly as many counted requests are taken as there is room for, each at the end of the queue and
      answered by the room left; every further one is refused and changes nothing. */
  lemma {:induction false} TakesExactly(s: Sched, chip: int, gpio: int, offset: int, minDelay: nat, es: seq<Entry>, t: Tx)
    requires AllOk(s.recs) && Holds(s, chip, gpio, PWM, t) && AllCounted(es, minDelay)
    ensures t.Pwm?
    ensures var r := Asked(s, chip, gpio, offset, minDelay, es); var n := Space(t.queue);
            && (forall k :: 0 <= k < |es| ==> r.1[k] == if k < n then n - 1 - k else TX_QUEUE_FULL)
            && Holds(r.0, chip, gpio, PWM, t.(queue := Taken(t.queue, es)))
  {
    hide SetAsPwm;
    hide Holds;
    hide Firm;
    hide Taken;
    hide Counted;
    HeldHasKey(s, chip, gpio, PWM, t);
    if es == [] {
      NothingTaken(t);
    } else {
      var front, e := es[..|es| - 1], es[|es| - 1];
      assert front + [e] == es;
      LastCounted(es, minDelay);
      TakesExactly(s, chip, gpio, offset, minDelay, front, t);
      var b := Asked(s, chip, gpio, offset, minDelay, front);
      OneAsked(b.0, chip, gpio, offset, minDelay, e, t.(queue := Taken(t.queue, front)));
      TakenNext(t.queue, front, e, minDelay);
    }
  }

  lemma NothingTaken(t: Tx)
    requires t.Pwm?
    ensures t.(queue := Taken(t.queue, [])) == t
  {
  }

  lemma LastCounted(es: seq<Entry>, minDelay: nat)
    requires es != [] && AllCounted(es, minDelay)
    ensures Counted(es[|es| - 1], minDelay) && AllCounted(es[..|es| - 1], minDelay)
  {
  }

  /** An answer that is no error, to a call that queues or creates, is the room of the line: so many
      counted requests will be taken, or one more where it was a request for ever that gives way. */
  lemma AnswerIsRoom(s: Sched, chip: int, gpio: int, on: int, off: int, offset: int, cycles: int, minDelay: nat)
    returns (t: Tx)
    requires AllOk(s.recs) && (on != 0 || off != 0)
    requires SetAsPwm(s, chip, gpio, on, off, offset, cycles, minDelay).1 >= 0
    ensures var r := SetAsPwm(s, chip, gpio, on, off, offset, cycles, minDelay);
            && Holds(r.0, chip, gpio, PWM, t) && t.Pwm? && r.1 == Room(r.0, chip, gpio, PWM) == TX_BUF - |t.queue|
            && Space(t.queue) == r.1 + (if Pending(t.queue) then 1 else 0)
            && (Counted(Entry(on, off, cycles), minDelay) ==> Space(t.queue) == r.1)
            && (!Transmitting(s.recs, chip, gpio, PWM) ==>
                  && |t.queue| == 1 && t.queue[0].on == on && t.queue[0].off == off && t.level == (on != 0)
                  && t.queue[0].cycles == if cycles == 0 then -1 else cycles)
  {
    var i := Lookup(s.recs, chip, gpio, PWM);
    if i < |s.recs| && s.recs[i].active {
      t := WithEntry(s.recs[i], Entry(on, off, Stored(cycles)));
      LookupKeeps(s.recs, chip, gpio, PWM, t);
    } else {
      t := NewPwm(s, chip, gpio, on, off, offset, cycles);
    }
  }

  // --------------------------------------------------------------------------------- waves

  ghost function Sent(s: Sched, chip: int, gpio: int, ws: seq<seq<Pulse>>): (r: (Sched, seq<int>))
    requires AllOk(s.recs)
    ensures AllOk(r.0.recs) && |r.1| == |ws|
  {
    if ws == [] then (s, [])
    else
      var b := Sent(s, chip, gpio, ws[..|ws| - 1]);
      var a := SetAsWave(b.0, chip, gpio, ws[|ws| - 1]);
      (a.0, b.1 + [a.1])
  }

  lemma OneSent(s: Sched, chip: int, gpio: int, w: seq<Pulse>, t: Tx)
    requires AllOk(s.recs) && Holds(s, chip, gpio, WAVE, t)
    ensures t.Wave?
    ensures var r := SetAsWave(s, chip, gpio, w);
            if |t.waves| < TX_BUF then
              r.1 == TX_BUF - |t.waves| - 1 && Holds(r.0, chip, gpio, WAVE, t.(waves := t.waves + [w]))
            else r.1 == TX_QUEUE_FULL && Holds(r.0, chip, gpio, WAVE, t)
  {
    HeldHasKey(s, chip, gpio, WAVE, t);
    LookupKeeps(s.recs, chip, gpio, WAVE, t.(waves := t.waves + [w]));
    hide Lookup;
  }

  /** And so for waves. */
  lemma {:induction false} SendsExactly(s: Sched, chip: int, gpio: int, ws: seq<seq<Pulse>>, t: Tx)
    requires AllOk(s.recs) && Holds(s, chip, gpio, WAVE, t)
    ensures t.Wave? && |t.waves| <= TX_BUF
    ensures var r := Sent(s, chip, gpio, ws); var n := TX_BUF - |t.waves|;
            && (forall k :: 0 <= k < |ws| ==> r.1[k] == if k < n then n - 1 - k else TX_QUEUE_FULL)
            && Holds(r.0, chip, gpio, WAVE, t.(waves := t.waves + if |ws| <= n then ws else ws[..n]))
  {
    HeldHasKey(s, chip, gpio, WAVE, t);
    var n := TX_BUF - |t.waves|;
    if ws == [] {
      assert t.waves + ws == t.waves && t.(waves := t.waves) == t;
    } else {
      var front, w := ws[..|ws| - 1], ws[|ws| - 1];
      SendsExactly(s, chip, gpio, front, t);
      var now := t.(waves := t.waves + if |front| <= n then front else front[..n]);
      hide SetAsWave;
      hide Holds;
      OneSent(Sent(s, chip, gpio, front).0, chip, gpio, w, now);
      if |front| < n {
        assert (t.waves + front) + [w] == t.waves + ws;
      } else {
        assert ws[..n] == if |front| <= n then front else front[..n];
      }
    }
  }

  lemma WaveAnswerIsRoom(s: Sched, chip: int, gpio: int, w: seq<Pulse>) returns (t: Tx)
    requires AllOk(s.recs) && SetAsWave(s, chip, gpio, w).1 >= 0
    ensures var r := SetAsWave(s, chip, gpio, w);
            && Holds(r.0, chip, gpio, WAVE, t) && t.Wave? && r.1 == Room(r.0, chip, gpio, WAVE) == TX_BUF - |t.waves|
            && (!Transmitting(s.recs, chip, gpio, WAVE) ==> t.waves == [w] && t.pos == 0 && t.next == s.delay)
  {
    var i := Lookup(s.recs, chip, gpio, WAVE);
    if i < |s.recs| && s.recs[i].active {
      t := s.recs[i].(waves := s.recs[i].waves + [w]);
      LookupKeeps(s.recs, chip, gpio, WAVE, t);
    } else {
      t := Wave(s.made, chip, gpio, true, s.delay, [w], 0);
    }
  }

  /** The other answers: too short a period is refused and changes nothing, and a call for nothing at all
      silences the line. */
  lemma OtherAnswers(s: Sched, chip: int, gpio: int, on: int, off: int, offset: int, cycles: int, minDelay: nat)
    requires AllOk(s.recs)
    ensures var r := SetAsPwm(s, chip, gpio, on, off, offset, cycles, minDelay);
            var silences := on == 0 && off == 0 && Transmitting(s.recs, chip, gpio, PWM);
            && (r.1 == BAD_PWM_MICROS <==> on + off <= minDelay && !silences)
            && (r.1 == BAD_PWM_MICROS || r.1 == TX_QUEUE_FULL ==>
                  |r.0.recs| == |s.recs| && (r.1 == BAD_PWM_MICROS ==> r.0 == s) && r.0.made == s.made)
            && (silences ==> r.1 == 0 && !Transmitting(r.0.recs, chip, gpio, PWM))
  {
    var i := Lookup(s.recs, chip, gpio, PWM);
    if i < |s.recs| {
      LookupKeeps(s.recs, chip, gpio, PWM, s.recs[i].Off());
    }
  }

  /** A line that does not transmit has room for ten, and the call that starts it leaves nine. */
  lemma IdleRoom(s: Sched, chip: int, gpio: int, kind: Kind)
    requires !Transmitting(s.recs, chip, gpio, kind)
    ensures Room(s, chip, gpio, kind) == 10
    ensures forall p :: AllOk(s.recs) && kind.WAVE? ==> SetAsWave(s, chip, gpio, p).1 == 9
    ensures AllOk(s.recs) && kind.PWM? ==>
              forall on, off, offset, cycles, m: nat :: on + off > m ==>
                SetAsPwm(s, chip, gpio, on, off, offset, cycles, m).1 == 9
  {
  }
}
