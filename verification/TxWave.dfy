/**
 The life of one wave record: pulses go out in the order queued, on an ideal timeline, and
 none is lost, unless it is queued behind a wave of no pulses.
 */
module TxWave {
  import opened TxModel

  datatype Event = Visit(d: int) | Skip(d: int) | Add(w: seq<Pulse>) | Kill

  datatype Life = Life(t: Tx, clock: int)

  /** A pulse and the moment it was due. */
  datatype Sent = Sent(due: int, p: Pulse)

  function Joined(ws: seq<seq<Pulse>>): seq<Pulse> {
    if ws == [] then [] else ws[0] + Joined(ws[1..])
  }

  ghost predicate Good(t: Tx) { t.Wave? && t.Ok() && t.pos <= |t.waves[0]| }

  /** The pulses still to go out. */
  ghost function Left(t: Tx): seq<Pulse>
    requires Good(t)
  {
    t.waves[0][t.pos..] + Joined(t.waves[1..])
  }

  /** The one situation in which pulses are lost: only one shift is made per edge. */
  predicate MeetsEmptyWave(t: Tx)
    requires t.Wave? && t.Ok()
  {
    t.pos >= |t.waves[0]| && |t.waves| > 1 && t.waves[1] == []
  }

  /** A record goes on with the next pulse, or stops; it stops with pulses unsent exactly when
      the wave after the finished one is empty. */
  lemma WaveStep(t: Tx)
    requires Good(t)
    ensures var r := FireWave(t); var rest := Left(t);
            && Good(r.0)
            && (rest != [] && !MeetsEmptyWave(t) ==>
                && r.1 == [Group(t.chip, t.gpio, rest[0].bits, rest[0].mask)]
                && r.0.active == t.active && r.0.next == t.next + rest[0].delay
                && Left(r.0) == rest[1..])
            && (rest == [] || MeetsEmptyWave(t) ==>
                  !r.0.active && r.1 == [] && r.0.next == t.next && Left(r.0) == rest)
  {
    if t.pos >= |t.waves[0]| && |t.waves| > 1 {
      var u := t.waves[1..];
      assert t.waves[0][t.pos..] == [];
      assert Joined(u) == u[0] + Joined(u[1..]);
      assert u[0][0..] == u[0];
      assert Left(t) == u[0] + Joined(u[1..]);
    }
  }

  ghost function Step(l: Life, ev: Event): (r: (Life, seq<Sent>))
    requires Good(l.t)
    ensures Good(r.0.t)
  {
    if !l.t.active then (l, [])
    else
      match ev
      case Visit(d) =>
        var u := Age(l.t, d);
        assert Left(u) == Left(l.t);
        WaveStep(u);
        (Life(Serve(u).0, l.clock + d),
         if u.next <= 0 && Left(u) != [] && !MeetsEmptyWave(u) then [Sent(l.clock + l.t.next, Left(u)[0])] else [])
      case Skip(d) => (Life(Age(l.t, d), l.clock + d), [])
      case Add(w) =>
        (if |l.t.waves| < TX_BUF then Life(l.t.(waves := l.t.waves + [w]), l.clock) else l, [])
      case Kill => (Life(l.t.Off(), l.clock), [])
  }

  ghost function Run(l: Life, evs: seq<Event>): (r: (Life, seq<Sent>))
    requires Good(l.t)
    ensures Good(r.0.t)
  {
    if evs == [] then (l, [])
    else
      var before := Run(l, evs[..|evs| - 1]);
      var s := Step(before.0, evs[|evs| - 1]);
      (s.0, before.1 + s.1)
  }

  /** The waves accepted during a run. */
  ghost function Accepted(l: Life, evs: seq<Event>): seq<seq<Pulse>>
    requires Good(l.t)
  {
    if evs == [] then []
    else
      var front, ev := evs[..|evs| - 1], evs[|evs| - 1];
      Accepted(l, front) + Added(Run(l, front).0, ev)
  }

  ghost function Added(l: Life, ev: Event): seq<seq<Pulse>>
    requires Good(l.t)
  {
    if ev.Add? && l.t.active && |l.t.waves| < TX_BUF then [ev.w] else []
  }

  function Pulses(log: seq<Sent>): seq<Pulse> { seq(|log|, i requires 0 <= i < |log| => log[i].p) }

  function Delays(log: seq<Sent>): int {
    if log == [] then 0 else Delays(log[..|log| - 1]) + log[|log| - 1].p.delay
  }

  lemma {:induction false} JoinedAppend(ws: seq<seq<Pulse>>, w: seq<Pulse>)
    ensures Joined(ws + [w]) == Joined(ws) + w
  {
    if ws == [] {
      assert [] + [w] == [w] && [w][1..] == [];
    } else {
      assert (ws + [w])[1..] == ws[1..] + [w];
      JoinedAppend(ws[1..], w);
    }
  }

  lemma AddExtendsLeft(t: Tx, w: seq<Pulse>)
    requires Good(t) && |t.waves| < TX_BUF
    ensures Good(t.(waves := t.waves + [w])) && Left(t.(waves := t.waves + [w])) == Left(t) + w
  {
    assert (t.waves + [w])[1..] == t.waves[1..] + [w];
    JoinedAppend(t.waves[1..], w);
  }

  lemma Appended(log: seq<Sent>, x: Sent)
    ensures Pulses(log + [x]) == Pulses(log) + [x.p]
    ensures Delays(log + [x]) == Delays(log) + x.p.delay
    ensures forall i :: 0 <= i <= |log| ==> (log + [x])[..i] == log[..i]
    ensures log[..|log|] == log
  {
    assert (log + [x])[..|log|] == log;
  }

  ghost predicate Law(now: Life, log: seq<Sent>, whole: seq<Pulse>, due0: int)
    requires Good(now.t)
  {
    && Pulses(log) + Left(now.t) == whole
    && (forall i :: 0 <= i < |log| ==> log[i].due == due0 + Delays(log[..i]))
    && (now.t.active ==> now.clock + now.t.next == due0 + Delays(log))
  }

  /** A visit sends nothing, or the next pulse, on which the following one then waits. */
  lemma VisitSends(now: Life, d: int)
    requires Good(now.t) && now.t.active
    ensures var s := Step(now, Visit(d)); var due, rest := now.clock + now.t.next, Left(now.t);
            var next := s.0.clock + s.0.t.next;
            if s.1 == [] then Left(s.0.t) == rest && (s.0.t.active ==> next == due)
            else rest != [] && s.1 == [Sent(due, rest[0])] && Left(s.0.t) == rest[1..]
                 && (s.0.t.active ==> next == due + rest[0].delay)
  {
    hide FireWave;
    hide Left;
    hide MeetsEmptyWave;
    AgedLeft(now.t, d);
    WaveStep(Age(now.t, d));
  }

  lemma AgedLeft(t: Tx, d: int)
    requires Good(t)
    ensures Good(Age(t, d)) && Left(Age(t, d)) == Left(t)
  {
  }

  lemma LawVisit(now: Life, d: int, log: seq<Sent>, whole: seq<Pulse>, due0: int)
    requires Good(now.t) && now.t.active && Law(now, log, whole, due0)
    ensures var s := Step(now, Visit(d)); Law(s.0, log + s.1, whole, due0)
  {
    hide Step;
    hide Left;
    hide Pulses;
    hide Delays;
    VisitSends(now, d);
    var s := Step(now, Visit(d));
    if s.1 == [] {
      assert log + [] == log;
    } else {
      Appended(log, s.1[0]);
      var rest := Left(now.t);
      assert rest == [s.1[0].p] + rest[1..];
      assert (Pulses(log) + [s.1[0].p]) + rest[1..] == Pulses(log) + rest;
    }
  }

  lemma LawStep(now: Life, ev: Event, log: seq<Sent>, whole: seq<Pulse>, due0: int)
    requires Good(now.t) && Law(now, log, whole, due0)
    ensures var s := Step(now, ev); Law(s.0, log + s.1, whole + Joined(Added(now, ev)), due0)
  {
    assert whole + [] == whole && Joined([]) == [];
    if ev.Visit? && now.t.active {
      LawVisit(now, ev.d, log, whole, due0);
    } else {
      var s := Step(now, ev);
      assert log + [] == log;
      if ev.Add? && now.t.active && |now.t.waves| < TX_BUF {
        AddExtendsLeft(now.t, ev.w);
        JoinedAppend([], ev.w);
        assert [] + [ev.w] == [ev.w] && [] + ev.w == ev.w;
        assert (Pulses(log) + Left(now.t)) + ev.w == Pulses(log) + (Left(now.t) + ev.w);
      } else {
        assert Left(s.0.t) == Left(now.t);
      }
    }
  }

  lemma {:induction false} JoinedBoth(a: seq<seq<Pulse>>, b: seq<seq<Pulse>>)
    requires |b| <= 1
    ensures Joined(a + b) == Joined(a) + Joined(b)
  {
    if b == [] {
      assert a + b == a;
    } else {
      assert b == [b[0]] && b[1..] == [];
      JoinedAppend(a, b[0]);
    }
  }

  /** In every run pulses sent and pulses left are together exactly the pulses accepted, in order, and
      each went out at the first due time plus all earlier delays. */
  lemma {:induction false} WavesConservedOnTime(l: Life, evs: seq<Event>)
    requires Good(l.t)
    ensures Law(Run(l, evs).0, Run(l, evs).1, Left(l.t) + Joined(Accepted(l, evs)), l.clock + l.t.next)
  {
    hide Law;
    hide Step;
    hide Left;
    hide Joined;
    if evs == [] {
      LawStart(l);
    } else {
      var front, ev := evs[..|evs| - 1], evs[|evs| - 1];
      WavesConservedOnTime(l, front);
      var b := Run(l, front);
      var more := Added(b.0, ev);
      LawStep(b.0, ev, b.1, Left(l.t) + Joined(Accepted(l, front)), l.clock + l.t.next);
      JoinedBoth(Accepted(l, front), more);
      assert (Left(l.t) + Joined(Accepted(l, front))) + Joined(more) ==
             Left(l.t) + (Joined(Accepted(l, front)) + Joined(more));
    }
  }

  lemma LawStart(l: Life)
    requires Good(l.t)
    ensures Law(l, [], Left(l.t) + Joined([]), l.clock + l.t.next)
  {
    assert Pulses([]) + Left(l.t) == Left(l.t) + [];
  }

  // --------------------------------------------------------------- when pulses are left over

  /** All the waves of a run: those held at first, and those accepted. */
  ghost function Given(l: Life, evs: seq<Event>): seq<seq<Pulse>>
    requires Good(l.t)
  {
    l.t.waves + Accepted(l, evs)
  }

  /** Behind the first wave there is an empty one, and behind that one with pulses. */
  ghost predicate EmptyInFront(ws: seq<seq<Pulse>>) {
    exists i, j :: 0 < i < j < |ws| && ws[i] == [] && ws[j] != []
  }

  ghost predicate NoKill(evs: seq<Event>) { forall i :: 0 <= i < |evs| ==> !evs[i].Kill? }

  /** Where a run is in its waves: the first k are done, and only the first of all, or the one at
      which the record stopped, may have been empty. */
  ghost predicate Through(t: Tx, ws: seq<seq<Pulse>>, k: nat)
    requires Good(t)
  {
    && k + |t.waves| == |ws| && t.waves == ws[k..]
    && (forall i :: 0 < i < k ==> ws[i] != [])
    && (t.active && k > 0 ==> ws[k] != [])
    && (!t.active ==> t.pos >= |t.waves[0]| && (|t.waves| == 1 || (k > 0 && ws[k] == [])))
  }

  lemma ThroughFire(t: Tx, ws: seq<seq<Pulse>>, k: nat) returns (n: nat)
    requires Good(t) && t.active && Through(t, ws, k)
    ensures Good(FireWave(t).0) && Through(FireWave(t).0, ws, n)
  {
    WaveStep(t);
    n := k;
    if t.pos >= |t.waves[0]| && |t.waves| > 1 {
      n := k + 1;
      assert ws[k..][1..] == ws[k + 1..];
    }
  }

  lemma ThroughStep(l: Life, ev: Event, ws: seq<seq<Pulse>>, k: nat) returns (n: nat)
    requires Good(l.t) && !ev.Kill? && Through(l.t, ws, k)
    ensures Through(Step(l, ev).0.t, ws + Added(l, ev), n)
  {
    n := k;
    assert ws + [] == ws;
    if l.t.active && ev.Visit? {
      var u := Age(l.t, ev.d);
      if u.next <= 0 {
        n := ThroughFire(u, ws, k);
      }
    } else if l.t.active && ev.Add? {
      assert (ws + [ev.w])[k..] == ws[k..] + [ev.w];
    }
  }

  lemma {:induction false} ThroughRun(l: Life, evs: seq<Event>) returns (k: nat)
    requires Good(l.t) && l.t.active && NoKill(evs)
    ensures Through(Run(l, evs).0.t, Given(l, evs), k)
  {
    hide Step;
    hide Added;
    k := 0;
    if evs == [] {
      assert l.t.waves + [] == l.t.waves;
    } else {
      var front, ev := evs[..|evs| - 1], evs[|evs| - 1];
      k := ThroughRun(l, front);
      k := ThroughStep(Run(l, front).0, ev, Given(l, front), k);
      assert Given(l, front) + Added(Run(l, front).0, ev) == Given(l, evs);
    }
  }

  lemma {:induction false} JoinedNothing(ws: seq<seq<Pulse>>)
    ensures Joined(ws) == [] <==> forall i :: 0 <= i < |ws| ==> ws[i] == []
  {
    if ws != [] {
      JoinedNothing(ws[1..]);
      assert forall i :: 0 < i < |ws| ==> ws[i] == ws[1..][i - 1];
    }
  }

  /** A wave record that stops by itself has sent everything it was given if and only if no wave with
      pulses was queued behind an empty one. */
  lemma StopsAfterAll(l: Life, evs: seq<Event>)
    requires Good(l.t) && l.t.active && NoKill(evs) && !Run(l, evs).0.t.active
    ensures Left(Run(l, evs).0.t) == [] <==> !EmptyInFront(Given(l, evs))
  {
    var k := ThroughRun(l, evs);
    var t, ws := Run(l, evs).0.t, Given(l, evs);
    hide Run;
    hide Given;
    StopsAt(t, ws, k);
  }

  lemma StopsAt(t: Tx, ws: seq<seq<Pulse>>, k: nat)
    requires Good(t) && !t.active && Through(t, ws, k)
    ensures Left(t) == [] <==> !EmptyInFront(ws)
  {
    var rest := t.waves[1..];
    assert t.waves[0][t.pos..] == [] && Left(t) == Joined(rest);
    assert forall i :: 0 <= i < |rest| ==> rest[i] == ws[k + 1 + i];
    JoinedNothing(rest);
    if Left(t) != [] {
      var i :| 0 <= i < |rest| && rest[i] != [];
      assert 0 < k < k + 1 + i < |ws| && ws[k] == [] && ws[k + 1 + i] != [];
    }
    if EmptyInFront(ws) {
      var i, j :| 0 < i < j < |ws| && ws[i] == [] && ws[j] != [];
      assert i >= k && rest[j - k - 1] != [];
    }
  }
}
