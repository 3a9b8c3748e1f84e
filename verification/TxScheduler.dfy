/**
 The transmit thread of lgpio/lgPthTx.c over its real shape: heap records in a doubly linked
 list, each with fixed arrays for its queue, walked and edited in place. Every method is
 proved to compute the corresponding function of TxModel.dfy.
 */
module TxScheduler {
  import opened TxModel

  /** One lgTxRec_t. The C loop that shifts a full queue reads one element past its ten, so the
      arrays here have a spare last slot; `View` never looks at it, hence no result of a method
      specified by `View` depends on it. */
  class TxRec {
    ghost const id: nat
    const chip: int
    const gpio: int
    const kind: Kind
    var active: bool
    var prev: TxRec?
    var next: TxRec?
    var nextMicros: int
    var entries: nat
    const pwm: array<Entry>
    var nextLevel: bool
    const pulses: array<seq<Pulse>>
    var pulsePos: nat

    ghost var view: Tx

    /** `view` is the abstract record: the live part of the queue and nothing of the spare slots. */
    ghost predicate Valid()
      reads this`active, this`nextMicros, this`entries, this`nextLevel, this`pulsePos, this`view, pwm, pulses
    {
      && pwm.Length == TX_BUF + 1 && pulses.Length == TX_BUF + 1 && 1 <= entries <= TX_BUF
      && view.Ok() && view.Kind() == kind
      && view == if kind.PWM? then Pwm(id, chip, gpio, active, nextMicros, pwm[..entries], nextLevel)
                 else Wave(id, chip, gpio, active, nextMicros, pulses[..entries], pulsePos)
    }

    constructor ForPwm(ghost id: nat, chip: int, gpio: int, first: Entry, nextMicros: int)
      ensures Valid() && fresh(pwm) && fresh(pulses)
      ensures prev == null && next == null
      ensures view == Pwm(id, chip, gpio, true, nextMicros, [first], first.on != 0)
    {
      this.id, this.chip, this.gpio, this.kind := id, chip, gpio, PWM;
      this.active, this.prev, this.next, this.nextMicros := true, null, null, nextMicros;
      this.entries, this.nextLevel, this.pulsePos := 1, first.on != 0, 0;
      this.view := Pwm(id, chip, gpio, true, nextMicros, [first], first.on != 0);
      this.pwm := new Entry[TX_BUF + 1](_ => first);
      this.pulses := new seq<Pulse>[TX_BUF + 1](_ => []);
      new;
      assert pwm[..1] == [first];
    }

    constructor ForWave(ghost id: nat, chip: int, gpio: int, first: seq<Pulse>, nextMicros: int)
      ensures Valid() && fresh(pwm) && fresh(pulses)
      ensures prev == null && next == null
      ensures view == Wave(id, chip, gpio, true, nextMicros, [first], 0)
    {
      this.id, this.chip, this.gpio, this.kind := id, chip, gpio, WAVE;
      this.active, this.prev, this.next, this.nextMicros := true, null, null, nextMicros;
      this.entries, this.nextLevel, this.pulsePos := 1, false, 0;
      this.view := Wave(id, chip, gpio, true, nextMicros, [first], 0);
      this.pwm := new Entry[TX_BUF + 1](_ => Entry(0, 0, 0));
      this.pulses := new seq<Pulse>[TX_BUF + 1](_ => first);
      new;
      assert pulses[..1] == [first];
    }

    /** Drops the head of the PWM queue, reading the slot past the live part. */
    method ShiftPwm()
      requires Valid() && kind.PWM? && entries > 1
      modifies this`entries, this`view, pwm
      ensures Valid() && view == old(view).(queue := old(view).queue[1..])
    {
      for i := 0 to entries
        invariant entries == old(entries) && view == old(view)
        invariant forall k :: 0 <= k < i && k + 1 < entries ==> pwm[k] == view.queue[k + 1]
        invariant forall k :: i <= k < entries ==> pwm[k] == view.queue[k]
      {
        pwm[i] := pwm[i + 1];
      }
      entries := entries - 1;
      view := view.(queue := view.queue[1..]);
      assert pwm[..entries] == view.queue;
    }

    method ShiftWave()
      requires Valid() && kind.WAVE? && entries > 1
      modifies this`entries, this`pulsePos, this`view, pulses
      ensures Valid() && view == old(view).(waves := old(view).waves[1..], pos := 0)
    {
      for i := 0 to entries
        invariant entries == old(entries) && view == old(view)
        invariant forall k :: 0 <= k < i && k + 1 < entries ==> pulses[k] == view.waves[k + 1]
        invariant forall k :: i <= k < entries ==> pulses[k] == view.waves[k]
      {
        pulses[i] := pulses[i + 1];
      }
      entries := entries - 1;
      pulsePos := 0;
      view := view.(waves := view.waves[1..], pos := 0);
      assert forall k :: 0 <= k < entries ==> pulses[k] == view.waves[k];
      assert pulses[..entries] == view.waves;
    }

    /** The source's "start of cycle", after any shift. */
    method StartCycle() returns (out: seq<Write>)
      requires Valid() && kind.PWM?
      modifies this`active, this`nextMicros, this`nextLevel, this`view, pwm
      ensures Valid() && (view, out) == StartPwm(old(view))
    {
      var h := pwm[0];
      if h.cycles == 0 {
        out := [Level(chip, gpio, false)];
        active := false;
      } else if h.on != 0 {
        out := [Level(chip, gpio, true)];
        nextMicros := nextMicros + h.on;
        if h.off != 0 {
          nextLevel := false;
        }
      } else {
        out := [Level(chip, gpio, false)];
        nextMicros := nextMicros + h.off;
        nextLevel := true;
      }
      var left := h.cycles - 1;
      if left < 0 {
        left := -1;
      }
      pwm[0] := h.(cycles := left);
      view := StartPwm(view).0;
      assert pwm[..entries] == view.queue;
    }

    method FireAsPwm() returns (out: seq<Write>)
      requires Valid() && kind.PWM?
      modifies this`active, this`nextMicros, this`entries, this`nextLevel, this`view, pwm
      ensures Valid() && (view, out) == FirePwm(old(view))
    {
      if nextLevel || pwm[0].on == 0 {
        if pwm[0].cycles <= 0 && entries > 1 {
          ShiftPwm();
        }
        out := StartCycle();
      } else {
        out := [Level(chip, gpio, false)];
        nextMicros := nextMicros + pwm[0].off;
        nextLevel := true;
        view := FirePwm(view).0;
      }
    }

    method FireAsWave() returns (out: seq<Write>)
      requires Valid() && kind.WAVE?
      modifies this`active, this`nextMicros, this`entries, this`pulsePos, this`view, pulses
      ensures Valid() && (view, out) == FireWave(old(view))
    {
      if pulsePos >= |pulses[0]| && entries > 1 {
        ShiftWave();
      }
      if pulsePos < |pulses[0]| {
        var p := pulses[0][pulsePos];
        out := [Group(chip, gpio, p.bits, p.mask)];
        nextMicros := nextMicros + p.delay;
        pulsePos := pulsePos + 1;
      } else {
        out := [];
        active := false;
      }
      view := FireWave(old(view)).0;
    }

    lemma Shown()
      requires Valid()
      ensures view.active == active && view.next == nextMicros && view.Kind() == kind
      ensures view.id == id && view.chip == chip && view.gpio == gpio
      ensures entries == if view.Pwm? then |view.queue| else |view.waves|
    {
    }

    method Tick(d: int)
      requires Valid()
      modifies this`nextMicros, this`view
      ensures Valid() && view == Age(old(view), d)
    {
      nextMicros := nextMicros - d;
      view := Age(view, d);
    }

    /** The active branch of the walk. */
    method ServeIt() returns (out: seq<Write>)
      requires Valid()
      modifies this`active, this`nextMicros, this`entries, this`nextLevel, this`pulsePos, this`view, pwm, pulses
      ensures Valid() && (view, out) == Serve(old(view))
    {
      if nextMicros > 0 {
        out := [];
      } else if kind.PWM? {
        out := FireAsPwm();
      } else {
        out := FireAsWave();
      }
    }

    /** Stops transmitting; the thread deletes the record on a later pass. */
    method Quiet()
      requires Valid()
      modifies this`active, this`view
      ensures Valid() && view == old(view).Off()
    {
      active := false;
      view := view.Off();
    }

    /** Queues a wave if there is room. */
    method EnqueueWave(w: seq<Pulse>) returns (ok: bool)
      requires Valid() && kind.WAVE?
      modifies this`entries, this`view, pulses
      ensures Valid() && ok == (|old(view).waves| < TX_BUF)
      ensures view == if ok then old(view).(waves := old(view).waves + [w]) else old(view)
    {
      ok := entries < TX_BUF;
      if ok {
        pulses[entries] := w;
        entries := entries + 1;
        view := view.(waves := view.waves + [w]);
        assert forall k :: 0 <= k < entries ==> pulses[k] == view.waves[k];
        assert pulses[..entries] == view.waves;
      }
    }

    /** Queues a pulse train behind those already there. */
    method Enqueue(e: Entry) returns (ok: bool)
      requires Valid() && kind.PWM?
      modifies this`entries, this`view, pwm
      ensures Valid()
      ensures ok == HasRoom(old(view).queue)
      ensures view == WithEntry(old(view), e)
    {
      if entries > 1 && pwm[entries - 1].cycles == -1 {
        entries := entries - 1;
      }
      ok := entries < TX_BUF;
      if ok {
        pwm[entries] := e;
        entries := entries + 1;
      }
      view := WithEntry(view, e);
      assert pwm[..entries] == view.queue;
    }
  }

  class Scheduler {
    var head: TxRec?
    var delay: int
    var sec: int
    var nsec: int
    ghost var made: nat
    ghost var nodes: seq<TxRec>

    /** The memory of the records that the thread may write. */
    ghost function Arrays(): set<object>
      reads this
    {
      (set n | n in nodes :: n.pwm as object) + (set n | n in nodes :: n.pulses as object)
    }

    /** The records and their arrays lie in `foot`. */
    ghost predicate Within(foot: set<object>)
      reads this
    {
      forall n :: n in nodes ==> n in foot && n.pwm in foot && n.pulses in foot
    }

    ghost predicate Separate(ns: seq<TxRec>)
    {
      forall i, j :: 0 <= i < j < |ns| ==>
        ns[i] != ns[j] && ns[i].pwm != ns[j].pwm && ns[i].pulses != ns[j].pulses
    }

    ghost function At(ns: seq<TxRec>, i: int): TxRec? { if 0 <= i < |ns| then ns[i] else null }

    /** `nodes` are the records from the head, linked both ways. */
    ghost predicate Linked(ns: seq<TxRec>)
      reads this, ns
    {
      && head == At(ns, 0)
      && (forall i :: 0 <= i < |ns| ==> ns[i].next == At(ns, i + 1) && ns[i].prev == At(ns, i - 1))
    }

    ghost predicate Valid()
      reads this, nodes, Arrays()
    {
      && Separate(nodes)
      && Linked(nodes)
      && forall i :: 0 <= i < |nodes| ==> nodes[i].Valid()
    }

    ghost function Views(): (v: seq<Tx>)
      requires Valid()
      reads this, nodes, Arrays()
      ensures |v| == |nodes| && AllOk(v)
      ensures forall i :: 0 <= i < |nodes| ==> v[i] == nodes[i].view
    {
      seq(|nodes|, i requires 0 <= i < |nodes| reads this, nodes => nodes[i].view)
    }

    ghost function State(): Sched
      requires Valid()
      reads this, nodes, Arrays()
    {
      Sched(Views(), delay, sec, nsec, made)
    }

    constructor (sec: int, nsec: int)
      ensures Valid() && State() == Sched([], 0, sec, nsec, 0)
    {
      head := null;
      this.delay, this.sec, this.nsec := 0, sec, nsec;
      made := 0;
      nodes := [];
    }

    /** The first loop of a pass: every countdown loses the time slept. */
    method AgeAll()
      requires Valid()
      modifies nodes`nextMicros, nodes`view
      ensures Valid() && nodes == old(nodes) && Views() == Aged(old(Views()), delay)
    {
      hide TxRec.Valid;
      hide Age;
      hide At;
      var p := head;
      ghost var k := 0;
      Here(nodes, 0);
      while p != null
        invariant 0 <= k <= |nodes| && Linked(nodes)
        invariant p == At(nodes, k)
        invariant forall j :: 0 <= j < |nodes| ==> nodes[j].Valid()
        invariant forall j :: 0 <= j < |nodes| ==>
            nodes[j].view == if j < k then Age(old(nodes[j].view), delay) else old(nodes[j].view)
        decreases |nodes| - k
      {
        Here(nodes, k);
        p.Tick(delay);
        p := p.next;
        k := k + 1;
      }
      Here(nodes, k);
    }

    lemma Here(ns: seq<TxRec>, d: int)
      ensures At(ns, d) == if 0 <= d < |ns| then ns[d] else null
    {
    }

    /** The four pointer cases of a deletion; the record itself keeps its own links. */
    method Bypass(p: TxRec, ghost i: nat)
      requires Valid() && i < |nodes| && p == nodes[i]
      modifies this`head, nodes`next, nodes`prev
      ensures i == 0 ==> head == At(nodes, 1)
      ensures i > 0 ==> head == old(head)
      ensures forall j :: 0 <= j < |nodes| && j != i ==>
                nodes[j].next == At(nodes, if j + 1 == i then i + 1 else j + 1)
      ensures forall j :: 0 <= j < |nodes| && j != i ==>
                nodes[j].prev == At(nodes, if j - 1 == i then i - 1 else j - 1)
      ensures p.prev == At(nodes, i - 1)
    {
      hide TxRec.Valid;
      hide At;
      var before := p.prev;
      var after := p.next;
      Here(nodes, i - 1);
      Here(nodes, i + 1);
      if before != null {
        before.next := after;
      } else {
        head := after;
      }
      if after != null {
        after.prev := before;
      }
    }

    lemma Removed(was: seq<TxRec>, i: nat, now: seq<TxRec>)
      requires i < |was| && now == was[..i] + was[i + 1..]
      ensures |now| == |was| - 1
      ensures forall j :: 0 <= j < |now| ==> now[j] == was[if j < i then j else j + 1]
      ensures forall j :: At(now, j) == At(was, if j < i then j else j + 1)
    {
    }

    /** Takes a record out of the list. */
    method Unlink(p: TxRec, ghost i: nat)
      requires Valid() && i < |nodes| && p == nodes[i]
      modifies this`head, this`nodes, nodes`next, nodes`prev
      ensures nodes == old(nodes)[..i] + old(nodes)[i + 1..]
      ensures Valid() && Views() == old(Views())[..i] + old(Views())[i + 1..]
      ensures p.prev == At(nodes, i - 1)
    {
      hide TxRec.Valid;
      hide At;
      Bypass(p, i);
      ghost var was := nodes;
      nodes := was[..i] + was[i + 1..];
      Removed(was, i, nodes);
      forall j | 0 <= j < |nodes|
        ensures nodes[j].next == At(nodes, j + 1) && nodes[j].prev == At(nodes, j - 1)
        ensures nodes[j].Valid()
      {
        var m := if j < i then j else j + 1;
        assert nodes[j] == was[m] && old(was[m].Valid());
      }
    }

    /** Serves the i-th record and touches no other. */
    method ServeAt(p: TxRec, ghost i: nat) returns (w: seq<Write>)
      requires Valid() && i < |nodes| && p == nodes[i]
      modifies p`active, p`nextMicros, p`entries, p`nextLevel, p`pulsePos, p`view, p.pwm, p.pulses
      ensures Valid()
      ensures Views() == old(Views())[i := Serve(old(Views())[i]).0]
      ensures w == Serve(old(Views())[i]).1
    {
      hide TxRec.Valid;
      hide At;
      hide Serve;
      w := p.ServeIt();
      forall j | 0 <= j < |nodes| && j != i
        ensures nodes[j].Valid() && nodes[j].view == old(nodes[j].view)
      {
        assert old(nodes[j].Valid());
      }
    }

    /** How many of the first k records the walk keeps: where the next one then stands. */
    static ghost function Survivors(aged: seq<Tx>, k: nat): nat
      requires AllOk(aged) && k <= |aged|
    {
      |Kept(aged[..k])|
    }

    /** Having visited k records of a list that began as `aged`. */
    ghost predicate Visited(aged: seq<Tx>, k: nat, out: seq<Write>)
      requires Valid() && AllOk(aged)
      reads this, nodes, Arrays()
    {
      && k <= |aged|
      && Views() == Kept(aged[..k]) + aged[k..]
      && delay == Soonest(Kept(aged[..k]))
      && out == Writes(aged[..k])
    }

    lemma Visit(aged: seq<Tx>, k: nat)
      requires AllOk(aged) && k < |aged|
      ensures var one, kept := aged[k], Kept(aged[..k]);
              && (kept + aged[k..])[|kept|] == one
              && (one.active ==>
                  && Kept(aged[..k + 1]) == kept + [Serve(one).0]
                  && (kept + aged[k..])[|kept| := Serve(one).0] == Kept(aged[..k + 1]) + aged[k + 1..]
                  && Writes(aged[..k + 1]) == Writes(aged[..k]) + Serve(one).1
                  && Soonest(Kept(aged[..k + 1])) == if Serve(one).0.next < Soonest(kept) then Serve(one).0.next
                                                     else Soonest(kept))
              && (!one.active ==>
                  && Kept(aged[..k + 1]) == kept && Writes(aged[..k + 1]) == Writes(aged[..k])
                  && (kept + aged[k..])[..|kept|] + (kept + aged[k..])[|kept| + 1..]
                     == Kept(aged[..k + 1]) + aged[k + 1..])
    {
      hide Serve;
      assert aged[..k + 1][..k] == aged[..k];
      var kept := Kept(aged[..k]);
      assert aged[k].active ==> (kept + [Serve(aged[k]).0])[..|kept|] == kept;
    }

    method VisitActive(p: TxRec, ghost aged: seq<Tx>, ghost k: nat, sofar: seq<Write>) returns (out: seq<Write>)
      requires Valid() && AllOk(aged) && Visited(aged, k, sofar) && k < |aged|
      requires p == At(nodes, Survivors(aged, k)) && p.active
      modifies this`delay, p`active, p`nextMicros, p`entries, p`nextLevel, p`pulsePos, p`view, p.pwm, p.pulses
      ensures Valid() && Visited(aged, k + 1, out) && Survivors(aged, k + 1) == Survivors(aged, k) + 1
      ensures p == At(nodes, Survivors(aged, k + 1) - 1)
    {
      hide TxRec.Valid;
      hide At;
      hide Serve;
      hide Kept;
      hide Writes;
      hide Soonest;
      ghost var d: int := Survivors(aged, k);
      Here(nodes, d);
      Visit(aged, k);
      p.Shown();
      var w := ServeAt(p, d);
      p.Shown();
      out := sofar + w;
      if p.nextMicros < delay {
        delay := p.nextMicros;
      }
    }

    /** Deletes an inactive record; `q` is where the walk goes on from. */
    method VisitInactive(p: TxRec, ghost aged: seq<Tx>, ghost k: nat, sofar: seq<Write>) returns (q: TxRec?)
      requires Valid() && AllOk(aged) && Visited(aged, k, sofar) && k < |aged|
      requires p == At(nodes, Survivors(aged, k)) && !p.active
      modifies this`head, this`nodes, nodes`next, nodes`prev
      ensures Valid() && Visited(aged, k + 1, sofar) && Survivors(aged, k + 1) == Survivors(aged, k)
      ensures forall n :: n in nodes ==> n in old(nodes)
      ensures q == At(nodes, Survivors(aged, k + 1) - 1)
    {
      hide TxRec.Valid;
      hide At;
      hide Serve;
      hide Kept;
      hide Writes;
      hide Soonest;
      ghost var d: int := Survivors(aged, k);
      Here(nodes, d);
      Visit(aged, k);
      p.Shown();
      hide Scheduler.Valid;
      Unlink(p, d);
      q := p.prev;
    }

    /** One turn of the walk. `next` is null at the end of the list, and after deleting the head. */
    method VisitOne(p: TxRec, ghost aged: seq<Tx>, ghost k: nat, sofar: seq<Write>, ghost foot: set<object>)
      returns (next: TxRec?, out: seq<Write>)
      requires Within(foot)
      requires Valid() && AllOk(aged) && Visited(aged, k, sofar) && p == At(nodes, Survivors(aged, k))
      modifies this`head, this`nodes, this`delay, foot
      ensures Valid() && k < |aged| && Visited(aged, k + 1, out)
      ensures Within(foot)
      ensures Survivors(aged, k) == 0 && !aged[k].active ==> next == null
      ensures Survivors(aged, k) > 0 || aged[k].active ==> next == At(nodes, Survivors(aged, k + 1))
      ensures Survivors(aged, k + 1) == Survivors(aged, k) + if aged[k].active then 1 else 0
    {
      hide TxRec.Valid;
      hide At;
      hide Serve;
      hide Kept;
      hide Writes;
      hide Soonest;
      Here(nodes, Survivors(aged, k));
      Visit(aged, k);
      p.Shown();
      hide Survivors;
      var q: TxRec? := p;
      if p.active {
        out := VisitActive(p, aged, k, sofar);
      } else {
        q := VisitInactive(p, aged, k, sofar);
        out := sofar;
      }
      Here(nodes, Survivors(aged, k + 1) - 1);
      next := if q != null then q.next else null;
    }

    method WalkBegins() returns (p: TxRec?)
      requires Valid()
      modifies this`delay
      ensures Valid() && Visited(Views(), 0, []) && Views() == old(Views()) && Kept(Views()[..0]) == []
      ensures p == At(nodes, 0)
    {
      hide TxRec.Valid;
      hide At;
      delay := MAX_DELAY;
      p := head;
      assert Views()[..0] == [] && Views()[0..] == Views();
    }

    lemma WalkEnds(aged: seq<Tx>, k: nat, out: seq<Write>)
      requires Valid() && AllOk(aged) && Visited(aged, k, out)
      requires HeadDeleted(aged) && k > 0 ==> k == 1
      requires k == 0 || !HeadDeleted(aged) ==> At(nodes, Survivors(aged, k)) == null
      ensures HeadDeleted(aged) ==> Views() == aged[1..] && delay == MAX_DELAY && out == []
      ensures !HeadDeleted(aged) ==> Views() == Kept(aged) && delay == Soonest(Views()) && out == Writes(aged)
    {
      hide Serve;
      hide At;
      hide TxRec.Valid;
      Here(nodes, Survivors(aged, k));
      assert aged[..|aged|] == aged;
      if HeadDeleted(aged) {
        Visit(aged, 0);
      }
    }

    /** The second loop: serve active records, delete the others, and find the next delay.
        Deleting the head leaves no predecessor, which ends the walk. */
    method Walk(ghost foot: set<object>) returns (out: seq<Write>)
      requires Valid() && Within(foot)
      modifies this`head, this`nodes, this`delay, foot
      ensures Valid()
      ensures Within(foot)
      ensures HeadDeleted(old(Views())) ==>
                Views() == old(Views())[1..] && delay == MAX_DELAY && out == []
      ensures !HeadDeleted(old(Views())) ==>
                Views() == Kept(old(Views())) && delay == Soonest(Views()) && out == Writes(old(Views()))
    {
      hide TxRec.Valid;
      hide At;
      hide Serve;
      hide Kept;
      hide Writes;
      hide Visited;
      hide Scheduler.Valid;
      ghost var aged := Views();
      ghost var k, d := 0, 0;
      var p := WalkBegins();
      out := [];
      while p != null
        invariant Valid() && k <= |aged| && Visited(aged, k, out)
        invariant d == Survivors(aged, k)
        invariant if k > 0 && HeadDeleted(aged) then k == 1 && p == null else p == At(nodes, d)
        invariant if k == 0 || HeadDeleted(aged) then d == 0 else d > 0
        invariant Within(foot)
        decreases |aged| - k
      {
        p, out := VisitOne(p, aged, k, out, foot);
        d := d + if aged[k].active then 1 else 0;
        k := k + 1;
      }
      WalkEnds(aged, k, out);
    }

    /** The absolute time to sleep until. */
    method SetWakeUp()
      requires Valid()
      modifies this`sec, this`nsec
      ensures Valid() && Views() == old(Views())
      ensures (sec, nsec) == Advance(old(sec), old(nsec), delay)
    {
      hide TxRec.Valid;
      hide At;
      nsec := nsec + delay * 1000;
      if nsec >= NANOS {
        sec := sec + 1;
        nsec := nsec - NANOS;
      }
    }

    /** One turn of the transmit thread, up to the sleep. */
    method Pass(ghost foot: set<object>) returns (out: seq<Write>)
      requires Valid() && Within(foot) && this !in foot
      modifies this`head, this`nodes, this`delay, this`sec, this`nsec, foot
      ensures Valid() && (State(), out) == TxModel.Pass(old(State()))
      ensures Within(foot)
    {
      hide TxRec.Valid;
      hide Scheduler.Valid;
      hide At;
      hide Kept;
      hide Writes;
      hide Soonest;
      hide Advance;
      AgeAll();
      out := Walk(foot);
      SetWakeUp();
    }

    ghost predicate Foreign(p: TxRec)
      reads this
    {
      forall j :: 0 <= j < |nodes| ==> nodes[j] != p && nodes[j].pwm != p.pwm && nodes[j].pulses != p.pulses
    }

    method LinkIn(p: TxRec)
      requires Valid() && p.Valid() && Foreign(p)
      modifies this`head, p`next, nodes`prev
      ensures head == p && p.next == At(nodes, 0) && p.prev == old(p.prev)
      ensures forall j :: 0 <= j < |nodes| ==> nodes[j].next == At(nodes, j + 1)
      ensures forall j :: 0 <= j < |nodes| ==> nodes[j].prev == if j == 0 then p else At(nodes, j - 1)
    {
      hide TxRec.Valid;
      hide At;
      Here(nodes, 0);
      p.next := head;
      if head != null {
        head.prev := p;
      }
      head := p;
    }

    /** Links a new record in at the head. */
    method PushFront(p: TxRec)
      requires Valid() && p.Valid() && p.prev == null && Foreign(p)
      modifies this`head, this`nodes, this`made, p`next, nodes`prev
      ensures Valid() && nodes == [p] + old(nodes) && made == old(made) + 1
      ensures Views() == [p.view] + old(Views())
    {
      hide TxRec.Valid;
      hide At;
      hide Separate;
      assert Separate(nodes);
      LinkIn(p);
      ghost var was := nodes;
      nodes := [p] + was;
      made := made + 1;
      Added(p, was, nodes);
      forall j | 0 <= j < |nodes|
        ensures nodes[j].next == At(nodes, j + 1) && nodes[j].prev == At(nodes, j - 1)
        ensures nodes[j].Valid()
      {
        if j > 0 {
          assert old(was[j - 1].Valid());
        }
      }
    }

    lemma Added(p: TxRec, was: seq<TxRec>, now: seq<TxRec>)
      requires now == [p] + was && Separate(was)
      requires forall j :: 0 <= j < |was| ==> was[j] != p && was[j].pwm != p.pwm && was[j].pulses != p.pulses
      ensures Separate(now)
      ensures forall j :: 0 < j < |now| ==> now[j] == was[j - 1]
      ensures forall j :: j != 0 ==> At(now, j) == At(was, j - 1)
      ensures At(now, 0) == p && At(now, -1) == null
    {
    }

    /** The first record of the key, or null. */
    method GetTxRec(chip: int, gpio: int, kind: Kind) returns (p: TxRec?, ghost i: nat)
      requires Valid()
      ensures Valid() && State() == old(State())
      ensures i == Lookup(Views(), chip, gpio, kind) && (p == null) == (i == |nodes|)
      ensures p != null ==> p == nodes[i] && p.Valid() && p.active == Views()[i].active
      ensures p != null ==> p.chip == chip && p.gpio == gpio && p.kind == kind
    {
      hide TxRec.Valid;
      hide At;
      ghost var vs := Views();
      p, i := head, 0;
      assert vs[0..] == vs;
      while p != null && (p.chip != chip || p.gpio != gpio || p.kind != kind)
        invariant i <= |nodes| && p == At(nodes, i)
        invariant Lookup(vs, chip, gpio, kind) == i + Lookup(vs[i..], chip, gpio, kind)
        decreases |nodes| - i
      {
        Here(nodes, i);
        p.Shown();
        assert vs[i..][1..] == vs[i + 1..];
        p, i := p.next, i + 1;
      }
      Here(nodes, i);
      if p != null {
        p.Shown();
      }
    }

    method MicrosLeft(ct: int, offset: int) returns (left: int)
      requires ct > 0
      ensures left == FirstDue(nsec, delay, ct, offset)
    {
      var usec := CDiv(nsec, 1000);
      var cyc := CDiv(usec, ct);
      var frac := usec - ct * cyc;
      left := ct - frac + delay + offset;
    }

    /** lgGpioCreateTxRec. */
    method CreatePwm(chip: int, gpio: int, on: int, off: int, offset: int, cycles: int)
      requires Valid() && on + off > 0
      modifies this`head, this`nodes, this`made, nodes`prev
      ensures Valid() && State() == Pushed(old(State()), NewPwm(old(State()), chip, gpio, on, off, offset, cycles))
      ensures fresh(nodes[0]) && fresh(nodes[0].pwm) && fresh(nodes[0].pulses) && nodes[1..] == old(nodes)
    {
      hide TxRec.Valid;
      hide At;
      hide FirstDue;
      var left := MicrosLeft(on + off, offset);
      var p := new TxRec.ForPwm(made, chip, gpio, Entry(on, off, if cycles != 0 then cycles else -1), left);
      PushFront(p);
    }

    /** lgGroupCreateWaveRec. */
    method CreateWave(chip: int, gpio: int, pulses: seq<Pulse>)
      requires Valid()
      modifies this`head, this`nodes, this`made, nodes`prev
      ensures Valid() && State() == Pushed(old(State()), Wave(old(made), chip, gpio, true, delay, [pulses], 0))
      ensures fresh(nodes[0]) && fresh(nodes[0].pwm) && fresh(nodes[0].pulses) && nodes[1..] == old(nodes)
    {
      hide TxRec.Valid;
      hide At;
      var p := new TxRec.ForWave(made, chip, gpio, pulses, delay);
      PushFront(p);
    }

    method QuietAt(p: TxRec, ghost i: nat)
      requires Valid() && i < |nodes| && p == nodes[i]
      modifies p`active, p`view
      ensures Valid() && Views() == old(Views())[i := old(Views())[i].Off()]
    {
      hide TxRec.Valid;
      hide At;
      p.Quiet();
      forall j | 0 <= j < |nodes| && j != i
        ensures nodes[j].Valid() && nodes[j].view == old(nodes[j].view)
      {
        assert old(nodes[j].Valid());
      }
    }

    method EnqueueAt(p: TxRec, ghost i: nat, e: Entry) returns (ok: bool)
      requires Valid() && i < |nodes| && p == nodes[i] && p.kind.PWM?
      modifies p`entries, p`view, p.pwm
      ensures Valid() && old(Views())[i].Pwm?
      ensures ok == HasRoom(old(Views())[i].queue)
      ensures Views() == old(Views())[i := WithEntry(old(Views())[i], e)]
      ensures p.entries == |Views()[i].queue|
    {
      hide TxRec.Valid;
      hide At;
      hide WithEntry;
      hide HasRoom;
      p.Shown();
      ok := p.Enqueue(e);
      forall j | 0 <= j < |nodes| && j != i
        ensures nodes[j].Valid() && nodes[j].view == old(nodes[j].view)
      {
        assert old(nodes[j].Valid());
      }
      p.Shown();
    }

    method EnqueueWaveAt(p: TxRec, ghost i: nat, w: seq<Pulse>) returns (ok: bool)
      requires Valid() && i < |nodes| && p == nodes[i] && p.kind.WAVE?
      modifies p`entries, p`view, p.pulses
      ensures Valid() && old(Views())[i].Wave? && ok == (|old(Views())[i].waves| < TX_BUF)
      ensures Views() == if ok then old(Views())[i := old(Views())[i].(waves := old(Views())[i].waves + [w])]
                         else old(Views())
      ensures ok ==> p.entries == |old(Views())[i].waves| + 1
    {
      hide TxRec.Valid;
      hide At;
      p.Shown();
      ok := p.EnqueueWave(w);
      forall j | 0 <= j < |nodes| && j != i
        ensures nodes[j].Valid() && nodes[j].view == old(nodes[j].view)
      {
        assert old(nodes[j].Valid());
      }
      p.Shown();
    }

    /** xSetAsPwm on a record already transmitting. */
    method AmendPwm(p: TxRec, ghost i: nat, on: int, off: int, offset: int, cycles: int, minDelay: nat)
      returns (status: int)
      requires Valid() && i < |nodes| && p == nodes[i] && p.active && p.kind.PWM?
      requires i == Lookup(Views(), p.chip, p.gpio, PWM)
      modifies p`active, p`entries, p`view, p.pwm
      ensures Valid()
      ensures State() == TxModel.SetAsPwm(old(State()), p.chip, p.gpio, on, off, offset, cycles, minDelay).0
      ensures status == TxModel.SetAsPwm(old(State()), p.chip, p.gpio, on, off, offset, cycles, minDelay).1
    {
      hide TxRec.Valid;
      hide At;
      hide WithEntry;
      hide HasRoom;
      hide NewPwm;
      hide Lookup;
      p.Shown();
      status := 0;
      if on != 0 || off != 0 {
        if on + off > minDelay {
          var ok := EnqueueAt(p, i, Entry(on, off, if cycles != 0 then cycles else -1));
          status := if ok then TX_BUF - p.entries else TX_QUEUE_FULL;
        } else {
          status := BAD_PWM_MICROS;
        }
      } else {
        QuietAt(p, i);
      }
    }

    /** xSetAsPwm once the line is known to be an output. */
    method SetAsPwm(chip: int, gpio: int, on: int, off: int, offset: int, cycles: int, minDelay: nat,
                    ghost foot: set<object>)
      returns (status: int)
      requires Valid() && Within(foot) && this !in foot
      modifies this`head, this`nodes, this`made, foot
      ensures Valid()
      ensures State() == TxModel.SetAsPwm(old(State()), chip, gpio, on, off, offset, cycles, minDelay).0
      ensures status == TxModel.SetAsPwm(old(State()), chip, gpio, on, off, offset, cycles, minDelay).1
    {
      hide TxRec.Valid;
      hide At;
      hide Scheduler.Valid;
      hide WithEntry;
      hide HasRoom;
      hide NewPwm;
      hide Lookup;
      var p, i := GetTxRec(chip, gpio, PWM);
      if p != null && p.active {
        status := AmendPwm(p, i, on, off, offset, cycles, minDelay);
      } else if on + off > minDelay {
        CreatePwm(chip, gpio, on, off, offset, cycles);
        status := TX_BUF - 1;
      } else {
        status := BAD_PWM_MICROS;
      }
    }

    /** xWave once the line is known to be an output. */
    method SetAsWave(chip: int, gpio: int, pulses: seq<Pulse>, ghost foot: set<object>) returns (status: int)
      requires Valid() && Within(foot) && this !in foot
      modifies this`head, this`nodes, this`made, foot
      ensures Valid()
      ensures State() == TxModel.SetAsWave(old(State()), chip, gpio, pulses).0
      ensures status == TxModel.SetAsWave(old(State()), chip, gpio, pulses).1
    {
      hide TxRec.Valid;
      hide At;
      hide Scheduler.Valid;
      hide Lookup;
      var p, i := GetTxRec(chip, gpio, WAVE);
      if p != null && p.active {
        var ok := EnqueueWaveAt(p, i, pulses);
        status := if ok then TX_BUF - p.entries else TX_QUEUE_FULL;
      } else {
        CreateWave(chip, gpio, pulses);
        status := TX_BUF - 1;
      }
    }

    method SilenceFirst(chip: int, gpio: int, kind: Kind, ghost foot: set<object>)
      requires Valid() && Within(foot) && this !in foot
      modifies foot
      ensures Valid() && nodes == old(nodes) && Views() == Silence(old(Views()), chip, gpio, kind)
    {
      hide TxRec.Valid;
      hide At;
      hide Scheduler.Valid;
      hide Lookup;
      var p, i := GetTxRec(chip, gpio, kind);
      if p != null {
        QuietAt(p, i);
      }
    }

    /** The transmitter half of freeing a line. */
    method Release(chip: int, gpio: int, ghost foot: set<object>)
      requires Valid() && Within(foot) && this !in foot
      modifies foot
      ensures Valid() && State() == TxModel.Release(old(State()), chip, gpio)
    {
      hide TxRec.Valid;
      hide At;
      hide Silence;
      SilenceFirst(chip, gpio, PWM, foot);
      SilenceFirst(chip, gpio, WAVE, foot);
    }

    /** lgPthTxStop. */
    method StopChip(chip: int)
      requires Valid()
      modifies nodes`active, nodes`view
      ensures Valid() && State() == TxModel.StopChip(old(State()), chip)
    {
      hide TxRec.Valid;
      hide At;
      var p := head;
      ghost var k := 0;
      Here(nodes, 0);
      while p != null
        invariant 0 <= k <= |nodes| && Linked(nodes)
        invariant p == At(nodes, k)
        invariant forall j :: 0 <= j < |nodes| ==> nodes[j].Valid()
        invariant forall j :: 0 <= j < |nodes| ==>
            nodes[j].view == if j < k then StopOne(old(nodes[j].view), chip) else old(nodes[j].view)
        decreases |nodes| - k
      {
        Here(nodes, k);
        p.Shown();
        if p.chip == chip {
          p.Quiet();
        }
        p := p.next;
        k := k + 1;
      }
      Here(nodes, k);
    }

    /** lgTxRoom and lgTxBusy. */
    method RoomAndBusy(chip: int, gpio: int, kind: Kind) returns (room: int, busy: bool)
      requires Valid()
      ensures room == TxModel.Room(State(), chip, gpio, kind)
      ensures busy == Transmitting(Views(), chip, gpio, kind)
    {
      hide TxRec.Valid;
      hide At;
      hide Lookup;
      var p, i := GetTxRec(chip, gpio, kind);
      if p != null {
        p.Shown();
      }
      busy := p != null && p.active;
      room := if busy then TX_BUF - p.entries else TX_BUF;
    }
  }
}
