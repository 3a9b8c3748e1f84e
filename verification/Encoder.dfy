/**
 The quadrature decoder of hal/src/rotary_encoder.c: a table of four states driven by the edges of
 two lines. Its counter is the winding number of the shaft, clamped as it goes.
 */
module Encoder {
  /** An edge on one of the two lines, or on a line that is neither. */
  datatype Line = A | B | Other
  datatype Event = Event(line: Line, rising: bool)

  // --------------------------------------------------------------------------- the table

  datatype Action = Nothing | SetClkwise | SetCounterClkwise | OneToZero | ThreeToZero

  datatype Entry = Entry(next: nat, action: Action)

  datatype Row = Row(risingA: Entry, fallingA: Entry, risingB: Entry, fallingB: Entry)

  const STATES: seq<Row> := [
    Row(Entry(0, Nothing), Entry(1, SetClkwise), Entry(0, Nothing), Entry(3, SetCounterClkwise)),
    Row(Entry(0, OneToZero), Entry(1, Nothing), Entry(1, Nothing), Entry(2, Nothing)),
    Row(Entry(3, Nothing), Entry(2, Nothing), Entry(1, Nothing), Entry(2, Nothing)),
    Row(Entry(3, Nothing), Entry(2, Nothing), Entry(0, ThreeToZero), Entry(3, Nothing))]

  datatype Limits = Limits(min: int, max: int, step: int)

  function Up(l: Limits, counter: int): int { if counter + l.step > l.max then l.max else counter + l.step }

  function Down(l: Limits, counter: int): int { if counter - l.step < l.min then l.min else counter - l.step }

  datatype Machine = Machine(state: nat, clkwise: bool, counter: int)

  function Act(l: Limits, m: Machine, a: Action): Machine {
    match a
    case Nothing => m
    case SetClkwise => m.(clkwise := true)
    case SetCounterClkwise => m.(clkwise := false)
    case OneToZero => if !m.clkwise then m.(counter := Down(l, m.counter)) else m
    case ThreeToZero => if m.clkwise then m.(counter := Up(l, m.counter)) else m
  }

  function EntryOf(state: nat, e: Event): Entry
    requires state < 4 && e.line != Other
  {
    var r := STATES[state];
    if e.rising then (if e.line == A then r.risingA else r.risingB)
    else if e.line == A then r.fallingA else r.fallingB
  }

  function Step(l: Limits, m: Machine, e: Event): (r: Machine)
    requires m.state < 4
    ensures r.state < 4
  {
    if e.line == Other then m
    else
      var x := EntryOf(m.state, e);
      Act(l, m, x.action).(state := x.next)
  }

  function Run(l: Limits, m: Machine, es: seq<Event>): (r: Machine)
    requires m.state < 4
    ensures r.state < 4
  {
    if es == [] then m else Step(l, Run(l, m, es[..|es| - 1]), es[|es| - 1])
  }

  /** The decoder's variables, and the loop over a batch of events. */
  class Decoder {
    const limits: Limits
    var counter: int
    var clkwise: bool
    var state: nat

    predicate Valid()
      reads this
    {
      state < 4
    }

    function Now(): Machine
      reads this
    {
      Machine(state, clkwise, counter)
    }

    constructor (l: Limits, start: int)
      ensures Valid() && limits == l && Now() == Machine(0, false, start)
    {
      limits := l;
      counter, clkwise, state := start, false, 0;
    }

    method Handle1To0()
      modifies `counter
      ensures Now() == Act(limits, old(Now()), OneToZero)
    {
      if !clkwise {
        counter := counter - limits.step;
        counter := if counter < limits.min then limits.min else counter;
      }
    }

    method Handle3To0()
      modifies `counter
      ensures Now() == Act(limits, old(Now()), ThreeToZero)
    {
      if clkwise {
        counter := counter + limits.step;
        counter := if counter > limits.max then limits.max else counter;
      }
    }

    method Handle(es: seq<Event>)
      requires Valid()
      modifies this
      ensures Valid() && Now() == Run(limits, old(Now()), es)
    {
      for i := 0 to |es|
        invariant Valid() && Now() == Run(limits, old(Now()), es[..i])
      {
        assert es[..i + 1][..i] == es[..i];
        var e := es[i];
        if e.line == Other {
          continue;
        }
        var x := EntryOf(state, e);
        match x.action {
          case Nothing =>
          case SetClkwise => clkwise := true;
          case SetCounterClkwise => clkwise := false;
          case OneToZero => Handle1To0();
          case ThreeToZero => Handle3To0();
        }
        state := x.next;
      }
      assert es[..|es|] == es;
    }
  }

  // --------------------------------------------------------------------------- the shaft

  /** Turning right, A goes low first, then B; A comes back first, then B: four positions a turn. */
  function HighA(p: int): bool { p % 4 == 0 || p % 4 == 3 }

  function HighB(p: int): bool { p % 4 == 0 || p % 4 == 1 }

  /** The position, not wrapped around, at which the lines are what the edge makes them. */
  function Moved(p: int, e: Event): (q: int)
    ensures p - 1 <= q <= p + 1
    ensures e.line == A ==> HighA(q) == e.rising && HighB(q) == HighB(p)
    ensures e.line == B ==> HighB(q) == e.rising && HighA(q) == HighA(p)
    ensures e.line == Other ==> q == p
  {
    if e.line == Other then p
    else
      var a, b := if e.line == A then e.rising else HighA(p), if e.line == B then e.rising else HighB(p);
      if HighA(p) == a && HighB(p) == b then p
      else if HighA(p + 1) == a && HighB(p + 1) == b then p + 1 else p - 1
  }

  function Position(es: seq<Event>): int {
    if es == [] then 0 else Moved(Position(es[..|es| - 1]), es[|es| - 1])
  }

  /** The rest position, a multiple of four, last passed. */
  function Rest(es: seq<Event>): int {
    if es == [] then 0
    else if Position(es) % 4 == 0 then Position(es)
    else Rest(es[..|es| - 1])
  }

  /** The counter, were it to know where the shaft is: one clamped step for every new rest position. */
  function Wound(l: Limits, start: int, es: seq<Event>): int {
    if es == [] then start
    else
      var front := es[..|es| - 1];
      if Rest(es) > Rest(front) then Up(l, Wound(l, start, front))
      else if Rest(es) < Rest(front) then Down(l, Wound(l, start, front))
      else Wound(l, start, front)
  }

  /** How the four states and the direction say where the shaft is. */
  ghost predicate Knows(m: Machine, p: int, rest: int) {
    && m.state == p % 4 && rest % 4 == 0
    && (p == rest || (m.clkwise && rest < p < rest + 4) || (!m.clkwise && rest - 4 < p < rest))
  }

  lemma StepKnows(l: Limits, m: Machine, e: Event, p: int, rest: int)
    requires m.state < 4 && Knows(m, p, rest)
    ensures var q := Moved(p, e); var r := if q % 4 == 0 then q else rest; var n := Step(l, m, e);
            && Knows(n, q, r) && (r == rest || r == rest + 4 || r == rest - 4)
            && n.counter == if r > rest then Up(l, m.counter) else if r < rest then Down(l, m.counter) else m.counter
  {
    var k := rest / 4;
    assert rest == 4 * k;
  }

  /** The decoder counts turns: after any edges at all its state is the position of the shaft modulo
      four, and its counter has moved by one clamped step for each completed turn and for nothing
      else. Part turns, bounces and edges that repeat a level leave it alone. */
  lemma {:induction false} CountsTurns(l: Limits, start: int, es: seq<Event>)
    ensures var m := Run(l, Machine(0, false, start), es);
            m.state == Position(es) % 4 && m.counter == Wound(l, start, es) && Knows(m, Position(es), Rest(es))
  {
    if es != [] {
      var front := es[..|es| - 1];
      CountsTurns(l, start, front);
      StepKnows(l, Run(l, Machine(0, false, start), front), es[|es| - 1], Position(front), Rest(front));
    }
  }

  /** In every run a completed turn to the right takes the counter as far up as both the step and the
      upper limit allow, one to the left as far down as the step and the lower limit allow, and
      nothing else moves it. */
  lemma EveryTurnStops(l: Limits, start: int, es: seq<Event>, e: Event, y: int)
    ensures var was, now := Run(l, Machine(0, false, start), es).counter, Run(l, Machine(0, false, start), es + [e]).counter;
            var r, q := Rest(es), Rest(es + [e]);
            && (q == r ==> now == was)
            && (q > r ==> (y <= now <==> y <= l.max && y <= was + l.step))
            && (q < r ==> (y >= now <==> y >= l.min && y >= was - l.step))
  {
    assert (es + [e])[..|es|] == es;
    CountsTurns(l, start, es);
    CountsTurns(l, start, es + [e]);
    hide Run;
    hide Rest;
  }

  // ------------------------------------------------------------------------- the counter

  ghost predicate Within(l: Limits, c: int) { l.min <= c <= l.max }

  /** No completed turn was ever cut short at a limit. */
  ghost predicate NeverClamped(l: Limits, start: int, es: seq<Event>) {
    forall n :: 0 <= n <= |es| ==> Within(l, start + l.step * (Rest(es[..n]) / 4))
  }

  /** Inside the limits the counter is the winding number: the turns made, whatever the way there. */
  lemma {:induction false} CounterIsWinding(l: Limits, start: int, es: seq<Event>)
    requires NeverClamped(l, start, es)
    ensures Run(l, Machine(0, false, start), es).counter == start + l.step * (Rest(es) / 4)
  {
    CountsTurns(l, start, es);
    WoundIsWinding(l, start, es);
  }

  lemma {:induction false} WoundIsWinding(l: Limits, start: int, es: seq<Event>)
    requires NeverClamped(l, start, es)
    ensures Wound(l, start, es) == start + l.step * (Rest(es) / 4)
  {
    if es != [] {
      var front := es[..|es| - 1];
      forall n | 0 <= n <= |front|
        ensures Within(l, start + l.step * (Rest(front[..n]) / 4))
      {
        assert front[..n] == es[..n];
      }
      WoundIsWinding(l, start, front);
      assert es[..|es|] == es;
      assert Within(l, start + l.step * (Rest(es) / 4));
      assert Within(l, start + l.step * (Rest(front) / 4)) by {
        assert front[..|front|] == front;
      }
      hide Rest;
      hide NeverClamped;
      RestMoves(l, start, es);
      NextTurn(l.step, Rest(front) / 4, Rest(es) / 4);
    }
  }

  lemma NextTurn(step: int, k: int, j: int)
    ensures j == k + 1 ==> step * j == step * k + step
    ensures j == k - 1 ==> step * j == step * k - step
  {
    if j == k + 1 {
      assert step * (k + 1) == step * k + step;
    } else if j == k - 1 {
      assert step * (k - 1) == step * k - step;
    }
  }

  lemma RestMoves(l: Limits, start: int, es: seq<Event>)
    requires es != []
    ensures var r, q := Rest(es[..|es| - 1]), Rest(es);
            r % 4 == 0 && (q == r || q == r + 4 || q == r - 4)
            && (q == r + 4 ==> q / 4 == r / 4 + 1) && (q == r - 4 ==> q / 4 == r / 4 - 1)
  {
    var front := es[..|es| - 1];
    CountsTurns(l, start, front);
    StepKnows(l, Run(l, Machine(0, false, start), front), es[|es| - 1], Position(front), Rest(front));
  }

  lemma {:induction false} StaysWithin(l: Limits, start: int, es: seq<Event>)
    requires l.step >= 0 && Within(l, start)
    ensures Within(l, Wound(l, start, es))
  {
    if es != [] {
      StaysWithin(l, start, es[..|es| - 1]);
    }
  }

  /** One more turn to the right. */
  function TurnedRight(es: seq<Event>): seq<Event> {
    es + [Event(A, false)] + [Event(B, false)] + [Event(A, true)] + [Event(B, true)]
  }

  /** n turns to the right. */
  function Right(n: nat): seq<Event> {
    if n == 0 then [] else TurnedRight(Right(n - 1))
  }

  lemma RunLast(l: Limits, m: Machine, es: seq<Event>, e: Event)
    requires m.state < 4
    ensures Run(l, m, es + [e]) == Step(l, Run(l, m, es), e)
  {
    assert (es + [e])[..|es|] == es;
  }

  lemma {:induction false} RightTurns(l: Limits, start: int, n: nat)
    requires l.step < 0 && Within(l, start)
    ensures var m := Run(l, Machine(0, false, start), Right(n)); m.state == 0 && m.counter == Stepped(l, start, n)
  {
    hide Stepped;
    hide TurnedRight;
    hide Run;
    hide Up;
    hide Within;
    if n == 0 {
      NoTurns(l, start);
    } else {
      RightTurns(l, start, n - 1);
      OneRight(l, start, Right(n - 1));
      UpBelow(l, start, n);
    }
  }

  lemma NoTurns(l: Limits, start: int)
    ensures Run(l, Machine(0, false, start), []) == Machine(0, false, Stepped(l, start, 0))
  {
  }

  function Stepped(l: Limits, start: int, n: nat): int { start + l.step * n }

  /** The upper limit does not matter on the way down. */
  lemma UpBelow(l: Limits, start: int, n: nat)
    requires n > 0 && l.step < 0 && Within(l, start)
    ensures Up(l, Stepped(l, start, n - 1)) == Stepped(l, start, n)
  {
    NextTurn(l.step, n - 1, n);
    Downhill(l.step, n);
  }

  lemma Downhill(step: int, n: nat)
    requires step < 0
    ensures step * n <= 0 - n
  {
  }

  /** A turn to the right from rest, with a negative step. */
  lemma OneRight(l: Limits, start: int, es: seq<Event>)
    requires Run(l, Machine(0, false, start), es).state == 0
    ensures var m := Run(l, Machine(0, false, start), es);
            var n := Run(l, Machine(0, false, start), TurnedRight(es));
            n.state == 0 && n.counter == Up(l, m.counter)
  {
    hide Run;
    hide Up;
    var z := Machine(0, false, start);
    var e1 := es + [Event(A, false)];
    var e2 := e1 + [Event(B, false)];
    var e3 := e2 + [Event(A, true)];
    RunLast(l, z, es, Event(A, false));
    RunLast(l, z, e1, Event(B, false));
    RunLast(l, z, e2, Event(A, true));
    RunLast(l, z, e3, Event(B, true));
  }

  /** The counter stays within its limits on every run, wherever in them it starts, exactly when the
      step is not negative: each direction is clamped only at its own end. */
  lemma WithinExactly(l: Limits, start: int)
    requires Within(l, start)
    ensures l.step >= 0 <==> forall es: seq<Event> :: Within(l, Run(l, Machine(0, false, start), es).counter)
  {
    if l.step >= 0 {
      forall es: seq<Event>
        ensures Within(l, Run(l, Machine(0, false, start), es).counter)
      {
        CountsTurns(l, start, es);
        StaysWithin(l, start, es);
      }
    } else {
      var n := start - l.min + 1;
      RightTurns(l, start, n);
      Downhill(l.step, n);
      assert !Within(l, Run(l, Machine(0, false, start), Right(n)).counter);
    }
  }
}
