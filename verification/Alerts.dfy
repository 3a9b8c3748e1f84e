/**
 The debounce and watchdog machine of lgpio/lgPthAlerts.c (xDebWatEvt), as values, and what
 the rules in its comments mean for every history of edges and polls.
 */
module Alerts {
  const MAX_ALERTS: nat := 2000
  const TIMEOUT: int := 2

  datatype Option<T> = None | Some(value: T)

  datatype Alert = Alert(timestamp: int, level: int, chip: int, gpio: int, flags: int, nfyHandle: int)

  /** What never changes of an alert record while it is in use. */
  datatype Config = Config(debounce: nat, watchdog: nat, both: bool, chip: int, gpio: int, nfyHandle: int)

  datatype Rec = Rec(
    lastRptTs: int,
    lastEvtTs: int,
    lastEvtLv: int,
    lastRptLv: int,
    debounced: bool,
    watchdogd: bool)

  /** A record as lgGpioCreateAlertRec makes it; the two times are whatever malloc left. */
  function NewRec(rptTs: int, evtTs: int, evtLv: int): Rec { Rec(rptTs, evtTs, evtLv, -1, true, true) }

  function Report(c: Config, ts: int, level: int): Alert { Alert(ts, level, c.chip, c.gpio, 0, c.nfyHandle) }

  /** One more report fits only if the count stays below the limit afterwards. */
  predicate Fits(count: nat) { count + 1 < MAX_ALERTS }

  // ---------------------------------------------------------- the three parts of a call

  function Debounce(c: Config, r: Rec, count: nat, ts: int): (Rec, seq<Alert>) {
    if c.debounce > 0 && !r.debounced && ts - r.lastEvtTs > c.debounce
       && (!c.both || r.lastRptLv != r.lastEvtLv) && Fits(count) then
      var at := r.lastEvtTs + c.debounce;
      (r.(lastRptTs := at, lastRptLv := r.lastEvtLv, debounced := true, watchdogd := false),
       [Report(c, at, r.lastEvtLv)])
    else (r, [])
  }

  function Watchdog(c: Config, r: Rec, count: nat, ts: int): (Rec, seq<Alert>) {
    if c.watchdog > 0 && !r.watchdogd && ts - r.lastRptTs > c.watchdog && Fits(count) then
      var at := r.lastRptTs + c.watchdog;
      (r.(watchdogd := true, lastRptTs := at, lastRptLv := TIMEOUT), [Report(c, at, TIMEOUT)])
    else (r, [])
  }

  function TakeEdge(c: Config, r: Rec, count: nat, ts: int, level: int): (Rec, seq<Alert>) {
    var s := r.(lastEvtTs := ts, lastEvtLv := level, debounced := false);
    if c.debounce == 0 && Fits(count) then
      (s.(watchdogd := false, lastRptTs := ts, lastRptLv := level), [Report(c, ts, level)])
    else (s, [])
  }

  /** xDebWatEvt: `edge` is the new level, if the call brings an event. */
  function DebWatEvt(c: Config, r: Rec, count: nat, ts: int, edge: Option<int>): (Rec, seq<Alert>) {
    var d := Debounce(c, r, count, ts);
    var w := Watchdog(c, d.0, count + |d.1|, ts);
    var so := d.1 + w.1;
    if edge.Some? then
      var e := TakeEdge(c, w.0, count + |so|, ts, edge.value);
      (e.0, so + e.1)
    else (w.0, so)
  }

  /** The buffer never overflows: no call takes the count to the limit. */
  lemma CountStaysBelow(c: Config, r: Rec, count: nat, ts: int, edge: Option<int>)
    requires count < 2000
    ensures count + |DebWatEvt(c, r, count, ts, edge).1| < 2000
  {
    var d := Debounce(c, r, count, ts);
    var w := Watchdog(c, d.0, count + |d.1|, ts);
    assert count + |d.1| < MAX_ALERTS && count + |d.1 + w.1| < MAX_ALERTS;
  }

  // --------------------------------------------------------------- debounce, declared

  /** A call to the machine: an edge, or a poll that brings only the time. */
  datatype Call = Call(ts: int, edge: Option<int>)

  predicate IsEdge(calls: seq<Call>, i: nat) { i < |calls| && calls[i].edge.Some? }

  /** An edge after which no other edge follows within d, and which a later call finds so. */
  ghost predicate Stable(calls: seq<Call>, i: nat, d: nat) {
    IsEdge(calls, i) && NoEdgeWithin(calls, i, d) && Outlived(calls, i, d)
  }

  ghost predicate NoEdgeWithin(calls: seq<Call>, i: nat, d: nat)
    requires i < |calls|
  {
    forall k :: i < k < |calls| && calls[k].edge.Some? ==> calls[k].ts - calls[i].ts > d
  }

  ghost predicate Outlived(calls: seq<Call>, i: nat, d: nat)
    requires i < |calls|
  {
    exists k :: i < k < |calls| && calls[k].ts - calls[i].ts > d
  }

  /** The reports the comments ask for, of the edges among the first n calls: the stable edges,
      and with both edges monitored only those that differ from the one last reported. */
  ghost function Wanted(c: Config, calls: seq<Call>, n: nat): seq<Alert>
    requires n <= |calls|
  {
    if n == 0 then []
    else
      var sofar := Wanted(c, calls, n - 1);
      if Stable(calls, n - 1, c.debounce) && (c.both ==> LastLevel(sofar) != calls[n - 1].edge.value) then
        sofar + [Report(c, calls[n - 1].ts + c.debounce, calls[n - 1].edge.value)]
      else sofar
  }

  function LastLevel(reports: seq<Alert>): int {
    if reports == [] then -1 else reports[|reports| - 1].level
  }

  /** The machine over a history, with room in the buffer throughout. */
  function Run(c: Config, r: Rec, calls: seq<Call>): (Rec, seq<Alert>) {
    if calls == [] then (r, [])
    else
      var before := Run(c, r, calls[..|calls| - 1]);
      var last := calls[|calls| - 1];
      var s := DebWatEvt(c, before.0, 0, last.ts, last.edge);
      (s.0, before.1 + s.1)
  }

  /** The kernel delivers the edges of a line in the order of their times. Polls may be at any time:
      the poll after a read is 50 us before the newest edge read. */
  ghost predicate EdgesInOrder(calls: seq<Call>) {
    forall i, j :: 0 <= i <= j < |calls| && calls[i].edge.Some? && calls[j].edge.Some? ==> calls[i].ts <= calls[j].ts
  }

  /** The index of the last edge, or -1. */
  function LastEdge(calls: seq<Call>): (e: int)
    ensures -1 <= e < |calls|
    ensures e >= 0 ==> calls[e].edge.Some?
    ensures forall k :: e < k < |calls| ==> calls[k].edge.None?
  {
    if calls == [] then -1
    else if calls[|calls| - 1].edge.Some? then |calls| - 1
    else LastEdge(calls[..|calls| - 1])
  }

  lemma NoEdgeExtends(calls: seq<Call>, x: Call, i: nat, d: nat)
    requires i < |calls|
    ensures NoEdgeWithin(calls + [x], i, d) <==>
            NoEdgeWithin(calls, i, d) && (x.edge.Some? ==> x.ts - calls[i].ts > d)
  {
    var more := calls + [x];
    if NoEdgeWithin(more, i, d) {
      forall k | i < k < |calls| && calls[k].edge.Some?
        ensures calls[k].ts - calls[i].ts > d
      {
        assert more[k] == calls[k];
      }
      assert more[|calls|] == x;
    }
  }

  lemma OutlivedExtends(calls: seq<Call>, x: Call, i: nat, d: nat)
    requires i < |calls|
    ensures Outlived(calls + [x], i, d) <==> Outlived(calls, i, d) || x.ts - calls[i].ts > d
  {
    var more := calls + [x];
    assert more[|calls|] == x && more[i] == calls[i];
    if Outlived(calls, i, d) {
      var k :| i < k < |calls| && calls[k].ts - calls[i].ts > d;
      assert more[k] == calls[k];
    }
  }

  lemma OrderedFront(calls: seq<Call>, x: Call)
    requires EdgesInOrder(calls + [x])
    ensures EdgesInOrder(calls)
    ensures x.edge.Some? ==> forall k :: 0 <= k < |calls| && calls[k].edge.Some? ==> calls[k].ts <= x.ts
  {
    var more := calls + [x];
    assert more[|calls|] == x;
    forall i, j | 0 <= i <= j < |calls| && calls[i].edge.Some? && calls[j].edge.Some?
      ensures calls[i].ts <= calls[j].ts
    {
      assert more[i].ts <= more[j].ts;
    }
    forall k | 0 <= k < |calls| && calls[k].edge.Some? && x.edge.Some?
      ensures calls[k].ts <= x.ts
    {
      assert more[k].ts <= more[|calls|].ts;
    }
  }

  /** An edge that comes within the debounce period of the one before, but only after a poll beyond
      that period. */
  ghost predicate Late(calls: seq<Call>, x: Call, d: nat) {
    var e := LastEdge(calls);
    x.edge.Some? && e >= 0 && Outlived(calls, e, d) && x.ts - calls[e].ts <= d
  }

  /** One more call settles only the last edge. */
  lemma StableExtends(calls: seq<Call>, x: Call, i: nat, d: nat)
    requires EdgesInOrder(calls + [x]) && i < |calls|
    ensures i != LastEdge(calls) ==> Stable(calls + [x], i, d) == Stable(calls, i, d)
    ensures i == LastEdge(calls) ==>
              Stable(calls + [x], i, d) == (!Late(calls, x, d) && (Stable(calls, i, d) || x.ts - calls[i].ts > d))
  {
    NoEdgeExtends(calls, x, i, d);
    OutlivedExtends(calls, x, i, d);
    OrderedFront(calls, x);
    var e := LastEdge(calls);
    assert IsEdge(calls + [x], i) == IsEdge(calls, i);
    if i < e && NoEdgeWithin(calls, i, d) {
      assert calls[e].ts - calls[i].ts > d;
    }
  }

  lemma NewNotStable(calls: seq<Call>, x: Call, d: nat)
    ensures !Stable(calls + [x], |calls|, d)
  {
  }

  lemma {:induction false} WantedBefore(c: Config, calls: seq<Call>, x: Call, n: nat)
    requires EdgesInOrder(calls + [x]) && n <= |calls| && n <= LastEdge(calls)
    ensures Wanted(c, calls + [x], n) == Wanted(c, calls, n)
  {
    if n > 0 {
      WantedBefore(c, calls, x, n - 1);
      StableExtends(calls, x, n - 1, c.debounce);
    }
  }

  /** After the last edge nothing more is wanted. */
  lemma {:induction false} WantedAfter(c: Config, calls: seq<Call>, m: nat, n: nat)
    requires m <= n <= |calls| && forall k :: m <= k < n ==> !Stable(calls, k, c.debounce)
    ensures Wanted(c, calls, n) == Wanted(c, calls, m)
  {
    if n > m {
      WantedAfter(c, calls, m, n - 1);
    }
  }

  lemma NoneStableAfter(calls: seq<Call>, x: Call, d: nat)
    ensures forall k :: LastEdge(calls) < k < |calls| ==> !Stable(calls, k, d) && !Stable(calls + [x], k, d)
    ensures !Stable(calls + [x], |calls|, d)
  {
    NewNotStable(calls, x, d);
    forall k | LastEdge(calls) < k < |calls|
      ensures !Stable(calls, k, d) && !Stable(calls + [x], k, d)
    {
      assert (calls + [x])[k] == calls[k];
    }
  }

  /** What one more call adds to what is wanted. */
  ghost function Due(c: Config, calls: seq<Call>, ts: int): seq<Alert> {
    var e := LastEdge(calls);
    if e >= 0 && !Stable(calls, e, c.debounce) && ts - calls[e].ts > c.debounce
       && (c.both ==> LastLevel(Wanted(c, calls, |calls|)) != calls[e].edge.value)
    then [Report(c, calls[e].ts + c.debounce, calls[e].edge.value)] else []
  }

  lemma UpToLastEdge(c: Config, calls: seq<Call>)
    ensures var e := LastEdge(calls);
            Wanted(c, calls, |calls|) == Wanted(c, calls, e + 1)
  {
    NoneStableAfter(calls, Call(0, None), c.debounce);
    WantedAfter(c, calls, LastEdge(calls) + 1, |calls|);
  }

  lemma UpToLastEdgeMore(c: Config, calls: seq<Call>, x: Call)
    ensures var e := LastEdge(calls);
            Wanted(c, calls + [x], |calls| + 1) == Wanted(c, calls + [x], e + 1)
  {
    NoneStableAfter(calls, x, c.debounce);
    WantedAfter(c, calls + [x], LastEdge(calls) + 1, |calls| + 1);
  }

  /** A late edge, where the one before it was reported: with both edges monitored, it may not be. */
  ghost predicate Spoils(c: Config, calls: seq<Call>, x: Call) {
    var e := LastEdge(calls);
    Late(calls, x, c.debounce) && (c.both ==> LastLevel(Wanted(c, calls, e)) != calls[e].edge.value)
  }

  ghost predicate NoneSpoils(c: Config, calls: seq<Call>) {
    calls == [] ||
    var front := calls[..|calls| - 1];
    NoneSpoils(c, front) && !Spoils(c, front, calls[|calls| - 1])
  }

  /** What was wanted when an edge spoils it ends with the report of the edge before. */
  lemma {:induction false} SpoiledReport(c: Config, calls: seq<Call>, x: Call)
    requires Spoils(c, calls, x)
    ensures var e := LastEdge(calls);
            Wanted(c, calls, |calls|) ==
            Wanted(c, calls, e) + [Report(c, calls[e].ts + c.debounce, calls[e].edge.value)]
  {
    assert Stable(calls, LastEdge(calls), c.debounce);
    hide Stable;
    hide LastEdge;
    hide Late;
    UpToLastEdge(c, calls);
  }

  /** What is wanted grows by what is due, but for an edge that comes too late to count. */
  lemma WantedStep(c: Config, calls: seq<Call>, x: Call)
    requires EdgesInOrder(calls + [x]) && !Spoils(c, calls, x)
    ensures Wanted(c, calls + [x], |calls| + 1) == Wanted(c, calls, |calls|) + Due(c, calls, x.ts)
  {
    var e := LastEdge(calls);
    assert Late(calls, x, c.debounce) ==> e >= 0 && Stable(calls, e, c.debounce);
    hide Stable;
    hide LastEdge;
    hide EdgesInOrder;
    hide Late;
    UpToLastEdge(c, calls);
    UpToLastEdgeMore(c, calls, x);
    if e >= 0 {
      assert (calls + [x])[e] == calls[e];
      WantedBefore(c, calls, x, e);
      StableExtends(calls, x, e, c.debounce);
    }
  }

  /** How the record remembers a history: its last edge, the last report, and whether that edge
      is settled. */
  ghost predicate Remembers(c: Config, r: Rec, calls: seq<Call>) {
    var e := LastEdge(calls);
    var reports := Wanted(c, calls, |calls|);
    && r.lastRptLv == LastLevel(reports)
    && (e < 0 ==> r.debounced)
    && (e >= 0 ==>
        && r.lastEvtTs == calls[e].ts && r.lastEvtLv == calls[e].edge.value
        && (r.debounced ==> Stable(calls, e, c.debounce))
        && (!r.debounced && Stable(calls, e, c.debounce) ==> c.both && r.lastRptLv == r.lastEvtLv))
  }

  /** With the watchdog off a call is only its debounce part and taking the edge. */
  lemma NoWatchdog(c: Config, r: Rec, ts: int, edge: Option<int>)
    requires c.debounce > 0 && c.watchdog == 0
    ensures var d := Debounce(c, r, 0, ts);
            DebWatEvt(c, r, 0, ts, edge)
            == (if edge.Some? then d.0.(lastEvtTs := ts, lastEvtLv := edge.value, debounced := false) else d.0, d.1)
  {
    var d := Debounce(c, r, 0, ts);
    assert d.1 + [] == d.1;
  }

  lemma DebounceIsDue(c: Config, r: Rec, calls: seq<Call>, ts: int)
    requires c.debounce > 0 && Remembers(c, r, calls)
    ensures Debounce(c, r, 0, ts).1 == Due(c, calls, ts)
    ensures var d := Debounce(c, r, 0, ts).0;
            && d.lastEvtTs == r.lastEvtTs && d.lastEvtLv == r.lastEvtLv
            && d.lastRptLv == LastLevel(Wanted(c, calls, |calls|) + Due(c, calls, ts))
            && d.debounced == (r.debounced || Due(c, calls, ts) != [])
  {
    hide Stable;
    hide Wanted;
    hide LastEdge;
  }

  lemma RemembersStep(c: Config, r: Rec, calls: seq<Call>, x: Call)
    requires c.debounce > 0 && c.watchdog == 0 && EdgesInOrder(calls + [x]) && Remembers(c, r, calls)
    requires !Spoils(c, calls, x)
    ensures var s := DebWatEvt(c, r, 0, x.ts, x.edge);
            && Remembers(c, s.0, calls + [x])
            && Wanted(c, calls + [x], |calls| + 1) == Wanted(c, calls, |calls|) + s.1
  {
    var more := calls + [x];
    assert more[..|calls|] == calls && more[|calls|] == x;
    var e := LastEdge(calls);
    assert LastEdge(more) == if x.edge.Some? then |calls| else e;
    hide Stable;
    hide LastEdge;
    hide Wanted;
    hide EdgesInOrder;
    hide Late;
    hide Spoils;
    hide DebWatEvt;
    hide Debounce;
    NoWatchdog(c, r, x.ts, x.edge);
    DebounceIsDue(c, r, calls, x.ts);
    WantedStep(c, calls, x);
    NewNotStable(calls, x, c.debounce);
    if e >= 0 {
      StableExtends(calls, x, e, c.debounce);
      assert more[e] == calls[e];
    }
  }

  /** The debounce rules: for every history of edges and polls in which no edge comes too late, with
      debouncing on and the watchdog off, the reports are exactly the wanted ones, each stamped with
      its edge's time plus the debounce period. */
  lemma {:induction false} DebounceRules(c: Config, calls: seq<Call>, rptTs: int, evtTs: int, evtLv: int)
    requires c.debounce > 0 && c.watchdog == 0 && EdgesInOrder(calls) && NoneSpoils(c, calls)
    ensures Run(c, NewRec(rptTs, evtTs, evtLv), calls).1 == Wanted(c, calls, |calls|)
    ensures Remembers(c, Run(c, NewRec(rptTs, evtTs, evtLv), calls).0, calls)
  {
    hide DebWatEvt;
    hide Stable;
    hide Spoils;
    if calls != [] {
      var front, x := calls[..|calls| - 1], calls[|calls| - 1];
      assert front + [x] == calls;
      OrderedFront(front, x);
      DebounceRules(c, front, rptTs, evtTs, evtLv);
      RemembersStep(c, Run(c, NewRec(rptTs, evtTs, evtLv), front).0, front, x);
    }
  }

  /** An edge no earlier than any call before it is not late, however far the polls lag behind. */
  lemma {:induction false} PunctualEdges(c: Config, calls: seq<Call>)
    requires forall i, j :: 0 <= i <= j < |calls| && calls[j].edge.Some? ==> calls[i].ts <= calls[j].ts
    ensures EdgesInOrder(calls) && NoneSpoils(c, calls)
  {
    if calls != [] {
      var front, x := calls[..|calls| - 1], calls[|calls| - 1];
      PunctualEdges(c, front);
      var e := LastEdge(front);
      if x.edge.Some? && e >= 0 && Outlived(front, e, c.debounce) {
        var k :| e < k < |front| && front[k].ts - front[e].ts > c.debounce;
        assert calls[k].ts <= calls[|calls| - 1].ts;
      }
    }
  }

  /** The thread polls a line 50 us before the newest edge it took from it; that is in order. */
  lemma LaggingPoll(c: Config, t: int, level: int)
    ensures var calls := [Call(t, Some(level)), Call(t - 50000, None)]; EdgesInOrder(calls) && NoneSpoils(c, calls)
  {
    PunctualEdges(c, [Call(t, Some(level)), Call(t - 50000, None)]);
  }

  // ------------------------------------------------------------------- edges too late

  ghost predicate EdgesApart(calls: seq<Call>) {
    forall i, j :: 0 <= i < j < |calls| && calls[i].edge.Some? && calls[j].edge.Some? ==> calls[i].ts < calls[j].ts
  }

  lemma FirstSpoiled(c: Config, calls: seq<Call>) returns (k: nat)
    requires !NoneSpoils(c, calls)
    ensures k < |calls| && NoneSpoils(c, calls[..k]) && Spoils(c, calls[..k], calls[k])
  {
    var n := |calls| - 1;
    if NoneSpoils(c, calls[..n]) {
      k := n;
    } else {
      k := FirstSpoiled(c, calls[..n]);
      assert calls[..n][..k] == calls[..k];
    }
  }

  /** Reports are never taken back. */
  lemma {:induction false} RunFront(c: Config, r: Rec, calls: seq<Call>, k: nat)
    requires k <= |calls|
    ensures Run(c, r, calls[..k]).1 <= Run(c, r, calls).1
  {
    hide DebWatEvt;
    if k < |calls| {
      RunFront(c, r, calls[..|calls| - 1], k);
      assert calls[..|calls| - 1][..k] == calls[..k];
    } else {
      assert calls[..k] == calls;
    }
  }

  /** What is wanted of the edges before the last one is settled for good. */
  lemma {:induction false} WantedFront(c: Config, calls: seq<Call>, k: nat)
    requires k <= |calls| && EdgesInOrder(calls) && LastEdge(calls[..k]) >= 0
    ensures LastEdge(calls) >= LastEdge(calls[..k])
    ensures Wanted(c, calls, LastEdge(calls[..k])) == Wanted(c, calls[..k], LastEdge(calls[..k]))
  {
    if k < |calls| {
      var front, x := calls[..|calls| - 1], calls[|calls| - 1];
      assert front + [x] == calls && front[..k] == calls[..k];
      OrderedFront(front, x);
      WantedFront(c, front, k);
      WantedBefore(c, front, x, LastEdge(calls[..k]));
    } else {
      assert calls[..k] == calls;
    }
  }

  /** The report of an edge at position m to n - 1. */
  ghost predicate StampedIn(c: Config, calls: seq<Call>, m: nat, n: nat, a: Alert)
    requires n <= |calls|
  {
    exists k :: m <= k < n && calls[k].edge.Some? && a.timestamp == calls[k].ts + c.debounce
  }

  lemma {:induction false} WantedTail(c: Config, calls: seq<Call>, m: nat, n: nat)
    requires m <= n <= |calls|
    ensures Wanted(c, calls, m) <= Wanted(c, calls, n)
    ensures forall i :: |Wanted(c, calls, m)| <= i < |Wanted(c, calls, n)| ==>
              StampedIn(c, calls, m, n, Wanted(c, calls, n)[i])
  {
    if m < n {
      WantedTail(c, calls, m, n - 1);
      var before, now := Wanted(c, calls, n - 1), Wanted(c, calls, n);
      forall i | |Wanted(c, calls, m)| <= i < |now|
        ensures StampedIn(c, calls, m, n, now[i])
      {
        if i < |before| {
          assert now[i] == before[i] && StampedIn(c, calls, m, n - 1, before[i]);
        } else {
          assert IsEdge(calls, n - 1) && now[i].timestamp == calls[n - 1].ts + c.debounce;
        }
      }
    }
  }

  /** No later report can stand where the spoiled one stands. */
  lemma WantedWithout(c: Config, calls: seq<Call>, k: nat)
    requires EdgesInOrder(calls) && EdgesApart(calls) && k < |calls| && Spoils(c, calls[..k], calls[k])
    ensures var e := LastEdge(calls[..k]); var early := Wanted(c, calls[..k], e); var all := Wanted(c, calls, |calls|);
            |all| > |early| ==> all[|early|].timestamp != calls[e].ts + c.debounce
  {
    var e := LastEdge(calls[..k]);
    WantedFront(c, calls, k);
    assert !Stable(calls, e, c.debounce);
    WantedTail(c, calls, e + 1, |calls|);
    assert Wanted(c, calls, e + 1) == Wanted(c, calls[..k], e);
    hide Wanted;
    hide Stable;
    hide LastEdge;
  }

  lemma Spoiled(c: Config, calls: seq<Call>, k: nat, rptTs: int, evtTs: int, evtLv: int)
    requires c.debounce > 0 && c.watchdog == 0 && EdgesInOrder(calls) && EdgesApart(calls) && k < |calls|
    requires NoneSpoils(c, calls[..k]) && Spoils(c, calls[..k], calls[k])
    ensures Run(c, NewRec(rptTs, evtTs, evtLv), calls).1 != Wanted(c, calls, |calls|)
  {
    var front, x := calls[..k], calls[k];
    assert calls[..k + 1] == front + [x];
    assert EdgesInOrder(front);
    hide Run;
    hide Wanted;
    hide Late;
    hide EdgesInOrder;
    SpoiledReport(c, front, x);
    DebounceRules(c, front, rptTs, evtTs, evtLv);
    RunFront(c, NewRec(rptTs, evtTs, evtLv), calls, k);
    WantedWithout(c, calls, k);
  }

  /** The rules are met if and only if no edge comes too late: within the debounce period of an edge
      that a poll beyond that period has already had reported. */
  lemma DebounceRulesExactly(c: Config, calls: seq<Call>, rptTs: int, evtTs: int, evtLv: int)
    requires c.debounce > 0 && c.watchdog == 0 && EdgesApart(calls)
    ensures Run(c, NewRec(rptTs, evtTs, evtLv), calls).1 == Wanted(c, calls, |calls|) <==> NoneSpoils(c, calls)
  {
    assert EdgesInOrder(calls);
    if NoneSpoils(c, calls) {
      DebounceRules(c, calls, rptTs, evtTs, evtLv);
    } else {
      var k := FirstSpoiled(c, calls);
      Spoiled(c, calls, k, rptTs, evtTs, evtLv);
    }
  }

  /** Such a history: the second edge is delivered after the poll that had the first reported. */
  lemma LateEdgeSpoils()
    ensures var c := Config(1000, 0, false, 0, 0, 0);
            var calls := [Call(0, Some(1)), Call(1001, None), Call(500, Some(1))];
            && EdgesApart(calls) && !NoneSpoils(c, calls)
            && Run(c, NewRec(0, 0, 0), calls).1 != Wanted(c, calls, 3)
  {
    var c := Config(1000, 0, false, 0, 0, 0);
    var calls := [Call(0, Some(1)), Call(1001, None), Call(500, Some(1))];
    var front := calls[..2];
    assert front[1].ts - front[0].ts > 1000;
    assert Outlived(front, 0, 1000) && LastEdge(front) == 0;
    DebounceRulesExactly(c, calls, 0, 0, 0);
  }

  /** The history above leaves the shared buffer's count out: with debouncing on and the watchdog
      off, a call with room for a report does what it does with an empty buffer. */
  lemma OnlyRoomMatters(c: Config, r: Rec, count: nat, ts: int, edge: Option<int>)
    requires c.debounce > 0 && c.watchdog == 0 && Fits(count)
    ensures DebWatEvt(c, r, count, ts, edge) == DebWatEvt(c, r, 0, ts, edge)
  {
    assert Debounce(c, r, count, ts) == Debounce(c, r, 0, ts);
  }

  /** The comment's "at least debounce nanoseconds" is "more than": an edge exactly that long after
      another undoes it, one nanosecond later it does not. */
  lemma ExactlyDebounceIsTooSoon()
    ensures var c := Config(1000, 0, false, 0, 0, 0); var r := NewRec(0, 0, 0);
            && Run(c, r, [Call(0, Some(1)), Call(1000, Some(1))]).1 == []
            && Run(c, r, [Call(0, Some(1)), Call(1001, Some(1))]).1 == [Report(c, 1000, 1)]
  {
    var c, r := Config(1000, 0, false, 0, 0, 0), NewRec(0, 0, 0);
    var one := [Call(0, Some(1))];
    assert one[..0] == [] && Run(c, r, []) == (r, []);
    assert Run(c, r, one) == (r.(lastEvtTs := 0, lastEvtLv := 1, debounced := false), []);
    assert [Call(0, Some(1)), Call(1000, Some(1))][..1] == one;
    assert [Call(0, Some(1)), Call(1001, Some(1))][..1] == one;
  }

  // ------------------------------------------------------------- no level reported twice

  /** A call with the count the shared buffer then has, or the thread moving last_rpt_ts to the
      time of the last event it read. */
  datatype Act = Hear(ts: int, edge: Option<int>, count: nat) | Touch(ts: int)

  function Live(c: Config, r: Rec, acts: seq<Act>): (Rec, seq<Alert>) {
    if acts == [] then (r, [])
    else
      var b := Live(c, r, acts[..|acts| - 1]);
      match acts[|acts| - 1]
      case Hear(ts, edge, count) =>
        var s := DebWatEvt(c, b.0, count, ts, edge);
        (s.0, b.1 + s.1)
      case Touch(ts) => (b.0.(lastRptTs := ts), b.1)
  }

  ghost predicate NoRepeat(reports: seq<Alert>) {
    forall i :: 0 < i < |reports| ==> reports[i - 1].level != reports[i].level
  }

  ghost predicate Alternating(r: Rec, reports: seq<Alert>) {
    && NoRepeat(reports)
    && r.lastRptLv == LastLevel(reports)
    && (r.lastRptLv == TIMEOUT ==> r.watchdogd)
  }

  lemma AlternatingStep(c: Config, r: Rec, reports: seq<Alert>, count: nat, ts: int, edge: Option<int>)
    requires c.debounce > 0 && c.both && Alternating(r, reports)
    requires !r.debounced ==> r.lastEvtLv != TIMEOUT
    ensures var s := DebWatEvt(c, r, count, ts, edge); Alternating(s.0, reports + s.1)
  {
    var d := Debounce(c, r, count, ts);
    assert Alternating(d.0, reports + d.1);
    var w := Watchdog(c, d.0, count + |d.1|, ts);
    assert Alternating(w.0, (reports + d.1) + w.1);
    assert (reports + d.1) + w.1 == reports + (d.1 + w.1);
    if edge.Some? {
      var e := TakeEdge(c, w.0, count + |d.1 + w.1|, ts, edge.value);
      assert (d.1 + w.1) + e.1 == d.1 + w.1;
    }
  }

  /** With both edges monitored and debounced, no two consecutive reports of a line carry the same
      level, in any history, watchdog or not, even when a full buffer drops reports. In
      particular an edge report stands between any two watchdog reports. */
  lemma {:induction false} NoRepeatedLevel(c: Config, acts: seq<Act>, rptTs: int, evtTs: int, evtLv: int)
    requires c.debounce > 0 && c.both
    requires forall i :: 0 <= i < |acts| && acts[i].Hear? && acts[i].edge.Some? ==> acts[i].edge.value in {0, 1}
    ensures var l := Live(c, NewRec(rptTs, evtTs, evtLv), acts);
            Alternating(l.0, l.1) && (!l.0.debounced ==> l.0.lastEvtLv != TIMEOUT)
  {
    if acts != [] {
      var front, x := acts[..|acts| - 1], acts[|acts| - 1];
      NoRepeatedLevel(c, front, rptTs, evtTs, evtLv);
      var b := Live(c, NewRec(rptTs, evtTs, evtLv), front);
      if x.Hear? {
        AlternatingStep(c, b.0, b.1, x.count, x.ts, x.edge);
      }
    }
  }
}
