/**
 Lines that are not debounced, and the watchdog: what is reported when, by the rules in the comments
 of xDebWatEvt and for every history.
 */
module AlertPlain {
  import opened Alerts

  // ------------------------------------------------------------------- lines not debounced

  /** Some call since the last edge has found the line silent for longer than the watchdog allows. */
  ghost predicate RunOut(c: Config, calls: seq<Call>) {
    var e := LastEdge(calls);
    c.watchdog > 0 && e >= 0 && exists k :: e < k < |calls| && calls[k].ts - calls[e].ts > c.watchdog
  }

  /** What should be reported: every edge at once, and once in every silence, at the first call that
      finds it too long, the time at which the watchdog ran out. */
  ghost function Straight(c: Config, calls: seq<Call>): seq<Alert> {
    if calls == [] then []
    else
      var front, x := calls[..|calls| - 1], calls[|calls| - 1];
      Straight(c, front) + (Timeout(c, front, x) + EdgeOf(c, x))
  }

  ghost function Timeout(c: Config, calls: seq<Call>, x: Call): seq<Alert> {
    var e := LastEdge(calls);
    if c.watchdog > 0 && e >= 0 && !RunOut(c, calls) && x.ts - calls[e].ts > c.watchdog then
      [Alert(calls[e].ts + c.watchdog, 2, c.chip, c.gpio, 0, c.nfyHandle)]
    else []
  }

  function EdgeOf(c: Config, x: Call): seq<Alert> {
    if x.edge.Some? then [Alert(x.ts, x.edge.value, c.chip, c.gpio, 0, c.nfyHandle)] else []
  }

  /** What the record remembers: the last edge, and whether its silence has been reported. */
  ghost predicate Watching(c: Config, r: Rec, calls: seq<Call>) {
    var e := LastEdge(calls);
    && (r.watchdogd <==> e < 0 || RunOut(c, calls))
    && (!r.watchdogd ==> r.lastRptTs == calls[e].ts)
  }

  lemma RunOutMore(c: Config, calls: seq<Call>, x: Call)
    ensures LastEdge(calls + [x]) == if x.edge.Some? then |calls| else LastEdge(calls)
    ensures var e := LastEdge(calls);
            RunOut(c, calls + [x]) <==>
            x.edge.None? && c.watchdog > 0 && e >= 0 && (RunOut(c, calls) || x.ts - calls[e].ts > c.watchdog)
  {
    var more, e := calls + [x], LastEdge(calls);
    assert more[..|calls|] == calls && more[|calls|] == x;
    assert forall k :: 0 <= k < |calls| ==> more[k] == calls[k];
    assert LastEdge(more) == if x.edge.Some? then |calls| else e;
    hide LastEdge;
    if RunOut(c, calls) && x.edge.None? {
      var k :| e < k < |calls| && calls[k].ts - calls[e].ts > c.watchdog;
      assert more[k].ts - more[e].ts > c.watchdog;
    }
  }

  lemma NoDebounce(c: Config, r: Rec, ts: int, edge: Option<int>)
    requires c.debounce == 0
    ensures var w := Watchdog(c, r, 0, ts);
            DebWatEvt(c, r, 0, ts, edge) ==
            if edge.Some? then
              (w.0.(lastEvtTs := ts, lastEvtLv := edge.value, debounced := false, watchdogd := false,
                    lastRptTs := ts, lastRptLv := edge.value),
               w.1 + [Report(c, ts, edge.value)])
            else w
  {
    assert [] + Watchdog(c, r, 0, ts).1 == Watchdog(c, r, 0, ts).1;
  }

  lemma WatchingStep(c: Config, r: Rec, calls: seq<Call>, x: Call)
    requires c.debounce == 0 && Watching(c, r, calls)
    ensures var s := DebWatEvt(c, r, 0, x.ts, x.edge);
            Watching(c, s.0, calls + [x]) && Straight(c, calls + [x]) == Straight(c, calls) + s.1
  {
    var more := calls + [x];
    assert more[..|calls|] == calls && more[|calls|] == x;
    assert forall k :: 0 <= k < |calls| ==> more[k] == calls[k];
    NoDebounce(c, r, x.ts, x.edge);
    assert Watchdog(c, r, 0, x.ts).1 + [] == Watchdog(c, r, 0, x.ts).1;
    hide DebWatEvt;
    hide LastEdge;
    hide RunOut;
    RunOutMore(c, calls, x);
    TimeoutIs(c, r, calls, x);
    hide Timeout;
  }

  lemma TimeoutIs(c: Config, r: Rec, calls: seq<Call>, x: Call)
    requires Watching(c, r, calls)
    ensures Timeout(c, calls, x) == Watchdog(c, r, 0, x.ts).1
  {
    hide LastEdge;
    hide RunOut;
  }

  /** For every history of a line that is not debounced, in any order of times and with room in the
      buffer, the reports are exactly those. */
  lemma {:induction false} StraightRules(c: Config, calls: seq<Call>, rptTs: int, evtTs: int, evtLv: int)
    requires c.debounce == 0
    ensures Run(c, NewRec(rptTs, evtTs, evtLv), calls).1 == Straight(c, calls)
    ensures Watching(c, Run(c, NewRec(rptTs, evtTs, evtLv), calls).0, calls)
  {
    hide DebWatEvt;
    if calls != [] {
      var front, x := calls[..|calls| - 1], calls[|calls| - 1];
      assert front + [x] == calls;
      StraightRules(c, front, rptTs, evtTs, evtLv);
      WatchingStep(c, Run(c, NewRec(rptTs, evtTs, evtLv), front).0, front, x);
    }
  }

  /** The reports are of the calls `at`, which are those with edges, in order. */
  ghost predicate OneEach(c: Config, calls: seq<Call>, at: seq<nat>, reports: seq<Alert>) {
    && |at| == |reports|
    && (forall k :: 0 <= k < |at| ==> IsEdge(calls, at[k]) && IsReportOf(c, calls[at[k]], reports[k]))
    && (forall i, j :: 0 <= i < j < |at| ==> at[i] < at[j])
    && forall n :: 0 <= n < |calls| && calls[n].edge.Some? ==> n in at
  }

  /** The edge's own time and level, and the line's chip, number and handle. */
  predicate IsReportOf(c: Config, x: Call, a: Alert)
    requires x.edge.Some?
  {
    && a.timestamp == x.ts && a.level == x.edge.value
    && a.chip == c.chip && a.gpio == c.gpio && a.nfyHandle == c.nfyHandle && a.flags == 0
  }

  lemma OneMore(c: Config, calls: seq<Call>, at: seq<nat>, reports: seq<Alert>, x: Call)
    requires OneEach(c, calls, at, reports)
    ensures OneEach(c, calls + [x], if x.edge.Some? then at + [|calls|] else at, reports + EdgeOf(c, x))
  {
    var more, places := calls + [x], if x.edge.Some? then at + [|calls|] else at;
    var now := reports + EdgeOf(c, x);
    forall k | 0 <= k < |places|
      ensures IsEdge(more, places[k]) && IsReportOf(c, more[places[k]], now[k])
    {
      if k < |at| {
        assert IsEdge(calls, at[k]) && more[at[k]] == calls[at[k]];
      }
    }
    forall n | 0 <= n < |more| && more[n].edge.Some?
      ensures n in places
    {
      if n < |calls| {
        assert calls[n] == more[n] && n in at;
      } else {
        assert places[|at|] == n;
      }
    }
    hide IsReportOf;
  }

  /** Without a watchdog there is one report for every edge, in order. */
  lemma {:induction false} EveryEdgeReported(c: Config, calls: seq<Call>) returns (at: seq<nat>)
    requires c.watchdog == 0
    ensures OneEach(c, calls, at, Straight(c, calls))
  {
    hide OneEach;
    at := [];
    if calls == [] {
      NoneYet(c);
    } else {
      var front, x := calls[..|calls| - 1], calls[|calls| - 1];
      at := EveryEdgeReported(c, front);
      OneMore(c, front, at, Straight(c, front), x);
      assert front + [x] == calls && [] + EdgeOf(c, x) == EdgeOf(c, x);
      at := if x.edge.Some? then at + [|front|] else at;
    }
  }

  lemma NoneYet(c: Config)
    ensures OneEach(c, [], [], [])
  {
  }

  // -------------------------------------------------------------- the watchdog of any line

  /** When the last report was stamped, or the thread last read an event, whichever came later. */
  ghost function Mark(c: Config, r: Rec, acts: seq<Act>): int {
    if acts == [] then r.lastRptTs
    else
      var front, x := acts[..|acts| - 1], acts[|acts| - 1];
      if x.Touch? then x.ts
      else
        var before, now := Live(c, r, front).1, Live(c, r, acts).1;
        if |now| > |before| then now[|now| - 1].timestamp else Mark(c, r, front)
  }

  ghost predicate EdgeLevels(acts: seq<Act>) {
    forall i :: 0 <= i < |acts| && acts[i].Hear? && acts[i].edge.Some? ==> acts[i].edge.value in {0, 1}
  }

  /** The last report, if there is one, is of an edge. */
  predicate Armed(reports: seq<Alert>) { reports != [] && LastLevel(reports) != TIMEOUT }

  ghost predicate Guards(r: Rec, reports: seq<Alert>, mark: int) {
    && (r.watchdogd <==> !Armed(reports)) && r.lastRptTs == mark
    && (!r.debounced ==> r.lastEvtLv != TIMEOUT)
  }

  /** The three parts of a call and what each leaves of the record's memory of reports. */
  lemma DebounceGuards(c: Config, r: Rec, reports: seq<Alert>, mark: int, count: nat, ts: int)
    requires Guards(r, reports, mark)
    ensures var d := Debounce(c, r, count, ts);
            Guards(d.0, reports + d.1, Later(mark, d.1))
  {
    assert reports + [] == reports;
  }

  /** A report that the watchdog ran out: exactly if the last report is of an edge and was marked
      longer ago than the watchdog allows, and there is room; it is stamped with the time at which
      that was so. */
  function RanOut(c: Config, reports: seq<Alert>, mark: int, count: nat, ts: int): seq<Alert> {
    if c.watchdog > 0 && Armed(reports) && ts - mark > c.watchdog && count + 1 < MAX_ALERTS
    then [Alert(mark + c.watchdog, 2, c.chip, c.gpio, 0, c.nfyHandle)] else []
  }

  /** An edge of a line that is not debounced is reported at once, if there is room. */
  function AtOnce(c: Config, count: nat, ts: int, edge: Option<int>): seq<Alert> {
    if edge.Some? && c.debounce == 0 && count + 1 < MAX_ALERTS
    then [Alert(ts, edge.value, c.chip, c.gpio, 0, c.nfyHandle)] else []
  }

  function Later(mark: int, made: seq<Alert>): int { if made == [] then mark else made[|made| - 1].timestamp }

  lemma WatchdogGuards(c: Config, r: Rec, reports: seq<Alert>, mark: int, count: nat, ts: int)
    requires Guards(r, reports, mark)
    ensures var w := Watchdog(c, r, count, ts);
            w.1 == RanOut(c, reports, mark, count, ts) && Guards(w.0, reports + w.1, Later(mark, w.1))
  {
    assert reports + [] == reports;
  }

  lemma EdgeGuards(c: Config, r: Rec, reports: seq<Alert>, mark: int, count: nat, ts: int, level: int)
    requires Guards(r, reports, mark) && level in {0, 1}
    ensures var e := TakeEdge(c, r, count, ts, level);
            e.1 == AtOnce(c, count, ts, Some(level)) && Guards(e.0, reports + e.1, Later(mark, e.1))
  {
    assert reports + [] == reports;
  }

  /** A call makes at most three reports: the debounced edge that has become due, then that the
      watchdog ran out, the due report being counted as the last, then the edge of the call. */
  ghost predicate InThreeParts(c: Config, b: (Rec, seq<Alert>), mark: int, x: Act, made: seq<Alert>)
    requires x.Hear?
  {
    var d := Debounce(c, b.0, x.count, x.ts).1;
    var w := RanOut(c, b.1 + d, Later(mark, d), x.count + |d|, x.ts);
    made == d + w + AtOnce(c, x.count + |d + w|, x.ts, x.edge)
  }

  lemma LaterBoth(mark: int, a: seq<Alert>, b: seq<Alert>)
    ensures Later(Later(mark, a), b) == Later(mark, a + b)
  {
    if b == [] {
      assert a + b == a;
    }
  }

  lemma FirstTwo(c: Config, b: (Rec, seq<Alert>), mark: int, count: nat, ts: int)
    requires Guards(b.0, b.1, mark)
    ensures var d := Debounce(c, b.0, count, ts); var w := Watchdog(c, d.0, count + |d.1|, ts);
            && w.1 == RanOut(c, b.1 + d.1, Later(mark, d.1), count + |d.1|, ts)
            && Guards(w.0, b.1 + (d.1 + w.1), Later(mark, d.1 + w.1))
  {
    hide Guards;
    hide RanOut;
    hide Later;
    hide Debounce;
    hide Watchdog;
    var d := Debounce(c, b.0, count, ts);
    DebounceGuards(c, b.0, b.1, mark, count, ts);
    WatchdogGuards(c, d.0, b.1 + d.1, Later(mark, d.1), count + |d.1|, ts);
    var w := Watchdog(c, d.0, count + |d.1|, ts);
    LaterBoth(mark, d.1, w.1);
    assert b.1 + (d.1 + w.1) == b.1 + d.1 + w.1;
  }

  lemma HearGuards(c: Config, b: (Rec, seq<Alert>), mark: int, x: Act)
    requires Guards(b.0, b.1, mark) && x.Hear? && (x.edge.Some? ==> x.edge.value in {0, 1})
    ensures var s := DebWatEvt(c, b.0, x.count, x.ts, x.edge);
            InThreeParts(c, b, mark, x, s.1) && Guards(s.0, b.1 + s.1, Later(mark, s.1))
  {
    hide Guards;
    hide RanOut;
    hide Later;
    hide Debounce;
    hide Watchdog;
    hide TakeEdge;
    FirstTwo(c, b, mark, x.count, x.ts);
    var d := Debounce(c, b.0, x.count, x.ts);
    var w := Watchdog(c, d.0, x.count + |d.1|, x.ts);
    var so := d.1 + w.1;
    if x.edge.Some? {
      EdgeGuards(c, w.0, b.1 + so, Later(mark, so), x.count + |so|, x.ts, x.edge.value);
      var e := TakeEdge(c, w.0, x.count + |so|, x.ts, x.edge.value);
      LaterBoth(mark, so, e.1);
      assert b.1 + (so + e.1) == b.1 + so + e.1;
    } else {
      assert so + [] == so;
    }
  }

  /** In every history, debounced or not, full buffers and reads of the thread included. */
  lemma {:induction false} WatchdogRules(c: Config, acts: seq<Act>, rptTs: int, evtTs: int, evtLv: int)
    requires EdgeLevels(acts)
    ensures var r := NewRec(rptTs, evtTs, evtLv); var l := Live(c, r, acts); var n := |acts| - 1;
            && Guards(l.0, l.1, Mark(c, r, acts))
            && (acts != [] && acts[n].Hear? ==>
                  var b := Live(c, r, acts[..n]);
                  b.1 <= l.1 && InThreeParts(c, b, Mark(c, r, acts[..n]), acts[n], l.1[|b.1|..]))
  {
    if acts != [] {
      var front, x := acts[..|acts| - 1], acts[|acts| - 1];
      WatchdogRules(c, front, rptTs, evtTs, evtLv);
      hide DebWatEvt;
      hide InThreeParts;
      var r := NewRec(rptTs, evtTs, evtLv);
      if x.Hear? {
        var b := Live(c, r, front);
        HearGuards(c, b, Mark(c, r, front), x);
        assert Live(c, r, acts).1[|b.1|..] == DebWatEvt(c, b.0, x.count, x.ts, x.edge).1;
      }
    }
  }
}
