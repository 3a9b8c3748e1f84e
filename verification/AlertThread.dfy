/**
 lgpio/lgPthAlerts.c over its real shape: alert records and the shared array edited in place.
 Each method computes the function of Alerts.dfy or AlertQueue.dfy that the laws are about.
 */
module AlertThread {
  import opened Alerts
  import opened AlertQueue

  /** lgAlertRec_t. */
  class AlertRec {
    var lastRptTs: int
    var lastEvtTs: int
    var lastEvtLv: int
    var lastRptLv: int
    var debounced: bool
    var watchdogd: bool
    var debounceNanos: nat
    var watchdogNanos: nat
    const both: bool
    const chip: int
    const gpio: int
    const nfyHandle: int

    ghost function View(): Rec
      reads this
    {
      Rec(lastRptTs, lastEvtTs, lastEvtLv, lastRptLv, debounced, watchdogd)
    }

    ghost function Cfg(): Config
      reads this
    {
      Config(debounceNanos, watchdogNanos, both, chip, gpio, nfyHandle)
    }

    /** lgGpioCreateAlertRec; the times are left as allocation found them. */
    constructor (debounceUs: nat, watchdogUs: nat, both: bool, chip: int, gpio: int, nfyHandle: int,
                 rptTs: int, evtTs: int, evtLv: int)
      ensures View() == NewRec(rptTs, evtTs, evtLv)
      ensures Cfg() == Config(debounceUs * 1000, watchdogUs * 1000, both, chip, gpio, nfyHandle)
    {
      lastRptTs, lastEvtTs, lastEvtLv, lastRptLv := rptTs, evtTs, evtLv, -1;
      debounced, watchdogd := true, true;
      debounceNanos, watchdogNanos := debounceUs * 1000, watchdogUs * 1000;
      this.both, this.chip, this.gpio, this.nfyHandle := both, chip, gpio, nfyHandle;
    }
  }

  class Queue {
    const aBuf: array<Alert>
    var count: nat

    /** There is always a slot left to write the next report into before it is counted. */
    ghost predicate Valid()
      reads this
    {
      aBuf.Length == MAX_ALERTS && count < MAX_ALERTS
    }

    ghost function Contents(): seq<Alert>
      requires Valid()
      reads this, aBuf
    {
      aBuf[..count]
    }

    constructor (blank: Alert)
      ensures Valid() && Contents() == [] && fresh(aBuf)
    {
      aBuf := new Alert[MAX_ALERTS](_ => blank);
      count := 0;
    }

    /** Writes a report, and counts it if the count stays below the limit. */
    method Put(p: AlertRec, ts: int, level: int) returns (kept: bool)
      requires Valid()
      modifies this`count, aBuf
      ensures Valid() && kept == Fits(old(count))
      ensures Contents() == old(Contents()) + if kept then [Report(p.Cfg(), ts, level)] else []
    {
      aBuf[count] := Alert(ts, level, p.chip, p.gpio, 0, p.nfyHandle);
      kept := count + 1 < MAX_ALERTS;
      if kept {
        count := count + 1;
      }
    }

    method DoDebounce(p: AlertRec, ts: int)
      requires Valid()
      modifies this`count, aBuf, p
      ensures Valid() && p.Cfg() == old(p.Cfg())
      ensures var d := Debounce(old(p.Cfg()), old(p.View()), old(count), ts);
              p.View() == d.0 && Contents() == old(Contents()) + d.1
    {
      if p.debounceNanos != 0 && !p.debounced {
        if ts - p.lastEvtTs > p.debounceNanos {
          if !p.both || p.lastRptLv != p.lastEvtLv {
            var kept := Put(p, p.lastEvtTs + p.debounceNanos, p.lastEvtLv);
            if kept {
              p.lastRptTs := p.lastEvtTs + p.debounceNanos;
              p.lastRptLv := p.lastEvtLv;
              p.debounced := true;
              p.watchdogd := false;
            }
          }
        }
      }
    }

    method DoWatchdog(p: AlertRec, ts: int)
      requires Valid()
      modifies this`count, aBuf, p
      ensures Valid() && p.Cfg() == old(p.Cfg())
      ensures var w := Watchdog(old(p.Cfg()), old(p.View()), old(count), ts);
              p.View() == w.0 && Contents() == old(Contents()) + w.1
    {
      if p.watchdogNanos != 0 && !p.watchdogd {
        if ts - p.lastRptTs > p.watchdogNanos {
          var kept := Put(p, p.lastRptTs + p.watchdogNanos, TIMEOUT);
          if kept {
            p.watchdogd := true;
            p.lastRptTs := p.lastRptTs + p.watchdogNanos;
            p.lastRptLv := TIMEOUT;
          }
        }
      }
    }

    method DoEdge(p: AlertRec, ts: int, level: int)
      requires Valid()
      modifies this`count, aBuf, p
      ensures Valid() && p.Cfg() == old(p.Cfg())
      ensures var e := TakeEdge(old(p.Cfg()), old(p.View()), old(count), ts, level);
              p.View() == e.0 && Contents() == old(Contents()) + e.1
    {
      p.lastEvtTs := ts;
      p.lastEvtLv := level;
      p.debounced := false;
      if p.debounceNanos == 0 {
        var kept := Put(p, p.lastEvtTs, p.lastEvtLv);
        if kept {
          p.watchdogd := false;
          p.lastRptTs := p.lastEvtTs;
          p.lastRptLv := p.lastEvtLv;
        }
      }
    }

    /** xDebWatEvt. An event id is 1 for rising and 2 for falling. */
    method XDebWatEvt(p: AlertRec, ts: int, id: Option<int>)
      requires Valid()
      modifies this`count, aBuf, p
      ensures Valid() && p.Cfg() == old(p.Cfg())
      ensures var s := DebWatEvt(old(p.Cfg()), old(p.View()), old(count), ts,
                                 if id.Some? then Some(2 - id.value) else None);
              p.View() == s.0 && Contents() == old(Contents()) + s.1
    {
      DoDebounce(p, ts);
      DoWatchdog(p, ts);
      if id.Some? {
        DoEdge(p, ts, 2 - id.value);
      }
    }

    /** qsort with tscomp: `order` is what it makes, any arrangement of the contents. */
    method Sort(order: seq<Alert>)
      requires Valid() && PermutationOf(order, Contents()) && |order| == count
      modifies aBuf
      ensures Valid() && Contents() == order
    {
      forall i | 0 <= i < count {
        aBuf[i] := order[i];
      }
    }

    /** emit: how many leading reports go out. */
    method Emit(tmax: int) returns (sent: nat)
      requires Valid()
      ensures sent == DueCount(Contents(), tmax)
    {
      sent := 0;
      while sent < count && aBuf[sent].timestamp <= tmax
        invariant sent <= count
        invariant DueCount(Contents(), tmax) == sent + DueCount(Contents()[sent..], tmax)
      {
        assert Contents()[sent..][1..] == Contents()[sent + 1..];
        sent := sent + 1;
      }
    }

    /** The memmove after an emission. */
    method ShuffleDown(sent: nat)
      requires Valid() && sent <= count
      modifies this`count, aBuf
      ensures Valid() && Contents() == old(Contents())[sent..]
    {
      forall i | 0 <= i < count - sent {
        aBuf[i] := aBuf[sent + i];
      }
      count := count - sent;
    }

    /** The end of one round of lgPthAlert: sort, emit what was due half a millisecond ago, keep the rest. */
    method Flush(order: seq<Alert>, nowGT: int, ghost added: seq<Alert>)
      returns (out: seq<Alert>)
      requires Valid() && PermutationOf(order, Contents()) && |order| == count
      modifies this`count, aBuf
      ensures Valid()
      ensures Contents() == PlayRound(Round(added, order, U64(nowGT - 500000))).0
      ensures out == PlayRound(Round(added, order, U64(nowGT - 500000))).1
    {
      if count <= 1 {
        FewAreSorted(order, Contents());
      }
      hide PermutationOf;
      hide DueCount;
      hide U64;
      if count > 1 {
        Sort(order);
      }
      var sent := Emit(U64(nowGT - 500000));
      out := aBuf[..sent];
      ShuffleDown(sent);
    }

    /** With no active alerts left, or none at all, the buffer is emptied: no time is later than
        the largest 64-bit one. */
    method EmptyOut() returns (out: seq<Alert>)
      requires Valid() && forall i :: 0 <= i < count ==> aBuf[i].timestamp < TWO64
      modifies this`count
      ensures Valid() && out == old(Contents()) && Contents() == []
    {
      var sent := Emit(U64(-1));
      out := aBuf[..sent];
      count := 0;
    }
  }
}
