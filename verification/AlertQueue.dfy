/**
 The shared alert buffer of lgpio/lgPthAlerts.c: filled by the debounce machine, sorted by time,
 emitted up to a time limit, and fanned out to notification handles in chunks.
 */
module AlertQueue {
  import opened Alerts

  const TWO32: int := 0x1_0000_0000
  const TWO64: int := 0x1_0000_0000_0000_0000

  // ------------------------------------------------------------------ the comparison

  /** Conversion to a 32-bit int. */
  function Wrap32(n: int): (w: int)
    ensures -0x8000_0000 <= w < 0x8000_0000
  {
    var m := n % TWO32;
    if m >= 0x8000_0000 then m - TWO32 else m
  }

  /** tscomp: a difference of 64-bit times, cut to an int. */
  function TsComp(a: Alert, b: Alert): int { Wrap32(a.timestamp - b.timestamp) }

  /** The comparison agrees with the order of the times if and only if they are equal or their
      difference, modulo 2^32, is in the half of the range that its sign asks for; in particular
      where it is less than 2^31 ns, about 2.1 seconds. */
  lemma TsCompExact(a: Alert, b: Alert)
    ensures var d := a.timestamp - b.timestamp;
            && ((TsComp(a, b) < 0 <==> d < 0) && (TsComp(a, b) == 0 <==> d == 0) <==>
                  d == 0 || (d > 0 && 0 < d % TWO32 < 0x8000_0000) || (d < 0 && d % TWO32 >= 0x8000_0000))
            && (-0x8000_0000 <= d < 0x8000_0000 ==> TsComp(a, b) == d)
  {
  }

  lemma TsCompCanReverse(a: Alert)
    ensures var b := a.(timestamp := a.timestamp + 0x8000_0000);
            b.timestamp > a.timestamp && TsComp(b, a) < 0 && TsComp(a, b) < 0
  {
  }

  /** Further apart it is no order at all: of three times, each 1.6 seconds after the one before,
      the last precedes the first, and no arrangement of them is sorted. */
  lemma TsCompCycles(a: Alert, s: seq<Alert>)
    requires var b := a.(timestamp := a.timestamp + 0x6000_0000);
             var c := a.(timestamp := a.timestamp + 0xC000_0000);
             multiset(s) == multiset{a, b, c}
    ensures !InTscompOrder(s)
  {
    var b := a.(timestamp := a.timestamp + 0x6000_0000);
    var c := a.(timestamp := a.timestamp + 0xC000_0000);
    assert |s| == |multiset(s)| == 3;
    assert s == [s[0], s[1], s[2]];
    assert multiset(s) == multiset{s[0], s[1], s[2]};
    assert a in multiset(s) && b in multiset(s) && c in multiset(s);
    assert TsComp(b, a) > 0 && TsComp(c, b) > 0 && TsComp(a, c) > 0;
    assert TsComp(s[0], s[1]) > 0 || TsComp(s[1], s[2]) > 0 || TsComp(s[0], s[2]) > 0;
  }

  /** The times in the buffer span less than 2^31 ns. */
  ghost predicate Narrow(s: seq<Alert>) {
    forall i, j :: 0 <= i < |s| && 0 <= j < |s| ==> s[i].timestamp - s[j].timestamp < 0x8000_0000
  }

  ghost predicate InTscompOrder(s: seq<Alert>) {
    forall i, j :: 0 <= i < j < |s| ==> TsComp(s[i], s[j]) <= 0
  }

  ghost predicate InTimeOrder(s: seq<Alert>) {
    forall i, j :: 0 <= i < j < |s| ==> s[i].timestamp <= s[j].timestamp
  }

  lemma NarrowOrder(s: seq<Alert>)
    requires Narrow(s)
    ensures InTscompOrder(s) <==> InTimeOrder(s)
  {
    forall i, j | 0 <= i < j < |s|
      ensures TsComp(s[i], s[j]) <= 0 <==> s[i].timestamp <= s[j].timestamp
    {
      assert s[j].timestamp - s[i].timestamp < 0x8000_0000;
      TsCompExact(s[i], s[j]);
    }
  }

  // ---------------------------------------------------------------------- emission

  /** How many leading reports are not later than tmax. */
  function DueCount(s: seq<Alert>, tmax: int): (n: nat)
    ensures n <= |s|
    ensures forall i :: 0 <= i < n ==> s[i].timestamp <= tmax
    ensures n < |s| ==> s[n].timestamp > tmax
  {
    if s == [] || s[0].timestamp > tmax then 0 else 1 + DueCount(s[1..], tmax)
  }

  /** In time order the leading reports that are due are all that are due. */
  lemma DueIsExact(s: seq<Alert>, tmax: int)
    requires InTimeOrder(s)
    ensures var n := DueCount(s, tmax);
            forall i :: 0 <= i < |s| ==> (i < n <==> s[i].timestamp <= tmax)
  {
  }

  /** A 64-bit time. */
  function U64(t: int): int { t % TWO64 }

  /** Times are themselves; a negative one is later than any time. */
  lemma U64Means(t: int)
    ensures 0 <= t < 0x1_0000_0000_0000_0000 ==> U64(t) == t
    ensures -0x1_0000_0000_0000_0000 <= t < 0 ==> U64(t) == t + 0x1_0000_0000_0000_0000
  {
  }

  /** One round of the thread: new reports join the buffer, it is sorted, what is due leaves. */
  datatype Round = Round(added: seq<Alert>, order: seq<Alert>, tmax: int)

  /** What qsort makes of the buffer, whether or not the comparison orders it. */
  ghost predicate PermutationOf(order: seq<Alert>, s: seq<Alert>) { multiset(order) == multiset(s) }

  /** What qsort makes of it where the comparison is an order. */
  ghost predicate SortOf(order: seq<Alert>, s: seq<Alert>) { PermutationOf(order, s) && InTscompOrder(order) }

  lemma FewAreSorted(order: seq<Alert>, s: seq<Alert>)
    requires PermutationOf(order, s) && |s| <= 1
    ensures order == s
  {
    assert |multiset(order)| == |multiset(s)|;
    if |s| == 1 {
      assert order[0] in multiset(order);
    }
  }

  function PlayRound(r: Round): (seq<Alert>, seq<Alert>) {
    var n := DueCount(r.order, r.tmax);
    (r.order[n..], r.order[..n])
  }

  function PlayAll(left: seq<Alert>, rounds: seq<Round>): (seq<Alert>, seq<Alert>) {
    if rounds == [] then (left, [])
    else
      var b := PlayAll(left, rounds[..|rounds| - 1]);
      var r := PlayRound(rounds[|rounds| - 1]);
      (r.0, b.1 + r.1)
  }

  /** Each round arranges what the one before left and what was added, in whatever order. */
  ghost predicate Consistent(left: seq<Alert>, rounds: seq<Round>) {
    forall i :: 0 <= i < |rounds| ==>
      PermutationOf(rounds[i].order, PlayAll(left, rounds[..i]).0 + rounds[i].added)
  }

  function AllAdded(rounds: seq<Round>): seq<Alert> {
    if rounds == [] then [] else AllAdded(rounds[..|rounds| - 1]) + rounds[|rounds| - 1].added
  }

  lemma Split(s: seq<Alert>, n: nat)
    requires n <= |s|
    ensures multiset(s) == multiset(s[..n]) + multiset(s[n..])
  {
    assert s == s[..n] + s[n..];
  }

  lemma RoundConserves(left: seq<Alert>, r: Round)
    requires multiset(r.order) == multiset(left + r.added)
    ensures multiset(PlayRound(r).0) + multiset(PlayRound(r).1) == multiset(left) + multiset(r.added)
  {
    Split(r.order, DueCount(r.order, r.tmax));
  }

  lemma Sums(a: multiset<Alert>, b: multiset<Alert>, c: multiset<Alert>, d: multiset<Alert>,
             e: multiset<Alert>, f: multiset<Alert>, g: multiset<Alert>)
    requires a + b == c + d && e + f == a + g
    ensures e + (b + f) == c + (d + g)
  {
    assert e + (b + f) == (e + f) + b == (a + b) + g;
  }

  /** Every report recorded leaves through exactly one emission or is still in the buffer, however
      the buffer was arranged. */
  lemma {:induction false} Conserved(left: seq<Alert>, rounds: seq<Round>)
    requires Consistent(left, rounds)
    ensures var p := PlayAll(left, rounds);
            multiset(p.0) + multiset(p.1) == multiset(left) + multiset(AllAdded(rounds))
  {
    hide PlayRound;
    if rounds != [] {
      var front, last := rounds[..|rounds| - 1], rounds[|rounds| - 1];
      assert forall i :: 0 <= i < |front| ==> rounds[..i] == front[..i];
      Conserved(left, front);
      var b := PlayAll(left, front);
      var r := PlayRound(last);
      RoundConserves(b.0, last);
      Sums(multiset(b.0), multiset(b.1), multiset(left), multiset(AllAdded(front)),
           multiset(r.0), multiset(r.1), multiset(last.added));
      assert multiset(AllAdded(rounds)) == multiset(AllAdded(front)) + multiset(last.added);
      assert multiset(b.1 + r.1) == multiset(b.1) + multiset(r.1);
    }
  }

  lemma PermutedNarrow(s: seq<Alert>, t: seq<Alert>)
    requires multiset(s) == multiset(t) && Narrow(s)
    ensures Narrow(t) && |t| == |s|
  {
    assert |multiset(s)| == |s| && |multiset(t)| == |t|;
    forall i, j | 0 <= i < |t| && 0 <= j < |t|
      ensures t[i].timestamp - t[j].timestamp < 0x8000_0000
    {
      assert t[i] in multiset(s) && t[j] in multiset(s);
      var k :| 0 <= k < |s| && s[k] == t[i];
      var l :| 0 <= l < |s| && s[l] == t[j];
    }
  }

  /** One round, when the times span less than 2^31 ns: the due reports leave in time order, all of
      them and no others. */
  lemma RoundIsExact(left: seq<Alert>, r: Round)
    requires SortOf(r.order, left + r.added) && Narrow(left + r.added)
    ensures var p := PlayRound(r);
            && InTimeOrder(p.1) && (forall i :: 0 <= i < |p.1| ==> p.1[i].timestamp <= r.tmax)
            && (forall i :: 0 <= i < |p.0| ==> p.0[i].timestamp > r.tmax)
            && multiset(p.0) + multiset(p.1) == multiset(left) + multiset(r.added)
  {
    PermutedNarrow(left + r.added, r.order);
    NarrowOrder(r.order);
    DueIsExact(r.order, r.tmax);
    RoundConserves(left, r);
    hide Narrow;
    hide TsComp;
  }

  /** At local time now the round lets go of the reports that are half a millisecond old, all of them and
      no others; in the first half millisecond of all it lets everything go. */
  lemma HalfMillisecond(left: seq<Alert>, added: seq<Alert>, order: seq<Alert>, now: int)
    requires SortOf(order, left + added) && Narrow(left + added) && 0 <= now < TWO64
    requires forall i :: 0 <= i < |order| ==> order[i].timestamp < TWO64 - 500000
    ensures var p := PlayRound(Round(added, order, U64(now - 500000)));
            && InTimeOrder(p.1) && multiset(p.0) + multiset(p.1) == multiset(left) + multiset(added)
            && (forall i :: 0 <= i < |p.1| ==> now < 500000 || now - p.1[i].timestamp >= 500000)
            && (forall i :: 0 <= i < |p.0| ==> now >= 500000 && now - p.0[i].timestamp < 500000)
  {
    var r := Round(added, order, U64(now - 500000));
    U64Means(now - 500000);
    RoundIsExact(left, r);
    hide U64;
    hide Narrow;
    hide TsComp;
    hide DueCount;
    var p := PlayRound(r);
    assert forall i :: 0 <= i < |p.0| ==> p.0[i] == order[|p.1| + i];
  }

  // ------------------------------------------------------------------------ fan-out

  function ForHandle(s: seq<Alert>, handle: int): seq<Alert> {
    if s == [] then []
    else ForHandle(s[..|s| - 1], handle) + if s[|s| - 1].nfyHandle == handle then [s[|s| - 1]] else []
  }

  /** The reports for a handle are the reports with its number, all of them, in order; `at` is where
      they stand. */
  ghost predicate AllWith(s: seq<Alert>, handle: int, at: seq<nat>, out: seq<Alert>) {
    && |at| == |out|
    && (forall k :: 0 <= k < |at| ==> at[k] < |s| && s[at[k]] == out[k] && out[k].nfyHandle == handle)
    && (forall i, j :: 0 <= i < j < |at| ==> at[i] < at[j])
    && forall i :: 0 <= i < |s| && s[i].nfyHandle == handle ==> i in at
  }

  lemma AllWithMore(s: seq<Alert>, handle: int, at: seq<nat>, out: seq<Alert>, a: Alert)
    requires AllWith(s, handle, at, out)
    ensures if a.nfyHandle == handle then AllWith(s + [a], handle, at + [|s|], out + [a])
            else AllWith(s + [a], handle, at, out)
  {
    var more, places := s + [a], if a.nfyHandle == handle then at + [|s|] else at;
    forall i | 0 <= i < |more| && more[i].nfyHandle == handle
      ensures i in places
    {
      if i < |s| {
        assert s[i] == more[i] && i in at;
      } else {
        assert places[|at|] == i;
      }
    }
  }

  lemma NoneWith(handle: int)
    ensures AllWith([], handle, [], [])
  {
  }

  lemma {:induction false} ForHandleIsAll(s: seq<Alert>, handle: int) returns (at: seq<nat>)
    ensures AllWith(s, handle, at, ForHandle(s, handle))
  {
    hide AllWith;
    at := [];
    if s == [] {
      NoneWith(handle);
    } else {
      var front, a := s[..|s| - 1], s[|s| - 1];
      at := ForHandleIsAll(front, handle);
      AllWithMore(front, handle, at, ForHandle(front, handle), a);
      assert front + [a] == s && ForHandle(front, handle) + [] == ForHandle(front, handle);
      at := if a.nfyHandle == handle then at + [|front|] else at;
    }
  }

  function Flat(chunks: seq<seq<Alert>>): seq<Alert> {
    if chunks == [] then [] else Flat(chunks[..|chunks| - 1]) + chunks[|chunks| - 1]
  }

  /** What write() did with a chunk: all or part of it, would block, or a serious error. */
  datatype WriteResult = Wrote | WouldBlock | Serious

  lemma NothingFlat()
    ensures Flat([]) == []
  {
  }

  lemma FlatMore(chunks: seq<seq<Alert>>, chunk: seq<Alert>)
    ensures Flat(chunks + [chunk]) == Flat(chunks) + chunk
  {
    assert (chunks + [chunk])[..|chunks|] == chunks;
  }

  /** The loop that gathers what is for the handle. */
  method ReportsFor(buf: seq<Alert>, handle: int) returns (report: seq<Alert>)
    ensures report == ForHandle(buf, handle) && |report| <= |buf|
  {
    report := [];
    for d := 0 to |buf|
      invariant report == ForHandle(buf[..d], handle) && |report| <= d
    {
      assert buf[..d + 1][..d] == buf[..d];
      if handle == buf[d].nfyHandle {
        report := report + [buf[d]];
      }
    }
    assert buf[..|buf|] == buf;
  }

  /** The part of emitNotifications for one running handle: collect its reports, write them in
      chunks of at most maxEmits; a serious error closes the handle and drops the rest. */
  method NotifyOne(buf: seq<Alert>, handle: int, maxEmits: nat, results: seq<WriteResult>)
    returns (chunks: seq<seq<Alert>>, closing: bool)
    requires maxEmits > 0 && |results| >= |buf|
    ensures Flat(chunks) <= ForHandle(buf, handle)
    ensures !closing ==> Flat(chunks) == ForHandle(buf, handle)
    ensures forall i :: 0 <= i < |chunks| ==> 0 < |chunks[i]| <= maxEmits
    ensures forall i :: 0 <= i < |chunks| - 1 ==> |chunks[i]| == maxEmits
    ensures |chunks| <= |results|
    ensures closing <==> exists i :: 0 <= i < |chunks| && results[i] == Serious
    ensures closing ==> chunks != [] && results[|chunks| - 1] == Serious
    ensures forall i :: 0 <= i < |chunks| - 1 ==> results[i] != Serious
  {
    hide Flat;
    var report := ReportsFor(buf, handle);
    NothingFlat();
    var emit, sent := |report|, 0;
    chunks, closing := [], false;
    while emit > 0
      invariant 0 <= emit && 0 <= sent && sent + emit == |report| && |chunks| <= sent
      invariant Flat(chunks) == report[..sent]
      invariant forall i :: 0 <= i < |chunks| ==> 0 < |chunks[i]| <= maxEmits
      invariant emit > 0 ==> forall i :: 0 <= i < |chunks| ==> |chunks[i]| == maxEmits
      invariant forall i :: 0 <= i < |chunks| - 1 ==> |chunks[i]| == maxEmits
      invariant forall i :: 0 <= i < |chunks| ==> results[i] != Serious
    {
      var size := if emit > maxEmits then maxEmits else emit;
      var chunk := report[sent..sent + size];
      var k := |chunks|;
      chunks := chunks + [chunk];
      FlatMore(chunks[..k], chunk);
      assert chunks[..k] + [chunk] == chunks && report[..sent] + chunk == report[..sent + size];
      if results[k] == Serious {
        closing := true;
        return;
      }
      sent := sent + size;
      emit := emit - size;
    }
    assert report[..sent] == report;
  }
}
