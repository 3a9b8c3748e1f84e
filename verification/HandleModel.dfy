/**
 The handle table of lgpio/lgHdl.c, as a value: which slots are held, and for each type of object
 the handles of that type, oldest first. Handles.dfy has the linked slots that represent it.
 */
module HandleModel {
  const SLOTS: nat := 1024
  const TYPES: nat := 18

  const OKAY: int := 0
  const NO_HANDLE: int := -4
  const BAD_HANDLE: int := -5
  const NO_MEMORY: int := -18
  const NO_PERMISSIONS: int := -93

  /** The calling thread: who it is and what it shares. */
  datatype Ctx = Ctx(owner: int, user: string, autoSetShare: int, autoUseShare: int)

  datatype Payload = Unused | Held(kind: nat, owner: int, share: int, user: string)

  datatype Table = Table(slots: seq<Payload>, chains: seq<seq<nat>>)

  ghost predicate NoDup(c: seq<nat>) { forall i, j :: 0 <= i < j < |c| ==> c[i] != c[j] }

  /** The chain of a kind lists held slots of that kind, each once. */
  ghost predicate Lists(slots: seq<Payload>, c: seq<nat>, kind: nat) {
    && NoDup(c)
    && forall s :: s in c ==> s < |slots| && slots[s].Held? && slots[s].kind == kind
  }

  /** And every held slot is in its chain. */
  ghost predicate Consistent(t: Table) {
    && |t.slots| == SLOTS && |t.chains| == TYPES
    && (forall k :: 0 <= k < TYPES ==> Lists(t.slots, t.chains[k], k))
    && forall s :: 0 <= s < SLOTS && t.slots[s].Held? ==> t.slots[s].kind < TYPES && s in t.chains[t.slots[s].kind]
  }

  function LowestUnused(slots: seq<Payload>): (s: nat)
    ensures s <= |slots| && forall r :: 0 <= r < s ==> slots[r].Held?
    ensures s < |slots| ==> slots[s].Unused?
  {
    if slots == [] || slots[0].Unused? then 0 else 1 + LowestUnused(slots[1..])
  }

  /** What remains, in the same order. */
  function Minus(c: seq<nat>, gone: set<nat>): (r: seq<nat>)
    ensures forall s :: s in r <==> s in c && s !in gone
  {
    if c == [] then [] else (if c[0] in gone then [] else [c[0]]) + Minus(c[1..], gone)
  }

  function Removed(t: Table, gone: set<nat>): Table {
    Table(seq(|t.slots|, s requires 0 <= s < |t.slots| => if s in gone then Unused else t.slots[s]),
          seq(|t.chains|, k requires 0 <= k < |t.chains| => Minus(t.chains[k], gone)))
  }

  function Added(t: Table, s: nat, p: Payload): Table
    requires s < |t.slots| && p.Held? && p.kind < |t.chains|
  {
    Table(t.slots[s := p], t.chains[p.kind := t.chains[p.kind] + [s]])
  }

  /** lgHdlGetObj's test. */
  predicate Names(t: Table, handle: int, kind: nat) {
    0 <= handle < |t.slots| && t.slots[handle].Held? && t.slots[handle].kind == kind
  }

  /** May this thread use an object it names? */
  predicate Permitted(p: Payload, ctx: Ctx) {
    p.Held? && (p.owner == ctx.owner || (p.share != 0 && p.share == ctx.autoUseShare && p.user == ctx.user))
  }

  predicate Doomed(p: Payload, owner: int) { p.Held? && p.owner == owner && p.share == 0 }

  function DoomedBelow(slots: seq<Payload>, owner: int, n: nat): set<nat>
    requires n <= |slots|
  {
    set s: nat | s < n && Doomed(slots[s], owner)
  }

  // ------------------------------------------------------------------------- operations

  datatype Op =
    | Alloc(kind: nat, ctx: Ctx, memory: bool)
    | Free(handle: int, kind: nat)
    | SetShare(handle: int, share: int, ctx: Ctx)
    | Purge(owner: int)

  predicate WellTyped(o: Op) { (o.Alloc? || o.Free?) ==> o.kind < TYPES }

  function Allocated(t: Table, kind: nat, ctx: Ctx, memory: bool): (r: (Table, int))
    requires kind < |t.chains|
  {
    var s := LowestUnused(t.slots);
    if s == |t.slots| then (t, NO_HANDLE)
    else if !memory then (t, NO_MEMORY)
    else (Added(t, s, Held(kind, ctx.owner, ctx.autoSetShare, ctx.user)), s)
  }

  function Shared(t: Table, handle: int, share: int, ctx: Ctx): (r: (Table, int)) {
    if handle < 0 || handle >= |t.slots| || t.slots[handle].Unused? then (t, BAD_HANDLE)
    else if t.slots[handle].owner != ctx.owner then (t, NO_PERMISSIONS)
    else (t.(slots := t.slots[handle := t.slots[handle].(share := share)]), OKAY)
  }

  function Apply(t: Table, o: Op): (Table, int)
    requires |t.slots| == SLOTS && |t.chains| == TYPES && WellTyped(o)
  {
    match o
    case Alloc(kind, ctx, memory) => Allocated(t, kind, ctx, memory)
    case Free(handle, kind) => if Names(t, handle, kind) then (Removed(t, {handle}), OKAY) else (t, BAD_HANDLE)
    case SetShare(handle, share, ctx) => Shared(t, handle, share, ctx)
    case Purge(owner) => (Removed(t, DoomedBelow(t.slots, owner, SLOTS)), OKAY)
  }

  // ------------------------------------------------------------------------- consistency

  lemma {:induction false} MinusNoDup(c: seq<nat>, gone: set<nat>)
    requires NoDup(c)
    ensures NoDup(Minus(c, gone))
  {
    if c != [] {
      assert forall i, j :: 0 <= i < j < |c[1..]| ==> c[1..][i] != c[1..][j] by {
        assert forall i :: 0 <= i < |c[1..]| ==> c[1..][i] == c[i + 1];
      }
      MinusNoDup(c[1..], gone);
      assert c[0] !in c[1..];
    }
  }

  lemma MinusCons(x: nat, c: seq<nat>, gone: set<nat>)
    ensures Minus([x] + c, gone) == if x in gone then Minus(c, gone) else [x] + Minus(c, gone)
  {
    assert ([x] + c)[1..] == c;
  }

  lemma {:induction false} MinusTwice(c: seq<nat>, a: set<nat>, b: set<nat>)
    ensures Minus(Minus(c, a), b) == Minus(c, a + b)
  {
    if c != [] {
      hide Minus;
      MinusTwice(c[1..], a, b);
      assert c == [c[0]] + c[1..];
      MinusCons(c[0], c[1..], a);
      MinusCons(c[0], c[1..], a + b);
      MinusCons(c[0], Minus(c[1..], a), b);
    }
  }

  lemma {:induction false} MinusNothing(c: seq<nat>, gone: set<nat>)
    requires forall s :: s in c ==> s !in gone
    ensures Minus(c, gone) == c
  {
    if c != [] {
      MinusNothing(c[1..], gone);
    }
  }

  lemma RemovedTwice(t: Table, a: set<nat>, b: set<nat>)
    ensures Removed(Removed(t, a), b) == Removed(t, a + b)
  {
    forall k | 0 <= k < |t.chains|
      ensures Minus(Minus(t.chains[k], a), b) == Minus(t.chains[k], a + b)
    {
      MinusTwice(t.chains[k], a, b);
    }
  }

  lemma RemovedConsistent(t: Table, gone: set<nat>)
    requires Consistent(t)
    ensures Consistent(Removed(t, gone))
  {
    forall k | 0 <= k < TYPES
      ensures NoDup(Minus(t.chains[k], gone))
    {
      MinusNoDup(t.chains[k], gone);
    }
  }

  lemma AddedConsistent(t: Table, s: nat, p: Payload)
    requires Consistent(t) && s < SLOTS && t.slots[s].Unused? && p.Held? && p.kind < TYPES
    ensures Consistent(Added(t, s, p))
  {
    assert forall k :: 0 <= k < TYPES ==> s !in t.chains[k];
  }

  lemma SharedConsistent(t: Table, handle: int, share: int, ctx: Ctx)
    requires Consistent(t)
    ensures Consistent(Shared(t, handle, share, ctx).0)
  {
  }

  lemma LowestIsUnused(t: Table)
    requires Consistent(t)
    ensures var s := LowestUnused(t.slots); s < SLOTS ==> t.slots[s].Unused?
  {
  }

  lemma Sizes(t: Table)
    requires Consistent(t)
    ensures |t.slots| == SLOTS && |t.chains| == TYPES
  {
  }

  /** Every operation keeps the table consistent. */
  lemma ApplyConsistent(t: Table, o: Op)
    requires Consistent(t) && WellTyped(o)
    ensures |t.slots| == SLOTS && |t.chains| == TYPES && Consistent(Apply(t, o).0)
  {
    Sizes(t);
    hide Consistent;
    hide Removed;
    hide Added;
    hide Shared;
    hide LowestUnused;
    match o
    case Alloc(kind, ctx, memory) =>
      var s := LowestUnused(t.slots);
      if s < SLOTS && memory {
        AddedConsistent(t, s, Held(kind, ctx.owner, ctx.autoSetShare, ctx.user));
      }
    case Free(handle, kind) =>
      if Names(t, handle, kind) {
        RemovedConsistent(t, {handle});
      }
    case SetShare(handle, share, ctx) => SharedConsistent(t, handle, share, ctx);
    case Purge(owner) => RemovedConsistent(t, DoomedBelow(t.slots, owner, SLOTS));
  }

  // -------------------------------------------------------------------------------- runs

  ghost predicate AllTyped(ops: seq<Op>) { forall i :: 0 <= i < |ops| ==> WellTyped(ops[i]) }

  function Start(): Table { Table(seq(SLOTS, _ => Unused), seq(TYPES, _ => [])) }

  ghost function Run(ops: seq<Op>): (t: Table)
    requires AllTyped(ops)
    ensures Consistent(t)
  {
    if ops == [] then Start()
    else
      var n := |ops| - 1;
      ApplyConsistent(Run(ops[..n]), ops[n]);
      Apply(Run(ops[..n]), ops[n]).0
  }

  /** The last operation of the run that allocated the handle, or -1. */
  ghost function Born(ops: seq<Op>, s: nat): int
    requires AllTyped(ops)
  {
    if ops == [] then -1
    else
      var n := |ops| - 1;
      if ops[n].Alloc? && Apply(Run(ops[..n]), ops[n]).1 == s then n else Born(ops[..n], s)
  }

  ghost predicate Oldest(ops: seq<Op>, c: seq<nat>)
    requires AllTyped(ops)
  {
    && (forall i :: 0 <= i < |c| ==> 0 <= Born(ops, c[i]) < |ops|)
    && forall i, j :: 0 <= i < j < |c| ==> Born(ops, c[i]) < Born(ops, c[j])
  }

  lemma OldestTail(ops: seq<Op>, x: nat, c: seq<nat>)
    requires AllTyped(ops) && Oldest(ops, [x] + c)
    ensures Oldest(ops, c) && 0 <= Born(ops, x) < |ops| && forall y :: y in c ==> Born(ops, x) < Born(ops, y)
  {
    hide Born;
    hide AllTyped;
    var d := [x] + c;
    assert d[0] == x;
    forall i | 0 <= i < |c|
      ensures c[i] == d[i + 1] && Born(ops, x) < Born(ops, c[i]) < |ops|
    {
    }
    forall i, j | 0 <= i < j < |c|
      ensures Born(ops, c[i]) < Born(ops, c[j])
    {
      assert Born(ops, d[i + 1]) < Born(ops, d[j + 1]);
    }
  }

  lemma OldestCons(ops: seq<Op>, x: nat, c: seq<nat>)
    requires AllTyped(ops) && Oldest(ops, c)
    requires 0 <= Born(ops, x) < |ops| && forall y :: y in c ==> Born(ops, x) < Born(ops, y)
    ensures Oldest(ops, [x] + c)
  {
    hide Born;
    hide AllTyped;
    var d := [x] + c;
    forall i, j | 0 <= i < j < |d|
      ensures Born(ops, d[i]) < Born(ops, d[j])
    {
      assert d[j] == c[j - 1] && c[j - 1] in c;
      if i > 0 {
        assert d[i] == c[i - 1];
      }
    }
    forall i | 0 <= i < |d|
      ensures 0 <= Born(ops, d[i]) < |ops|
    {
      if i > 0 {
        assert d[i] == c[i - 1];
      }
    }
  }

  lemma {:induction false} MinusOldest(ops: seq<Op>, c: seq<nat>, gone: set<nat>)
    requires AllTyped(ops) && Oldest(ops, c)
    ensures Oldest(ops, Minus(c, gone))
  {
    hide Oldest;
    hide Born;
    hide AllTyped;
    if c != [] {
      assert c == [c[0]] + c[1..];
      OldestTail(ops, c[0], c[1..]);
      MinusOldest(ops, c[1..], gone);
      if c[0] !in gone {
        OldestCons(ops, c[0], Minus(c[1..], gone));
      } else {
        assert [] + Minus(c[1..], gone) == Minus(c[1..], gone);
      }
    }
  }

  lemma OldestLater(ops: seq<Op>, c: seq<nat>)
    requires AllTyped(ops) && ops != [] && Oldest(ops[..|ops| - 1], c)
    requires var n := |ops| - 1; ops[n].Alloc? ==> Apply(Run(ops[..n]), ops[n]).1 !in c
    ensures Oldest(ops, c) && forall i :: 0 <= i < |c| ==> Born(ops, c[i]) < |ops| - 1
  {
    var n := |ops| - 1;
    forall i | 0 <= i < |c|
      ensures Born(ops, c[i]) == Born(ops[..n], c[i])
    {
      assert c[i] in c;
    }
  }

  lemma OldestSnoc(ops: seq<Op>, c: seq<nat>, s: nat)
    requires AllTyped(ops) && Oldest(ops, c) && 0 <= Born(ops, s) < |ops|
    requires forall i :: 0 <= i < |c| ==> Born(ops, c[i]) < Born(ops, s)
    ensures Oldest(ops, c + [s])
  {
    hide Born;
    hide AllTyped;
  }

  /** In every reachable table each chain is in the order of allocation: of two handles in it, the
      earlier was allocated by an earlier operation. */
  lemma {:induction false} OldestFirst(ops: seq<Op>, k: nat)
    requires AllTyped(ops) && k < TYPES
    ensures Oldest(ops, Run(ops).chains[k])
  {
    if ops != [] {
      var n := |ops| - 1;
      var t, o := Run(ops[..n]), ops[n];
      OldestFirst(ops[..n], k);
      if o.Alloc? {
        AllocOldest(ops, k);
      } else {
        OldestLater(ops, t.chains[k]);
        hide Oldest;
        hide Born;
        hide Consistent;
        if o.Free? {
          if Names(t, o.handle, o.kind) {
            MinusOldest(ops, t.chains[k], {o.handle});
          }
        } else if o.Purge? {
          MinusOldest(ops, t.chains[k], DoomedBelow(t.slots, o.owner, SLOTS));
        }
      }
    }
  }

  lemma AllocOldest(ops: seq<Op>, k: nat)
    requires AllTyped(ops) && k < TYPES && ops != [] && ops[|ops| - 1].Alloc?
    requires Oldest(ops[..|ops| - 1], Run(ops[..|ops| - 1]).chains[k])
    ensures Oldest(ops, Run(ops).chains[k])
  {
    var n := |ops| - 1;
    var t, o := Run(ops[..n]), ops[n];
    var s := Apply(t, o).1;
    LowestIsUnused(t);
    assert s !in t.chains[k];
    OldestLater(ops, t.chains[k]);
    if s >= 0 {
      assert Born(ops, s) == n;
      hide Born;
      hide Oldest;
      OldestSnoc(ops, t.chains[k], s);
    }
  }

  lemma {:induction false} MinusLast(c: seq<nat>, s: nat)
    requires s !in c
    ensures Minus(c + [s], {s}) == c
  {
    if c == [] {
      assert c + [s] == [s] + c;
      MinusCons(s, c, {s});
    } else {
      hide Minus;
      MinusLast(c[1..], s);
      assert c + [s] == [c[0]] + (c[1..] + [s]);
      MinusCons(c[0], c[1..] + [s], {s});
    }
  }

  /** Freeing what was just allocated undoes the allocation; and an allocation with memory fails
      exactly when all 1024 slots are held. */
  lemma FreeUndoesAlloc(t: Table, kind: nat, ctx: Ctx, memory: bool)
    requires Consistent(t) && kind < TYPES
    ensures var (u, h) := Allocated(t, kind, ctx, memory);
            && (h == NO_HANDLE <==> forall s :: 0 <= s < 1024 ==> t.slots[s].Held?)
            && (h == NO_MEMORY <==> !memory && h != NO_HANDLE)
            && (h < 0 ==> u == t)
            && (h >= 0 ==> Names(u, h, kind) && !Names(t, h, kind) && Apply(u, Free(h, kind)) == (t, OKAY))
  {
    var s := LowestUnused(t.slots);
    if s < SLOTS && memory {
      forall k | 0 <= k < TYPES
        ensures s !in t.chains[k] && Minus(t.chains[k], {s}) == t.chains[k]
      {
        MinusNothing(t.chains[k], {s});
      }
      MinusLast(t.chains[kind], s);
      var u := Allocated(t, kind, ctx, memory).0;
      hide Minus;
      hide Consistent;
      hide LowestUnused;
      assert Removed(u, {s}).chains == t.chains;
      assert Removed(u, {s}).slots == t.slots;
    }
  }

  // ---------------------------------------------------------------------- who may use what

  /** A newly allocated object may be used by its owner's thread, and otherwise exactly by threads of the
      same user that use the share it was given, if it was given one. */
  lemma WhoMayUse(t: Table, kind: nat, ctx: Ctx, other: Ctx)
    requires Consistent(t) && kind < TYPES && Apply(t, Alloc(kind, ctx, true)).1 >= 0
    ensures var (u, h) := Apply(t, Alloc(kind, ctx, true));
            && Names(u, h, kind)
            && (Permitted(u.slots[h], other) <==>
                  || other.owner == ctx.owner
                  || (ctx.autoSetShare != 0 && other.autoUseShare == ctx.autoSetShare && other.user == ctx.user))
  {
  }

  /** The owner, and only the owner, changes that with a new share. */
  lemma WhoMayShare(t: Table, h: int, share: int, ctx: Ctx, other: Ctx)
    requires Consistent(t)
    ensures var (u, status) := Apply(t, SetShare(h, share, ctx));
            && (status == BAD_HANDLE <==> forall k :: 0 <= k < TYPES ==> !Names(t, h, k))
            && (status == NO_PERMISSIONS <==> 0 <= h < SLOTS && t.slots[h].Held? && t.slots[h].owner != ctx.owner)
            && (status == OKAY <==> 0 <= h < SLOTS && t.slots[h].Held? && t.slots[h].owner == ctx.owner)
            && (status != OKAY ==> u == t)
            && (status == OKAY ==>
                  && (Permitted(u.slots[h], other) <==>
                        || other.owner == ctx.owner
                        || (share != 0 && other.autoUseShare == share && other.user == t.slots[h].user))
                  && u.chains == t.chains && forall s :: 0 <= s < SLOTS && s != h ==> u.slots[s] == t.slots[s])
  {
    if 0 <= h < SLOTS && t.slots[h].Held? {
      assert Names(t, h, t.slots[h].kind);
    }
  }

  /** A thread that ends takes its objects with it, but for those it shares; nobody else's go. */
  lemma WhatIsPurged(t: Table, owner: int, s: nat)
    requires Consistent(t) && s < SLOTS
    ensures Apply(t, Purge(owner)).1 == OKAY
    ensures var u := Apply(t, Purge(owner)).0;
            && (t.slots[s].Held? && t.slots[s].owner == owner && t.slots[s].share == 0 ==> u.slots[s].Unused?)
            && (!(t.slots[s].Held? && t.slots[s].owner == owner && t.slots[s].share == 0) ==> u.slots[s] == t.slots[s])
  {
  }

  /** Freeing answers for exactly the handles in the chain of the type. */
  lemma WhatIsFreed(t: Table, h: int, kind: nat)
    requires Consistent(t) && kind < TYPES
    ensures var (u, status) := Apply(t, Free(h, kind));
            && (status == OKAY <==> h >= 0 && h as nat in t.chains[kind]) && (status == OKAY || status == BAD_HANDLE)
            && (status == OKAY ==> u.slots[h].Unused? && forall s :: 0 <= s < SLOTS && s != h ==> u.slots[s] == t.slots[s])
            && (status != OKAY ==> u == t)
  {
  }
}
