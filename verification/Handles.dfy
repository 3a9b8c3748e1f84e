/**
 lgpio/lgHdl.c: an array of slots whose headers are linked, both ways, into one chain per type.
 Whatever the operations, the links are those of the table of HandleModel.dfy.
 */
module Handles {
  import opened HandleModel

  datatype Header = Header(kind: nat, next: int, previous: int, owner: int, share: int, user: string)

  datatype Slot = Vacant | Reserved | Live(h: Header)

  /** A slot array with its chain ends, as values. */
  datatype Mem = Mem(slots: seq<Slot>, first: seq<int>, last: seq<int>)

  function Holds(s: Slot): Payload
    requires !s.Reserved?
  {
    if s.Live? then Held(s.h.kind, s.h.owner, s.h.share, s.h.user) else Unused
  }

  function At(c: seq<nat>, i: int): int { if 0 <= i < |c| then c[i] else -1 }

  /** The links of one chain. */
  ghost predicate Linked(slots: seq<Slot>, first: int, last: int, c: seq<nat>) {
    && first == At(c, 0) && last == At(c, |c| - 1)
    && forall i :: 0 <= i < |c| ==> LinkedAt(slots, c, i)
  }

  ghost predicate LinkedAt(slots: seq<Slot>, c: seq<nat>, i: nat)
    requires i < |c|
  {
    && c[i] < |slots| && slots[c[i]].Live?
    && slots[c[i]].h.next == At(c, i + 1) && slots[c[i]].h.previous == At(c, i - 1)
  }

  ghost predicate Represents(m: Mem, t: Table) {
    && Consistent(t)
    && |m.slots| == SLOTS && |m.first| == TYPES && |m.last| == TYPES
    && (forall s :: 0 <= s < SLOTS ==> !m.slots[s].Reserved? && Holds(m.slots[s]) == t.slots[s])
    && forall k :: 0 <= k < TYPES ==> Linked(m.slots, m.first[k], m.last[k], t.chains[k])
  }

  // ------------------------------------------------------------------- what one step does

  lemma LinkedElsewhere(a: seq<Slot>, b: seq<Slot>, first: int, last: int, c: seq<nat>)
    requires Linked(a, first, last, c) && |a| == |b|
    requires forall s :: s in c && s < |a| ==> a[s] == b[s]
    ensures Linked(b, first, last, c)
  {
    forall i | 0 <= i < |c|
      ensures LinkedAt(b, c, i)
    {
      assert LinkedAt(a, c, i) && c[i] in c;
    }
  }

  /** Put at the end of a chain. */
  function LinkLast(slots: seq<Slot>, last: int, s: nat, h: Header): seq<Slot>
    requires s < |slots| && (last >= 0 ==> last < |slots| && slots[last].Live?)
  {
    (if last >= 0 then slots[last := Live(slots[last].h.(next := s))] else slots)
    [s := Live(h.(next := -1, previous := if last >= 0 then last else -1))]
  }

  lemma LinkedLast(slots: seq<Slot>, first: int, last: int, c: seq<nat>, s: nat, h: Header)
    requires Linked(slots, first, last, c) && NoDup(c) && s < |slots| && s !in c
    ensures last >= 0 ==> last < |slots| && slots[last].Live?
    ensures Linked(LinkLast(slots, last, s, h), if last >= 0 then first else s, s, c + [s])
  {
    if c != [] {
      assert LinkedAt(slots, c, |c| - 1);
    }
    var d, after := c + [s], LinkLast(slots, last, s, h);
    forall i | 0 <= i < |d|
      ensures LinkedAt(after, d, i)
    {
      if i < |c| {
        assert LinkedAt(slots, c, i) && c[i] in c;
        if i < |c| - 1 {
          assert c[i] != c[|c| - 1];
        }
      }
    }
  }

  /** Taken out of a chain. */
  function Unlinked(slots: seq<Slot>, s: nat, prev: int, next: int): seq<Slot>
    requires s < |slots|
    requires (prev >= 0 ==> prev < |slots| && slots[prev].Live?) && (next >= 0 ==> next < |slots| && slots[next].Live?)
    requires prev == next ==> prev < 0
  {
    var a := if prev >= 0 then slots[prev := Live(slots[prev].h.(next := next))] else slots;
    var b := if next >= 0 then a[next := Live(a[next].h.(previous := prev))] else a;
    b[s := Vacant]
  }

  lemma LinkedWithout(slots: seq<Slot>, first: int, last: int, c: seq<nat>, j: nat)
    requires Linked(slots, first, last, c) && NoDup(c) && j < |c|
    ensures var p, n := At(c, j - 1), At(c, j + 1);
            && LinkedAt(slots, c, j)
            && (p >= 0 ==> p < |slots| && slots[p].Live?) && (n >= 0 ==> n < |slots| && slots[n].Live?)
            && (p == n ==> p < 0)
            && Linked(Unlinked(slots, c[j], p, n), if p >= 0 then first else n, if n >= 0 then last else p,
                      c[..j] + c[j + 1..])
  {
    var p, n := At(c, j - 1), At(c, j + 1);
    assert LinkedAt(slots, c, j);
    if j > 0 {
      assert LinkedAt(slots, c, j - 1);
    }
    if j + 1 < |c| {
      assert LinkedAt(slots, c, j + 1);
    }
    var d, after := c[..j] + c[j + 1..], Unlinked(slots, c[j], p, n);
    forall i | 0 <= i < |d|
      ensures LinkedAt(after, d, i)
    {
      var o := if i < j then i else i + 1;
      assert LinkedAt(slots, c, o) && d[i] == c[o] != c[j];
      if o != j - 1 && o != j + 1 {
        assert j > 0 ==> c[o] != c[j - 1];
        assert j + 1 < |c| ==> c[o] != c[j + 1];
      }
    }
  }

  lemma {:induction false} MinusOne(c: seq<nat>, j: nat)
    requires NoDup(c) && j < |c|
    ensures Minus(c, {c[j]}) == c[..j] + c[j + 1..]
  {
    hide Minus;
    assert c == [c[0]] + c[1..];
    MinusCons(c[0], c[1..], {c[j]});
    if j == 0 {
      MinusNothing(c[1..], {c[0]});
    } else {
      assert c[0] != c[j];
      assert forall i :: 0 <= i < |c[1..]| ==> c[1..][i] == c[i + 1];
      MinusOne(c[1..], j - 1);
      assert c[..j] + c[j + 1..] == [c[0]] + (c[1..][..j - 1] + c[1..][j..]);
    }
  }

  function MemAdded(m: Mem, s: nat, h: Header): Mem
    requires s < |m.slots| && h.kind < |m.first| && h.kind < |m.last|
    requires var l := m.last[h.kind]; l >= 0 ==> l < |m.slots| && m.slots[l].Live?
  {
    var l := m.last[h.kind];
    Mem(LinkLast(m.slots, l, s, h), if l >= 0 then m.first else m.first[h.kind := s], m.last[h.kind := s])
  }

  lemma AddedRepresents(m: Mem, t: Table, s: nat, h: Header)
    requires Represents(m, t) && s < SLOTS && t.slots[s].Unused? && h.kind < TYPES
    ensures var l := m.last[h.kind]; l >= 0 ==> l < |m.slots| && m.slots[l].Live?
    ensures Represents(MemAdded(m, s, h), Added(t, s, Held(h.kind, h.owner, h.share, h.user)))
  {
    var p := Held(h.kind, h.owner, h.share, h.user);
    var c := t.chains[h.kind];
    LinkedLast(m.slots, m.first[h.kind], m.last[h.kind], c, s, h);
    LastInChain(m, t, h.kind);
    AddedConsistent(t, s, p);
    var n := MemAdded(m, s, h);
    forall k | 0 <= k < TYPES
      ensures Linked(n.slots, n.first[k], n.last[k], Added(t, s, p).chains[k])
    {
      if k != h.kind {
        LinkedElsewhere(m.slots, n.slots, m.first[k], m.last[k], t.chains[k]);
      }
    }
  }

  /** The end of a chain belongs to no other chain. */
  lemma LastInChain(m: Mem, t: Table, kind: nat)
    requires Represents(m, t) && kind < TYPES
    ensures var l := m.last[kind];
            l >= 0 ==> l < SLOTS && l in t.chains[kind] && forall k :: 0 <= k < TYPES && k != kind ==> l !in t.chains[k]
  {
  }

  function MemRemoved(m: Mem, s: nat, kind: nat): Mem
    requires s < |m.slots| && m.slots[s].Live? && kind < |m.first| && kind < |m.last|
    requires var (p, n) := (m.slots[s].h.previous, m.slots[s].h.next);
             && (p >= 0 ==> p < |m.slots| && m.slots[p].Live?) && (n >= 0 ==> n < |m.slots| && m.slots[n].Live?)
             && (p == n ==> p < 0)
  {
    var (p, n) := (m.slots[s].h.previous, m.slots[s].h.next);
    Mem(Unlinked(m.slots, s, p, n), if p >= 0 then m.first else m.first[kind := n],
        if n >= 0 then m.last else m.last[kind := p])
  }

  lemma OwnChain(m: Mem, t: Table, s: nat, kind: nat) returns (j: nat)
    requires Represents(m, t) && Names(t, s, kind)
    ensures kind < TYPES && m.slots[s].Live? && j < |t.chains[kind]| && t.chains[kind][j] == s
    ensures forall k, x :: 0 <= k < TYPES && k != kind && x in t.chains[kind] ==> x !in t.chains[k]
    ensures Linked(m.slots, m.first[kind], m.last[kind], t.chains[kind]) && NoDup(t.chains[kind])
  {
    var c := t.chains[kind];
    j :| 0 <= j < |c| && c[j] == s;
  }

  /** What has to be known to take a slot out. */
  ghost predicate Removable(m: Mem, s: nat, kind: nat) {
    && s < |m.slots| && m.slots[s].Live? && kind < |m.first| && kind < |m.last|
    && var (p, n) := (m.slots[s].h.previous, m.slots[s].h.next);
       && (p >= 0 ==> p < |m.slots| && m.slots[p].Live?) && (n >= 0 ==> n < |m.slots| && m.slots[n].Live?)
       && (p == n ==> p < 0)
  }

  lemma RemovedHolds(m: Mem, t: Table, s: nat, kind: nat)
    requires Represents(m, t) && Removable(m, s, kind)
    ensures var r := MemRemoved(m, s, kind);
            forall x :: 0 <= x < SLOTS ==> !r.slots[x].Reserved? && Holds(r.slots[x]) == Removed(t, {s}).slots[x]
  {
    Sizes(t);
    hide Linked;
    hide Consistent;
    hide Minus;
  }

  lemma RemovedOwn(m: Mem, t: Table, s: nat, kind: nat, j: nat)
    requires |m.first| == |m.last| == |t.chains| == TYPES && kind < TYPES
    requires j < |t.chains[kind]| && t.chains[kind][j] == s
    requires Linked(m.slots, m.first[kind], m.last[kind], t.chains[kind]) && NoDup(t.chains[kind])
    ensures Removable(m, s, kind)
    ensures var r := MemRemoved(m, s, kind);
            Linked(r.slots, r.first[kind], r.last[kind], Removed(t, {s}).chains[kind])
    ensures var (p, n) := (m.slots[s].h.previous, m.slots[s].h.next); var c := t.chains[kind];
            (p >= 0 ==> p in c) && (n >= 0 ==> n in c)
  {
    hide Minus;
    LinkedWithout(m.slots, m.first[kind], m.last[kind], t.chains[kind], j);
    MinusOne(t.chains[kind], j);
  }

  lemma RemovedRepresents(m: Mem, t: Table, s: nat, kind: nat)
    requires Represents(m, t) && Names(t, s, kind)
    ensures Removable(m, s, kind) && Represents(MemRemoved(m, s, kind), Removed(t, {s}))
  {
    var j := OwnChain(m, t, s, kind);
    RemovedConsistent(t, {s});
    hide Consistent;
    hide Minus;
    hide Linked;
    hide Unlinked;
    RemovedOwn(m, t, s, kind, j);
    RemovedHolds(m, t, s, kind);
    var r := MemRemoved(m, s, kind);
    forall k | 0 <= k < TYPES
      ensures Linked(r.slots, r.first[k], r.last[k], Removed(t, {s}).chains[k])
    {
      if k != kind {
        MinusNothing(t.chains[k], {s});
        UnlinkedElsewhere(m.slots, s, m.slots[s].h.previous, m.slots[s].h.next, t.chains[k]);
        LinkedElsewhere(m.slots, r.slots, m.first[k], m.last[k], t.chains[k]);
      }
    }
  }

  lemma UnlinkedElsewhere(slots: seq<Slot>, s: nat, p: int, n: int, c: seq<nat>)
    requires s < |slots| && (p >= 0 ==> p < |slots| && slots[p].Live?) && (n >= 0 ==> n < |slots| && slots[n].Live?)
    requires p == n ==> p < 0
    requires s !in c && (p >= 0 ==> p !in c) && (n >= 0 ==> n !in c)
    ensures |Unlinked(slots, s, p, n)| == |slots|
    ensures forall x :: x in c && x < |slots| ==> slots[x] == Unlinked(slots, s, p, n)[x]
  {
  }

  lemma SharedRepresents(m: Mem, t: Table, s: nat, share: int)
    requires Represents(m, t) && s < SLOTS && t.slots[s].Held?
    ensures m.slots[s].Live?
    ensures Represents(m.(slots := m.slots[s := Live(m.slots[s].h.(share := share))]),
                       t.(slots := t.slots[s := t.slots[s].(share := share)]))
  {
    var n := m.(slots := m.slots[s := Live(m.slots[s].h.(share := share))]);
    forall k, i | 0 <= k < TYPES && 0 <= i < |t.chains[k]|
      ensures LinkedAt(n.slots, t.chains[k], i)
    {
      assert LinkedAt(m.slots, t.chains[k], i);
    }
  }

  // --------------------------------------------------------------------------- the arrays

  class HandleTable {
    const slots: array<Slot>
    const first: array<int>
    const last: array<int>
    ghost var table: Table

    ghost function View(): Mem
      reads this, slots, first, last
    {
      Mem(slots[..], first[..], last[..])
    }

    ghost predicate Valid()
      reads this, slots, first, last
    {
      && first != last && slots.Length == SLOTS && first.Length == TYPES && last.Length == TYPES
      && Represents(View(), table)
    }

    constructor ()
      ensures Valid() && fresh(slots) && fresh(first) && fresh(last)
      ensures table == Start()
    {
      slots := new Slot[SLOTS](_ => Vacant);
      first := new int[TYPES](_ => -1);
      last := new int[TYPES](_ => -1);
      table := Start();
    }

    /** The first free slot, reserved. */
    method HdlGet() returns (handle: int)
      requires Valid()
      modifies slots
      ensures var s := LowestUnused(table.slots);
              && handle == (if s == SLOTS then NO_HANDLE else s)
              && slots[..] == if s == SLOTS then old(slots[..]) else old(slots[..])[s := Reserved]
    {
      handle := NO_HANDLE;
      ghost var ps := table.slots;
      var i := 0;
      while i < SLOTS && !slots[i].Vacant?
        invariant i <= SLOTS && LowestUnused(ps) == i + LowestUnused(ps[i..])
      {
        assert ps[i].Held? && ps[i..][1..] == ps[i + 1..];
        i := i + 1;
      }
      if i < SLOTS {
        assert ps[i].Unused?;
        slots[i] := Reserved;
        handle := i;
      }
    }

    /** The two callocs may fail: the slot is then given back. */
    method Alloc(kind: nat, ctx: Ctx, objOk: bool, headerOk: bool) returns (handle: int)
      requires Valid() && kind < TYPES
      modifies this, slots, first, last
      ensures Valid()
      ensures table == Allocated(old(table), kind, ctx, objOk && headerOk).0
      ensures handle == Allocated(old(table), kind, ctx, objOk && headerOk).1
    {
      ghost var m, t := View(), table;
      Sizes(t);
      LowestIsUnused(t);
      handle := HdlGet();
      hide Represents;
      hide LowestUnused;
      hide MemAdded;
      if handle < 0 {
        return;
      }
      if !objOk {
        GiveBack(handle, m);
        return NO_MEMORY;
      }
      if !headerOk {
        GiveBack(handle, m);
        return NO_MEMORY;
      }
      var h := Header(kind, -1, -1, ctx.owner, ctx.autoSetShare, ctx.user);
      AddedRepresents(m, t, handle, h);
      Chain(handle, h, m);
      table := Added(t, handle, Held(kind, ctx.owner, ctx.autoSetShare, ctx.user));
    }

    /** The header goes to the reserved slot, as the last of the chain of its type. */
    method Chain(handle: nat, h0: Header, ghost m: Mem)
      requires first != last && slots.Length == SLOTS && first.Length == last.Length == TYPES
      requires handle < SLOTS && h0.kind < TYPES && h0.next == h0.previous == -1
      requires |m.slots| == SLOTS && m.slots[handle].Vacant?
      requires View() == m.(slots := m.slots[handle := Reserved])
      requires var l := last[h0.kind]; l >= 0 ==> l < SLOTS && m.slots[l].Live?
      modifies slots, first, last
      ensures View() == MemAdded(m, handle, h0)
    {
      var h := h0;
      var l := last[h.kind];
      if l >= 0 {
        // at the end of the chain for the type
        h := h.(previous := l);
        slots[l] := Live(slots[l].h.(next := handle));
        last[h.kind] := handle;
      } else {
        first[h.kind] := handle;
        last[h.kind] := handle;
      }
      slots[handle] := Live(h);
      assert View() == MemAdded(m, handle, h0);
    }

    method GiveBack(handle: nat, ghost m: Mem)
      requires handle < slots.Length == SLOTS && m == Mem(m.slots, first[..], last[..])
      requires |m.slots| == SLOTS && slots[..] == m.slots[handle := Reserved] && m.slots[handle].Vacant?
      modifies slots
      ensures View() == m
    {
      slots[handle] := Vacant;
      assert slots[..] == m.slots;
    }

    method GetObj(handle: int, kind: nat) returns (status: int)
      requires Valid()
      ensures status == if Names(table, handle, kind) then OKAY else BAD_HANDLE
    {
      if handle < 0 || handle >= SLOTS {
        return BAD_HANDLE;
      }
      var s := slots[handle];
      assert Holds(s) == table.slots[handle];
      if !s.Live? || s.h.kind != kind {
        return BAD_HANDLE;
      }
      return OKAY;
    }

    method Free(handle: int, kind: nat) returns (status: int)
      requires Valid() && kind < TYPES
      modifies this, slots, first, last
      ensures Valid()
      ensures table == Apply(old(table), Op.Free(handle, kind)).0
      ensures status == Apply(old(table), Op.Free(handle, kind)).1
    {
      Sizes(table);
      status := GetObj(handle, kind);
      hide Removed;
      hide Consistent;
      hide Represents;
      if status == OKAY {
        RemovedRepresents(View(), table, handle, kind);
        hide MemRemoved;
        Unchain(handle, kind);
        table := Removed(table, {handle});
      }
    }

    /** The neighbours are linked to each other, and the slot is free. */
    method Unchain(handle: nat, kind: nat)
      requires first != last && slots.Length == SLOTS && first.Length == last.Length == TYPES
      requires handle < SLOTS && kind < TYPES && Removable(View(), handle, kind)
      modifies slots, first, last
      ensures View() == MemRemoved(old(View()), handle, kind)
    {
      var h := slots[handle].h;
      if h.previous >= 0 {
        // not first
        slots[h.previous] := Live(slots[h.previous].h.(next := h.next));
      } else {
        first[kind] := h.next;
      }
      if h.next >= 0 {
        // not last
        slots[h.next] := Live(slots[h.next].h.(previous := h.previous));
      } else {
        last[kind] := h.previous;
      }
      slots[handle] := Vacant;
    }

    /** The chain, of which the first `size` are stored, and its whole length. */
    method GetHandlesForType(kind: nat, handles: array<int>, size: int) returns (count: nat)
      requires Valid() && kind < TYPES && size <= handles.Length
      requires handles != first && handles != last
      modifies handles
      ensures Valid() && table == old(table)
      ensures var c := table.chains[kind];
              && count == |c|
              && (forall i :: 0 <= i < count && i < size ==> handles[i] == c[i])
              && forall i :: 0 <= i < handles.Length && (i >= count || i >= size) ==> handles[i] == old(handles[i])
    {
      count := 0;
      ghost var c := table.chains[kind];
      assert Linked(slots[..], first[kind], last[kind], c);
      var hdl := first[kind];
      while hdl >= 0
        invariant Valid() && table == old(table)
        invariant count <= |c| && hdl == At(c, count)
        invariant forall i :: 0 <= i < count && i < size ==> handles[i] == c[i]
        invariant forall i :: 0 <= i < handles.Length && (i >= count || i >= size) ==> handles[i] == old(handles[i])
        decreases |c| - count
      {
        assert LinkedAt(slots[..], c, count);
        if count < size {
          handles[count] := hdl;
        }
        count := count + 1;
        hdl := slots[hdl].h.next;
      }
    }

    method GetLockedObj(handle: int, kind: nat, ctx: Ctx) returns (status: int)
      requires Valid()
      ensures status == if !Names(table, handle, kind) then BAD_HANDLE
                        else if Permitted(table.slots[handle], ctx) then OKAY else NO_PERMISSIONS
    {
      status := GetObj(handle, kind);
      if status == OKAY {
        var h := slots[handle].h;
        assert Holds(slots[handle]) == table.slots[handle];
        if h.owner != ctx.owner && (h.share == 0 || h.share != ctx.autoUseShare || h.user != ctx.user) {
          status := NO_PERMISSIONS;
        }
      }
    }

    method SetShare(handle: int, share: int, ctx: Ctx) returns (status: int)
      requires Valid()
      modifies this, slots
      ensures Valid()
      ensures table == Shared(old(table), handle, share, ctx).0
      ensures status == Shared(old(table), handle, share, ctx).1
    {
      if handle < 0 || handle >= SLOTS {
        return BAD_HANDLE;
      }
      var s := slots[handle];
      assert Holds(s) == table.slots[handle];
      if !s.Live? {
        return BAD_HANDLE;
      }
      if s.h.owner != ctx.owner {
        return NO_PERMISSIONS;
      }
      ghost var m, t := View(), table;
      SharedRepresents(m, t, handle, share);
      slots[handle] := Live(s.h.(share := share));
      table := t.(slots := t.slots[handle := t.slots[handle].(share := share)]);
      assert View() == m.(slots := m.slots[handle := Live(s.h.(share := share))]);
      return OKAY;
    }

    /** Frees what the owner has and does not share, and nothing else; what remains keeps its order. */
    method PurgeByOwner(owner: int)
      requires Valid()
      modifies this, slots, first, last
      ensures Valid() && table == Removed(old(table), DoomedBelow(old(table).slots, owner, SLOTS))
    {
      ghost var t := table;
      Sizes(t);
      RemovedNothing(t);
      assert DoomedBelow(t.slots, owner, 0) == {};
      var i := 0;
      while i < SLOTS
        invariant Valid() && i <= SLOTS && table == Removed(t, DoomedBelow(t.slots, owner, i))
      {
        PurgeOne(i, owner, t);
        i := i + 1;
      }
    }

    method PurgeOne(i: nat, owner: int, ghost t: Table)
      requires Valid() && i < SLOTS && Consistent(t) && |t.slots| == SLOTS
      requires table == Removed(t, DoomedBelow(t.slots, owner, i))
      modifies this, slots, first, last
      ensures Valid() && table == Removed(t, DoomedBelow(t.slots, owner, i + 1))
    {
      hide Represents;
      hide Consistent;
      hide DoomedBelow;
      Known(View(), table, i);
      NextDoomed(t.slots, owner, i);
      var s := slots[i];
      if s.Live? && s.h.owner == owner && s.h.share == 0 {
        var _ := Free(i, s.h.kind);
        RemovedTwice(t, DoomedBelow(t.slots, owner, i), {i});
      }
    }
  }

  lemma Known(m: Mem, t: Table, s: nat)
    requires Represents(m, t) && s < SLOTS
    ensures |t.slots| == SLOTS && |t.chains| == TYPES && |m.slots| == SLOTS
    ensures !m.slots[s].Reserved? && Holds(m.slots[s]) == t.slots[s]
    ensures m.slots[s].Live? ==> m.slots[s].h.kind < TYPES
  {
  }

  lemma NextDoomed(slots: seq<Payload>, owner: int, i: nat)
    requires i < |slots|
    ensures i !in DoomedBelow(slots, owner, i)
    ensures DoomedBelow(slots, owner, i + 1) ==
            if Doomed(slots[i], owner) then DoomedBelow(slots, owner, i) + {i} else DoomedBelow(slots, owner, i)
  {
  }

  lemma RemovedNothing(t: Table)
    ensures Removed(t, {}) == t
  {
    forall k | 0 <= k < |t.chains|
      ensures Minus(t.chains[k], {}) == t.chains[k]
    {
      MinusNothing(t.chains[k], {});
    }
  }
}
