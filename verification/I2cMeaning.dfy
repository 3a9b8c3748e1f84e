/**
 What any bytes given to lgI2cZip mean: the commands they spell, and the segment each read or write
 among them stands for.
 */
module I2cMeaning {
  import opened I2cZip

  datatype Cmd = SetAddr(p: nat) | SetFlags(p: nat) | DoRead(n: nat) | DoWrite(data: seq<byte>)

  /** The commands from a position on, up to END, the end of the input, or the first that is malformed. */
  function Scan(buf: seq<byte>, pos: nat, esc: bool, signed: bool): seq<Cmd>
    decreases |buf| - pos
  {
    if pos >= |buf| then []
    else
      var c := buf[pos];
      var (n, q) := GetPar(buf, pos + 1, esc || c == FLAGS, signed);
      if c == ESC then Scan(buf, pos + 1, true, signed)
      else if n < 0 then []
      else if c == ADDR then [SetAddr(n)] + Scan(buf, q, false, signed)
      else if c == FLAGS then [SetFlags(n)] + Scan(buf, q, false, signed)
      else if c == READ then [DoRead(n)] + Scan(buf, q, false, signed)
      else if c == WRITE && q + n < |buf| then [DoWrite(buf[q..q + n])] + Scan(buf, q + n, false, signed)
      else []
  }

  /** What is wrong with the command at which the scan stops: 0 if it is END or there is none, a read or a
      write of no length or of more than there is, a missing parameter, or no command. */
  function Fault(buf: seq<byte>, pos: nat, esc: bool, signed: bool): int
    decreases |buf| - pos
  {
    if pos >= |buf| || buf[pos] == END then 0
    else
      var c := buf[pos];
      var (n, q) := GetPar(buf, pos + 1, esc || c == FLAGS, signed);
      if c == ESC then Fault(buf, pos + 1, true, signed)
      else if c == READ then (if n < 0 then BAD_I2C_RLEN else Fault(buf, q, false, signed))
      else if c == WRITE then (if n < 0 || q + n >= |buf| then BAD_I2C_WLEN else Fault(buf, q + n, false, signed))
      else if (c == ADDR || c == FLAGS) && n >= 0 then Fault(buf, q, false, signed)
      else BAD_I2C_CMD
  }

  /** The address in force at a command: the last one set before it, or the one of the call. */
  function AddrAt(cmds: seq<Cmd>, i: nat, addr: int): int
    requires i <= |cmds|
  {
    if i == 0 then addr else if cmds[i - 1].SetAddr? then cmds[i - 1].p else AddrAt(cmds, i - 1, addr)
  }

  /** And the flags: the last ones set before it, or none. */
  function FlagsAt(cmds: seq<Cmd>, i: nat): nat
    requires i <= |cmds|
  {
    if i == 0 then 0 else if cmds[i - 1].SetFlags? then cmds[i - 1].p else FlagsAt(cmds, i - 1)
  }

  /** How much is read before it. */
  function ReadAt(cmds: seq<Cmd>, i: nat): nat
    requires i <= |cmds|
  {
    if i == 0 then 0 else ReadAt(cmds, i - 1) + if cmds[i - 1].DoRead? then cmds[i - 1].n else 0
  }

  predicate Transfer(c: Cmd) { c.DoRead? || c.DoWrite? }

  /** The segment a read or a write stands for: its address, the other flags as they are, and the
      lowest flag, which the kernel takes as the direction, set for a read and clear for a write. */
  predicate Stands(cmds: seq<Cmd>, i: nat, addr: int, s: Seg)
    requires i < |cmds|
  {
    && s.addr == AddrAt(cmds, i, addr) && s.flags / 2 == FlagsAt(cmds, i) / 2
    && (cmds[i].DoRead? ==> s.ReadSeg? && s.flags % 2 == 1 && s.len == cmds[i].n && s.at == ReadAt(cmds, i))
    && (cmds[i].DoWrite? ==> s.WriteSeg? && s.flags % 2 == 0 && s.data == cmds[i].data)
  }

  /** The segments are those of the reads and writes among the first m commands, in order; `at` says
      which command each is of. */
  ghost predicate Spell(cmds: seq<Cmd>, m: nat, addr: int, segs: seq<Seg>, at: seq<nat>) {
    && m <= |cmds| && |at| == |segs|
    && (forall k :: 0 <= k < |at| ==> at[k] < m && Transfer(cmds[at[k]]) && Stands(cmds, at[k], addr, segs[k]))
    && (forall i, j :: 0 <= i < j < |at| ==> at[i] < at[j])
    && forall i :: 0 <= i < m && Transfer(cmds[i]) ==> i in at
  }

  lemma SpellMore(cmds: seq<Cmd>, m: nat, addr: int, segs: seq<Seg>, at: seq<nat>, s: Seg)
    requires Spell(cmds, m, addr, segs, at) && m < |cmds| && Transfer(cmds[m]) && Stands(cmds, m, addr, s)
    ensures Spell(cmds, m + 1, addr, segs + [s], at + [m])
  {
    hide Stands;
    var more, all := at + [m], segs + [s];
    forall k | 0 <= k < |more|
      ensures more[k] < m + 1 && Transfer(cmds[more[k]]) && Stands(cmds, more[k], addr, all[k])
    {
      if k < |at| {
        assert at[k] < m && more[k] == at[k] && all[k] == segs[k];
      }
    }
    forall i | 0 <= i < m + 1 && Transfer(cmds[i])
      ensures i in more
    {
      if i < m {
        assert i in at;
      } else {
        assert more[|at|] == i;
      }
    }
  }

  lemma SpellOn(cmds: seq<Cmd>, m: nat, addr: int, segs: seq<Seg>, at: seq<nat>)
    requires Spell(cmds, m, addr, segs, at) && m < |cmds| && !Transfer(cmds[m])
    ensures Spell(cmds, m + 1, addr, segs, at)
  {
    hide Stands;
  }

  /** Where the automaton is in the commands. */
  ghost predicate Tracks(buf: seq<byte>, signed: bool, z: Zip, cmds: seq<Cmd>, m: nat, addr: int,
                         fault: int) {
    && m <= |cmds| && cmds[m..] == Scan(buf, z.inPos, z.esc, signed) && fault == Fault(buf, z.inPos, z.esc, signed)
    && z.addr == AddrAt(cmds, m, addr) && z.flags == FlagsAt(cmds, m) && z.outPos == ReadAt(cmds, m)
  }

  /** The bus did not take the last batch. */
  predicate Refused(y: Zip, bus: Bus) { y.status == BAD_I2C_SEG && !bus(y.sent) }

  lemma EmitAdds(z: Zip, s: Seg, bus: Bus)
    ensures Abs(Emit(z, s, bus)).segs == Abs(z).segs + [s]
    ensures var y := Emit(z, s, bus);
            && y == z.(pend := y.pend, sent := y.sent, status := y.status)
            && (z.status == 0 ==> y.status == 0 || Refused(y, bus))
  {
    var p := z.pend + [s];
    if |p| >= MAX_MSGS {
      FlatLast(z.sent, p);
    }
    hide Flat;
  }

  /** The first command ahead, and the rest. */
  lemma Ahead(buf: seq<byte>, signed: bool, z: Zip, cmds: seq<Cmd>, m: nat, c: Cmd, rest: seq<Cmd>)
    requires m <= |cmds| && cmds[m..] == [c] + rest
    ensures m < |cmds| && cmds[m] == c && cmds[m + 1..] == rest
  {
    assert cmds[m..][0] == c && cmds[m..][1..] == rest;
  }

  /** Why an error stopped it, m commands having been obeyed. */
  predicate Why(y: Zip, cmds: seq<Cmd>, m: nat, outCount: int, bus: Bus, fault: int) {
    || Refused(y, bus)
    || (m < |cmds| && cmds[m].DoRead? && ReadAt(cmds, m) + cmds[m].n >= outCount && y.status == BAD_I2C_RLEN)
    || (m == |cmds| && y.status == fault)
  }

  /** What one step does to the commands obeyed. */
  ghost predicate Progress(buf: seq<byte>, signed: bool, y: Zip, cmds: seq<Cmd>, m: nat, addr: int, at: seq<nat>,
                           outCount: int, bus: Bus, fault: int) {
    && Spell(cmds, m, addr, Abs(y).segs, at) && y.status <= 1
    && (y.status == 0 ==> Tracks(buf, signed, y, cmds, m, addr, fault))
    && (y.status == 1 ==> m == |cmds| && fault == 0)
    && (y.status < 0 ==> Why(y, cmds, m, outCount, bus, fault))
  }

  lemma SetStep(buf: seq<byte>, outCount: int, signed: bool, bus: Bus, z: Zip, cmds: seq<Cmd>, m: nat, addr: int,
                at: seq<nat>, fault: int) returns (n: nat)
    requires z.status == 0 && z.inPos < |buf| && Tracks(buf, signed, z, cmds, m, addr, fault)
    requires Spell(cmds, m, addr, Abs(z).segs, at) && buf[z.inPos] != READ && buf[z.inPos] != WRITE
    ensures Progress(buf, signed, Step(buf, outCount, signed, bus, z), cmds, n, addr, at, outCount, bus, fault)
  {
    hide Spell;
    hide GetPar;
    n := m;
    var c := buf[z.inPos];
    var (p, q) := GetPar(buf, z.inPos + 1, z.esc || c == FLAGS, signed);
    if (c == ADDR || c == FLAGS) && p >= 0 {
      n := m + 1;
      Ahead(buf, signed, z, cmds, m, if c == ADDR then SetAddr(p) else SetFlags(p), Scan(buf, q, false, signed));
      SpellOn(cmds, m, addr, Abs(z).segs, at);
    }
  }

  lemma ReadingStep(buf: seq<byte>, outCount: int, signed: bool, bus: Bus, z: Zip, cmds: seq<Cmd>, m: nat, addr: int,
                    at: seq<nat>, fault: int) returns (n: nat, places: seq<nat>)
    requires z.status == 0 && z.inPos < |buf| && Tracks(buf, signed, z, cmds, m, addr, fault)
    requires Spell(cmds, m, addr, Abs(z).segs, at) && buf[z.inPos] == READ
    ensures Progress(buf, signed, Step(buf, outCount, signed, bus, z), cmds, n, addr, places, outCount, bus, fault)
  {
    hide Spell;
    hide GetPar;
    hide Emit;
    n, places := m, at;
    var (p, q) := GetPar(buf, z.inPos + 1, z.esc, signed);
    if p >= 0 && p + z.outPos < outCount {
      var s := ReadSeg(z.addr, WithReadBit(z.flags), p, z.outPos);
      Ahead(buf, signed, z, cmds, m, DoRead(p), Scan(buf, q, false, signed));
      SpellMore(cmds, m, addr, Abs(z).segs, at, s);
      EmitAdds(z.(inPos := q, outPos := z.outPos + p), s, bus);
      n, places := m + 1, at + [m];
    }
  }

  lemma WritingStep(buf: seq<byte>, outCount: int, signed: bool, bus: Bus, z: Zip, cmds: seq<Cmd>, m: nat, addr: int,
                    at: seq<nat>, fault: int) returns (n: nat, places: seq<nat>)
    requires z.status == 0 && z.inPos < |buf| && Tracks(buf, signed, z, cmds, m, addr, fault)
    requires Spell(cmds, m, addr, Abs(z).segs, at) && buf[z.inPos] == WRITE
    ensures Progress(buf, signed, Step(buf, outCount, signed, bus, z), cmds, n, addr, places, outCount, bus, fault)
  {
    hide Spell;
    hide GetPar;
    hide Emit;
    n, places := m, at;
    var (p, q) := GetPar(buf, z.inPos + 1, z.esc, signed);
    if p >= 0 && p + q < |buf| {
      var s := WriteSeg(z.addr, WithoutReadBit(z.flags), buf[q..q + p]);
      Ahead(buf, signed, z, cmds, m, DoWrite(buf[q..q + p]), Scan(buf, q + p, false, signed));
      SpellMore(cmds, m, addr, Abs(z).segs, at, s);
      EmitAdds(z.(inPos := q + p), s, bus);
      n, places := m + 1, at + [m];
    }
  }

  lemma {:induction false} RunSpells(buf: seq<byte>, outCount: int, signed: bool, bus: Bus, z: Zip, cmds: seq<Cmd>,
                                     m: nat, addr: int, at: seq<nat>, fault: int) returns (n: nat, places: seq<nat>)
    requires z.status == 0 && Tracks(buf, signed, z, cmds, m, addr, fault) && Spell(cmds, m, addr, Abs(z).segs, at)
    ensures var y := Run(buf, outCount, signed, bus, z);
            && Spell(cmds, n, addr, Abs(y).segs, places) && (y.status >= 0 ==> n == |cmds| && fault == 0)
            && (y.status < 0 ==> Why(y, cmds, n, outCount, bus, fault))
    decreases |buf| - z.inPos
  {
    hide Spell;
    hide Step;
    n, places := m, at;
    if z.inPos < |buf| {
      if buf[z.inPos] == READ {
        n, places := ReadingStep(buf, outCount, signed, bus, z, cmds, m, addr, at, fault);
      } else if buf[z.inPos] == WRITE {
        n, places := WritingStep(buf, outCount, signed, bus, z, cmds, m, addr, at, fault);
      } else {
        n := SetStep(buf, outCount, signed, bus, z, cmds, m, addr, at, fault);
      }
      var y := Step(buf, outCount, signed, bus, z);
      if y.status == 0 {
        n, places := RunSpells(buf, outCount, signed, bus, y, cmds, n, addr, places, fault);
      }
    }
  }

  /** Fewer segments are those of fewer commands. */
  lemma SpellFront(cmds: seq<Cmd>, m: nat, addr: int, segs: seq<Seg>, at: seq<nat>, n: nat)
    requires Spell(cmds, m, addr, segs, at) && n <= |segs|
    ensures Spell(cmds, if n == |segs| then m else at[n], addr, segs[..n], at[..n])
  {
    hide Stands;
    if n == |segs| {
      assert segs[..n] == segs && at[..n] == at;
    } else {
      forall i | 0 <= i < at[n] && Transfer(cmds[i])
        ensures i in at[..n]
      {
        var k :| 0 <= k < |at| && at[k] == i;
        assert k < n;
      }
    }
  }

  /** Whatever the bytes and whatever the bus does: of the commands the bytes spell the first n are
      obeyed, and the segments sent are those of the reads and writes among the first m of these, in
      order, each with the address and flags in force, the direction flag set for a read and clear for
      a write. If the answer is no error, that is all of them and the bytes are well formed; an error
      says why not. */
  lemma AnyInputMeans(buf: seq<byte>, outCount: int, addr: int, signed: bool, bus: Bus)
    returns (n: nat, m: nat, at: seq<nat>)
    ensures var y := Decode(buf, outCount, addr, signed, bus);
            var cmds, fault := Scan(buf, 0, false, signed), Fault(buf, 0, false, signed);
            && Spell(cmds, m, addr, Flat(y.sent), at) && m <= n <= |cmds|
            && (y.status >= 0 ==> m == n == |cmds| && fault == 0)
            && (y.status < 0 ==> Why(y, cmds, n, outCount, bus, fault))
  {
    var cmds, fault := Scan(buf, 0, false, signed), Fault(buf, 0, false, signed);
    assert cmds[0..] == cmds && Flat([]) == [] && [] + [] == Abs(Begin(addr)).segs;
    assert Spell(cmds, 0, addr, Abs(Begin(addr)).segs, []);
    n, at := RunSpells(buf, outCount, signed, bus, Begin(addr), cmds, 0, addr, [], fault);
    m := n;
    var z := Run(buf, outCount, signed, bus, Begin(addr));
    FlatLast(z.sent, z.pend);
    SpellBounds(cmds, n, addr, Abs(z).segs, at);
    hide Spell;
    hide Flat;
    hide Run;
    hide Why;
    if z.status < 0 {
      var k := |Flat(z.sent)|;
      assert Abs(z).segs[..k] == Flat(z.sent);
      SpellFront(cmds, n, addr, Abs(z).segs, at, k);
      m, at := if k == |Abs(z).segs| then n else at[k], at[..k];
    } else if z.pend == [] {
      assert Abs(z).segs == Flat(z.sent);
    } else {
      EndRefused(z, cmds, n, outCount, bus, fault);
    }
  }

  lemma SpellBounds(cmds: seq<Cmd>, m: nat, addr: int, segs: seq<Seg>, at: seq<nat>)
    requires Spell(cmds, m, addr, segs, at)
    ensures m <= |cmds| && |at| == |segs| && forall k :: 0 <= k < |at| ==> at[k] <= m
  {
    hide Stands;
  }

  lemma EndRefused(z: Zip, cmds: seq<Cmd>, n: nat, outCount: int, bus: Bus, fault: int)
    requires z.status >= 0 && z.pend != []
    ensures var y := Finish(z, bus); y.status < 0 ==> Why(y, cmds, n, outCount, bus, fault)
  {
  }
}
