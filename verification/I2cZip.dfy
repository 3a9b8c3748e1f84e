/**
 lgI2cZip of lgpio/lgI2C.c: a byte automaton that turns a command string into I2C segments, sent
 in batches. What it does to an encoded list of operations is what the list means.
 */
module I2cZip {
  type byte = x: int | 0 <= x < 256

  const BAD_POINTER: int := -49
  const BAD_I2C_SEG: int := -53
  const BAD_I2C_WLEN: int := -55
  const BAD_I2C_RLEN: int := -56
  const BAD_I2C_CMD: int := -57

  const MAX_MSGS: nat := 42

  const END: byte := 0
  const ESC: byte := 1
  const ADDR: byte := 2
  const FLAGS: byte := 3
  const READ: byte := 4
  const WRITE: byte := 5

  /** A read goes to the output buffer from position at; a write carries its bytes. */
  datatype Seg = ReadSeg(addr: int, flags: int, len: nat, at: nat) | WriteSeg(addr: int, flags: int, data: seq<byte>)

  /** Whether the bus takes the last of the batches sent. */
  type Bus = seq<seq<Seg>> -> bool

  function WithReadBit(flags: int): int { flags - flags % 2 + 1 }

  function WithoutReadBit(flags: int): int { flags - flags % 2 }

  // ----------------------------------------------------------------------- the automaton

  /** A char is signed on some machines and not on others. */
  function Char(b: byte, signed: bool): int { if signed && b >= 128 then b - 256 else b }

  /** xI2cGetPar: the parameter or -1, and the position after it. */
  function GetPar(buf: seq<byte>, pos: nat, esc: bool, signed: bool): (int, nat) {
    if esc then
      if pos + 2 <= |buf| then (Char(buf[pos], signed) + Char(buf[pos + 1], signed) * 256, pos + 2) else (-1, pos)
    else if pos + 1 <= |buf| then (Char(buf[pos], signed), pos + 1)
    else (-1, pos)
  }

  datatype Zip = Zip(inPos: nat, outPos: nat, addr: int, flags: int, esc: bool, pend: seq<Seg>, sent: seq<seq<Seg>>,
                     status: int)

  /** The segment joins the batch, and a full batch is sent. */
  function Emit(z: Zip, s: Seg, bus: Bus): Zip {
    var p := z.pend + [s];
    if |p| < MAX_MSGS then z.(pend := p)
    else z.(pend := [], sent := z.sent + [p], status := if bus(z.sent + [p]) then 0 else BAD_I2C_SEG)
  }

  /** The command at the position, with the escape that stood before it. */
  function Command(buf: seq<byte>, outCount: int, signed: bool, bus: Bus, z: Zip): Zip
    requires z.inPos < |buf|
  {
    var c := buf[z.inPos];
    var y := z.(inPos := z.inPos + 1);
    if c == END then y.(status := 1)
    else if c == ADDR then
      var (p, pos) := GetPar(buf, y.inPos, z.esc, signed);
      y.(inPos := pos, addr := p, status := if p < 0 then BAD_I2C_CMD else 0)
    else if c == FLAGS then
      var (p, pos) := GetPar(buf, y.inPos, true, signed);
      y.(inPos := pos, flags := p, status := if p < 0 then BAD_I2C_CMD else 0)
    else if c == ESC then y
    else if c == READ then
      var (n, pos) := GetPar(buf, y.inPos, z.esc, signed);
      if n >= 0 && n + z.outPos < outCount then
        Emit(y.(inPos := pos, outPos := z.outPos + n), ReadSeg(z.addr, WithReadBit(z.flags), n, z.outPos), bus)
      else y.(inPos := pos, status := BAD_I2C_RLEN)
    else if c == WRITE then
      var (n, pos) := GetPar(buf, y.inPos, z.esc, signed);
      if n >= 0 && n + pos < |buf| then
        Emit(y.(inPos := pos + n), WriteSeg(z.addr, WithoutReadBit(z.flags), buf[pos..pos + n]), bus)
      else y.(inPos := pos, status := BAD_I2C_WLEN)
    else y.(status := BAD_I2C_CMD)
  }

  function Step(buf: seq<byte>, outCount: int, signed: bool, bus: Bus, z: Zip): (y: Zip)
    requires z.inPos < |buf|
    ensures y.inPos > z.inPos
  {
    Command(buf, outCount, signed, bus, z).(esc := buf[z.inPos] == ESC)
  }

  function Run(buf: seq<byte>, outCount: int, signed: bool, bus: Bus, z: Zip): Zip
    decreases |buf| - z.inPos
  {
    if z.status == 0 && z.inPos < |buf| then Run(buf, outCount, signed, bus, Step(buf, outCount, signed, bus, z)) else z
  }

  /** What is left is sent, and the answer is the number of bytes read. */
  function Finish(z: Zip, bus: Bus): Zip {
    if z.status < 0 then z
    else if z.pend == [] then z.(status := z.outPos)
    else
      var sent := z.sent + [z.pend];
      z.(pend := [], sent := sent, status := if bus(sent) then z.outPos else BAD_I2C_SEG)
  }

  function Begin(addr: int): Zip { Zip(0, 0, addr, 0, false, [], [], 0) }

  function Decode(buf: seq<byte>, outCount: int, addr: int, signed: bool, bus: Bus): Zip {
    Finish(Run(buf, outCount, signed, bus, Begin(addr)), bus)
  }

  // -------------------------------------------------------------------------- operations

  /** wide: the parameter is written in two bytes. */
  datatype Op = Address(p: nat, wide: bool) | Flags(f: nat) | Read(n: nat, wide: bool) | Write(data: seq<byte>, wide: bool)

  predicate FitsPar(n: nat, wide: bool) { n < 0x1_0000 && (!wide ==> n < 256) }

  predicate Encodable(o: Op) {
    match o
    case Address(p, wide) => FitsPar(p, wide)
    case Flags(f) => FitsPar(f, true)
    case Read(n, wide) => FitsPar(n, wide)
    case Write(data, wide) => FitsPar(|data|, wide)
  }

  function Par(n: nat, wide: bool): seq<byte>
    requires FitsPar(n, wide)
  {
    if wide then [n % 256, n / 256] else [n]
  }

  function Opened(wide: bool): seq<byte> { if wide then [ESC] else [] }

  /** As documented for lgI2cZip. */
  function Encode(o: Op): seq<byte>
    requires Encodable(o)
  {
    match o
    case Address(p, wide) => Opened(wide) + [ADDR] + Par(p, wide)
    case Flags(f) => [FLAGS] + Par(f, true)
    case Read(n, wide) => Opened(wide) + [READ] + Par(n, wide)
    case Write(data, wide) => Opened(wide) + [WRITE] + Par(|data|, wide) + data
  }

  /** The address and flags in force, the bytes read so far, the segments so far. */
  datatype Dev = Dev(addr: int, flags: int, outPos: nat, segs: seq<Seg>)

  function Do(d: Dev, o: Op): Dev {
    match o
    case Address(p, _) => d.(addr := p)
    case Flags(f) => d.(flags := f)
    case Read(n, _) => d.(outPos := d.outPos + n, segs := d.segs + [ReadSeg(d.addr, WithReadBit(d.flags), n, d.outPos)])
    case Write(data, _) => d.(segs := d.segs + [WriteSeg(d.addr, WithoutReadBit(d.flags), data)])
  }

  function DoAll(d: Dev, ops: seq<Op>): Dev
    decreases |ops|
  {
    if ops == [] then d else DoAll(Do(d, ops[0]), ops[1..])
  }

  ghost predicate AllEncodable(ops: seq<Op>) { forall i :: 0 <= i < |ops| ==> Encodable(ops[i]) }

  ghost function EncodeAll(ops: seq<Op>): seq<byte>
    requires AllEncodable(ops)
  {
    if ops == [] then [] else Encode(ops[0]) + EncodeAll(ops[1..])
  }

  function Flat(batches: seq<seq<Seg>>): seq<Seg> {
    if batches == [] then [] else Flat(batches[..|batches| - 1]) + batches[|batches| - 1]
  }

  function Abs(z: Zip): Dev { Dev(z.addr, z.flags, z.outPos, Flat(z.sent) + z.pend) }

  // -------------------------------------------------------------------------- parameters

  /** What a char can hold. */
  predicate PlainPar(n: nat, wide: bool, signed: bool) {
    !signed || (n % 256 < 128 && n / 256 < 128)
  }

  /** A parameter is read back exactly when chars are unsigned or none of its bytes has its top bit. */
  lemma ParIsRead(buf: seq<byte>, pos: nat, n: nat, wide: bool, signed: bool)
    requires FitsPar(n, wide) && pos + |Par(n, wide)| <= |buf| && buf[pos..pos + |Par(n, wide)|] == Par(n, wide)
    ensures GetPar(buf, pos, wide, signed).1 == pos + |Par(n, wide)|
    ensures GetPar(buf, pos, wide, signed).0 == n <==> PlainPar(n, wide, signed)
    ensures n - GetPar(buf, pos, wide, signed).0 ==
            (if signed && n % 256 >= 128 then 256 else 0) + (if signed && n >= 0x8000 then 0x1_0000 else 0)
  {
    var s := buf[pos..pos + |Par(n, wide)|];
    assert s[0] == buf[pos];
    if wide {
      assert s[1] == buf[pos + 1];
    }
  }

  predicate PlainOp(o: Op, signed: bool) {
    match o
    case Address(p, wide) => PlainPar(p, wide, signed)
    case Flags(f) => PlainPar(f, true, signed)
    case Read(n, wide) => PlainPar(n, wide, signed)
    case Write(data, wide) => PlainPar(|data|, wide, signed)
  }

  // ------------------------------------------------------------------------- one operation

  function WideOf(o: Op): bool { if o.Flags? then false else o.wide }

  /** The encoding without its escape. */
  function Bare(o: Op): seq<byte>
    requires Encodable(o)
  {
    match o
    case Address(p, wide) => [ADDR] + Par(p, wide)
    case Flags(f) => [FLAGS] + Par(f, true)
    case Read(n, wide) => [READ] + Par(n, wide)
    case Write(data, wide) => [WRITE] + Par(|data|, wide) + data
  }

  predicate At(buf: seq<byte>, pos: nat, s: seq<byte>) { pos + |s| <= |buf| && buf[pos..pos + |s|] == s }

  lemma AtParts(buf: seq<byte>, pos: nat, a: seq<byte>, b: seq<byte>)
    requires At(buf, pos, a + b)
    ensures At(buf, pos, a) && At(buf, pos + |a|, b)
  {
    var s := buf[pos..pos + |a + b|];
    assert s[..|a|] == a && s[|a|..] == b;
    assert buf[pos..pos + |a|] == s[..|a|];
    assert buf[pos + |a|..pos + |a| + |b|] == s[|a|..];
  }

  /** Batches are full but for the one being gathered. */
  ghost predicate Batched(z: Zip) {
    |z.pend| < MAX_MSGS && forall i :: 0 <= i < |z.sent| ==> |z.sent[i]| == MAX_MSGS
  }

  lemma Emitted(z: Zip, s: Seg, bus: Bus)
    requires Batched(z) && z.status == 0 && forall b :: bus(b)
    ensures var y := Emit(z, s, bus);
            Batched(y) && y.status == 0 && y == z.(pend := y.pend, sent := y.sent)
            && Abs(y) == Abs(z).(segs := Abs(z).segs + [s])
  {
    var p := z.pend + [s];
    if |p| >= MAX_MSGS {
      var t := z.sent + [p];
      assert t[..|t| - 1] == z.sent;
      assert Flat(t) == Flat(z.sent) + p;
    }
  }

  lemma EncodedIs(o: Op)
    requires Encodable(o)
    ensures Encode(o) == Opened(WideOf(o)) + Bare(o)
  {
    hide Par;
  }

  /** The escape makes the next parameter wide. */
  lemma Escaped(buf: seq<byte>, outCount: int, signed: bool, bus: Bus, z: Zip, o: Op) returns (y: Zip)
    requires Encodable(o) && At(buf, z.inPos, Encode(o)) && z.status == 0 && !z.esc
    ensures Run(buf, outCount, signed, bus, z) == Run(buf, outCount, signed, bus, y)
    ensures At(buf, y.inPos, Bare(o)) && y == z.(inPos := y.inPos, esc := WideOf(o))
    ensures y.inPos + |Bare(o)| == z.inPos + |Encode(o)|
  {
    hide Encode;
    hide Bare;
    EncodedIs(o);
    AtParts(buf, z.inPos, Opened(WideOf(o)), Bare(o));
    y := z;
    if WideOf(o) {
      assert buf[z.inPos..z.inPos + 1][0] == buf[z.inPos];
      y := Step(buf, outCount, signed, bus, z);
    }
  }

  /** The command code and its parameter. */
  lemma Coded(buf: seq<byte>, pos: nat, c: byte, n: nat, wide: bool, rest: seq<byte>, signed: bool)
    requires FitsPar(n, wide) && PlainPar(n, wide, signed) && At(buf, pos, [c] + Par(n, wide) + rest)
    ensures buf[pos] == c && GetPar(buf, pos + 1, wide, signed) == (n, pos + 1 + |Par(n, wide)|)
    ensures At(buf, pos + 1 + |Par(n, wide)|, rest)
  {
    AtParts(buf, pos, [c] + Par(n, wide), rest);
    AtParts(buf, pos, [c], Par(n, wide));
    assert buf[pos..pos + 1][0] == buf[pos];
    ParIsRead(buf, pos + 1, n, wide, signed);
  }

  predicate TooMuch(o: Op, outPos: nat, outCount: int) { o.Read? && outPos + o.n >= outCount }

  lemma Sets(buf: seq<byte>, outCount: int, signed: bool, bus: Bus, z: Zip, o: Op)
    requires Encodable(o) && PlainOp(o, signed) && At(buf, z.inPos, Bare(o)) && z.status == 0 && z.esc == WideOf(o)
    requires Batched(z) && forall b :: bus(b)
    requires o.Address? || o.Flags?
    ensures var y := Step(buf, outCount, signed, bus, z);
            if TooMuch(o, z.outPos, outCount) then y.status == BAD_I2C_RLEN
            else && y.inPos == z.inPos + |Bare(o)| && y.status == 0 && !y.esc && Batched(y)
                 && Abs(y) == Do(Abs(z), o)
  {
    hide At;
    hide GetPar;
    hide PlainPar;
    if o.Address? {
      assert Bare(o) == [ADDR] + Par(o.p, o.wide) + [];
      Coded(buf, z.inPos, ADDR, o.p, o.wide, [], signed);
    } else {
      assert Bare(o) == [FLAGS] + Par(o.f, true) + [];
      Coded(buf, z.inPos, FLAGS, o.f, true, [], signed);
    }
  }

  lemma ReadStep(buf: seq<byte>, outCount: int, signed: bool, bus: Bus, z: Zip, n: nat, pos: nat)
    requires z.inPos < |buf| && buf[z.inPos] == READ && GetPar(buf, z.inPos + 1, z.esc, signed) == (n, pos)
    ensures var y := Step(buf, outCount, signed, bus, z);
            if z.outPos + n >= outCount then y.status == BAD_I2C_RLEN
            else y == Emit(z.(inPos := pos, outPos := z.outPos + n),
                           ReadSeg(z.addr, WithReadBit(z.flags), n, z.outPos), bus).(esc := false)
  {
    hide GetPar;
    hide Emit;
  }

  lemma Reads(buf: seq<byte>, outCount: int, signed: bool, bus: Bus, z: Zip, o: Op)
    requires Encodable(o) && PlainOp(o, signed) && At(buf, z.inPos, Bare(o)) && z.status == 0 && z.esc == WideOf(o)
    requires Batched(z) && forall b :: bus(b)
    requires o.Read?
    ensures var y := Step(buf, outCount, signed, bus, z);
            if TooMuch(o, z.outPos, outCount) then y.status == BAD_I2C_RLEN
            else && y.inPos == z.inPos + |Bare(o)| && y.status == 0 && !y.esc && Batched(y)
                 && Abs(y) == Do(Abs(z), o)
  {
    hide At;
    hide GetPar;
    hide PlainPar;
    hide Emit;
    hide Flat;
    hide Step;
    assert Bare(o) == [READ] + Par(o.n, o.wide) + [];
    hide Par;
    Coded(buf, z.inPos, READ, o.n, o.wide, [], signed);
    ReadStep(buf, outCount, signed, bus, z, o.n, z.inPos + |Bare(o)|);
    var y := z.(inPos := z.inPos + |Bare(o)|, outPos := z.outPos + o.n);
    Emitted(y, ReadSeg(z.addr, WithReadBit(z.flags), o.n, z.outPos), bus);
  }

  lemma Writes(buf: seq<byte>, outCount: int, signed: bool, bus: Bus, z: Zip, o: Op)
    requires Encodable(o) && PlainOp(o, signed) && At(buf, z.inPos, Bare(o)) && z.status == 0 && z.esc == WideOf(o)
    requires Batched(z) && forall b :: bus(b)
    requires o.Write? && z.inPos + |Bare(o)| < |buf|
    ensures var y := Step(buf, outCount, signed, bus, z);
            if TooMuch(o, z.outPos, outCount) then y.status == BAD_I2C_RLEN
            else && y.inPos == z.inPos + |Bare(o)| && y.status == 0 && !y.esc && Batched(y)
                 && Abs(y) == Do(Abs(z), o)
  {
    hide GetPar;
    hide PlainPar;
    hide Emit;
    hide Flat;
    hide Par;
    hide At;
    Coded(buf, z.inPos, WRITE, |o.data|, o.wide, o.data, signed);
    var y := z.(inPos := z.inPos + |Bare(o)|);
    Emitted(y, WriteSeg(z.addr, WithoutReadBit(z.flags), o.data), bus);
  }

  lemma CommandDoes(buf: seq<byte>, outCount: int, signed: bool, bus: Bus, z: Zip, o: Op)
    requires Encodable(o) && PlainOp(o, signed) && At(buf, z.inPos, Bare(o)) && z.status == 0 && z.esc == WideOf(o)
    requires Batched(z) && forall b :: bus(b)
    requires o.Write? ==> z.inPos + |Bare(o)| < |buf|
    ensures var y := Step(buf, outCount, signed, bus, z);
            if TooMuch(o, z.outPos, outCount) then y.status == BAD_I2C_RLEN
            else && y.inPos == z.inPos + |Bare(o)| && y.status == 0 && !y.esc && Batched(y)
                 && Abs(y) == Do(Abs(z), o)
  {
    hide At;
    hide Bare;
    hide Step;
    hide Batched;
    hide Abs;
    if o.Read? {
      Reads(buf, outCount, signed, bus, z, o);
    } else if o.Write? {
      Writes(buf, outCount, signed, bus, z, o);
    } else {
      Sets(buf, outCount, signed, bus, z, o);
    }
  }

  /** An operation at the position is done, and the automaton is ready for the next; or it was a
      read that does not leave a byte of the output buffer over. */
  lemma OpDoes(buf: seq<byte>, outCount: int, signed: bool, bus: Bus, z: Zip, o: Op) returns (y: Zip)
    requires Encodable(o) && PlainOp(o, signed) && At(buf, z.inPos, Encode(o)) && Ready(z)
    requires forall b :: bus(b)
    requires o.Write? ==> z.inPos + |Encode(o)| < |buf|
    ensures Run(buf, outCount, signed, bus, z) == Run(buf, outCount, signed, bus, y)
    ensures TooMuch(o, z.outPos, outCount) ==> y.status == BAD_I2C_RLEN
    ensures !TooMuch(o, z.outPos, outCount) ==>
              y.inPos == z.inPos + |Encode(o)| && Ready(y) && Abs(y) == Do(Abs(z), o)
  {
    var x := Escaped(buf, outCount, signed, bus, z, o);
    assert Batched(x) && Abs(x) == Abs(z);
    NotBare(o);
    hide Encode;
    hide Bare;
    hide Step;
    CommandDoes(buf, outCount, signed, bus, x, o);
    y := Step(buf, outCount, signed, bus, x);
  }

  lemma NotBare(o: Op)
    requires Encodable(o)
    ensures |Bare(o)| > 0
  {
  }

  ghost predicate Ready(z: Zip) { z.status == 0 && !z.esc && Batched(z) }

  function TotalRead(ops: seq<Op>): nat
    decreases |ops|
  {
    if ops == [] then 0 else (if ops[0].Read? then ops[0].n else 0) + TotalRead(ops[1..])
  }

  predicate Reading(ops: seq<Op>) { exists i :: 0 <= i < |ops| && ops[i].Read? }

  /** There is room for all the reads, and one byte more. */
  predicate Room(ops: seq<Op>, outPos: nat, outCount: int) { Reading(ops) ==> outPos + TotalRead(ops) < outCount }

  lemma {:induction false} NoReads(ops: seq<Op>)
    requires !Reading(ops)
    ensures TotalRead(ops) == 0
    decreases |ops|
  {
    if ops != [] {
      ReadingCons(ops);
      assert !ops[0].Read?;
      NoReads(ops[1..]);
    }
  }

  lemma ReadingCons(ops: seq<Op>)
    requires ops != []
    ensures Reading(ops) <==> ops[0].Read? || Reading(ops[1..])
  {
    if Reading(ops) {
      var i :| 0 <= i < |ops| && ops[i].Read?;
      assert i > 0 ==> ops[1..][i - 1].Read?;
    }
    if Reading(ops[1..]) {
      var i :| 0 <= i < |ops[1..]| && ops[1..][i].Read?;
      assert ops[i + 1].Read?;
    }
  }

  lemma RoomCons(ops: seq<Op>, outPos: nat, outCount: int)
    requires ops != []
    ensures Room(ops, outPos, outCount) <==>
            !TooMuch(ops[0], outPos, outCount)
            && Room(ops[1..], outPos + (if ops[0].Read? then ops[0].n else 0), outCount)
  {
    ReadingCons(ops);
    hide Reading;
    if !Reading(ops[1..]) {
      NoReads(ops[1..]);
    }
  }

  /** Every operation can be encoded, and in chars this machine can read back. */
  ghost predicate Legible(ops: seq<Op>, signed: bool) {
    AllEncodable(ops) && forall i :: 0 <= i < |ops| ==> PlainOp(ops[i], signed)
  }

  /** No write stands at the very end. */
  ghost predicate Closed(ops: seq<Op>, tail: seq<byte>) { ops != [] && ops[|ops| - 1].Write? ==> tail != [] }

  lemma LegibleCons(ops: seq<Op>, signed: bool)
    requires Legible(ops, signed)
    ensures AllEncodable(ops)
    ensures ops != [] ==> Encodable(ops[0]) && PlainOp(ops[0], signed) && Legible(ops[1..], signed)
  {
  }

  lemma SplitAt(buf: seq<byte>, pos: nat, a: seq<byte>, b: seq<byte>)
    requires pos <= |buf| && buf[pos..] == a + b
    ensures At(buf, pos, a) && buf[pos + |a|..] == b
  {
    var s := buf[pos..];
    assert s[..|a|] == a && s[|a|..] == b;
    assert buf[pos..pos + |a|] == s[..|a|];
    assert buf[pos + |a|..] == s[|a|..];
  }

  lemma SomeEncoded(ops: seq<Op>)
    requires ops != [] && AllEncodable(ops)
    ensures EncodeAll(ops) != []
  {
    EncodedIs(ops[0]);
    NotBare(ops[0]);
  }

  lemma HeadAt(buf: seq<byte>, pos: nat, ops: seq<Op>, tail: seq<byte>)
    requires ops != [] && AllEncodable(ops) && pos <= |buf| && buf[pos..] == EncodeAll(ops) + tail
    requires Closed(ops, tail)
    ensures AllEncodable(ops[1..]) && Encodable(ops[0]) && At(buf, pos, Encode(ops[0]))
    ensures buf[pos + |Encode(ops[0])|..] == EncodeAll(ops[1..]) + tail && Closed(ops[1..], tail)
    ensures ops[0].Write? ==> pos + |Encode(ops[0])| < |buf|
  {
    hide Encode;
    hide At;
    hide Encodable;
    var e := Encode(ops[0]);
    assert EncodeAll(ops) + tail == e + (EncodeAll(ops[1..]) + tail);
    SplitAt(buf, pos, e, EncodeAll(ops[1..]) + tail);
    assert At(buf, pos, e) ==> pos + |e| <= |buf| by {
      AtFits(buf, pos, e);
    }
    if ops[1..] != [] {
      SomeEncoded(ops[1..]);
    }
  }

  lemma AtFits(buf: seq<byte>, pos: nat, s: seq<byte>)
    ensures At(buf, pos, s) ==> pos + |s| <= |buf|
  {
  }

  /** The whole encoding is run through: the automaton is at its end, having done what the
      operations say, or it has stopped because they read too much. */
  lemma {:induction false} OpsDo(buf: seq<byte>, outCount: int, signed: bool, bus: Bus, z: Zip, ops: seq<Op>,
                                 tail: seq<byte>)
    returns (y: Zip)
    requires Legible(ops, signed) && forall b :: bus(b)
    requires z.inPos <= |buf| && buf[z.inPos..] == EncodeAll(ops) + tail && Ready(z) && Closed(ops, tail)
    ensures Run(buf, outCount, signed, bus, z) == Run(buf, outCount, signed, bus, y)
    ensures !Room(ops, z.outPos, outCount) ==> y.status == BAD_I2C_RLEN
    ensures Room(ops, z.outPos, outCount) ==>
              y.inPos <= |buf| && buf[y.inPos..] == tail && Ready(y) && Abs(y) == DoAll(Abs(z), ops)
    decreases |ops|
  {
    y := z;
    if ops != [] {
      var o := ops[0];
      hide Legible;
      hide Closed;
      hide AllEncodable;
      hide EncodeAll;
      hide Encode;
      hide PlainOp;
      hide Encodable;
      hide Ready;
      hide Abs;
      hide Do;
      hide At;
      hide TooMuch;
      hide Run;
      hide Room;
      LegibleCons(ops, signed);
      RoomCons(ops, z.outPos, outCount);
      HeadAt(buf, z.inPos, ops, tail);
      y := OpDoes(buf, outCount, signed, bus, z, o);
      if !TooMuch(o, z.outPos, outCount) {
        OutPosAfter(z, y, o);
        AtFits(buf, z.inPos, Encode(o));
        y := OpsDo(buf, outCount, signed, bus, y, ops[1..], tail);
      }
    }
  }

  lemma OutPosAfter(z: Zip, y: Zip, o: Op)
    requires Abs(y) == Do(Abs(z), o)
    ensures y.outPos == z.outPos + if o.Read? then o.n else 0
  {
  }

  // --------------------------------------------------------------------------- round trips

  /** One batch after another, each of 1 to 42 segments and all but the last full. */
  ghost predicate Batches(sent: seq<seq<Seg>>) {
    forall i :: 0 <= i < |sent| ==> 1 <= |sent[i]| <= MAX_MSGS && (i < |sent| - 1 ==> |sent[i]| == MAX_MSGS)
  }

  lemma Finished(z: Zip, bus: Bus)
    requires Batched(z) && z.status >= 0 && forall b :: bus(b)
    ensures var y := Finish(z, bus); y.status == z.outPos && Flat(y.sent) == Abs(z).segs && Batches(y.sent)
  {
    if z.pend != [] {
      var t := z.sent + [z.pend];
      assert t[..|t| - 1] == z.sent;
      assert Flat(t) == Flat(z.sent) + z.pend;
    }
  }

  lemma {:induction false} ReadSoFar(d: Dev, ops: seq<Op>)
    ensures DoAll(d, ops).outPos == d.outPos + TotalRead(ops)
    decreases |ops|
  {
    if ops != [] {
      ReadSoFar(Do(d, ops[0]), ops[1..]);
    }
  }

  function Fresh(addr: int): Dev { Dev(addr, 0, 0, []) }

  /** The round trip: with a bus that takes every batch, decoding what encodes a list of operations,
      closed by END and whatever comes after it, sends exactly the segments the list means, in order
      and in batches, and answers the number of bytes read. It does so exactly when the reads, if
      any, leave a byte of the output buffer over; otherwise the answer is the read length error. */
  lemma RoundTrip(ops: seq<Op>, rest: seq<byte>, outCount: int, addr: int, signed: bool, bus: Bus)
    requires Legible(ops, signed) && AllEncodable(ops) && forall b :: bus(b)
    ensures var y := Decode(EncodeAll(ops) + ([END] + rest), outCount, addr, signed, bus);
            if Room(ops, 0, outCount)
            then y.status == TotalRead(ops) && Flat(y.sent) == DoAll(Fresh(addr), ops).segs && Batches(y.sent)
            else y.status == BAD_I2C_RLEN
  {
    var buf := EncodeAll(ops) + ([END] + rest);
    var z := Begin(addr);
    assert buf[z.inPos..] == buf;
    assert Flat([]) == [] && Abs(z) == Fresh(addr);
    var y := OpsDo(buf, outCount, signed, bus, z, ops, [END] + rest);
    if Room(ops, 0, outCount) {
      assert buf[y.inPos..][0] == END;
      var x := Step(buf, outCount, signed, bus, y);
      assert x == y.(inPos := x.inPos, status := 1);
      assert Run(buf, outCount, signed, bus, y) == x;
      Finished(x, bus);
      ReadSoFar(Fresh(addr), ops);
    }
  }

  lemma {:induction false} EncodeLast(ops: seq<Op>, o: Op)
    requires AllEncodable(ops) && Encodable(o)
    ensures AllEncodable(ops + [o]) && EncodeAll(ops + [o]) == EncodeAll(ops) + Encode(o)
    decreases |ops|
  {
    hide Encode;
    hide Encodable;
    var all := ops + [o];
    if ops == [] {
      assert all[1..] == [];
    } else {
      assert all[1..] == ops[1..] + [o];
      EncodeLast(ops[1..], o);
    }
  }

  /** A list is understood without its END, except where a write comes last: then the write is
      refused, complete though it is. */
  lemma WithoutEnd(ops: seq<Op>, outCount: int, addr: int, signed: bool, bus: Bus)
    requires Legible(ops, signed) && AllEncodable(ops) && (forall b :: bus(b)) && ops != []
    ensures var y := Decode(EncodeAll(ops), outCount, addr, signed, bus);
            if !Room(ops, 0, outCount) then y.status == BAD_I2C_RLEN
            else if ops[|ops| - 1].Write? then y.status == BAD_I2C_WLEN
            else y.status == TotalRead(ops) && Flat(y.sent) == DoAll(Fresh(addr), ops).segs && Batches(y.sent)
  {
    hide Legible;
    hide Decode;
    hide Room;
    hide EncodeAll;
    if ops[|ops| - 1].Write? {
      WriteAtEnd(ops, outCount, addr, signed, bus);
    } else {
      NoWriteAtEnd(ops, outCount, addr, signed, bus);
    }
  }

  lemma NoWriteAtEnd(ops: seq<Op>, outCount: int, addr: int, signed: bool, bus: Bus)
    requires Legible(ops, signed) && AllEncodable(ops) && (forall b :: bus(b)) && ops != [] && !ops[|ops| - 1].Write?
    ensures var y := Decode(EncodeAll(ops), outCount, addr, signed, bus);
            if !Room(ops, 0, outCount) then y.status == BAD_I2C_RLEN
            else y.status == TotalRead(ops) && Flat(y.sent) == DoAll(Fresh(addr), ops).segs && Batches(y.sent)
  {
    var buf, z := EncodeAll(ops), Begin(addr);
    assert buf[z.inPos..] == buf == buf + [];
    assert Flat([]) == [] && Abs(z) == Fresh(addr);
    hide Legible;
    hide AllEncodable;
    hide EncodeAll;
    hide Room;
    hide Batches;
    hide Flat;
    var y := OpsDo(buf, outCount, signed, bus, z, ops, []);
    if Room(ops, 0, outCount) {
      Finished(y, bus);
      ReadSoFar(Fresh(addr), ops);
    }
  }

  lemma LegibleLast(ops: seq<Op>, signed: bool)
    requires Legible(ops, signed) && ops != []
    ensures var n := |ops| - 1;
            && ops == ops[..n] + [ops[n]] && Legible(ops[..n], signed) && AllEncodable(ops[..n])
            && Encodable(ops[n]) && PlainOp(ops[n], signed) && Encode(ops[n]) != []
  {
    NotBare(ops[|ops| - 1]);
    EncodedIs(ops[|ops| - 1]);
  }

  lemma WriteAtEnd(ops: seq<Op>, outCount: int, addr: int, signed: bool, bus: Bus)
    requires Legible(ops, signed) && AllEncodable(ops) && (forall b :: bus(b)) && ops != [] && ops[|ops| - 1].Write?
    ensures var y := Decode(EncodeAll(ops), outCount, addr, signed, bus);
            y.status == if Room(ops, 0, outCount) then BAD_I2C_WLEN else BAD_I2C_RLEN
  {
    var n := |ops| - 1;
    var front, o := ops[..n], ops[n];
    LegibleLast(ops, signed);
    var buf, z := EncodeAll(ops), Begin(addr);
    assert buf[z.inPos..] == buf;
    hide Flat;
    hide Bare;
    hide Legible;
    hide AllEncodable;
    hide EncodeAll;
    hide Encode;
    hide PlainOp;
    hide Encodable;
    hide Room;
    EncodeLast(front, o);
    var y := OpsDo(buf, outCount, signed, bus, z, front, Encode(o));
    RoomLast(front, o, outCount);
    if Room(front, 0, outCount) {
      LastWrite(buf, outCount, signed, bus, y, o);
    }
  }

  lemma RoomLast(ops: seq<Op>, o: Op, outCount: int)
    requires o.Write?
    ensures Room(ops + [o], 0, outCount) <==> Room(ops, 0, outCount)
  {
    TotalLast(ops, o);
    var all := ops + [o];
    if Reading(ops) {
      var i :| 0 <= i < |ops| && ops[i].Read?;
      assert all[i].Read?;
    }
  }

  lemma {:induction false} TotalLast(ops: seq<Op>, o: Op)
    requires o.Write?
    ensures TotalRead(ops + [o]) == TotalRead(ops)
    decreases |ops|
  {
    if ops != [] {
      TotalLast(ops[1..], o);
      assert (ops + [o])[1..] == ops[1..] + [o];
    }
  }

  lemma LastWrite(buf: seq<byte>, outCount: int, signed: bool, bus: Bus, z: Zip, o: Op)
    requires o.Write? && Encodable(o) && PlainOp(o, signed) && Ready(z)
    requires z.inPos <= |buf| && buf[z.inPos..] == Encode(o)
    ensures Run(buf, outCount, signed, bus, z).status == BAD_I2C_WLEN
  {
    var n := |Encode(o)|;
    assert buf[z.inPos..z.inPos + n] == buf[z.inPos..];
    var y := Escaped(buf, outCount, signed, bus, z, o);
    NotBare(o);
    hide Encode;
    Coded(buf, y.inPos, WRITE, |o.data|, o.wide, o.data, signed);
    hide GetPar;
    hide Run;
    var x := Step(buf, outCount, signed, bus, y);
    assert x.status == BAD_I2C_WLEN;
    Stops(buf, outCount, signed, bus, y);
  }

  lemma Stops(buf: seq<byte>, outCount: int, signed: bool, bus: Bus, y: Zip)
    requires y.status == 0 && y.inPos < |buf| && Step(buf, outCount, signed, bus, y).status != 0
    ensures Run(buf, outCount, signed, bus, y) == Step(buf, outCount, signed, bus, y)
  {
  }

  // ------------------------------------------------------------------------ the output buffer

  function Reading1(s: Seg): nat { if s.ReadSeg? then s.len else 0 }

  function ReadTotal(segs: seq<Seg>): nat {
    if segs == [] then 0 else ReadTotal(segs[..|segs| - 1]) + Reading1(segs[|segs| - 1])
  }

  /** Each read starts where the reads before it end. */
  ghost predicate Tiles(segs: seq<Seg>) {
    forall i :: 0 <= i < |segs| && segs[i].ReadSeg? ==> segs[i].at == ReadTotal(segs[..i])
  }

  lemma ReadsTile(addr: int, ops: seq<Op>)
    ensures var d := DoAll(Fresh(addr), ops); Tiles(d.segs) && d.outPos == ReadTotal(d.segs)
  {
    TilesOn(Fresh(addr), ops);
  }

  lemma {:induction false} TilesOn(d: Dev, ops: seq<Op>)
    requires Tiles(d.segs) && d.outPos == ReadTotal(d.segs)
    ensures var e := DoAll(d, ops); Tiles(e.segs) && e.outPos == ReadTotal(e.segs)
    decreases |ops|
  {
    hide Tiles;
    hide ReadTotal;
    hide Do;
    if ops != [] {
      TilesDo(d, ops[0]);
      TilesOn(Do(d, ops[0]), ops[1..]);
    }
  }

  lemma TilesDo(d: Dev, o: Op)
    requires Tiles(d.segs) && d.outPos == ReadTotal(d.segs)
    ensures var e := Do(d, o); Tiles(e.segs) && e.outPos == ReadTotal(e.segs)
  {
    hide Tiles;
    hide ReadTotal;
    if o.Read? {
      TilesLast(d.segs, ReadSeg(d.addr, WithReadBit(d.flags), o.n, d.outPos));
    } else if o.Write? {
      TilesLast(d.segs, WriteSeg(d.addr, WithoutReadBit(d.flags), o.data));
    }
  }

  lemma TilesLast(segs: seq<Seg>, s: Seg)
    requires Tiles(segs) && (s.ReadSeg? ==> s.at == ReadTotal(segs))
    ensures Tiles(segs + [s]) && ReadTotal(segs + [s]) == ReadTotal(segs) + Reading1(s)
  {
    var t := segs + [s];
    hide ReadTotal;
    assert forall i :: 0 <= i < |segs| ==> t[i] == segs[i] && t[..i] == segs[..i];
    assert t[..|segs|] == segs;
    TotalGrows(segs, s);
  }

  lemma TotalGrows(segs: seq<Seg>, s: Seg)
    ensures ReadTotal(segs + [s]) == ReadTotal(segs) + Reading1(s)
  {
    assert (segs + [s])[..|segs|] == segs;
  }

  /** Inside the output buffer, each read where the reads before it end. */
  ghost predicate Sound(segs: seq<Seg>, outCount: int) {
    Tiles(segs) && forall i :: 0 <= i < |segs| && segs[i].ReadSeg? ==> segs[i].at + segs[i].len < outCount
  }

  lemma SoundLast(segs: seq<Seg>, s: Seg, outCount: int)
    requires Sound(segs, outCount)
    requires s.ReadSeg? ==> s.at == ReadTotal(segs) && s.at + s.len < outCount
    ensures Sound(segs + [s], outCount) && ReadTotal(segs + [s]) == ReadTotal(segs) + Reading1(s)
  {
    TilesLast(segs, s);
    hide Tiles;
    hide ReadTotal;
  }

  /** A sound list of segments, and how much it reads. */
  ghost predicate SoundTo(segs: seq<Seg>, outPos: nat, outCount: int) {
    Sound(segs, outCount) && outPos == ReadTotal(segs)
  }

  ghost predicate SoundZip(z: Zip, outCount: int) { Batched(z) && SoundTo(Abs(z).segs, z.outPos, outCount) }

  lemma FlatLast(sent: seq<seq<Seg>>, p: seq<Seg>)
    ensures Flat(sent + [p]) == Flat(sent) + p
  {
    assert (sent + [p])[..|sent|] == sent;
  }

  lemma EmitSound(z: Zip, s: Seg, bus: Bus, outCount: int, before: nat)
    requires Batched(z) && SoundTo(Abs(z).segs, before, outCount) && z.outPos == before + Reading1(s)
    requires s.ReadSeg? ==> s.at == before && s.at + s.len < outCount
    ensures SoundZip(Emit(z, s, bus), outCount)
  {
    hide Sound;
    hide Flat;
    hide ReadTotal;
    SoundLast(Abs(z).segs, s, outCount);
    var p := z.pend + [s];
    assert Flat(z.sent) + p == Abs(z).segs + [s];
    if |p| >= MAX_MSGS {
      FlatLast(z.sent, p);
      assert Flat(z.sent) + p + [] == Flat(z.sent) + p;
    }
  }

  lemma StepSound(buf: seq<byte>, outCount: int, signed: bool, bus: Bus, z: Zip)
    requires z.inPos < |buf| && SoundZip(z, outCount)
    ensures SoundZip(Step(buf, outCount, signed, bus, z), outCount)
  {
    hide SoundTo;
    hide Flat;
    hide Emit;
    hide GetPar;
    var c := buf[z.inPos];
    var (n, pos) := GetPar(buf, z.inPos + 1, z.esc, signed);
    if c == READ && n >= 0 && n + z.outPos < outCount {
      EmitSound(z.(inPos := pos, outPos := z.outPos + n), ReadSeg(z.addr, WithReadBit(z.flags), n, z.outPos), bus,
                outCount, z.outPos);
    } else if c == WRITE && n >= 0 && n + pos < |buf| {
      EmitSound(z.(inPos := pos + n), WriteSeg(z.addr, WithoutReadBit(z.flags), buf[pos..pos + n]), bus, outCount,
                z.outPos);
    }
  }

  lemma {:induction false} RunSound(buf: seq<byte>, outCount: int, signed: bool, bus: Bus, z: Zip)
    requires SoundZip(z, outCount)
    ensures SoundZip(Run(buf, outCount, signed, bus, z), outCount)
    decreases |buf| - z.inPos
  {
    hide SoundZip;
    hide Step;
    if z.status == 0 && z.inPos < |buf| {
      StepSound(buf, outCount, signed, bus, z);
      RunSound(buf, outCount, signed, bus, Step(buf, outCount, signed, bus, z));
    }
  }

  lemma SoundFront(a: seq<Seg>, b: seq<Seg>, outCount: int)
    requires Sound(a + b, outCount)
    ensures Sound(a, outCount)
  {
    var t := a + b;
    assert forall i :: 0 <= i < |a| ==> t[i] == a[i] && t[..i] == a[..i];
  }

  lemma FinishSound(z: Zip, bus: Bus, outCount: int)
    requires SoundZip(z, outCount)
    ensures var y := Finish(z, bus);
            Batches(y.sent) && Sound(Flat(y.sent), outCount) && (y.status >= 0 ==> y.status == ReadTotal(Flat(y.sent)))
  {
    hide Sound;
    hide Flat;
    hide ReadTotal;
    SoundFront(Flat(z.sent), z.pend, outCount);
    FlatLast(z.sent, z.pend);
    if z.pend == [] {
      assert Flat(z.sent) + z.pend == Flat(z.sent);
    }
  }

  /** Whatever the bytes and whatever the bus does, what is sent are batches of 1 to 42 segments,
      whose reads tile the output buffer from its start and end inside it; and an answer that is no
      error is the sum of their lengths. */
  lemma AnyInputIsSound(buf: seq<byte>, outCount: int, addr: int, signed: bool, bus: Bus)
    ensures var y := Decode(buf, outCount, addr, signed, bus);
            Batches(y.sent) && Sound(Flat(y.sent), outCount) && (y.status >= 0 ==> y.status == ReadTotal(Flat(y.sent)))
  {
    assert Flat([]) == [] && SoundZip(Begin(addr), outCount);
    hide SoundZip;
    RunSound(buf, outCount, signed, bus, Begin(addr));
    FinishSound(Run(buf, outCount, signed, bus, Begin(addr)), bus, outCount);
  }
}
