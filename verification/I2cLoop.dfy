/**
 The loop of lgI2cZip over its command bytes, with the segment array it fills and empties.
 */
module I2cLoop {
  import opened I2cZip

  /** xI2cGetPar, which moves the position and uses the escape up. */
  method NextPar(buf: seq<byte>, pos: nat, esc: bool, signed: bool) returns (par: int, pos': nat, esc': bool)
    ensures (par, pos') == GetPar(buf, pos, esc, signed) && !esc' && pos' >= pos
  {
    var bytes := if esc then 2 else 1;
    esc' := false;
    pos' := pos;
    if pos <= |buf| - bytes {
      if bytes == 1 {
        pos' := pos + 1;
        return Char(buf[pos], signed), pos', esc';
      } else {
        pos' := pos + 2;
        return Char(buf[pos' - 2], signed) + Char(buf[pos' - 1], signed) * 256, pos', esc';
      }
    }
    par := -1;
  }

  /** xSegments */
  method Send(sent: seq<seq<Seg>>, batch: seq<Seg>, bus: Bus) returns (sent': seq<seq<Seg>>, status: int)
    ensures sent' == sent + [batch] && status == if bus(sent') then 0 else BAD_I2C_SEG
  {
    sent' := sent + [batch];
    status := if bus(sent') then 0 else BAD_I2C_SEG;
  }

  /** A segment is stored; the forty-second is the signal to send them all. */
  method Store(segs: array<Seg>, numSegs: nat, seg: Seg, sent: seq<seq<Seg>>, bus: Bus, ghost z: Zip)
    returns (numSegs': nat, sent': seq<seq<Seg>>, status: int)
    requires segs.Length == MAX_MSGS && numSegs < MAX_MSGS
    requires z.pend == segs[..numSegs] && z.sent == sent && z.status == 0
    modifies segs
    ensures numSegs' < MAX_MSGS
    ensures Emit(z, seg, bus) == z.(pend := segs[..numSegs'], sent := sent', status := status)
  {
    segs[numSegs] := seg;
    assert segs[..numSegs + 1] == old(segs[..numSegs]) + [seg];
    numSegs', sent', status := numSegs + 1, sent, 0;
    if numSegs' >= MAX_MSGS {
      sent', status := Send(sent, segs[..numSegs'], bus);
      numSegs' := 0;
    }
  }

  /** The body of the loop: one command byte, and what follows it. */
  method Turn(buf: seq<byte>, outCount: int, signed: bool, bus: Bus, segs: array<Seg>, numSegs0: nat,
              sent0: seq<seq<Seg>>, inPos0: nat, outPos0: nat, addr0: int, flags0: int, esc0: bool)
    returns (numSegs: nat, sent: seq<seq<Seg>>, inPos: nat, outPos: nat, addr: int, flags: int, esc: bool, status: int)
    requires segs.Length == MAX_MSGS && numSegs0 < MAX_MSGS && inPos0 < |buf|
    modifies segs
    ensures numSegs < MAX_MSGS
    ensures I2cZip.Zip(inPos, outPos, addr, flags, esc, segs[..numSegs], sent, status) ==
            Step(buf, outCount, signed, bus,
                 I2cZip.Zip(inPos0, outPos0, addr0, flags0, esc0, old(segs[..numSegs0]), sent0, 0))
  {
    hide GetPar;
    hide Emit;
    hide Char;
    hide WithReadBit;
    hide WithoutReadBit;
    ghost var z := I2cZip.Zip(inPos0, outPos0, addr0, flags0, esc0, segs[..numSegs0], sent0, 0);
    var setesc := false;
    numSegs, sent, inPos, outPos, addr, flags, esc, status := numSegs0, sent0, inPos0, outPos0, addr0, flags0, esc0, 0;
    var c := buf[inPos];
    inPos := inPos + 1;
    var bytes;
    if c == END {
      status := 1;
    } else if c == ADDR {
      addr, inPos, esc := NextPar(buf, inPos, esc, signed);
      if addr < 0 {
        status := BAD_I2C_CMD;
      }
    } else if c == FLAGS {
      // two bytes whatever stood before
      esc := true;
      flags, inPos, esc := NextPar(buf, inPos, esc, signed);
      if flags < 0 {
        status := BAD_I2C_CMD;
      }
    } else if c == ESC {
      setesc := true;
    } else if c == READ {
      bytes, inPos, esc := NextPar(buf, inPos, esc, signed);
      if bytes >= 0 && bytes + outPos < outCount {
        var seg := ReadSeg(addr, WithReadBit(flags), bytes, outPos);
        outPos := outPos + bytes;
        numSegs, sent, status := Store(segs, numSegs, seg, sent, bus, z.(inPos := inPos, outPos := outPos));
      } else {
        status := BAD_I2C_RLEN;
      }
    } else if c == WRITE {
      bytes, inPos, esc := NextPar(buf, inPos, esc, signed);
      if bytes >= 0 && bytes + inPos < |buf| {
        var seg := WriteSeg(addr, WithoutReadBit(flags), buf[inPos..inPos + bytes]);
        inPos := inPos + bytes;
        numSegs, sent, status := Store(segs, numSegs, seg, sent, bus, z.(inPos := inPos));
      } else {
        status := BAD_I2C_WLEN;
      }
    } else {
      status := BAD_I2C_CMD;
    }
    esc := setesc;
  }

  /** lgI2cZip on an open handle of the address. The answer and the batches sent are those of
      Decode; every access to the command bytes and the segment array is in bounds. */
  method Zip(buf: seq<byte>, hasOut: bool, outCount: int, address: int, signed: bool, bus: Bus)
    returns (status: int, sent: seq<seq<Seg>>)
    ensures buf == [] || (!hasOut && outCount != 0) ==> status == BAD_POINTER && sent == []
    ensures buf != [] && (hasOut || outCount == 0) ==>
              var z := Decode(buf, outCount, address, signed, bus);
              status == z.status && sent == z.sent
  {
    hide Step;
    sent := [];
    if buf == [] {
      return BAD_POINTER, sent;
    }
    if !hasOut && outCount != 0 {
      return BAD_POINTER, sent;
    }
    var segs := new Seg[MAX_MSGS](_ => WriteSeg(0, 0, []));
    var numSegs: nat, inPos: nat, outPos: nat := 0, 0, 0;
    var addr, flags, esc := address, 0, false;
    status := 0;
    assert segs[..0] == [];
    while status == 0 && inPos < |buf|
      invariant numSegs < MAX_MSGS
      invariant Run(buf, outCount, signed, bus, Begin(address)) ==
                Run(buf, outCount, signed, bus,
                    I2cZip.Zip(inPos, outPos, addr, flags, esc, segs[..numSegs], sent, status))
      decreases |buf| - inPos
    {
      numSegs, sent, inPos, outPos, addr, flags, esc, status :=
        Turn(buf, outCount, signed, bus, segs, numSegs, sent, inPos, outPos, addr, flags, esc);
    }
    if status >= 0 && numSegs > 0 {
      sent, status := Send(sent, segs[..numSegs], bus);
    }
    if status >= 0 {
      status := outPos;
    }
  }
}
