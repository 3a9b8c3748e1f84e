/**
 What the commands of a script compute: the laws by which a script author counts on arithmetic,
 bits, registers, comparisons and loops, on the instructions and runs of the thread.
 */
module ScriptLaws {
  import B = ScriptBits
  import opened ScriptModel
  import opened ScriptProof

  // --------------------------------------------------------------------------- arithmetic

  predicate Congruent(a: int, b: int) { (a - b) % TWO32 == 0 }

  /** Two registers can differ only by less than 2^32. */
  lemma CongruentIsEqual(a: Int32, b: Int32)
    requires Congruent(a, b)
    ensures a == b
  {
  }

  lemma WrapMeans(n: int)
    ensures Congruent(Wrap(n), n) && (-TWO31 <= n < TWO31 ==> Wrap(n) == n)
  {
  }

  /** A and F are the sum or the difference, exactly where it fits and otherwise modulo 2^32; nothing
      else changes. */
  lemma Arithmetic(i: Instr, d: Data, world: World)
    requires Safe(i) && Sized(d) && (i.op.ADD? || i.op.SUB?)
    ensures Plain(i, d, world).Some?
    ensures var r, p := Plain(i, d, world).value, Substituted(i, 0, d);
            && r == d.(A := r.A, F := r.A)
            && (i.op.ADD? ==> Congruent(r.A - p, d.A) && (-TWO31 <= d.A + p < TWO31 ==> r.A - p == d.A))
            && (i.op.SUB? ==> Congruent(r.A + p, d.A) && (-TWO31 <= d.A - p < TWO31 ==> r.A + p == d.A))
  {
    var p := Substituted(i, 0, d);
    hide Safe;
    hide Substituted;
    hide Wrap;
    WrapMeans(d.A + p);
    WrapMeans(d.A - p);
  }

  /** Counting A up and down, round the ends of its range. */
  lemma Counting(i: Instr, d: Data, world: World)
    requires Safe(i) && Sized(d) && (i.op.INRA? || i.op.DCRA?)
    ensures Plain(i, d, world).Some?
    ensures var r := Plain(i, d, world).value;
            && r == d.(A := r.A, F := r.A)
            && (i.op.INRA? ==> if d.A == TWO31 - 1 then r.A == -TWO31 else r.A - 1 == d.A)
            && (i.op.DCRA? ==> if d.A == -TWO31 then r.A == TWO31 - 1 else r.A + 1 == d.A)
  {
    hide Safe;
    hide Substituted;
    hide Wrap;
    WrapNext(d.A);
  }

  lemma Multiplication(i: Instr, d: Data, world: World)
    requires Safe(i) && Sized(d) && i.op.MLT?
    ensures Plain(i, d, world).Some?
    ensures var r, p := Plain(i, d, world).value, Substituted(i, 0, d);
            && r == d.(A := r.A, F := r.A)
            && Congruent(r.A, d.A * p) && (-TWO31 <= d.A * p < TWO31 ==> r.A == d.A * p)
  {
    hide Safe;
    hide Substituted;
    hide Wrap;
    WrapMeans(d.A * Substituted(i, 0, d));
  }

  lemma WrapNext(n: Int32)
    ensures Wrap(n + 1) == if n == TWO31 - 1 then -TWO31 else n + 1
    ensures Wrap(n - 1) == if n == -TWO31 then TWO31 - 1 else n - 1
  {
  }

  /** The same operand, for another command. */
  predicate SameOperand(i: Instr, j: Instr) {
    |i.args| == |j.args| == |i.opts| == |j.opts| == MAX_ARG && i.args[0] == j.args[0] && i.opts[0] == j.opts[0]
  }

  /** SUB undoes ADD, and ADD undoes SUB, overflow or not. */
  lemma SubUndoesAdd(i: Instr, j: Instr, d: Data, world: World)
    requires Safe(i) && Safe(j) && Sized(d) && SameOperand(i, j)
    requires (i.op.ADD? && j.op.SUB?) || (i.op.SUB? && j.op.ADD?)
    ensures Plain(i, d, world).Some? && Plain(j, Plain(i, d, world).value, world) == Some(d.(F := d.A))
  {
    hide Plain;
    hide Substituted;
    hide Safe;
    Arithmetic(i, d, world);
    var r := Plain(i, d, world).value;
    SameValue(i, j, d, r);
    Arithmetic(j, r, world);
    var p: int, t := Substituted(i, 0, d), Plain(j, r, world).value.A;
    hide Congruent;
    if i.op.ADD? {
      Undone(d.A, p, r.A, t);
    } else {
      Undone(d.A, -p, r.A, t);
    }
    CongruentIsEqual(t, d.A);
  }

  lemma Undone(a: int, p: int, s: int, t: int)
    requires Congruent(s - p, a) && Congruent(t + p, s)
    ensures Congruent(t, a)
  {
  }

  lemma SameValue(i: Instr, j: Instr, d: Data, e: Data)
    requires Safe(i) && Safe(j) && Sized(d) && Sized(e) && SameOperand(i, j) && e.vars == d.vars && e.pars == d.pars
    ensures Substituted(j, 0, e) == Substituted(i, 0, d)
  {
  }

  predicate Truncates(a: int, b: int, q: int, r: int) {
    && a == b * q + r
    && (if b > 0 then -b < r < b else b < r < -b)
    && (r == 0 || (r < 0) == (a < 0))
  }

  lemma DivisionMeans(a: int, b: int)
    requires b != 0
    ensures Truncates(a, b, CDiv(a, b), a - b * CDiv(a, b))
  {
    var m, n := if a >= 0 then a else -a, if b > 0 then b else -b;
    assert m == n * (m / n) + m % n;
    assert b * CDiv(a, b) == if a >= 0 then n * (m / n) else -(n * (m / n));
  }

  lemma QuotientFits(a: Int32, b: Int32)
    requires DividesDefined(a, b)
    ensures -TWO31 <= CDiv(a, b) < TWO31
  {
    var x: int, y: int := a, b;
    SmallerQuotient(if x >= 0 then x else -x, if y > 0 then y else -y);
  }

  lemma SmallerQuotient(m: nat, n: nat)
    requires n > 0
    ensures m / n <= m && (n > 1 && m > 0 ==> m / n < m)
  {
    var q := m / n;
    assert m == n * q + m % n;
    assert n * q == q + (n - 1) * q;
    Product(n - 1, q);
    if n > 1 {
      assert (n - 1) * q == q + (n - 2) * q;
      Product(n - 2, q);
    }
  }

  lemma Product(x: nat, y: nat)
    ensures x * y >= 0
  {
  }

  /** DIV and MOD by p leave the truncated quotient and its remainder; they are undefined for p == 0
      and for the one quotient that does not fit, and for nothing else. */
  lemma Division(i: Instr, j: Instr, d: Data, world: World)
    requires Safe(i) && Safe(j) && Sized(d) && SameOperand(i, j) && i.op.DIV? && j.op.MOD?
    ensures var p := Substituted(i, 0, d);
            && Plain(i, d, world).Some? == Plain(j, d, world).Some? == !(p == 0 || (d.A == -TWO31 && p == -1))
            && (Plain(i, d, world).Some? ==>
                  var q, r := Plain(i, d, world).value, Plain(j, d, world).value;
                  q == d.(A := q.A, F := q.A) && r == d.(A := r.A, F := r.A) && Truncates(d.A, p, q.A, r.A))
  {
    var p := Substituted(i, 0, d);
    SameValue(i, j, d, d);
    hide Safe;
    hide Substituted;
    hide CDiv;
    if DividesDefined(d.A, p) {
      DivisionMeans(d.A, p);
      QuotientFits(d.A, p);
      WrapMeans(CDiv(d.A, p));
      WrapMeans(d.A - p * CDiv(d.A, p));
    }
  }

  // --------------------------------------------------------------------------------- bits

  /** Bit k of a register; bit 31 is its sign. */
  predicate Bit(n: Int32, k: nat) { B.Bit(Unsigned(n), k) }

  lemma UnsignedWrap(u: B.UInt32)
    ensures Unsigned(Wrap(u)) == u
  {
  }

  lemma WrapUnsigned(n: Int32)
    ensures Wrap(Unsigned(n)) == n
  {
  }

  /** AND, OR and XOR act on each bit of A and the operand. */
  lemma Bitwise(i: Instr, d: Data, world: World, k: nat)
    requires Safe(i) && Sized(d) && (i.op.AND? || i.op.OR? || i.op.XOR?) && k < 32
    ensures Plain(i, d, world).Some?
    ensures var r, p := Plain(i, d, world).value, Substituted(i, 0, d);
            && r == d.(A := r.A, F := r.A)
            && (i.op.AND? ==> (Bit(r.A, k) <==> Bit(d.A, k) && Bit(p, k)))
            && (i.op.OR? ==> (Bit(r.A, k) <==> Bit(d.A, k) || Bit(p, k)))
            && (i.op.XOR? ==> (Bit(r.A, k) <==> Bit(d.A, k) != Bit(p, k)))
  {
    var p := Substituted(i, 0, d);
    hide Safe;
    hide Substituted;
    hide Wrap;
    hide B.Bit;
    hide B.Word;
    var g := if i.op.AND? then B.And else if i.op.OR? then B.Or else B.Xor;
    B.WordBit(g, Unsigned(d.A), Unsigned(p), k);
    UnsignedWrap(B.Word(g, Unsigned(d.A), Unsigned(p)));
  }

  /** What a shift by n of v leaves. */
  ghost predicate ShiftLaw(s: Shift, v: Int32, n: Int32, r: Int32)
    requires 0 <= n < 32
  {
    match s
    case Left => Unsigned(r) == (Unsigned(v) * B.Power2(n)) % TWO32
    case Right => Unsigned(r) == Unsigned(v) / B.Power2(n)
    case RotateLeft => forall k: nat :: k < 32 ==> (Bit(r, (k + n) % 32) <==> Bit(v, k))
    case RotateRight => forall k: nat :: k < 32 ==> (Bit(r, k) <==> Bit(v, (k + n) % 32))
  }

  lemma ShiftMeans(s: Shift, v: Int32, n: Int32)
    ensures Shifted(s, v, n).Some? <==> 0 <= n < 32
    ensures 0 <= n < 32 ==> ShiftLaw(s, v, n, Shifted(s, v, n).value)
  {
    if 0 <= n < 32 {
      var u := Unsigned(v);
      hide Wrap;
      hide B.Bit;
      hide B.Rol;
      hide B.Ror;
      hide B.Shl;
      hide B.Shr;
      match s
      case Left =>
        B.ShlValue(u, n);
        UnsignedWrap(B.Shl(u, n));
      case Right =>
        B.ShrValue(u, n);
        UnsignedWrap(B.Shr(u, n));
      case RotateLeft =>
        UnsignedWrap(B.Rol(u, n));
        forall k: nat | k < 32
          ensures Bit(Wrap(B.Rol(u, n)), (k + n) % 32) <==> Bit(v, k)
        {
          B.RolBit(u, n, k);
        }
      case RotateRight =>
        UnsignedWrap(B.Ror(u, n));
        forall k: nat | k < 32
          ensures Bit(Wrap(B.Ror(u, n)), k) <==> Bit(v, (k + n) % 32)
        {
          B.RorBit(u, n, k);
        }
    }
  }

  /** The commands that shift A: SHLA multiplies by 2^n modulo 2^32, SHRA divides the unsigned word,
      RLA and RRA carry each bit n places round. */
  lemma ShiftsA(i: Instr, d: Data, world: World)
    requires Safe(i) && Sized(d) && (i.op.SHLA? || i.op.SHRA? || i.op.RLA? || i.op.RRA?)
    ensures var r, n := Plain(i, d, world), Substituted(i, 0, d);
            && (r.Some? <==> 0 <= n < 32)
            && (r.Some? ==>
                  && r.value == d.(A := r.value.A, F := r.value.A)
                  && (i.op.SHLA? ==> ShiftLaw(Left, d.A, n, r.value.A))
                  && (i.op.SHRA? ==> ShiftLaw(Right, d.A, n, r.value.A))
                  && (i.op.RLA? ==> ShiftLaw(RotateLeft, d.A, n, r.value.A))
                  && (i.op.RRA? ==> ShiftLaw(RotateRight, d.A, n, r.value.A)))
  {
    var n := Substituted(i, 0, d);
    hide Safe;
    hide Substituted;
    hide Shifted;
    hide ShiftLaw;
    ShiftMeans(if i.op.SHLA? then Left else if i.op.SHRA? then Right else if i.op.RLA? then RotateLeft else RotateRight,
               d.A, n);
  }

  /** Between two data nothing differs but operand k of the instruction, a register, and F. */
  ghost predicate OnlyChanges(i: Instr, k: nat, d: Data, e: Data)
    requires Names(i, k) && Sized(d) && Sized(e)
  {
    && e.A == d.A && e.log == d.log
    && (forall n :: 0 <= n < VARS && (i.opts[k].Par? || n != i.args[k]) ==> e.vars[n] == d.vars[n])
    && (forall n :: 0 <= n < PARAMS && (!i.opts[k].Par? || n != i.args[k]) ==> e.pars[n] == d.pars[n])
  }

  lemma StoreMeans(i: Instr, k: nat, d: Data, v: Int32)
    requires Names(i, k) && Sized(d)
    ensures var e := Store(i, k, d, v); OnlyChanges(i, k, d, e) && e.F == d.F && Load(i, k, e) == v
  {
    var n := i.args[k];
    assert NamesRegister(n, i.opts[k]);
    hide Safe;
    assert !i.opts[k].Par? ==> n < VARS && Store(i, k, d, v).vars[n] == v;
  }

  /** And those that shift a register, in the same way. */
  lemma ShiftsRegister(i: Instr, d: Data, world: World)
    requires Safe(i) && Sized(d) && (i.op.SHL? || i.op.SHR? || i.op.RL? || i.op.RR?)
    ensures Names(i, 0)
    ensures var r, v, n := Plain(i, d, world), Load(i, 0, d), Substituted(i, 1, d);
            && (r.Some? <==> 0 <= n < 32)
            && (r.Some? ==>
                  && OnlyChanges(i, 0, d, r.value) && r.value.F == Load(i, 0, r.value)
                  && (i.op.SHL? ==> ShiftLaw(Left, v, n, r.value.F))
                  && (i.op.SHR? ==> ShiftLaw(Right, v, n, r.value.F))
                  && (i.op.RL? ==> ShiftLaw(RotateLeft, v, n, r.value.F))
                  && (i.op.RR? ==> ShiftLaw(RotateRight, v, n, r.value.F)))
  {
    assert Names(i, 0);
    var v, n := Load(i, 0, d), Substituted(i, 1, d);
    var s := if i.op.SHL? then Left else if i.op.SHR? then Right else if i.op.RL? then RotateLeft else RotateRight;
    hide Safe;
    hide Names;
    hide Substituted;
    hide Shifted;
    hide ShiftLaw;
    hide Load;
    hide Store;
    hide OnlyChanges;
    ShiftMeans(s, v, n);
    if 0 <= n < 32 {
      var w := Shifted(s, v, n).value;
      StoreMeans(i, 0, d, w);
      AlsoF(i, d, Store(i, 0, d, w), w);
    }
  }

  lemma AlsoF(i: Instr, d: Data, e: Data, f: Int32)
    requires Names(i, 0) && Sized(d) && Sized(e) && OnlyChanges(i, 0, d, e)
    ensures OnlyChanges(i, 0, d, e.(F := f)) && Load(i, 0, e.(F := f)) == Load(i, 0, e)
  {
    hide Safe;
  }

  /** RR undoes RL of the same register by the same constant, and RL undoes RR. */
  lemma RotateBack(s: Shift, v: Int32, n: Int32)
    requires 0 <= n < 32 && (s.RotateLeft? || s.RotateRight?)
    ensures var back := if s.RotateLeft? then RotateRight else RotateLeft;
            Shifted(s, v, n).Some? && Shifted(back, Shifted(s, v, n).value, n) == Some(v)
  {
    hide Wrap;
    hide B.Rol;
    hide B.Ror;
    var u := Unsigned(v);
    UnsignedWrap(B.Rol(u, n));
    UnsignedWrap(B.Ror(u, n));
    WrapUnsigned(v);
    B.RorUndoesRol(u, n);
  }

  // ---------------------------------------------------------------------------- registers

  /** LD and STA leave the operand, or A, in the register, and DCR and INR count it; nothing else
      changes but, in counting, F. */
  lemma LoadsAndCounts(i: Instr, d: Data, world: World)
    requires Safe(i) && Sized(d) && (i.op.LD? || i.op.STA? || i.op.INR? || i.op.DCR?)
    ensures Names(i, 0) && Plain(i, d, world).Some?
    ensures var e := Plain(i, d, world).value; var was, now := Load(i, 0, d), Load(i, 0, Plain(i, d, world).value);
            && OnlyChanges(i, 0, d, e)
            && (i.op.LD? ==> now == Substituted(i, 1, d) && e.F == d.F)
            && (i.op.STA? ==> now == d.A && e.F == d.F)
            && (i.op.INR? ==> e.F == now && if was == TWO31 - 1 then now == -TWO31 else now - 1 == was)
            && (i.op.DCR? ==> e.F == now && if was == -TWO31 then now == TWO31 - 1 else now + 1 == was)
  {
    assert Names(i, 0);
    hide Safe;
    hide Names;
    hide Substituted;
    hide Load;
    hide Store;
    hide OnlyChanges;
    hide Wrap;
    var v := if i.op.LD? then Substituted(i, 1, d) else if i.op.STA? then d.A
             else if i.op.INR? then Wrap(Load(i, 0, d) + 1) else Wrap(Load(i, 0, d) - 1);
    WrapNext(Load(i, 0, d));
    StoreMeans(i, 0, d, v);
    AlsoF(i, d, Store(i, 0, d, v), v);
  }

  /** A register read by LDA, or as an operand of any command, is what was last left in it. */
  lemma ReadBack(i: Instr, j: Instr, d: Data, world: World)
    requires Safe(i) && Safe(j) && Sized(d) && i.op.STA? && j.op.LDA? && SameOperand(i, j) && !i.opts[0].Numeric?
    requires !i.opts[0].Absent?
    ensures Plain(i, d, world).Some?
    ensures forall a: Int32 :: Plain(j, Plain(i, d, world).value.(A := a), world) == Some(Plain(i, d, world).value)
  {
    assert Names(i, 0);
    hide Safe;
  }

  /** XA swaps A with the register, and does it back; F stays. */
  lemma ExchangeA(i: Instr, d: Data, world: World)
    requires Safe(i) && Sized(d) && i.op.XA?
    ensures Names(i, 0) && Plain(i, d, world).Some?
    ensures var e := Plain(i, d, world).value;
            e.A == Load(i, 0, d) && Load(i, 0, e) == d.A && e.F == d.F && Plain(i, e, world) == Some(d)
  {
    assert Names(i, 0);
    assert NamesRegister(i.args[0], i.opts[0]);
    hide Safe;
    var e := Plain(i, d, world).value;
    assert e.vars[..] == e.vars;
    var back := Plain(i, e, world).value;
    assert back.vars == d.vars && back.pars == d.pars;
  }

  /** X swaps two registers, and does it back; A and F stay. */
  lemma Exchange(i: Instr, d: Data, world: World)
    requires Safe(i) && Sized(d) && i.op.X?
    ensures Names(i, 0) && Names(i, 1) && Plain(i, d, world).Some?
    ensures var e := Plain(i, d, world).value;
            && Load(i, 0, e) == Load(i, 1, d) && Load(i, 1, e) == Load(i, 0, d)
            && e == d.(vars := e.vars, pars := e.pars) && Plain(i, e, world) == Some(d)
  {
    assert Names(i, 0) && Names(i, 1);
    assert NamesRegister(i.args[0], i.opts[0]) && NamesRegister(i.args[1], i.opts[1]);
    hide Safe;
    var e := Plain(i, d, world).value;
    var back := Plain(i, e, world).value;
    assert back.vars == d.vars && back.pars == d.pars;
  }

  /** An ordinary command is sent once, with its operands as they now are, and A and F are the answer. */
  lemma Answered(i: Instr, d: Data, world: World)
    requires Safe(i) && Sized(d) && i.op.Ordinary?
    ensures Plain(i, d, world).Some?
    ensures var e := Plain(i, d, world).value;
            && |e.log| == |d.log| + 1 && d.log <= e.log
            && var s := e.log[|d.log|];
               && s.cmd == i.op.cmd && |s.args| == MAX_ARG && (forall k :: 0 <= k < MAX_ARG ==> s.args[k] == Substituted(i, k, d))
               && e.A == world(e.log) && e.F == e.A && e.vars == d.vars && e.pars == d.pars
  {
    hide Safe;
    hide Substituted;
  }

  /** A number stands for itself, modulo 2^32; a variable or parameter for the register's contents. */
  lemma OperandMeans(i: Instr, k: nat, d: Data)
    requires Safe(i) && Sized(d) && k < MAX_ARG
    ensures i.opts[k].Numeric? ==> Congruent(Substituted(i, k, d), i.args[k])
    ensures (i.opts[k].Var? || i.opts[k].Par?) && Names(i, k) ==> Substituted(i, k, d) == Load(i, k, d)
  {
    WrapMeans(i.args[k]);
    hide Wrap;
  }

  // -------------------------------------------------------------------- stack and calls

  /** PUSH of one register and POP of another, or of A, copy it, and leave the stack as it was. */
  lemma PushThenPop(i: Instr, j: Instr, v: Vm, world: World)
    requires Safe(i) && Safe(j) && Sized(v.d) && |v.stack| < STACK_SIZE
    requires (i.op.PUSH? || i.op.PUSHA?) && (j.op.POP? || j.op.POPA?)
    ensures (i.op.PUSH? ==> Names(i, 0)) && (j.op.POP? ==> Names(j, 0))
    ensures var r := Act(j, Act(i, v, world), world);
            var value := if i.op.PUSH? then Load(i, 0, v.d) else v.d.A;
            && r == v.(d := r.d, pc := v.pc + 2)
            && (j.op.POPA? ==> r.d == v.d.(A := value))
            && (j.op.POP? ==> OnlyChanges(j, 0, v.d, r.d) && r.d.F == v.d.F && Load(j, 0, r.d) == value)
  {
    assert i.op.PUSH? ==> Names(i, 0);
    assert j.op.POP? ==> Names(j, 0);
    hide Safe;
    hide Names;
    hide Load;
    hide Store;
    hide OnlyChanges;
    hide Act;
    PushMeans(i, v, world);
    var w := Act(i, v, world);
    assert w.stack[..|v.stack|] == v.stack;
    PopMeans(j, w, world);
    if j.op.POP? {
      StoreMeans(j, 0, v.d, w.stack[|v.stack|]);
    }
  }

  /** RET comes back to the instruction after the CALL, with the stack as it was. */
  lemma CallThenReturn(i: Instr, j: Instr, v: Vm, d: Data, world: World)
    requires Safe(i) && Safe(j) && Sized(v.d) && Sized(d) && |v.stack| < STACK_SIZE && i.op.CALL? && j.op.RET?
    requires 0 <= v.pc < TWO31 - 1
    ensures var c := Act(i, v, world);
            && c.d == v.d && c.status == v.status && Congruent(c.pc, i.args[0])
            && Act(j, c.(d := d), world) == v.(d := d, pc := v.pc + 1)
  {
    WrapMeans(i.args[0]);
    WrapMeans(v.pc + 1);
    hide Safe;
    hide Wrap;
    hide Plain;
    var c := Act(i, v, world);
    assert c.stack[..|v.stack|] == v.stack;
  }

  // -------------------------------------------------------------------------------- jumps

  /** Of less, equal and greater exactly one is taken, and the other three jumps are their opposites. */
  lemma JumpsArePaired(F: Int32)
    ensures var (lt, eq, gt) := (Taken(JLT, F), Taken(JZ, F), Taken(JGT, F));
            && (lt || eq || gt) && !(lt && eq) && !(lt && gt) && !(eq && gt)
    ensures Taken(JGE, F) == !Taken(JLT, F) && Taken(JLE, F) == !Taken(JGT, F) && Taken(JNZ, F) == !Taken(JZ, F)
    ensures Taken(JMP, F)
  {
  }

  /** The difference of two registers is a register's worth. */
  predicate Near(a: int, p: int) { -TWO31 <= a - p < TWO31 }

  /** When the jump after CMP p goes: the order of A and p, reversed where they are too far apart. */
  predicate Asked(o: Op, a: int, p: int)
    requires Jump(o)
  {
    match o
    case JZ => a == p
    case JNZ => a != p
    case JLT => if Near(a, p) then a < p else a > p
    case JGE => if Near(a, p) then a >= p else a < p
    case JGT => if Near(a, p) then a > p else a < p
    case JLE => if Near(a, p) then a <= p else a > p
    case _ => true
  }

  lemma DifferenceSign(a: Int32, p: Int32, o: Op)
    requires Jump(o)
    ensures Taken(o, Wrap(a - p)) <==> Asked(o, a, p)
  {
  }

  /** SYS makes the next jump go by A, and does no more. */
  lemma SysThenJump(i: Instr, d: Data, world: World, o: Op)
    requires Safe(i) && Sized(d) && i.op.SYS? && Jump(o)
    ensures Plain(i, d, world).Some?
    ensures var e := Plain(i, d, world).value; e == d.(F := e.F) && (Taken(o, e.F) <==> Asked(o, d.A, 0))
  {
    hide Safe;
    hide Substituted;
    WrapMeans(d.A);
    DifferenceSign(d.A, 0, o);
  }

  /** The thread at place pc of a program, running. */
  ghost predicate RunsAt(prog: seq<Instr>, v: Vm, pc: nat) {
    v.status.Running? && v.pc == pc && Fetchable(prog, v)
  }

  /** Two steps of the thread: after CMP p a jump goes to its target exactly as A and p ask. */
  lemma CompareAndJump(prog: seq<Instr>, v: Vm, at: nat, world: World)
    requires RunsAt(prog, v, at) && at + 1 < |prog|
    requires prog[at].op.CMP? && Jump(prog[at + 1].op) && !prog[at + 1].op.CALL? && Safe(prog[at + 1])
    ensures var w := Step(prog, v, world);
            && RunsAt(prog, w, at + 1) && w.d == v.d.(F := w.d.F)
            && var x := Step(prog, w, world); var j := prog[at + 1];
               x.d == w.d && x.stack == v.stack
               && x.pc == if Asked(j.op, v.d.A, Substituted(prog[at], 0, v.d)) then Wrap(j.args[0]) else at + 2
  {
    hide Safe;
    hide Wrap;
    hide Taken;
    hide Asked;
    hide Substituted;
    DifferenceSign(v.d.A, Substituted(prog[at], 0, v.d), prog[at + 1].op);
  }

  lemma SourceCompares(src: seq<Instr>, s: Src, world: World)
    requires AllSafe(src) && s.status.Running? && s.pos + 1 < |src| && Sized(s.d) && |s.stack| <= STACK_SIZE
    requires src[s.pos].op.CMP? && !src[s.pos + 1].op.TAG? && Safe(src[s.pos])
    ensures SrcStep(src, s, world) ==
            s.(d := s.d.(F := Wrap(s.d.A - Substituted(src[s.pos], 0, s.d))), pos := s.pos + 1)
  {
    hide AllSafe;
    hide Safe;
    hide Wrap;
    hide Substituted;
    assert !OnlyTags(src, s.pos + 1);
  }

  lemma SourceJumps(src: seq<Instr>, s: Src, world: World)
    requires AllSafe(src) && s.status.Running? && s.pos < |src| && Sized(s.d) && |s.stack| <= STACK_SIZE
    requires Jump(src[s.pos].op) && !src[s.pos].op.CALL? && |src[s.pos].args| == MAX_ARG
    ensures SrcStep(src, s, world).pos ==
            if Taken(src[s.pos].op, s.d.F) then FindTag(src, src[s.pos].args[0]) else s.pos + 1
  {
    hide AllSafe;
    hide Safe;
    hide Taken;
    hide FindTag;
    hide OnlyTags;
    hide Plain;
  }

  lemma SafePair(src: seq<Instr>, p: nat)
    requires AllSafe(src) && p + 1 < |src|
    ensures Safe(src[p]) && Safe(src[p + 1]) && |src[p + 1].args| == MAX_ARG
  {
  }

  /** The same in a script: the jump goes to its label. */
  lemma CompareAndJumpInScript(src: seq<Instr>, s: Src, world: World)
    requires Script(src) && s.status.Running? && s.pos + 1 < |src| && Sized(s.d) && |s.stack| <= STACK_SIZE
    requires src[s.pos].op.CMP? && Jump(src[s.pos + 1].op) && !src[s.pos + 1].op.CALL?
    ensures SrcRun(src, s, 2, world).pos ==
            if Asked(src[s.pos + 1].op, s.d.A, Substituted(src[s.pos], 0, s.d))
            then FindTag(src, src[s.pos + 1].args[0]) else s.pos + 2
  {
    hide Script;
    hide AllSafe;
    hide Safe;
    hide SrcStep;
    hide FindTag;
    SafePair(src, s.pos);
    hide Wrap;
    hide Taken;
    hide Asked;
    hide Substituted;
    SourceCompares(src, s, world);
    var t := SrcStep(src, s, world);
    assert SrcRun(src, s, 0, world) == s && SrcRun(src, s, 1, world) == t;
    SourceJumps(src, t, world);
    DifferenceSign(s.d.A, Substituted(src[s.pos], 0, s.d), src[s.pos + 1].op);
  }

  // ------------------------------------------------------------------------- when it stops

  /** A running script fails exactly on a full stack or an empty one, comes to nothing exactly by a
      division or a shift that C leaves undefined, ends exactly by HALT, and otherwise goes on: unless
      it jumps, at the next instruction. */
  lemma StopsExactly(i: Instr, v: Vm, world: World)
    requires Safe(i) && Sized(v.d) && |v.stack| <= STACK_SIZE && v.status.Running? && !i.op.TAG?
    ensures var r := Act(i, v, world); var o := i.op;
            && (r.status.Failed? <==> || ((o.PUSH? || o.PUSHA? || o.CALL?) && |v.stack| == 256)
                                      || ((o.POP? || o.POPA? || o.RET?) && v.stack == []))
            && (r.status.Undefined? ==> o.DIV? || o.MOD? || o.SHL? || o.SHR? || o.RL? || o.RR?
                                        || o.SHLA? || o.SHRA? || o.RLA? || o.RRA?)
            && (r.status.Ended? <==> o.HALT?) && !r.status.Confused?
            && (r.status.Running? && !Jump(o) && !o.RET? && !Idle(o) ==> r.pc == v.pc + 1)
            && (o.HALT? ==> r == v.(status := Ended)) && (Idle(o) ==> r == v)
  {
    hide Safe;
    hide Substituted;
    hide Load;
    hide Store;
    hide Wrap;
    hide Shifted;
    hide DividesDefined;
    hide Names;
  }

  // --------------------------------------------------------------- which commands are accepted

  /** A value: a 32-bit number, or one of the variables v0 to v149 or parameters p0 to p9. */
  predicate IsValue(l: Lexeme) {
    match l
    case LNum(v) => v <= 0xffff_ffff
    case LVar(v) => v < 150
    case LPar(v) => v < 10
    case LNone => false
  }

  /** A register: a variable, which may do without its letter, or a parameter. */
  predicate IsRegister(l: Lexeme) { IsValue(l) && (l.LNum? ==> l.v < 150) }

  /** The operands each command takes. */
  predicate Takes(o: Op, l0: Lexeme, l1: Lexeme)
    requires !o.Ordinary?
  {
    match o
    case DCRA | HALT | INRA | NOP | POPA | PUSHA | RET | SYS => true
    case CALL | JGE | JGT | JLE | JLT | JMP | JNZ | JZ | TAG => l0.LNum? && IsValue(l0)
    case DCR | INR | POP | PUSH | STA | XA => IsRegister(l0)
    case LD | RL | RR | SHL | SHR => IsRegister(l0) && IsValue(l1)
    case X => IsRegister(l0) && IsRegister(l1)
    case _ => IsValue(l0)
  }

  /** An operand of an instruction, as it is written. */
  function Written(x: UInt32, a: Opt): Lexeme {
    match a
    case Absent => LNone
    case Numeric => LNum(x)
    case Var => LVar(x)
    case Par => LPar(x)
  }

  function Operands(o: Op): nat
    requires !o.Ordinary?
  {
    match o
    case DCRA | HALT | INRA | NOP | POPA | PUSHA | RET | SYS => 0
    case LD | RL | RR | SHL | SHR | X => 2
    case _ => 1
  }

  lemma GetNumMeans(l: Lexeme)
    ensures var g := GetNum(l, 0xffff_ffff); var x := Low32(g.0);
            && (g.1 != Absent <==> IsValue(l)) && (IsValue(l) ==> Written(x, g.1) == l)
            && (g.1 == Numeric <==> l.LNum? && IsValue(l)) && (g.1 != Absent && x < VARS <==> IsRegister(l))
  {
  }

  lemma CommandMeans(o: Op, x: UInt32, a: Opt, y: UInt32, b: Opt)
    ensures var i := Command(o, x, a, y, b);
            && i.op == o && |i.args| == MAX_ARG && |i.opts| == MAX_ARG
            && i.args[0] == x && i.opts[0] == a && i.args[1] == y && i.opts[1] == b
  {
  }

  /** The commands of each verification class. */
  lemma Classes(o: Op)
    requires !o.Ordinary?
    ensures OperandClass(o) ==
            match o
            case DCRA | HALT | INRA | NOP | POPA | PUSHA | RET => 200
            case SYS => 206
            case CALL | JGE | JGT | JLE | JLT | JMP | JNZ | JZ | TAG => 202
            case DCR | INR | POP | PUSH | STA | XA => 203
            case LD | RL | RR | SHL | SHR => 204
            case X => 205
            case _ => 201
  {
  }

  lemma TakesByClass(o: Op, l0: Lexeme, l1: Lexeme)
    requires !o.Ordinary?
    ensures var c := OperandClass(o);
            && Operands(o) == (if c == 200 || c == 206 then 0 else if c == 204 || c == 205 then 2 else 1)
            && Takes(o, l0, l1) == (if c == 200 || c == 206 then true
                                    else if c == 201 then IsValue(l0)
                                    else if c == 202 then l0.LNum? && IsValue(l0)
                                    else if c == 203 then IsRegister(l0)
                                    else if c == 204 then IsRegister(l0) && IsValue(l1)
                                    else c == 205 && IsRegister(l0) && IsRegister(l1))
  {
    hide IsValue;
    hide IsRegister;
    hide OperandClass;
    Classes(o);
  }

  /** A script command is accepted exactly with the operands it takes, and they are in the instruction
      as they were written. */
  lemma ParsedExactly(o: Op, l0: Lexeme, l1: Lexeme)
    requires !o.Ordinary?
    ensures Parse(o, l0, l1).Some? <==> Takes(o, l0, l1)
    ensures Takes(o, l0, l1) ==>
              var i := Parse(o, l0, l1).value;
              && i.op == o && |i.args| == MAX_ARG && |i.opts| == MAX_ARG
              && (Operands(o) >= 1 ==> Written(i.args[0], i.opts[0]) == l0)
              && (Operands(o) == 2 ==> Written(i.args[1], i.opts[1]) == l1)
              && (Operands(o) == 0 ==> i.args[0] == 0 && i.opts[0] == Absent)
              && (Operands(o) <= 1 ==> i.args[1] == 0 && i.opts[1] == Absent)
  {
    var a, b := GetNum(l0, 0xffff_ffff), GetNum(l1, 0xffff_ffff);
    var x, y := Low32(a.0), Low32(b.0);
    GetNumMeans(l0);
    GetNumMeans(l1);
    CommandMeans(o, x, a.1, 0, Absent);
    CommandMeans(o, x, a.1, y, b.1);
    CommandMeans(o, 0, Absent, 0, Absent);
    hide GetNum;
    hide Low32;
    hide Written;
    hide IsValue;
    hide IsRegister;
    hide Command;
    hide Takes;
    hide Operands;
    hide OperandClass;
    TakesByClass(o, l0, l1);
  }
}
