/**
 The script language of lgpio/lgCmd.c and lgpio/lgScript.c: commands, the checks on their
 operands, and what each does. Two interpreters share the data operations: one runs the
 assembled program as the script thread does, the other runs the source, where a TAG is
 nothing to do and a jump looks for its label.
 */
module ScriptModel {
  import B = ScriptBits

  datatype Option<T> = None | Some(value: T)

  const VARS: nat := 150
  const PARAMS: nat := 10
  const STACK_SIZE: nat := 256
  const MAX_TAGS: nat := 50
  const MAX_ARG: nat := 8

  const TWO31: int := 0x8000_0000
  const TWO32: int := B.WORD

  type Int32 = x: int | -0x8000_0000 <= x < 0x8000_0000
  type UInt32 = B.UInt32

  /** Ordinary daemon commands have numbers below 800; the rest are the script's own. */
  datatype Op =
    | Ordinary(cmd: nat)
    | ADD | AND | CALL | CMDR | CMDW | CMP | DCR | DCRA | DIV | HALT | INR | INRA
    | JGE | JGT | JLE | JLT | JMP | JNZ | JZ | TAG | LD | LDA | LDAB | MLT | MOD | NOP
    | OR | POP | POPA | PUSH | PUSHA | RET | RL | RLA | RR | RRA | SHL | SHLA | SHR | SHRA
    | STA | STAB | SUB | SYS | X | XA | XOR

  /** How an operand was written: not at all, as a number, as v<n> or as p<n>. */
  datatype Opt = Absent | Numeric | Var | Par

  datatype Instr = Instr(op: Op, args: seq<UInt32>, opts: seq<Opt>)

  // ------------------------------------------------------------------ operand checks

  datatype Lexeme = LNum(v: nat) | LVar(v: nat) | LPar(v: nat) | LNone

  /** getNum: the value, and the kind of operand if it is within bounds. */
  function GetNum(l: Lexeme, max: nat): (nat, Opt) {
    match l
    case LNum(v) => (v, if v <= max then Numeric else Absent)
    case LVar(v) => (v, if v < VARS then Var else Absent)
    case LPar(v) => (v, if v < PARAMS then Par else Absent)
    case LNone => (0, Absent)
  }

  predicate Register(o: Op) {
    (o.DCR? || o.INR? || o.POP? || o.PUSH? || o.STA? || o.XA?)
  }

  predicate RegisterAndValue(o: Op) { (o.LD? || o.RL? || o.RR? || o.SHL? || o.SHR?) }

  predicate Jump(o: Op) { (o.JMP? || o.CALL? || o.JZ? || o.JNZ? || o.JGE? || o.JGT? || o.JLE? || o.JLT?) }

  predicate NoOperand(o: Op) { (o.DCRA? || o.HALT? || o.INRA? || o.NOP? || o.POPA? || o.PUSHA? || o.RET?) }

  /** The verification classes 200 to 206 of the command table; SYS takes a string. */
  function OperandClass(o: Op): nat
    requires !o.Ordinary?
  {
    if NoOperand(o) then 200
    else if o.SYS? then 206
    else if Jump(o) || o.TAG? then 202
    else if Register(o) then 203
    else if RegisterAndValue(o) then 204
    else if o.X? then 205
    else 201
  }

  function Low32(v: nat): UInt32 { v % TWO32 }

  /** A command with up to two operands; what is not given is 0 and Absent. */
  function Command(o: Op, x: UInt32, a: Opt, y: UInt32, b: Opt): Instr {
    Instr(o, [x, y] + seq(6, _ => 0), [a, b] + seq(6, _ => Absent))
  }

  /** cmdParse on a script command: None for a bad parameter. */
  function Parse(o: Op, l0: Lexeme, l1: Lexeme): Option<Instr>
    requires !o.Ordinary?
  {
    var a, b := GetNum(l0, 0xffff_ffff), GetNum(l1, 0xffff_ffff);
    var x, y := Low32(a.0), Low32(b.0);
    match OperandClass(o)
    case 200 => Some(Command(o, 0, Absent, 0, Absent))
    case 201 => if a.1 != Absent then Some(Command(o, x, a.1, 0, Absent)) else None
    case 202 => if a.1 == Numeric then Some(Command(o, x, a.1, 0, Absent)) else None
    case 203 => if a.1 != Absent && x < VARS then Some(Command(o, x, a.1, 0, Absent)) else None
    case 204 => if a.1 != Absent && x < VARS && b.1 != Absent then Some(Command(o, x, a.1, y, b.1)) else None
    case 205 =>
      if a.1 != Absent && x < VARS && b.1 != Absent && y < VARS then Some(Command(o, x, a.1, y, b.1)) else None
    case _ => Some(Command(o, 0, Absent, 0, Absent))
  }

  predicate SafeOperand(x: UInt32, a: Opt) { (a.Var? ==> x < VARS) && (a.Par? ==> x < PARAMS) }

  /** The operand will index a register array, as a parameter or else as a variable. */
  predicate NamesRegister(x: UInt32, a: Opt) { SafeOperand(x, a) && (!a.Par? ==> x < VARS) }

  /** Every operand the interpreter will use as an index is within its array. */
  predicate Safe(i: Instr) {
    && |i.args| == MAX_ARG && |i.opts| == MAX_ARG
    && (forall k :: 0 <= k < MAX_ARG ==> SafeOperand(i.args[k], i.opts[k]))
    && (Register(i.op) || RegisterAndValue(i.op) || i.op.X? ==> NamesRegister(i.args[0], i.opts[0]))
    && (i.op.X? ==> NamesRegister(i.args[1], i.opts[1]))
    && (Jump(i.op) ==> i.opts[0] == Numeric)
  }

  lemma GetNumSafe(l: Lexeme)
    ensures var g := GetNum(l, 0xffff_ffff); SafeOperand(Low32(g.0), g.1)
  {
  }

  lemma CommandSafe(o: Op, x: UInt32, a: Opt, y: UInt32, b: Opt)
    requires SafeOperand(x, a) && SafeOperand(y, b)
    requires Register(o) || RegisterAndValue(o) || o.X? ==> NamesRegister(x, a)
    requires o.X? ==> NamesRegister(y, b)
    requires Jump(o) ==> a == Numeric
    ensures Safe(Command(o, x, a, y, b)) && Command(o, x, a, y, b).op == o
  {
  }

  lemma ClassMeaning(o: Op)
    requires !o.Ordinary?
    ensures Register(o) ==> OperandClass(o) == 203
    ensures RegisterAndValue(o) ==> OperandClass(o) == 204
    ensures o.X? ==> OperandClass(o) == 205
    ensures Jump(o) ==> OperandClass(o) == 202
  {
  }

  /** Whatever is written, an accepted command indexes only the 150 variables and 10 parameters. */
  lemma ParsedIsSafe(o: Op, l0: Lexeme, l1: Lexeme)
    requires !o.Ordinary? && Parse(o, l0, l1).Some?
    ensures Safe(Parse(o, l0, l1).value) && Parse(o, l0, l1).value.op == o
  {
    GetNumSafe(l0);
    GetNumSafe(l1);
    ClassMeaning(o);
    hide OperandClass;
    hide Register;
    hide RegisterAndValue;
    hide Jump;
    hide Command;
    hide SafeOperand;
    hide Safe;
    hide GetNum;
    hide Low32;
    var a, b := GetNum(l0, 0xffff_ffff), GetNum(l1, 0xffff_ffff);
    var x, y := Low32(a.0), Low32(b.0);
    match OperandClass(o)
    case 200 => CommandSafe(o, 0, Absent, 0, Absent);
    case 201 => CommandSafe(o, x, a.1, 0, Absent);
    case 202 => CommandSafe(o, x, a.1, 0, Absent);
    case 203 => CommandSafe(o, x, a.1, 0, Absent);
    case 204 => CommandSafe(o, x, a.1, y, b.1);
    case 205 => CommandSafe(o, x, a.1, y, b.1);
    case _ => CommandSafe(o, 0, Absent, 0, Absent);
  }

  // -------------------------------------------------------------------- data operations

  /** Wrap-around of 32-bit arithmetic. */
  function Wrap(n: int): Int32 {
    var m := n % TWO32;
    if m >= TWO31 then m - TWO32 else m
  }

  function Unsigned(n: Int32): B.UInt32 { n % TWO32 }

  function BitAnd(a: Int32, b: Int32): Int32 { Wrap(B.Word(B.And, Unsigned(a), Unsigned(b))) }

  function BitOr(a: Int32, b: Int32): Int32 { Wrap(B.Word(B.Or, Unsigned(a), Unsigned(b))) }

  function BitXor(a: Int32, b: Int32): Int32 { Wrap(B.Word(B.Xor, Unsigned(a), Unsigned(b))) }

  function CDiv(a: int, b: int): int
    requires b != 0
  {
    if (a >= 0) == (b > 0) then (if a >= 0 then a else -a) / (if b > 0 then b else -b)
    else -((if a >= 0 then a else -a) / (if b > 0 then b else -b))
  }

  /** A command sent to the daemon. */
  datatype Sent = Sent(cmd: nat, args: seq<Int32>)

  /** Accumulator, flags, variables, parameters, and the commands sent so far. */
  datatype Data = Data(A: Int32, F: Int32, vars: seq<Int32>, pars: seq<Int32>, log: seq<Sent>)

  predicate Sized(d: Data) { |d.vars| == VARS && |d.pars| == PARAMS }

  /** The daemon's answer may depend on everything sent. */
  type World = seq<Sent> -> Int32

  function Substituted(i: Instr, k: nat, d: Data): Int32
    requires Safe(i) && k < MAX_ARG && Sized(d)
  {
    match i.opts[k]
    case Var => d.vars[i.args[k]]
    case Par => d.pars[i.args[k]]
    case _ => Wrap(i.args[k])
  }

  /** Operand k names a register. */
  predicate Names(i: Instr, k: nat) {
    Safe(i) && k < MAX_ARG && NamesRegister(i.args[k], i.opts[k])
  }

  function Load(i: Instr, k: nat, d: Data): Int32
    requires Names(i, k) && Sized(d)
  {
    if i.opts[k].Par? then d.pars[i.args[k]] else d.vars[i.args[k]]
  }

  function Store(i: Instr, k: nat, d: Data, v: Int32): (r: Data)
    requires Names(i, k) && Sized(d)
    ensures Sized(r)
  {
    if i.opts[k].Par? then d.(pars := d.pars[i.args[k] := v]) else d.(vars := d.vars[i.args[k] := v])
  }

  function Both(d: Data, v: Int32): Data { d.(A := v, F := v) }

  function StoreF(i: Instr, d: Data, v: Int32): (r: Data)
    requires Names(i, 0) && Sized(d)
    ensures Sized(r)
  {
    Store(i, 0, d, v).(F := v)
  }

  datatype Shift = RotateLeft | RotateRight | Left | Right

  /** Shifting by 32 or more is undefined in C. */
  function Shifted(s: Shift, v: Int32, n: Int32): Option<Int32> {
    if n < 0 || n >= 32 then None
    else
      var x := Unsigned(v);
      Some(Wrap(match s
        case RotateLeft => B.Rol(x, n)
        case RotateRight => B.Ror(x, n)
        case Left => B.Shl(x, n)
        case Right => B.Shr(x, n)))
  }

  predicate DividesDefined(a: Int32, b: Int32) { b != 0 && !(a == -0x8000_0000 && b == -1) }

  /** In the command table but not in the interpreter's switch: nothing happens, not even to PC. */
  predicate Idle(o: Op) { (o.NOP? || o.CMDR? || o.CMDW? || o.LDAB? || o.STAB?) }

  predicate Control(o: Op) { Jump(o) || Idle(o) || (o.RET? || o.HALT? || o.TAG?) }

  predicate Stacking(o: Op) { (o.PUSH? || o.PUSHA? || o.POP? || o.POPA?) }

  function ShiftReg(s: Shift, i: Instr, d: Data): (r: Option<Data>)
    requires Names(i, 0) && Sized(d) && Safe(i)
    ensures r.Some? ==> Sized(r.value)
  {
    var v := Shifted(s, Load(i, 0, d), Substituted(i, 1, d));
    if v.Some? then Some(StoreF(i, d, v.value)) else None
  }

  function ShiftAcc(s: Shift, i: Instr, d: Data): (r: Option<Data>)
    requires Safe(i) && Sized(d)
    ensures r.Some? ==> Sized(r.value)
  {
    var v := Shifted(s, d.A, Substituted(i, 0, d));
    if v.Some? then Some(Both(d, v.value)) else None
  }

  /** Every command but those that jump, stop or use the stack. None is undefined behaviour. */
  function Plain(i: Instr, d: Data, world: World): (r: Option<Data>)
    requires Safe(i) && Sized(d) && !Control(i.op) && !Stacking(i.op)
    ensures r.Some? ==> Sized(r.value)
  {
    var p0 := Substituted(i, 0, d);
    match i.op
    case Ordinary(cmd) =>
      var log := d.log + [Sent(cmd, seq(MAX_ARG, k requires 0 <= k < MAX_ARG => Substituted(i, k, d)))];
      Some(Both(d, world(log)).(log := log))
    case ADD => Some(Both(d, Wrap(d.A + p0)))
    case SUB => Some(Both(d, Wrap(d.A - p0)))
    case MLT => Some(Both(d, Wrap(d.A * p0)))
    case DIV => if DividesDefined(d.A, p0) then Some(Both(d, Wrap(CDiv(d.A, p0)))) else None
    case MOD => if DividesDefined(d.A, p0) then Some(Both(d, Wrap(d.A - p0 * CDiv(d.A, p0)))) else None
    case AND => Some(Both(d, BitAnd(d.A, p0)))
    case OR => Some(Both(d, BitOr(d.A, p0)))
    case XOR => Some(Both(d, BitXor(d.A, p0)))
    case CMP => Some(d.(F := Wrap(d.A - p0)))
    case DCR => Some(StoreF(i, d, Wrap(Load(i, 0, d) - 1)))
    case INR => Some(StoreF(i, d, Wrap(Load(i, 0, d) + 1)))
    case DCRA => Some(Both(d, Wrap(d.A - 1)))
    case INRA => Some(Both(d, Wrap(d.A + 1)))
    case LD => Some(Store(i, 0, d, Substituted(i, 1, d)))
    case LDA => Some(d.(A := p0))
    case STA => Some(Store(i, 0, d, d.A))
    case RL => ShiftReg(RotateLeft, i, d)
    case RR => ShiftReg(RotateRight, i, d)
    case SHL => ShiftReg(Left, i, d)
    case SHR => ShiftReg(Right, i, d)
    case RLA => ShiftAcc(RotateLeft, i, d)
    case RRA => ShiftAcc(RotateRight, i, d)
    case SHLA => ShiftAcc(Left, i, d)
    case SHRA => ShiftAcc(Right, i, d)
    case X => Some(Store(i, 1, Store(i, 0, d, Load(i, 1, d)), Load(i, 0, d)))
    case XA => Some(Store(i, 0, d, d.A).(A := Load(i, 0, d)))
    case SYS => Some(d.(F := d.A))
  }

  predicate Taken(o: Op, F: Int32)
    requires Jump(o)
  {
    match o
    case JLE => F <= 0
    case JLT => F < 0
    case JNZ => F != 0
    case JGE => F >= 0
    case JGT => F > 0
    case JZ => F == 0
    case _ => true
  }

  function Pushed(i: Instr, d: Data): Int32
    requires Safe(i) && Sized(d) && (i.op.PUSH? || i.op.PUSHA?)
  {
    if i.op.PUSH? then Load(i, 0, d) else d.A
  }

  function Popped(i: Instr, d: Data, v: Int32): (r: Data)
    requires Safe(i) && Sized(d) && (i.op.POP? || i.op.POPA?)
    ensures Sized(r)
  {
    if i.op.POP? then Store(i, 0, d, v) else d.(A := v)
  }

  // ------------------------------------------------------------------- the script thread

  /** Confused is not a state of the thread: it is where the source interpreter gives up. */
  datatype Status = Running | Ended | Failed | Undefined | Confused

  datatype Vm = Vm(d: Data, pc: int, stack: seq<Int32>, status: Status)

  /** Past the last instruction the script has ended, whatever else happened. */
  function Settle(v: Vm, n: nat): Vm {
    if v.pc >= n && v.status != Undefined then v.(status := Ended) else v
  }

  function Act(i: Instr, v: Vm, world: World): (r: Vm)
    requires Safe(i) && Sized(v.d) && |v.stack| <= STACK_SIZE && !i.op.TAG?
    ensures Sized(r.d) && |r.stack| <= STACK_SIZE
  {
    if Jump(i.op) && !i.op.CALL? then
      v.(pc := if Taken(i.op, v.d.F) then Wrap(i.args[0]) else v.pc + 1)
    else if i.op.CALL? then
      var to := Wrap(i.args[0]);
      if |v.stack| < STACK_SIZE then v.(stack := v.stack + [Wrap(v.pc + 1)], pc := to)
      else v.(status := Failed, pc := to)
    else if i.op.RET? then
      if |v.stack| > 0 then v.(pc := v.stack[|v.stack| - 1], stack := v.stack[..|v.stack| - 1])
      else v.(status := Failed, pc := 0)
    else if i.op.HALT? then v.(status := Ended)
    else if (i.op.PUSH? || i.op.PUSHA?) then
      if |v.stack| < STACK_SIZE then v.(stack := v.stack + [Pushed(i, v.d)], pc := v.pc + 1)
      else v.(status := Failed, pc := v.pc + 1)
    else if (i.op.POP? || i.op.POPA?) then
      if |v.stack| > 0 then
        v.(d := Popped(i, v.d, v.stack[|v.stack| - 1]), stack := v.stack[..|v.stack| - 1], pc := v.pc + 1)
      else v.(d := Popped(i, v.d, 0), status := Failed, pc := v.pc + 1)
    else if Idle(i.op) then v
    else
      var p := Plain(i, v.d, world);
      if p.Some? then v.(d := p.value, pc := v.pc + 1) else v.(status := Undefined)
  }

  predicate Fetchable(prog: seq<Instr>, v: Vm) {
    && 0 <= v.pc < |prog| && |v.stack| <= STACK_SIZE && Sized(v.d)
    && Safe(prog[v.pc]) && prog[v.pc].op != TAG
  }

  function Step(prog: seq<Instr>, v: Vm, world: World): (r: Vm)
    requires Fetchable(prog, v)
    ensures Sized(r.d) && |r.stack| <= STACK_SIZE
  {
    Settle(Act(prog[v.pc], v, world), |prog|)
  }

  // ------------------------------------------------------------------ the source's meaning

  /** A stack cell of the source interpreter knows what it is. */
  datatype Slot = Return(pos: nat) | Value(v: Int32)

  datatype Src = Src(d: Data, pos: nat, stack: seq<Slot>, status: Status)

  /** The position of the label, or the length. */
  function FindTag(src: seq<Instr>, tag: UInt32): (p: nat)
    requires AllSafe(src)
    ensures p <= |src|
    ensures p < |src| ==> src[p].op.TAG? && src[p].args[0] == tag
    ensures forall k :: 0 <= k < p ==> !(src[k].op.TAG? && src[k].args[0] == tag)
  {
    if src == [] || (src[0].op.TAG? && src[0].args[0] == tag) then 0
    else 1 + FindTag(src[1..], tag)
  }

  ghost predicate AllSafe(src: seq<Instr>) { forall k :: 0 <= k < |src| ==> Safe(src[k]) }

  /** Nothing but tags from here on. */
  predicate OnlyTags(src: seq<Instr>, pos: nat) {
    forall k :: pos <= k < |src| ==> src[k].op.TAG?
  }

  function SrcSettle(s: Src, src: seq<Instr>): Src {
    if OnlyTags(src, s.pos) && s.status != Undefined && s.status != Confused then s.(status := Ended) else s
  }

  function SrcAct(src: seq<Instr>, s: Src, world: World): (r: Src)
    requires AllSafe(src) && s.pos < |src| && Sized(s.d) && |s.stack| <= STACK_SIZE
    ensures Sized(r.d) && |r.stack| <= STACK_SIZE
  {
    var i := src[s.pos];
    if i.op.TAG? then s.(pos := s.pos + 1)
    else if Jump(i.op) && !i.op.CALL? then
      s.(pos := if Taken(i.op, s.d.F) then FindTag(src, i.args[0]) else s.pos + 1)
    else if i.op.CALL? then
      var to := FindTag(src, i.args[0]);
      if |s.stack| < STACK_SIZE then s.(stack := s.stack + [Return(s.pos + 1)], pos := to)
      else s.(status := Failed, pos := to)
    else if i.op.RET? then
      if |s.stack| == 0 then s.(status := Failed, pos := 0)
      else
        var top := s.stack[|s.stack| - 1];
        if top.Return? then s.(pos := top.pos, stack := s.stack[..|s.stack| - 1])
        else s.(status := Confused)
    else if i.op.HALT? then s.(status := Ended)
    else if (i.op.PUSH? || i.op.PUSHA?) then
      if |s.stack| < STACK_SIZE then s.(stack := s.stack + [Value(Pushed(i, s.d))], pos := s.pos + 1)
      else s.(status := Failed, pos := s.pos + 1)
    else if (i.op.POP? || i.op.POPA?) then
      if |s.stack| == 0 then s.(d := Popped(i, s.d, 0), status := Failed, pos := s.pos + 1)
      else
        var top := s.stack[|s.stack| - 1];
        if top.Value? then s.(d := Popped(i, s.d, top.v), stack := s.stack[..|s.stack| - 1], pos := s.pos + 1)
        else s.(status := Confused)
    else if Idle(i.op) then s
    else
      var p := Plain(i, s.d, world);
      if p.Some? then s.(d := p.value, pos := s.pos + 1) else s.(status := Undefined)
  }

  function SrcStep(src: seq<Instr>, s: Src, world: World): (r: Src)
    requires AllSafe(src) && s.pos < |src| && Sized(s.d) && |s.stack| <= STACK_SIZE
    ensures Sized(r.d) && |r.stack| <= STACK_SIZE
  {
    SrcSettle(SrcAct(src, s, world), src)
  }
}
