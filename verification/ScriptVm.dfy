/**
 The interpreter loop of lgpio/lgScript.c as it runs: registers, a stack array with its pointer,
 arrays of variables and parameters changed in place. Each part is proved to do what
 ScriptModel.dfy says, so that the theorems of ScriptProof.dfy and ScriptSafety.dfy are about this
 loop.
 */
module ScriptVm {
  import opened ScriptModel
  import opened ScriptProof
  import opened ScriptSafety

  predicate Arithmetical(o: Op) {
    (o.ADD? || o.SUB? || o.MLT? || o.DIV? || o.MOD? || o.AND? || o.OR? || o.XOR? || o.CMP? || o.DCRA? || o.INRA?
     || o.LDA? || o.SYS?)
  }

  predicate OnRegister(o: Op) { (o.DCR? || o.INR? || o.LD? || o.STA? || o.X? || o.XA?) }

  predicate ShiftsRegister(o: Op) { (o.RL? || o.RR? || o.SHL? || o.SHR?) }

  predicate ShiftsA(o: Op) { (o.RLA? || o.RRA? || o.SHLA? || o.SHRA?) }

  function ShiftOf(o: Op): Shift
    requires ShiftsRegister(o) || ShiftsA(o)
  {
    if o.RL? || o.RLA? then RotateLeft
    else if o.RR? || o.RRA? then RotateRight
    else if o.SHL? || o.SHLA? then Left
    else Right
  }

  lemma ShiftMeans(i: Instr, d: Data, world: World)
    requires Safe(i) && Sized(d) && ShiftsRegister(i.op)
    ensures Names(i, 0) && Plain(i, d, world) == ShiftReg(ShiftOf(i.op), i, d)
  {
    hide Shifted;
    hide StoreF;
    hide Load;
  }

  lemma ExchangeMeans(i: Instr, d: Data, world: World)
    requires Safe(i) && Sized(d) && (i.op.X? || i.op.XA?)
    ensures Names(i, 0) && (i.op.X? ==> Names(i, 1))
    ensures Plain(i, d, world) == Some(if i.op.X? then Store(i, 1, Store(i, 0, d, Load(i, 1, d)), Load(i, 0, d))
                                       else Store(i, 0, d, d.A).(A := Load(i, 0, d)))
  {
    hide Load;
    hide Store;
  }

  class Interpreter {
    var A: Int32
    var F: Int32
    var PC: int
    var SP: nat
    var runState: Status
    var sent: seq<Sent>
    const S: array<Int32>
    const vars: array<Int32>
    const pars: array<Int32>

    predicate Valid()
      reads this
    {
      && S.Length == STACK_SIZE && vars.Length == VARS && pars.Length == PARAMS
      && S != vars && S != pars && vars != pars
      && SP <= STACK_SIZE
    }

    ghost function D(): (d: Data)
      requires Valid()
      reads this, vars, pars
      ensures Sized(d)
    {
      Data(A, F, vars[..], pars[..], sent)
    }

    ghost function State(): (v: Vm)
      requires Valid()
      reads this, S, vars, pars
      ensures Sized(v.d) && |v.stack| <= STACK_SIZE
    {
      Vm(D(), PC, S[..SP], runState)
    }

    /** What the thread does each time it is told to run. */
    constructor (v: array<Int32>, p: array<Int32>)
      requires v.Length == VARS && p.Length == PARAMS && v != p
      ensures Valid() && State() == VmStart(v[..], p[..])
      ensures A == 0 && F == 0 && PC == 0 && SP == 0 && runState == Running && sent == []
      ensures vars == v && pars == p && fresh(S)
    {
      A, F, PC, SP, runState, sent := 0, 0, 0, 0, Running, [];
      S := new Int32[STACK_SIZE](_ => 0);
      vars, pars := v, p;
    }

    // ---------------------------------------------------------------------- the stack

    method ScrPop() returns (v: Int32)
      requires Valid()
      modifies `SP, `runState
      ensures Valid()
      ensures old(SP) > 0 ==> var s := old(State());
                v == s.stack[|s.stack| - 1] && State() == s.(stack := s.stack[..|s.stack| - 1])
      ensures old(SP) == 0 ==> v == 0 && State() == old(State()).(status := Failed)
    {
      if SP > 0 {
        SP := SP - 1;
        v := S[SP];
      } else {
        runState := Failed;
        v := 0;
      }
    }

    method ScrPush(val: Int32)
      requires Valid()
      modifies `SP, `runState, S
      ensures Valid()
      ensures var s := old(State());
              State() == if |s.stack| < STACK_SIZE then s.(stack := s.stack + [val]) else s.(status := Failed)
    {
      ghost var vs, ps := vars[..], pars[..];
      if SP < STACK_SIZE {
        S[SP] := val;
        SP := SP + 1;
      } else {
        runState := Failed;
      }
      assert vars[..] == vs && pars[..] == ps;
    }

    // ------------------------------------------------------------------- the operands

    method Substitute(i: Instr, n: nat) returns (a: seq<Int32>)
      requires Valid() && Safe(i) && n <= MAX_ARG
      ensures |a| == n && forall k :: 0 <= k < n ==> a[k] == Substituted(i, k, D())
    {
      a := [];
      for k := 0 to n
        invariant |a| == k && forall j :: 0 <= j < k ==> a[j] == Substituted(i, j, D())
      {
        var t := i.args[k];
        assert SafeOperand(t, i.opts[k]);
        var v := if i.opts[k].Var? then vars[t] else if i.opts[k].Par? then pars[t] else Wrap(t);
        a := a + [v];
      }
    }

    method Get(i: Instr, k: nat) returns (v: Int32)
      requires Valid() && Names(i, k)
      ensures v == Load(i, k, D())
    {
      if i.opts[k].Par? {
        v := pars[i.args[k]];
      } else {
        v := vars[i.args[k]];
      }
    }

    method Set(i: Instr, k: nat, v: Int32)
      requires Valid() && Names(i, k)
      modifies vars, pars
      ensures Valid() && D() == Store(i, k, old(D()), v) && S[..] == old(S[..])
    {
      if i.opts[k].Par? {
        pars[i.args[k]] := v;
      } else {
        vars[i.args[k]] := v;
      }
    }

    // ------------------------------------------------------------------- the commands

    /** ok is false where C leaves the result undefined. */
    method Arithmetic(i: Instr, p0: Int32, ghost world: World) returns (ok: bool)
      requires Valid() && Safe(i) && Arithmetical(i.op) && p0 == Substituted(i, 0, D())
      modifies `A, `F
      ensures Valid() && ok == Plain(i, old(D()), world).Some?
      ensures D() == if ok then Plain(i, old(D()), world).value else old(D())
    {
      hide Safe;
      hide Substituted;
      hide Wrap;
      hide CDiv;
      ok := true;
      if i.op.ADD? {
        A := Wrap(A + p0);
        F := A;
      } else if i.op.SUB? {
        A := Wrap(A - p0);
        F := A;
      } else if i.op.MLT? {
        A := Wrap(A * p0);
        F := A;
      } else if i.op.DIV? {
        ok := DividesDefined(A, p0);
        if ok {
          A := Wrap(CDiv(A, p0));
          F := A;
        }
      } else if i.op.MOD? {
        ok := DividesDefined(A, p0);
        if ok {
          A := Wrap(A - p0 * CDiv(A, p0));
          F := A;
        }
      } else if i.op.DCRA? {
        A := Wrap(A - 1);
        F := A;
      } else if i.op.INRA? {
        A := Wrap(A + 1);
        F := A;
      } else if i.op.CMP? {
        F := Wrap(A - p0);
      } else if i.op.LDA? {
        A := p0;
      } else if i.op.SYS? {
        F := A;
      } else {
        Bitwise(i, p0, world);
      }
    }

    method Bitwise(i: Instr, p0: Int32, ghost world: World)
      requires Valid() && Safe(i) && (i.op.AND? || i.op.OR? || i.op.XOR?) && p0 == Substituted(i, 0, D())
      modifies `A, `F
      ensures Valid() && Plain(i, old(D()), world) == Some(D())
    {
      hide Safe;
      hide Substituted;
      hide BitAnd;
      hide BitOr;
      hide BitXor;
      if i.op.AND? {
        A := BitAnd(A, p0);
      } else if i.op.OR? {
        A := BitOr(A, p0);
      } else {
        A := BitXor(A, p0);
      }
      F := A;
    }

    /** The register of the instruction, and A and F, change. */
    method Register(i: Instr, p1: Int32, ghost world: World)
      requires Valid() && Safe(i) && OnRegister(i.op) && p1 == Substituted(i, 1, D())
      modifies `A, `F, vars, pars
      ensures Valid() && Plain(i, old(D()), world) == Some(D()) && S[..] == old(S[..])
    {
      assert Names(i, 0) && (i.op.X? ==> Names(i, 1));
      hide Safe;
      hide Substituted;
      hide Wrap;
      hide NamesRegister;
      hide Names;
      hide Load;
      hide Store;
      var v := Get(i, 0);
      if i.op.DCR? {
        v := Wrap(v as int - 1);
        Set(i, 0, v);
        F := v;
      } else if i.op.INR? {
        v := Wrap(v as int + 1);
        Set(i, 0, v);
        F := v;
      } else if i.op.LD? {
        Set(i, 0, p1);
      } else if i.op.STA? {
        Set(i, 0, A);
      } else {
        Exchange(i, world);
      }
    }

    /** scrSwap of two registers, or of a register and A. */
    method Exchange(i: Instr, ghost world: World)
      requires Valid() && Safe(i) && (i.op.X? || i.op.XA?)
      modifies `A, vars, pars
      ensures Valid() && Plain(i, old(D()), world) == Some(D()) && S[..] == old(S[..])
    {
      ExchangeMeans(i, D(), world);
      hide Safe;
      hide NamesRegister;
      hide Names;
      hide Load;
      hide Store;
      hide Plain;
      var v := Get(i, 0);
      if i.op.X? {
        var w := Get(i, 1);
        Set(i, 0, w);
        Set(i, 1, v);
      } else {
        Set(i, 0, A);
        A := v;
      }
    }

    method ShiftRegister(i: Instr, p1: Int32, ghost world: World) returns (ok: bool)
      requires Valid() && Safe(i) && ShiftsRegister(i.op) && p1 == Substituted(i, 1, D())
      modifies `F, vars, pars
      ensures Valid() && S[..] == old(S[..]) && ok == Plain(i, old(D()), world).Some?
      ensures D() == if ok then Plain(i, old(D()), world).value else old(D())
    {
      assert Names(i, 0);
      hide Safe;
      hide Substituted;
      hide NamesRegister;
      hide Names;
      hide Load;
      hide Store;
      hide Shifted;
      hide Plain;
      ShiftMeans(i, D(), world);
      var v := Get(i, 0);
      var tmp := Shifted(ShiftOf(i.op), v, p1);
      ok := tmp.Some?;
      if ok {
        Set(i, 0, tmp.value);
        F := tmp.value;
      }
    }

    method ShiftA(i: Instr, p0: Int32, ghost world: World) returns (ok: bool)
      requires Valid() && Safe(i) && ShiftsA(i.op) && p0 == Substituted(i, 0, D())
      modifies `A, `F
      ensures Valid() && ok == Plain(i, old(D()), world).Some?
      ensures D() == if ok then Plain(i, old(D()), world).value else old(D())
    {
      hide Safe;
      hide Substituted;
      hide Shifted;
      var tmp := Shifted(ShiftOf(i.op), A, p0);
      ok := tmp.Some?;
      if ok {
        A := tmp.value;
        F := A;
      }
    }

    /** lgExecCmd with every operand substituted. */
    method Execute(i: Instr, world: World)
      requires Valid() && Safe(i) && i.op.Ordinary?
      modifies `A, `F, `sent
      ensures Valid() && Plain(i, old(D()), world) == Some(D())
    {
      var args := Substitute(i, MAX_ARG);
      ghost var d := D();
      hide Safe;
      hide Substituted;
      assert args == seq(MAX_ARG, k requires 0 <= k < MAX_ARG => Substituted(i, k, d));
      sent := sent + [Sent(i.op.cmd, args)];
      A := world(sent);
      F := A;
    }

    method PlainCommand(i: Instr, world: World)
      requires Valid() && Safe(i) && !Control(i.op) && !Stacking(i.op)
      modifies `A, `F, `PC, `runState, `sent, vars, pars
      ensures Valid() && State() == Act(i, old(State()), world)
    {
      var p := Substitute(i, 2);
      var ok := true;
      hide Safe;
      hide Plain;
      hide Substituted;
      ghost var stack := S[..SP];
      if i.op.Ordinary? {
        Execute(i, world);
      } else if Arithmetical(i.op) {
        ok := Arithmetic(i, p[0], world);
      } else if ShiftsA(i.op) {
        ok := ShiftA(i, p[0], world);
      } else if ShiftsRegister(i.op) {
        ok := ShiftRegister(i, p[1], world);
      } else {
        Register(i, p[1], world);
      }
      assert S[..SP] == stack;
      if ok {
        PC := PC + 1;
      } else {
        runState := Undefined;
      }
    }

    method Branch(i: Instr, ghost world: World)
      requires Valid() && Safe(i) && (Jump(i.op) || i.op.RET? || i.op.HALT? || Idle(i.op))
      modifies `PC, `SP, `runState, S
      ensures Valid() && State() == Act(i, old(State()), world)
    {
      assert |i.args| == MAX_ARG;
      hide Safe;
      hide Plain;
      hide Wrap;
      hide Taken;
      if i.op.CALL? {
        ScrPush(Wrap(PC + 1));
        PC := Wrap(i.args[0]);
      } else if Jump(i.op) {
        PC := if Taken(i.op, F) then Wrap(i.args[0]) else PC + 1;
      } else if i.op.RET? {
        PC := ScrPop();
      } else if i.op.HALT? {
        runState := Ended;
      }
    }

    method StackCommand(i: Instr, ghost world: World)
      requires Valid() && Safe(i) && Stacking(i.op)
      modifies `A, `PC, `SP, `runState, S, vars, pars
      ensures Valid() && State() == Act(i, old(State()), world)
    {
      assert !i.op.POPA? && !i.op.PUSHA? ==> Names(i, 0);
      hide Safe;
      hide Plain;
      hide Load;
      hide Store;
      hide Names;
      hide Act;
      var v;
      if i.op.PUSH? || i.op.PUSHA? {
        PushMeans(i, State(), world);
      } else {
        PopMeans(i, State(), world);
      }
      if i.op.PUSH? {
        v := Get(i, 0);
        ScrPush(v);
      } else if i.op.PUSHA? {
        ScrPush(A);
      } else if i.op.POP? {
        v := ScrPop();
        Set(i, 0, v);
      } else {
        A := ScrPop();
      }
      PC := PC + 1;
    }

    /** One turn of the inner loop. */
    method StepOnce(instr: array<Instr>, instrs: nat, world: World)
      requires Valid() && instrs <= instr.Length && Fetchable(instr[..instrs], State())
      modifies this, S, vars, pars
      ensures Valid() && State() == Step(instr[..instrs], old(State()), world)
    {
      hide Safe;
      hide Act;
      var i := instr[PC];
      assert i == instr[..instrs][PC];
      if Stacking(i.op) {
        StackCommand(i, world);
      } else if Control(i.op) {
        Branch(i, world);
      } else {
        PlainCommand(i, world);
      }
      if runState != Undefined && PC >= instrs {
        runState := Ended;
      }
    }

    /** The inner loop, until the script stops or, after `budget` instructions, is told to. It asks
        no more than that the program never leads outside itself, for which ScriptSafety has the exact
        condition; then every fetch, register and stack cell is in bounds, and the end is what
        VmRun says. */
    method Run(instr: array<Instr>, instrs: nat, budget: nat, world: World)
      requires Valid() && instrs <= instr.Length && StaysInside(instr[..instrs], State(), world)
      modifies this, S, vars, pars
      ensures Valid()
      ensures State() == VmRun(instr[..instrs], old(State()), budget, world)
    {
      hide Step;
      hide Fetchable;
      ghost var v0, prog := State(), instr[..instrs];
      var left: nat := budget;
      while left > 0 && runState.Running?
        invariant Valid() && left <= budget && instr[..instrs] == prog
        invariant State() == VmRun(prog, v0, budget - left, world)
      {
        assert CanGoOn(prog, VmRun(prog, v0, budget - left, world));
        StepOnce(instr, instrs, world);
        left := left - 1;
      }
      StopsForGood(prog, v0, budget - left, budget, world);
    }
  }

  lemma {:induction false} StopsForGood(prog: seq<Instr>, v: Vm, m: nat, n: nat, world: World)
    requires m <= n && (m == n || !VmRun(prog, v, m, world).status.Running?)
    ensures VmRun(prog, v, n, world) == VmRun(prog, v, m, world)
  {
    if m < n {
      StopsForGood(prog, v, m, n - 1, world);
    }
  }
}
