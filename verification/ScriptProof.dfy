/**
 The assembler preserves meaning: the program with tags stripped and jumps resolved does, step by
 step, what the source does.
 */
module ScriptProof {
  import opened ScriptModel

  // ------------------------------------------------------------------- what assembling is

  /** How many commands stand before position p. */
  function Before(src: seq<Instr>, p: nat): (n: nat)
    requires p <= |src|
    ensures n <= p
  {
    if p == 0 then 0 else Before(src, p - 1) + if src[p - 1].op.TAG? then 0 else 1
  }

  function Resolve(src: seq<Instr>, i: Instr): Instr
    requires AllSafe(src) && Safe(i)
  {
    if Jump(i.op) then i.(args := i.args[0 := Low32(Before(src, FindTag(src, i.args[0])))]) else i
  }

  /** The program made from the first p commands. */
  function Assembled(src: seq<Instr>, p: nat): (prog: seq<Instr>)
    requires AllSafe(src) && p <= |src|
    ensures |prog| == Before(src, p)
  {
    if p == 0 then []
    else Assembled(src, p - 1) + if src[p - 1].op.TAG? then [] else [Resolve(src, src[p - 1])]
  }

  function Program(src: seq<Instr>): seq<Instr>
    requires AllSafe(src)
  {
    Assembled(src, |src|)
  }

  /** Each jump has its label. */
  ghost predicate Linked(src: seq<Instr>)
    requires AllSafe(src)
  {
    forall k :: 0 <= k < |src| && Jump(src[k].op) ==> FindTag(src, src[k].args[0]) < |src|
  }

  /** The length of a script fits an int. */
  ghost predicate Script(src: seq<Instr>)
    ensures Script(src) ==> AllSafe(src)
  {
    AllSafe(src) && |src| < TWO31 && Linked(src)
  }

  lemma {:induction false} BeforeMonotone(src: seq<Instr>, p: nat, q: nat)
    requires p <= q <= |src|
    ensures Before(src, p) <= Before(src, q)
  {
    if p < q {
      BeforeMonotone(src, p, q - 1);
    }
  }

  /** A command's place in the program is the number of commands before it. */
  lemma {:induction false} AssembledAt(src: seq<Instr>, p: nat, q: nat)
    requires AllSafe(src) && p < q <= |src| && !src[p].op.TAG?
    ensures Before(src, p) < |Assembled(src, q)|
    ensures Assembled(src, q)[Before(src, p)] == Resolve(src, src[p])
  {
    if p < q - 1 {
      AssembledAt(src, p, q - 1);
    }
  }

  lemma {:induction false} OnlyTagsLeft(src: seq<Instr>, p: nat, q: nat)
    requires p <= q <= |src|
    ensures Before(src, p) == Before(src, q) <==> forall k :: p <= k < q ==> src[k].op.TAG?
  {
    if p < q {
      OnlyTagsLeft(src, p, q - 1);
      BeforeMonotone(src, p, q - 1);
    }
  }

  lemma ResolveSafe(src: seq<Instr>, i: Instr)
    requires AllSafe(src) && Safe(i)
    ensures Safe(Resolve(src, i)) && Resolve(src, i).op == i.op
  {
    var r := Resolve(src, i);
    assert forall k :: 0 < k < MAX_ARG ==> r.args[k] == i.args[k] && r.opts[k] == i.opts[k];
  }

  // ------------------------------------------------------------------------- simulation

  /** A return address in the program is the number of commands before the one in the source. */
  predicate SlotMatches(src: seq<Instr>, s: Slot, v: Int32) {
    match s
    case Return(p) => p <= |src| && v == Before(src, p)
    case Value(x) => v == x
  }

  ghost predicate Rel(src: seq<Instr>, s: Src, v: Vm) {
    && v.d == s.d && Sized(s.d) && v.status == s.status
    && s.pos <= |src| && v.pc == Before(src, s.pos)
    && |v.stack| == |s.stack| <= STACK_SIZE
    && forall k :: 0 <= k < |s.stack| ==> SlotMatches(src, s.stack[k], v.stack[k])
  }

  /** A running source has a command ahead. */
  ghost predicate Alive(src: seq<Instr>, s: Src) { s.status.Running? ==> !OnlyTags(src, s.pos) }

  lemma SettleAgrees(src: seq<Instr>, s: Src, v: Vm)
    requires AllSafe(src) && Rel(src, s, v) && !s.status.Confused?
    ensures Rel(src, SrcSettle(s, src), Settle(v, |Program(src)|)) && Alive(src, SrcSettle(s, src))
  {
    OnlyTagsLeft(src, s.pos, |src|);
    BeforeMonotone(src, s.pos, |src|);
  }

  lemma TagStep(src: seq<Instr>, s: Src, v: Vm, world: World)
    requires Script(src) && Rel(src, s, v) && s.status.Running? && Alive(src, s) && src[s.pos].op.TAG?
    ensures Rel(src, SrcStep(src, s, world), v) && Alive(src, SrcStep(src, s, world))
    ensures SrcStep(src, s, world) == s.(pos := s.pos + 1)
  {
  }

  /** Where a resolved jump goes is where its label is. */
  lemma JumpTarget(src: seq<Instr>, i: Instr)
    requires Script(src) && i in src && Jump(i.op)
    ensures var to := FindTag(src, i.args[0]);
            to < |src| && Wrap(Resolve(src, i).args[0]) == Before(src, to)
  {
    var k :| 0 <= k < |src| && src[k] == i;
    hide Safe;
    hide FindTag;
    hide Wrap;
    hide Low32;
    var to := FindTag(src, i.args[0]);
    WrapLow(Before(src, to));
  }

  lemma WrapLow(n: nat)
    requires n < TWO31
    ensures Wrap(Low32(n)) == n
  {
  }

  lemma JumpAct(src: seq<Instr>, s: Src, v: Vm, world: World)
    requires Script(src) && Rel(src, s, v) && s.pos < |src| && s.status.Running?
    requires Jump(src[s.pos].op) && !src[s.pos].op.CALL?
    requires var j := Resolve(src, src[s.pos]); Safe(j) && j.op == src[s.pos].op
    ensures Rel(src, SrcAct(src, s, world), Act(Resolve(src, src[s.pos]), v, world))
  {
    assert Before(src, s.pos + 1) == Before(src, s.pos) + 1;
    hide Safe;
    hide FindTag;
    hide Resolve;
    hide Linked;
    hide Before;
    hide Wrap;
    hide Taken;
    hide Plain;
    JumpTarget(src, src[s.pos]);
  }

  lemma SrcCallMeans(src: seq<Instr>, s: Src, world: World)
    requires AllSafe(src) && s.pos < |src| && Sized(s.d) && |s.stack| <= STACK_SIZE && src[s.pos].op.CALL?
    requires |src[s.pos].args| == MAX_ARG
    ensures var to := FindTag(src, src[s.pos].args[0]);
            SrcAct(src, s, world) == if |s.stack| < STACK_SIZE then s.(stack := s.stack + [Return(s.pos + 1)], pos := to)
                                     else s.(status := Failed, pos := to)
  {
    hide Safe;
    hide AllSafe;
    hide FindTag;
    hide Plain;
  }

  lemma CallMeans(j: Instr, v: Vm, world: World)
    requires Safe(j) && Sized(v.d) && |v.stack| <= STACK_SIZE && j.op.CALL? && |j.args| == MAX_ARG
    ensures var to := Wrap(j.args[0]);
            Act(j, v, world) == if |v.stack| < STACK_SIZE then v.(stack := v.stack + [Wrap(v.pc + 1)], pc := to)
                                else v.(status := Failed, pc := to)
  {
    hide Safe;
    hide Wrap;
    hide Plain;
  }

  lemma PushMeans(i: Instr, v: Vm, world: World)
    requires Safe(i) && Sized(v.d) && |v.stack| <= STACK_SIZE && (i.op.PUSH? || i.op.PUSHA?)
    ensures Act(i, v, world) == if |v.stack| < STACK_SIZE then v.(stack := v.stack + [Pushed(i, v.d)], pc := v.pc + 1)
                                else v.(status := Failed, pc := v.pc + 1)
  {
    hide Pushed;
    hide Plain;
    hide Safe;
  }

  lemma PopMeans(i: Instr, v: Vm, world: World)
    requires Safe(i) && Sized(v.d) && |v.stack| <= STACK_SIZE && (i.op.POP? || i.op.POPA?)
    ensures Act(i, v, world) ==
            if |v.stack| > 0 then
              v.(d := Popped(i, v.d, v.stack[|v.stack| - 1]), stack := v.stack[..|v.stack| - 1], pc := v.pc + 1)
            else v.(d := Popped(i, v.d, 0), status := Failed, pc := v.pc + 1)
  {
    hide Popped;
    hide Plain;
    hide Safe;
  }

  /** What CALL pushes: where the source goes on, and how many commands that is. */
  lemma CallPushes(src: seq<Instr>, p: nat, pc: int)
    requires p < |src| < TWO31 && !src[p].op.TAG? && pc == Before(src, p)
    ensures SlotMatches(src, Return(p + 1), Wrap(pc + 1))
  {
    hide Wrap;
    assert Before(src, p + 1) == pc + 1;
    WrapSmall(pc + 1);
  }

  lemma WrapSmall(n: nat)
    requires n < TWO31
    ensures Wrap(n) == n
  {
  }

  lemma CallAct(src: seq<Instr>, s: Src, v: Vm, world: World)
    requires Script(src) && Rel(src, s, v) && s.pos < |src| && s.status.Running?
    requires src[s.pos].op.CALL?
    requires var j := Resolve(src, src[s.pos]); Safe(j) && j.op == src[s.pos].op
    ensures Rel(src, SrcAct(src, s, world), Act(Resolve(src, src[s.pos]), v, world))
  {
    assert |src[s.pos].args| == MAX_ARG && |Resolve(src, src[s.pos]).args| == MAX_ARG;
    hide Safe;
    hide SlotMatches;
    hide AllSafe;
    hide FindTag;
    hide Resolve;
    hide Linked;
    hide Before;
    hide Wrap;
    hide Act;
    hide SrcAct;
    SrcCallMeans(src, s, world);
    CallMeans(Resolve(src, src[s.pos]), v, world);
    CallPushes(src, s.pos, v.pc);
    JumpTarget(src, src[s.pos]);
  }

  lemma StackAct(src: seq<Instr>, s: Src, v: Vm, world: World)
    requires Script(src) && Rel(src, s, v) && s.pos < |src| && s.status.Running?
    requires Stacking(src[s.pos].op) || src[s.pos].op.RET?
    requires !SrcAct(src, s, world).status.Confused?
    ensures Rel(src, SrcAct(src, s, world), Act(src[s.pos], v, world))
  {
    hide Safe;
    hide Linked;
    hide Store;
    hide Load;
    assert Before(src, s.pos + 1) == Before(src, s.pos) + 1;
    if |s.stack| > 0 {
      assert SlotMatches(src, s.stack[|s.stack| - 1], v.stack[|s.stack| - 1]);
    }
  }

  lemma PlainAct(src: seq<Instr>, s: Src, v: Vm, world: World)
    requires Script(src) && Rel(src, s, v) && s.pos < |src| && s.status.Running?
    requires var o := src[s.pos].op; !Stacking(o) && !o.RET? && !Jump(o) && !o.TAG?
    ensures Rel(src, SrcAct(src, s, world), Act(src[s.pos], v, world))
  {
    hide Safe;
    hide Linked;
    hide Plain;
    assert Before(src, s.pos + 1) == Before(src, s.pos) + 1;
  }

  lemma CommandAct(src: seq<Instr>, s: Src, v: Vm, world: World)
    requires Script(src) && Rel(src, s, v) && s.pos < |src| && s.status.Running? && !src[s.pos].op.TAG?
    requires !SrcAct(src, s, world).status.Confused?
    ensures Safe(Resolve(src, src[s.pos])) && !Resolve(src, src[s.pos]).op.TAG?
    ensures Rel(src, SrcAct(src, s, world), Act(Resolve(src, src[s.pos]), v, world))
  {
    var i := src[s.pos];
    ResolveSafe(src, i);
    hide Safe;
    hide SrcAct;
    hide Act;
    hide Rel;
    if i.op.CALL? {
      hide Resolve;
      CallAct(src, s, v, world);
    } else if Jump(i.op) {
      hide Resolve;
      JumpAct(src, s, v, world);
    } else if Stacking(i.op) || i.op.RET? {
      StackAct(src, s, v, world);
    } else {
      PlainAct(src, s, v, world);
    }
  }

  /** One command of the source is one instruction of the program. */
  lemma CommandStep(src: seq<Instr>, s: Src, v: Vm, world: World)
    requires Script(src) && Rel(src, s, v) && s.status.Running? && Alive(src, s) && !src[s.pos].op.TAG?
    ensures Fetchable(Program(src), v)
    ensures var t := SrcStep(src, s, world);
            !t.status.Confused? ==> Rel(src, t, Step(Program(src), v, world)) && Alive(src, t)
  {
    AssembledAt(src, s.pos, |src|);
    ResolveSafe(src, src[s.pos]);
    hide SrcAct;
    hide Act;
    hide Resolve;
    var t := SrcAct(src, s, world);
    if !t.status.Confused? {
      CommandAct(src, s, v, world);
      SettleAgrees(src, t, Act(Program(src)[v.pc], v, world));
    }
  }

  // --------------------------------------------------------------------------- whole runs

  /** n steps of the source interpreter, fewer if it stops. */
  function SrcRun(src: seq<Instr>, s: Src, n: nat, world: World): (r: Src)
    requires AllSafe(src) && Sized(s.d) && |s.stack| <= STACK_SIZE
    ensures Sized(r.d) && |r.stack| <= STACK_SIZE
  {
    if n == 0 then s
    else
      var b := SrcRun(src, s, n - 1, world);
      if b.status.Running? && b.pos < |src| then SrcStep(src, b, world) else b
  }

  /** n steps of the script thread; it would go wrong where an instruction cannot be fetched. */
  function VmRun(prog: seq<Instr>, v: Vm, n: nat, world: World): Vm
  {
    if n == 0 then v
    else
      var b := VmRun(prog, v, n - 1, world);
      if b.status.Running? && Fetchable(prog, b) then Step(prog, b, world) else b
  }

  /** Both interpreters start with A, F, the program counter and the stack pointer zero. */
  function SrcStart(vars: seq<Int32>, pars: seq<Int32>): Src {
    Src(Data(0, 0, vars, pars, []), 0, [], Running)
  }

  function VmStart(vars: seq<Int32>, pars: seq<Int32>): Vm {
    Vm(Data(0, 0, vars, pars, []), 0, [], Running)
  }

  ghost predicate Registers(vars: seq<Int32>, pars: seq<Int32>) { |vars| == VARS && |pars| == PARAMS }

  /** A script with at least one command. */
  ghost predicate NonEmpty(src: seq<Instr>) { !OnlyTags(src, 0) }

  /** The assembled program simulates the source: after every number of source steps the thread,
      after no more steps, is in the same state: same data, same commands sent, same status, the
      program counter and every return address counted in commands. Only a script that returns to
      data it pushed, or pops a return address, escapes this. */
  lemma {:induction false} Simulates(src: seq<Instr>, vars: seq<Int32>, pars: seq<Int32>, n: nat, world: World)
    returns (m: nat)
    requires Script(src) && NonEmpty(src) && Registers(vars, pars)
    requires !SrcRun(src, SrcStart(vars, pars), n, world).status.Confused?
    ensures m <= n
    ensures var s := SrcRun(src, SrcStart(vars, pars), n, world);
            Rel(src, s, VmRun(Program(src), VmStart(vars, pars), m, world)) && Alive(src, s)
  {
    hide SrcStep;
    hide Step;
    hide Rel;
    hide Fetchable;
    hide Script;
    hide Alive;
    m := 0;
    if n == 0 {
      StartsRelated(src, vars, pars);
    } else {
      var s := SrcRun(src, SrcStart(vars, pars), n - 1, world);
      m := Simulates(src, vars, pars, n - 1, world);
      var v := VmRun(Program(src), VmStart(vars, pars), m, world);
      if s.status.Running? {
        InRange(src, s, v);
        if src[s.pos].op.TAG? {
          TagStep(src, s, v, world);
        } else {
          CommandStep(src, s, v, world);
          m := m + 1;
        }
      }
    }
  }

  lemma StartsRelated(src: seq<Instr>, vars: seq<Int32>, pars: seq<Int32>)
    requires NonEmpty(src) && Registers(vars, pars)
    ensures Rel(src, SrcStart(vars, pars), VmStart(vars, pars)) && Alive(src, SrcStart(vars, pars))
  {
  }

  lemma InRange(src: seq<Instr>, s: Src, v: Vm)
    requires AllSafe(src) && Rel(src, s, v) && s.status.Running? && Alive(src, s)
    ensures s.pos < |src| && v.status.Running? && Sized(s.d) && |s.stack| <= STACK_SIZE
  {
  }

  /** Tags ahead of a running source cost source steps but change nothing. */
  lemma {:induction false} SkipTags(src: seq<Instr>, s0: Src, n: nat, v: Vm, world: World) returns (k: nat)
    requires Script(src) && Sized(s0.d) && |s0.stack| <= STACK_SIZE
    requires var s := SrcRun(src, s0, n, world); Rel(src, s, v) && Alive(src, s) && s.status.Running?
    ensures k >= n
    ensures var s := SrcRun(src, s0, k, world);
            Rel(src, s, v) && Alive(src, s) && s.status.Running? && s.pos < |src| && !src[s.pos].op.TAG?
    decreases |src| - SrcRun(src, s0, n, world).pos
  {
    var s := SrcRun(src, s0, n, world);
    k := n;
    InRange(src, s, v);
    if src[s.pos].op.TAG? {
      TagStep(src, s, v, world);
      k := SkipTags(src, s0, n + 1, v, world);
    }
  }

  /** And the other way about: every state the thread reaches is a state of the source, unless the
      source gets confused on the way. */
  lemma {:induction false} Simulated(src: seq<Instr>, vars: seq<Int32>, pars: seq<Int32>, m: nat, world: World)
    returns (n: nat)
    requires Script(src) && NonEmpty(src) && Registers(vars, pars)
    ensures var s := SrcRun(src, SrcStart(vars, pars), n, world);
            s.status.Confused? ||
            (Rel(src, s, VmRun(Program(src), VmStart(vars, pars), m, world)) && Alive(src, s))
  {
    hide SrcStep;
    hide Step;
    hide Rel;
    hide Fetchable;
    hide Script;
    hide Alive;
    n := 0;
    if m == 0 {
      StartsRelated(src, vars, pars);
    } else {
      var s0 := SrcStart(vars, pars);
      n := Simulated(src, vars, pars, m - 1, world);
      var v := VmRun(Program(src), VmStart(vars, pars), m - 1, world);
      var s := SrcRun(src, s0, n, world);
      if !s.status.Confused? && s.status.Running? {
        n := SkipTags(src, s0, n, v, world);
        var t := SrcRun(src, s0, n, world);
        InRange(src, t, v);
        CommandStep(src, t, v, world);
        n := n + 1;
      } else if !s.status.Confused? {
        SameStatus(src, s, v);
      }
    }
  }

  lemma SameStatus(src: seq<Instr>, s: Src, v: Vm)
    requires Rel(src, s, v)
    ensures v.status == s.status
  {
  }
}
