/**
 Where a running script can go: the program counter stays inside the program exactly as long as no
 RET finds a negative address, and so always where data and return addresses are kept apart.
 */
module ScriptSafety {
  import opened ScriptModel
  import opened ScriptProof

  /** A script that uses the stack only for CALL and RET. */
  ghost predicate CallsOnly(src: seq<Instr>) { forall k :: 0 <= k < |src| ==> !Stacking(src[k].op) }

  lemma {:induction false} NeverConfused(src: seq<Instr>, vars: seq<Int32>, pars: seq<Int32>, n: nat, world: World)
    requires Script(src) && NonEmpty(src) && Registers(vars, pars) && CallsOnly(src)
    ensures var s := SrcRun(src, SrcStart(vars, pars), n, world);
            !s.status.Confused? && forall k :: 0 <= k < |s.stack| ==> s.stack[k].Return?
  {
    hide SrcStep;
    hide Script;
    if n > 0 {
      NeverConfused(src, vars, pars, n - 1, world);
      var s := SrcRun(src, SrcStart(vars, pars), n - 1, world);
      if s.status.Running? && s.pos < |src| {
        NotConfusedStep(src, s, world);
      }
    }
  }

  lemma NotConfusedStep(src: seq<Instr>, s: Src, world: World)
    requires AllSafe(src) && s.pos < |src| && Sized(s.d) && |s.stack| <= STACK_SIZE
    requires !Stacking(src[s.pos].op) && s.status.Running? && forall k :: 0 <= k < |s.stack| ==> s.stack[k].Return?
    ensures var t := SrcStep(src, s, world);
            !t.status.Confused? && forall k :: 0 <= k < |t.stack| ==> t.stack[k].Return?
  {
    hide Plain;
    hide Safe;
    hide FindTag;
    hide OnlyTags;
  }

  /** A running thread can fetch: inside the program, with existing registers and a stack pointer
      within its 256 cells. */
  ghost predicate CanGoOn(prog: seq<Instr>, v: Vm) {
    |v.stack| <= STACK_SIZE && (v.status.Running? ==> Fetchable(prog, v))
  }

  /** The thread can go on after every number of instructions. */
  ghost predicate StaysInside(prog: seq<Instr>, v: Vm, world: World) {
    forall m: nat :: CanGoOn(prog, VmRun(prog, v, m, world))
  }

  // --------------------------------------------------- where a program can leave itself

  /** At a RET whose address is negative. */
  predicate ReturnsNegative(prog: seq<Instr>, v: Vm) {
    && v.status.Running? && 0 <= v.pc < |prog| && prog[v.pc].op.RET?
    && v.stack != [] && v.stack[|v.stack| - 1] < 0
  }

  /** No RET of the run finds a negative address. */
  ghost predicate ReturnsForward(prog: seq<Instr>, v: Vm, world: World) {
    forall m: nat :: !ReturnsNegative(prog, VmRun(prog, v, m, world))
  }

  /** What assembling makes: registers that exist, no tags, jumps to no negative place. */
  ghost predicate WellMade(i: Instr) { Safe(i) && !i.op.TAG? && (Jump(i.op) ==> Wrap(i.args[0]) >= 0) }

  ghost predicate AllWellMade(prog: seq<Instr>) { forall m :: 0 <= m < |prog| ==> WellMade(prog[m]) }

  lemma ResolvedIsWellMade(src: seq<Instr>, p: nat)
    requires Script(src) && p < |src| && !src[p].op.TAG?
    ensures WellMade(Resolve(src, src[p]))
  {
    ResolveSafe(src, src[p]);
    hide Safe;
    hide Resolve;
    hide Linked;
    if Jump(src[p].op) {
      JumpTarget(src, src[p]);
    }
  }

  lemma {:induction false} AssembledIsWellMade(src: seq<Instr>, p: nat)
    requires Script(src) && p <= |src|
    ensures AllWellMade(Assembled(src, p))
  {
    hide WellMade;
    hide Resolve;
    if p > 0 {
      AssembledIsWellMade(src, p - 1);
      if !src[p - 1].op.TAG? {
        ResolvedIsWellMade(src, p - 1);
      }
    }
  }

  /** Only a RET can make the program counter negative, and only with what it pops. */
  lemma ActGoesOn(i: Instr, v: Vm, world: World)
    requires WellMade(i) && Sized(v.d) && |v.stack| <= STACK_SIZE && v.status.Running? && v.pc >= 0
    ensures var r := Act(i, v, world);
            r.status.Running? && r.pc < 0 <==> i.op.RET? && v.stack != [] && v.stack[|v.stack| - 1] < 0
  {
    hide Safe;
    hide Wrap;
    hide Plain;
    hide Pushed;
    hide Popped;
    hide Taken;
  }

  lemma StepGoesOn(prog: seq<Instr>, v: Vm, world: World)
    requires AllWellMade(prog) && Fetchable(prog, v) && v.status.Running?
    ensures CanGoOn(prog, Step(prog, v, world)) <==> !ReturnsNegative(prog, v)
  {
    assert WellMade(prog[v.pc]);
    ActGoesOn(prog[v.pc], v, world);
    hide Act;
    hide Safe;
    var r := Step(prog, v, world);
    assert r.status.Running? && r.pc >= 0 ==> WellMade(prog[r.pc]);
  }

  lemma {:induction false} GoesOnWhile(prog: seq<Instr>, v: Vm, m: nat, world: World)
    requires AllWellMade(prog) && CanGoOn(prog, v) && ReturnsForward(prog, v, world)
    ensures CanGoOn(prog, VmRun(prog, v, m, world))
  {
    hide AllWellMade;
    hide Step;
    hide ReturnsNegative;
    if m > 0 {
      GoesOnWhile(prog, v, m - 1, world);
      var b := VmRun(prog, v, m - 1, world);
      if b.status.Running? {
        StepGoesOn(prog, b, world);
      }
    }
  }

  lemma GoesOnOnly(prog: seq<Instr>, v: Vm, m: nat, world: World)
    requires AllWellMade(prog) && StaysInside(prog, v, world)
    ensures !ReturnsNegative(prog, VmRun(prog, v, m, world))
  {
    var b := VmRun(prog, v, m, world);
    assert CanGoOn(prog, b) && CanGoOn(prog, VmRun(prog, v, m + 1, world));
    hide AllWellMade;
    hide Fetchable;
    hide Step;
    if b.status.Running? {
      StepGoesOn(prog, b, world);
    }
  }

  /** The exact condition of safety over whole runs. An accepted, non-empty script stays inside its
      program, whatever it keeps on its stack, if and only if it never executes a RET whose address
      is negative. */
  lemma StaysInsideExactly(src: seq<Instr>, vars: seq<Int32>, pars: seq<Int32>, world: World)
    requires Script(src) && NonEmpty(src) && Registers(vars, pars)
    ensures StaysInside(Program(src), VmStart(vars, pars), world) <==>
            ReturnsForward(Program(src), VmStart(vars, pars), world)
  {
    var prog, v0 := Program(src), VmStart(vars, pars);
    AssembledIsWellMade(src, |src|);
    EmptyScriptFetchesAnyway(src, vars, pars);
    assert CanGoOn(prog, v0);
    hide AllWellMade;
    hide CanGoOn;
    hide ReturnsNegative;
    hide VmRun;
    hide Script;
    if StaysInside(prog, v0, world) {
      forall m: nat
        ensures !ReturnsNegative(prog, VmRun(prog, v0, m, world))
      {
        GoesOnOnly(prog, v0, m, world);
      }
    }
    if ReturnsForward(prog, v0, world) {
      forall m: nat
        ensures CanGoOn(prog, VmRun(prog, v0, m, world))
      {
        GoesOnWhile(prog, v0, m, world);
      }
    }
  }

  // ------------------------------------------------------------------- scripts that do not

  /** The source never returns to data nor pops a return address, on this run. */
  ghost predicate NeverMixes(src: seq<Instr>, vars: seq<Int32>, pars: seq<Int32>, world: World)
    requires AllSafe(src) && Registers(vars, pars)
  {
    forall n: nat :: !SrcRun(src, SrcStart(vars, pars), n, world).status.Confused?
  }

  /** A return address is a number of commands. */
  lemma PopsForward(src: seq<Instr>, s: Src, v: Vm, world: World)
    requires Script(src) && Rel(src, s, v) && s.status.Running? && Alive(src, s) && !src[s.pos].op.TAG?
    requires !SrcStep(src, s, world).status.Confused?
    ensures !ReturnsNegative(Program(src), v)
  {
    AssembledAt(src, s.pos, |src|);
    ResolveSafe(src, src[s.pos]);
    hide Safe;
    hide FindTag;
    hide Plain;
    hide Resolve;
    hide Linked;
    if s.stack != [] {
      assert SlotMatches(src, s.stack[|s.stack| - 1], v.stack[|s.stack| - 1]);
    }
  }

  lemma UnmixedReturnsForward(src: seq<Instr>, vars: seq<Int32>, pars: seq<Int32>, m: nat, world: World)
    requires Script(src) && NonEmpty(src) && Registers(vars, pars) && NeverMixes(src, vars, pars, world)
    ensures !ReturnsNegative(Program(src), VmRun(Program(src), VmStart(vars, pars), m, world))
  {
    hide Script;
    hide SrcStep;
    hide Step;
    hide VmRun;
    hide Rel;
    hide Alive;
    var s0 := SrcStart(vars, pars);
    var n := Simulated(src, vars, pars, m, world);
    var s := SrcRun(src, s0, n, world);
    var v := VmRun(Program(src), VmStart(vars, pars), m, world);
    if v.status.Running? {
      SameStatus(src, s, v);
      var k := SkipTags(src, s0, n, v, world);
      assert !SrcRun(src, s0, k + 1, world).status.Confused?;
      InRange(src, SrcRun(src, s0, k, world), v);
      PopsForward(src, SrcRun(src, s0, k, world), v, world);
    }
  }

  /** So a script that does not mix data and return addresses, whatever else it pushes and pops,
      stays inside. */
  lemma UnmixedStaysInside(src: seq<Instr>, vars: seq<Int32>, pars: seq<Int32>, world: World)
    requires Script(src) && NonEmpty(src) && Registers(vars, pars) && NeverMixes(src, vars, pars, world)
    ensures StaysInside(Program(src), VmStart(vars, pars), world)
  {
    forall m: nat
      ensures !ReturnsNegative(Program(src), VmRun(Program(src), VmStart(vars, pars), m, world))
    {
      UnmixedReturnsForward(src, vars, pars, m, world);
    }
    StaysInsideExactly(src, vars, pars, world);
  }

  /** In particular one that uses the stack only for calls, whatever the daemon answers. */
  lemma AlwaysFetchable(src: seq<Instr>, vars: seq<Int32>, pars: seq<Int32>, world: World)
    requires Script(src) && NonEmpty(src) && Registers(vars, pars) && CallsOnly(src)
    ensures StaysInside(Program(src), VmStart(vars, pars), world)
  {
    forall n: nat
      ensures !SrcRun(src, SrcStart(vars, pars), n, world).status.Confused?
    {
      NeverConfused(src, vars, pars, n, world);
    }
    UnmixedStaysInside(src, vars, pars, world);
  }

  lemma LoadMinusOne(v: Vm, world: World)
    requires Sized(v.d) && |v.stack| <= STACK_SIZE
    ensures var i := Command(LDA, 0xffff_ffff, Numeric, 0, Absent);
            Safe(i) && Act(i, v, world) == v.(d := v.d.(A := -1), pc := v.pc + 1)
  {
    var i := Command(LDA, 0xffff_ffff, Numeric, 0, Absent);
    CommandSafe(LDA, 0xffff_ffff, Numeric, 0, Absent);
    hide Safe;
    assert Substituted(i, 0, v.d) == -1;
  }

  lemma PushThenReturn(v: Vm, world: World)
    requires Sized(v.d) && |v.stack| < STACK_SIZE
    ensures var p, r := Command(PUSHA, 0, Absent, 0, Absent), Command(RET, 0, Absent, 0, Absent);
            && Safe(p) && Safe(r)
            && Act(p, v, world) == v.(stack := v.stack + [v.d.A], pc := v.pc + 1)
            && Act(r, v.(stack := v.stack + [v.d.A]), world) == v.(pc := v.d.A)
  {
    CommandSafe(PUSHA, 0, Absent, 0, Absent);
    CommandSafe(RET, 0, Absent, 0, Absent);
    hide Safe;
    hide Plain;
    assert (v.stack + [v.d.A])[..|v.stack|] == v.stack;
  }

  lemma ThreeCommands(a: Instr, b: Instr, c: Instr)
    requires Safe(a) && Safe(b) && Safe(c) && !Jump(a.op) && !Jump(b.op) && !Jump(c.op)
    requires !a.op.TAG? && !b.op.TAG? && !c.op.TAG?
    ensures Script([a, b, c]) && NonEmpty([a, b, c]) && Program([a, b, c]) == [a, b, c]
  {
    hide Safe;
    var src := [a, b, c];
    assert !src[0].op.TAG?;
    assert Assembled(src, 1) == [a] && Assembled(src, 2) == [a, b] && Assembled(src, 3) == [a, b, c];
  }

  /** With data on the stack it is different: this accepted script sends the program counter to -1
      while the thread believes itself running. */
  lemma ReturnToData(vars: seq<Int32>, pars: seq<Int32>, world: World)
    requires Registers(vars, pars)
    ensures var src := [Command(LDA, 0xffff_ffff, Numeric, 0, Absent), Command(PUSHA, 0, Absent, 0, Absent),
                        Command(RET, 0, Absent, 0, Absent)];
            && Script(src) && NonEmpty(src)
            && VmRun(Program(src), VmStart(vars, pars), 3, world).status.Running?
            && VmRun(Program(src), VmStart(vars, pars), 3, world).pc == -1
  {
    var lda, push, ret := Command(LDA, 0xffff_ffff, Numeric, 0, Absent), Command(PUSHA, 0, Absent, 0, Absent),
                          Command(RET, 0, Absent, 0, Absent);
    var v0 := VmStart(vars, pars);
    LoadMinusOne(v0, world);
    var v1 := v0.(d := v0.d.(A := -1), pc := 1);
    PushThenReturn(v1, world);
    var v2 := v1.(stack := [-1], pc := 2);
    PushThenReturn(v1.(pc := 2), world);
    ThreeCommands(lda, push, ret);
    hide Safe;
    hide Act;
    hide Program;
    hide Script;
    var prog := [lda, push, ret];
    assert Step(prog, v0, world) == v1;
    assert VmRun(prog, v0, 0, world) == v0;
    assert VmRun(prog, v0, 1, world) == v1;
    assert Step(prog, v1, world) == v2;
    assert VmRun(prog, v0, 2, world) == v2;
    assert Step(prog, v2, world).pc == -1;
  }

  /** And a script of nothing but tags assembles to no instruction at all, yet the thread fetches
      one before it looks at how many there are. */
  lemma EmptyScriptFetchesAnyway(src: seq<Instr>, vars: seq<Int32>, pars: seq<Int32>)
    requires Script(src) && Registers(vars, pars)
    ensures !NonEmpty(src) <==> !Fetchable(Program(src), VmStart(vars, pars))
  {
    OnlyTagsLeft(src, 0, |src|);
    if NonEmpty(src) {
      var v := VmStart(vars, pars);
      var k := FirstCommand(src);
      AssembledAt(src, k, |src|);
      ResolveSafe(src, src[k]);
    }
  }

  lemma {:induction false} FirstCommand(src: seq<Instr>) returns (k: nat)
    requires NonEmpty(src)
    ensures k < |src| && !src[k].op.TAG? && Before(src, k) == 0
  {
    k := 0;
    while src[k].op.TAG?
      invariant k < |src| && Before(src, k) == 0 && !OnlyTags(src, k)
      decreases |src| - k
    {
      k := k + 1;
    }
  }
}
