/**
 Counted loops in scripts: they turn exactly as often as their register says.
 */
module ScriptLoops {
  import opened ScriptModel
  import opened ScriptProof
  import opened ScriptLaws

  /** A loop at place `at`: ordinary commands, the DCR i and a JNZ back. */
  ghost predicate LoopAt(prog: seq<Instr>, at: nat, len: nat, i: Instr) {
    && at + len + 2 <= |prog|
    && (forall k :: at <= k < at + len + 2 ==> Safe(prog[k]))
    && (forall k :: at <= k < at + len ==> prog[k].op.Ordinary?)
    && prog[at + len] == i && i.op.DCR? && prog[at + len + 1].op.JNZ? && Wrap(prog[at + len + 1].args[0]) == at
  }

  /** How often it turns, for what its register holds: a count that is not positive has to come
      round from the other end of the range. */
  function Turns(n: Int32): (t: nat) { if n > 0 then n else n + TWO32 }

  lemma {:induction false} RunsOn(prog: seq<Instr>, v: Vm, m: nat, n: nat, world: World)
    ensures VmRun(prog, v, m + n, world) == VmRun(prog, VmRun(prog, v, m, world), n, world)
  {
    hide Step;
    hide Fetchable;
    if n > 0 {
      RunsOn(prog, v, m, n - 1, world);
    }
  }

  lemma OneStep(prog: seq<Instr>, v: Vm, world: World)
    requires v.status.Running? && Fetchable(prog, v)
    ensures VmRun(prog, v, 1, world) == Step(prog, v, world)
  {
    hide Step;
    assert VmRun(prog, v, 0, world) == v;
  }

  lemma OrdinaryStep(prog: seq<Instr>, v: Vm, at: nat, world: World)
    requires RunsAt(prog, v, at) && at + 1 < |prog| && prog[at].op.Ordinary?
    requires Safe(prog[at + 1]) && !prog[at + 1].op.TAG?
    ensures var w := Step(prog, v, world);
            && RunsAt(prog, w, at + 1) && w.d.vars == v.d.vars && w.d.pars == v.d.pars && w.stack == v.stack
            && |w.d.log| == |v.d.log| + 1
  {
    Answered(prog[at], v.d, world);
    hide Safe;
    hide Plain;
  }

  /** The commands of a turn are sent, and registers and stack stay. */
  lemma {:induction false} BodyRuns(prog: seq<Instr>, v: Vm, at: nat, len: nat, i: Instr, n: nat, world: World)
    requires LoopAt(prog, at, len, i) && RunsAt(prog, v, at) && n <= len
    ensures var w := VmRun(prog, v, n, world);
            && RunsAt(prog, w, at + n) && w.d.vars == v.d.vars && w.d.pars == v.d.pars && w.stack == v.stack
            && |w.d.log| == |v.d.log| + n
  {
    hide Step;
    hide Safe;
    if n > 0 {
      BodyRuns(prog, v, at, len, i, n - 1, world);
      OrdinaryStep(prog, VmRun(prog, v, n - 1, world), at + n - 1, world);
    }
  }

  lemma CountsDown(prog: seq<Instr>, v: Vm, at: nat, world: World)
    requires RunsAt(prog, v, at) && prog[at].op.DCR? && at + 1 < |prog| && Safe(prog[at + 1]) && !prog[at + 1].op.TAG?
    ensures Names(prog[at], 0)
    ensures var w := VmRun(prog, v, 1, world);
            && RunsAt(prog, w, at + 1) && w.d.F == Load(prog[at], 0, w.d) == Wrap(Load(prog[at], 0, v.d) - 1)
            && w.d.log == v.d.log && w.stack == v.stack
  {
    var i := prog[at];
    assert Safe(i) && Names(i, 0);
    LoadsAndCounts(i, v.d, world);
    WrapNext(Load(i, 0, v.d));
    hide Safe;
    hide Names;
    hide Wrap;
    hide Load;
    hide OnlyChanges;
    hide Plain;
    OneStep(prog, v, world);
  }

  lemma JumpsBack(prog: seq<Instr>, v: Vm, at: nat, world: World)
    requires RunsAt(prog, v, at) && prog[at].op.JNZ? && |prog[at].args| == MAX_ARG
    ensures var w := VmRun(prog, v, 1, world); var to := if v.d.F != 0 then Wrap(prog[at].args[0]) else at + 1;
            w == v.(pc := to, status := if to >= |prog| then Ended else Running)
  {
    hide Safe;
    hide Wrap;
    hide Plain;
    OneStep(prog, v, world);
  }

  /** The DCR and JNZ that end a turn: one less to count, and round again unless none is left. */
  lemma TurnEnds(prog: seq<Instr>, v: Vm, at: nat, len: nat, world: World)
    requires at + len + 2 <= |prog| && RunsAt(prog, v, at + len)
    requires prog[at + len].op.DCR? && prog[at + len + 1].op.JNZ? && |prog[at + len + 1].args| == MAX_ARG
    requires Safe(prog[at]) && !prog[at].op.TAG? && Safe(prog[at + len + 1]) && Wrap(prog[at + len + 1].args[0]) == at
    ensures Names(prog[at + len], 0)
    ensures var i := prog[at + len]; var w := VmRun(prog, v, 2, world);
            && Sized(w.d) && Load(i, 0, w.d) == Wrap(Load(i, 0, v.d) - 1) && w.d.log == v.d.log && w.stack == v.stack
            && if Load(i, 0, w.d) != 0 then RunsAt(prog, w, at)
               else w.pc == at + len + 2 && w.status == if w.pc == |prog| then Ended else Running
  {
    hide Step;
    hide Safe;
    hide Names;
    hide Wrap;
    hide Load;
    hide VmRun;
    CountsDown(prog, v, at + len, world);
    JumpsBack(prog, VmRun(prog, v, 1, world), at + len + 1, world);
    RunsOn(prog, v, 1, 1, world);
  }

  /** What the instruction's register holds. */
  ghost function Count(i: Instr, d: Data): Int32 { if Names(i, 0) && Sized(d) then Load(i, 0, d) else 0 }

  lemma SameLeft(i: Instr, d: Data, e: Data)
    requires Sized(d) && Sized(e) && e.vars == d.vars && e.pars == d.pars
    ensures Count(i, e) == Count(i, d)
  {
    hide Names;
  }

  /** Before the next turn, or behind the loop. */
  ghost predicate Around(prog: seq<Instr>, w: Vm, at: nat, len: nat, more: bool) {
    if more then RunsAt(prog, w, at) else w.pc == at + len + 2 && w.status == if w.pc == |prog| then Ended else Running
  }

  lemma EndOfTurn(prog: seq<Instr>, v: Vm, at: nat, len: nat, i: Instr, world: World)
    requires LoopAt(prog, at, len, i) && RunsAt(prog, v, at + len)
    ensures var w := VmRun(prog, v, 2, world);
            && Count(i, w.d) == Wrap(Count(i, v.d) - 1) && w.d.log == v.d.log && w.stack == v.stack
            && Around(prog, w, at, len, Count(i, w.d) != 0)
  {
    LoopParts(prog, at, len, i);
    SizedBoth(prog, v, v, at + len, at + len);
    hide LoopAt;
    hide RunsAt;
    hide Safe;
    hide Names;
    hide Wrap;
    hide Load;
    hide VmRun;
    TurnEnds(prog, v, at, len, world);
  }

  lemma LoopParts(prog: seq<Instr>, at: nat, len: nat, i: Instr)
    requires LoopAt(prog, at, len, i)
    ensures at + len + 2 <= |prog| && prog[at + len] == i && i.op.DCR?
    ensures var j := prog[at + len + 1]; j.op.JNZ? && |j.args| == MAX_ARG && Safe(j) && Wrap(j.args[0]) == at
    ensures Safe(prog[at]) && !prog[at].op.TAG?
  {
    assert Safe(prog[at]) && Safe(prog[at + len + 1]);
    hide Wrap;
  }

  /** One turn of the loop. */
  lemma OneTurn(prog: seq<Instr>, v: Vm, at: nat, len: nat, i: Instr, world: World)
    requires LoopAt(prog, at, len, i) && RunsAt(prog, v, at)
    ensures var w := VmRun(prog, v, len + 2, world);
            && Count(i, w.d) == Wrap(Count(i, v.d) - 1) && |w.d.log| == |v.d.log| + len && w.stack == v.stack
            && Around(prog, w, at, len, Count(i, w.d) != 0)
  {
    hide LoopAt;
    hide Wrap;
    hide VmRun;
    hide Count;
    hide Around;
    hide Fetchable;
    BodyRuns(prog, v, at, len, i, len, world);
    var u := VmRun(prog, v, len, world);
    SizedBoth(prog, v, u, at, at + len);
    EndOfTurn(prog, u, at, len, i, world);
    SameLeft(i, v.d, u.d);
    RunsOn(prog, v, len, 2, world);
  }

  lemma SizedBoth(prog: seq<Instr>, v: Vm, u: Vm, at: nat, to: nat)
    requires RunsAt(prog, v, at) && RunsAt(prog, u, to)
    ensures Sized(v.d) && Sized(u.d)
  {
  }

  lemma CountLeft(c: Int32, j: nat)
    requires j < Turns(c)
    ensures Wrap(Wrap(c - j) - 1) == Wrap(c - (j + 1))
    ensures Wrap(c - (j + 1)) == 0 <==> j + 1 == Turns(c)
  {
  }

  /** After j turns, of the loop's commands j times as many have been sent, and j has been counted. */
  ghost predicate HasTurned(prog: seq<Instr>, v: Vm, w: Vm, at: nat, len: nat, i: Instr, j: nat) {
    && Count(i, w.d) == Wrap(Count(i, v.d) - j) && |w.d.log| == |v.d.log| + j * len && w.stack == v.stack
    && Around(prog, w, at, len, j < Turns(Count(i, v.d)))
  }

  lemma NextTurn(prog: seq<Instr>, v: Vm, w: Vm, at: nat, len: nat, i: Instr, j: nat, world: World)
    requires LoopAt(prog, at, len, i) && HasTurned(prog, v, w, at, len, i, j) && j < Turns(Count(i, v.d))
    ensures HasTurned(prog, v, VmRun(prog, w, len + 2, world), at, len, i, j + 1)
  {
    hide LoopAt;
    hide RunsAt;
    hide Wrap;
    hide VmRun;
    hide Count;
    hide Turns;
    OneTurn(prog, w, at, len, i, world);
    CountLeft(Count(i, v.d), j);
    assert (j + 1) * len == j * len + len;
  }

  /** The instructions of j turns. */
  function Length(j: nat, len: nat): nat { j * (len + 2) }

  lemma LengthNext(j: nat, len: nat)
    ensures Length(0, len) == 0 && Length(j + 1, len) == Length(j, len) + (len + 2)
  {
  }

  lemma NoTurnYet(prog: seq<Instr>, v: Vm, at: nat, len: nat, i: Instr, world: World)
    requires RunsAt(prog, v, at)
    ensures VmRun(prog, v, 0, world) == v && HasTurned(prog, v, v, at, len, i, 0)
  {
    hide RunsAt;
    hide Count;
    hide Wrap;
    WrapMeans(Count(i, v.d));
  }

  /** The loop turns exactly as often as its register says, sending its commands once a turn, and
      goes on behind the JNZ with nothing left in the register. */
  lemma {:induction false} CountedLoop(prog: seq<Instr>, v: Vm, at: nat, len: nat, i: Instr, j: nat, world: World)
    requires LoopAt(prog, at, len, i) && RunsAt(prog, v, at) && j <= Turns(Count(i, v.d))
    ensures HasTurned(prog, v, VmRun(prog, v, Length(j, len), world), at, len, i, j)
  {
    hide LoopAt;
    hide RunsAt;
    hide Count;
    hide Turns;
    hide HasTurned;
    hide VmRun;
    hide Length;
    if j == 0 {
      LengthNext(0, len);
      NoTurnYet(prog, v, at, len, i, world);
    } else {
      CountedLoop(prog, v, at, len, i, j - 1, world);
      RunsOn(prog, v, Length(j - 1, len), len + 2, world);
      LengthNext(j - 1, len);
      NextTurn(prog, v, VmRun(prog, v, Length(j - 1, len), world), at, len, i, j - 1, world);
    }
  }

  // ------------------------------------------------------------------ a loop in a script

  /** LD r n, a label, some ordinary commands, DCR r, JNZ to the label. */
  function LoopScript(load: Instr, tag: Instr, body: seq<Instr>, count: Instr, again: Instr): seq<Instr> {
    [load, tag] + body + [count, again]
  }

  ghost predicate MakesLoop(load: Instr, tag: Instr, body: seq<Instr>, count: Instr, again: Instr) {
    && Safe(load) && Safe(tag) && Safe(count) && Safe(again) && AllSafe(body) && |body| < TWO31 - 4
    && load.op.LD? && tag.op.TAG? && count.op.DCR? && again.op.JNZ?
    && (forall k :: 0 <= k < |body| ==> body[k].op.Ordinary?)
    && again.args[0] == tag.args[0] && load.args[0] == count.args[0] && load.opts[0] == count.opts[0]
  }

  lemma LoopPlaces(load: Instr, tag: Instr, body: seq<Instr>, count: Instr, again: Instr)
    requires MakesLoop(load, tag, body, count, again)
    ensures var src := LoopScript(load, tag, body, count, again); var n := |body|;
            && |src| == n + 4 && src[0] == load && src[1] == tag && src[n + 2] == count && src[n + 3] == again
            && (forall k :: 2 <= k < n + 2 ==> src[k] == body[k - 2])
            && AllSafe(src)
            && forall k :: 0 <= k < |src| && k != 1 ==> !src[k].op.TAG? && (Jump(src[k].op) ==> k == n + 3)
  {
    var src := LoopScript(load, tag, body, count, again);
    hide Safe;
    assert forall k :: 2 <= k < |body| + 2 ==> src[k] == body[k - 2];
  }

  lemma LoopLabel(load: Instr, tag: Instr, body: seq<Instr>, count: Instr, again: Instr)
    requires MakesLoop(load, tag, body, count, again)
    ensures var src := LoopScript(load, tag, body, count, again);
            AllSafe(src) && FindTag(src, again.args[0]) == 1 && Script(src)
  {
    var src := LoopScript(load, tag, body, count, again);
    LoopPlaces(load, tag, body, count, again);
    hide LoopScript;
    hide Safe;
    assert src[1..][0] == tag;
    assert FindTag(src[1..], again.args[0]) == 0;
  }

  /** Only one tag, at place 1. */
  lemma {:induction false} OneTagBefore(src: seq<Instr>, p: nat)
    requires p <= |src| && forall k :: 0 <= k < |src| ==> (src[k].op.TAG? <==> k == 1)
    ensures Before(src, p) == if p <= 1 then p else p - 1
  {
    if p > 0 {
      OneTagBefore(src, p - 1);
    }
  }

  lemma LoopAssembles(load: Instr, tag: Instr, body: seq<Instr>, count: Instr, again: Instr)
    requires MakesLoop(load, tag, body, count, again)
    ensures var src := LoopScript(load, tag, body, count, again); var n := |body|;
            && Script(src) && |Program(src)| == n + 3 && Program(src)[0] == load
            && LoopAt(Program(src), 1, n, count)
  {
    var src, n := LoopScript(load, tag, body, count, again), |body|;
    LoopLabel(load, tag, body, count, again);
    LoopPlaces(load, tag, body, count, again);
    hide LoopScript;
    hide FindTag;
    hide Safe;
    OneTagBefore(src, |src|);
    forall p | 0 <= p < |src| && p != 1
      ensures var q := if p == 0 then 0 else p - 1;
              q < |Program(src)| && Program(src)[q] == Resolve(src, src[p]) && Safe(Resolve(src, src[p]))
    {
      OneTagBefore(src, p);
      AssembledAt(src, p, |src|);
      ResolveSafe(src, src[p]);
    }
    OneTagBefore(src, 1);
    WrapLow(1);
    hide Wrap;
    hide Low32;
    var prog := Program(src);
    forall q | 0 <= q < n + 3
      ensures Safe(prog[q]) && prog[q] == Resolve(src, src[if q == 0 then 0 else q + 1])
    {
      var p := if q == 0 then 0 else q + 1;
      assert Safe(Resolve(src, src[p]));
    }
    assert prog[n + 2] == again.(args := again.args[0 := Low32(1)]);
  }

  /** LD r n leaves n to count. */
  lemma LoadsCount(prog: seq<Instr>, load: Instr, count: Instr, v: Vm, world: World)
    requires RunsAt(prog, v, 0) && 1 < |prog| && prog[0] == load && Safe(prog[1]) && !prog[1].op.TAG?
    requires Safe(count) && load.op.LD? && count.op.DCR? && load.args[0] == count.args[0] && load.opts[0] == count.opts[0]
    ensures var w := VmRun(prog, v, 1, world);
            RunsAt(prog, w, 1) && Count(count, w.d) == Substituted(load, 1, v.d) && w.d.log == v.d.log
  {
    assert Names(load, 0) && Names(count, 0);
    LoadsAndCounts(load, v.d, world);
    OneStep(prog, v, world);
    hide Safe;
    hide Plain;
    hide Names;
  }

  lemma AllTurns(prog: seq<Instr>, v: Vm, at: nat, len: nat, i: Instr, world: World)
    requires LoopAt(prog, at, len, i) && RunsAt(prog, v, at) && |prog| == at + len + 2
    ensures var n := Turns(Count(i, v.d)); var w := VmRun(prog, v, Length(n, len), world);
            w.status.Ended? && |w.d.log| == |v.d.log| + n * len && Count(i, w.d) == 0
  {
    hide LoopAt;
    hide RunsAt;
    hide VmRun;
    hide Length;
    hide Count;
    hide Turns;
    hide Wrap;
    var n := Turns(Count(i, v.d));
    CountedLoop(prog, v, at, len, i, n, world);
    LastTurn(Count(i, v.d));
  }

  /** From the first instruction of a program that is nothing but the loaded loop. */
  lemma LoadedLoop(prog: seq<Instr>, load: Instr, count: Instr, len: nat, v: Vm, world: World)
    requires RunsAt(prog, v, 0) && LoopAt(prog, 1, len, count) && |prog| == len + 3 && prog[0] == load
    requires Safe(count) && load.op.LD? && load.args[0] == count.args[0] && load.opts[0] == count.opts[0]
    ensures var n := Turns(Substituted(load, 1, v.d)); var w := VmRun(prog, v, 1 + Length(n, len), world);
            w.status.Ended? && |w.d.log| == |v.d.log| + n * len && Count(count, w.d) == 0
  {
    LoopParts(prog, 1, len, count);
    LoadsCount(prog, load, count, v, world);
    hide LoopAt;
    hide Safe;
    hide VmRun;
    hide Substituted;
    hide Length;
    hide RunsAt;
    hide Count;
    hide Turns;
    var v1 := VmRun(prog, v, 1, world);
    AllTurns(prog, v1, 1, len, count, world);
    RunsOn(prog, v, 1, Length(Turns(Count(count, v1.d)), len), world);
  }

  /** The whole script: LD r n, a label, commands, DCR r and JNZ send the commands n times and end
      with nothing in the register; n is whatever the operand is worth, and where it is not positive
      the count comes round. */
  lemma LoopTurns(load: Instr, tag: Instr, body: seq<Instr>, count: Instr, again: Instr,
                  vars: seq<Int32>, pars: seq<Int32>, world: World)
    requires MakesLoop(load, tag, body, count, again) && Registers(vars, pars)
    ensures var src, v0 := LoopScript(load, tag, body, count, again), VmStart(vars, pars);
            var n := Turns(Substituted(load, 1, v0.d));
            && Script(src)
            && var w := VmRun(Program(src), v0, 1 + Length(n, |body|), world);
               w.status.Ended? && |w.d.log| == n * |body| && Count(count, w.d) == 0
  {
    LoopAssembles(load, tag, body, count, again);
    hide LoopScript;
    hide Program;
    hide LoopAt;
    hide Safe;
    hide Script;
    hide VmRun;
    hide Substituted;
    hide Length;
    hide Count;
    hide Turns;
    LoadedLoop(Program(LoopScript(load, tag, body, count, again)), load, count, |body|, VmStart(vars, pars), world);
  }

  lemma LastTurn(c: Int32)
    ensures Wrap(c - Turns(c)) == 0
  {
  }
}
