/**
 cmdParseScript of lgpio/lgCmd.c: one loop stores commands and notes where tags stand, another
 patches the jumps in place. It accepts exactly the scripts that have a meaning, and makes of
 them the program that ScriptProof.dfy is about.
 */
module ScriptAsm {
  import opened ScriptModel
  import opened ScriptProof

  const DUP_TAG: int := -13
  const TOO_MANY_TAGS: int := -14
  const BAD_SCRIPT_CMD: int := -15
  const BAD_TAG: int := -23

  /** What cmdParse made of one command: unknown, not for scripts, badly parametered, or good. */
  datatype Parsed = Good(i: Instr) | Bad

  /** The good commands, in order. */
  function Goods(cmds: seq<Parsed>): (src: seq<Instr>)
    ensures |src| <= |cmds|
  {
    if cmds == [] then []
    else
      var last := cmds[|cmds| - 1];
      Goods(cmds[..|cmds| - 1]) + if last.Good? then [last.i] else []
  }

  ghost predicate GoodsSafe(cmds: seq<Parsed>) { forall k :: 0 <= k < |cmds| && cmds[k].Good? ==> Safe(cmds[k].i) }

  // ------------------------------------------------------------------ the table of tags

  function Stripped(src: seq<Instr>): seq<Instr> {
    if src == [] then []
    else
      var n := |src| - 1;
      Stripped(src[..n]) + if src[n].op.TAG? then [] else [src[n]]
  }

  /** Each tag with the number of commands stored when it was met. */
  function Table(src: seq<Instr>): seq<(UInt32, nat)>
    requires AllSafe(src)
  {
    if src == [] then []
    else
      var n := |src| - 1;
      Table(src[..n]) + if src[n].op.TAG? then [(src[n].args[0], |Stripped(src[..n])|)] else []
  }

  function FirstMatch(t: seq<(UInt32, nat)>, tag: UInt32): (j: nat)
    ensures j <= |t|
    ensures j < |t| ==> t[j].0 == tag
    ensures forall k :: 0 <= k < j ==> t[k].0 != tag
  {
    if t == [] || t[0].0 == tag then 0 else 1 + FirstMatch(t[1..], tag)
  }

  lemma {:induction false} BeforePrefix(src: seq<Instr>, n: nat, p: nat)
    requires p <= n <= |src|
    ensures Before(src[..n], p) == Before(src, p)
  {
    if p > 0 {
      BeforePrefix(src, n, p - 1);
    }
  }

  lemma {:induction false} StrippedLength(src: seq<Instr>)
    ensures |Stripped(src)| == Before(src, |src|)
  {
    if src != [] {
      var n := |src| - 1;
      StrippedLength(src[..n]);
      BeforePrefix(src, n, n);
    }
  }

  lemma FindTagPrefix(src: seq<Instr>, tag: UInt32)
    requires AllSafe(src) && src != []
    ensures var n := |src| - 1; var p := FindTag(src[..n], tag);
            FindTag(src, tag) == if p < n then p else if src[n].op.TAG? && src[n].args[0] == tag then n else n + 1
  {
    var n := |src| - 1;
    var p, q := FindTag(src[..n], tag), FindTag(src, tag);
    assert forall k :: 0 <= k < n ==> src[..n][k] == src[k];
  }

  /** Searching the table is searching the source. */
  lemma {:induction false} TableFinds(src: seq<Instr>, tag: UInt32)
    requires AllSafe(src)
    ensures var j := FirstMatch(Table(src), tag);
            && (j < |Table(src)| <==> FindTag(src, tag) < |src|)
            && (j < |Table(src)| ==> Table(src)[j].1 == Before(src, FindTag(src, tag)))
  {
    if src != [] {
      var n := |src| - 1;
      TableFinds(src[..n], tag);
      FindTagPrefix(src, tag);
      StrippedLength(src[..n]);
      BeforePrefix(src, n, n);
      BeforePrefix(src, n, FindTag(src[..n], tag));
      MatchPrefix(Table(src[..n]), if src[n].op.TAG? then [(src[n].args[0], |Stripped(src[..n])|)] else [], tag);
    }
  }

  lemma MatchPrefix(t: seq<(UInt32, nat)>, more: seq<(UInt32, nat)>, tag: UInt32)
    requires |more| <= 1
    ensures FirstMatch(t + more, tag)
            == if FirstMatch(t, tag) < |t| then FirstMatch(t, tag)
               else if more != [] && more[0].0 == tag then |t| else |t + more|
  {
    var u := t + more;
    assert forall k :: 0 <= k < |t| ==> u[k] == t[k];
    assert more != [] ==> u[|t|] == more[0];
    var m := FirstMatch(u, tag);
    if FirstMatch(t, tag) < |t| {
      assert u[FirstMatch(t, tag)].0 == tag;
    }
  }

  lemma {:induction false} ProgramIsResolved(src: seq<Instr>, p: nat)
    requires AllSafe(src) && p <= |src|
    ensures |Assembled(src, p)| == |Stripped(src[..p])|
    ensures forall m :: 0 <= m < |Stripped(src[..p])| ==>
              Stripped(src[..p])[m] in src && Assembled(src, p)[m] == Resolve(src, Stripped(src[..p])[m])
  {
    if p > 0 {
      ProgramIsResolved(src, p - 1);
      assert src[..p][..p - 1] == src[..p - 1];
    }
  }

  // -------------------------------------------------------------------- errors, in order

  /** What is wrong with a command, given the good ones before it. */
  function ErrorOf(src: seq<Instr>, c: Parsed): int
    requires AllSafe(src) && (c.Good? ==> Safe(c.i))
  {
    if c.Bad? then BAD_SCRIPT_CMD
    else if !c.i.op.TAG? then 0
    else if |Table(src)| >= MAX_TAGS then TOO_MANY_TAGS
    else if FirstMatch(Table(src), c.i.args[0]) < |Table(src)| then DUP_TAG
    else 0
  }

  lemma {:induction false} GoodsAllSafe(cmds: seq<Parsed>)
    requires GoodsSafe(cmds)
    ensures AllSafe(Goods(cmds))
  {
    if cmds != [] {
      GoodsAllSafe(cmds[..|cmds| - 1]);
    }
  }

  /** The first error met. */
  ghost function FirstError(cmds: seq<Parsed>): int
    requires GoodsSafe(cmds)
  {
    if cmds == [] then 0
    else
      var front := cmds[..|cmds| - 1];
      GoodsAllSafe(front);
      var e := FirstError(front);
      if e != 0 then e else ErrorOf(Goods(front), cmds[|cmds| - 1])
  }

  lemma LastOfGoods(cmds: seq<Parsed>)
    requires cmds != [] && cmds[|cmds| - 1].Good?
    ensures var src := Goods(cmds); src != [] && src[..|src| - 1] == Goods(cmds[..|cmds| - 1])
                                    && src[|src| - 1] == cmds[|cmds| - 1].i
  {
  }

  ghost predicate TagsDistinct(src: seq<Instr>)
    requires AllSafe(src)
  {
    forall p, q :: 0 <= p < q < |src| && src[p].op.TAG? && src[q].op.TAG? ==> src[p].args[0] != src[q].args[0]
  }

  lemma DistinctExtends(src: seq<Instr>)
    requires AllSafe(src) && src != []
    ensures var n := |src| - 1; var x := src[n];
            TagsDistinct(src) <==>
            TagsDistinct(src[..n]) && (x.op.TAG? ==> FindTag(src[..n], x.args[0]) == n)
  {
    var n := |src| - 1;
    var front, x := src[..n], src[n];
    if TagsDistinct(front) && (x.op.TAG? ==> FindTag(front, x.args[0]) == n) {
      forall p, q | 0 <= p < q < |src| && src[p].op.TAG? && src[q].op.TAG?
        ensures src[p].args[0] != src[q].args[0]
      {
        assert src[p] == front[p];
        if q < n {
          assert src[q] == front[q];
        }
      }
    }
    if TagsDistinct(src) {
      forall p, q | 0 <= p < q < |front| && front[p].op.TAG? && front[q].op.TAG?
        ensures front[p].args[0] != front[q].args[0]
      {
        assert src[p] == front[p] && src[q] == front[q];
      }
    }
  }

  ghost predicate AllGood(cmds: seq<Parsed>) { forall k :: 0 <= k < |cmds| ==> cmds[k].Good? }

  lemma AllGoodExtends(cmds: seq<Parsed>)
    requires cmds != []
    ensures AllGood(cmds) <==> AllGood(cmds[..|cmds| - 1]) && cmds[|cmds| - 1].Good?
  {
  }

  ghost predicate Orderly(cmds: seq<Parsed>)
    requires AllSafe(Goods(cmds))
  {
    AllGood(cmds) && |Table(Goods(cmds))| <= MAX_TAGS && TagsDistinct(Goods(cmds))
  }

  lemma TableExtends(src: seq<Instr>)
    requires AllSafe(src) && src != []
    ensures var n := |src| - 1;
            |Table(src)| == |Table(src[..n])| + if src[n].op.TAG? then 1 else 0
  {
  }

  /** What a tag, or any other good command, needs to leave the table orderly. */
  lemma GoodExtends(src: seq<Instr>)
    requires AllSafe(src) && src != []
    ensures var n := |src| - 1; var front, x := src[..n], src[n];
            |Table(src)| <= MAX_TAGS && TagsDistinct(src) <==>
            |Table(front)| <= MAX_TAGS && TagsDistinct(front) && ErrorOf(front, Good(x)) == 0
  {
    var n := |src| - 1;
    DistinctExtends(src);
    TableExtends(src);
    assert |src[n].args| == MAX_ARG;
    hide Safe;
    hide TagsDistinct;
    hide Table;
    hide FindTag;
    hide FirstMatch;
    TableFinds(src[..n], src[n].args[0]);
  }

  lemma BadIsError(src: seq<Instr>)
    requires AllSafe(src)
    ensures ErrorOf(src, Bad) != 0
  {
  }

  lemma OrderlyExtends(cmds: seq<Parsed>)
    requires GoodsSafe(cmds) && cmds != []
    requires AllSafe(Goods(cmds)) && AllSafe(Goods(cmds[..|cmds| - 1]))
    ensures Orderly(cmds) <==>
            Orderly(cmds[..|cmds| - 1]) && ErrorOf(Goods(cmds[..|cmds| - 1]), cmds[|cmds| - 1]) == 0
  {
    hide TagsDistinct;
    hide AllGood;
    hide Table;
    hide ErrorOf;
    hide AllSafe;
    hide Safe;
    hide Goods;
    AllGoodExtends(cmds);
    var c := cmds[|cmds| - 1];
    if c.Good? {
      LastOfGoods(cmds);
      GoodExtends(Goods(cmds));
    } else {
      BadIsError(Goods(cmds[..|cmds| - 1]));
    }
  }

  /** No error is reported exactly for commands that are all good, with at most 50 tags, all different. */
  lemma {:induction false} NoErrorMeans(cmds: seq<Parsed>)
    requires GoodsSafe(cmds)
    ensures AllSafe(Goods(cmds)) && (FirstError(cmds) == 0 <==> Orderly(cmds))
  {
    GoodsAllSafe(cmds);
    if cmds != [] {
      var front := cmds[..|cmds| - 1];
      NoErrorMeans(front);
      hide Orderly;
      OrderlyExtends(cmds);
    }
  }

  // ------------------------------------------------------------------------ the two loops

  /** A stored command with its jump, if any, looked up in the table. */
  function ByTable(t: seq<(UInt32, nat)>, i: Instr): Instr
    requires Safe(i)
  {
    var j := FirstMatch(t, i.args[0]);
    if Jump(i.op) && j < |t| then i.(args := i.args[0 := Low32(t[j].1)]) else i
  }

  predicate Dangling(t: seq<(UInt32, nat)>, i: Instr)
    requires Safe(i)
  {
    Jump(i.op) && FirstMatch(t, i.args[0]) == |t|
  }

  /** A linear search of the first `tags` entries. */
  method Search(tagStep: array<(UInt32, nat)>, tags: nat, tag: UInt32) returns (j: nat)
    requires tags <= tagStep.Length
    ensures j == FirstMatch(tagStep[..tags], tag)
  {
    j := 0;
    ghost var t := tagStep[..tags];
    while j < tags && tagStep[j].0 != tag
      invariant j <= tags
      invariant FirstMatch(t, tag) == j + FirstMatch(t[j..], tag)
    {
      assert t[j..][1..] == t[j + 1..];
      j := j + 1;
    }
  }

  /** The state of the first loop after some commands. */
  ghost predicate Collected(cmds: seq<Parsed>, instr: seq<Instr>, table: seq<(UInt32, nat)>, status: int)
    requires GoodsSafe(cmds) && AllSafe(Goods(cmds))
  {
    && instr == Stripped(Goods(cmds))
    && table == Truncated(Table(Goods(cmds)))
    && status == FirstError(cmds)
  }

  function Truncated(full: seq<(UInt32, nat)>): seq<(UInt32, nat)> {
    full[..if |full| < MAX_TAGS then |full| else MAX_TAGS]
  }

  lemma Unfolded(cmds: seq<Parsed>)
    requires GoodsSafe(cmds) && cmds != []
    requires AllSafe(Goods(cmds)) && AllSafe(Goods(cmds[..|cmds| - 1]))
    ensures var front, c := cmds[..|cmds| - 1], cmds[|cmds| - 1];
            && (c.Bad? ==> Goods(cmds) == Goods(front))
            && FirstError(cmds) == if FirstError(front) != 0 then FirstError(front) else ErrorOf(Goods(front), c)
  {
    hide Safe;
    hide ErrorOf;
  }

  lemma UnfoldedGood(src: seq<Instr>)
    requires src != [] && AllSafe(src)
    ensures var front, i := src[..|src| - 1], src[|src| - 1];
            && |i.args| == MAX_ARG
            && Stripped(src) == (if i.op.TAG? then Stripped(front) else Stripped(front) + [i])
            && Table(src) == if i.op.TAG? then Table(front) + [(i.args[0], |Stripped(front)|)] else Table(front)
  {
  }

  lemma TruncatedNext(full: seq<(UInt32, nat)>, e: (UInt32, nat))
    ensures Truncated(full + [e]) == if |full| < MAX_TAGS then Truncated(full) + [e] else Truncated(full)
    ensures |full| < MAX_TAGS ==> Truncated(full) == full
    ensures |Truncated(full)| >= MAX_TAGS <==> |full| >= MAX_TAGS
  {
  }

  /** What the loop body does to the three of them, given the command. */
  ghost predicate Stored(c: Parsed, instr: seq<Instr>, table: seq<(UInt32, nat)>, status: int,
                         instr': seq<Instr>, table': seq<(UInt32, nat)>, status': int)
  {
    if c.Bad? then
      instr' == instr && table' == table && status' == if status != 0 then status else BAD_SCRIPT_CMD
    else if !c.i.op.TAG? then
      instr' == instr + [c.i] && table' == table && status' == status
    else
      && |c.i.args| == MAX_ARG && instr' == instr
      && (|table| >= MAX_TAGS ==>
            table' == table && status' == if status != 0 then status else TOO_MANY_TAGS)
      && (|table| < MAX_TAGS ==>
            && table' == table + [(c.i.args[0], |instr|)]
            && status' == if status == 0 && FirstMatch(table, c.i.args[0]) < |table| then DUP_TAG else status)
  }

  lemma BadCollected(cmds: seq<Parsed>, instr: seq<Instr>, table: seq<(UInt32, nat)>, status: int,
                     instr': seq<Instr>, table': seq<(UInt32, nat)>, status': int)
    requires GoodsSafe(cmds) && cmds != []
    requires AllSafe(Goods(cmds)) && AllSafe(Goods(cmds[..|cmds| - 1]))
    requires Collected(cmds[..|cmds| - 1], instr, table, status)
    requires Stored(cmds[|cmds| - 1], instr, table, status, instr', table', status')
    requires cmds[|cmds| - 1].Bad?
    ensures Collected(cmds, instr', table', status')
  {
    hide Safe;
    hide AllSafe;
    hide GoodsSafe;
    hide Goods;
    hide FirstError;
    hide Stripped;
    hide Table;
    hide FirstMatch;
    hide Truncated;
    Unfolded(cmds);
  }

  lemma CommandCollected(cmds: seq<Parsed>, instr: seq<Instr>, table: seq<(UInt32, nat)>, status: int,
                         instr': seq<Instr>, table': seq<(UInt32, nat)>, status': int)
    requires GoodsSafe(cmds) && cmds != []
    requires AllSafe(Goods(cmds)) && AllSafe(Goods(cmds[..|cmds| - 1]))
    requires Collected(cmds[..|cmds| - 1], instr, table, status)
    requires Stored(cmds[|cmds| - 1], instr, table, status, instr', table', status')
    requires cmds[|cmds| - 1].Good? && !cmds[|cmds| - 1].i.op.TAG?
    ensures Collected(cmds, instr', table', status')
  {
    hide Safe;
    hide AllSafe;
    hide GoodsSafe;
    hide Goods;
    hide FirstError;
    hide Stripped;
    hide Table;
    hide FirstMatch;
    hide Truncated;
    Unfolded(cmds);
    LastOfGoods(cmds);
    UnfoldedGood(Goods(cmds));
  }

  lemma TagCollected(cmds: seq<Parsed>, instr: seq<Instr>, table: seq<(UInt32, nat)>, status: int,
                     instr': seq<Instr>, table': seq<(UInt32, nat)>, status': int)
    requires GoodsSafe(cmds) && cmds != []
    requires AllSafe(Goods(cmds)) && AllSafe(Goods(cmds[..|cmds| - 1]))
    requires Collected(cmds[..|cmds| - 1], instr, table, status)
    requires Stored(cmds[|cmds| - 1], instr, table, status, instr', table', status')
    requires cmds[|cmds| - 1].Good? && cmds[|cmds| - 1].i.op.TAG?
    ensures Collected(cmds, instr', table', status')
  {
    hide Safe;
    hide AllSafe;
    hide GoodsSafe;
    hide Goods;
    hide FirstError;
    hide Stripped;
    hide Table;
    hide FirstMatch;
    hide Truncated;
    Unfolded(cmds);
    LastOfGoods(cmds);
    UnfoldedGood(Goods(cmds));
    TruncatedNext(Table(Goods(cmds[..|cmds| - 1])), (cmds[|cmds| - 1].i.args[0], |instr|));
  }

  lemma StoredIsCollected(cmds: seq<Parsed>, instr: seq<Instr>, table: seq<(UInt32, nat)>, status: int,
                          instr': seq<Instr>, table': seq<(UInt32, nat)>, status': int)
    requires GoodsSafe(cmds) && cmds != []
    requires AllSafe(Goods(cmds)) && AllSafe(Goods(cmds[..|cmds| - 1]))
    requires Collected(cmds[..|cmds| - 1], instr, table, status)
    requires Stored(cmds[|cmds| - 1], instr, table, status, instr', table', status')
    ensures Collected(cmds, instr', table', status')
  {
    hide Safe;
    hide AllSafe;
    hide GoodsSafe;
    hide Goods;
    hide FirstError;
    hide Stripped;
    hide Table;
    hide FirstMatch;
    hide Truncated;
    hide Collected;
    hide Stored;
    if cmds[|cmds| - 1].Bad? {
      BadCollected(cmds, instr, table, status, instr', table', status');
    } else if cmds[|cmds| - 1].i.op.TAG? {
      TagCollected(cmds, instr, table, status, instr', table', status');
    } else {
      CommandCollected(cmds, instr, table, status, instr', table', status');
    }
  }

  /** The body of the first loop. */
  method StoreOne(c: Parsed, instr: array<Instr>, instrs: nat, tagStep: array<(UInt32, nat)>, tags: nat, status: int)
    returns (instrs': nat, tags': nat, status': int)
    requires instrs < instr.Length && tags <= tagStep.Length == MAX_TAGS && (c.Good? ==> Safe(c.i))
    modifies instr, tagStep
    ensures instrs' <= instrs + 1 && tags' <= MAX_TAGS
    ensures Stored(c, old(instr[..instrs]), old(tagStep[..tags]), status, instr[..instrs'], tagStep[..tags'], status')
  {
    instrs', tags', status' := instrs, tags, status;
    if c.Good? {
      var i := c.i;
      var idx := 0;
      if i.op.TAG? {
        if tags < MAX_TAGS {
          var j := Search(tagStep, tags, i.args[0]);
          if j < tags {
            if status == 0 {
              status' := DUP_TAG;
            }
            idx := -1;
          }
          tagStep[tags] := (i.args[0], instrs);
          tags' := tags + 1;
        } else {
          if status == 0 {
            status' := TOO_MANY_TAGS;
          }
          idx := -1;
        }
      }
      if idx >= 0 && !i.op.TAG? {
        instr[instrs] := i;
        instrs' := instrs + 1;
      }
    } else if status == 0 {
      status' := BAD_SCRIPT_CMD;
    }
  }

  method Collect(cmds: seq<Parsed>)
    returns (instr: array<Instr>, instrs: nat, tagStep: array<(UInt32, nat)>, tags: nat, status: int)
    requires GoodsSafe(cmds) && AllSafe(Goods(cmds))
    ensures fresh(instr) && instrs <= instr.Length && tags <= tagStep.Length && fresh(tagStep)
    ensures Collected(cmds, instr[..instrs], tagStep[..tags], status)
  {
    instr := new Instr[|cmds|](_ => Command(HALT, 0, Absent, 0, Absent));
    tagStep := new (UInt32, nat)[MAX_TAGS](_ => (0, 0));
    instrs, tags, status := 0, 0, 0;
    CollectedNone(cmds);
    hide Collected;
    hide Stored;
    hide Goods;
    hide Safe;
    hide AllSafe;
    for k := 0 to |cmds|
      invariant fresh(instr) && fresh(tagStep)
      invariant instr.Length == |cmds| && tagStep.Length == MAX_TAGS
      invariant instrs <= k && tags <= MAX_TAGS
      invariant AllSafe(Goods(cmds[..k])) && Collected(cmds[..k], instr[..instrs], tagStep[..tags], status)
    {
      ghost var i0, t0, s0 := instr[..instrs], tagStep[..tags], status;
      instrs, tags, status := StoreOne(cmds[k], instr, instrs, tagStep, tags, status);
      assert cmds[..k + 1][..k] == cmds[..k];
      GoodsAllSafe(cmds[..k + 1]);
      StoredIsCollected(cmds[..k + 1], i0, t0, s0, instr[..instrs], tagStep[..tags], status);
    }
    assert cmds[..|cmds|] == cmds;
  }

  lemma CollectedNone(cmds: seq<Parsed>)
    requires GoodsSafe(cmds)
    ensures AllSafe(Goods(cmds[..0])) && Collected(cmds[..0], [], [], 0)
  {
    assert cmds[..0] == [];
  }

  // -------------------------------------------------------------------------- the result

  lemma {:induction false} StrippedHolds(src: seq<Instr>)
    ensures forall m :: 0 <= m < |Stripped(src)| ==> Stripped(src)[m] in src && !Stripped(src)[m].op.TAG?
    ensures forall k :: 0 <= k < |src| && !src[k].op.TAG? ==> src[k] in Stripped(src)
  {
    if src != [] {
      StrippedHolds(src[..|src| - 1]);
    }
  }

  lemma {:induction false} StrippedIsSafe(src: seq<Instr>)
    requires AllSafe(src)
    ensures AllSafe(Stripped(src))
  {
    hide Safe;
    hide Stripped;
    StrippedHolds(src);
  }

  /** Looking a stored jump up in the table resolves it in the source. */
  lemma ByTableResolves(src: seq<Instr>, i: Instr)
    requires AllSafe(src) && Safe(i)
    ensures (Jump(i.op) ==> FindTag(src, i.args[0]) < |src|) ==>
              ByTable(Table(src), i) == Resolve(src, i)
    ensures Dangling(Table(src), i) <==> Jump(i.op) && FindTag(src, i.args[0]) == |src|
  {
    assert |i.args| == MAX_ARG;
    hide Safe;
    hide Table;
    hide FindTag;
    hide FirstMatch;
    hide Before;
    hide Low32;
    TableFinds(src, i.args[0]);
  }

  /** No stored jump dangles exactly when each jump of the source has its label. */
  lemma NoneDangles(src: seq<Instr>)
    requires AllSafe(src) && AllSafe(Stripped(src))
    ensures Linked(src) <==>
            forall m :: 0 <= m < |Stripped(src)| ==> !Dangling(Table(src), Stripped(src)[m])
  {
    assert forall k :: 0 <= k < |src| ==> |src[k].args| == MAX_ARG;
    assert forall m :: 0 <= m < |Stripped(src)| ==> |Stripped(src)[m].args| == MAX_ARG;
    hide Safe;
    hide Table;
    hide FindTag;
    hide Dangling;
    hide Stripped;
    StrippedHolds(src);
    var s := Stripped(src);
    forall m | 0 <= m < |s|
      ensures Dangling(Table(src), s[m]) <==> Jump(s[m].op) && FindTag(src, s[m].args[0]) == |src|
    {
      ByTableResolves(src, s[m]);
    }
    if Linked(src) {
      forall m | 0 <= m < |s|
        ensures !Dangling(Table(src), s[m])
      {
        var k :| 0 <= k < |src| && src[k] == s[m];
      }
    }
    if forall m :: 0 <= m < |s| ==> !Dangling(Table(src), s[m]) {
      forall k | 0 <= k < |src| && Jump(src[k].op)
        ensures FindTag(src, src[k].args[0]) < |src|
      {
        var m :| 0 <= m < |s| && s[m] == src[k];
      }
    }
  }

  lemma PatchedIsProgram(src: seq<Instr>, patched: seq<Instr>)
    requires AllSafe(src) && AllSafe(Stripped(src)) && Linked(src)
    requires |patched| == |Stripped(src)|
    requires forall m :: 0 <= m < |patched| ==> patched[m] == ByTable(Table(src), Stripped(src)[m])
    ensures patched == Program(src)
  {
    hide Safe;
    hide Table;
    hide FindTag;
    hide Stripped;
    hide ByTable;
    hide Resolve;
    hide Assembled;
    assert src[..|src|] == src;
    ProgramIsResolved(src, |src|);
    var s := Stripped(src);
    forall m | 0 <= m < |s|
      ensures patched[m] == Resolve(src, s[m])
    {
      var k :| 0 <= k < |src| && src[k] == s[m];
      ByTableResolves(src, s[m]);
    }
  }

  /** The whole script is accepted. */
  ghost predicate Accepted(cmds: seq<Parsed>)
    requires AllSafe(Goods(cmds))
  {
    Orderly(cmds) && Linked(Goods(cmds))
  }

  /** cmdParseScript on parsed commands: the stored program and the status, which is the first
      error met, or 0 exactly when the commands are all good, there are at most 50 tags and they
      differ, and each jump has its label. What is stored then is the program whose meaning
      ScriptProof.dfy compares with the source's. */
  method CmdParseScript(cmds: seq<Parsed>) returns (instr: array<Instr>, instrs: nat, status: int)
    requires GoodsSafe(cmds)
    ensures fresh(instr) && instrs <= instr.Length
    ensures AllSafe(Goods(cmds))
    ensures FirstError(cmds) != 0 ==> status == FirstError(cmds)
    ensures FirstError(cmds) == 0 ==> status == if Linked(Goods(cmds)) then 0 else BAD_TAG
    ensures status == 0 <==> Accepted(cmds)
    ensures status == 0 ==> instr[..instrs] == Program(Goods(cmds))
  {
    NoErrorMeans(cmds);
    var tagStep: array<(UInt32, nat)>;
    var tags: nat;
    instr, instrs, tagStep, tags, status := Collect(cmds);
    ghost var src := Goods(cmds);
    StrippedIsSafe(src);
    hide Goods;
    hide AllSafe;
    hide Stripped;
    hide Table;
    hide FirstError;
    hide Linked;
    hide Dangling;
    hide ByTable;
    hide Program;
    assert FirstError(cmds) == 0 ==> Truncated(Table(src)) == Table(src);
    NoneDangles(src);
    ghost var was := instr[..instrs];
    status := ResolveJumps(instr, instrs, tagStep, tags, status);
    if status == 0 {
      PatchedIsProgram(src, instr[..instrs]);
    }
  }

  /** The second loop patches the stored jumps. */
  method ResolveJumps(instr: array<Instr>, instrs: nat, tagStep: array<(UInt32, nat)>, tags: nat, status0: int)
    returns (status: int)
    requires instrs <= instr.Length && tags <= tagStep.Length
    requires AllSafe(instr[..instrs])
    modifies instr
    ensures forall m :: 0 <= m < instrs ==> instr[m] == ByTable(tagStep[..tags], old(instr[m]))
    ensures status == if status0 != 0 then status0
                      else if exists m :: 0 <= m < instrs && Dangling(tagStep[..tags], old(instr[m])) then BAD_TAG
                      else 0
  {
    status := status0;
    ghost var t := tagStep[..tags];
    ghost var was := instr[..instrs];
    for i := 0 to instrs
      invariant t == tagStep[..tags]
      invariant forall m :: 0 <= m < i ==> instr[m] == ByTable(t, was[m])
      invariant forall m :: i <= m < instrs ==> instr[m] == was[m]
      invariant status == if status0 != 0 then status0
                          else if exists m :: 0 <= m < i && Dangling(t, was[m]) then BAD_TAG
                          else 0
    {
      var it := instr[i];
      assert Safe(was[i]);
      if Jump(it.op) {
        var j := Search(tagStep, tags, it.args[0]);
        if j < tags {
          instr[i] := it.(args := it.args[0 := Low32(tagStep[j].1)]);
        } else if status == 0 {
          status := BAD_TAG;
        }
      }
    }
  }
}
