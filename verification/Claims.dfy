/**
 Claiming and freeing lines: the methods of lgpio/lgGpio.c, whose loops write the line records in
 place. Every one of them keeps the claim table in step with what the kernel holds open.
 */
module Claims {
  import opened ClaimModel

  /** Where xClaim stops before it asks the kernel. */
  predicate Barred(lines: seq<Line>, n: nat, g: int)
    requires |lines| == n + 1
  {
    g < 0 || g > n || lines[g].banned
  }

  /** What a claim answers that the kernel, or memory after its grant, has failed. */
  function Refusal(a: Answer): int {
    match a
    case Busy => GPIO_BUSY
    case Refused => UNEXPECTED_ERROR
    case Granted(_) => NOT_ENOUGH_MEMORY
  }

  /** What is open after the line has been freed, if it may be. */
  function WithoutLine(lines: seq<Line>, n: nat, open: Groups, g: int): Groups
    requires n <= |lines|
  {
    if 0 <= g < n && lines[g].mode != UNKNOWN && lines[g].offset == 0 then open - {lines[g].fd} else open
  }

  ghost predicate SameBans(a: seq<Line>, b: seq<Line>) {
    |a| == |b| && forall g :: 0 <= g < |a| ==> a[g].banned == b[g].banned
  }

  /** Its own array has a line first exactly when its record says so. */
  lemma LeaderFirst(lines: seq<Line>, n: nat, heap: Heap, open: Groups, g: int)
    requires Represents(lines, n, heap, open) && 0 <= g < n && Uses(lines[g])
    ensures lines[g].offsetsP != null && lines[g].offsetsP in heap && lines[g].fd in open
    ensures var m := heap[lines[g].offsetsP];
            && m == open[lines[g].fd].members && 1 <= |m| == lines[g].size
            && (m[0] == g <==> lines[g].offset == 0)
            && forall i :: 0 <= i < |m| ==> 0 <= m[i] < n
  {
    var f := lines[g].fd;
    assert SaysTruly(lines[g], g, heap, open);
    assert Claimed(lines, n, open, f, 0) && Claimed(lines, n, open, f, lines[g].offset);
    forall i | 0 <= i < |open[f].members|
      ensures 0 <= open[f].members[i] < n
    {
      assert Claimed(lines, n, open, f, i);
    }
  }

  lemma ErasedNext(was: seq<Line>, lines: seq<Line>, members: seq<int>, i: nat)
    requires i < |members| && Erased(was, lines, members, i) && 0 <= members[i] < |was|
    ensures Erased(was, lines[members[i] := lines[members[i]].(mode := UNKNOWN)], members, i + 1)
  {
    assert members[..i + 1] == members[..i] + [members[i]];
  }

  /** What lines a line is freed with. */
  function Fellows(lines: seq<Line>, n: nat, open: Groups, g: int): seq<int>
    requires n <= |lines|
  {
    if 0 <= g < n && lines[g].mode != UNKNOWN && lines[g].offset == 0 && lines[g].fd in open
    then open[lines[g].fd].members else []
  }

  class Chip {
    const n: nat
    /** One record a line; the last stands for the memory after them, where the bounds check of
        xClaim still lets a request look. */
    const lines: array<Line>
    ghost var open: Groups
    ghost var blocks: set<array<int>>

    ghost function HeapOf(): Heap
      reads this, blocks
    {
      map a | a in blocks :: a[..]
    }

    ghost predicate Valid()
      reads this, lines, blocks
    {
      lines.Length == n + 1 && Represents(lines[..], n, HeapOf(), open)
    }

    constructor (size: nat, beyond: Line)
      ensures Valid() && n == size && open == map[] && blocks == {} && fresh(lines)
      ensures forall g :: 0 <= g < n ==> lines[g].mode == UNKNOWN
    {
      n := size;
      var empty := Line(false, UNKNOWN, 0, 0, 0, null);
      lines := new Line[size + 1](i => if i < size then empty else beyond);
      open := map[];
      blocks := {};
    }

    /** The loop over the lines of a granted request. */
    method WriteLines(gpios: seq<int>, mode: Mode, fd: int) returns (offsets: array<int>)
      requires lines.Length == n + 1 && Distinct(gpios) && forall i :: 0 <= i < |gpios| ==> 0 <= gpios[i] < n
      modifies lines
      ensures fresh(offsets) && offsets[..] == gpios
      ensures Written(old(lines[..]), lines[..], gpios, |gpios|, mode, fd, offsets)
    {
      ghost var was := lines[..];
      offsets := new int[|gpios|](_ => 0);
      for i := 0 to |gpios|
        invariant Written(was, lines[..], gpios, i, mode, fd, offsets)
        invariant offsets[..i] == gpios[..i]
      {
        var g := gpios[i];
        WrittenNext(was, lines[..], gpios, i, mode, fd, offsets);
        ghost var now := lines[..];
        lines[g] := Joined(lines[g], mode, |gpios|, fd, i, offsets);
        assert lines[..] == now[g := lines[g]];
        offsets[i] := g;
        assert gpios[..i + 1] == gpios[..i] + [g];
      }
    }

    /** xGpioHandleRequest: on a grant, every line of the request is written. */
    method HandleRequest(gpios: seq<int>, mode: Mode, a: Answer, memory: bool) returns (status: int)
      requires Valid() && MayAnswer(open, n, gpios, a) && GroupMode(Group(mode, gpios)) && !mode.alert
      modifies this, lines
      ensures Valid() && fresh(blocks - old(blocks))
      ensures SameBans(old(lines[..]), lines[..]) && (status != OKAY ==> lines[..] == old(lines[..]))
      ensures status == if a.Busy? then GPIO_BUSY else if a.Refused? then UNEXPECTED_ERROR
                        else if !memory then NOT_ENOUGH_MEMORY else OKAY
      ensures open == if status == OKAY then old(open)[a.fd := Group(mode, gpios)] else old(open)
    {
      if a.Busy? {
        return GPIO_BUSY;
      }
      if a.Refused? {
        return UNEXPECTED_ERROR;
      }
      if !memory {
        return NOT_ENOUGH_MEMORY;
      }
      hide Represents;
      hide SaysTruly;
      hide Held;
      ghost var was, heap := lines[..], HeapOf();
      var offsets := WriteLines(gpios, mode, a.fd);
      ClaimKeeps(was, lines[..], n, heap, open, gpios, mode, a.fd, offsets);
      open := open[a.fd := Group(mode, gpios)];
      blocks := blocks + {offsets};
      assert HeapOf() == heap[offsets := gpios];
      status := OKAY;
    }

    /** xClaim */
    method Claim(gpios: seq<int>, output: bool, a: Answer, memory: bool) returns (status: int)
      requires Valid() && MayAnswer(open, n, gpios, a)
      modifies this, lines
      ensures Valid() && fresh(blocks - old(blocks))
      ensures SameBans(old(lines[..]), lines[..]) && (status != OKAY ==> lines[..] == old(lines[..]))
      ensures status == OKAY <==> && 1 <= |gpios| <= LINES_MAX && a.Granted? && memory
                                  && forall i :: 0 <= i < |gpios| ==> !Barred(old(lines[..]), n, gpios[i])
      ensures status == NOT_PERMITTED <==>
              1 <= |gpios| <= LINES_MAX && exists i :: 0 <= i < |gpios| && Barred(old(lines[..]), n, gpios[i])
      ensures status == BAD_GROUP_SIZE <==> gpios == [] || |gpios| > LINES_MAX
      ensures status !in {OKAY, NOT_PERMITTED, BAD_GROUP_SIZE} ==> status == Refusal(a)
      ensures open == if status == OKAY
                      then old(open)[a.fd := Group(Mode(!output, output, false, |gpios| > 1), gpios)] else old(open)
    {
      if gpios == [] || |gpios| > LINES_MAX {
        return BAD_GROUP_SIZE;
      }
      for i := 0 to |gpios|
        invariant forall j :: 0 <= j < i ==> !Barred(lines[..], n, gpios[j])
      {
        if gpios[i] < 0 || gpios[i] > n || lines[gpios[i]].banned {
          assert Barred(lines[..], n, gpios[i]);
          return NOT_PERMITTED;
        }
      }
      status := HandleRequest(gpios, Mode(!output, output, false, |gpios| > 1), a, memory);
    }

    /** xSetAsFree: the leader of a group takes the whole group with it, and only that. */
    method SetAsFree(gpio: int) returns (status: int)
      requires Valid()
      modifies this, lines
      ensures Valid() && blocks <= old(blocks)
      ensures open == WithoutLine(old(lines[..]), n, old(open), gpio)
      ensures var m := Fellows(old(lines[..]), n, old(open), gpio); Erased(old(lines[..]), lines[..], m, |m|)
      ensures status == if gpio < 0 || gpio >= n then BAD_GPIO_NUMBER
                        else if old(lines[gpio]).mode != UNKNOWN && old(lines[gpio]).offset != 0 then NOT_GROUP_LEADER
                        else OKAY
    {
      if gpio < 0 || gpio >= n {
        return BAD_GPIO_NUMBER;
      }
      var line := lines[gpio];
      if line.mode == UNKNOWN {
        return OKAY;
      }
      ghost var was, heap := lines[..], HeapOf();
      assert SaysTruly(line, gpio, heap, open);
      if line.mode.alert {
        AloneFirst(was, n, heap, open, gpio);
        hide Represents;
        hide SaysTruly;
        lines[gpio] := line.(mode := UNKNOWN);
        FreeKeeps(was, lines[..], n, heap, open, gpio);
        open := open - {line.fd};
        assert HeapOf() == heap;
        return OKAY;
      }
      LeaderFirst(was, n, heap, open, gpio);
      hide Represents;
      hide SaysTruly;
      if gpio == line.offsetsP[0] {
        Erase(line, heap[line.offsetsP]);
        FreeKeeps(was, lines[..], n, heap, open, gpio);
        open := open - {line.fd};
        blocks := blocks - {line.offsetsP};
        assert HeapOf() == heap - {line.offsetsP};
        return OKAY;
      }
      return NOT_GROUP_LEADER;
    }

    method Erase(line: Line, ghost m: seq<int>)
      requires lines.Length == n + 1 && line.offsetsP != null && line.offsetsP[..] == m && |m| == line.size
      requires forall i :: 0 <= i < |m| ==> 0 <= m[i] < n
      modifies lines
      ensures Erased(old(lines[..]), lines[..], m, |m|)
    {
      ghost var was := lines[..];
      for i := 0 to line.size
        invariant Erased(was, lines[..], m, i)
      {
        var g := line.offsetsP[i];
        assert g == m[i];
        ErasedNext(was, lines[..], m, i);
        ghost var now := lines[..];
        lines[g] := lines[g].(mode := UNKNOWN);
        assert lines[..] == now[g := lines[g]];
      }
    }

    /** lgGroupFree and lgGpioFree: only a leader may be freed, so xSetAsFree has no complaint left. */
    method Free(gpio: int) returns (status: int)
      requires Valid()
      modifies this, lines
      ensures Valid() && blocks <= old(blocks)
      ensures status == if gpio < 0 || gpio >= n then BAD_GPIO_NUMBER
                        else if old(lines[gpio]).mode == UNKNOWN then GPIO_NOT_ALLOCATED
                        else if old(lines[gpio]).offset != 0 then NOT_GROUP_LEADER
                        else OKAY
      ensures var m := Fellows(old(lines[..]), n, old(open), gpio); Erased(old(lines[..]), lines[..], m, |m|)
      ensures open == WithoutLine(old(lines[..]), n, old(open), gpio)
    {
      if gpio < 0 || gpio >= n {
        return BAD_GPIO_NUMBER;
      }
      if lines[gpio].mode == UNKNOWN {
        return GPIO_NOT_ALLOCATED;
      }
      if lines[gpio].offset != 0 {
        return NOT_GROUP_LEADER;
      }
      status := SetAsFree(gpio);
    }

    /** xSetAsOutput, and but for the direction xSetAsInput. A line claimed alone is freed first. */
    method SetAs(output: bool, gpios: seq<int>, a: Answer, memory: bool) returns (status: int)
      requires Valid() && (|gpios| == 1 ==> 0 <= gpios[0] <= n)
      requires lines.Length == n + 1 && MayAnswer(Remaining(lines[..], n, open, gpios), n, gpios, a)
      modifies this, lines
      ensures Valid() && fresh(blocks - old(blocks)) && SameBans(old(lines[..]), lines[..])
      ensures Already(old(lines[..]), output, gpios) ==>
                status == OKAY && open == old(open) && lines[..] == old(lines[..])
      ensures !Already(old(lines[..]), output, gpios) ==>
                && (status == OKAY <==> && 1 <= |gpios| <= LINES_MAX && a.Granted? && memory
                                        && forall i :: 0 <= i < |gpios| ==> !Barred(old(lines[..]), n, gpios[i]))
                && (status == BAD_GROUP_SIZE <==> gpios == [] || |gpios| > LINES_MAX)
                && (status == NOT_PERMITTED <==>
                      1 <= |gpios| <= LINES_MAX
                      && exists i :: 0 <= i < |gpios| && Barred(old(lines[..]), n, gpios[i]))
                && (status !in {OKAY, NOT_PERMITTED, BAD_GROUP_SIZE} ==> status == Refusal(a))
                && (status != OKAY ==>
                      var m := FreedFirst(old(lines[..]), n, old(open), gpios);
                      Erased(old(lines[..]), lines[..], m, |m|))
                && var left := Remaining(old(lines[..]), n, old(open), gpios);
                   open == if status == OKAY
                           then left[a.fd := Group(Mode(!output, output, false, |gpios| > 1), gpios)] else left
    {
      ghost var was := lines[..];
      if |gpios| == 1 {
        var mode := lines[gpios[0]].mode;
        if if output then mode.output else mode.input {
          // nothing to do
          return OKAY;
        }
        if !mode.group {
          var _ := SetAsFree(gpios[0]);
        }
        assert Barred(lines[..], n, gpios[0]) == Barred(was, n, gpios[0]);
      }
      status := Claim(gpios, output, a, memory);
    }

    /** lgGpioClaimAlert: a line claimed alone is freed first; a line of a group is refused. */
    method ClaimAlert(gpio: int, a: Answer, memory: bool, more: bool) returns (status: int)
      requires Valid() && MayAnswer(WithoutLine(lines[..], n, open, gpio), n, [gpio], a)
      modifies this, lines
      ensures Valid() && blocks <= old(blocks) && SameBans(old(lines[..]), lines[..])
      ensures status == if gpio < 0 || gpio >= n then BAD_GPIO_NUMBER
                        else if old(lines[gpio]).mode.group then INVALID_GROUP_ALERT
                        else if !a.Granted? then BAD_EVENT_REQUEST
                        else if !memory || !more then NOT_ENOUGH_MEMORY
                        else OKAY
      ensures open == if status == BAD_GPIO_NUMBER || status == INVALID_GROUP_ALERT then old(open)
                      else if status != OKAY then WithoutLine(old(lines[..]), n, old(open), gpio)
                      else WithoutLine(old(lines[..]), n, old(open), gpio)[a.fd := Group(ALERTING, [gpio])]
    {
      if gpio < 0 || gpio >= n {
        return BAD_GPIO_NUMBER;
      }
      if lines[gpio].mode.group {
        return INVALID_GROUP_ALERT;
      }
      var _ := SetAsFree(gpio);
      if !a.Granted? {
        return BAD_EVENT_REQUEST;
      }
      if !memory {
        return NOT_ENOUGH_MEMORY;
      }
      if !more {
        return NOT_ENOUGH_MEMORY;
      }
      Watch(gpio, a.fd);
      status := OKAY;
    }

    /** The line is claimed alone, with an array of its own for the values. */
    method Watch(gpio: int, fd: nat)
      requires Valid() && 0 <= gpio < n && MayAnswer(open, n, [gpio], Granted(fd))
      modifies this`open, lines
      ensures Valid() && open == old(open)[fd := Group(ALERTING, [gpio])] && SameBans(old(lines[..]), lines[..])
    {
      ghost var was, heap := lines[..], HeapOf();
      hide Represents;
      hide SaysTruly;
      var offsets := new int[1](_ => 0);
      lines[gpio] := Joined(lines[gpio], ALERTING, 1, fd, 0, offsets);
      assert [gpio][..1] == [gpio];
      assert Written(was, lines[..], [gpio], 1, ALERTING, fd, offsets);
      ClaimKeeps(was, lines[..], n, heap, open, [gpio], ALERTING, fd, offsets);
      open := open[fd := Group(ALERTING, [gpio])];
      assert HeapOf() == heap;
    }

    /** _lgGpiochipClose: every open request is closed, each once. */
    method Close()
      requires Valid()
      modifies this, lines
      ensures open == map[]
    {
      ghost var was, groups, heap := lines[..], open, HeapOf();
      ClosedAll(was, n, heap, groups);
      for i := 0 to n
        invariant forall g :: i <= g <= n ==> lines[g] == was[g]
        invariant forall f :: f in groups ==> groups[f].members != []
        invariant forall f :: f in open <==> f in groups && groups[f].members[0] >= i
      {
        ClosedSoFar(was, n, heap, groups, i);
        if lines[i].mode != UNKNOWN && lines[i].offset == 0 {
          assert SaysTruly(was[i], i, heap, groups);
          if lines[i].fd != -1 {
            CloseFd(lines[i].fd);
            lines[i] := lines[i].(fd := -1);
          }
          lines[i] := lines[i].(offsetsP := null);
        }
      }
      assert forall f :: f !in open;
    }

    /** close(2) on a request's descriptor. */
    ghost method CloseFd(fd: int)
      requires fd in open
      modifies `open
      ensures open == old(open) - {fd}
    {
      open := open - {fd};
    }
  }

  /** The groups led by the lines from i on, but for line i's own. */
  lemma ClosedSoFar(was: seq<Line>, n: nat, heap: Heap, groups: Groups, i: nat)
    requires Represents(was, n, heap, groups) && i < n
    ensures forall f :: f in groups ==> groups[f].members != []
    ensures forall f :: f in groups ==>
              (groups[f].members[0] == i <==> was[i].mode != UNKNOWN && was[i].offset == 0 && was[i].fd == f)
  {
    forall f | f in groups
      ensures groups[f].members != []
      ensures groups[f].members[0] == i <==> was[i].mode != UNKNOWN && was[i].offset == 0 && was[i].fd == f
    {
      assert GroupMode(groups[f]) && Claimed(was, n, groups, f, 0);
      if was[i].mode != UNKNOWN {
        assert SaysTruly(was[i], i, heap, groups);
      }
    }
  }

  lemma ClosedAll(was: seq<Line>, n: nat, heap: Heap, groups: Groups)
    requires Represents(was, n, heap, groups)
    ensures forall f :: f in groups ==> f >= 0 && groups[f].members != [] && 0 <= groups[f].members[0] < n
  {
    forall f | f in groups
      ensures groups[f].members != [] && 0 <= groups[f].members[0] < n
    {
      assert GroupMode(groups[f]) && Claimed(was, n, groups, f, 0);
    }
  }

  /** There is nothing to do: the line has the direction already, alone or in a group. */
  predicate Already(lines: seq<Line>, output: bool, gpios: seq<int>) {
    |gpios| == 1 && 0 <= gpios[0] < |lines|
    && if output then lines[gpios[0]].mode.output else lines[gpios[0]].mode.input
  }

  /** The lines freed before the kernel is asked. */
  function FreedFirst(lines: seq<Line>, n: nat, open: Groups, gpios: seq<int>): seq<int>
    requires n < |lines|
  {
    if |gpios| == 1 && 0 <= gpios[0] < |lines| && !lines[gpios[0]].mode.group
    then Fellows(lines, n, open, gpios[0]) else []
  }

  /** What is open when the kernel is asked. */
  function Remaining(lines: seq<Line>, n: nat, open: Groups, gpios: seq<int>): Groups
    requires n < |lines|
  {
    if |gpios| == 1 && 0 <= gpios[0] < n && !lines[gpios[0]].mode.group
    then WithoutLine(lines, n, open, gpios[0]) else open
  }

  /** A line claimed for alerts is a group of one. */
  lemma AloneFirst(lines: seq<Line>, n: nat, heap: Heap, open: Groups, g: int)
    requires Represents(lines, n, heap, open) && 0 <= g < n && lines[g].mode != UNKNOWN && !lines[g].mode.group
    ensures lines[g].fd in open && open[lines[g].fd].members == [g] && lines[g].offset == 0
  {
    assert SaysTruly(lines[g], g, heap, open);
    assert GroupMode(open[lines[g].fd]);
  }

  // ---------------------------------------------------------- the words of these contracts

  /** Freeing a line releases exactly the request of which it is the first line, if there is one. */
  lemma WhatIsReleased(lines: seq<Line>, n: nat, heap: Heap, open: Groups, g: int, f: int)
    requires Represents(lines, n, heap, open)
    ensures f in WithoutLine(lines, n, open, g) <==> f in open && open[f].members[0] != g
    ensures f in WithoutLine(lines, n, open, g) ==> WithoutLine(lines, n, open, g)[f] == open[f]
  {
    if 0 <= g < n && lines[g].mode != UNKNOWN {
      assert SaysTruly(lines[g], g, heap, open);
    }
    if f in open {
      assert GroupMode(open[f]) && Claimed(lines, n, open, f, 0);
    }
  }

  /** And the lines freed are exactly that request's. */
  lemma WhoAreFreed(lines: seq<Line>, n: nat, heap: Heap, open: Groups, g: int, x: int)
    requires Represents(lines, n, heap, open)
    ensures x in Fellows(lines, n, open, g) <==>
            exists f :: f in open && open[f].members[0] == g && x in open[f].members
  {
    if 0 <= g < n && lines[g].mode != UNKNOWN {
      assert SaysTruly(lines[g], g, heap, open);
    }
    forall f | f in open
      ensures open[f].members[0] == g ==> 0 <= g < n && lines[g].mode != UNKNOWN && lines[g].offset == 0 && lines[g].fd == f
    {
      assert GroupMode(open[f]) && Claimed(lines, n, open, f, 0);
    }
  }

  /** A single line is left alone if an open request has it in that direction; otherwise its request is
      released before the new one if it has it alone. */
  lemma WhatIsLeft(lines: seq<Line>, n: nat, heap: Heap, open: Groups, output: bool, g: int, f: int)
    requires Represents(lines, n, heap, open) && 0 <= g < n && |lines| == n + 1
    ensures Already(lines, output, [g]) <==>
            exists e :: e in open && g in open[e].members && if output then open[e].mode.output else open[e].mode.input
    ensures f in Remaining(lines, n, open, [g]) <==> f in open && open[f].members != [g]
  {
    Partition(lines, n, heap, open);
    if lines[g].mode != UNKNOWN {
      assert SaysTruly(lines[g], g, heap, open);
      assert GroupMode(open[lines[g].fd]);
    }
    forall e | e in open && g in open[e].members
      ensures lines[g].mode == open[e].mode && lines[g].fd == e
    {
      var i :| 0 <= i < |open[e].members| && open[e].members[i] == g;
      assert Claimed(lines, n, open, e, i);
      assert SaysTruly(lines[g], g, heap, open);
    }
    if f in open {
      assert GroupMode(open[f]) && Claimed(lines, n, open, f, 0);
      if open[f].members[0] == g {
        assert g in open[f].members;
      }
    }
  }
}
