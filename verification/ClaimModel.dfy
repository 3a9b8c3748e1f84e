/**
 The claim table of lgpio/lgGpio.c: one record per line of a chip, saying which group holds it.
 The groups are the kernel's open line requests, by file descriptor. Claims.dfy has the methods.
 */
module ClaimModel {
  const OKAY: int := 0
  const NOT_PERMITTED: int := -7
  const BAD_EVENT_REQUEST: int := -72
  const BAD_GPIO_NUMBER: int := -73
  const BAD_GROUP_SIZE: int := -74
  const GPIO_BUSY: int := -79
  const GPIO_NOT_ALLOCATED: int := -80
  const NOT_ENOUGH_MEMORY: int := -82
  const UNEXPECTED_ERROR: int := -85
  const NOT_GROUP_LEADER: int := -87
  const INVALID_GROUP_ALERT: int := -105

  const LINES_MAX: nat := 64

  /** The mode bits of a line; with none set it is unclaimed. */
  datatype Mode = Mode(input: bool, output: bool, alert: bool, group: bool)

  const UNKNOWN: Mode := Mode(false, false, false, false)
  const ALERTING: Mode := Mode(false, false, true, false)

  /** What lgLineInf_t says of a claim; offsetsP is the array the lines of a group share. */
  datatype Line = Line(banned: bool, mode: Mode, size: nat, fd: int, offset: nat, offsetsP: array?<int>)

  datatype Group = Group(mode: Mode, members: seq<int>)

  type Groups = map<int, Group>

  /** The kernel's answer to a line request. */
  datatype Answer = Granted(fd: nat) | Busy | Refused

  ghost predicate Distinct(s: seq<int>) { forall i, j :: 0 <= i < j < |s| ==> s[i] != s[j] }

  ghost predicate Held(open: Groups, g: int) { exists f :: f in open && g in open[f].members }

  /** The kernel grants only lines that exist, each once, and that no open request holds. */
  ghost predicate MayAnswer(open: Groups, n: nat, gpios: seq<int>, a: Answer) {
    a.Granted? ==>
      && a.fd !in open && Distinct(gpios)
      && forall i :: 0 <= i < |gpios| ==> 0 <= gpios[i] < n && !Held(open, gpios[i])
  }

  /** The contents of the arrays in use. */
  type Heap = map<array<int>, seq<int>>

  /** The line says it is where its group has it. */
  ghost predicate SaysTruly(l: Line, g: int, heap: Heap, open: Groups) {
    && l.fd in open
    && var grp := open[l.fd];
       && l.offset < |grp.members| == l.size && grp.members[l.offset] == g && l.mode == grp.mode
       && (!l.mode.alert ==> l.offsetsP != null && l.offsetsP in heap && heap[l.offsetsP] == grp.members)
  }

  ghost predicate GroupMode(grp: Group) {
    && grp.members != [] && grp.mode != UNKNOWN
    && grp.mode.group == (|grp.members| > 1) && (grp.mode.alert ==> grp.mode == ALERTING)
  }

  /** The line is claimed as the i-th of the group of f. */
  ghost predicate Claimed(lines: seq<Line>, n: nat, open: Groups, f: int, i: nat)
    requires n <= |lines| && f in open && i < |open[f].members|
  {
    && 0 <= open[f].members[i] < n
    && var l := lines[open[f].members[i]]; l.mode != UNKNOWN && l.fd == f && l.offset == i
  }

  /** Lines that use one array are of one group. */
  ghost predicate OwnArrays(lines: seq<Line>, n: nat)
    requires n <= |lines|
  {
    forall g, h :: 0 <= g < n && 0 <= h < n && Uses(lines[g]) && Uses(lines[h]) ==>
                     (lines[g].offsetsP == lines[h].offsetsP <==> lines[g].fd == lines[h].fd)
  }

  predicate Uses(l: Line) { l.mode != UNKNOWN && !l.mode.alert }

  ghost predicate Represents(lines: seq<Line>, n: nat, heap: Heap, open: Groups) {
    && n <= |lines|
    && (forall g :: 0 <= g < n && lines[g].mode != UNKNOWN ==> SaysTruly(lines[g], g, heap, open))
    && (forall f :: f in open ==> f >= 0 && GroupMode(open[f]))
    && (forall f, i :: f in open && 0 <= i < |open[f].members| ==> Claimed(lines, n, open, f, i))
    && OwnArrays(lines, n)
  }

  // --------------------------------------------------------------------------- partition

  /** The claimed lines are partitioned: no line is in two groups, nor twice in one, and a line is
      in a group exactly when its record says it is claimed. */
  lemma Partition(lines: seq<Line>, n: nat, heap: Heap, open: Groups)
    requires Represents(lines, n, heap, open)
    ensures forall f, e, i, j :: f in open && e in open && 0 <= i < |open[f].members| && 0 <= j < |open[e].members| ==>
              (open[f].members[i] == open[e].members[j] ==> f == e && i == j)
    ensures forall g :: 0 <= g < n ==> (lines[g].mode != UNKNOWN <==> Held(open, g))
    ensures forall g :: Held(open, g) ==> 0 <= g < n
  {
    forall f, e, i, j | f in open && e in open && 0 <= i < |open[f].members| && 0 <= j < |open[e].members|
                        && open[f].members[i] == open[e].members[j]
      ensures f == e && i == j
    {
      assert Claimed(lines, n, open, f, i) && Claimed(lines, n, open, e, j);
    }
    forall g | 0 <= g < n && lines[g].mode != UNKNOWN
      ensures Held(open, g)
    {
      assert SaysTruly(lines[g], g, heap, open);
      assert g in open[lines[g].fd].members;
    }
    forall g | Held(open, g)
      ensures 0 <= g < n && lines[g].mode != UNKNOWN
    {
      var f :| f in open && g in open[f].members;
      var i :| 0 <= i < |open[f].members| && open[f].members[i] == g;
      assert Claimed(lines, n, open, f, i);
    }
  }

  /** The lines of a group agree on everything: they share one array, which lists them without
      duplicates, each where its own record says, and no line of another group uses it. */
  lemma GroupAgrees(lines: seq<Line>, n: nat, heap: Heap, open: Groups, f: int, i: nat)
    requires Represents(lines, n, heap, open) && f in open && i < |open[f].members|
    ensures 0 <= open[f].members[i] < n && Distinct(open[f].members)
    ensures var m := open[f].members; var l := lines[m[i]];
            && l.mode == open[f].mode && l.size == |m| && l.fd == f && l.offset == i
            && (!l.mode.alert ==>
                  && l.offsetsP != null && l.offsetsP in heap && heap[l.offsetsP] == m
                  && forall g :: 0 <= g < n && Uses(lines[g]) ==> (lines[g].offsetsP == l.offsetsP <==> g in m))
  {
    Partition(lines, n, heap, open);
    var m := open[f].members;
    assert Claimed(lines, n, open, f, i);
    assert SaysTruly(lines[m[i]], m[i], heap, open);
    forall g | 0 <= g < n && Uses(lines[g])
      ensures lines[g].fd == f <==> g in m
    {
      assert SaysTruly(lines[g], g, heap, open);
      if g in m {
        var j :| 0 <= j < |m| && m[j] == g;
        assert Claimed(lines, n, open, f, j);
      }
    }
  }

  // ------------------------------------------------------------------------------- steps

  function Joined(l: Line, mode: Mode, size: nat, fd: int, i: nat, a: array?<int>): Line {
    Line(l.banned, mode, size, fd, i, a)
  }

  /** The first k lines of a request are written. */
  ghost predicate Written(was: seq<Line>, lines: seq<Line>, gpios: seq<int>, k: nat, mode: Mode, fd: int,
                          a: array?<int>)
    requires k <= |gpios| && forall i :: 0 <= i < |gpios| ==> 0 <= gpios[i] < |was|
  {
    && |lines| == |was|
    && (forall i :: 0 <= i < k ==> lines[gpios[i]] == Joined(was[gpios[i]], mode, |gpios|, fd, i, a))
    && forall g :: 0 <= g < |was| && g !in gpios[..k] ==> lines[g] == was[g]
  }

  lemma WrittenNext(was: seq<Line>, lines: seq<Line>, gpios: seq<int>, i: nat, mode: Mode, fd: int, a: array?<int>)
    requires i < |gpios| && Distinct(gpios) && forall j :: 0 <= j < |gpios| ==> 0 <= gpios[j] < |was|
    requires Written(was, lines, gpios, i, mode, fd, a)
    ensures Written(was, lines[gpios[i] := Joined(lines[gpios[i]], mode, |gpios|, fd, i, a)], gpios, i + 1, mode, fd, a)
  {
    assert gpios[..i + 1] == gpios[..i] + [gpios[i]];
    assert gpios[i] !in gpios[..i];
  }

  lemma ClaimKeeps(was: seq<Line>, lines: seq<Line>, n: nat, heap: Heap, open: Groups, gpios: seq<int>, mode: Mode,
                   fd: nat, a: array?<int>)
    requires Represents(was, n, heap, open) && MayAnswer(open, n, gpios, Granted(fd))
    requires GroupMode(Group(mode, gpios)) && (!mode.alert ==> a != null && a !in heap)
    requires Written(was, lines, gpios, |gpios|, mode, fd, a)
    ensures Represents(lines, n, if mode.alert then heap else heap[a := gpios], open[fd := Group(mode, gpios)])
  {
    var grp := Group(mode, gpios);
    var heap', open' := if mode.alert then heap else heap[a := gpios], open[fd := grp];
    assert gpios[..|gpios|] == gpios;
    Partition(was, n, heap, open);
    forall g | 0 <= g < n && lines[g].mode != UNKNOWN
      ensures SaysTruly(lines[g], g, heap', open')
    {
      if g in gpios {
        var i :| 0 <= i < |gpios| && gpios[i] == g;
      } else {
        assert SaysTruly(was[g], g, heap, open);
      }
    }
    forall f, i | f in open' && 0 <= i < |open'[f].members|
      ensures Claimed(lines, n, open', f, i)
    {
      if f != fd {
        assert Claimed(was, n, open, f, i);
        assert open[f].members[i] in open[f].members && Held(open, open[f].members[i]);
      }
    }
    ClaimKeepsArrays(was, lines, n, heap, open, gpios, mode, fd, a);
  }

  lemma ClaimKeepsArrays(was: seq<Line>, lines: seq<Line>, n: nat, heap: Heap, open: Groups, gpios: seq<int>,
                         mode: Mode, fd: nat, a: array?<int>)
    requires Represents(was, n, heap, open) && MayAnswer(open, n, gpios, Granted(fd))
    requires !mode.alert ==> a != null && a !in heap
    requires Written(was, lines, gpios, |gpios|, mode, fd, a)
    ensures OwnArrays(lines, n)
  {
    assert gpios[..|gpios|] == gpios;
    forall g, h | 0 <= g < n && 0 <= h < n && Uses(lines[g]) && Uses(lines[h])
      ensures lines[g].offsetsP == lines[h].offsetsP <==> lines[g].fd == lines[h].fd
    {
      if g in gpios {
        var i :| 0 <= i < |gpios| && gpios[i] == g;
      } else {
        assert SaysTruly(was[g], g, heap, open);
      }
      if h in gpios {
        var i :| 0 <= i < |gpios| && gpios[i] == h;
      } else {
        assert SaysTruly(was[h], h, heap, open);
      }
    }
  }

  /** The first k members of a group are erased. */
  ghost predicate Erased(was: seq<Line>, lines: seq<Line>, members: seq<int>, k: nat)
    requires k <= |members|
  {
    && |lines| == |was|
    && forall g :: 0 <= g < |was| ==>
         lines[g] == if g in members[..k] then was[g].(mode := UNKNOWN) else was[g]
  }

  /** The array of a group's lines, if they have one, is not needed by any other group. */
  lemma FreeKeeps(was: seq<Line>, lines: seq<Line>, n: nat, heap: Heap, open: Groups, g: int)
    requires Represents(was, n, heap, open) && 0 <= g < n && was[g].mode != UNKNOWN
    requires was[g].fd in open && var m := open[was[g].fd].members; Erased(was, lines, m, |m|)
    ensures var gone: set<array<int>> := if was[g].mode.alert || was[g].offsetsP == null then {} else {was[g].offsetsP};
            Represents(lines, n, heap - gone, open - {was[g].fd})
  {
    var f := was[g].fd;
    var m := open[f].members;
    var gone: set<array<int>> := if was[g].mode.alert || was[g].offsetsP == null then {} else {was[g].offsetsP};
    assert m[..|m|] == m;
    assert SaysTruly(was[g], g, heap, open);
    Partition(was, n, heap, open);
    forall h | 0 <= h < n && lines[h].mode != UNKNOWN
      ensures SaysTruly(lines[h], h, heap - gone, open - {f})
    {
      assert h !in m && SaysTruly(was[h], h, heap, open);
      assert was[h].fd != f;
    }
    forall e, i | e in open - {f} && 0 <= i < |open[e].members|
      ensures Claimed(lines, n, open - {f}, e, i)
    {
      assert Claimed(was, n, open, e, i);
    }
  }
}
