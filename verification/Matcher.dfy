/**
 xCheckDevSubdev of lgpio/lgExec.c: one pass over a permission pattern such as "1-3 . 4, 6-9".
 */
module Matcher {
  // ---------------------------------------------------------------------------- patterns

  datatype Item = One(n: nat) | Range(lo: nat, hi: nat) | Any

  /** A device part and, after a dot, a list of sub-device parts; no dot, no list. */
  datatype Pattern = Pattern(dev: Item, subs: seq<Item>)

  predicate Covers(i: Item, x: int) {
    match i
    case One(n) => x == n
    case Range(lo, hi) => lo <= x <= hi
    case Any => true
  }

  predicate Listed(subs: seq<Item>, x: int) { exists i :: 0 <= i < |subs| && Covers(subs[i], x) }

  /** What a pattern is for: a negative sub-device asks about the device alone. */
  predicate Matches(p: Pattern, dev: int, subdev: int) { Covers(p.dev, dev) && (subdev < 0 || Listed(p.subs, subdev)) }

  predicate Descending(i: Item) { i.Range? && i.hi < i.lo }

  // ------------------------------------------------------------------------------ tokens

  datatype Token = Number(n: nat) | Star | Dash | Dot | Comma | Bad

  predicate Digit(c: char) { '0' <= c <= '9' }

  predicate Blank(c: char) { c == ' ' || c == '\t' }

  function Run(s: string): (n: nat)
    ensures n <= |s| && (forall i :: 0 <= i < n ==> Digit(s[i])) && (n < |s| ==> !Digit(s[n]))
  {
    if s == "" || !Digit(s[0]) then 0 else 1 + Run(s[1..])
  }

  function DigitOf(c: char): nat
    requires Digit(c)
  {
    c as int - '0' as int
  }

  function ValueOf(s: string): nat
    requires forall i :: 0 <= i < |s| ==> Digit(s[i])
  {
    if s == "" then 0 else ValueOf(s[..|s| - 1]) * 10 + DigitOf(s[|s| - 1])
  }

  function Mark(c: char): Token {
    if c == '*' then Star else if c == '-' then Dash else if c == '.' then Dot else if c == ',' then Comma else Bad
  }

  /** The tokens of a string, up to the first character that is none. */
  function Lex(s: string): seq<Token> {
    if s == "" then []
    else if Digit(s[0]) then [Number(ValueOf(s[..Run(s)]))] + Lex(s[Run(s)..])
    else if Blank(s[0]) then Lex(s[1..])
    else if Mark(s[0]) == Bad then [Bad]
    else [Mark(s[0])] + Lex(s[1..])
  }

  // --------------------------------------------------------------------------- automaton

  /** What may come next. */
  datatype Expect = DEV | DEVNEXT | DEVTO | DOT | SUBDEV | SUBDEVNEXT | SUBDEVTO | COMMA

  /** Yes or No ends the pass. */
  datatype Verdict = Yes | No | Go(e: Expect, r1: nat)

  function Take(t: Token, e: Expect, r1: nat, dev: int, subdev: int): Verdict {
    match t
    case Number(n) =>
      (match e
       case DEV => if dev == n && subdev < 0 then Yes else Go(DEVNEXT, n)
       case SUBDEV => if subdev == n then Yes else Go(SUBDEVNEXT, n)
       case DEVTO => if dev < r1 || dev > n then No else if subdev < 0 then Yes else Go(DOT, r1)
       case SUBDEVTO => if r1 <= subdev <= n then Yes else Go(COMMA, r1)
       case _ => No)
    case Star =>
      if e.DEV? then (if subdev < 0 then Yes else Go(DOT, r1)) else if e.SUBDEV? then Yes else No
    case Dash => if e.DEVNEXT? then Go(DEVTO, r1) else if e.SUBDEVNEXT? then Go(SUBDEVTO, r1) else No
    case Dot =>
      if e.DOT? then Go(SUBDEV, r1) else if e.DEVNEXT? then (if dev != r1 then No else Go(SUBDEV, r1)) else No
    case Comma => if e.COMMA? || e.SUBDEVNEXT? then Go(SUBDEV, r1) else No
    case Bad => No
  }

  function Accepts(toks: seq<Token>, e: Expect, r1: nat, dev: int, subdev: int): bool
    decreases toks, 0
  {
    if toks == [] then false
    else After(Take(toks[0], e, r1, dev, subdev), toks[1..], dev, subdev)
  }

  function After(v: Verdict, toks: seq<Token>, dev: int, subdev: int): bool
    decreases toks, 1
  {
    match v
    case Yes => true
    case No => false
    case Go(f, q1) => Accepts(toks, f, q1, dev, subdev)
  }

  // ----------------------------------------------------------------------------- the pass

  /** The digits at the position, and the position after them. */
  method Digits(s: string, from: nat) returns (num: nat, i: nat)
    requires from <= |s|
    ensures i == from + Run(s[from..]) && i <= |s| && num == ValueOf(s[from..][..Run(s[from..])])
  {
    ghost var rest := s[from..];
    num, i := 0, from;
    while i < |s| && Digit(s[i])
      invariant from <= i <= from + Run(rest) <= |s|
      invariant num == ValueOf(rest[..i - from])
    {
      assert rest[..i + 1 - from][..i - from] == rest[..i - from];
      num := num * 10 + DigitOf(s[i]);
      i := i + 1;
    }
  }

  /** The pass itself; it ends on every string, with the verdict of the automaton on its tokens. */
  method CheckDevSubdev(s: string, dev: int, subdev: int) returns (ok: bool)
    ensures ok == Accepts(Lex(s), DEV, 0, dev, subdev)
  {
    hide Run;
    hide ValueOf;
    hide Lex;
    hide Accepts;
    var next, r1: nat, i := DEV, 0, 0;
    assert s[i..] == s;
    while i < |s|
      invariant i <= |s|
      invariant Accepts(Lex(s), DEV, 0, dev, subdev) == Accepts(Lex(s[i..]), next, r1, dev, subdev)
      decreases |s| - i
    {
      var c := s[i];
      PassOne(s, i, next, r1, dev, subdev);
      if Digit(c) {
        if next.DEV? || next.SUBDEV? {
          r1, i := Digits(s, i);
          if next.DEV? {
            if dev == r1 && subdev < 0 {
              return true;
            }
            next := DEVNEXT;
          } else {
            if subdev == r1 {
              return true;
            }
            next := SUBDEVNEXT;
          }
        } else if next.DEVTO? || next.SUBDEVTO? {
          var r2: nat;
          r2, i := Digits(s, i);
          if next.DEVTO? {
            if dev < r1 || dev > r2 {
              return false;
            }
            if subdev < 0 {
              return true;
            }
            next := DOT;
          } else {
            if subdev >= r1 && subdev <= r2 {
              return true;
            }
            next := COMMA;
          }
        } else {
          return false;
        }
      } else {
        if Blank(c) {
        } else if c == '*' {
          if next.DEV? {
            if subdev < 0 {
              return true;
            }
            next := DOT;
          } else {
            return next.SUBDEV?;
          }
        } else if c == '-' {
          if next.DEVNEXT? {
            next := DEVTO;
          } else if next.SUBDEVNEXT? {
            next := SUBDEVTO;
          } else {
            return false;
          }
        } else if c == '.' {
          if next.DOT? {
            next := SUBDEV;
          } else if next.DEVNEXT? {
            if dev != r1 {
              return false;
            }
            next := SUBDEV;
          } else {
            return false;
          }
        } else if c == ',' {
          if next.COMMA? || next.SUBDEVNEXT? {
            next := SUBDEV;
          } else {
            return false;
          }
        } else {
          return false;
        }
        i := i + 1;
      }
    }
    PassNone(s, next, r1, dev, subdev);
    return false;
  }

  /** The first token from a position. */
  lemma LexOne(s: string, i: nat)
    requires i < |s|
    ensures var rest := s[i..]; var n := Run(rest);
            && (Digit(s[i]) ==> n > 0 && i + n <= |s| && Lex(rest) == [Number(ValueOf(rest[..n]))] + Lex(s[i + n..]))
            && (!Digit(s[i]) && Blank(s[i]) ==> Lex(rest) == Lex(s[i + 1..]))
            && (!Digit(s[i]) && !Blank(s[i]) && Mark(s[i]) == Bad ==> Lex(rest) == [Bad])
            && (!Digit(s[i]) && !Blank(s[i]) && Mark(s[i]) != Bad ==> Lex(rest) == [Mark(s[i])] + Lex(s[i + 1..]))
  {
    var rest := s[i..];
    assert rest[1..] == s[i + 1..];
    assert rest[Run(rest)..] == s[i + Run(rest)..];
  }

  /** And what the automaton does with it. */
  lemma PassOne(s: string, i: nat, e: Expect, r1: nat, dev: int, subdev: int)
    requires i < |s|
    ensures var rest := s[i..]; var n := Run(rest); var c := s[i];
            && (Digit(c) ==> n > 0 && i + n <= |s|)
            && (!Digit(c) && Blank(c) ==> Lex(rest) == Lex(s[i + 1..]))
            && (Digit(c) || !Blank(c) ==>
                  Accepts(Lex(rest), e, r1, dev, subdev) ==
                  After(Take(if Digit(c) then Number(ValueOf(rest[..n])) else Mark(c), e, r1, dev, subdev),
                        Lex(if Digit(c) then s[i + n..] else s[i + 1..]), dev, subdev))
  {
    LexOne(s, i);
    hide Lex;
    var rest := s[i..];
    var t := if Digit(s[i]) then Number(ValueOf(rest[..Run(rest)])) else Mark(s[i]);
    var more := Lex(if Digit(s[i]) then s[i + Run(rest)..] else s[i + 1..]);
    assert ([t] + more)[1..] == more;
  }

  lemma PassNone(s: string, e: Expect, r1: nat, dev: int, subdev: int)
    ensures !Accepts(Lex(s[|s|..]), e, r1, dev, subdev)
  {
  }

  // ----------------------------------------------------------------------------- meaning

  function ItemTokens(i: Item): seq<Token> {
    match i
    case One(n) => [Number(n)]
    case Range(lo, hi) => [Number(lo), Dash, Number(hi)]
    case Any => [Star]
  }

  function ListTokens(subs: seq<Item>): seq<Token>
    requires subs != []
  {
    ItemTokens(subs[0]) + if |subs| == 1 then [] else [Comma] + ListTokens(subs[1..])
  }

  /** How a pattern is written. */
  function Tokens(p: Pattern): seq<Token> {
    ItemTokens(p.dev) + if p.subs == [] then [] else [Dot] + ListTokens(p.subs)
  }

  /** The first number of a range counts as soon as it is read. */
  predicate Taken(i: Item, x: int) { Covers(i, x) || (i.Range? && x == i.lo) }

  predicate TakenBy(subs: seq<Item>, x: int) { exists i :: 0 <= i < |subs| && Taken(subs[i], x) }

  /** What the pass answers on a well-formed pattern. */
  predicate Answer(p: Pattern, dev: int, subdev: int) {
    if subdev < 0 then Taken(p.dev, dev) else Covers(p.dev, dev) && TakenBy(p.subs, subdev)
  }

  lemma AcceptsCons(t: Token, rest: seq<Token>, e: Expect, r1: nat, dev: int, subdev: int)
    ensures Accepts([t] + rest, e, r1, dev, subdev) ==
            match Take(t, e, r1, dev, subdev)
            case Yes => true
            case No => false
            case Go(f, q1) => Accepts(rest, f, q1, dev, subdev)
  {
    assert ([t] + rest)[1..] == rest;
  }

  /** Three tokens for a range, one for anything else. */
  lemma ItemCons(i: Item, rest: seq<Token>)
    ensures ItemTokens(i) + rest ==
            match i
            case One(n) => [Number(n)] + rest
            case Range(lo, hi) => [Number(lo)] + ([Dash] + ([Number(hi)] + rest))
            case Any => [Star] + rest
  {
  }

  lemma ItemPass(i: Item, rest: seq<Token>, r1: nat, dev: int, subdev: int) returns (q1: nat)
    requires subdev >= 0 && (rest == [] || rest[0] == Comma)
    ensures Accepts(ItemTokens(i) + rest, SUBDEV, r1, dev, subdev) ==
            (Taken(i, subdev) || (rest != [] && Accepts(rest[1..], SUBDEV, q1, dev, subdev)))
  {
    q1 := if i.One? then i.n else if i.Range? then i.lo else r1;
    ItemCons(i, rest);
    match i
    case One(n) => AcceptsCons(Number(n), rest, SUBDEV, r1, dev, subdev);
    case Range(lo, hi) =>
      AcceptsCons(Number(lo), [Dash] + ([Number(hi)] + rest), SUBDEV, r1, dev, subdev);
      AcceptsCons(Dash, [Number(hi)] + rest, SUBDEVNEXT, lo, dev, subdev);
      AcceptsCons(Number(hi), rest, SUBDEVTO, lo, dev, subdev);
    case Any => AcceptsCons(Star, rest, SUBDEV, r1, dev, subdev);
  }

  lemma {:induction false} ListPass(subs: seq<Item>, r1: nat, dev: int, subdev: int)
    requires subdev >= 0 && subs != []
    ensures Accepts(ListTokens(subs), SUBDEV, r1, dev, subdev) == TakenBy(subs, subdev)
  {
    var rest := if |subs| == 1 then [] else [Comma] + ListTokens(subs[1..]);
    hide Accepts;
    hide ItemTokens;
    hide Taken;
    var q1 := ItemPass(subs[0], rest, r1, dev, subdev);
    assert TakenBy(subs, subdev) <==> Taken(subs[0], subdev) || TakenBy(subs[1..], subdev) by {
      if TakenBy(subs, subdev) {
        var i :| 0 <= i < |subs| && Taken(subs[i], subdev);
        assert i > 0 ==> Taken(subs[1..][i - 1], subdev);
      }
      if TakenBy(subs[1..], subdev) {
        var i :| 0 <= i < |subs[1..]| && Taken(subs[1..][i], subdev);
        assert Taken(subs[i + 1], subdev);
      }
    }
    if |subs| > 1 {
      ListPass(subs[1..], q1, dev, subdev);
      assert rest[1..] == ListTokens(subs[1..]);
    } else {
      assert subs[1..] == [];
    }
  }

  lemma DevPass(i: Item, rest: seq<Token>, dev: int, subdev: int) returns (q1: nat)
    requires rest == [] || rest[0] == Dot
    ensures Accepts(ItemTokens(i) + rest, DEV, 0, dev, subdev) ==
            if subdev < 0 then Taken(i, dev)
            else Covers(i, dev) && rest != [] && Accepts(rest[1..], SUBDEV, q1, dev, subdev)
  {
    q1 := if i.One? then i.n else if i.Range? then i.lo else 0;
    ItemCons(i, rest);
    match i
    case One(n) => AcceptsCons(Number(n), rest, DEV, 0, dev, subdev);
    case Range(lo, hi) =>
      AcceptsCons(Number(lo), [Dash] + ([Number(hi)] + rest), DEV, 0, dev, subdev);
      AcceptsCons(Dash, [Number(hi)] + rest, DEVNEXT, lo, dev, subdev);
      AcceptsCons(Number(hi), rest, DEVTO, lo, dev, subdev);
    case Any => AcceptsCons(Star, rest, DEV, 0, dev, subdev);
  }

  /** The pass on every well-formed pattern, of whatever length. */
  lemma PassIsAnswer(p: Pattern, dev: int, subdev: int)
    ensures Accepts(Tokens(p), DEV, 0, dev, subdev) == Answer(p, dev, subdev)
  {
    var rest := if p.subs == [] then [] else [Dot] + ListTokens(p.subs);
    hide Accepts;
    hide ItemTokens;
    hide ListTokens;
    hide Taken;
    hide Covers;
    var q1 := DevPass(p.dev, rest, dev, subdev);
    if subdev >= 0 && p.subs != [] {
      ListPass(p.subs, q1, dev, subdev);
      assert rest[1..] == ListTokens(p.subs);
    }
  }

  /** No range that descends is first met at its first number. */
  predicate Ascends(p: Pattern) {
    !Descending(p.dev)
    && forall i :: 0 <= i < |p.subs| && Descending(p.subs[i]) ==> Listed(p.subs, p.subs[i].lo)
  }

  /** The answer is what the pattern means, for every device and sub-device, exactly when the device
      range does not descend and a descending sub-device range has its first number listed too. */
  lemma AnswerIsMeaning(p: Pattern)
    ensures Ascends(p) <==> forall dev, subdev :: Answer(p, dev, subdev) == Matches(p, dev, subdev)
  {
    if Ascends(p) {
      forall dev, subdev
        ensures Answer(p, dev, subdev) == Matches(p, dev, subdev)
      {
        ListedIsTaken(p.subs, subdev);
        if TakenBy(p.subs, subdev) {
          var i :| 0 <= i < |p.subs| && Taken(p.subs[i], subdev);
          assert Covers(p.subs[i], subdev) || Listed(p.subs, p.subs[i].lo);
        }
      }
    } else if Descending(p.dev) {
      assert Answer(p, p.dev.lo, -1) != Matches(p, p.dev.lo, -1);
    } else {
      var i :| 0 <= i < |p.subs| && Descending(p.subs[i]) && !Listed(p.subs, p.subs[i].lo);
      var x := if p.dev.One? then p.dev.n else if p.dev.Range? then p.dev.lo else 0;
      assert Taken(p.subs[i], p.subs[i].lo) && Covers(p.dev, x);
      assert Answer(p, x, p.subs[i].lo) != Matches(p, x, p.subs[i].lo);
    }
  }

  lemma ListedIsTaken(subs: seq<Item>, x: int)
    ensures Listed(subs, x) ==> TakenBy(subs, x)
  {
    if Listed(subs, x) {
      var i :| 0 <= i < |subs| && Covers(subs[i], x);
      assert Taken(subs[i], x);
    }
  }

  // ---------------------------------------------------------------------------- spelling

  predicate AllDigits(s: string) { forall i :: 0 <= i < |s| ==> Digit(s[i]) }

  predicate AllBlank(s: string) { forall i :: 0 <= i < |s| ==> Blank(s[i]) }

  function Decimal(n: nat): (s: string)
    ensures s != "" && AllDigits(s)
  {
    (if n < 10 then "" else Decimal(n / 10)) + [('0' as int + n % 10) as char]
  }

  lemma {:induction false} DecimalValue(n: nat)
    ensures ValueOf(Decimal(n)) == n
  {
    var s := Decimal(n);
    var front := if n < 10 then "" else Decimal(n / 10);
    assert s[..|s| - 1] == front;
    if n >= 10 {
      DecimalValue(n / 10);
    }
  }

  function Spell(t: Token): string
    requires t != Bad
  {
    match t
    case Number(n) => Decimal(n)
    case Star => "*"
    case Dash => "-"
    case Dot => "."
    case Comma => ","
  }

  /** A token and the blanks before it. */
  datatype Word = Word(blanks: string, t: Token)

  function Write(ws: seq<Word>): string
    requires forall i :: 0 <= i < |ws| ==> ws[i].t != Bad
  {
    if ws == [] then "" else ws[0].blanks + (Spell(ws[0].t) + Write(ws[1..]))
  }

  function TokensOf(ws: seq<Word>): seq<Token> { if ws == [] then [] else [ws[0].t] + TokensOf(ws[1..]) }

  /** Only blanks between words, and no number runs into the next. */
  ghost predicate WellSpaced(ws: seq<Word>) {
    && (forall i :: 0 <= i < |ws| ==> ws[i].t != Bad && AllBlank(ws[i].blanks))
    && forall i :: 0 < i < |ws| && ws[i - 1].t.Number? && ws[i].t.Number? ==> ws[i].blanks != ""
  }

  lemma {:induction false} LexBlanks(b: string, rest: string)
    requires AllBlank(b)
    ensures Lex(b + rest) == Lex(rest)
  {
    if b == "" {
      assert b + rest == rest;
    } else {
      assert (b + rest)[1..] == b[1..] + rest;
      LexBlanks(b[1..], rest);
    }
  }

  lemma {:induction false} RunOf(ds: string, rest: string)
    requires AllDigits(ds) && (rest == "" || !Digit(rest[0]))
    ensures Run(ds + rest) == |ds|
  {
    if ds == "" {
      assert ds + rest == rest;
    } else {
      assert (ds + rest)[1..] == ds[1..] + rest;
      RunOf(ds[1..], rest);
    }
  }

  lemma LexWord(t: Token, rest: string)
    requires t != Bad && (t.Number? ==> rest == "" || !Digit(rest[0]))
    ensures Lex(Spell(t) + rest) == [t] + Lex(rest)
  {
    var s := Spell(t) + rest;
    if t.Number? {
      var ds := Decimal(t.n);
      RunOf(ds, rest);
      DecimalValue(t.n);
      assert s[..|ds|] == ds && s[|ds|..] == rest && s[0] == ds[0];
    } else {
      assert s[1..] == rest;
    }
  }

  /** Reading the tokens back, whatever blanks stand between and after them. */
  lemma {:induction false} LexWrite(ws: seq<Word>, after: string)
    requires WellSpaced(ws) && AllBlank(after)
    ensures Lex(Write(ws) + after) == TokensOf(ws)
  {
    if ws == [] {
      LexBlanks(after, "");
      assert after + "" == after && "" + after == after;
    } else {
      hide Lex;
      hide Spell;
      var w, rest := ws[0], Write(ws[1..]) + after;
      WriteHead(ws, after);
      LexBlanks(w.blanks, Spell(w.t) + rest);
      RestStart(ws, after);
      LexWord(w.t, rest);
      LexWrite(ws[1..], after);
    }
  }

  lemma WriteHead(ws: seq<Word>, after: string)
    requires ws != [] && forall i :: 0 <= i < |ws| ==> ws[i].t != Bad
    ensures Write(ws) + after == ws[0].blanks + (Spell(ws[0].t) + (Write(ws[1..]) + after))
  {
    hide Spell;
  }

  /** The first character of a spelled token is a digit only in a number. */
  lemma SpellStart(t: Token)
    requires t != Bad
    ensures Spell(t) != "" && (Digit(Spell(t)[0]) <==> t.Number?)
  {
  }

  lemma RestStart(ws: seq<Word>, after: string)
    requires WellSpaced(ws) && AllBlank(after) && ws != []
    ensures WellSpaced(ws[1..])
    ensures var rest := Write(ws[1..]) + after; ws[0].t.Number? ==> rest == "" || !Digit(rest[0])
  {
    var rest := Write(ws[1..]) + after;
    if |ws| > 1 {
      hide Spell;
      hide Write;
      var w, tail := ws[1], Write(ws[1..][1..]) + after;
      WriteHead(ws[1..], after);
      SpellStart(w.t);
      assert rest[0] == (w.blanks + (Spell(w.t) + tail))[0];
    } else {
      assert rest == after;
    }
  }

  /** The matcher means what patterns mean: for every well-formed pattern with no descending range,
      however it is spaced, the pass over its text says yes exactly for the devices and sub-devices
      the pattern matches. */
  lemma PassIsMeaning(p: Pattern, ws: seq<Word>, after: string, dev: int, subdev: int)
    requires WellSpaced(ws) && AllBlank(after) && TokensOf(ws) == Tokens(p) && Ascends(p)
    ensures Accepts(Lex(Write(ws) + after), DEV, 0, dev, subdev) == Matches(p, dev, subdev)
  {
    LexWrite(ws, after);
    PassIsAnswer(p, dev, subdev);
    AnswerIsMeaning(p);
  }
}
