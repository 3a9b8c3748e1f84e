/**
 lgpio/lgMD5.c, lines 43-188: the compression function with its optimised macros, 64 steps
 written out, is the table-driven one of RFC 1321.
 */
module Md5Body {
  import opened Md5Spec

  // The macros of the source.

  function OptF(x: Word, y: Word, z: Word): Word { z ^ (x & (y ^ z)) }

  function OptG(x: Word, y: Word, z: Word): Word { y ^ (z & (x ^ y)) }

  function OptH(x: Word, y: Word, z: Word): Word { (x ^ y) ^ z }

  function OptH2(x: Word, y: Word, z: Word): Word { x ^ (y ^ z) }

  function OptI(x: Word, y: Word, z: Word): Word { y ^ (x | !z) }

  function OptSum(a: Word, f: Word, x: Word, t: Word): Word { a + (f + x + t) }

  /** STEP, given the value of its auxiliary function. */
  function Turn(a: Word, b: Word, f: Word, x: Word, t: Word, s: nat): Word
    requires s <= 32
  {
    Plus(Spun(OptSum(a, f, x, t), s), b)
  }

  function Spun(w: Word, s: nat): Word
    requires s <= 32
  {
    (w << s) | ((w & 0xffffffff) >> (32 - s))
  }

  function StepF(a: Word, b: Word, c: Word, d: Word, x: Word, t: Word, s: nat): Word
    requires s <= 32
  {
    Turn(a, b, OptF(b, c, d), x, t, s)
  }

  function StepG(a: Word, b: Word, c: Word, d: Word, x: Word, t: Word, s: nat): Word
    requires s <= 32
  {
    Turn(a, b, OptG(b, c, d), x, t, s)
  }

  function StepH(a: Word, b: Word, c: Word, d: Word, x: Word, t: Word, s: nat): Word
    requires s <= 32
  {
    Turn(a, b, OptH(b, c, d), x, t, s)
  }

  function StepH2(a: Word, b: Word, c: Word, d: Word, x: Word, t: Word, s: nat): Word
    requires s <= 32
  {
    Turn(a, b, OptH2(b, c, d), x, t, s)
  }

  function StepI(a: Word, b: Word, c: Word, d: Word, x: Word, t: Word, s: nat): Word
    requires s <= 32
  {
    Turn(a, b, OptI(b, c, d), x, t, s)
  }

  // The optimised forms are the standard's.

  lemma SameF(x: Word, y: Word, z: Word)
    ensures z ^ (x & (y ^ z)) == (x & y) | (!x & z)
  {
  }

  lemma SameG(x: Word, y: Word, z: Word)
    ensures y ^ (z & (x ^ y)) == (x & z) | (y & !z)
  {
  }

  lemma SameH(x: Word, y: Word, z: Word)
    ensures (x ^ y) ^ z == x ^ y ^ z && x ^ (y ^ z) == x ^ y ^ z
  {
  }

  lemma OptFIs(x: Word, y: Word, z: Word)
    ensures OptF(x, y, z) == Md5Spec.F(x, y, z)
  {
    SameF(x, y, z);
  }

  lemma OptGIs(x: Word, y: Word, z: Word)
    ensures OptG(x, y, z) == Md5Spec.G(x, y, z)
  {
    SameG(x, y, z);
  }

  lemma OptHIs(x: Word, y: Word, z: Word)
    ensures OptH(x, y, z) == Md5Spec.H(x, y, z) && OptH2(x, y, z) == Md5Spec.H(x, y, z)
  {
    SameH(x, y, z);
  }

  lemma OptIIs(x: Word, y: Word, z: Word)
    ensures OptI(x, y, z) == Md5Spec.I(x, y, z)
  {
  }

  lemma SameSum(a: Word, f: Word, x: Word, t: Word)
    ensures OptSum(a, f, x, t) == Sum(a, f, x, t)
  {
  }

  lemma Commutes(x: Word, y: Word)
    ensures Plus(x, y) == Plus(y, x)
  {
  }

  lemma Masked(w: Word)
    ensures w & 0xffffffff == w
  {
  }

  lemma Spins(w: Word, s: nat)
    requires s <= 32
    ensures Spun(w, s) == Rotated(w, s)
  {
    Masked(w);
  }

  lemma Turned(a: Word, b: Word, f: Word, x: Word, t: Word, s: nat)
    requires s <= 32
    ensures Turn(a, b, f, x, t, s) == Plus(b, Rotated(Sum(a, f, x, t), s))
  {
    hide Plus;
    hide Spun;
    hide Rotated;
    hide Sum;
    hide OptSum;
    SameSum(a, f, x, t);
    Spins(Sum(a, f, x, t), s);
    Commutes(Rotated(Sum(a, f, x, t), s), b);
  }

  lemma IsF(i: nat, a: Word, b: Word, c: Word, d: Word, x: seq<Word>)
    requires |x| == 16 && 0 <= i < 16
    ensures StepF(a, b, c, d, x[Index(i)], Sine(i), Shift(i)) == Mix(i, a, b, c, d, x)
  {
    hide Turn;
    hide Plus;
    hide Sum;
    hide Rotated;
    hide OptF;
    hide Md5Spec.F;
    hide Sine;
    hide Shift;
    hide Index;
    OptFIs(b, c, d);
    Turned(a, b, F(b, c, d), x[Index(i)], Sine(i), Shift(i));
  }

  lemma IsG(i: nat, a: Word, b: Word, c: Word, d: Word, x: seq<Word>)
    requires |x| == 16 && 16 <= i < 32
    ensures StepG(a, b, c, d, x[Index(i)], Sine(i), Shift(i)) == Mix(i, a, b, c, d, x)
  {
    hide Turn;
    hide Plus;
    hide Sum;
    hide Rotated;
    hide OptG;
    hide Md5Spec.G;
    hide Sine;
    hide Shift;
    hide Index;
    OptGIs(b, c, d);
    Turned(a, b, G(b, c, d), x[Index(i)], Sine(i), Shift(i));
  }

  lemma IsH(i: nat, a: Word, b: Word, c: Word, d: Word, x: seq<Word>)
    requires |x| == 16 && 32 <= i < 48
    ensures StepH(a, b, c, d, x[Index(i)], Sine(i), Shift(i)) == Mix(i, a, b, c, d, x)
    ensures StepH2(a, b, c, d, x[Index(i)], Sine(i), Shift(i)) == Mix(i, a, b, c, d, x)
  {
    hide Turn;
    hide Plus;
    hide Sum;
    hide Rotated;
    hide OptH;
    hide OptH2;
    hide Md5Spec.H;
    hide Sine;
    hide Shift;
    hide Index;
    OptHIs(b, c, d);
    Turned(a, b, H(b, c, d), x[Index(i)], Sine(i), Shift(i));
  }

  lemma IsI(i: nat, a: Word, b: Word, c: Word, d: Word, x: seq<Word>)
    requires |x| == 16 && 48 <= i < 64
    ensures StepI(a, b, c, d, x[Index(i)], Sine(i), Shift(i)) == Mix(i, a, b, c, d, x)
  {
    hide Turn;
    hide Plus;
    hide Sum;
    hide Rotated;
    hide OptI;
    hide Md5Spec.I;
    hide Sine;
    hide Shift;
    hide Index;
    OptIIs(b, c, d);
    Turned(a, b, I(b, c, d), x[Index(i)], Sine(i), Shift(i));
  }

  /** Four steps of the table, from a multiple of four, update A, D, C and B. */
  lemma FourSteps(s: State, x: seq<Word>, i: nat, st: State)
    requires |x| == 16 && i % 4 == 0 && i + 4 <= 64 && Steps(s, i, x) == st
    ensures
      var a := Mix(i, st.a, st.b, st.c, st.d, x);
      var d := Mix(i + 1, st.d, a, st.b, st.c, x);
      var c := Mix(i + 2, st.c, d, a, st.b, x);
      var b := Mix(i + 3, st.b, c, d, a, x);
      Steps(s, i + 4, x) == State(a, b, c, d)
  {
    hide Mix;
    var s1 := Step(st, i, x);
    assert Steps(s, i + 1, x) == s1;
    var s2 := Step(s1, i + 1, x);
    assert Steps(s, i + 2, x) == s2;
    var s3 := Step(s2, i + 2, x);
    assert Steps(s, i + 3, x) == s3;
  }

  lemma FourF(s: State, x: seq<Word>, i: nat, st: State)
    requires |x| == 16 && i % 4 == 0 && 0 <= i && i + 4 <= 16 && Steps(s, i, x) == st
    ensures
      var a := StepF(st.a, st.b, st.c, st.d, x[Index(i)], Sine(i), Shift(i));
      var d := StepF(st.d, a, st.b, st.c, x[Index(i + 1)], Sine(i + 1), Shift(i + 1));
      var c := StepF(st.c, d, a, st.b, x[Index(i + 2)], Sine(i + 2), Shift(i + 2));
      var b := StepF(st.b, c, d, a, x[Index(i + 3)], Sine(i + 3), Shift(i + 3));
      Steps(s, i + 4, x) == State(a, b, c, d)
  {
    hide StepF;
    hide Steps;
    hide Mix;
    hide Sine;
    hide Shift;
    hide Index;
    FourSteps(s, x, i, st);
    var a := StepF(st.a, st.b, st.c, st.d, x[Index(i)], Sine(i), Shift(i));
    IsF(i, st.a, st.b, st.c, st.d, x);
    var d := StepF(st.d, a, st.b, st.c, x[Index(i + 1)], Sine(i + 1), Shift(i + 1));
    IsF(i + 1, st.d, a, st.b, st.c, x);
    var c := StepF(st.c, d, a, st.b, x[Index(i + 2)], Sine(i + 2), Shift(i + 2));
    IsF(i + 2, st.c, d, a, st.b, x);
    IsF(i + 3, st.b, c, d, a, x);
  }

  lemma FourG(s: State, x: seq<Word>, i: nat, st: State)
    requires |x| == 16 && i % 4 == 0 && 16 <= i && i + 4 <= 32 && Steps(s, i, x) == st
    ensures
      var a := StepG(st.a, st.b, st.c, st.d, x[Index(i)], Sine(i), Shift(i));
      var d := StepG(st.d, a, st.b, st.c, x[Index(i + 1)], Sine(i + 1), Shift(i + 1));
      var c := StepG(st.c, d, a, st.b, x[Index(i + 2)], Sine(i + 2), Shift(i + 2));
      var b := StepG(st.b, c, d, a, x[Index(i + 3)], Sine(i + 3), Shift(i + 3));
      Steps(s, i + 4, x) == State(a, b, c, d)
  {
    hide StepG;
    hide Steps;
    hide Mix;
    hide Sine;
    hide Shift;
    hide Index;
    FourSteps(s, x, i, st);
    var a := StepG(st.a, st.b, st.c, st.d, x[Index(i)], Sine(i), Shift(i));
    IsG(i, st.a, st.b, st.c, st.d, x);
    var d := StepG(st.d, a, st.b, st.c, x[Index(i + 1)], Sine(i + 1), Shift(i + 1));
    IsG(i + 1, st.d, a, st.b, st.c, x);
    var c := StepG(st.c, d, a, st.b, x[Index(i + 2)], Sine(i + 2), Shift(i + 2));
    IsG(i + 2, st.c, d, a, st.b, x);
    IsG(i + 3, st.b, c, d, a, x);
  }

  lemma FourH(s: State, x: seq<Word>, i: nat, st: State)
    requires |x| == 16 && i % 4 == 0 && 32 <= i && i + 4 <= 48 && Steps(s, i, x) == st
    ensures
      var a := StepH(st.a, st.b, st.c, st.d, x[Index(i)], Sine(i), Shift(i));
      var d := StepH2(st.d, a, st.b, st.c, x[Index(i + 1)], Sine(i + 1), Shift(i + 1));
      var c := StepH(st.c, d, a, st.b, x[Index(i + 2)], Sine(i + 2), Shift(i + 2));
      var b := StepH2(st.b, c, d, a, x[Index(i + 3)], Sine(i + 3), Shift(i + 3));
      Steps(s, i + 4, x) == State(a, b, c, d)
  {
    hide StepH;
    hide StepH2;
    hide Steps;
    hide Mix;
    hide Sine;
    hide Shift;
    hide Index;
    FourSteps(s, x, i, st);
    var a := StepH(st.a, st.b, st.c, st.d, x[Index(i)], Sine(i), Shift(i));
    IsH(i, st.a, st.b, st.c, st.d, x);
    var d := StepH2(st.d, a, st.b, st.c, x[Index(i + 1)], Sine(i + 1), Shift(i + 1));
    IsH(i + 1, st.d, a, st.b, st.c, x);
    var c := StepH(st.c, d, a, st.b, x[Index(i + 2)], Sine(i + 2), Shift(i + 2));
    IsH(i + 2, st.c, d, a, st.b, x);
    IsH(i + 3, st.b, c, d, a, x);
  }

  lemma FourI(s: State, x: seq<Word>, i: nat, st: State)
    requires |x| == 16 && i % 4 == 0 && 48 <= i && i + 4 <= 64 && Steps(s, i, x) == st
    ensures
      var a := StepI(st.a, st.b, st.c, st.d, x[Index(i)], Sine(i), Shift(i));
      var d := StepI(st.d, a, st.b, st.c, x[Index(i + 1)], Sine(i + 1), Shift(i + 1));
      var c := StepI(st.c, d, a, st.b, x[Index(i + 2)], Sine(i + 2), Shift(i + 2));
      var b := StepI(st.b, c, d, a, x[Index(i + 3)], Sine(i + 3), Shift(i + 3));
      Steps(s, i + 4, x) == State(a, b, c, d)
  {
    hide StepI;
    hide Steps;
    hide Mix;
    hide Sine;
    hide Shift;
    hide Index;
    FourSteps(s, x, i, st);
    var a := StepI(st.a, st.b, st.c, st.d, x[Index(i)], Sine(i), Shift(i));
    IsI(i, st.a, st.b, st.c, st.d, x);
    var d := StepI(st.d, a, st.b, st.c, x[Index(i + 1)], Sine(i + 1), Shift(i + 1));
    IsI(i + 1, st.d, a, st.b, st.c, x);
    var c := StepI(st.c, d, a, st.b, x[Index(i + 2)], Sine(i + 2), Shift(i + 2));
    IsI(i + 2, st.c, d, a, st.b, x);
    IsI(i + 3, st.b, c, d, a, x);
  }

  /** SET: the n-th little-endian word at ptr. */
  function Set(ptr: seq<Byte>, n: nat): Word
    requires 4 * n + 4 <= |ptr|
  {
    (ptr[n * 4] as Word) | ((ptr[n * 4 + 1] as Word) << 8) |
    ((ptr[n * 4 + 2] as Word) << 16) | ((ptr[n * 4 + 3] as Word) << 24)
  }

  lemma Constants1()
    ensures Index(0) == 0 && Sine(0) == 0xd76aa478 && Shift(0) == 7
    ensures Index(1) == 1 && Sine(1) == 0xe8c7b756 && Shift(1) == 12
    ensures Index(2) == 2 && Sine(2) == 0x242070db && Shift(2) == 17
    ensures Index(3) == 3 && Sine(3) == 0xc1bdceee && Shift(3) == 22
    ensures Index(4) == 4 && Sine(4) == 0xf57c0faf && Shift(4) == 7
    ensures Index(5) == 5 && Sine(5) == 0x4787c62a && Shift(5) == 12
    ensures Index(6) == 6 && Sine(6) == 0xa8304613 && Shift(6) == 17
    ensures Index(7) == 7 && Sine(7) == 0xfd469501 && Shift(7) == 22
    ensures Index(8) == 8 && Sine(8) == 0x698098d8 && Shift(8) == 7
    ensures Index(9) == 9 && Sine(9) == 0x8b44f7af && Shift(9) == 12
    ensures Index(10) == 10 && Sine(10) == 0xffff5bb1 && Shift(10) == 17
    ensures Index(11) == 11 && Sine(11) == 0x895cd7be && Shift(11) == 22
    ensures Index(12) == 12 && Sine(12) == 0x6b901122 && Shift(12) == 7
    ensures Index(13) == 13 && Sine(13) == 0xfd987193 && Shift(13) == 12
    ensures Index(14) == 14 && Sine(14) == 0xa679438e && Shift(14) == 17
    ensures Index(15) == 15 && Sine(15) == 0x49b40821 && Shift(15) == 22
  {
  }

  lemma Constants2()
    ensures Index(16) == 1 && Sine(16) == 0xf61e2562 && Shift(16) == 5
    ensures Index(17) == 6 && Sine(17) == 0xc040b340 && Shift(17) == 9
    ensures Index(18) == 11 && Sine(18) == 0x265e5a51 && Shift(18) == 14
    ensures Index(19) == 0 && Sine(19) == 0xe9b6c7aa && Shift(19) == 20
    ensures Index(20) == 5 && Sine(20) == 0xd62f105d && Shift(20) == 5
    ensures Index(21) == 10 && Sine(21) == 0x02441453 && Shift(21) == 9
    ensures Index(22) == 15 && Sine(22) == 0xd8a1e681 && Shift(22) == 14
    ensures Index(23) == 4 && Sine(23) == 0xe7d3fbc8 && Shift(23) == 20
    ensures Index(24) == 9 && Sine(24) == 0x21e1cde6 && Shift(24) == 5
    ensures Index(25) == 14 && Sine(25) == 0xc33707d6 && Shift(25) == 9
    ensures Index(26) == 3 && Sine(26) == 0xf4d50d87 && Shift(26) == 14
    ensures Index(27) == 8 && Sine(27) == 0x455a14ed && Shift(27) == 20
    ensures Index(28) == 13 && Sine(28) == 0xa9e3e905 && Shift(28) == 5
    ensures Index(29) == 2 && Sine(29) == 0xfcefa3f8 && Shift(29) == 9
    ensures Index(30) == 7 && Sine(30) == 0x676f02d9 && Shift(30) == 14
    ensures Index(31) == 12 && Sine(31) == 0x8d2a4c8a && Shift(31) == 20
  {
  }

  lemma Constants3()
    ensures Index(32) == 5 && Sine(32) == 0xfffa3942 && Shift(32) == 4
    ensures Index(33) == 8 && Sine(33) == 0x8771f681 && Shift(33) == 11
    ensures Index(34) == 11 && Sine(34) == 0x6d9d6122 && Shift(34) == 16
    ensures Index(35) == 14 && Sine(35) == 0xfde5380c && Shift(35) == 23
    ensures Index(36) == 1 && Sine(36) == 0xa4beea44 && Shift(36) == 4
    ensures Index(37) == 4 && Sine(37) == 0x4bdecfa9 && Shift(37) == 11
    ensures Index(38) == 7 && Sine(38) == 0xf6bb4b60 && Shift(38) == 16
    ensures Index(39) == 10 && Sine(39) == 0xbebfbc70 && Shift(39) == 23
    ensures Index(40) == 13 && Sine(40) == 0x289b7ec6 && Shift(40) == 4
    ensures Index(41) == 0 && Sine(41) == 0xeaa127fa && Shift(41) == 11
    ensures Index(42) == 3 && Sine(42) == 0xd4ef3085 && Shift(42) == 16
    ensures Index(43) == 6 && Sine(43) == 0x04881d05 && Shift(43) == 23
    ensures Index(44) == 9 && Sine(44) == 0xd9d4d039 && Shift(44) == 4
    ensures Index(45) == 12 && Sine(45) == 0xe6db99e5 && Shift(45) == 11
    ensures Index(46) == 15 && Sine(46) == 0x1fa27cf8 && Shift(46) == 16
    ensures Index(47) == 2 && Sine(47) == 0xc4ac5665 && Shift(47) == 23
  {
  }

  lemma Constants4()
    ensures Index(48) == 0 && Sine(48) == 0xf4292244 && Shift(48) == 6
    ensures Index(49) == 7 && Sine(49) == 0x432aff97 && Shift(49) == 10
    ensures Index(50) == 14 && Sine(50) == 0xab9423a7 && Shift(50) == 15
    ensures Index(51) == 5 && Sine(51) == 0xfc93a039 && Shift(51) == 21
    ensures Index(52) == 12 && Sine(52) == 0x655b59c3 && Shift(52) == 6
    ensures Index(53) == 3 && Sine(53) == 0x8f0ccc92 && Shift(53) == 10
    ensures Index(54) == 10 && Sine(54) == 0xffeff47d && Shift(54) == 15
    ensures Index(55) == 1 && Sine(55) == 0x85845dd1 && Shift(55) == 21
    ensures Index(56) == 8 && Sine(56) == 0x6fa87e4f && Shift(56) == 6
    ensures Index(57) == 15 && Sine(57) == 0xfe2ce6e0 && Shift(57) == 10
    ensures Index(58) == 6 && Sine(58) == 0xa3014314 && Shift(58) == 15
    ensures Index(59) == 13 && Sine(59) == 0x4e0811a1 && Shift(59) == 21
    ensures Index(60) == 4 && Sine(60) == 0xf7537e82 && Shift(60) == 6
    ensures Index(61) == 11 && Sine(61) == 0xbd3af235 && Shift(61) == 10
    ensures Index(62) == 2 && Sine(62) == 0x2ad7d2bb && Shift(62) == 15
    ensures Index(63) == 9 && Sine(63) == 0xeb86d391 && Shift(63) == 21
  {
  }

  lemma SetsWords(ptr: seq<Byte>, x: seq<Word>)
    requires |ptr| >= 64 && x == Words(ptr[..64])
    ensures forall n :: 0 <= n < 16 ==> Set(ptr, n) == x[n]
  {
  }

  lemma Zero(s: State, x: seq<Word>)
    requires |x| == 16
    ensures Steps(s, 0, x) == s
  {
  }

  ghost predicate Filled(b: seq<Word>, x: seq<Word>, n: nat)
  {
    |b| == 16 && |x| == 16 && n <= 16 && b[..n] == x[..n]
  }

  lemma EmptyFill(b: seq<Word>, x: seq<Word>)
    requires |b| == 16 && |x| == 16
    ensures Filled(b, x, 0)
  {
  }

  lemma FullFill(b: seq<Word>, x: seq<Word>)
    requires Filled(b, x, 16)
    ensures b == x
  {
    assert b == b[..16] && x == x[..16];
  }

  /** SET: stores the n-th word of the data as well as yielding it. */
  method SetBlock(block: array<Word>, ptr: seq<Byte>, n: nat, ghost x: seq<Word>) returns (w: Word)
    requires block.Length == 16 && |ptr| >= 64 && x == Words(ptr[..64]) && n < 16
    requires Filled(block[..], x, n)
    modifies block
    ensures w == x[n] && Filled(block[..], x, n + 1)
  {
    SetsWords(ptr, x);
    block[n] := Set(ptr, n);
    w := block[n];
    assert block[..n + 1] == x[..n] + [w] == x[..n + 1] by {
      assert block[..n] == old(block[..])[..n];
    }
  }

  method Round1Low(a0: Word, b0: Word, c0: Word, d0: Word, ptr: seq<Byte>, block: array<Word>, ghost s: State, ghost x: seq<Word>)
    returns (a: Word, b: Word, c: Word, d: Word)
    requires block.Length == 16 && |x| == 16
    requires |ptr| >= 64 && x == Words(ptr[..64]) && State(a0, b0, c0, d0) == s
    modifies block
    ensures Filled(block[..], x, 8) && State(a, b, c, d) == Steps(s, 8, x)
  {
    hide StepF;
    hide Steps;
    hide Filled;
    hide Sine;
    hide Shift;
    hide Index;
    hide Words;
    EmptyFill(block[..], x);
    Constants1();
    a, b, c, d := a0, b0, c0, d0;
    var w: Word;
    Zero(s, x);
    FourF(s, x, 0, State(a, b, c, d));
    w := SetBlock(block, ptr, 0, x);
    a := StepF(a, b, c, d, w, 0xd76aa478, 7);
    w := SetBlock(block, ptr, 1, x);
    d := StepF(d, a, b, c, w, 0xe8c7b756, 12);
    w := SetBlock(block, ptr, 2, x);
    c := StepF(c, d, a, b, w, 0x242070db, 17);
    w := SetBlock(block, ptr, 3, x);
    b := StepF(b, c, d, a, w, 0xc1bdceee, 22);
    FourF(s, x, 4, State(a, b, c, d));
    w := SetBlock(block, ptr, 4, x);
    a := StepF(a, b, c, d, w, 0xf57c0faf, 7);
    w := SetBlock(block, ptr, 5, x);
    d := StepF(d, a, b, c, w, 0x4787c62a, 12);
    w := SetBlock(block, ptr, 6, x);
    c := StepF(c, d, a, b, w, 0xa8304613, 17);
    w := SetBlock(block, ptr, 7, x);
    b := StepF(b, c, d, a, w, 0xfd469501, 22);
  }

  method Round1High(a0: Word, b0: Word, c0: Word, d0: Word, ptr: seq<Byte>, block: array<Word>, ghost s: State, ghost x: seq<Word>)
    returns (a: Word, b: Word, c: Word, d: Word)
    requires block.Length == 16 && |x| == 16
    requires |ptr| >= 64 && x == Words(ptr[..64]) && Filled(block[..], x, 8)
    requires State(a0, b0, c0, d0) == Steps(s, 8, x)
    modifies block
    ensures block[..] == x && State(a, b, c, d) == Steps(s, 16, x)
  {
    hide StepF;
    hide Steps;
    hide Filled;
    hide Sine;
    hide Shift;
    hide Index;
    hide Words;
    Constants1();
    a, b, c, d := a0, b0, c0, d0;
    var w: Word;
    FourF(s, x, 8, State(a, b, c, d));
    w := SetBlock(block, ptr, 8, x);
    a := StepF(a, b, c, d, w, 0x698098d8, 7);
    w := SetBlock(block, ptr, 9, x);
    d := StepF(d, a, b, c, w, 0x8b44f7af, 12);
    w := SetBlock(block, ptr, 10, x);
    c := StepF(c, d, a, b, w, 0xffff5bb1, 17);
    w := SetBlock(block, ptr, 11, x);
    b := StepF(b, c, d, a, w, 0x895cd7be, 22);
    FourF(s, x, 12, State(a, b, c, d));
    w := SetBlock(block, ptr, 12, x);
    a := StepF(a, b, c, d, w, 0x6b901122, 7);
    w := SetBlock(block, ptr, 13, x);
    d := StepF(d, a, b, c, w, 0xfd987193, 12);
    w := SetBlock(block, ptr, 14, x);
    c := StepF(c, d, a, b, w, 0xa679438e, 17);
    w := SetBlock(block, ptr, 15, x);
    b := StepF(b, c, d, a, w, 0x49b40821, 22);
    FullFill(block[..], x);
  }

  method Round2(a0: Word, b0: Word, c0: Word, d0: Word, block: array<Word>, ghost s: State, ghost x: seq<Word>)
    returns (a: Word, b: Word, c: Word, d: Word)
    requires block.Length == 16 && |x| == 16
    requires block[..] == x && State(a0, b0, c0, d0) == Steps(s, 16, x)
    ensures State(a, b, c, d) == Steps(s, 32, x)
  {
    hide StepG;
    hide Steps;
    hide Sine;
    hide Shift;
    hide Index;
    Constants2();
    a, b, c, d := a0, b0, c0, d0;
    FourG(s, x, 16, State(a, b, c, d));
    a := StepG(a, b, c, d, block[1], 0xf61e2562, 5);
    d := StepG(d, a, b, c, block[6], 0xc040b340, 9);
    c := StepG(c, d, a, b, block[11], 0x265e5a51, 14);
    b := StepG(b, c, d, a, block[0], 0xe9b6c7aa, 20);
    FourG(s, x, 20, State(a, b, c, d));
    a := StepG(a, b, c, d, block[5], 0xd62f105d, 5);
    d := StepG(d, a, b, c, block[10], 0x02441453, 9);
    c := StepG(c, d, a, b, block[15], 0xd8a1e681, 14);
    b := StepG(b, c, d, a, block[4], 0xe7d3fbc8, 20);
    FourG(s, x, 24, State(a, b, c, d));
    a := StepG(a, b, c, d, block[9], 0x21e1cde6, 5);
    d := StepG(d, a, b, c, block[14], 0xc33707d6, 9);
    c := StepG(c, d, a, b, block[3], 0xf4d50d87, 14);
    b := StepG(b, c, d, a, block[8], 0x455a14ed, 20);
    FourG(s, x, 28, State(a, b, c, d));
    a := StepG(a, b, c, d, block[13], 0xa9e3e905, 5);
    d := StepG(d, a, b, c, block[2], 0xfcefa3f8, 9);
    c := StepG(c, d, a, b, block[7], 0x676f02d9, 14);
    b := StepG(b, c, d, a, block[12], 0x8d2a4c8a, 20);
  }

  method Round3(a0: Word, b0: Word, c0: Word, d0: Word, block: array<Word>, ghost s: State, ghost x: seq<Word>)
    returns (a: Word, b: Word, c: Word, d: Word)
    requires block.Length == 16 && |x| == 16
    requires block[..] == x && State(a0, b0, c0, d0) == Steps(s, 32, x)
    ensures State(a, b, c, d) == Steps(s, 48, x)
  {
    hide StepH;
    hide StepH2;
    hide Steps;
    hide Sine;
    hide Shift;
    hide Index;
    Constants3();
    a, b, c, d := a0, b0, c0, d0;
    FourH(s, x, 32, State(a, b, c, d));
    a := StepH(a, b, c, d, block[5], 0xfffa3942, 4);
    d := StepH2(d, a, b, c, block[8], 0x8771f681, 11);
    c := StepH(c, d, a, b, block[11], 0x6d9d6122, 16);
    b := StepH2(b, c, d, a, block[14], 0xfde5380c, 23);
    FourH(s, x, 36, State(a, b, c, d));
    a := StepH(a, b, c, d, block[1], 0xa4beea44, 4);
    d := StepH2(d, a, b, c, block[4], 0x4bdecfa9, 11);
    c := StepH(c, d, a, b, block[7], 0xf6bb4b60, 16);
    b := StepH2(b, c, d, a, block[10], 0xbebfbc70, 23);
    FourH(s, x, 40, State(a, b, c, d));
    a := StepH(a, b, c, d, block[13], 0x289b7ec6, 4);
    d := StepH2(d, a, b, c, block[0], 0xeaa127fa, 11);
    c := StepH(c, d, a, b, block[3], 0xd4ef3085, 16);
    b := StepH2(b, c, d, a, block[6], 0x04881d05, 23);
    FourH(s, x, 44, State(a, b, c, d));
    a := StepH(a, b, c, d, block[9], 0xd9d4d039, 4);
    d := StepH2(d, a, b, c, block[12], 0xe6db99e5, 11);
    c := StepH(c, d, a, b, block[15], 0x1fa27cf8, 16);
    b := StepH2(b, c, d, a, block[2], 0xc4ac5665, 23);
  }

  method Round4(a0: Word, b0: Word, c0: Word, d0: Word, block: array<Word>, ghost s: State, ghost x: seq<Word>)
    returns (a: Word, b: Word, c: Word, d: Word)
    requires block.Length == 16 && |x| == 16
    requires block[..] == x && State(a0, b0, c0, d0) == Steps(s, 48, x)
    ensures State(a, b, c, d) == Steps(s, 64, x)
  {
    hide StepI;
    hide Steps;
    hide Sine;
    hide Shift;
    hide Index;
    Constants4();
    a, b, c, d := a0, b0, c0, d0;
    FourI(s, x, 48, State(a, b, c, d));
    a := StepI(a, b, c, d, block[0], 0xf4292244, 6);
    d := StepI(d, a, b, c, block[7], 0x432aff97, 10);
    c := StepI(c, d, a, b, block[14], 0xab9423a7, 15);
    b := StepI(b, c, d, a, block[5], 0xfc93a039, 21);
    FourI(s, x, 52, State(a, b, c, d));
    a := StepI(a, b, c, d, block[12], 0x655b59c3, 6);
    d := StepI(d, a, b, c, block[3], 0x8f0ccc92, 10);
    c := StepI(c, d, a, b, block[10], 0xffeff47d, 15);
    b := StepI(b, c, d, a, block[1], 0x85845dd1, 21);
    FourI(s, x, 56, State(a, b, c, d));
    a := StepI(a, b, c, d, block[8], 0x6fa87e4f, 6);
    d := StepI(d, a, b, c, block[15], 0xfe2ce6e0, 10);
    c := StepI(c, d, a, b, block[6], 0xa3014314, 15);
    b := StepI(b, c, d, a, block[13], 0x4e0811a1, 21);
    FourI(s, x, 60, State(a, b, c, d));
    a := StepI(a, b, c, d, block[4], 0xf7537e82, 6);
    d := StepI(d, a, b, c, block[11], 0xbd3af235, 10);
    c := StepI(c, d, a, b, block[2], 0x2ad7d2bb, 15);
    b := StepI(b, c, d, a, block[9], 0xeb86d391, 21);
  }

}
