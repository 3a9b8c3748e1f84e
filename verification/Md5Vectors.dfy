/**
 A value of the digest that section A.5 of RFC 1321 gives: the constants, the order of words and
 bytes and the padding of Md5Spec.dfy are those of the standard.
 */
module Md5Vectors {
  import opened Md5Spec
  import opened Md5Body
  import Md5Stream

  /** The words of the one block of "abc". */
  function Block(): (x: seq<Word>)
    ensures |x| == 16
  {
    [0x80636261, 0, 0, 0, 0, 0, 0, 0, 0, 0, 0, 0, 0, 0, 24, 0]
  }

  lemma BlockWords()
    ensures forall k :: 0 <= k < 16 ==> Block()[k] == if k == 0 then 0x80636261 else if k == 14 then 24 else 0
  {
  }

  lemma Rotations(x: Word)
    ensures Rotated(x, 4) == (x << 4) | (x >> 28)
    ensures Rotated(x, 5) == (x << 5) | (x >> 27)
    ensures Rotated(x, 6) == (x << 6) | (x >> 26)
    ensures Rotated(x, 7) == (x << 7) | (x >> 25)
    ensures Rotated(x, 9) == (x << 9) | (x >> 23)
    ensures Rotated(x, 10) == (x << 10) | (x >> 22)
    ensures Rotated(x, 11) == (x << 11) | (x >> 21)
    ensures Rotated(x, 12) == (x << 12) | (x >> 20)
    ensures Rotated(x, 14) == (x << 14) | (x >> 18)
    ensures Rotated(x, 15) == (x << 15) | (x >> 17)
    ensures Rotated(x, 16) == (x << 16) | (x >> 16)
    ensures Rotated(x, 17) == (x << 17) | (x >> 15)
    ensures Rotated(x, 20) == (x << 20) | (x >> 12)
    ensures Rotated(x, 21) == (x << 21) | (x >> 11)
    ensures Rotated(x, 22) == (x << 22) | (x >> 10)
    ensures Rotated(x, 23) == (x << 23) | (x >> 9)
  {
  }

  lemma Round0()
    ensures Steps(START, 0, Block()) == START
  {
  }

  lemma Round1()
    ensures Steps(START, 16, Block()) == State(0xdda9b9a6, 0x72aff2e0, 0xe396856b, 0xa1051895)
  {
    hide Rotated;
    hide Steps;
    hide Sine;
    hide Shift;
    hide Index;
    hide Block;
    Round0();
    Constants1();
    BlockWords();
    FourSteps(START, Block(), 0, State(0x67452301, 0xefcdab89, 0x98badcfe, 0x10325476));
    Rotations(0x57ce06d8);
    assert Mix(0, 0x67452301, 0xefcdab89, 0x98badcfe, 0x10325476, Block()) == 0xd6d117b4;
    Rotations(0xc7e5d796);
    assert Mix(1, 0x10325476, 0xd6d117b4, 0xefcdab89, 0x98badcfe, Block()) == 0x344a8432;
    Rotations(0x9ca07d92);
    assert Mix(2, 0x98badcfe, 0x344a8432, 0xd6d117b4, 0xefcdab89, Block()) == 0x2f6fbd72;
    Rotations(0xa666012d);
    assert Mix(3, 0xefcdab89, 0x2f6fbd72, 0x344a8432, 0xd6d117b4, Block()) == 0x7ad956f2;
    FourSteps(START, Block(), 4, State(0xd6d117b4, 0x7ad956f2, 0x2f6fbd72, 0x344a8432));
    Rotations(0xfa98bbd5);
    assert Mix(4, 0xd6d117b4, 0x7ad956f2, 0x2f6fbd72, 0x344a8432, Block()) == 0xc73741ef;
    Rotations(0xe62c474e);
    assert Mix(5, 0x344a8432, 0xc73741ef, 0x7ad956f2, 0x2f6fbd72, Block()) == 0x8bac3051;
    Rotations(0xcb154a68);
    assert Mix(6, 0x2f6fbd72, 0x8bac3051, 0xc73741ef, 0x7ad956f2, Block()) == 0x207dc67b;
    Rotations(0x3f4dedc8);
    assert Mix(7, 0x7ad956f2, 0x207dc67b, 0x8bac3051, 0xc73741ef, Block()) == 0x928d99f6;
    FourSteps(START, Block(), 8, State(0xc73741ef, 0x928d99f6, 0x207dc67b, 0x8bac3051));
    Rotations(0x39e57b3a);
    assert Mix(8, 0xc73741ef, 0x928d99f6, 0x207dc67b, 0x8bac3051, Block()) == 0x854b3712;
    Rotations(0xb72ef97b);
    assert Mix(9, 0x8bac3051, 0x854b3712, 0x928d99f6, 0x207dc67b, Block()) == 0x74e2f284;
    Rotations(0xa6cc5d9e);
    assert Mix(10, 0x207dc67b, 0x74e2f284, 0x854b3712, 0x928d99f6, Block()) == 0x3020401c;
    Rotations(0xd155e8ba);
    assert Mix(11, 0x928d99f6, 0x3020401c, 0x74e2f284, 0x854b3712, Block()) == 0x5ed49596;
    FourSteps(START, Block(), 12, State(0x854b3712, 0x5ed49596, 0x3020401c, 0x74e2f284));
    Rotations(0x20fdaa48);
    assert Mix(12, 0x854b3712, 0x5ed49596, 0x3020401c, 0x74e2f284, Block()) == 0xdda9b9a6;
    Rotations(0xeefc35b5);
    assert Mix(13, 0x74e2f284, 0xdda9b9a6, 0x5ed49596, 0x3020401c, Block()) == 0xa1051895;
    Rotations(0xb66b2148);
    assert Mix(14, 0x3020401c, 0xa1051895, 0xdda9b9a6, 0x5ed49596, Block()) == 0xe396856b;
    Rotations(0x65b5d63c);
    assert Mix(15, 0x5ed49596, 0xe396856b, 0xa1051895, 0xdda9b9a6, Block()) == 0x72aff2e0;
  }

  lemma Round2()
    ensures Steps(START, 32, Block()) == State(0x790a77fb, 0x726342d3, 0xa62884aa, 0x9f47e4f8)
  {
    hide Rotated;
    hide Steps;
    hide Sine;
    hide Shift;
    hide Index;
    hide Block;
    Round1();
    Constants2();
    BlockWords();
    FourSteps(START, Block(), 16, State(0xdda9b9a6, 0x72aff2e0, 0xe396856b, 0xa1051895));
    Rotations(0x365f74f2);
    assert Mix(16, 0xdda9b9a6, 0x72aff2e0, 0xe396856b, 0xa1051895, Block()) == 0x3e9e9126;
    Rotations(0x9405bf77);
    assert Mix(17, 0xa1051895, 0x3e9e9126, 0x72aff2e0, 0xe396856b, Block()) == 0x4a1d804e;
    Rotations(0x58126102);
    assert Mix(18, 0xe396856b, 0x4a1d804e, 0x3e9e9126, 0x72aff2e0, Block()) == 0xe25e1652;
    Rotations(0x3ee92d35);
    assert Mix(19, 0x72aff2e0, 0xe25e1652, 0x4a1d804e, 0x3e9e9126, Block()) == 0xb5b204e4;
    FourSteps(START, Block(), 20, State(0x3e9e9126, 0xb5b204e4, 0xe25e1652, 0x4a1d804e));
    Rotations(0xb51fb7d7);
    assert Mix(20, 0x3e9e9126, 0xb5b204e4, 0xe25e1652, 0x4a1d804e, Block()) == 0x59a8ffda;
    Rotations(0xa209ab97);
    assert Mix(21, 0x4a1d804e, 0x59a8ffda, 0xb5b204e4, 0xe25e1652, Block()) == 0x6d002f1e;
    Rotations(0x2808fbf1);
    assert Mix(22, 0xe25e1652, 0x6d002f1e, 0x59a8ffda, 0xb5b204e4, Block()) == 0xabfc7920;
    Rotations(0xcb2e79b0);
    assert Mix(23, 0xb5b204e4, 0xabfc7920, 0x6d002f1e, 0x59a8ffda, Block()) == 0x47092c07;
    FourSteps(START, Block(), 24, State(0x59a8ffda, 0x47092c07, 0xabfc7920, 0x6d002f1e));
    Rotations(0x438749e6);
    assert Mix(24, 0x59a8ffda, 0x47092c07, 0xabfc7920, 0x6d002f1e, Block()) == 0xb7f268cf;
    Rotations(0x1828a313);
    assert Mix(25, 0x6d002f1e, 0xb7f268cf, 0x47092c07, 0xabfc7920, Block()) == 0x09388eff;
    Rotations(0x52cbd376);
    assert Mix(26, 0xabfc7920, 0x09388eff, 0xb7f268cf, 0x47092c07, Block()) == 0xfe1623b1;
    Rotations(0x4a7de7a5);
    assert Mix(27, 0x47092c07, 0xfe1623b1, 0x09388eff, 0xb7f268cf, Block()) == 0x786acb8f;
    FourSteps(START, Block(), 28, State(0xb7f268cf, 0x786acb8f, 0xfe1623b1, 0x09388eff));
    Rotations(0x6004fd63);
    assert Mix(28, 0xb7f268cf, 0x786acb8f, 0xfe1623b1, 0x09388eff, Block()) == 0x790a77fb;
    Rotations(0x7e931eb6);
    assert Mix(29, 0x09388eff, 0x790a77fb, 0x786acb8f, 0xfe1623b1, Block()) == 0x9f47e4f8;
    Rotations(0x7ec81b82);
    assert Mix(30, 0xfe1623b1, 0x9f47e4f8, 0x790a77fb, 0x786acb8f, Block()) == 0xa62884aa;
    Rotations(0xabe29cc3);
    assert Mix(31, 0x786acb8f, 0xa62884aa, 0x9f47e4f8, 0x790a77fb, Block()) == 0x726342d3;
  }

  lemma Round3()
    ensures Steps(START, 48, Block()) == State(0x7f2e507b, 0x7beb9700, 0x8fae6399, 0x99d9679d)
  {
    hide Rotated;
    hide Steps;
    hide Sine;
    hide Shift;
    hide Index;
    hide Block;
    Round2();
    Constants3();
    BlockWords();
    FourSteps(START, Block(), 32, State(0x790a77fb, 0x726342d3, 0xa62884aa, 0x9f47e4f8));
    Rotations(0xc410d3be);
    assert Mix(32, 0x790a77fb, 0x726342d3, 0xa62884aa, 0x9f47e4f8, Block()) == 0xb3707ebf;
    Rotations(0x8df5943f);
    assert Mix(33, 0x9f47e4f8, 0xb3707ebf, 0x726342d3, 0xa62884aa, Block()) == 0x60127b2e;
    Rotations(0xb4c72d0e);
    assert Mix(34, 0xa62884aa, 0x60127b2e, 0xb3707ebf, 0x726342d3, Block()) == 0x8d212ff5;
    Rotations(0xce8ba55b);
    assert Mix(35, 0x726342d3, 0x8d212ff5, 0x60127b2e, 0xb3707ebf, Block()) == 0x3b0875c7;
    FourSteps(START, Block(), 36, State(0xb3707ebf, 0x3b0875c7, 0x8d212ff5, 0x60127b2e));
    Rotations(0x2e6a8a1f);
    assert Mix(36, 0xb3707ebf, 0x3b0875c7, 0x8d212ff5, 0x60127b2e, Block()) == 0x21b117b9;
    Rotations(0x43899862);
    assert Mix(37, 0x60127b2e, 0x21b117b9, 0x3b0875c7, 0x8d212ff5, Block()) == 0x6e7429d5;
    Rotations(0xf8a9c700);
    assert Mix(38, 0x8d212ff5, 0x6e7429d5, 0x21b117b9, 0x3b0875c7, Block()) == 0x3575227e;
    Rotations(0x74784e49);
    assert Mix(39, 0x3b0875c7, 0x3575227e, 0x6e7429d5, 0x21b117b9, Block()) == 0x5a2f5ea5;
    FourSteps(START, Block(), 40, State(0x21b117b9, 0x5a2f5ea5, 0x3575227e, 0x6e7429d5));
    Rotations(0x4b7aeb8d);
    assert Mix(40, 0x21b117b9, 0x5a2f5ea5, 0x3575227e, 0x6e7429d5, Block()) == 0x11de1779;
    Rotations(0x57fd1fd2);
    assert Mix(41, 0x6e7429d5, 0x11de1779, 0x5a2f5ea5, 0x3575227e, Block()) == 0xfadcaa38;
    Rotations(0xbb9236e7);
    assert Mix(42, 0x3575227e, 0xfadcaa38, 0x11de1779, 0x5a2f5ea5, Block()) == 0x31c465ca;
    Rotations(0x397e5435);
    assert Mix(43, 0x5a2f5ea5, 0x31c465ca, 0xfadcaa38, 0x11de1779, Block()) == 0x4c6124f4;
    FourSteps(START, Block(), 44, State(0x11de1779, 0x4c6124f4, 0x31c465ca, 0xfadcaa38));
    Rotations(0x732cd2b8);
    assert Mix(44, 0x11de1779, 0x4c6124f4, 0x31c465ca, 0xfadcaa38, Block()) == 0x7f2e507b;
    Rotations(0xe4435562);
    assert Mix(45, 0xfadcaa38, 0x7f2e507b, 0x4c6124f4, 0x31c465ca, Block()) == 0x99d9679d;
    Rotations(0xfbfcf5d4);
    assert Mix(46, 0x31c465ca, 0x99d9679d, 0x7f2e507b, 0x4c6124f4, Block()) == 0x8fae6399;
    Rotations(0x7a66cfd8);
    assert Mix(47, 0x4c6124f4, 0x8fae6399, 0x99d9679d, 0x7f2e507b, Block()) == 0x7beb9700;
  }

  lemma Round4()
    ensures Steps(START, 64, Block()) == State(0x310ade8f, 0xc08226b3, 0xe484b9d8, 0x624d8cb2)
  {
    hide Rotated;
    hide Steps;
    hide Sine;
    hide Shift;
    hide Index;
    hide Block;
    Round3();
    Constants4();
    BlockWords();
    FourSteps(START, Block(), 48, State(0x7f2e507b, 0x7beb9700, 0x8fae6399, 0x99d9679d));
    Rotations(0xe3fcd21b);
    assert Mix(48, 0x7f2e507b, 0x7beb9700, 0x8fae6399, 0x99d9679d, Block()) == 0x7b201df8;
    Rotations(0xdd9e7232);
    assert Mix(49, 0x99d9679d, 0x7b201df8, 0x7beb9700, 0x8fae6399, Block()) == 0xf4e8e96e;
    Rotations(0xcb1f7b5f);
    assert Mix(50, 0x8fae6399, 0xf4e8e96e, 0x7b201df8, 0x7beb9700, Block()) == 0xb298cefd;
    Rotations(0xbab63eca);
    assert Mix(51, 0x7beb9700, 0xb298cefd, 0xf4e8e96e, 0x7b201df8, Block()) == 0x8bf025c4;
    FourSteps(START, Block(), 52, State(0x7b201df8, 0x8bf025c4, 0xb298cefd, 0xf4e8e96e));
    Rotations(0x19eb70e3);
    assert Mix(52, 0x7b201df8, 0x8bf025c4, 0xb298cefd, 0xf4e8e96e, Block()) == 0x06cc5e8a;
    Rotations(0x4815104e);
    assert Mix(53, 0xf4e8e96e, 0x06cc5e8a, 0x8bf025c4, 0xb298cefd, Block()) == 0x5b0d97aa;
    Rotations(0x2c4c44ab);
    assert Mix(54, 0xb298cefd, 0x5b0d97aa, 0x06cc5e8a, 0x8bf025c4, Block()) == 0x7d632dd0;
    Rotations(0xb7f2bdf4);
    assert Mix(55, 0x8bf025c4, 0x7d632dd0, 0x5b0d97aa, 0x06cc5e8a, Block()) == 0x3bfa2c27;
    FourSteps(START, Block(), 56, State(0x06cc5e8a, 0x3bfa2c27, 0x7d632dd0, 0x5b0d97aa));
    Rotations(0x390e1e80);
    assert Mix(56, 0x06cc5e8a, 0x3bfa2c27, 0x7d632dd0, 0x5b0d97aa, Block()) == 0x7f81cc35;
    Rotations(0x1da270a2);
    assert Mix(57, 0x5b0d97aa, 0x7f81cc35, 0x3bfa2c27, 0x7d632dd0, Block()) == 0x094454ab;
    Rotations(0xd3288cb2);
    assert Mix(58, 0x7d632dd0, 0x094454ab, 0x7f81cc35, 0x3bfa2c27, Block()) == 0x4f9dbe3f;
    Rotations(0x50be291c);
    assert Mix(59, 0x3bfa2c27, 0x4f9dbe3f, 0x094454ab, 0x7f81cc35, Block()) == 0x7327d604;
    FourSteps(START, Block(), 60, State(0x7f81cc35, 0x7327d604, 0x4f9dbe3f, 0x094454ab));
    Rotations(0x2ef78c22);
    assert Mix(60, 0x7f81cc35, 0x7327d604, 0x4f9dbe3f, 0x094454ab, Block()) == 0x310ade8f;
    Rotations(0x88cc50ab);
    assert Mix(61, 0x094454ab, 0x310ade8f, 0x7327d604, 0x4f9dbe3f, Block()) == 0x624d8cb2;
    Rotations(0x5a4d046e);
    assert Mix(62, 0x4f9dbe3f, 0x624d8cb2, 0x310ade8f, 0x7327d604, Block()) == 0xe484b9d8;
    Rotations(0xeb66dedf);
    assert Mix(63, 0x7327d604, 0xe484b9d8, 0x624d8cb2, 0x310ade8f, Block()) == 0xc08226b3;
  }

  function Abc(): seq<Byte> { [97, 98, 99] }

  lemma AbcLength()
    ensures LengthBytes(24) == [24, 0, 0, 0, 0, 0, 0, 0]
  {
    Md5Stream.Powers();
    hide Power256;
    var b := LengthBytes(24);
    assert b[0] == 24 && b[1] == 0 && b[2] == 0 && b[3] == 0 && b[4] == 0 && b[5] == 0 && b[6] == 0 && b[7] == 0;
  }

  lemma AbcBytes()
    ensures var p := Padded(Abc());
            && |p| == 64 && p[0] == 97 && p[1] == 98 && p[2] == 99 && p[3] == 128
            && forall i :: 4 <= i < 64 ==> p[i] == if i == 56 then 24 else 0
  {
    AbcLength();
    hide LengthBytes;
    var p := Padded(Abc());
    assert p == Abc() + [0x80] + Zeros(52) + [24, 0, 0, 0, 0, 0, 0, 0];
  }

  lemma SmallWord(b: Byte)
    ensures WordAt([b, 0, 0, 0], 0) == b as Word
  {
  }

  lemma SameWord(p: seq<Byte>, n: nat)
    requires 4 * n + 4 <= |p|
    ensures WordAt(p, n) == WordAt(p[4 * n..4 * n + 4], 0)
  {
  }

  lemma AbcWordAt(n: nat)
    requires n < 16
    ensures |Padded(Abc())| == 64 && WordAt(Padded(Abc()), n) == Block()[n]
  {
    hide Padded;
    hide Block;
    hide WordAt;
    AbcBytes();
    BlockWords();
    var p := Padded(Abc());
    SameWord(p, n);
    if n == 0 {
      assert p[0..4] == [97, 98, 99, 128];
      FirstWord();
    } else {
      assert p[4 * n..4 * n + 4] == [p[4 * n], 0, 0, 0];
      SmallWord(p[4 * n]);
    }
  }

  lemma AbcWords()
    ensures |Padded(Abc())| == 64 && Words(Padded(Abc())) == Block()
  {
    hide Padded;
    hide Block;
    hide WordAt;
    AbcBytes();
    forall n | 0 <= n < 16
      ensures WordAt(Padded(Abc()), n) == Block()[n]
    {
      AbcWordAt(n);
    }
  }

  lemma FirstWord()
    ensures WordAt([97, 98, 99, 128], 0) == 0x80636261
  {
    AssembledWord(97, 98, 99, 128, 0x61, 0x62, 0x63, 0x80);
  }

  lemma AssembledWord(a: Byte, b: Byte, c: Byte, d: Byte, x: Word, y: Word, z: Word, w: Word)
    requires a as Word == x && b as Word == y && c as Word == z && d as Word == w
    ensures WordAt([a, b, c, d], 0) == x | (y << 8) | (z << 16) | (w << 24)
  {
  }

  /** The MD5 of "abc". */
  lemma DigestOfAbc()
    ensures Digest(Abc()) == [0x90, 0x01, 0x50, 0x98, 0x3c, 0xd2, 0x4f, 0xb0, 0xd6, 0x96, 0x3f, 0x7d, 0x28, 0xe1, 0x7f, 0x72]
  {
    AbcWords();
    Round4();
    hide Steps;
    hide Words;
    hide Block;
    hide Padded;
    OneBlock(Padded(Abc()));
    LastBytes();
  }

  lemma OneBlock(p: seq<Byte>)
    requires |p| == 64
    ensures Absorb(START, p) == Compress(START, p)
  {
    hide Compress;
    assert p[..0] == [] && p[0..] == p;
  }

  lemma LastBytes()
    ensures BytesOf(0x98500190) == [0x90, 0x01, 0x50, 0x98]
    ensures BytesOf(0xb04fd23c) == [0x3c, 0xd2, 0x4f, 0xb0]
    ensures BytesOf(0x7d3f96d6) == [0xd6, 0x96, 0x3f, 0x7d]
    ensures BytesOf(0x727fe128) == [0x28, 0xe1, 0x7f, 0x72]
  {
  }
}
