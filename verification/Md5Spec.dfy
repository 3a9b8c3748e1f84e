/**
 MD5 as RFC 1321 defines it: padding (sections 3.1 and 3.2), the 64 table-driven steps on one
 block (section 3.4), and the digest of a whole message.
 */
module Md5Spec {
  type Word = bv32
  type Byte = b: nat | b < 256

  datatype State = State(a: Word, b: Word, c: Word, d: Word)

  const START := State(0x67452301, 0xefcdab89, 0x98badcfe, 0x10325476)

  /** The table of 64 constants built from the sine function: T[i + 1] in the standard. */
  function Sine(i: nat): Word
    requires i < 64
  {
    match i / 8
    case 0 => [0xd76aa478, 0xe8c7b756, 0x242070db, 0xc1bdceee, 0xf57c0faf, 0x4787c62a, 0xa8304613, 0xfd469501][i % 8]
    case 1 => [0x698098d8, 0x8b44f7af, 0xffff5bb1, 0x895cd7be, 0x6b901122, 0xfd987193, 0xa679438e, 0x49b40821][i % 8]
    case 2 => [0xf61e2562, 0xc040b340, 0x265e5a51, 0xe9b6c7aa, 0xd62f105d, 0x02441453, 0xd8a1e681, 0xe7d3fbc8][i % 8]
    case 3 => [0x21e1cde6, 0xc33707d6, 0xf4d50d87, 0x455a14ed, 0xa9e3e905, 0xfcefa3f8, 0x676f02d9, 0x8d2a4c8a][i % 8]
    case 4 => [0xfffa3942, 0x8771f681, 0x6d9d6122, 0xfde5380c, 0xa4beea44, 0x4bdecfa9, 0xf6bb4b60, 0xbebfbc70][i % 8]
    case 5 => [0x289b7ec6, 0xeaa127fa, 0xd4ef3085, 0x04881d05, 0xd9d4d039, 0xe6db99e5, 0x1fa27cf8, 0xc4ac5665][i % 8]
    case 6 => [0xf4292244, 0x432aff97, 0xab9423a7, 0xfc93a039, 0x655b59c3, 0x8f0ccc92, 0xffeff47d, 0x85845dd1][i % 8]
    case _ => [0x6fa87e4f, 0xfe2ce6e0, 0xa3014314, 0x4e0811a1, 0xf7537e82, 0xbd3af235, 0x2ad7d2bb, 0xeb86d391][i % 8]
  }

  function Shift(i: nat): (s: nat)
    requires i < 64
    ensures s <= 32
  {
    var turn := i % 4;
    if i < 16 then [7, 12, 17, 22][turn]
    else if i < 32 then [5, 9, 14, 20][turn]
    else if i < 48 then [4, 11, 16, 23][turn]
    else [6, 10, 15, 21][turn]
  }

  // The four auxiliary functions, in the words of the standard.

  function F(x: Word, y: Word, z: Word): Word { (x & y) | (!x & z) }

  function G(x: Word, y: Word, z: Word): Word { (x & z) | (y & !z) }

  function H(x: Word, y: Word, z: Word): Word { x ^ y ^ z }

  function I(x: Word, y: Word, z: Word): Word { y ^ (x | !z) }

  /** The "+" of the standard: modulo 2^32. */
  function Plus(x: Word, y: Word): Word { x + y }

  function Sum(w: Word, x: Word, y: Word, z: Word): Word { w + x + y + z }

  function Rotated(x: Word, s: nat): Word
    requires s <= 32
  {
    (x << s) | (x >> (32 - s))
  }

  function Aux(i: nat, x: Word, y: Word, z: Word): Word {
    if i < 16 then F(x, y, z) else if i < 32 then G(x, y, z) else if i < 48 then H(x, y, z) else I(x, y, z)
  }

  /** Which word of the block step i takes. */
  function Index(i: nat): (k: nat)
    ensures k < 16
  {
    if i < 16 then i % 16
    else if i < 32 then (5 * i + 1) % 16
    else if i < 48 then (3 * i + 5) % 16
    else (7 * i) % 16
  }

  /** The operation [abcd k s i] of the standard. */
  function Mix(i: nat, a: Word, b: Word, c: Word, d: Word, x: seq<Word>): Word
    requires i < 64 && |x| == 16
  {
    Plus(b, Rotated(Sum(a, Aux(i, b, c, d), x[Index(i)], Sine(i)), Shift(i)))
  }

  /** Step i updates A, D, C, B in turn. */
  function Step(st: State, i: nat, x: seq<Word>): State
    requires i < 64 && |x| == 16
  {
    var State(a, b, c, d) := st;
    if i % 4 == 0 then State(Mix(i, a, b, c, d, x), b, c, d)
    else if i % 4 == 1 then State(a, b, c, Mix(i, d, a, b, c, x))
    else if i % 4 == 2 then State(a, b, Mix(i, c, d, a, b, x), d)
    else State(a, Mix(i, b, c, d, a, x), c, d)
  }

  function Steps(st: State, n: nat, x: seq<Word>): State
    requires n <= 64 && |x| == 16
  {
    if n == 0 then st else Step(Steps(st, n - 1, x), n - 1, x)
  }

  function WordAt(bytes: seq<Byte>, n: nat): Word
    requires 4 * n + 4 <= |bytes|
  {
    (bytes[4 * n] as Word) | ((bytes[4 * n + 1] as Word) << 8) |
    ((bytes[4 * n + 2] as Word) << 16) | ((bytes[4 * n + 3] as Word) << 24)
  }

  /** The sixteen little-endian words of a block. */
  function Words(block: seq<Byte>): (x: seq<Word>)
    requires |block| == 64
    ensures |x| == 16
  {
    seq(16, n requires 0 <= n < 16 => WordAt(block, n))
  }

  function Add(s: State, t: State): State { State(Plus(s.a, t.a), Plus(s.b, t.b), Plus(s.c, t.c), Plus(s.d, t.d)) }

  function Compress(st: State, block: seq<Byte>): State
    requires |block| == 64
  {
    Add(Steps(st, 64, Words(block)), st)
  }

  /** All blocks of a string whose length is a multiple of 64. */
  function Absorb(st: State, bytes: seq<Byte>): State
    requires |bytes| % 64 == 0
  {
    if bytes == [] then st
    else Compress(Absorb(st, bytes[..|bytes| - 64]), bytes[|bytes| - 64..])
  }

  function Zeros(n: nat): seq<Byte> { seq(n, _ => 0) }

  function Power256(k: nat): (p: nat)
    ensures p > 0
  {
    if k == 0 then 1 else 256 * Power256(k - 1)
  }

  /** The least significant eight bytes of n, least significant first. */
  function LengthBytes(n: nat): (b: seq<Byte>)
    ensures |b| == 8
  {
    seq(8, k requires 0 <= k < 8 => (n / Power256(k)) % 256)
  }

  /** How many zero bytes make the length congruent to 56 modulo 64 after the 0x80. */
  function ZeroCount(len: nat): (n: nat)
    ensures n < 64 && (len + 1 + n) % 64 == 56
  {
    (55 - len) % 64
  }

  function Padded(msg: seq<Byte>): (p: seq<Byte>)
    ensures |p| % 64 == 0 && msg <= p
  {
    msg + [0x80] + Zeros(ZeroCount(|msg|)) + LengthBytes(8 * |msg|)
  }

  function BytesOf(w: Word): (b: seq<Byte>)
    ensures |b| == 4
  {
    [(w & 0xff) as bv8 as nat, ((w >> 8) & 0xff) as bv8 as nat, ((w >> 16) & 0xff) as bv8 as nat, ((w >> 24) & 0xff) as bv8 as nat]
  }

  function Digest(msg: seq<Byte>): (d: seq<Byte>)
    ensures |d| == 16
  {
    var s := Absorb(START, Padded(msg));
    BytesOf(s.a) + BytesOf(s.b) + BytesOf(s.c) + BytesOf(s.d)
  }
}
