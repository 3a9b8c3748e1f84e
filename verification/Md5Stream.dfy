/**
 lgpio/lgMD5.c, lines 83-316: the incremental interface. However a message is cut into updates,
 the result is the digest that RFC 1321 gives the whole.
 */
module Md5Stream {
  import opened Quotients
  import opened Md5Spec
  import opened Md5Body

  const TWO29: nat := 0x2000_0000
  const TWO32: nat := 0x1_0000_0000
  const TWO64: nat := 0x1_0000_0000_0000_0000

  // ------------------------------------------------------------------------- absorbing

  lemma {:induction false} AbsorbConcat(st: State, x: seq<Byte>, y: seq<Byte>)
    requires |x| % 64 == 0 && |y| % 64 == 0
    ensures Absorb(st, x + y) == Absorb(Absorb(st, x), y)
    decreases |y|
  {
    hide Compress;
    if y == [] {
      assert x + y == x;
    } else {
      var front, last := y[..|y| - 64], y[|y| - 64..];
      AbsorbConcat(st, x, front);
      assert (x + y)[..|x + y| - 64] == x + front && (x + y)[|x + y| - 64..] == last;
    }
  }

  lemma AbsorbNone(st: State, data: seq<Byte>)
    ensures Absorb(st, data[..0]) == st
  {
  }

  lemma AbsorbNext(st: State, data: seq<Byte>, at: nat)
    requires at % 64 == 0 && at + 64 <= |data|
    ensures Absorb(st, data[..at + 64]) == Compress(Absorb(st, data[..at]), data[at..][..64])
  {
    hide Compress;
    assert data[..at + 64][..at] == data[..at] && data[..at + 64][at..] == data[at..][..64];
  }

  /** The registers have absorbed these whole blocks. */
  ghost predicate Absorbed(r: State, bytes: seq<Byte>) {
    |bytes| % 64 == 0 && r == Absorb(START, bytes)
  }

  lemma AbsorbedMore(r: State, x: seq<Byte>, y: seq<Byte>)
    requires Absorbed(r, x) && |y| % 64 == 0
    ensures Absorbed(Absorb(r, y), x + y)
  {
    hide Absorb;
    Mod64(|y|, |x| / 64);
    AbsorbConcat(START, x, y);
  }

  lemma AbsorbedIs(r: State, bytes: seq<Byte>)
    requires Absorbed(r, bytes)
    ensures |bytes| % 64 == 0 && r == Absorb(START, bytes)
  {
  }

  // ---------------------------------------------------------------------- the counters

  /** lo and hi hold the byte count modulo 2^61, the low 29 bits apart. */
  ghost predicate Counts(lo: nat, hi: nat, n: nat) {
    lo == n % TWO29 && hi == (n / TWO29) % TWO32
  }

  lemma CountsMeaning(lo: nat, hi: nat, n: nat)
    requires lo < TWO29 && hi < TWO32
    ensures Counts(lo, hi, n) <==> n % (TWO29 * TWO32) == hi * TWO29 + lo
  {
  }

  lemma CountsStep(lo: nat, hi: nat, n: nat, size: nat)
    requires Counts(lo, hi, n) && size < TWO64
    ensures var lo' := ((lo + size) % TWO64) % TWO29;
            var carried := if lo' < lo then (hi + 1) % TWO32 else hi;
            Counts(lo', (carried + size / TWO29) % TWO32, n + size)
  {
    var q, s, r := n / TWO29, size / TWO29, size % TWO29;
    ModMod(lo + size);
    Digits(q, lo, s, r, n + size);
    var carry := if lo + r >= TWO29 then 1 else 0;
    assert (n + size) / TWO29 == q + s + carry;
    AddMod(q, carry, s);
  }

  lemma ModMod(n: nat)
    ensures (n % TWO64) % TWO29 == n % TWO29
  {
    var k := n / TWO64;
    assert n == n % TWO64 + TWO29 * (0x8_0000_0000 * k);
    MultipleOff(n % TWO64, 0x8_0000_0000 * k);
  }

  lemma MultipleOff(a: nat, k: nat)
    ensures (a + TWO29 * k) % TWO29 == a % TWO29
  {
  }

  /** Schoolbook addition in base 2^29. */
  lemma Digits(q: nat, lo: nat, s: nat, r: nat, sum: nat)
    requires lo < TWO29 && r < TWO29 && sum == TWO29 * q + lo + (TWO29 * s + r)
    ensures lo + r >= TWO29 ==> sum / TWO29 == q + s + 1 && sum % TWO29 == lo + r - TWO29 < lo
    ensures lo + r < TWO29 ==> sum / TWO29 == q + s && sum % TWO29 == lo + r >= lo
    ensures (lo + (TWO29 * s + r)) % TWO29 == sum % TWO29
  {
    MultipleOff(lo + (TWO29 * s + r), q);
  }

  lemma AddMod(q: nat, c: nat, s: nat)
    requires c <= 1
    ensures ((if c == 1 then (q % TWO32 + 1) % TWO32 else q % TWO32) + s) % TWO32 == (q + s + c) % TWO32
  {
  }

  /** OUT on a 32-bit number: four bytes, least significant first. */
  function Out32(v: nat): (b: seq<Byte>)
    ensures |b| == 4
  {
    [v % 256, v / 0x100 % 256, v / 0x1_0000 % 256, v / 0x100_0000 % 256]
  }

  lemma Powers()
    ensures Power256(0) == 1 && Power256(1) == 0x100 && Power256(2) == 0x1_0000 && Power256(3) == 0x100_0000
    ensures Power256(4) == TWO32 && Power256(5) == 0x100_0000_0000
    ensures Power256(6) == 0x1_0000_0000_0000 && Power256(7) == 0x100_0000_0000_0000
  {
    assert Power256(4) == 256 * Power256(3);
    assert Power256(6) == 256 * Power256(5);
  }

  lemma Out32Mod(v: nat, m: nat)
    ensures Out32(v + TWO32 * m) == Out32(v)
  {
    var w := v + TWO32 * m;
    assert w == v + 256 * (0x100_0000 * m);
    assert w / 0x100 == v / 0x100 + 256 * (0x1_0000 * m);
    assert w / 0x1_0000 == v / 0x1_0000 + 256 * (0x100 * m);
    assert w / 0x100_0000 == v / 0x100_0000 + 256 * m;
    Mod256(v, 0x100_0000 * m);
    Mod256(v / 0x100, 0x1_0000 * m);
    Mod256(v / 0x1_0000, 0x100 * m);
    Mod256(v / 0x100_0000, m);
  }

  lemma Mod256(v: nat, k: nat)
    ensures (v + 256 * k) % 256 == v % 256
  {
  }

  /** The two counters, shifted as lgMd5Final does, are the eight length bytes of the standard. */
  lemma LengthIsCounters(lo: nat, hi: nat, n: nat)
    requires Counts(lo, hi, n)
    ensures Out32((8 * lo) % TWO32) + Out32(hi) == LengthBytes(8 * n)
  {
    hide Out32;
    hide LengthBytes;
    var q := n / TWO29;
    assert 8 * n == 8 * lo + TWO32 * q && (8 * n) / TWO32 == q && (8 * lo) % TWO32 == 8 * lo;
    Out32Mod(8 * lo, q);
    assert q == hi + TWO32 * (q / TWO32);
    Out32Mod(hi, q / TWO32);
    LowBytes(8 * n);
    HighBytes(8 * n);
    var b := LengthBytes(8 * n);
    assert b == b[..4] + b[4..];
  }

  lemma LowBytes(n: nat)
    ensures LengthBytes(n)[..4] == Out32(n)
  {
    Powers();
  }

  lemma HighBytes(n: nat)
    ensures LengthBytes(n)[4..] == Out32(n / TWO32)
  {
    Powers();
    assert n / TWO32 / 0x100 == n / 0x100_0000_0000;
    assert n / TWO32 / 0x1_0000 == n / 0x1_0000_0000_0000;
    assert n / TWO32 / 0x100_0000 == n / 0x100_0000_0000_0000;
  }

  /** What little-endian bytes are worth. */
  function Value(b: seq<Byte>): nat { if b == [] then 0 else b[0] + 256 * Value(b[1..]) }

  /** Dividing by 256 and then by p. */
  lemma ByteThenDivide(n: nat, p: nat)
    requires p > 0
    ensures n / (256 * p) == n / 256 / p && n % (256 * p) == 256 * ((n / 256) % p) + n % 256
  {
    var h := n / 256;
    var t, s := h / p, h % p;
    assert h == p * t + s;
    assert (256 * p) * t == 256 * (p * t);
    Quotient(n, 256 * p, t, 256 * s + n % 256);
  }

  function LowBytesOf(n: nat, k: nat): (b: seq<Byte>)
    ensures |b| == k
  {
    seq(k, i requires 0 <= i < k => (n / Power256(i)) % 256)
  }

  lemma {:induction false} BytesRead(n: nat, k: nat)
    ensures Value(LowBytesOf(n, k)) == n % Power256(k)
  {
    if k > 0 {
      var b, rest := LowBytesOf(n, k), LowBytesOf(n / 256, k - 1);
      assert b[0] == n % 256 by {
        assert Power256(0) == 1;
      }
      assert b[1..] == rest by {
        forall i | 0 <= i < k - 1
          ensures b[1..][i] == rest[i]
        {
          ByteThenDivide(n, Power256(i));
        }
      }
      BytesRead(n / 256, k - 1);
      ByteThenDivide(n, Power256(k - 1));
    }
  }

  /** The eight length bytes are the length, modulo 2^64. */
  lemma LengthReads(n: nat)
    ensures Value(LengthBytes(n)) == n % 0x1_0000_0000_0000_0000
  {
    assert LengthBytes(n) == LowBytesOf(n, 8);
    BytesRead(n, 8);
    Powers();
    hide Power256;
    Power8();
  }

  lemma Power8()
    ensures Power256(8) == 0x1_0000_0000_0000_0000
  {
    Powers();
    assert Power256(8) == 256 * Power256(7);
  }

  // ----------------------------------------------------------------------- hexadecimal

  function HexDigit(n: nat): char
    requires n < 16
  {
    if n < 10 then '0' + n as char else 'a' + (n - 10) as char
  }

  function Hex(d: seq<Byte>): (h: string)
    ensures |h| == 2 * |d|
  {
    if d == [] then []
    else
      var v := d[|d| - 1];
      Hex(d[..|d| - 1]) + [HexDigit(v / 16), HexDigit(v % 16)]
  }

  /** What a hexadecimal digit is worth, or -1. */
  function DigitValue(c: char): int {
    if '0' <= c <= '9' then c as int - '0' as int
    else if 'a' <= c <= 'f' then c as int - 'a' as int + 10
    else -1
  }

  lemma DigitReads(n: nat)
    requires n < 16
    ensures DigitValue(HexDigit(n)) == n
  {
  }

  /** The text is the number: every byte is two of the sixteen digits, the greater place first. */
  lemma {:induction false} HexReads(d: seq<Byte>, k: nat)
    requires k < |d|
    ensures var high, low := DigitValue(Hex(d)[2 * k]), DigitValue(Hex(d)[2 * k + 1]);
            0 <= high < 16 && 0 <= low < 16 && 16 * high + low == d[k]
  {
    hide DigitValue;
    hide HexDigit;
    var n := |d| - 1;
    if k < n {
      HexReads(d[..n], k);
    } else {
      DigitReads(d[n] / 16);
      DigitReads(d[n] % 16);
    }
  }

  /** Different digests print differently. */
  lemma HexInjective(d: seq<Byte>, e: seq<Byte>)
    requires Hex(d) == Hex(e)
    ensures d == e
  {
    assert |d| == |e|;
    forall k | 0 <= k < |d|
      ensures d[k] == e[k]
    {
      HexReads(d, k);
      HexReads(e, k);
    }
  }

  lemma UsedIsLo(lo: nat, hi: nat, n: nat)
    requires Counts(lo, hi, n)
    ensures lo % 64 == n % 64
  {
    assert n == 64 * (0x80_0000 * (n / TWO29)) + lo;
    Mod64(lo, 0x80_0000 * (n / TWO29));
  }

  lemma Mod64(a: nat, k: nat)
    ensures (64 * k + a) % 64 == a % 64
  {
  }

  // ---------------------------------------------------------- where an update cuts its data

  function Waiting(t: seq<Byte>): (w: seq<Byte>)
    ensures |w| == |t| % 64
  {
    t[|t| - |t| % 64..]
  }

  function Whole(t: seq<Byte>): (w: seq<Byte>)
    ensures |w| % 64 == 0
  {
    t[..|t| - |t| % 64]
  }

  lemma StillWaiting(t: seq<Byte>, data: seq<Byte>)
    requires |t| % 64 + |data| < 64
    ensures Whole(t + data) == Whole(t) && Waiting(t + data) == Waiting(t) + data
  {
    var r := |t| % 64;
    Mod64(r + |data|, |t| / 64);
    assert |t + data| % 64 == r + |data|;
    assert |t + data| - (r + |data|) == |t| - r;
  }

  /** The data fills the buffer, then whole blocks go straight through, then a tail waits. */
  lemma Cut(t: seq<Byte>, data: seq<Byte>)
    requires |t| % 64 == 0 || |t| % 64 + |data| >= 64
    ensures var first := if |t| % 64 == 0 then 0 else 64 - |t| % 64;
            var rest := data[first..];
            && Whole(t + data) == Whole(t) + (if first == 0 then [] else Waiting(t) + data[..first]) + Whole(rest)
            && Waiting(t + data) == Waiting(rest)
  {
    var used := |t| % 64;
    var first := if used == 0 then 0 else 64 - used;
    var rest := data[first..];
    Mod64(|rest|, (|t| - used + (if used == 0 then 0 else 64)) / 64);
    assert |t + data| % 64 == |rest| % 64;
  }

  // --------------------------------------------------------------------- where padding ends

  /** The tail with its 0x80 and zeros, up to the length. */
  function PaddedTail(tail: seq<Byte>): (p: seq<Byte>)
    ensures |p| % 64 == 56 && |p| >= 56
  {
    tail + [0x80] + Zeros(ZeroCount(|tail|))
  }

  /** The blocks of it that are full before the length goes in, and the rest. */
  function Front(p: seq<Byte>): seq<Byte>
    requires |p| >= 56
  {
    p[..|p| - 56]
  }

  function Back(p: seq<Byte>): seq<Byte>
    requires |p| >= 56
  {
    p[|p| - 56..]
  }

  lemma OneOrTwoBlocks(tail: seq<Byte>)
    requires |tail| < 64
    ensures var p, n := PaddedTail(tail), |tail|;
            if n + 1 > 56 then
              Front(p) == tail + [0x80] + Zeros(63 - n) && Back(p) == Zeros(56)
            else
              Front(p) == [] && Back(p) == tail + [0x80] + Zeros(55 - n)
  {
    var n := |tail|;
    assert ZeroCount(n) == if n + 1 > 56 then 119 - n else 55 - n;
  }

  lemma ZerosByRemainder(n: nat)
    ensures ZeroCount(n) == ZeroCount(n % 64)
  {
  }

  // ------------------------------------------------------------------------ the context

  /** lgMd5_t. `total` is everything given to the context since it was initialised. */
  class Md5 {
    var lo: nat
    var hi: nat
    var a: Word
    var b: Word
    var c: Word
    var d: Word
    const buffer: array<Byte>
    const block: array<Word>
    ghost var total: seq<Byte>

    ghost function Regs(): State
      reads this
    {
      State(a, b, c, d)
    }

    /** Full blocks are absorbed, the rest waits in the buffer, and the counters count. */
    ghost predicate Valid()
      reads this, buffer
    {
      && buffer.Length == 64 && block.Length == 16
      && Counts(lo, hi, |total|)
      && Absorbed(Regs(), Whole(total))
      && buffer[..|total| % 64] == Waiting(total)
    }

    /** lgMd5Init on a fresh context. */
    constructor ()
      ensures Valid() && total == [] && fresh(buffer) && fresh(block)
    {
      a, b, c, d := 0x67452301, 0xefcdab89, 0x98badcfe, 0x10325476;
      lo, hi := 0, 0;
      buffer := new Byte[64](_ => 0);
      block := new Word[16](_ => 0);
      total := [];
    }

    /** One or more whole blocks. */
    method Body(data: seq<Byte>)
      requires block.Length == 16 && |data| > 0 && |data| % 64 == 0
      modifies this`a, this`b, this`c, this`d, block
      ensures Regs() == Absorb(old(Regs()), data)
    {
      hide Compress;
      hide Absorb;
      var a, b, c, d := this.a, this.b, this.c, this.d;
      ghost var start := Regs();
      var at := 0;
      AbsorbNone(start, data);
      while at < |data|
        invariant at <= |data| && at % 64 == 0
        invariant State(a, b, c, d) == Absorb(start, data[..at])
      {
        AbsorbNext(start, data, at);
        a, b, c, d := OneBlock(a, b, c, d, data[at..]);
        at := at + 64;
      }
      assert data[..at] == data;
      this.a, this.b, this.c, this.d := a, b, c, d;
    }

    /** The body of its do-while loop. */
    method OneBlock(a0: Word, b0: Word, c0: Word, d0: Word, ptr: seq<Byte>)
      returns (a: Word, b: Word, c: Word, d: Word)
      requires block.Length == 16 && |ptr| >= 64
      modifies block
      ensures State(a, b, c, d) == Compress(State(a0, b0, c0, d0), ptr[..64])
    {
      hide Steps;
      hide Words;
      ghost var x := Words(ptr[..64]);
      ghost var s := State(a0, b0, c0, d0);
      a, b, c, d := Round1Low(a0, b0, c0, d0, ptr, block, s, x);
      a, b, c, d := Round1High(a, b, c, d, ptr, block, s, x);
      a, b, c, d := Round2(a, b, c, d, block, s, x);
      a, b, c, d := Round3(a, b, c, d, block, s, x);
      a, b, c, d := Round4(a, b, c, d, block, s, x);
      a, b, c, d := Plus(a, a0), Plus(b, b0), Plus(c, c0), Plus(d, d0);
    }

    /** memcpy into the buffer. */
    method CopyIn(at: nat, data: seq<Byte>)
      requires at + |data| <= buffer.Length
      modifies buffer
      ensures buffer[..] == old(buffer[..at]) + data + old(buffer[at + |data|..])
    {
      forall i | 0 <= i < |data| {
        buffer[at + i] := data[i];
      }
    }

    /** The two counters: 29 bits with a carry, and the rest. */
    method Tally(size: nat)
      requires Counts(lo, hi, |total|) && size < TWO64
      modifies this`lo, this`hi
      ensures Counts(lo, hi, |total| + size)
    {
      CountsStep(lo, hi, |total|, size);
      var savedLo := lo;
      lo := ((savedLo + size) % TWO64) % TWO29;
      if lo < savedLo {
        hi := (hi + 1) % TWO32;
      }
      hi := (hi + size / TWO29) % TWO32;
    }

    /** Completes a block that was waiting; `rest` is the data not used for it. */
    method TopUp(data: seq<Byte>, used: nat) returns (rest: seq<Byte>)
      requires buffer.Length == 64 && block.Length == 16
      requires used == |total| % 64 && (used == 0 || used + |data| >= 64)
      requires Absorbed(Regs(), Whole(total)) && buffer[..used] == Waiting(total)
      modifies this`a, this`b, this`c, this`d, buffer, block
      ensures var first := if used == 0 then 0 else 64 - used;
              && rest == data[first..]
              && Absorbed(Regs(), Whole(total) + if used == 0 then [] else Waiting(total) + data[..first])
    {
      hide Absorb;
      hide Absorbed;
      rest := data;
      if used != 0 {
        var available := 64 - used;
        CopyIn(used, data[..available]);
        rest := data[available..];
        assert buffer[..] == Waiting(total) + data[..available];
        AbsorbedMore(Regs(), Whole(total), buffer[..]);
        Body(buffer[..]);
      } else {
        assert Whole(total) + [] == Whole(total);
      }
    }

    /** Absorbs the whole blocks of the data and leaves the tail in the buffer. */
    method TakeRest(rest: seq<Byte>, ghost sofar: seq<Byte>)
      requires buffer.Length == 64 && block.Length == 16
      requires Absorbed(Regs(), sofar)
      modifies this`a, this`b, this`c, this`d, buffer, block
      ensures Absorbed(Regs(), sofar + Whole(rest)) && buffer[..|rest| % 64] == Waiting(rest)
    {
      hide Absorb;
      hide Absorbed;
      var whole := |rest| - |rest| % 64;
      if |rest| >= 64 {
        AbsorbedMore(Regs(), sofar, rest[..whole]);
        Body(rest[..whole]);
      } else {
        assert sofar + Whole(rest) == sofar;
      }
      CopyIn(0, rest[whole..]);
    }

    /** lgMd5Update. `size` is an unsigned long, hence the bound. */
    method Update(data: seq<Byte>)
      requires Valid() && |data| < TWO64
      modifies this, buffer, block
      ensures Valid() && total == old(total) + data
    {
      hide Absorb;
      hide Absorbed;
      hide Counts;
      hide Whole;
      hide Waiting;
      UsedIsLo(lo, hi, |total|);
      var used := lo % 64;
      Tally(|data|);
      if used != 0 && |data| < 64 - used {
        CopyIn(used, data);
        StillWaiting(total, data);
      } else {
        var rest := TopUp(data, used);
        Cut(total, data);
        TakeRest(rest, Whole(total) + if used == 0 then [] else Waiting(total) + data[..64 - used]);
      }
      total := total + data;
    }

    /** memset of part of the buffer to zero. */
    method Clear(at: nat, n: nat)
      requires at + n <= buffer.Length
      modifies buffer
      ensures buffer[..] == old(buffer[..at]) + Zeros(n) + old(buffer[at + n..])
    {
      forall i | 0 <= i < n {
        buffer[at + i] := 0;
      }
    }

    /** The 0x80 byte, the zeros and, if they leave no room for the length, one more block. */
    method PadTo56(used: nat, ghost tail: seq<Byte>, ghost before: seq<Byte>)
      requires buffer.Length == 64 && block.Length == 16 && used < 64
      requires buffer[..used] == tail && |tail| == used
      requires Absorbed(Regs(), before)
      modifies this`a, this`b, this`c, this`d, buffer, block
      ensures Absorbed(Regs(), before + Front(PaddedTail(tail))) && buffer[..56] == Back(PaddedTail(tail))
    {
      hide Absorb;
      hide Absorbed;
      hide PaddedTail;
      OneOrTwoBlocks(tail);
      buffer[used] := 0x80;
      assert buffer[..used + 1] == tail + [0x80];
      var next := used + 1;
      var available := 64 - next;
      if available < 8 {
        Clear(next, available);
        assert buffer[..] == tail + [0x80] + Zeros(available);
        AbsorbedMore(Regs(), before, buffer[..]);
        Body(buffer[..]);
        next := 0;
        available := 64;
      } else {
        assert before + [] == before;
      }
      Clear(next, available - 8);
      assert used + 1 > 56 ==> buffer[..56] == Zeros(56);
      assert used + 1 <= 56 ==> buffer[..56] == tail + [0x80] + Zeros(55 - used);
    }

    /** lgMd5Final: the hexadecimal digest and the NUL that sprintf ends it with. The context is wiped. */
    method Final() returns (result: string)
      requires Valid()
      modifies this, buffer, block
      ensures result == Hex(Digest(old(total))) + ['\0']
      ensures lo == 0 && hi == 0 && Regs() == State(0, 0, 0, 0)
      ensures buffer[..] == Zeros(64) && forall i :: 0 <= i < 16 ==> block[i] == 0
    {
      hide Absorb;
      hide Counts;
      hide Out32;
      hide Absorbed;
      hide Whole;
      hide Waiting;
      hide PaddedTail;
      hide Front;
      hide Back;
      hide Padded;
      hide LengthBytes;
      hide Hex;
      UsedIsLo(lo, hi, |total|);
      LengthIsCounters(lo, hi, |total|);
      var used := lo % 64;
      PadTo56(used, Waiting(total), Whole(total));
      var shifted := (8 * lo) % TWO32;
      CopyIn(56, Out32(shifted));
      CopyIn(60, Out32(hi));
      PaddedInBlocks(total);
      assert buffer[..] == Back(PaddedTail(Waiting(total))) + LengthBytes(8 * |total|);
      ghost var before := Whole(total) + Front(PaddedTail(Waiting(total)));
      AbsorbedMore(Regs(), before, buffer[..]);
      Body(buffer[..]);
      AbsorbedIs(Regs(), Padded(total));
      var digest := BytesOf(a) + BytesOf(b) + BytesOf(c) + BytesOf(d);
      result := Hex(digest) + ['\0'];
      lo, hi, a, b, c, d := 0, 0, 0, 0, 0, 0;
      Clear(0, 64);
      forall i | 0 <= i < block.Length {
        block[i] := 0;
      }
    }
  }

  lemma Glue(w: seq<Byte>, v: seq<Byte>, z: seq<Byte>, p: seq<Byte>, l: seq<Byte>)
    requires p == v + z && |p| >= 56
    ensures (w + Front(p)) + (Back(p) + l) == (w + v) + z + l
  {
  }

  /** What lgMd5Final has absorbed, and its last block, are together the padded message. */
  lemma PaddedInBlocks(t: seq<Byte>)
    ensures var p := PaddedTail(Waiting(t));
            (Whole(t) + Front(p)) + (Back(p) + LengthBytes(8 * |t|)) == Padded(t)
  {
    hide LengthBytes;
    hide Front;
    hide Back;
    ZerosByRemainder(|t|);
    var z := [0x80] + Zeros(ZeroCount(|t|));
    var p, l := PaddedTail(Waiting(t)), LengthBytes(8 * |t|);
    hide ZeroCount;
    hide Zeros;
    assert p == Waiting(t) + z;
    Glue(Whole(t), Waiting(t), z, p, l);
    assert Whole(t) + Waiting(t) == t;
    assert Padded(t) == t + z + l;
  }

  // --------------------------------------------------------------- any way of splitting

  function Joined(chunks: seq<seq<Byte>>): seq<Byte> {
    if chunks == [] then [] else Joined(chunks[..|chunks| - 1]) + chunks[|chunks| - 1]
  }

  /** Init, one Update per chunk, Final: only the concatenation matters. */
  method DigestOf(chunks: seq<seq<Byte>>) returns (result: string)
    requires forall i :: 0 <= i < |chunks| ==> |chunks[i]| < TWO64
    ensures result == Hex(Digest(Joined(chunks))) + ['\0']
  {
    var md5 := new Md5();
    for i := 0 to |chunks|
      invariant md5.Valid() && md5.total == Joined(chunks[..i])
      invariant fresh(md5) && fresh(md5.buffer) && fresh(md5.block)
    {
      assert chunks[..i + 1][..i] == chunks[..i];
      md5.Update(chunks[i]);
    }
    assert chunks[..|chunks|] == chunks;
    result := md5.Final();
  }

  datatype Option<T> = None | Some(value: T)

  const SALT_LEN: nat := 16

  /** lgMd5UserHash on the secret the configuration file holds for the user, if any: the salts
      without their terminators around the secret. No secret leaves the hash unwritten. */
  method UserHash(salt1: seq<Byte>, salt2: seq<Byte>, secret: Option<seq<Byte>>) returns (hash: Option<string>)
    requires |salt1| == SALT_LEN && |salt2| == SALT_LEN
    requires secret.Some? ==> |secret.value| < TWO64
    ensures hash == if secret.None? then None
                    else Some(Hex(Digest(salt1[..15] + secret.value + salt2[..15])) + ['\0'])
  {
    if secret.None? {
      return None;
    }
    var md5 := new Md5();
    md5.Update(salt1[..SALT_LEN - 1]);
    md5.Update(secret.value);
    md5.Update(salt2[..SALT_LEN - 1]);
    assert [] + salt1[..15] == salt1[..15];
    var h := md5.Final();
    hash := Some(h);
  }
}
