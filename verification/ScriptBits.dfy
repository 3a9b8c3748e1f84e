/**
 The 32-bit words the script registers are made of: a word is a number below 2^32, its bits are its
 binary digits, and the operators of C work on them one place at a time.
 */
module ScriptBits {
  import opened Quotients

  const WORD: int := 0x1_0000_0000

  type UInt32 = x: int | 0 <= x < 0x1_0000_0000

  datatype Gate = And | Or | Xor

  function Through(g: Gate, x: bool, y: bool): bool {
    match g
    case And => x && y
    case Or => x || y
    case Xor => x != y
  }

  /** The lowest n places, each through the gate. */
  function Gated(g: Gate, u: nat, v: nat, n: nat): nat {
    if n == 0 then 0
    else 2 * Gated(g, u / 2, v / 2, n - 1) + if Through(g, u % 2 == 1, v % 2 == 1) then 1 else 0
  }

  function Word(g: Gate, u: UInt32, v: UInt32): (r: UInt32) {
    GatedFits(g, u, v, 32);
    Gated(g, u, v, 32)
  }

  /** Up n places, one at a time; what leaves the word is lost. */
  function Shl(u: UInt32, n: nat): UInt32
    decreases n
  {
    if n == 0 then u else Shl((2 * u) % WORD, n - 1)
  }

  /** Down n places, zeros following. */
  function Shr(u: UInt32, n: nat): UInt32
    decreases n
  {
    if n == 0 then u else Shr(u / 2, n - 1)
  }

  /** xrl and xrr, which combine two shifts. */
  function Rol(u: UInt32, n: nat): UInt32
    requires n < 32
  {
    Word(Or, Shl(u, n), Shr(u, (32 - n) % 32))
  }

  function Ror(u: UInt32, n: nat): UInt32
    requires n < 32
  {
    Word(Or, Shr(u, n), Shl(u, (32 - n) % 32))
  }

  // ------------------------------------------------------------------------------ digits

  function Power2(n: nat): (p: nat)
    ensures p > 0
  {
    if n == 0 then 1 else 2 * Power2(n - 1)
  }

  /** The k-th binary digit is 1. */
  predicate Bit(u: nat, k: nat) { (u / Power2(k)) % 2 == 1 }

  lemma Power32()
    ensures Power2(32) == WORD
  {
    assert Power2(8) == 256;
    assert Power2(16) == 256 * 256;
    assert Power2(24) == 256 * 256 * 256;
  }

  lemma {:induction false} GatedFits(g: Gate, u: nat, v: nat, n: nat)
    ensures Gated(g, u, v, n) < Power2(n)
    ensures n == 32 ==> Power2(n) == WORD
  {
    if n == 32 {
      Power32();
    }
    if n > 0 {
      GatedFits(g, u / 2, v / 2, n - 1);
    }
  }

  lemma HalfThenDivide(u: nat, p: nat)
    requires p > 0
    ensures u / (2 * p) == u / 2 / p
  {
    var h := u / 2;
    var t, s := h / p, h % p;
    assert h == p * t + s;
    assert (2 * p) * t == 2 * (p * t);
    Quotient(u, 2 * p, t, 2 * s + u % 2);
  }

  lemma LowestBit(u: nat)
    ensures Bit(u, 0) <==> u % 2 == 1
  {
    assert Power2(0) == 1;
  }

  lemma HigherBit(u: nat, k: nat)
    ensures Bit(u, k + 1) <==> Bit(u / 2, k)
  {
    HalfThenDivide(u, Power2(k));
  }

  /** AND, OR and XOR are those of the digits. */
  lemma {:induction false} GatedBit(g: Gate, u: nat, v: nat, n: nat, k: nat)
    requires k < n
    ensures Bit(Gated(g, u, v, n), k) <==> Through(g, Bit(u, k), Bit(v, k))
  {
    hide Bit;
    var r := Gated(g, u, v, n);
    if k == 0 {
      LowestBit(r);
      LowestBit(u);
      LowestBit(v);
    } else {
      HigherBit(r, k - 1);
      HigherBit(u, k - 1);
      HigherBit(v, k - 1);
      GatedBit(g, u / 2, v / 2, n - 1, k - 1);
    }
  }

  lemma WordBit(g: Gate, u: UInt32, v: UInt32, k: nat)
    requires k < 32
    ensures Bit(Word(g, u, v), k) <==> Through(g, Bit(u, k), Bit(v, k))
  {
    GatedBit(g, u, v, 32, k);
  }

  /** A number with no digit from n on. */
  lemma {:induction false} NoBitFrom(u: nat, n: nat, k: nat)
    requires u < Power2(n) && n <= k
    ensures !Bit(u, k)
  {
    hide Bit;
    if k == 0 {
      LowestBit(u);
    } else {
      HigherBit(u, k - 1);
      if n > 0 {
        NoBitFrom(u / 2, n - 1, k - 1);
      } else {
        NoBitFrom(u / 2, 0, k - 1);
      }
    }
  }

  lemma {:induction false} LowDigits(u: nat, n: nat, k: nat)
    requires k < n
    ensures Bit(u % Power2(n), k) <==> Bit(u, k)
  {
    hide Bit;
    var m := Power2(n - 1);
    var h := u / 2;
    assert u % (2 * m) == 2 * (h % m) + u % 2 by {
      Quotient(u, 2 * m, h / m, 2 * (h % m) + u % 2);
    }
    if k == 0 {
      LowestBit(u);
      LowestBit(u % Power2(n));
    } else {
      HigherBit(u, k - 1);
      HigherBit(u % Power2(n), k - 1);
      LowDigits(h, n - 1, k - 1);
    }
  }

  lemma DoubledBit(u: UInt32, k: nat)
    requires k < 32
    ensures Bit((2 * u) % WORD, k) <==> k > 0 && Bit(u, k - 1)
  {
    hide Bit;
    hide Power2;
    Power32();
    LowDigits(2 * u, 32, k);
    if k == 0 {
      LowestBit(2 * u);
    } else {
      HigherBit(2 * u, k - 1);
    }
  }

  lemma {:induction false} ShlBit(u: UInt32, n: nat, k: nat)
    requires k < 32
    ensures Bit(Shl(u, n), k) <==> k >= n && Bit(u, k - n)
    decreases n
  {
    hide Bit;
    if n > 0 {
      ShlBit((2 * u) % WORD, n - 1, k);
      if k >= n {
        DoubledBit(u, k - (n - 1));
      } else if k == n - 1 {
        DoubledBit(u, 0);
      }
    }
  }

  lemma {:induction false} ShrBit(u: UInt32, n: nat, k: nat)
    ensures Bit(Shr(u, n), k) <==> Bit(u, k + n)
  {
    hide Bit;
    if n > 0 {
      ShrBit(u / 2, n - 1, k);
      HigherBit(u, k + n - 1);
    }
  }

  lemma NoHighBit(u: UInt32, k: nat)
    requires k >= 32
    ensures !Bit(u, k)
  {
    Power32();
    NoBitFrom(u, 32, k);
  }

  /** Rotating moves every digit round the word. */
  lemma RolBit(u: UInt32, n: nat, k: nat)
    requires n < 32 && k < 32
    ensures Bit(Rol(u, n), (k + n) % 32) <==> Bit(u, k)
  {
    hide Bit;
    hide Word;
    hide Shl;
    hide Shr;
    var to, back := if k + n < 32 then k + n else k + n - 32, if n == 0 then 0 else 32 - n;
    assert to == (k + n) % 32 && back == (32 - n) % 32;
    WordBit(Or, Shl(u, n), Shr(u, back), to);
    ShlBit(u, n, to);
    ShrBit(u, back, to);
    if to >= n {
      assert to - n == k;
      if n > 0 {
        NoHighBit(u, to + back);
      }
    }
  }

  lemma RorBit(u: UInt32, n: nat, k: nat)
    requires n < 32 && k < 32
    ensures Bit(Ror(u, n), k) <==> Bit(u, (k + n) % 32)
  {
    hide Bit;
    hide Word;
    hide Shl;
    hide Shr;
    var back := if n == 0 then 0 else 32 - n;
    assert back == (32 - n) % 32;
    WordBit(Or, Shr(u, n), Shl(u, back), k);
    ShrBit(u, n, k);
    ShlBit(u, back, k);
    if k + n >= 32 {
      NoHighBit(u, k + n);
    }
  }

  // ------------------------------------------------------------------------------- values

  /** A number is its digits. */
  lemma {:induction false} SameBits(u: nat, v: nat, n: nat)
    requires u < Power2(n) && v < Power2(n)
    requires forall k :: 0 <= k < n ==> (Bit(u, k) <==> Bit(v, k))
    ensures u == v
  {
    hide Bit;
    if n > 0 {
      assert Bit(u, 0) <==> Bit(v, 0);
      LowestBit(u);
      LowestBit(v);
      forall k | 0 <= k < n - 1
        ensures Bit(u / 2, k) <==> Bit(v / 2, k)
      {
        HigherBit(u, k);
        HigherBit(v, k);
        assert Bit(u, k + 1) <==> Bit(v, k + 1);
      }
      SameBits(u / 2, v / 2, n - 1);
    }
  }

  lemma SameWords(u: UInt32, v: UInt32)
    requires forall k :: 0 <= k < 32 ==> (Bit(u, k) <==> Bit(v, k))
    ensures u == v
  {
    Power32();
    SameBits(u, v, 32);
  }

  /** Rotating back undoes rotating. */
  lemma RorUndoesRol(u: UInt32, n: nat)
    requires n < 32
    ensures Ror(Rol(u, n), n) == u && Rol(Ror(u, n), n) == u
  {
    RightAfterLeft(u, n);
    LeftAfterRight(u, n);
  }

  lemma RightAfterLeft(u: UInt32, n: nat)
    requires n < 32
    ensures Ror(Rol(u, n), n) == u
  {
    hide Rol;
    hide Ror;
    hide Bit;
    forall k | 0 <= k < 32
      ensures Bit(Ror(Rol(u, n), n), k) <==> Bit(u, k)
    {
      RorBit(Rol(u, n), n, k);
      RolBit(u, n, k);
    }
    SameWords(Ror(Rol(u, n), n), u);
  }

  lemma LeftAfterRight(u: UInt32, n: nat)
    requires n < 32
    ensures Rol(Ror(u, n), n) == u
  {
    hide Rol;
    hide Ror;
    hide Bit;
    forall k | 0 <= k < 32
      ensures Bit(Rol(Ror(u, n), n), k) <==> Bit(u, k)
    {
      var j := if k >= n then k - n else k - n + 32;
      assert (j + n) % 32 == k;
      RolBit(Ror(u, n), n, j);
      RorBit(u, n, j);
    }
    SameWords(Rol(Ror(u, n), n), u);
  }

  lemma ModTwice(a: nat, p: nat, m: nat)
    requires m > 0
    ensures ((a % m) * p) % m == (a * p) % m
  {
    var q, r := a / m, a % m;
    assert a * p == m * (q * p) + r * p;
    var t := (r * p) % m;
    var s := (r * p) / m;
    assert r * p == m * s + t;
    assert m * (q * p) + m * s == m * (q * p + s);
    Quotient(a * p, m, q * p + s, t);
  }

  /** Shifting up multiplies, modulo 2^32. */
  lemma {:induction false} ShlValue(u: UInt32, n: nat)
    ensures Shl(u, n) == (u * Power2(n)) % WORD
    decreases n
  {
    if n > 0 {
      ShlValue((2 * u) % WORD, n - 1);
      ModTwice(2 * u, Power2(n - 1), WORD);
      assert (2 * u) * Power2(n - 1) == u * Power2(n);
    }
  }

  /** Shifting down divides. */
  lemma {:induction false} ShrValue(u: UInt32, n: nat)
    ensures Shr(u, n) == u / Power2(n)
    decreases n
  {
    if n > 0 {
      ShrValue(u / 2, n - 1);
      HalfThenDivide(u, Power2(n - 1));
    }
  }
}
