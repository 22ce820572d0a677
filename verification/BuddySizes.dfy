/** The block size computation of buddy::page::allocate: next_pow_2 and level_of. */
module BuddySizes {
  import opened Bits

  // ---------------------------------------------------------------- bits

  predicate Bit(v: nat, i: nat)
  {
    if i == 0 then v % 2 == 1 else Bit(v / 2, i - 1)
  }

  /** Right shift. */
  function Shr(v: nat, n: nat): nat
  {
    if n == 0 then v else Shr(v / 2, n - 1)
  }

  lemma {:induction false} BitOfShr(v: nat, n: nat, i: nat)
    ensures Bit(Shr(v, n), i) == Bit(v, i + n)
  {
    if n > 0 { BitOfShr(v / 2, n - 1, i); }
  }

  lemma {:induction false} BitOfZero(i: nat)
    ensures !Bit(0, i)
  {
    if i > 0 { BitOfZero(i - 1); }
  }

  lemma {:induction false} BitOfOr(a: nat, b: nat, i: nat)
    ensures Bit(Or(a, b), i) == (Bit(a, i) || Bit(b, i))
  {
    if a == 0 && b == 0 {
      BitOfZero(i);
    } else if i > 0 {
      BitOfOr(a / 2, b / 2, i - 1);
    }
  }

  lemma {:induction false} TopBit(v: nat, i: nat)
    requires v > 0
    ensures Bit(v, Log2(v)) && (i > Log2(v) ==> !Bit(v, i))
  {
    if v == 1 {
      if i > 0 { BitOfZero(i - 1); }
    } else {
      TopBit(v / 2, if i > 0 then i - 1 else 0);
    }
  }

  /** A number whose bits 0..n-1 are set, and no others. */
  lemma {:induction false} AllOnes(v: nat, n: nat)
    requires forall i: nat :: Bit(v, i) <==> i < n
    ensures v == Pow2(n) - 1
    decreases v + n
  {
    if n == 0 {
      if v > 0 { TopBit(v, 0); }
    } else {
      assert Bit(v, 0);
      forall i: nat ensures Bit(v / 2, i) <==> i < n - 1 {
        assert Bit(v, i + 1) == Bit(v / 2, i);
      }
      AllOnes(v / 2, n - 1);
    }
  }

  /** Some bit of v among i..i+n-1 is set. */
  ghost predicate Seen(v: nat, i: nat, n: nat)
  {
    exists j: nat :: i <= j < i + n && Bit(v, j)
  }

  ghost predicate Smeared(v: nat, w: nat, n: nat)
  {
    forall i: nat :: Bit(w, i) <==> Seen(v, i, n)
  }

  lemma SmearStart(v: nat)
    ensures Smeared(v, v, 1)
  {
    forall i: nat ensures Bit(v, i) <==> Seen(v, i, 1) {
      if Bit(v, i) { assert i <= i < i + 1; }
    }
  }

  lemma SmearStep(v: nat, w: nat, n: nat)
    requires Smeared(v, w, n)
    ensures Smeared(v, Or(w, Shr(w, n)), 2 * n)
  {
    forall i: nat ensures Bit(Or(w, Shr(w, n)), i) <==> Seen(v, i, 2 * n) {
      BitOfShr(w, n, i);
      BitOfOr(w, Shr(w, n), i);
      assert Bit(w, i) <==> Seen(v, i, n);
      assert Bit(w, i + n) <==> Seen(v, i + n, n);
      if Seen(v, i, 2 * n) {
        var j: nat :| i <= j < i + 2 * n && Bit(v, j);
        if j < i + n { assert Seen(v, i, n); } else { assert Seen(v, i + n, n); }
      }
    }
  }

  lemma SmearEnd(v: nat, w: nat, n: nat)
    requires v > 0 && Smeared(v, w, n) && Log2(v) < n
    ensures w == Pow2(Log2(v) + 1) - 1
  {
    forall i: nat ensures Bit(w, i) <==> i < Log2(v) + 1 {
      assert Bit(w, i) <==> Seen(v, i, n);
      TopBit(v, i);
      if i <= Log2(v) {
        assert i <= Log2(v) < i + n && Bit(v, Log2(v));
      } else if Seen(v, i, n) {
        var j: nat :| i <= j < i + n && Bit(v, j);
        TopBit(v, j);
      }
    }
    AllOnes(w, Log2(v) + 1);
  }

  lemma {:induction false} Pow2Shift(n: nat, k: nat)
    ensures Pow2(n + k) == Pow2(k) * Pow2(n)
  {
    if n > 0 {
      Pow2Shift(n - 1, k);
      assert Pow2(n + k) == 2 * Pow2(n - 1 + k);
      assert Pow2(k) * Pow2(n) == 2 * (Pow2(k) * Pow2(n - 1));
    }
  }

  const WORD: nat := 0x1_0000_0000_0000_0000

  lemma WordIsPow2()
    ensures Pow2(64) == WORD
  {
    assert Pow2(4) == 16;
    Pow2Shift(4, 4);
    Pow2Shift(8, 8);
    Pow2Shift(16, 16);
    Pow2Shift(32, 32);
  }

  /** next_pow_2 on a 64-bit word: the power of two strictly above v, modulo 2^64. */
  method NextPow2(v: nat) returns (r: nat)
    requires 0 < v < WORD
    ensures r == Pow2(Log2(v) + 1) % WORD
    ensures v < WORD / 2 ==> r / 2 <= v < r
  {
    WordIsPow2();
    Log2Bounds(v);
    if Log2(v) >= 64 { Pow2Monotone(64, Log2(v)); }
    var bitCeil := 64;
    var bit := 1;
    var w: nat := v;
    SmearStart(v);
    while bit < bitCeil
      invariant bit == 1 || bit == 2 || bit == 4 || bit == 8 || bit == 16 || bit == 32 || bit == 64
      invariant Smeared(v, w, bit)
    {
      SmearStep(v, w, bit);
      w := Or(w, Shr(w, bit));
      bit := 2 * bit;
    }
    SmearEnd(v, w, bit);
    r := (w + 1) % WORD;
    if v < WORD / 2 {
      if Log2(v) >= 63 { Pow2Monotone(63, Log2(v)); }
      Pow2Monotone(Log2(v) + 1, 63);
    }
  }

  /** level_of: log2 of a block size, counted from 32 bytes. */
  function LevelOf(length: nat): nat
    requires length >= 32
  {
    Log2Monotone(32, length);
    assert Log2(32) == 5;
    Log2(length) - 5
  }

  /** sizeof (header): a pointer, and a byte of flags and level, aligned. */
  const HEADER: nat := 16

  /** The level of the block that a payload of `len` bytes is given. */
  function LevelFor(len: nat): nat
  {
    Log2Monotone(16, len + HEADER);
    assert Log2(16) == 4;
    Log2(len + HEADER) - 4
  }

  /** Header and payload fit in the block, and a block half the size would be too small unless it is a minimal one. */
  lemma LevelForFits(len: nat)
    ensures len + 16 < 32 * Pow2(LevelFor(len))
    ensures LevelFor(len) > 0 ==> 32 * Pow2(LevelFor(len) - 1) <= len + 16
  {
    var n := len + HEADER;
    Log2Bounds(n);
    Pow2Shift(LevelFor(len), 5);
    if LevelFor(len) > 0 { Pow2Shift(LevelFor(len) - 1, 5); }
    assert Pow2(5) == 32;
  }

  /** So there is one level that a payload can have. */
  lemma LevelIsUnique(len: nat, level: nat)
    requires len + 16 < 32 * Pow2(level) && (level > 0 ==> 32 * Pow2(level - 1) <= len + 16)
    ensures level == LevelFor(len)
  {
    LevelForFits(len);
    if level < LevelFor(len) {
      Pow2Monotone(level, LevelFor(len) - 1);
    } else if level > LevelFor(len) {
      Pow2Monotone(LevelFor(len), level - 1);
    }
  }

  /** The level is within the page exactly when header and payload are smaller than its capacity. */
  lemma LevelForWithin(len: nat, top: nat)
    ensures LevelFor(len) <= top <==> len + 16 < 32 * Pow2(top)
  {
    LevelForFits(len);
    if LevelFor(len) <= top {
      Pow2Monotone(LevelFor(len), top);
    } else {
      Pow2Monotone(top, LevelFor(len) - 1);
    }
  }
}
