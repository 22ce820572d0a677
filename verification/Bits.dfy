/** Powers of two and the bit operations of the size computations, on unbounded naturals. */
module Bits {

  function Pow2(n: nat): (p: nat)
    ensures p >= 1
  {
    if n == 0 then 1 else 2 * Pow2(n - 1)
  }

  lemma {:induction false} Pow2Monotone(m: nat, n: nat)
    requires m <= n
    ensures Pow2(m) <= Pow2(n)
    ensures m < n ==> Pow2(m) < Pow2(n)
    decreases n
  {
    if m < n { Pow2Monotone(m, n - 1); }
  }

  /** u is a multiple of 2^l. */
  predicate Aligned(u: nat, l: nat)
  {
    l == 0 || (u % 2 == 0 && Aligned(u / 2, l - 1))
  }

  /** What `Aligned` means. */
  lemma {:induction false} AlignedIsMultiple(u: nat, l: nat) returns (q: nat)
    requires Aligned(u, l)
    ensures u == q * Pow2(l)
  {
    if l == 0 {
      q := u;
    } else {
      q := AlignedIsMultiple(u / 2, l - 1);
      assert q * Pow2(l) == 2 * (q * Pow2(l - 1));
    }
  }

  lemma {:induction false} MultipleIsAligned(q: nat, l: nat)
    ensures Aligned(q * Pow2(l), l)
  {
    if l > 0 {
      MultipleIsAligned(q, l - 1);
      assert q * Pow2(l) == 2 * (q * Pow2(l - 1));
    }
  }

  lemma {:induction false} AlignedWeaken(u: nat, l: nat, m: nat)
    requires l <= m && Aligned(u, m)
    ensures Aligned(u, l)
  {
    if l > 0 { AlignedWeaken(u / 2, l - 1, m - 1); }
  }

  /** Bitwise exclusive or. */
  function Xor(a: nat, b: nat): nat
    decreases a + b
  {
    if a == 0 && b == 0 then 0 else (if a % 2 == b % 2 then 0 else 1) + 2 * Xor(a / 2, b / 2)
  }

  /** Bitwise or. */
  function Or(a: nat, b: nat): nat
    decreases a + b
  {
    if a == 0 && b == 0 then 0 else (if a % 2 == 1 || b % 2 == 1 then 1 else 0) + 2 * Or(a / 2, b / 2)
  }

  lemma {:induction false} XorZero(a: nat)
    ensures Xor(a, 0) == a
  {
    if a > 0 { XorZero(a / 2); }
  }

  lemma XorDouble(a: nat, b: nat)
    ensures Xor(2 * a, 2 * b) == 2 * Xor(a, b)
  {
  }

  /** The flip acts on byte offsets as it does on offsets in units of 32 bytes. */
  lemma XorOfUnits(a: nat, b: nat)
    ensures Xor(32 * a, 32 * b) == 32 * Xor(a, b)
  {
    hide Xor;
    XorDouble(a, b);
    XorDouble(2 * a, 2 * b);
    XorDouble(4 * a, 4 * b);
    XorDouble(8 * a, 8 * b);
    XorDouble(16 * a, 16 * b);
  }

  /** Bitwise and. */
  function And(a: nat, b: nat): nat
  {
    if a == 0 || b == 0 then 0 else 2 * And(a / 2, b / 2) + (if a % 2 == 1 && b % 2 == 1 then 1 else 0)
  }

  lemma AndOdd(a: nat, p: nat)
    requires a > 0 && p > 0
    ensures And(a, 2 * p - 1) == 2 * And(a / 2, p - 1) + a % 2
  {
    assert (2 * p - 1) / 2 == p - 1 && (2 * p - 1) % 2 == 1;
  }

  /** A mask of k ones is the remainder by 2^k. */
  lemma {:induction false} AndMask(a: nat, k: nat)
    ensures And(a, Pow2(k) - 1) == a % Pow2(k)
  {
    if a == 0 {
      assert 0 % Pow2(k) == 0;
    } else if k > 0 {
      var p := Pow2(k - 1);
      assert Pow2(k) == 2 * p;
      AndMask(a / 2, k - 1);
      hide And;
      AndOdd(a, p);
      HalfMod(a, p);
    }
  }

  lemma HalfMod(a: nat, p: nat)
    requires p > 0
    ensures a % (2 * p) == 2 * ((a / 2) % p) + a % 2
  {
    var q, r := a / 2 / p, (a / 2) % p;
    assert a / 2 == q * p + r;
    assert a == (2 * p) * q + (2 * r + a % 2);
    UniqueMod(a, 2 * p, q, 2 * r + a % 2);
  }

  lemma UniqueMod(a: nat, m: nat, q: nat, r: nat)
    requires r < m && a == m * q + r
    ensures a % m == r
  {
    SameQuotient(m, q, r, a / m, a % m);
  }

  lemma SameQuotient(m: nat, q: nat, r: nat, q': nat, r': nat)
    requires r < m && r' < m && m * q + r == m * q' + r'
    ensures r == r'
  {
    if q < q' {
      NextMultiple(m, q, q');
    } else if q' < q {
      NextMultiple(m, q', q);
    }
  }

  lemma {:induction false} NextMultiple(m: nat, q: nat, q': nat)
    requires q < q'
    ensures m * q + m <= m * q'
    decreases q'
  {
    if q + 1 < q' { NextMultiple(m, q, q' - 1); }
  }

  /** The other half of the aligned pair of 2^l-blocks that u belongs to. */
  function Buddy(u: nat, l: nat): nat
  {
    if Aligned(u, l + 1) then u + Pow2(l) else if Pow2(l) <= u then u - Pow2(l) else 0
  }

  /** Flipping bit l of a multiple of 2^l moves to the buddy. */
  lemma {:induction false} XorIsBuddy(u: nat, l: nat)
    requires Aligned(u, l)
    ensures Xor(u, Pow2(l)) == Buddy(u, l)
    ensures !Aligned(u, l + 1) ==> Pow2(l) <= u
  {
    if l == 0 {
      XorZero(u / 2);
      assert Aligned(u, 1) <==> u % 2 == 0;
    } else {
      XorIsBuddy(u / 2, l - 1);
      assert Pow2(l) % 2 == 0 && Pow2(l) / 2 == Pow2(l - 1);
      assert Aligned(u, l + 1) == Aligned(u / 2, l);
    }
  }

  lemma {:induction false} AlignedAdd(u: nat, l: nat)
    requires Aligned(u, l)
    ensures Aligned(u + Pow2(l), l)
    ensures u >= Pow2(l) ==> Aligned(u - Pow2(l), l)
    ensures Aligned(u + Pow2(l), l + 1) <==> !Aligned(u, l + 1)
    ensures u >= Pow2(l) ==> (Aligned(u - Pow2(l), l + 1) <==> !Aligned(u, l + 1))
  {
    if l > 0 {
      AlignedAdd(u / 2, l - 1);
      assert (u + Pow2(l)) / 2 == u / 2 + Pow2(l - 1) && (u + Pow2(l)) % 2 == 0;
      if u >= Pow2(l) { assert (u - Pow2(l)) / 2 == u / 2 - Pow2(l - 1) && (u - Pow2(l)) % 2 == 0; }
    } else {
      assert forall x: nat :: Aligned(x, 1) <==> x % 2 == 0;
    }
  }

  /** Buddies are mutual, and the lower one starts the block one level up. */
  lemma BuddyPair(u: nat, l: nat)
    requires Aligned(u, l)
    ensures var b := Buddy(u, l);
      && Aligned(b, l) && Buddy(b, l) == u
      && (var p := if u < b then u else b;
          Aligned(p, l + 1) && ((u == p && b == p + Pow2(l)) || (b == p && u == p + Pow2(l))))
  {
    XorIsBuddy(u, l);
    AlignedAdd(u, l);
    var b := Buddy(u, l);
    AlignedAdd(b, l);
  }

  /** Two equally aligned starts within one block length are the same start. */
  lemma {:induction false} SameStart(s: nat, b: nat, m: nat)
    requires Aligned(s, m) && Aligned(b, m) && s <= b < s + Pow2(m)
    ensures s == b
  {
    if m > 0 { SameStart(s / 2, b / 2, m - 1); }
  }

  /** Dyadic blocks that share a point are nested. */
  lemma {:induction false} Nested(s: nat, m: nat, p: nat, k: nat, x: nat)
    requires k <= m && Aligned(s, m) && Aligned(p, k)
    requires p <= x < p + Pow2(k) && s <= x < s + Pow2(m)
    ensures s <= p && p + Pow2(k) <= s + Pow2(m)
  {
    if k > 0 { Nested(s / 2, m - 1, p / 2, k - 1, x / 2); }
  }

  /** floor(log2 v) */
  function Log2(v: nat): nat
    requires v > 0
  {
    if v == 1 then 0 else 1 + Log2(v / 2)
  }

  lemma {:induction false} Log2Bounds(v: nat)
    requires v > 0
    ensures Pow2(Log2(v)) <= v < Pow2(Log2(v) + 1)
  {
    if v > 1 { Log2Bounds(v / 2); }
  }

  lemma {:induction false} Log2OfPow2(n: nat)
    ensures Log2(Pow2(n)) == n
  {
    if n > 0 { Log2OfPow2(n - 1); }
  }

  lemma {:induction false} Log2Monotone(a: nat, b: nat)
    requires 0 < a <= b
    ensures Log2(a) <= Log2(b)
  {
    if a > 1 { Log2Monotone(a / 2, b / 2); }
  }
}
