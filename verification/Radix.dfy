/** Least-significant-digit radix sort on sequences: what the sorts of benchmarks/radix_benchmark.cpp compute. */
module Radix {
  import opened Bits

  const WORD: nat := 0x1_0000_0000_0000_0000

  /** A 64-bit render command. */
  type Command = x: nat | x < WORD

  const RADIX_COUNT: nat := 8

  function Pow256(r: nat): (p: nat)
    ensures p > 0
  {
    if r == 0 then 1 else 256 * Pow256(r - 1)
  }

  /** Byte r of a command, counted from the least significant one. */
  function Digit(x: Command, r: nat): (d: nat)
    ensures d < 256
  {
    (x / Pow256(r)) % 256
  }

  /** The bytes of x below byte r. */
  function Low(x: Command, r: nat): nat
  {
    x % Pow256(r)
  }

  lemma DivMod(x: nat, p: nat)
    requires p > 0
    ensures x % (256 * p) == ((x / p) % 256) * p + x % p
  {
    var y, m := x / p, x % p;
    assert x == p * y + m;
    var q, d := y / 256, y % 256;
    assert y == 256 * q + d;
    Regroup(p, q, d);
    NextMultiple(p, d, 256);
    assert d * p == p * d && 256 * p == p * 256;
    UniqueMod(x, 256 * p, q, d * p + m);
  }

  lemma Regroup(p: nat, q: nat, d: nat)
    ensures p * (256 * q + d) == (256 * p) * q + p * d
  {
  }

  lemma LowStep(x: Command, r: nat)
    ensures Low(x, r + 1) == Digit(x, r) * Pow256(r) + Low(x, r) && Low(x, r) < Pow256(r)
  {
    DivMod(x, Pow256(r));
  }

  /** Comparing by the bytes up to r: first by byte r, then by those below. */
  lemma LowOrder(x: Command, y: Command, r: nat)
    ensures Digit(x, r) < Digit(y, r) ==> Low(x, r + 1) <= Low(y, r + 1)
    ensures Digit(x, r) == Digit(y, r) && Low(x, r) <= Low(y, r) ==> Low(x, r + 1) <= Low(y, r + 1)
  {
    LowStep(x, r);
    LowStep(y, r);
    var p := Pow256(r);
    if Digit(x, r) < Digit(y, r) {
      assert Digit(x, r) * p + p <= Digit(y, r) * p by { NextMultiple(p, Digit(x, r), Digit(y, r)); }
    }
  }

  lemma LowAll(x: Command)
    ensures Low(x, RADIX_COUNT) == x
  {
    assert Pow256(2) == 0x1_0000;
    assert Pow256(4) == 0x1_0000_0000;
    assert Pow256(6) == 0x1_0000_0000_0000;
    assert Pow256(8) == WORD;
  }

  // ---------------------------------------------------------------- one pass

  /** The items with byte r equal to d, in order. */
  function With(s: seq<Command>, r: nat, d: nat): (t: seq<Command>)
    ensures |t| <= |s|
  {
    if s == [] then []
    else With(s[..|s| - 1], r, d) + if Digit(s[|s| - 1], r) == d then [s[|s| - 1]] else []
  }

  /** The items with byte r below d, by that byte and otherwise in order. */
  function Buckets(s: seq<Command>, r: nat, d: nat): seq<Command>
  {
    if d == 0 then [] else Buckets(s, r, d - 1) + With(s, r, d - 1)
  }

  function Pass(s: seq<Command>, r: nat): seq<Command>
  {
    Buckets(s, r, 256)
  }

  /** The first n passes. */
  function Passes(s: seq<Command>, n: nat): seq<Command>
  {
    if n == 0 then s else Pass(Passes(s, n - 1), n - 1)
  }

  lemma WithSnoc(s: seq<Command>, x: Command, r: nat, d: nat)
    ensures With(s + [x], r, d) == With(s, r, d) + if Digit(x, r) == d then [x] else []
  {
    assert (s + [x])[..|s|] == s;
  }

  lemma {:induction false} WithPrefix(s: seq<Command>, i: nat, r: nat, d: nat)
    requires i <= |s|
    ensures With(s[..i], r, d) <= With(s, r, d)
    decreases |s|
  {
    if i == |s| {
      assert s[..i] == s;
    } else {
      assert s[..|s| - 1][..i] == s[..i];
      WithPrefix(s[..|s| - 1], i, r, d);
    }
  }

  // ---------------------------------------------------------------- a pass permutes

  lemma {:induction false} WithCount(s: seq<Command>, r: nat, d: nat, x: Command)
    ensures multiset(With(s, r, d))[x] == if Digit(x, r) == d then multiset(s)[x] else 0
  {
    if s != [] {
      assert s == s[..|s| - 1] + [s[|s| - 1]];
      WithCount(s[..|s| - 1], r, d, x);
    }
  }

  lemma NoBucket(s: seq<Command>, r: nat)
    ensures Buckets(s, r, 0) == []
  {
  }

  lemma NextBucket(s: seq<Command>, r: nat, d: nat)
    ensures Buckets(s, r, d + 1) == Buckets(s, r, d) + With(s, r, d)
  {
  }

  lemma {:induction false} BucketsCount(s: seq<Command>, r: nat, d: nat, x: Command)
    ensures multiset(Buckets(s, r, d))[x] == if Digit(x, r) < d then multiset(s)[x] else 0
  {
    hide With;
    hide Digit;
    NoBucket(s, r);
    hide Buckets;
    if d > 0 {
      NextBucket(s, r, d - 1);
      BucketsCount(s, r, d - 1, x);
      WithCount(s, r, d - 1, x);
    }
  }

  lemma PassPermutes(s: seq<Command>, r: nat)
    ensures multiset(Pass(s, r)) == multiset(s) && |Pass(s, r)| == |s|
  {
    forall x: Command ensures multiset(Pass(s, r))[x] == multiset(s)[x] {
      BucketsCount(s, r, 256, x);
    }
    SameItems(Pass(s, r), s);
  }

  lemma SameItems(s: seq<Command>, t: seq<Command>)
    requires forall x: Command :: multiset(s)[x] == multiset(t)[x]
    ensures multiset(s) == multiset(t) && |s| == |t|
  {
    forall x | x in s + t ensures multiset(s)[x] == multiset(t)[x] {
    }
    assert multiset(s) == multiset(t);
    assert |s| == |multiset(s)| && |t| == |multiset(t)|;
  }

  /** How many items have a given byte does not depend on their order. */
  lemma {:induction false} WithSize(s: seq<Command>, t: seq<Command>, r: nat, d: nat)
    requires multiset(s) == multiset(t)
    ensures |With(s, r, d)| == |With(t, r, d)|
  {
    forall x: Command ensures multiset(With(s, r, d))[x] == multiset(With(t, r, d))[x] {
      WithCount(s, r, d, x);
      WithCount(t, r, d, x);
    }
    SameItems(With(s, r, d), With(t, r, d));
  }

  lemma {:induction false} BucketsSize(s: seq<Command>, t: seq<Command>, r: nat, d: nat)
    requires multiset(s) == multiset(t)
    ensures |Buckets(s, r, d)| == |Buckets(t, r, d)|
  {
    hide With;
    NoBucket(s, r);
    NoBucket(t, r);
    hide Buckets;
    if d > 0 {
      NextBucket(s, r, d - 1);
      NextBucket(t, r, d - 1);
      BucketsSize(s, t, r, d - 1);
      WithSize(s, t, r, d - 1);
    }
  }

  // ---------------------------------------------------------------- a pass sorts one more byte

  /** Sorted by the bytes below r. */
  predicate SortedLow(s: seq<Command>, r: nat)
  {
    forall i, j :: 0 <= i < j < |s| ==> Low(s[i], r) <= Low(s[j], r)
  }

  predicate AllDigits(s: seq<Command>, r: nat, d: nat)
  {
    forall i :: 0 <= i < |s| ==> Digit(s[i], r) == d
  }

  /** Each item of With is at most the last one of s, in the order by lower bytes. */
  lemma {:induction false} WithSorted(s: seq<Command>, r: nat, d: nat)
    requires SortedLow(s, r)
    ensures SortedLow(With(s, r, d), r) && AllDigits(With(s, r, d), r, d)
    ensures forall i :: 0 <= i < |With(s, r, d)| ==> Low(With(s, r, d)[i], r) <= Low(s[|s| - 1], r)
  {
    if s != [] {
      WithSorted(s[..|s| - 1], r, d);
    }
  }

  lemma {:induction false} BucketsSorted(s: seq<Command>, r: nat, d: nat)
    requires SortedLow(s, r)
    ensures SortedLow(Buckets(s, r, d), r + 1)
    ensures forall i :: 0 <= i < |Buckets(s, r, d)| ==> Digit(Buckets(s, r, d)[i], r) < d
  {
    if d > 0 {
      BucketsSorted(s, r, d - 1);
      WithSorted(s, r, d - 1);
      var front, last := Buckets(s, r, d - 1), With(s, r, d - 1);
      forall i, j | 0 <= i < j < |front + last| ensures Low((front + last)[i], r + 1) <= Low((front + last)[j], r + 1) {
        LowOrder((front + last)[i], (front + last)[j], r);
      }
    }
  }

  predicate Sorted(s: seq<Command>)
  {
    forall i, j :: 0 <= i < j < |s| ==> s[i] <= s[j]
  }

  /** After n passes the items are sorted modulo 256^n, and the same items. */
  lemma {:induction false} PassesSort(s: seq<Command>, n: nat)
    ensures SortedLow(Passes(s, n), n) && multiset(Passes(s, n)) == multiset(s) && |Passes(s, n)| == |s|
  {
    hide Buckets;
    hide Digit;
    if n > 0 {
      PassesSort(s, n - 1);
      BucketsSorted(Passes(s, n - 1), n - 1, 256);
      PassPermutes(Passes(s, n - 1), n - 1);
    }
  }

  /** All passes sort. */
  lemma AllPassesSort(s: seq<Command>)
    ensures Sorted(Passes(s, RADIX_COUNT)) && multiset(Passes(s, RADIX_COUNT)) == multiset(s)
  {
    PassesSort(s, RADIX_COUNT);
    var t := Passes(s, RADIX_COUNT);
    forall i, j | 0 <= i < j < |t| ensures t[i] <= t[j] {
      LowAll(t[i]);
      LowAll(t[j]);
    }
  }

  lemma LastIsMax(s: seq<Command>, x: Command)
    requires Sorted(s) && x in s
    ensures x <= s[|s| - 1]
  {
  }

  lemma WithoutLast(s: seq<Command>)
    requires s != [] && Sorted(s)
    ensures Sorted(s[..|s| - 1]) && s == s[..|s| - 1] + [s[|s| - 1]]
    ensures multiset(s[..|s| - 1]) == multiset(s) - multiset{s[|s| - 1]}
  {
    assert s == s[..|s| - 1] + [s[|s| - 1]];
  }

  lemma SameMax(s: seq<Command>, t: seq<Command>)
    requires s != [] && t != [] && Sorted(s) && Sorted(t) && multiset(s) == multiset(t)
    ensures s[|s| - 1] == t[|t| - 1]
  {
    var a, b := s[|s| - 1], t[|t| - 1];
    assert a in multiset(t) && b in multiset(s);
    LastIsMax(s, b);
    LastIsMax(t, a);
  }

  /** There is one sorted order of given items. */
  lemma {:induction false} SortedUnique(s: seq<Command>, t: seq<Command>)
    requires Sorted(s) && Sorted(t) && multiset(s) == multiset(t)
    ensures s == t
    decreases |s|
  {
    hide Sorted;
    assert |s| == |multiset(s)| && |t| == |multiset(t)|;
    if s != [] {
      var a, b := s[|s| - 1], t[|t| - 1];
      SameMax(s, t);
      WithoutLast(s);
      WithoutLast(t);
      SortedUnique(s[..|s| - 1], t[..|t| - 1]);
    }
  }
}
