/**
  The three sorts of benchmarks/radix_benchmark.cpp, in place on arrays.  A command is read byte by
  byte as on a little-endian machine.  With fewer than 2^31 items no counter of the histograms wraps.
*/
module RadixSorts {
  import opened Radix

  // ---------------------------------------------------------------- where a pass puts the items

  function Start(s: seq<Command>, r: nat, c: nat): nat
  {
    |Buckets(s, r, c)|
  }

  lemma StartNext(s: seq<Command>, r: nat, c: nat)
    ensures Start(s, r, 0) == 0 && Start(s, r, c + 1) == Start(s, r, c) + |With(s, r, c)|
  {
  }

  lemma {:induction false} StartMonotone(s: seq<Command>, r: nat, c: nat, d: nat)
    requires c <= d
    ensures Start(s, r, c) <= Start(s, r, d)
  {
    if c < d { StartMonotone(s, r, c, d - 1); }
  }

  /** The slot of the j-th item with byte r equal to c. */
  lemma SlotBounds(s: seq<Command>, r: nat, c: nat, j: nat)
    requires c < 256 && j < |With(s, r, c)|
    ensures Start(s, r, c) + j < Start(s, r, c + 1) <= |s|
  {
    StartMonotone(s, r, c + 1, 256);
    PassPermutes(s, r);
  }

  /** No two items share a slot. */
  lemma SlotsApart(s: seq<Command>, r: nat, c: nat, j: nat, d: nat, k: nat)
    requires c < 256 && j < |With(s, r, c)| && d < 256 && k < |With(s, r, d)| && (c != d || j != k)
    ensures Start(s, r, c) + j != Start(s, r, d) + k
  {
    if c < d {
      StartMonotone(s, r, c + 1, d);
    } else if d < c {
      StartMonotone(s, r, d + 1, c);
    }
  }

  /** The j-th item with byte c is in its slot. */
  predicate InSlot(swap: seq<Command>, s: seq<Command>, r: nat, c: nat, j: nat)
    requires j < |With(s, r, c)|
  {
    Start(s, r, c) + j < |swap| && swap[Start(s, r, c) + j] == With(s, r, c)[j]
  }

  /** If `placed` has a j-th item with byte c, the j-th item with byte c is in its slot. */
  predicate Good(swap: seq<Command>, s: seq<Command>, r: nat, placed: seq<Command>, c: nat, j: nat)
  {
    c < 256 && j < |With(placed, r, c)| ==> j < |With(s, r, c)| && InSlot(swap, s, r, c, j)
  }

  /** The first i items are in their slots. */
  ghost predicate Placed(swap: seq<Command>, s: seq<Command>, r: nat, i: nat)
    requires i <= |s|
  {
    forall c: nat, j: nat :: Good(swap, s, r, s[..i], c, j)
  }

  lemma NextWith(s: seq<Command>, r: nat, i: nat, c: nat)
    requires i < |s|
    ensures With(s[..i + 1], r, c) == With(s[..i], r, c) + if Digit(s[i], r) == c then [s[i]] else []
    ensures With(s[..i], r, c) <= With(s[..i + 1], r, c) <= With(s, r, c)
  {
    assert s[..i + 1] == s[..i] + [s[i]];
    WithSnoc(s[..i], s[i], r, c);
    WithPrefix(s, i + 1, r, c);
  }

  /** The next item goes behind those with the same byte that are placed already. */
  lemma NewSlot(s: seq<Command>, r: nat, i: nat)
    requires i < |s|
    ensures var d := Digit(s[i], r); var k := |With(s[..i], r, d)|;
      k < |With(s, r, d)| && With(s, r, d)[k] == s[i] && Start(s, r, d) + k < |s|
  {
    var d := Digit(s[i], r);
    NextWith(s, r, i, d);
    SlotBounds(s, r, d, |With(s[..i], r, d)|);
  }

  lemma PlaceAt(swap: seq<Command>, s: seq<Command>, r: nat, i: nat, slot: nat, c: nat, j: nat)
    requires i < |s| == |swap| && Placed(swap, s, r, i) && c < 256 && j < |With(s[..i + 1], r, c)|
    requires slot == Start(s, r, Digit(s[i], r)) + |With(s[..i], r, Digit(s[i], r))| < |swap|
    ensures j < |With(s, r, c)| && InSlot(swap[slot := s[i]], s, r, c, j)
  {
    var d := Digit(s[i], r);
    var k := |With(s[..i], r, d)|;
    NewSlot(s, r, i);
    NextWith(s, r, i, c);
    hide With;
    hide Start;
    if c != d || j != k {
      assert Good(swap, s, r, s[..i], c, j);
      SlotsApart(s, r, c, j, d, k);
    }
  }

  lemma PlaceOne(swap: seq<Command>, s: seq<Command>, r: nat, i: nat)
    requires i < |s| == |swap| && Placed(swap, s, r, i)
    ensures var c := Digit(s[i], r); var slot := Start(s, r, c) + |With(s[..i], r, c)|;
      slot < |swap| && Placed(swap[slot := s[i]], s, r, i + 1)
  {
    hide With;
    hide Start;
    hide InSlot;
    var d := Digit(s[i], r);
    NewSlot(s, r, i);
    var slot := Start(s, r, d) + |With(s[..i], r, d)|;
    var next := s[..i + 1];
    var swap' := swap[slot := s[i]];
    forall c: nat, j: nat ensures Good(swap', s, r, next, c, j) {
      if c < 256 && j < |With(next, r, c)| { PlaceAt(swap, s, r, i, slot, c, j); }
    }
  }

  /** When all items are in their slots, the pass is over. */
  lemma {:induction false} AllPlaced(swap: seq<Command>, s: seq<Command>, r: nat, c: nat)
    requires |swap| == |s| && Placed(swap, s, r, |s|) && c <= 256
    ensures Start(s, r, c) <= |swap| && swap[..Start(s, r, c)] == Buckets(s, r, c)
  {
    hide With;
    NoBucket(s, r);
    StartMonotone(s, r, c, 256);
    PassPermutes(s, r);
    hide Buckets;
    if c > 0 {
      AllPlaced(swap, s, r, c - 1);
      assert s[..|s|] == s;
      NextBucket(s, r, c - 1);
      var front, last := Buckets(s, r, c - 1), With(s, r, c - 1);
      forall k | 0 <= k < |front + last| ensures swap[k] == (front + last)[k] {
        if k >= |front| { assert Good(swap, s, r, s[..|s|], c - 1, k - |front|); } else { assert swap[k] == swap[..|front|][k]; }
      }
    }
  }

  // ---------------------------------------------------------------- the loops of a pass

  /** "histograph hit count" */
  method CountHits(items: array<Command>, r: nat, histogram: array<nat>)
    requires histogram.Length == 256
    modifies histogram
    ensures forall c :: 0 <= c < 256 ==> histogram[c] == |With(items[..], r, c)|
  {
    for c := 0 to 256
      invariant forall d :: 0 <= d < c ==> histogram[d] == 0
    {
      histogram[c] := 0;
    }
    for i := 0 to items.Length
      invariant forall c :: 0 <= c < 256 ==> histogram[c] == |With(items[..i], r, c)|
    {
      assert items[..i + 1] == items[..i] + [items[i]];
      forall c | 0 <= c < 256 ensures |With(items[..i + 1], r, c)| == |With(items[..i], r, c)| + if Digit(items[i], r) == c then 1 else 0 {
        WithSnoc(items[..i], items[i], r, c);
      }
      var digit := Digit(items[i], r);
      histogram[digit] := histogram[digit] + 1;
    }
    assert items[..items.Length] == items[..];
  }

  /** "histograph offsets" */
  method ToOffsets(histogram: array<nat>, ghost s: seq<Command>, r: nat)
    requires histogram.Length == 256 && forall c :: 0 <= c < 256 ==> histogram[c] == |With(s, r, c)|
    modifies histogram
    ensures forall c :: 0 <= c < 256 ==> histogram[c] == Start(s, r, c)
  {
    ghost var hits, starts := histogram[..], seq(257, c requires 0 <= c => Start(s, r, c));
    StartNext(s, r, 0);
    forall c | 0 <= c < 256 ensures starts[c + 1] == starts[c] + hits[c] { StartNext(s, r, c); }
    hide Start;
    hide With;
    var offset := 0;
    for c := 0 to 256
      invariant offset == starts[c]
      invariant forall d :: 0 <= d < c ==> histogram[d] == starts[d]
      invariant forall d :: c <= d < 256 ==> histogram[d] == hits[d]
    {
      var count := histogram[c];
      histogram[c] := offset;
      offset := offset + count;
      assert starts[c + 1] == starts[c] + hits[c];
    }
  }

  /** "swap values": every item goes to the next slot of its byte. */
  method Scatter(items: array<Command>, swap: array<Command>, histogram: array<nat>, r: nat)
    requires histogram.Length == 256 && swap.Length == items.Length && swap != items
    requires forall c :: 0 <= c < 256 ==> histogram[c] == Start(items[..], r, c)
    modifies swap, histogram
    ensures swap[..] == Pass(items[..], r)
  {
    ghost var s := items[..];
    for i := 0 to items.Length
      invariant items[..] == s && Placed(swap[..], s, r, i)
      invariant forall c :: 0 <= c < 256 ==> histogram[c] == Start(s, r, c) + |With(s[..i], r, c)|
    {
      forall c: nat ensures With(s[..i + 1], r, c) == With(s[..i], r, c) + if Digit(s[i], r) == c then [s[i]] else [] {
        NextWith(s, r, i, c);
      }
      PlaceOne(swap[..], s, r, i);
      hide Placed;
      var digit := Digit(items[i], r);
      var index := histogram[digit];
      histogram[digit] := index + 1;
      swap[index] := items[i];
    }
    AllPlaced(swap[..], s, r, 256);
    PassPermutes(s, r);
  }

  lemma NextPass(s: seq<Command>, n: nat)
    ensures Passes(s, 0) == s && Passes(s, n + 1) == Pass(Passes(s, n), n)
  {
  }

  // ---------------------------------------------------------------- reference_radix

  class ReferenceRadix {
    const swap: array<Command>
    const histogram: array<nat>

    constructor (capacity: nat)
      ensures fresh(swap) && fresh(histogram) && swap.Length == capacity && histogram.Length == 256
    {
      swap := new Command[capacity];
      histogram := new nat[256];
    }

    /** sort.  `reserve` has given swap the size of the items.  The vectors are exchanged an even number of times, so
        that each ends up with its own buffer. */
    method Sort(items: array<Command>)
      requires swap.Length == items.Length && items.Length < 0x8000_0000 && swap != items && histogram.Length == 256
      modifies items, swap, histogram
      ensures items[..] == Passes(old(items[..]), RADIX_COUNT)
      ensures Sorted(items[..]) && multiset(items[..]) == multiset(old(items[..]))
    {
      hide Passes;
      hide Pass;
      hide With;
      hide Start;
      hide Sorted;
      AllPassesSort(items[..]);
      NextPass(items[..], 0);
      ghost var s := items[..];
      var source, target := items, swap;
      for radix := 0 to RADIX_COUNT
        invariant source == (if radix % 2 == 0 then items else swap)
        invariant target == (if radix % 2 == 0 then swap else items)
        invariant source[..] == Passes(s, radix)
      {
        NextPass(s, radix);
        CountHits(source, radix, histogram);
        ToOffsets(histogram, source[..], radix);
        Scatter(source, target, histogram, radix);
        source, target := target, source;
      }
    }
  }

  // ---------------------------------------------------------------- shortcut_radix

  /** x goes behind the last item that is not greater. */
  function Insert(s: seq<Command>, x: Command): seq<Command>
  {
    if s == [] || s[|s| - 1] <= x then s + [x] else Insert(s[..|s| - 1], x) + [s[|s| - 1]]
  }

  function InsertAll(s: seq<Command>): (t: seq<Command>)
    ensures |t| == |s|
  {
    if s == [] then [] else
    var t := Insert(InsertAll(s[..|s| - 1]), s[|s| - 1]);
    InsertItems(InsertAll(s[..|s| - 1]), s[|s| - 1]);
    t
  }

  lemma {:induction false} InsertItems(s: seq<Command>, x: Command)
    ensures multiset(Insert(s, x)) == multiset(s) + multiset{x} && |Insert(s, x)| == |s| + 1
  {
    if s != [] && s[|s| - 1] > x {
      InsertItems(s[..|s| - 1], x);
      assert s == s[..|s| - 1] + [s[|s| - 1]];
    }
  }

  lemma {:induction false} InsertSorted(s: seq<Command>, x: Command)
    requires Sorted(s)
    ensures Sorted(Insert(s, x))
    ensures forall i :: 0 <= i < |Insert(s, x)| ==> Insert(s, x)[i] == x || Insert(s, x)[i] <= s[|s| - 1]
  {
    if s != [] && s[|s| - 1] > x {
      InsertSorted(s[..|s| - 1], x);
    }
  }

  lemma {:induction false} InsertAllSorts(s: seq<Command>)
    ensures Sorted(InsertAll(s)) && multiset(InsertAll(s)) == multiset(s)
  {
    if s != [] {
      var front, x := s[..|s| - 1], s[|s| - 1];
      InsertAllSorts(front);
      InsertSorted(InsertAll(front), x);
      InsertItems(InsertAll(front), x);
      assert s == front + [x];
    }
  }

  /** The short path and the long one give the same sequence. */
  lemma InsertAllIsRadix(s: seq<Command>)
    ensures InsertAll(s) == Passes(s, RADIX_COUNT)
  {
    InsertAllSorts(s);
    AllPassesSort(s);
    SortedUnique(InsertAll(s), Passes(s, RADIX_COUNT));
  }

  /** x at place j of the items that were sorted before it, with only greater ones behind it. */
  function Sinking(s: seq<Command>, x: Command, j: nat): seq<Command>
    requires j <= |s|
  {
    s[..j] + [x] + s[j..]
  }

  lemma {:induction false} Sunk(s: seq<Command>, x: Command, j: nat)
    requires j <= |s| && (j == 0 || s[j - 1] <= x) && forall k :: j <= k < |s| ==> s[k] > x
    ensures Sinking(s, x, j) == Insert(s, x)
    decreases |s|
  {
    if j < |s| {
      var front, last := s[..|s| - 1], s[|s| - 1];
      Sunk(front, x, j);
      assert s[j..] == front[j..] + [last] && s[..j] == front[..j];
    } else {
      assert s[..j] == s && s[j..] == [];
    }
  }

  /** The inner loop of sort_insert: item i sinks into the sorted items before it. */
  method Sink(items: array<Command>, i: nat, ghost before: seq<Command>)
    requires i < items.Length && |before| == i && items[..i] == before
    modifies items
    ensures items[..i + 1] == Insert(before, old(items[i])) && items[i + 1..] == old(items[i + 1..])
  {
    ghost var x := items[i];
    var j := i;
    while j > 0 && items[j - 1] > items[j]
      invariant j <= i && items[j] == x && items[i + 1..] == old(items[i + 1..])
      invariant forall k :: 0 <= k < j ==> items[k] == before[k]
      invariant forall k :: j <= k < i ==> before[k] > x && items[k + 1] == before[k]
    {
      items[j - 1], items[j] := items[j], items[j - 1];
      j := j - 1;
    }
    Sunk(before, x, j);
    assert items[..i + 1] == Sinking(before, x, j);
  }

  method SortInsert(items: array<Command>)
    modifies items
    ensures items[..] == InsertAll(old(items[..]))
  {
    ghost var s := items[..];
    var len := items.Length;
    if len < 2 {
      return;
    }
    var i := 1;
    while i < len
      invariant 1 <= i <= len && items[..i] == InsertAll(s[..i]) && items[i..] == s[i..]
    {
      assert items[i] == items[i..][0] && s[i] == s[i..][0];
      assert s[..i + 1][..i] == s[..i];
      Sink(items, i, InsertAll(s[..i]));
      assert s[i + 1..] == s[i..][1..];
      i := i + 1;
    }
    assert items[..len] == items[..] && s[..len] == s;
  }

  class ShortcutRadix {
    const radix: ReferenceRadix

    constructor (capacity: nat)
      ensures fresh(radix) && fresh(radix.swap) && fresh(radix.histogram) && radix.swap.Length == capacity
      ensures radix.histogram.Length == 256
    {
      radix := new ReferenceRadix(capacity);
    }

    /** sort: short inputs are sorted by insertion, longer ones as by the reference. */
    method Sort(items: array<Command>)
      requires radix.swap.Length == items.Length && items.Length < 0x8000_0000 && radix.swap != items
      requires radix.histogram.Length == 256
      modifies items, radix.swap, radix.histogram
      ensures items[..] == Passes(old(items[..]), RADIX_COUNT)
    {
      InsertAllIsRadix(items[..]);
      if items.Length < 64 {
        SortInsert(items);
      } else {
        radix.Sort(items);
      }
    }
  }

  // ---------------------------------------------------------------- precalc_shortcut_radix

  /** Eight histograms taken from the order at the start stay the right ones, as the items are only permuted. */
  lemma OffsetsStay(s: seq<Command>, n: nat, r: nat, c: nat)
    ensures Start(Passes(s, n), r, c) == Start(s, r, c)
  {
    PassesSort(s, n);
    BucketsSize(Passes(s, n), s, r, c);
  }

  class PrecalcShortcutRadix {
    const swap: array<Command>
    const histograms: seq<array<nat>>

    ghost predicate Ready(items: array<Command>)
    {
      && swap.Length == items.Length && items.Length < 0x8000_0000 && swap != items && |histograms| == RADIX_COUNT
      && (forall r :: 0 <= r < RADIX_COUNT ==> histograms[r].Length == 256)
      && (forall r, q :: 0 <= r < q < RADIX_COUNT ==> histograms[r] != histograms[q])
    }

    constructor (capacity: nat)
      ensures fresh(swap) && swap.Length == capacity && |histograms| == RADIX_COUNT
      ensures forall r :: 0 <= r < RADIX_COUNT ==> fresh(histograms[r]) && histograms[r].Length == 256
      ensures forall r, q :: 0 <= r < q < RADIX_COUNT ==> histograms[r] != histograms[q]
    {
      swap := new Command[capacity];
      var all: seq<array<nat>> := [];
      for r := 0 to RADIX_COUNT
        invariant |all| == r && (forall q :: 0 <= q < r ==> fresh(all[q]) && all[q].Length == 256)
        invariant forall p, q :: 0 <= p < q < r ==> all[p] != all[q]
      {
        var histogram := new nat[256];
        all := all + [histogram];
      }
      histograms := all;
    }

    /** "precalc histograph": every item counts in all eight histograms. */
    method CountAll(items: array<Command>)
      requires Ready(items)
      modifies histograms
      ensures forall r, c :: 0 <= r < RADIX_COUNT && 0 <= c < 256 ==> histograms[r][c] == |With(items[..], r, c)|
    {
      for r := 0 to RADIX_COUNT
        invariant forall q, c :: 0 <= q < r && 0 <= c < 256 ==> histograms[q][c] == 0
      {
        for c := 0 to 256
          invariant forall d :: 0 <= d < c ==> histograms[r][d] == 0
          invariant forall q, d :: 0 <= q < r && 0 <= d < 256 ==> histograms[q][d] == 0
        {
          histograms[r][c] := 0;
        }
      }
      for i := 0 to items.Length
        invariant forall r, c :: 0 <= r < RADIX_COUNT && 0 <= c < 256 ==> histograms[r][c] == |With(items[..i], r, c)|
      {
        CountOne(items, i);
      }
      assert items[..items.Length] == items[..];
    }

    method CountOne(items: array<Command>, i: nat)
      requires Ready(items) && i < items.Length
      requires forall r, c :: 0 <= r < RADIX_COUNT && 0 <= c < 256 ==> histograms[r][c] == |With(items[..i], r, c)|
      modifies histograms
      ensures forall r, c :: 0 <= r < RADIX_COUNT && 0 <= c < 256 ==> histograms[r][c] == |With(items[..i + 1], r, c)|
    {
      ghost var s := items[..];
      forall r: nat, c: nat ensures With(s[..i + 1], r, c) == With(s[..i], r, c) + if Digit(s[i], r) == c then [s[i]] else [] {
        NextWith(s, r, i, c);
      }
      assert items[..i] == s[..i] && items[..i + 1] == s[..i + 1];
      for radix := 0 to RADIX_COUNT
        invariant forall r, c :: 0 <= r < radix && 0 <= c < 256 ==> histograms[r][c] == |With(s[..i + 1], r, c)|
        invariant forall r, c :: radix <= r < RADIX_COUNT && 0 <= c < 256 ==> histograms[r][c] == |With(s[..i], r, c)|
      {
        var digit := Digit(items[i], radix);
        histograms[radix][digit] := histograms[radix][digit] + 1;
      }
    }

    method SortRadix(items: array<Command>)
      requires Ready(items)
      modifies items, swap, histograms
      ensures items[..] == Passes(old(items[..]), RADIX_COUNT)
    {
      hide Passes;
      hide Pass;
      hide With;
      hide Start;
      hide Sorted;
      ghost var s := items[..];
      NextPass(s, 0);
      CountAll(items);
      for r := 0 to RADIX_COUNT
        invariant items[..] == s
        invariant forall q, c :: 0 <= q < r && 0 <= c < 256 ==> histograms[q][c] == Start(s, q, c)
        invariant forall q, c :: r <= q < RADIX_COUNT && 0 <= c < 256 ==> histograms[q][c] == |With(s, q, c)|
      {
        ToOffsets(histograms[r], s, r);
      }
      var source, target := items, swap;
      for radix := 0 to RADIX_COUNT
        invariant source == (if radix % 2 == 0 then items else swap)
        invariant target == (if radix % 2 == 0 then swap else items)
        invariant source[..] == Passes(s, radix)
        invariant forall q, c :: radix <= q < RADIX_COUNT && 0 <= c < 256 ==> histograms[q][c] == Start(s, q, c)
      {
        NextPass(s, radix);
        forall c: nat ensures Start(Passes(s, radix), radix, c) == Start(s, radix, c) {
          OffsetsStay(s, radix, radix, c);
        }
        Scatter(source, target, histograms[radix], radix);
        source, target := target, source;
      }
    }

    /** sort: the same result as the reference on every input. */
    method Sort(items: array<Command>)
      requires Ready(items)
      modifies items, swap, histograms
      ensures items[..] == Passes(old(items[..]), RADIX_COUNT)
    {
      InsertAllIsRadix(items[..]);
      if items.Length < 64 {
        SortInsert(items);
      } else {
        SortRadix(items);
      }
    }
  }
}
