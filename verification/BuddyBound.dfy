/** How many free blocks a buddy page can have at once: the size given to its node pool is enough. */
module BuddyBound {
  import opened Sequences
  import opened Bits
  import opened BuddyHeap

  /** The number of entries in the first n level lists. */
  function Entries(lists: seq<seq<nat>>, n: nat): nat
    requires n <= |lists|
  {
    if n == 0 then 0 else Entries(lists, n - 1) + |lists[n - 1]|
  }

  lemma {:induction false} EntriesUpdate(lists: seq<seq<nat>>, n: nat, l: nat, s: seq<nat>)
    requires l < |lists| && n <= |lists|
    ensures Entries(lists[l := s], n) == Entries(lists, n) + (if l < n then |s| - |lists[l]| else 0)
  {
    if n > 0 { EntriesUpdate(lists, n - 1, l, s); }
  }

  ghost function FreeBelow(h: Heap, n: nat): set<nat>
  {
    set u | u in h.blocks && h.blocks[u].free && h.blocks[u].level < n
  }

  ghost function Elements(s: seq<nat>): set<nat>
  {
    set x | x in s
  }

  lemma {:induction false} ListSize(s: seq<nat>)
    requires NoDup(s)
    ensures |Elements(s)| == |s|
  {
    if s != [] {
      var t, e := s[..|s|-1], s[|s|-1];
      ListSize(t);
      assert s == t + [e];
      assert e !in t;
      assert Elements(s) == Elements(t) + {e};
    }
  }

  lemma {:induction false} EntriesCountFree(h: Heap, n: nat)
    requires Listed(h) && n <= h.top + 1
    ensures Entries(h.lists, n) == |FreeBelow(h, n)|
  {
    if n == 0 {
      assert FreeBelow(h, 0) == {};
    } else {
      EntriesCountFree(h, n - 1);
      var s := Elements(h.lists[n - 1]);
      ListSize(h.lists[n - 1]);
      forall u: nat ensures u in s <==> FreeAt(h.blocks, u, n - 1) {
        assert u in h.lists[n - 1] <==> FreeAt(h.blocks, u, n - 1);
      }
      assert FreeBelow(h, n) == FreeBelow(h, n - 1) + s;
      assert FreeBelow(h, n - 1) !! s;
    }
  }

  lemma AtLeastTwo(l: nat)
    ensures l > 0 ==> Pow2(l) >= 2
  {
  }

  lemma OddStart(v: nat, l: nat)
    requires Aligned(v, l) && v % 2 == 1
    ensures l == 0
  {
  }

  /** Two blocks that start in the same pair of units are buddies of the lowest level. */
  lemma SamePair(h: Heap, u: nat, v: nat)
    requires Tiled(h.top, h.blocks) && u in h.blocks && v in h.blocks && u < v && u / 2 == v / 2
    ensures h.blocks[u].level == 0 && h.blocks[v].level == 0 && Buddy(u, 0) == v
  {
    assert Within(h.top, v, h.blocks[v].level) && Within(h.top, u, h.blocks[u].level);
    assert u % 2 == 0 && v == u + 1;
    assert Aligned(u, 1);
    OddStart(v, h.blocks[v].level);
    AtLeastTwo(h.blocks[u].level);
  }

  /** Two different free blocks start in different pairs of units. */
  lemma FreePairsDiffer(h: Heap, u: nat, v: nat)
    requires Valid(h) && h.top >= 1 && u < v
    requires u in h.blocks && h.blocks[u].free && v in h.blocks && h.blocks[v].free
    ensures u / 2 != v / 2
  {
    if u / 2 == v / 2 { SamePair(h, u, v); }
  }

  lemma {:induction false} HalvesDistinct(s: set<nat>, bound: nat)
    requires forall u :: u in s ==> u / 2 < bound
    requires forall u, v :: u in s && v in s && u < v ==> u / 2 != v / 2
    ensures |s| <= bound
    decreases bound
  {
    if bound == 0 {
      assert s == {};
    } else {
      var rest := s;
      if u :| u in s && u / 2 == bound - 1 {
        rest := s - {u};
        forall v | v in rest ensures v / 2 < bound - 1 {
          assert if u < v then u / 2 != v / 2 else v / 2 != u / 2;
        }
      }
      HalvesDistinct(rest, bound - 1);
    }
  }

  /** At most capacity / 64 blocks are free, whatever the page has been through. */
  lemma FreeBlocksBound(h: Heap)
    requires Valid(h) && h.top >= 1
    ensures Entries(h.lists, h.top + 1) <= Pow2(h.top - 1)
  {
    EntriesCountFree(h, h.top + 1);
    var s := FreeBelow(h, h.top + 1);
    assert Pow2(h.top) == 2 * Pow2(h.top - 1);
    forall u | u in s ensures u / 2 < Pow2(h.top - 1) {
      assert Within(h.top, u, h.blocks[u].level);
    }
    forall u, v | u in s && v in s && u < v ensures u / 2 != v / 2 {
      FreePairsDiffer(h, u, v);
    }
    HalvesDistinct(s, Pow2(h.top - 1));
  }
}
