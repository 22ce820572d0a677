/**
  The compile-time quicksort and balanced search of binary_search.cpp, on the ids of the items.

  Templates that recurse over type sequences become recursive functions on sequences.
*/
module SearchTree {
  import opened Bits

  /** An id: uint32_t. */
  type Id = x: nat | x < 0x1_0000_0000

  /** details::filter with the predicate less, or with not_op of it. */
  function Filter(top: Id, less: bool, s: seq<Id>): (t: seq<Id>)
    ensures |t| <= |s|
  {
    if s == [] then []
    else (if (s[0] < top) == less then [s[0]] else []) + Filter(top, less, s[1..])
  }

  /** seq_sort */
  function Sort(s: seq<Id>): seq<Id>
    decreases |s|
  {
    if |s| <= 1 then s
    else Sort(Filter(s[0], true, s[1..])) + ([s[0]] + Sort(Filter(s[0], false, s[1..])))
  }

  /** seq_split_left: move items over until there are n on the left. */
  function SplitLeft(n: nat, left: seq<Id>, right: seq<Id>): seq<Id>
    decreases |right|
  {
    if right == [] then left
    else if |left| < n then SplitLeft(n, left + [right[0]], right[1..])
    else left
  }

  /** seq_split_right: drop items until at most n are left, and at least one. */
  function SplitRight(n: nat, s: seq<Id>): seq<Id>
    decreases |s|
  {
    if s == [] then []
    else if |s| - 1 > n then SplitRight(n, s[1..])
    else s[1..]
  }

  function First(s: seq<Id>): seq<Id>
  {
    SplitLeft(|s| / 2, [], s)
  }

  function Second(s: seq<Id>): seq<Id>
  {
    SplitRight(|s| - |s| / 2, s)
  }

  // ---------------------------------------------------------------- splitting

  lemma {:induction false} SplitLeftIs(n: nat, left: seq<Id>, right: seq<Id>)
    requires |left| <= n <= |left| + |right|
    ensures SplitLeft(n, left, right) == (left + right)[..n]
    decreases |right|
  {
    if right != [] && |left| < n {
      SplitLeftIs(n, left + [right[0]], right[1..]);
      assert left + [right[0]] + right[1..] == left + right;
    }
  }

  lemma {:induction false} SplitRightIs(n: nat, s: seq<Id>)
    requires n < |s|
    ensures SplitRight(n, s) == s[|s| - n..]
    decreases |s|
  {
    if |s| - 1 > n { SplitRightIs(n, s[1..]); }
  }

  /** The halves of two or more items give back the list; those of a single item are both empty. */
  lemma HalvesJoin(s: seq<Id>)
    ensures |s| >= 2 ==> First(s) + Second(s) == s && |First(s)| == |s| / 2 && |Second(s)| == |s| - |s| / 2
    ensures |s| == 1 ==> First(s) == Second(s) == []
  {
    if |s| >= 2 { TwoHalves(s); }
  }

  lemma TwoHalves(s: seq<Id>)
    requires |s| >= 2
    ensures First(s) + Second(s) == s && |First(s)| == |s| / 2
  {
    hide SplitLeft;
    hide SplitRight;
    SplitLeftIs(|s| / 2, [], s);
    assert [] + s == s;
    SplitRightIs(|s| - |s| / 2, s);
  }

  // ---------------------------------------------------------------- sorting

  predicate Sorted(s: seq<Id>)
  {
    forall i, j :: 0 <= i < j < |s| ==> s[i] <= s[j]
  }

  lemma {:induction false} FilterItems(top: Id, s: seq<Id>)
    ensures multiset(Filter(top, true, s)) + multiset(Filter(top, false, s)) == multiset(s)
  {
    if s != [] {
      FilterItems(top, s[1..]);
      assert s == [s[0]] + s[1..];
    }
  }

  lemma {:induction false} FilterSide(top: Id, less: bool, s: seq<Id>)
    ensures forall i :: 0 <= i < |Filter(top, less, s)| ==> (Filter(top, less, s)[i] < top) == less
  {
    if s != [] { FilterSide(top, less, s[1..]); }
  }

  lemma SameMembers(s: seq<Id>, t: seq<Id>)
    requires multiset(s) == multiset(t)
    ensures |s| == |t| && forall i :: 0 <= i < |s| ==> s[i] in t
  {
    assert |multiset(s)| == |multiset(t)|;
    forall i | 0 <= i < |s| ensures s[i] in t { assert s[i] in multiset(t); }
  }

  /** Everything on the left of the pivot is below it, nothing on the right is. */
  lemma JoinSorted(a: seq<Id>, top: Id, b: seq<Id>)
    requires Sorted(a) && Sorted(b) && (forall i :: 0 <= i < |a| ==> a[i] <= top)
    requires forall i :: 0 <= i < |b| ==> top <= b[i]
    ensures Sorted(a + ([top] + b))
  {
  }

  lemma {:induction false} SortSorts(s: seq<Id>)
    ensures Sorted(Sort(s)) && multiset(Sort(s)) == multiset(s)
    decreases |s|
  {
    if |s| > 1 {
      var top, rest := s[0], s[1..];
      var below, above := Filter(top, true, rest), Filter(top, false, rest);
      SortSorts(below);
      SortSorts(above);
      FilterItems(top, rest);
      SortedSides(top, rest);
      JoinSorted(Sort(below), top, Sort(above));
      assert s == [top] + rest;
    }
  }

  lemma MembersSide(t: seq<Id>, u: seq<Id>, top: Id, less: bool)
    requires multiset(t) == multiset(u) && forall i :: 0 <= i < |u| ==> (u[i] < top) == less
    ensures forall i :: 0 <= i < |t| ==> (t[i] < top) == less
  {
    SameMembers(t, u);
  }

  lemma SortedSides(top: Id, rest: seq<Id>)
    requires multiset(Sort(Filter(top, true, rest))) == multiset(Filter(top, true, rest))
    requires multiset(Sort(Filter(top, false, rest))) == multiset(Filter(top, false, rest))
    ensures forall i :: 0 <= i < |Sort(Filter(top, true, rest))| ==> Sort(Filter(top, true, rest))[i] < top
    ensures forall i :: 0 <= i < |Sort(Filter(top, false, rest))| ==> top <= Sort(Filter(top, false, rest))[i]
  {
    hide Sort;
    hide Filter;
    FilterSide(top, true, rest);
    FilterSide(top, false, rest);
    MembersSide(Sort(Filter(top, true, rest)), Filter(top, true, rest), top, true);
    MembersSide(Sort(Filter(top, false, rest)), Filter(top, false, rest), top, false);
  }

  // ---------------------------------------------------------------- searching

  /** A key: int. */
  type Key = x: int | -0x8000_0000 <= x < 0x8000_0000

  /** comparer::compare: an unsigned difference, converted to int32_t. */
  function Compare(key: Key, id: Id): int
  {
    var d := (key - id) % 0x1_0000_0000;
    if d < 0x8000_0000 then d else d - 0x1_0000_0000
  }

  /** What search does: its result, the ids it compared with, and the keys it called back with. */
  datatype Search = Search(found: bool, visited: seq<Id>, calls: seq<Key>)

  /** map_node::search on the tree that the list stands for. */
  function Find(s: seq<Id>, key: Key): Search
    decreases |s|
  {
    if s == [] then Search(false, [], [])
    else if |s| == 1 then
      if Compare(key, s[0]) == 0 then Search(true, [s[0]], [key]) else Search(false, [s[0]], [])
    else
      HalvesJoin(s);
      var root := Second(s)[0];
      var c := Compare(key, root);
      if c == 0 then Search(true, [root], [key])
      else
        var below := Find(if c < 0 then First(s) else Second(s)[1..], key);
        below.(visited := [root] + below.visited)
  }

  /** The key as the comparison takes it: uint32_t. */
  function Word(key: Key): (id: Id)
    ensures 0 <= key ==> id == key
  {
    key % 0x1_0000_0000
  }

  predicate SameSign(a: int, b: int)
  {
    (a < 0 <==> b < 0) && (a == 0 <==> b == 0)
  }

  /** The comparison tells the order of key and id exactly when their difference fits int32_t. */
  lemma CompareTells(key: Key, id: Id)
    ensures SameSign(Compare(key, id), Word(key) - id) <==> Fits(Word(key), id)
    ensures Compare(key, id) == 0 <==> Word(key) == id
  {
  }

  predicate Fits(word: Id, id: Id)
  {
    -0x8000_0000 <= word - id < 0x8000_0000
  }

  /** The ids on the way from the root to the place of an id, in their true order. */
  function Way(s: seq<Id>, word: Id): seq<Id>
    decreases |s|
  {
    if |s| <= 1 then s
    else
      HalvesJoin(s);
      var root := Second(s)[0];
      [root] + if word == root then [] else Way(if word < root then First(s) else Second(s)[1..], word)
  }

  predicate WayFits(s: seq<Id>, word: Id)
  {
    forall i :: 0 <= i < |Way(s, word)| ==> Fits(word, Way(s, word)[i])
  }

  lemma PartsSorted(a: seq<Id>, b: seq<Id>)
    requires Sorted(a + b)
    ensures Sorted(a) && Sorted(b) && forall i, j :: 0 <= i < |a| && 0 <= j < |b| ==> a[i] <= b[j]
  {
    assert forall i :: 0 <= i < |a| ==> (a + b)[i] == a[i];
    forall i, j | 0 <= i < j < |b| ensures b[i] <= b[j] {
      assert (a + b)[|a| + i] == b[i] && (a + b)[|a| + j] == b[j];
    }
    forall i, j | 0 <= i < |a| && 0 <= j < |b| ensures a[i] <= b[j] {
      assert (a + b)[|a| + j] == b[j];
    }
  }

  /** In a sorted list an id is on its side of the root, and nowhere else. */
  lemma SideOfRoot(a: seq<Id>, b: seq<Id>, id: Id)
    requires Sorted(a + b) && b != []
    ensures Sorted(a) && Sorted(b[1..])
    ensures id == b[0] ==> id in a + b
    ensures id < b[0] ==> (id in a + b <==> id in a) && id !in b[1..]
    ensures id > b[0] ==> (id in a + b <==> id in b[1..]) && id !in a
  {
    PartsSorted(a, b);
    assert b == [b[0]] + b[1..];
    PartsSorted([b[0]], b[1..]);
    assert forall x :: x in a + b <==> x in a || x == b[0] || x in b[1..];
  }

  lemma {:induction false} FoundIsMember(s: seq<Id>, key: Key)
    requires Find(s, key).found
    ensures Word(key) in s
    decreases |s|
  {
    if |s| >= 2 {
      HalvesJoin(s);
      var root := Second(s)[0];
      CompareTells(key, root);
      assert s == First(s) + ([root] + Second(s)[1..]);
      if Compare(key, root) < 0 {
        FoundIsMember(First(s), key);
      } else if Compare(key, root) > 0 {
        FoundIsMember(Second(s)[1..], key);
      }
    } else {
      CompareTells(key, s[0]);
    }
  }

  lemma WayFitsParts(root: Id, rest: seq<Id>, word: Id)
    ensures (forall i :: 0 <= i < |[root] + rest| ==> Fits(word, ([root] + rest)[i]))
      <==> Fits(word, root) && forall i :: 0 <= i < |rest| ==> Fits(word, rest[i])
  {
    var all := [root] + rest;
    if forall i :: 0 <= i < |all| ==> Fits(word, all[i]) {
      assert Fits(word, all[0]);
      forall i | 0 <= i < |rest| ensures Fits(word, rest[i]) { assert all[i + 1] == rest[i]; }
    }
  }

  /** On a sorted list search finds exactly the ids in it that have no id on their way from which they differ too much;
      it then visits the ids on the way, and calls back once if it finds the key. */
  lemma {:induction false} FindIsMembership(s: seq<Id>, key: Key)
    requires Sorted(s)
    ensures var r := Find(s, key);
      && (r.found <==> Word(key) in s && WayFits(s, Word(key)))
      && r.calls == (if r.found then [key] else [])
      && (WayFits(s, Word(key)) ==> r.visited == Way(s, Word(key)))
    decreases |s|
  {
    var word := Word(key);
    if |s| >= 2 {
      HalvesJoin(s);
      SideOfRoot(First(s), Second(s), word);
      var root := Second(s)[0];
      CompareTells(key, root);
      var below := if Compare(key, root) < 0 then First(s) else Second(s)[1..];
      var side := if word < root then First(s) else Second(s)[1..];
      hide Second;
      hide First;
      hide Compare;
      hide Word;
      if word != root {
        FindIsMembership(below, key);
        WayFitsParts(root, Way(side, word), word);
        assert Way(s, word) == [root] + Way(side, word);
        assert WayFits(s, word) <==> Fits(word, root) && WayFits(side, word);
        assert Fits(word, root) ==> below == side;
        assert !Fits(word, root) ==> word !in below;
      } else {
        WayFitsParts(root, [], word);
      }
    } else if s != [] {
      CompareTells(key, s[0]);
    }
  }

  /** No search looks at more than floor (log2 n) + 1 items, whatever the comparisons say. */
  lemma {:induction false} FindDepth(s: seq<Id>, key: Key)
    ensures |Find(s, key).visited| <= if s == [] then 0 else Log2(|s|) + 1
    decreases |s|
  {
    if |s| >= 2 {
      HalvesJoin(s);
      var next := if Compare(key, Second(s)[0]) < 0 then First(s) else Second(s)[1..];
      FindDepth(next, key);
      if next != [] { Log2Monotone(|next|, |s| / 2); }
    }
  }

  /** map <seq, less>::search: the same for any sequence, with one callback and a logarithmic number of nodes. */
  lemma SearchIsRight(s: seq<Id>, key: Key)
    ensures var r := Find(Sort(s), key);
      && (r.found <==> Word(key) in s && WayFits(Sort(s), Word(key)))
      && r.calls == (if r.found then [key] else [])
      && |r.visited| <= if s == [] then 0 else Log2(|s|) + 1
  {
    SortSorts(s);
    SameMembers(s, Sort(s));
    SameMembers(Sort(s), s);
    FindIsMembership(Sort(s), key);
    FindDepth(Sort(s), key);
  }

  /** For ids below 2^31, search is membership. */
  lemma SmallIdsAreFound(s: seq<Id>, key: Key)
    requires 0 <= key && forall i :: 0 <= i < |s| ==> s[i] < 0x8000_0000
    ensures Find(Sort(s), key).found <==> key in s
  {
    SortSorts(s);
    SameMembers(Sort(s), s);
    WayInList(Sort(s), key);
    SearchIsRight(s, key);
  }

  lemma {:induction false} WayInList(s: seq<Id>, word: Id)
    ensures forall i :: 0 <= i < |Way(s, word)| ==> Way(s, word)[i] in s
    decreases |s|
  {
    if |s| >= 2 {
      HalvesJoin(s);
      var root := Second(s)[0];
      var side := if word < root then First(s) else Second(s)[1..];
      assert s == First(s) + ([root] + Second(s)[1..]);
      WayInList(side, word);
    }
  }

  /** An id that search does not find, as the difference from the root wraps around. */
  lemma WrappedKeyIsMissed()
    ensures 0 in [3_000_000_000, 0] && !Find(Sort([3_000_000_000, 0]), 0).found
  {
    var s: seq<Id> := [3_000_000_000, 0];
    var rest: seq<Id> := [0];
    assert s[1..] == rest && rest[1..] == [];
    assert Filter(s[0], true, rest) == [0] && Filter(s[0], false, rest) == [];
    var t: seq<Id> := [0, 3_000_000_000];
    assert Sort(s) == t;
    HalvesJoin(t);
    assert First(t) + Second(t) == t && Second(t)[0] == (First(t) + Second(t))[1];
    assert Way(t, 0)[0] == 3_000_000_000;
    SearchIsRight(s, 0);
  }
}
