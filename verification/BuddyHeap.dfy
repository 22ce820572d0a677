/**
  The buddy allocator as a function on values: which blocks exist and in which order each level
  list holds the free ones.  Offsets and sizes are in units of 32 bytes, so a block of level l
  has 2^l units and the buffer has 2^top.  BuddyPage proves that the linked structure of
  benchmarks/gc_prototype.cpp computes these functions.
*/
module BuddyHeap {
  import opened Bits
  import opened Options
  import opened Sequences

  datatype Block = Block(level: nat, free: bool)

  datatype Heap = Heap(top: nat, blocks: map<nat, Block>, lists: seq<seq<nat>>)

  // ---------------------------------------------------------------- the invariant

  predicate Within(top: nat, u: nat, level: nat)
  {
    level <= top && Aligned(u, level) && u + Pow2(level) <= Pow2(top)
  }

  predicate Holds(blocks: map<nat, Block>, u: nat, x: nat)
  {
    u in blocks && u <= x < u + Pow2(blocks[u].level)
  }

  ghost predicate Covered(blocks: map<nat, Block>, x: nat)
  {
    exists u: nat :: Holds(blocks, u, x)
  }

  ghost predicate Disjoint(blocks: map<nat, Block>)
  {
    forall u, v :: u in blocks && v in blocks && u < v ==> u + Pow2(blocks[u].level) <= v
  }

  /** The headers tile the buffer with aligned power-of-two blocks. */
  ghost predicate Tiled(top: nat, blocks: map<nat, Block>)
  {
    && (forall u :: u in blocks ==> Within(top, u, blocks[u].level))
    && Disjoint(blocks)
    && (forall x: nat :: x < Pow2(top) ==> Covered(blocks, x))
  }

  predicate FreeAt(blocks: map<nat, Block>, u: nat, level: nat)
  {
    u in blocks && blocks[u] == Block(level, true)
  }

  /** The list of level l holds exactly the free blocks of level l, once each. */
  ghost predicate Listed(h: Heap)
  {
    && |h.lists| == h.top + 1
    && (forall l :: 0 <= l <= h.top ==> NoDup(h.lists[l]))
    && (forall l, u :: 0 <= l <= h.top ==> (u in h.lists[l] <==> FreeAt(h.blocks, u, l)))
  }

  /** No two buddies are both free at one level. */
  ghost predicate Coalesced(h: Heap)
  {
    forall u :: u in h.blocks && h.blocks[u].free && h.blocks[u].level < h.top ==>
      !FreeAt(h.blocks, Buddy(u, h.blocks[u].level), h.blocks[u].level)
  }

  ghost predicate Valid(h: Heap)
  {
    match h case Heap(top, blocks, _) => Tiled(top, blocks) && Listed(h) && Coalesced(h)
  }

  /** A freshly constructed page: one free block of the top level. */
  function Fresh(top: nat): Heap
  {
    Heap(top, map[0 := Block(top, true)], seq(top + 1, l => if l == top then [0] else []))
  }

  lemma {:induction false} ZeroAligned(l: nat)
    ensures Aligned(0, l)
  {
    if l > 0 { ZeroAligned(l - 1); }
  }

  lemma FreshIsValid(top: nat)
    ensures Valid(Fresh(top))
  {
    ZeroAligned(top);
    var h := Fresh(top);
    forall x: nat | x < Pow2(top) ensures Covered(h.blocks, x) {
      assert Holds(h.blocks, 0, x);
    }
  }

  // ---------------------------------------------------------------- elementary steps

  function RemoveFrom(s: seq<nat>, u: nat): (r: seq<nat>)
  {
    if s == [] then [] else if s[0] == u then s[1..] else [s[0]] + RemoveFrom(s[1..], u)
  }

  lemma {:induction false} RemoveFromProps(s: seq<nat>, u: nat)
    requires NoDup(s)
    ensures NoDup(RemoveFrom(s, u))
    ensures forall x :: x in RemoveFrom(s, u) <==> x in s && x != u
  {
    if s != [] && s[0] != u {
      var r := RemoveFrom(s[1..], u);
      RemoveFromProps(s[1..], u);
      assert s == [s[0]] + s[1..];
      assert forall x :: x in s[1..] ==> x != s[0];
      forall j | 0 <= j < |r| ensures r[j] != s[0] { assert r[j] in r; }
    } else if s != [] {
      assert s == [s[0]] + s[1..];
      assert forall x :: x in s[1..] ==> x != s[0];
    }
  }

  /** register_as_used on a free block: it leaves its list. */
  function Take(h: Heap, u: nat, level: nat): Heap
    requires level < |h.lists|
  {
    h.(blocks := h.blocks[u := Block(level, false)], lists := h.lists[level := RemoveFrom(h.lists[level], u)])
  }

  /** register_as_free: the block becomes the head of the list of its level. */
  function Release(h: Heap, u: nat, level: nat): Heap
    requires level < |h.lists|
  {
    h.(blocks := h.blocks[u := Block(level, true)], lists := h.lists[level := [u] + h.lists[level]])
  }

  /** One split of a used block: its upper half becomes a free block one level down. */
  function Split(h: Heap, u: nat, level: nat): Heap
    requires 0 < level < |h.lists|
  {
    Release(h.(blocks := h.blocks[u := Block(level - 1, false)]), Buddy(u, level - 1), level - 1)
  }

  /** One merge of a used block with its free buddy. */
  function Merge(h: Heap, u: nat, level: nat): Heap
    requires level < |h.lists|
  {
    var b := Buddy(u, level);
    Heap(h.top,
         (h.blocks - {u, b})[Lower(u, b) := Block(level + 1, false)],
         h.lists[level := RemoveFrom(h.lists[level], b)])
  }

  function Lower(u: nat, b: nat): nat
  {
    if b < u then b else u
  }

  predicate Used(h: Heap, u: nat, level: nat)
  {
    u in h.blocks && h.blocks[u] == Block(level, false)
  }

  // ---------------------------------------------------------------- what find_buddy yields

  /** The buddy of a block below the top level is itself the start of a block, of the same level or smaller. */
  lemma BuddyIsHeader(top: nat, blocks: map<nat, Block>, u: nat)
    requires Tiled(top, blocks) && u in blocks && blocks[u].level < top
    ensures var b := Buddy(u, blocks[u].level); b in blocks && blocks[b].level <= blocks[u].level && b != u
  {
    var l := blocks[u].level;
    var b := Buddy(u, l);
    BuddyPair(u, l);
    var p := if u < b then u else b;
    BuddyFits(top, u, l);
    assert Covered(blocks, b);
    var s: nat :| Holds(blocks, s, b);
    var m := blocks[s].level;
    if m > l {
      Nested(s, m, p, l + 1, b);
    } else {
      AlignedWeaken(b, m, l);
      SameStart(s, b, m);
    }
  }

  lemma BuddyFits(top: nat, u: nat, l: nat)
    requires Within(top, u, l) && l < top
    ensures Within(top, Buddy(u, l), l)
    ensures Within(top, Lower(u, Buddy(u, l)), l + 1)
  {
    var b := Buddy(u, l);
    BuddyPair(u, l);
    var p := Lower(u, b);
    ZeroAligned(top);
    Nested(0, top, p, l + 1, u);
  }

  // ---------------------------------------------------------------- the steps keep the invariant

  /** Tiling does not depend on which blocks are free. */
  lemma RetagTiled(top: nat, blocks: map<nat, Block>, u: nat, free: bool)
    requires Tiled(top, blocks) && u in blocks
    ensures Tiled(top, blocks[u := Block(blocks[u].level, free)])
  {
    var blocks' := blocks[u := Block(blocks[u].level, free)];
    forall x: nat | x < Pow2(top) ensures Covered(blocks', x) {
      assert Covered(blocks, x);
      var v: nat :| Holds(blocks, v, x);
      assert Holds(blocks', v, x);
    }
  }

  lemma TakeListed(h: Heap, u: nat, level: nat)
    requires Listed(h) && FreeAt(h.blocks, u, level) && level <= h.top
    ensures Listed(Take(h, u, level))
  {
    var h' := Take(h, u, level);
    RemoveFromProps(h.lists[level], u);
    forall l, v | 0 <= l <= h.top ensures v in h'.lists[l] <==> FreeAt(h'.blocks, v, l) {
      assert v in h.lists[l] <==> FreeAt(h.blocks, v, l);
    }
  }

  lemma TakeValid(h: Heap, u: nat, level: nat)
    requires Valid(h) && FreeAt(h.blocks, u, level) && level <= h.top
    ensures Valid(Take(h, u, level))
  {
    RetagTiled(h.top, h.blocks, u, false);
    TakeListed(h, u, level);
  }

  lemma ReleaseListed(h: Heap, u: nat, level: nat)
    requires Listed(h) && level <= h.top && (u in h.blocks ==> !h.blocks[u].free)
    ensures Listed(Release(h, u, level))
  {
    var h' := Release(h, u, level);
    forall l, v | 0 <= l <= h.top ensures v in h'.lists[l] <==> FreeAt(h'.blocks, v, l) {
      assert v in h.lists[l] <==> FreeAt(h.blocks, v, l);
    }
    assert NoDup(h'.lists[level]) by {
      assert u !in h.lists[level];
    }
  }

  /** A block may become free when its buddy is not free at the same level. */
  lemma ReleaseCoalesced(h: Heap, u: nat, level: nat)
    requires Coalesced(h) && level < |h.lists| && Aligned(u, level)
    requires forall v :: v in h.blocks ==> Aligned(v, h.blocks[v].level)
    requires u in h.blocks ==> !h.blocks[u].free
    requires level < h.top ==> !FreeAt(h.blocks, Buddy(u, level), level)
    ensures Coalesced(Release(h, u, level))
  {
    var h' := Release(h, u, level);
    forall v | v in h'.blocks && h'.blocks[v].free && h'.blocks[v].level < h.top
      ensures !FreeAt(h'.blocks, Buddy(v, h'.blocks[v].level), h'.blocks[v].level)
    {
      BuddyPair(v, h'.blocks[v].level);
    }
  }

  lemma ReleaseValid(h: Heap, u: nat, level: nat)
    requires Valid(h) && Used(h, u, level)
    requires level < h.top ==> !FreeAt(h.blocks, Buddy(u, level), level)
    ensures level < |h.lists| && Valid(Release(h, u, level))
  {
    assert Within(h.top, u, level);
    RetagTiled(h.top, h.blocks, u, true);
    ReleaseListed(h, u, level);
    ReleaseCoalesced(h, u, level);
  }

  lemma SplitDisjoint(blocks: map<nat, Block>, u: nat, l: nat, f: bool, g: bool)
    requires Disjoint(blocks) && u in blocks && blocks[u].level == l + 1
    ensures u + Pow2(l) !in blocks
    ensures Disjoint(blocks[u := Block(l, f)][u + Pow2(l) := Block(l, g)])
  {
    var b := u + Pow2(l);
    assert Pow2(l + 1) == 2 * Pow2(l);
    var blocks' := blocks[u := Block(l, f)][b := Block(l, g)];
    forall v, w | v in blocks' && w in blocks' && v < w ensures v + Pow2(blocks'[v].level) <= w {
      if v == b {
        assert u < w;
      }
    }
  }

  lemma SplitCovered(blocks: map<nat, Block>, u: nat, l: nat, f: bool, g: bool, x: nat)
    requires u in blocks && blocks[u].level == l + 1 && u + Pow2(l) !in blocks && Covered(blocks, x)
    ensures Covered(blocks[u := Block(l, f)][u + Pow2(l) := Block(l, g)], x)
  {
    var b := u + Pow2(l);
    assert Pow2(l + 1) == 2 * Pow2(l);
    var v: nat :| Holds(blocks, v, x);
    assert Holds(blocks[u := Block(l, f)][b := Block(l, g)], if v == u && x >= b then b else v, x);
  }

  lemma SplitTiled(top: nat, blocks: map<nat, Block>, u: nat, f: bool, g: bool)
    requires Tiled(top, blocks) && u in blocks && 0 < blocks[u].level
    ensures var l := blocks[u].level - 1; var b := u + Pow2(l);
      b == Buddy(u, l) && b !in blocks && Tiled(top, blocks[u := Block(l, f)][b := Block(l, g)])
  {
    var l := blocks[u].level - 1;
    var b := Buddy(u, l);
    assert Within(top, u, l + 1);
    AlignedWeaken(u, l, l + 1);
    BuddyPair(u, l);
    hide Buddy;
    hide Aligned;
    SplitDisjoint(blocks, u, l, f, g);
    var blocks' := blocks[u := Block(l, f)][b := Block(l, g)];
    forall x: nat | x < Pow2(top) ensures Covered(blocks', x) {
      assert Covered(blocks, x);
      SplitCovered(blocks, u, l, f, g, x);
    }
  }

  /** A used block may shrink as far as the free ones are concerned. */
  lemma ShrinkListed(h: Heap, u: nat, level: nat)
    requires Listed(h) && Coalesced(h) && Used(h, u, level) && 0 < level
    ensures var g := h.(blocks := h.blocks[u := Block(level - 1, false)]); Listed(g) && Coalesced(g)
  {
    hide Buddy;
    var g := h.(blocks := h.blocks[u := Block(level - 1, false)]);
    forall l, v | 0 <= l <= h.top ensures v in g.lists[l] <==> FreeAt(g.blocks, v, l) {
      assert v in h.lists[l] <==> FreeAt(h.blocks, v, l);
    }
  }

  lemma AllAligned(top: nat, blocks: map<nat, Block>, u: nat, level: nat)
    requires Tiled(top, blocks) && u in blocks && Aligned(u, level)
    ensures forall v :: v in blocks ==> Aligned(v, blocks[u := Block(level, false)][v].level)
  {
    hide Aligned;
    assert forall v :: v in blocks ==> Within(top, v, blocks[v].level);
  }

  lemma SplitKeepsTiles(h: Heap, u: nat, level: nat)
    requires Tiled(h.top, h.blocks) && Used(h, u, level) && 0 < level < |h.lists|
    ensures Tiled(h.top, Split(h, u, level).blocks) && Buddy(u, level - 1) !in h.blocks
    ensures Aligned(u, level - 1) && Aligned(Buddy(u, level - 1), level - 1) && Buddy(Buddy(u, level - 1), level - 1) == u
    ensures forall v :: v in h.blocks ==> Aligned(v, h.blocks[u := Block(level - 1, false)][v].level)
  {
    assert Within(h.top, u, level);
    SplitTiled(h.top, h.blocks, u, false, true);
    AlignedWeaken(u, level - 1, level);
    AllAligned(h.top, h.blocks, u, level - 1);
    BuddyPair(u, level - 1);
    hide Buddy;
    hide Aligned;
    hide Tiled;
  }

  lemma SplitValid(h: Heap, u: nat, level: nat)
    requires Valid(h) && Used(h, u, level) && 0 < level
    ensures level < |h.lists|
    ensures Valid(Split(h, u, level)) && Used(Split(h, u, level), u, level - 1)
  {
    LevelFits(h, u);
    SplitKeepsTiles(h, u, level);
    ShrinkListed(h, u, level);
    hide Buddy;
    hide Aligned;
    hide Tiled;
    var g := h.(blocks := h.blocks[u := Block(level - 1, false)]);
    hide Coalesced;
    hide Listed;
    ReleaseListed(g, Buddy(u, level - 1), level - 1);
    ReleaseCoalesced(g, Buddy(u, level - 1), level - 1);
  }

  lemma SplitAligned(h: Heap, u: nat, level: nat)
    requires Valid(h) && Used(h, u, level) && 0 < level
    ensures Aligned(u, level - 1)
  {
    LevelFits(h, u);
    SplitKeepsTiles(h, u, level);
  }

  /** The upper half is free after a split. */
  lemma SplitFrees(h: Heap, u: nat, level: nat)
    requires 0 < level < |h.lists|
    ensures var b := Buddy(u, level - 1); b in Split(h, u, level).blocks && b !in UsedBlocks(Split(h, u, level))
  {
    hide Buddy;
  }

  lemma MergeDisjoint(blocks: map<nat, Block>, p: nat, l: nat, f: bool)
    requires Disjoint(blocks) && p in blocks && p + Pow2(l) in blocks
    requires blocks[p].level == l && blocks[p + Pow2(l)].level == l
    ensures Disjoint((blocks - {p, p + Pow2(l)})[p := Block(l + 1, f)])
  {
    var q := p + Pow2(l);
    assert Pow2(l + 1) == 2 * Pow2(l);
    var blocks' := (blocks - {p, q})[p := Block(l + 1, f)];
    forall v, w | v in blocks' && w in blocks' && v < w ensures v + Pow2(blocks'[v].level) <= w {
      assert w in blocks && w != q;
    }
  }

  lemma MergeCovered(blocks: map<nat, Block>, p: nat, l: nat, f: bool, x: nat)
    requires p in blocks && p + Pow2(l) in blocks && Covered(blocks, x)
    requires blocks[p].level == l && blocks[p + Pow2(l)].level == l
    ensures Covered((blocks - {p, p + Pow2(l)})[p := Block(l + 1, f)], x)
  {
    var q := p + Pow2(l);
    assert Pow2(l + 1) == 2 * Pow2(l);
    var v: nat :| Holds(blocks, v, x);
    assert Holds((blocks - {p, q})[p := Block(l + 1, f)], if v == p || v == q then p else v, x);
  }

  lemma MergeTiled(top: nat, blocks: map<nat, Block>, u: nat, f: bool)
    requires Tiled(top, blocks) && u in blocks && blocks[u].level < top
    requires var b := Buddy(u, blocks[u].level); b in blocks && blocks[b].level == blocks[u].level
    ensures var l := blocks[u].level; var b := Buddy(u, l);
      Tiled(top, (blocks - {u, b})[Lower(u, b) := Block(l + 1, f)])
  {
    hide Buddy;
    hide Aligned;
    var l := blocks[u].level;
    var b := Buddy(u, l);
    BuddyPair(u, l);
    BuddyFits(top, u, l);
    var p := Lower(u, b);
    assert {u, b} == {p, p + Pow2(l)};
    MergeDisjoint(blocks, p, l, f);
    var blocks' := (blocks - {u, b})[p := Block(l + 1, f)];
    forall x: nat | x < Pow2(top) ensures Covered(blocks', x) {
      assert Covered(blocks, x);
      MergeCovered(blocks, p, l, f, x);
    }
  }

  lemma MergeListed(h: Heap, u: nat, level: nat)
    requires Listed(h) && Used(h, u, level) && level < h.top && FreeAt(h.blocks, Buddy(u, level), level)
    ensures Listed(Merge(h, u, level))
  {
    var b := Buddy(u, level);
    var h' := Merge(h, u, level);
    RemoveFromProps(h.lists[level], b);
    forall l, v | 0 <= l <= h.top ensures v in h'.lists[l] <==> FreeAt(h'.blocks, v, l) {
      assert v in h.lists[l] <==> FreeAt(h.blocks, v, l);
    }
  }

  lemma MergeValid(h: Heap, u: nat, level: nat)
    requires Valid(h) && Used(h, u, level) && level < h.top && FreeAt(h.blocks, Buddy(u, level), level)
    ensures Valid(Merge(h, u, level)) && Used(Merge(h, u, level), Lower(u, Buddy(u, level)), level + 1)
  {
    hide Buddy;
    hide Aligned;
    hide RemoveFrom;
    MergeTiled(h.top, h.blocks, u, false);
    MergeListed(h, u, level);
  }

  // ---------------------------------------------------------------- allocate

  /** The smallest level at or above `level` that has a free block. */
  function FindLevel(h: Heap, level: nat): (r: Option<nat>)
    requires |h.lists| == h.top + 1 && level <= h.top
    ensures r.Some? ==> level <= r.value <= h.top && h.lists[r.value] != []
    ensures forall l :: level <= l <= h.top && (r.Some? ==> l < r.value) ==> h.lists[l] == []
    decreases h.top - level
  {
    if h.lists[level] != [] then Some(level)
    else if level == h.top then None
    else FindLevel(h, level + 1)
  }

  /** Split the used block u from `level` down to `expected`. */
  function SplitDown(h: Heap, u: nat, level: nat, expected: nat): (r: Heap)
    requires expected <= level < |h.lists|
    ensures |r.lists| == |h.lists| && r.top == h.top
    decreases level
  {
    if level == expected then h else SplitDown(Split(h, u, level), u, level - 1, expected)
  }

  lemma SplitDownStops(h: Heap, u: nat, expected: nat)
    requires expected < |h.lists|
    ensures SplitDown(h, u, expected, expected) == h
  {
  }

  /** None when the page is out of memory. */
  function Allocate(h: Heap, expected: nat): Option<(Heap, nat)>
    requires |h.lists| == h.top + 1 && expected <= h.top
  {
    var level := FindLevel(h, expected);
    if level.None? then None else
    var u := h.lists[level.value][0];
    Some((SplitDown(Take(h, u, level.value), u, level.value, expected), u))
  }

  /** The blocks in use, with their levels. */
  function UsedOf(blocks: map<nat, Block>): map<nat, nat>
  {
    map u | u in blocks && !blocks[u].free :: blocks[u].level
  }

  function UsedBlocks(h: Heap): map<nat, nat>
  {
    UsedOf(h.blocks)
  }

  lemma PutUsed(blocks: map<nat, Block>, u: nat, level: nat)
    ensures UsedOf(blocks[u := Block(level, false)]) == UsedOf(blocks)[u := level]
  {
  }

  lemma PutFree(blocks: map<nat, Block>, u: nat, level: nat)
    ensures UsedOf(blocks[u := Block(level, true)]) == UsedOf(blocks) - {u}
  {
  }

  lemma DropBlocks(blocks: map<nat, Block>, drop: set<nat>)
    ensures UsedOf(blocks - drop) == UsedOf(blocks) - drop
  {
  }

  lemma LevelFits(h: Heap, u: nat)
    requires Valid(h) && u in h.blocks
    ensures h.blocks[u].level <= h.top < |h.lists|
  {
    assert Within(h.top, u, h.blocks[u].level);
  }

  lemma ValidTiled(h: Heap)
    requires Valid(h)
    ensures Tiled(h.top, h.blocks)
  {
  }

  lemma SplitUsed(h: Heap, u: nat, level: nat)
    requires Valid(h) && Used(h, u, level) && 0 < level
    ensures level < |h.lists| && UsedBlocks(Split(h, u, level)) == UsedBlocks(h)[u := level - 1]
  {
    hide Valid;
    hide Tiled;
    LevelFits(h, u);
    ValidTiled(h);
    SplitTiled(h.top, h.blocks, u, false, true);
    var b := Buddy(u, level - 1);
    PutUsed(h.blocks, u, level - 1);
    PutFree(h.blocks[u := Block(level - 1, false)], b, level - 1);
    assert b !in UsedOf(h.blocks[u := Block(level - 1, false)]);
    hide UsedOf;
    Drop(UsedOf(h.blocks[u := Block(level - 1, false)]), b);
  }

  lemma Drop(m: map<nat, nat>, b: nat)
    requires b !in m
    ensures m - {b} == m
  {
  }

  lemma Overwrite(m: map<nat, nat>, u: nat, a: nat, b: nat)
    ensures m[u := a][u := b] == m[u := b]
    ensures u in m && m[u] == b ==> m[u := b] == m
  {
  }

  lemma {:induction false} SplitDownValid(h: Heap, u: nat, level: nat, expected: nat) returns (r: Heap)
    requires Valid(h) && Used(h, u, level) && expected <= level
    ensures level < |h.lists| && r == SplitDown(h, u, level, expected)
    ensures Valid(r) && Used(r, u, expected)
    decreases level
  {
    hide Valid;
    hide Split;
    LevelFits(h, u);
    if level > expected {
      SplitValid(h, u, level);
      r := SplitDownValid(Split(h, u, level), u, level - 1, expected);
    } else {
      r := h;
    }
  }

  lemma OverwriteSame(h: Heap, u: nat, level: nat)
    requires Used(h, u, level)
    ensures UsedBlocks(h)[u := level] == UsedBlocks(h)
  {
    Overwrite(UsedBlocks(h), u, level, level);
  }

  lemma {:induction false} SplitDownUsed(h: Heap, u: nat, level: nat, expected: nat)
    requires Valid(h) && Used(h, u, level) && expected <= level
    ensures level < |h.lists|
    ensures UsedBlocks(SplitDown(h, u, level, expected)) == UsedBlocks(h)[u := expected]
    decreases level
  {
    hide Valid;
    hide Split;
    hide UsedBlocks;
    LevelFits(h, u);
    OverwriteSame(h, u, level);
    if level > expected {
      SplitValid(h, u, level);
      SplitUsed(h, u, level);
      SplitDownUsed(Split(h, u, level), u, level - 1, expected);
      Overwrite(UsedBlocks(h), u, level - 1, expected);
    }
  }

  /** allocate keeps the invariant and adds exactly one used block, of the requested level. */
  lemma AllocateValid(h: Heap, expected: nat)
    requires Valid(h) && expected <= h.top
    ensures var r := Allocate(h, expected);
      match r
      case Some((h', u)) =>
        Valid(h') && h'.top == h.top && u !in UsedBlocks(h) && UsedBlocks(h') == UsedBlocks(h)[u := expected]
      case None => forall v :: v in h.blocks && h.blocks[v].free ==> h.blocks[v].level < expected
  {
    var level := FindLevel(h, expected);
    if level.Some? {
      var u := h.lists[level.value][0];
      assert u in h.lists[level.value];
      TakeValid(h, u, level.value);
      PutUsed(h.blocks, u, level.value);
      var h' := SplitDownValid(Take(h, u, level.value), u, level.value, expected);
      SplitDownUsed(Take(h, u, level.value), u, level.value, expected);
      Overwrite(UsedBlocks(h), u, level.value, expected);
      assert Allocate(h, expected) == Some((h', u));
    } else {
      forall v | v in h.blocks && h.blocks[v].free ensures h.blocks[v].level < expected {
        var l := h.blocks[v].level;
        assert Within(h.top, v, l);
        assert FreeAt(h.blocks, v, l);
        assert v in h.lists[l];
      }
    }
  }

  /** Some free block is as large as the request. */
  ghost predicate HasRoom(h: Heap, expected: nat)
  {
    exists v :: v in h.blocks && h.blocks[v].free && h.blocks[v].level >= expected
  }

  /** allocate runs out of memory exactly when there is no such block. */
  lemma AllocateHasRoom(h: Heap, expected: nat)
    requires Valid(h) && expected <= h.top
    ensures Allocate(h, expected).Some? <==> HasRoom(h, expected)
  {
    AllocateValid(h, expected);
    var level := FindLevel(h, expected);
    if level.Some? {
      assert h.lists[level.value][0] in h.lists[level.value];
      assert FreeAt(h.blocks, h.lists[level.value][0], level.value);
    }
  }

  /** A block of the top level in use leaves room for nothing. */
  lemma TopInUse(h: Heap, u: nat, expected: nat)
    requires Valid(h) && u in UsedBlocks(h) && UsedBlocks(h)[u] == h.top
    ensures !HasRoom(h, expected)
  {
    forall v | v in h.blocks ensures v == u {
      assert Within(h.top, u, h.top) && Within(h.top, v, h.blocks[v].level);
    }
  }

  // ---------------------------------------------------------------- free

  /** Coalesce the used block u of the given level upwards, then release it. */
  function FreeFrom(h: Heap, u: nat, level: nat): (r: Heap)
    requires level <= h.top < |h.lists|
    ensures |r.lists| == |h.lists| && r.top == h.top
    decreases h.top - level
  {
    if level < h.top && FreeAt(h.blocks, Buddy(u, level), level)
    then FreeFrom(Merge(h, u, level), Lower(u, Buddy(u, level)), level + 1)
    else Release(h, u, level)
  }

  lemma MergeUsed(h: Heap, u: nat, level: nat)
    requires Used(h, u, level) && level < |h.lists| && FreeAt(h.blocks, Buddy(u, level), level)
    ensures var p := Lower(u, Buddy(u, level));
      UsedBlocks(Merge(h, u, level)) - {p} == UsedBlocks(h) - {u}
  {
    var b := Buddy(u, level);
    DropBlocks(h.blocks, {u, b});
    PutUsed(h.blocks - {u, b}, Lower(u, b), level + 1);
    assert b !in UsedBlocks(h);
  }

  lemma {:induction false} FreeFromValid(h: Heap, u: nat, level: nat) returns (r: Heap)
    requires Valid(h) && Used(h, u, level)
    ensures level <= h.top < |h.lists| && r == FreeFrom(h, u, level)
    ensures Valid(r) && UsedBlocks(r) == UsedBlocks(h) - {u}
    decreases h.top - level
  {
    hide Valid;
    hide Merge;
    hide Release;
    hide UsedBlocks;
    LevelFits(h, u);
    if level < h.top && FreeAt(h.blocks, Buddy(u, level), level) {
      MergeValid(h, u, level);
      MergeUsed(h, u, level);
      MergeShape(h, u, level);
      r := FreeFromValid(Merge(h, u, level), Lower(u, Buddy(u, level)), level + 1);
    } else {
      ReleaseValid(h, u, level);
      ReleaseUsed(h, u, level);
      r := Release(h, u, level);
    }
  }

  lemma MergeShape(h: Heap, u: nat, level: nat)
    requires level < |h.lists|
    ensures Merge(h, u, level).top == h.top && |Merge(h, u, level).lists| == |h.lists|
  {
  }

  lemma ReleaseUsed(h: Heap, u: nat, level: nat)
    requires level < |h.lists|
    ensures UsedBlocks(Release(h, u, level)) == UsedBlocks(h) - {u}
  {
    PutFree(h.blocks, u, level);
  }

  // ---------------------------------------------------------------- allocate then free

  lemma MergeUndoesSplit(h: Heap, u: nat, level: nat)
    requires Valid(h) && Used(h, u, level) && 0 < level
    ensures level < |h.lists|
    ensures var g := Split(h, u, level);
      FreeAt(g.blocks, Buddy(u, level - 1), level - 1) && Lower(u, Buddy(u, level - 1)) == u
      && Merge(g, u, level - 1) == h
  {
    assert Within(h.top, u, level);
    SplitTiled(h.top, h.blocks, u, false, true);
    var g := Split(h, u, level);
    assert Merge(g, u, level - 1).blocks == h.blocks;
    assert Merge(g, u, level - 1).lists == h.lists;
  }

  lemma SplitThenFree(h: Heap, u: nat, level: nat)
    requires Valid(h) && Used(h, u, level) && 0 < level
    ensures level <= h.top < |h.lists| && FreeFrom(Split(h, u, level), u, level - 1) == FreeFrom(h, u, level)
  {
    LevelFits(h, u);
    MergeUndoesSplit(h, u, level);
    hide Valid;
    hide Split;
    hide Merge;
    hide Release;
    hide FreeAt;
  }

  lemma {:induction false} FreeUndoesSplits(h: Heap, u: nat, level: nat, expected: nat)
    requires Valid(h) && Used(h, u, level) && expected <= level
    ensures level <= h.top < |h.lists|
    ensures FreeFrom(SplitDown(h, u, level, expected), u, expected) == FreeFrom(h, u, level)
    decreases level
  {
    hide Valid;
    hide Split;
    hide FreeFrom;
    LevelFits(h, u);
    if level > expected {
      SplitValid(h, u, level);
      SplitThenFree(h, u, level);
      FreeUndoesSplits(Split(h, u, level), u, level - 1, expected);
    }
  }

  /** Freeing what was just allocated restores every block and every free list, as a sequence. */
  lemma FreeUndoesAllocate(h: Heap, expected: nat)
    requires Valid(h) && expected <= h.top && Allocate(h, expected).Some?
    ensures var (h', u) := Allocate(h, expected).value;
      |h'.lists| == h'.top + 1 && expected <= h'.top && FreeFrom(h', u, expected) == h
  {
    var level := FindLevel(h, expected).value;
    var u := h.lists[level][0];
    assert u in h.lists[level];
    TakeValid(h, u, level);
    var g := Take(h, u, level);
    FreeUndoesSplits(g, u, level, expected);
    if level < h.top {
      assert Within(h.top, u, level);
      BuddyPair(u, level);
      assert !FreeAt(g.blocks, Buddy(u, level), level);
    }
    assert Release(g, u, level).blocks == h.blocks;
    assert [u] + RemoveFrom(h.lists[level], u) == h.lists[level];
    assert Release(g, u, level).lists == h.lists;
  }

  // ---------------------------------------------------------------- freeing everything

  /** Free the used blocks in the given order. */
  function FreeAll(h: Heap, order: seq<nat>): Heap
    decreases |order|
  {
    if order == [] then h
    else if order[0] in h.blocks && h.blocks[order[0]].level <= h.top < |h.lists|
    then FreeAll(FreeFrom(h, order[0], h.blocks[order[0]].level), order[1..])
    else h
  }

  lemma UsedIsBlock(h: Heap, u: nat)
    requires u in UsedBlocks(h)
    ensures u in h.blocks && Used(h, u, h.blocks[u].level)
  {
  }

  lemma {:induction false} FreeAllValid(h: Heap, order: seq<nat>) returns (r: Heap)
    requires Valid(h) && NoDup(order) && forall i :: 0 <= i < |order| ==> order[i] in UsedBlocks(h)
    ensures r == FreeAll(h, order) && Valid(r) && r.top == h.top
    ensures forall v :: v in UsedBlocks(r) <==> v in UsedBlocks(h) && v !in order
    decreases |order|
  {
    hide Valid;
    hide FreeFrom;
    hide UsedBlocks;
    if order == [] {
      r := h;
    } else {
      var u := order[0];
      UsedIsBlock(h, u);
      LevelFits(h, u);
      var g := FreeFromValid(h, u, h.blocks[u].level);
      forall i | 0 <= i < |order[1..]| ensures order[1..][i] in UsedBlocks(g) {
        assert order[i + 1] in UsedBlocks(h) && order[i + 1] != u;
      }
      r := FreeAllValid(g, order[1..]);
      assert order == [u] + order[1..];
    }
  }

  /** With nothing in use, coalescing leaves a single block. */
  lemma AllFreeIsFresh(h: Heap)
    requires Valid(h) && UsedBlocks(h) == map[]
    ensures h == Fresh(h.top)
  {
    Pow2Monotone(0, h.top);
    assert Covered(h.blocks, 0);
    var start: nat :| Holds(h.blocks, start, 0);
    forall v | v in h.blocks ensures h.blocks[v].free {
      assert v !in UsedBlocks(h);
    }
    var u := SmallestBlock(h.blocks);
    var l := h.blocks[u].level;
    if l < h.top {
      BuddyIsHeader(h.top, h.blocks, u);
      assert FreeAt(h.blocks, Buddy(u, l), l);
    }
    assert Within(h.top, u, h.top);
    assert u == 0;
    forall v | v in h.blocks ensures v == 0 {
      assert Within(h.top, v, h.blocks[v].level);
    }
    assert h.blocks == Fresh(h.top).blocks;
    forall i | 0 <= i <= h.top ensures h.lists[i] == Fresh(h.top).lists[i] {
      assert forall x :: x in h.lists[i] <==> FreeAt(h.blocks, x, i);
      OnlyElement(h.lists[i], 0);
      assert FreeAt(h.blocks, 0, i) <==> i == h.top;
      assert h.lists[i] != [] ==> h.lists[i][0] in h.lists[i];
    }
    assert h.lists == Fresh(h.top).lists;
  }

  lemma TwiceIsDup(s: seq<nat>, u: nat)
    requires |s| > 1 && forall x :: x in s ==> x == u
    ensures !NoDup(s)
  {
    assert s[0] in s && s[1] in s;
  }

  lemma OnlyElement(s: seq<nat>, u: nat)
    requires NoDup(s) && forall x :: x in s ==> x == u
    ensures s == [] || s == [u]
  {
    if |s| > 1 { TwiceIsDup(s, u); }
    assert s != [] ==> s[0] in s;
  }

  lemma SmallestBlock(blocks: map<nat, Block>) returns (u: nat)
    requires blocks != map[]
    ensures u in blocks && forall v :: v in blocks ==> blocks[u].level <= blocks[v].level
    decreases |blocks|
  {
    var x :| x in blocks;
    u := x;
    var rest := blocks - {x};
    if rest != map[] {
      var w := SmallestBlock(rest);
      if blocks[w].level < blocks[x].level { u := w; }
      assert forall v :: v in blocks ==> v == x || v in rest;
    } else {
      assert forall v :: v in blocks ==> v == x || v in rest;
    }
  }

  /** Freeing all used blocks, in any order, ends with the freshly constructed page. */
  lemma FullDrain(h: Heap, order: seq<nat>)
    requires Valid(h) && NoDup(order) && forall v :: v in order <==> v in UsedBlocks(h)
    ensures FreeAll(h, order) == Fresh(h.top)
  {
    forall i | 0 <= i < |order| ensures order[i] in UsedBlocks(h) { assert order[i] in order; }
    var r := FreeAllValid(h, order);
    assert UsedBlocks(r) == map[];
    AllFreeIsFresh(r);
  }
}
