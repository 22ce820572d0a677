/**
  buddy::page of benchmarks/gc_prototype.cpp: headers written in place into the buffer, one
  doubly linked chain of header nodes per level, and a node pool.

  The buffer is an array of header cells, one per 32-byte unit.  A cell that is not the start of
  a block holds whatever was last written there: a stale header, or payload.
*/
module BuddyPage {
  import opened Options
  import opened Sequences
  import opened Bits
  import opened BuddyNodes
  import opened BuddyLists
  import H = BuddyHeap
  import B = BuddyBound
  import S = BuddySizes

  /** find_buddy on byte offsets, in units. */
  function FindBuddy(u: nat, level: nat): nat
  {
    Xor(32 * u, 32 * Pow2(level)) / 32
  }

  lemma FindBuddyIsBuddy(u: nat, level: nat)
    requires Aligned(u, level)
    ensures FindBuddy(u, level) == Buddy(u, level)
  {
    XorOfUnits(u, Pow2(level));
    XorIsBuddy(u, level);
  }

  lemma {:induction false} EmptyEntries(lists: seq<seq<nat>>, n: nat)
    requires n <= |lists| && forall l :: 0 <= l < |lists| ==> lists[l] == []
    ensures B.Entries(lists, n) == 0
  {
    if n > 0 { EmptyEntries(lists, n - 1); }
  }

  /** The page before its first block is released. */
  lemma EmptyPage(m: Memory)
    requires ShapeOk(m) && 1 <= m.top <= 27 && |m.buffer| == Pow2(m.top) && |m.next| == |m.pool| == Pow2(m.top - 1)
    requires Chain(m.next, m.freeHead, m.pool) && m.model.blocks == map[]
    requires forall x :: 0 <= x < |m.home| ==> m.home[x] == m.top + 1
    requires forall l :: 0 <= l <= m.top ==> m.heads[l] == NIL && m.chains[l] == [] && m.model.lists[l] == []
    ensures PageOk(m, -1) && ReadyFor(m, -1, 0, m.top)
    ensures H.Fresh(m.top) == H.Release(m.model, 0, m.top)
  {
    EmptyEntries(m.model.lists, m.top + 1);
    assert H.Release(m.model, 0, m.top).blocks == H.Fresh(m.top).blocks;
    assert [0] + m.model.lists[m.top] == [0];
    assert H.Release(m.model, 0, m.top).lists == H.Fresh(m.top).lists;
  }

  class Page {
    const top: nat
    const buffer: array<Header>
    const heads: array<int>
    const nodes: Nodes

    /** The blocks and free lists that the structure stands for. */
    ghost var model: H.Heap
    ghost var chains: seq<seq<nat>>
    ghost var home: seq<nat>

    ghost function Snapshot(): Memory
      reads this, buffer, heads, nodes
    {
      Memory(top, nodes.prev, nodes.next, nodes.ptr, nodes.freeHead, nodes.pool, heads[..], buffer[..], chains, home, model)
    }

    /** Holds between the single registrations of an operation, too. */
    ghost predicate Linked(hand: int)
      reads this, buffer, heads, nodes
    {
      nodes.Valid() && PageOk(Snapshot(), hand)
    }

    ghost predicate Valid()
      reads this, buffer, heads, nodes
    {
      Linked(-1) && H.Valid(model)
    }

    /** A page of 32 * 2^t bytes.  Its pool gets capacity / 32 / 2 nodes.  32U << level must not overflow. */
    constructor (t: nat)
      requires 1 <= t <= 27
      ensures Valid() && fresh(buffer) && fresh(heads) && fresh(nodes)
      ensures top == t && model == H.Fresh(t) && nodes.pages == 1
    {
      hide Chain;
      hide PageOk;
      hide H.Valid;
      top := t;
      buffer := new Header[Pow2(t)];
      heads := new int[t + 1];
      nodes := new Nodes(Pow2(t) / 2);
      model := H.Heap(t, map[], seq(t + 1, l => []));
      chains := seq(t + 1, l => []);
      home := [];
      new;
      for i := 0 to top + 1
        invariant forall l :: 0 <= l < i ==> heads[l] == NIL
        modifies heads
      {
        heads[i] := NIL;
      }
      home := seq(|nodes.next|, i => top + 1);
      EmptyPage(Snapshot());
      H.FreshIsValid(t);
      RegisterAsFree(0, top, -1, H.Fresh(t));
    }

    // -------------------------------------------------------------- register_as_free, register_as_used

    /** The body of register_as_free, on a pool that is not empty. */
    method LinkFree(u: nat, level: nat, ghost hand: int)
      requires nodes.Valid() && ReadyFor(Snapshot(), hand, u, level)
      modifies this, buffer, heads, nodes
      ensures old(nodes.pool) != []
      ensures Joins(old(Snapshot()), Snapshot(), old(nodes.pool)[0], u, level)
      ensures nodes.Valid() && nodes.pages == old(nodes.pages)
    {
      var node, head := nodes.Enlist(heads[level], u, chains[level]);
      heads[level] := head;
      buffer[u] := Header(node, true, level);
      home, chains, model := home[node := level], chains[level := [node] + chains[level]], H.Release(model, u, level);
    }

    /** register_as_free: block u becomes the head of the list of its level. */
    method RegisterAsFree(u: nat, level: nat, ghost hand: int, ghost after: H.Heap)
      requires Linked(hand) && ReadyFor(Snapshot(), hand, u, level)
      requires level < |model.lists| && after == H.Release(model, u, level)
      modifies this, buffer, heads, nodes
      ensures model == after && Linked(if u == hand then -1 else hand)
      ensures u < buffer.Length && buffer[..] == old(buffer[..])[u := buffer[u]]
      ensures nodes.pages == old(nodes.pages)
    {
      ghost var m := Snapshot();
      LinkFree(u, level, hand);
      JoinPage(m, Snapshot(), hand, m.pool[0], u, level);
    }

    /** The body of register_as_used for the block at position k of its list; its header gets level `level'`. */
    method UnlinkFree(u: nat, level': nat, ghost k: nat)
      requires ShapeOk(Snapshot()) && nodes.Valid() && u < buffer.Length && heads.Length == top + 1
      requires buffer[u].level <= top && k < |chains[buffer[u].level]| == |model.lists[buffer[u].level]|
      requires model.lists[buffer[u].level][k] == u && buffer[u].user == chains[buffer[u].level][k]
      requires Doubly(nodes.prev, nodes.next, heads[buffer[u].level], chains[buffer[u].level])
      requires forall x :: x in chains[buffer[u].level] ==> x !in nodes.pool
      modifies this, buffer, heads, nodes
      ensures Leaves(old(Snapshot()), Snapshot(), old(buffer[u].user), u, old(buffer[u].level), k, level')
      ensures nodes.Valid() && nodes.pages == old(nodes.pages)
    {
      hide Mirrored;
      hide Without;
      hide H.RemoveFrom;
      var node, level := buffer[u].user, buffer[u].level;
      heads[level] := nodes.Delist(heads[level], node, chains[level], k);
      buffer[u] := Header(NIL, false, level');
      home, chains, model := home[node := top + 1], chains[level := Without(chains[level], k)], H.Take(model, u, level);
    }

    /** register_as_used: the free block u leaves its list.  When its header gets another level than
        the block has, u is the block in hand from here on. */
    method RegisterAsUsed(u: nat, level': nat, ghost hand: int, ghost after: H.Heap)
      requires Linked(hand) && H.Listed(model)
      requires u in model.blocks && u != hand && model.blocks[u].free && model.blocks[u].level <= top
      requires level' != model.blocks[u].level ==> hand == -1
      requires model.blocks[u].level < |model.lists| && after == H.Take(model, u, model.blocks[u].level)
      modifies this, buffer, heads, nodes
      ensures model == after
      ensures Linked(if level' == old(model.blocks[u].level) then hand else u)
      ensures u < buffer.Length && buffer[..] == old(buffer[..])[u := Header(NIL, false, level')]
      ensures nodes.pages == old(nodes.pages)
    {
      ghost var m := Snapshot();
      ghost var k := FindEntry(m, hand, u);
      UnlinkFree(u, level', k);
      LeavePage(m, Snapshot(), hand, m.buffer[u].user, u, m.buffer[u].level, k, level');
    }

    // -------------------------------------------------------------- allocate, free

    /** One turn of the split loop: the upper half of the block in hand becomes free. */
    method SplitOnce(u: nat, level: nat, ghost expected: nat, ghost after: H.Heap,
                     ghost was: seq<Header>, ghost used: map<nat, nat>)
      requires Linked(u) && H.Valid(model) && H.Used(model, u, level) && expected < level < |model.lists|
      requires u < buffer.Length && buffer[u] == Header(NIL, false, expected)
      requires after == H.Split(model, u, level)
      requires Kept(was, buffer[..], used) && used == H.UsedBlocks(after) - {u}
      modifies this, buffer, heads, nodes
      ensures model == after && Linked(if level - 1 == expected then -1 else u)
      ensures buffer[u] == Header(NIL, false, expected)
      ensures Kept(was, buffer[..], used)
      ensures nodes.pages == old(nodes.pages)
    {
      hide H.Valid;
      hide H.Split;
      hide H.UsedBlocks;
      hide Kept;
      hide PageOk;
      hide ReadyFor;
      ghost var m := Snapshot();
      ghost var g := PrepareSplit(m, u, level, after);
      var b := FindBuddy(u, level - 1);
      model := g;
      assert Snapshot() == m.(model := g);
      ghost var now := buffer[..];
      RegisterAsFree(b, level - 1, u, after);
      KeptSplit(was, now, used, m.model, after, u, level, buffer[b]);
      if level - 1 == expected { PutDown(Snapshot(), u); }
    }

    lemma Shape(hand: int)
      requires Linked(hand)
      ensures model.top == top && |model.lists| == heads.Length == top + 1 && 1 <= top <= 27
      ensures buffer.Length == Pow2(top)
    {
    }

    lemma HeadAt(hand: int, level: nat)
      requires Linked(hand) && level <= top
      ensures heads.Length == |model.lists| == top + 1
      ensures heads[level] == NIL <==> model.lists[level] == []
      ensures heads[level] != NIL ==>
        0 <= heads[level] < |nodes.ptr| && nodes.ptr[heads[level]] == model.lists[level][0]
    {
      HeadOfList(Snapshot(), hand, level);
    }

    /** find_buddy in free yields a live block header, and that header tells the truth. */
    lemma HeaderAt(u: nat, level: nat)
      requires Linked(u) && H.Valid(model) && H.Used(model, u, level) && level < top
      ensures var b := FindBuddy(u, level);
        && b in model.blocks && b != u && b < buffer.Length && b == Buddy(u, level)
        && (buffer[b].free && buffer[b].level == level <==> H.FreeAt(model.blocks, b, level))
    {
      BuddyHeader(Snapshot(), u, level);
    }

    /** The search loop of allocate: the smallest level that has a free block. */
    method FindFree(expectedLevel: nat) returns (r: Option<nat>)
      requires Linked(-1) && expectedLevel <= top && model.top == top && |model.lists| == top + 1
      ensures r == H.FindLevel(model, expectedLevel)
    {
      hide Linked;
      var level := expectedLevel;
      HeadAt(-1, level);
      while heads[level] == NIL
        invariant expectedLevel <= level <= top && heads.Length == top + 1
        invariant heads[level] == NIL <==> model.lists[level] == []
        invariant H.FindLevel(model, expectedLevel) == H.FindLevel(model, level)
        decreases top - level
      {
        level := level + 1;
        if level > top {
          return None;
        }
        HeadAt(-1, level);
      }
      r := Some(level);
    }

    /** The split loop of allocate. */
    method SplitDown(u: nat, start: nat, expectedLevel: nat)
      requires Linked(if start == expectedLevel then -1 else u) && H.Valid(model) && H.Used(model, u, start)
      requires expectedLevel <= start < |model.lists| == top + 1
      requires u < buffer.Length && buffer[u] == Header(NIL, false, expectedLevel)
      modifies this, buffer, heads, nodes
      ensures Linked(-1) && H.Valid(model)
      ensures model == H.SplitDown(old(model), u, start, expectedLevel)
      ensures Kept(old(buffer[..]), buffer[..], H.UsedBlocks(old(model)) - {u})
      ensures nodes.pages == old(nodes.pages)
    {
      hide H.SplitDown;
      hide Linked;
      hide H.Used;
      hide H.UsedBlocks;
      hide Kept;
      ghost var was, used := buffer[..], H.UsedBlocks(model) - {u};
      KeptStart(was, used);
      hide H.Valid;
      hide PageOk;
      var level := start;
      ghost var g := model;
      while level > expectedLevel
        invariant expectedLevel <= level <= top && |g.lists| == top + 1
        invariant H.Valid(g) && H.Used(g, u, level) && model == g
        invariant H.SplitDown(g, u, level, expectedLevel) == H.SplitDown(old(model), u, start, expectedLevel)
        invariant Linked(if level == expectedLevel then -1 else u)
        invariant u < buffer.Length && buffer[u] == Header(NIL, false, expectedLevel)
        invariant Kept(was, buffer[..], used) && H.UsedBlocks(g) - {u} == used
        invariant nodes.pages == old(nodes.pages)
      {
        g := SplitResult(g, u, level, expectedLevel);
        SplitOnce(u, level, expectedLevel, g, was, used);
        level := level - 1;
      }
      H.SplitDownStops(g, u, expectedLevel);
    }

    /** The header offset of a block for `len` bytes, or None when the page is out of memory.
        `_free_levels[level]` is read before the level is checked, so the request must not exceed the page. */
    method Allocate(len: nat) returns (r: Option<nat>)
      requires Valid() && len + 16 < 32 * Pow2(top)
      modifies this, buffer, heads, nodes
      ensures Valid() && nodes.pages == old(nodes.pages)
      ensures S.LevelFor(len) <= top
      ensures match H.Allocate(old(model), S.LevelFor(len))
              case Some((h, u)) => r == Some(u) && model == h
              case None => r == None && model == old(model) && buffer[..] == old(buffer[..])
      ensures r.Some? <==> H.HasRoom(old(model), S.LevelFor(len))
      ensures r.Some? ==> r.value !in H.UsedBlocks(old(model))
      ensures r.Some? ==> H.UsedBlocks(model) == H.UsedBlocks(old(model))[r.value := S.LevelFor(len)]
      ensures len + 16 < 32 * Pow2(S.LevelFor(len)) && (S.LevelFor(len) > 0 ==> 32 * Pow2(S.LevelFor(len) - 1) <= len + 16)
      ensures Kept(old(buffer[..]), buffer[..], H.UsedBlocks(old(model)))
    {
      hide H.Valid;
      hide H.UsedBlocks;
      hide H.Used;
      hide H.SplitDown;
      hide Linked;
      hide Kept;
      hide H.HasRoom;
      hide PageOk;
      Shape(-1);
      ghost var was, h := buffer[..], model;
      KeptStart(was, H.UsedBlocks(h));
      SizeInWord(len, top);
      var blockSize := S.NextPow2(len + S.HEADER);
      BlockSizeLevel(len, blockSize);
      var expectedLevel := S.LevelOf(blockSize);
      S.LevelForWithin(len, top);
      S.LevelForFits(len);
      H.AllocateValid(model, expectedLevel);
      H.AllocateHasRoom(model, expectedLevel);
      var level := FindFree(expectedLevel);
      if level.None? {
        return None;
      }
      HeadAt(-1, level.value);
      var u := nodes.ptr[heads[level.value]];
      ghost var taken := PrepareTake(model, u, level.value, expectedLevel);
      RegisterAsUsed(u, expectedLevel, -1, taken);
      KeptTake(was, h, u, buffer[u]);
      SplitDown(u, level.value, expectedLevel);
      KeptOn(was, was[u := Header(NIL, false, expectedLevel)], buffer[..], H.UsedBlocks(h));
      r := Some(u);
    }

    /** One turn of the coalescing loop: the free buddy leaves its list and joins the block in hand. */
    method MergeOnce(u: nat, b: nat, level: nat, ghost after: H.Heap,
                     ghost was: seq<Header>, ghost used: map<nat, nat>)
      returns (u': nat)
      requires Linked(u) && H.Valid(model) && H.Used(model, u, level) && level < top
      requires b == FindBuddy(u, level) && H.FreeAt(model.blocks, b, level)
      requires level < |model.lists| && after == H.Merge(model, u, level)
      requires Kept(was, buffer[..], used) && used == H.UsedBlocks(model) - {u}
      modifies this, buffer, heads, nodes
      ensures model == after && u' == H.Lower(u, b) && Linked(u')
      ensures Kept(was, buffer[..], used)
      ensures nodes.pages == old(nodes.pages)
    {
      hide H.Valid;
      hide H.Merge;
      hide H.UsedBlocks;
      hide Kept;
      hide PageOk;
      ghost var m := Snapshot();
      ghost var taken := PrepareMerge(m, u, b, level, after);
      ghost var now := buffer[..];
      RegisterAsUsed(b, level, u, taken);
      KeptMerge(was, now, used, m.model, u, b, level, buffer[b]);
      u' := u;
      if b < u {
        u' := b;
      }
      ghost var m1 := Snapshot();
      FinishMerge(m1, m.model, u, b, level, after);
      model := after;
      assert Snapshot() == m1.(model := after);
    }

    /** The coalescing loop of free, on the used block u in hand.  Every header that find_buddy yields is
        the header of an existing block. */
    method Coalesce(h: nat, start: nat) returns (u: nat, level: nat)
      requires Linked(h) && H.Valid(model) && H.Used(model, h, start) && start <= top == model.top < |model.lists|
      modifies this, buffer, heads, nodes
      ensures Linked(u) && H.Valid(model) && H.Used(model, u, level) && level <= top == model.top < |model.lists|
      ensures H.FreeFrom(model, u, level) == H.FreeFrom(old(model), h, start)
      ensures level < top ==> !H.FreeAt(model.blocks, FindBuddy(u, level), level)
      ensures H.UsedBlocks(model) - {u} == H.UsedBlocks(old(model)) - {h}
      ensures Kept(old(buffer[..]), buffer[..], H.UsedBlocks(old(model)) - {h})
      ensures nodes.pages == old(nodes.pages)
    {
      hide H.Valid;
      hide H.FreeFrom;
      hide H.Merge;
      hide H.UsedBlocks;
      hide H.Used;
      hide Linked;
      hide Kept;
      hide PageOk;
      ghost var was, used := buffer[..], H.UsedBlocks(model) - {h};
      KeptStart(was, used);
      u, level := h, start;
      ghost var g := model;
      if level < top {
        HeaderAt(u, level);
        var buddy := FindBuddy(u, level);
        while buffer[buddy].free && buffer[buddy].level == level
          invariant level < top && buddy == FindBuddy(u, level) && buddy < buffer.Length
          invariant Linked(u) && model == g && H.Valid(g) && H.Used(g, u, level) && g.top == top < |g.lists|
          invariant H.FreeFrom(g, u, level) == H.FreeFrom(old(model), h, start)
          invariant Kept(was, buffer[..], used) && H.UsedBlocks(g) - {u} == used
          invariant buffer[buddy].free && buffer[buddy].level == level <==> H.FreeAt(g.blocks, buddy, level)
          invariant nodes.pages == old(nodes.pages)
          decreases top - level
        {
          g := MergeResult(g, u, level);
          u := MergeOnce(u, buddy, level, g, was, used);
          level := level + 1;
          if level == top {
            break;
          }
          HeaderAt(u, level);
          buddy := FindBuddy(u, level);
        }
      }
    }

    /** free: coalesce with free buddies of the same level, then release. */
    method Free(h: nat)
      requires Valid() && h in H.UsedBlocks(model)
      modifies this, buffer, heads, nodes
      ensures Valid() && nodes.pages == old(nodes.pages)
      ensures old(model.blocks[h]).level <= top < |old(model.lists)| && old(model).top == top
      ensures model == H.FreeFrom(old(model), h, old(model.blocks[h]).level)
      ensures H.UsedBlocks(model) == H.UsedBlocks(old(model)) - {h}
      ensures Kept(old(buffer[..]), buffer[..], H.UsedBlocks(old(model)) - {h})
    {
      StartFree(Snapshot(), h);
      hide H.Valid;
      hide H.FreeFrom;
      hide H.UsedBlocks;
      hide Kept;
      hide PageOk;
      var u, level := Coalesce(h, buffer[h].level);
      ghost var m := Snapshot();
      ghost var released := PrepareRelease(m, u, level);
      RegisterAsFree(u, level, u, released);
      KeptRelease(old(buffer[..]), m.buffer, H.UsedBlocks(old(model)) - {h}, m.model, u, buffer[u]);
    }

    // -------------------------------------------------------------- the client

    /** The client's word in the header of its block. */
    method SetUserData(h: nat, data: int)
      requires Valid() && h in H.UsedBlocks(model)
      modifies buffer
      ensures Valid() && h < buffer.Length && buffer[..] == old(buffer[..])[h := old(buffer[h]).(user := data)]
    {
      Shape(-1);
      ghost var m := Snapshot();
      ClientWrite(m, h, buffer[h].(user := data));
      buffer[h] := buffer[h].(user := data);
      assert Snapshot() == m.(buffer := m.buffer[h := buffer[h]]);
    }

    /** The client may write anything behind the header of its block: what looks like a header there is never taken for one. */
    method WritePayload(c: nat, x: Header, ghost h: nat)
      requires Valid() && h in H.UsedBlocks(model) && h < c < h + Pow2(H.UsedBlocks(model)[h])
      modifies buffer
      ensures Valid() && c < buffer.Length && buffer[..] == old(buffer[..])[c := x]
    {
      Shape(-1);
      BehindHeader(model, h, c);
      ghost var m := Snapshot();
      ClientWrite(m, c, x);
      buffer[c] := x;
      assert Snapshot() == m.(buffer := m.buffer[c := x]);
    }
  }

  /** Blocks that are wide enough for their payloads keep the payloads apart, in bytes. */
  lemma PayloadsApart(h: H.Heap, u: nat, v: nat, lenU: nat, lenV: nat)
    requires H.Valid(h) && u in H.UsedBlocks(h) && v in H.UsedBlocks(h) && u < v
    requires H.UsedBlocks(h)[u] == S.LevelFor(lenU) && H.UsedBlocks(h)[v] == S.LevelFor(lenV)
    ensures 32 * u + 16 + lenU < 32 * v && 32 * v + 16 + lenV < 32 * Pow2(h.top)
  {
    S.LevelForFits(lenU);
    S.LevelForFits(lenV);
    assert u + Pow2(h.blocks[u].level) <= v;
    assert H.Within(h.top, v, h.blocks[v].level);
  }

  lemma BehindHeader(h: H.Heap, u: nat, c: nat)
    requires H.Valid(h) && u in h.blocks && u < c < u + Pow2(h.blocks[u].level)
    ensures c !in h.blocks && c < Pow2(h.top)
  {
    assert H.Within(h.top, u, h.blocks[u].level);
  }

  lemma StartFree(m: Memory, h: nat)
    requires PageOk(m, -1) && H.Valid(m.model) && h in H.UsedBlocks(m.model)
    ensures PageOk(m, h) && h in m.model.blocks && h < |m.buffer|
    ensures m.model.top == m.top && |m.model.lists| == m.top + 1 && m.model.blocks[h].level <= m.top
    ensures m.buffer[h].level == m.model.blocks[h].level && H.Used(m.model, h, m.buffer[h].level)
  {
    H.LevelFits(m.model, h);
  }

  lemma BuddyHeader(m: Memory, u: nat, level: nat)
    requires PageOk(m, u) && H.Valid(m.model) && H.Used(m.model, u, level) && level < m.top
    ensures var b := FindBuddy(u, level);
      && b in m.model.blocks && b != u && b < |m.buffer| && b == Buddy(u, level)
      && (m.buffer[b].free && m.buffer[b].level == level <==> H.FreeAt(m.model.blocks, b, level))
  {
    assert H.Within(m.top, u, level);
    FindBuddyIsBuddy(u, level);
    H.BuddyIsHeader(m.top, m.model.blocks, u);
  }

  lemma PrepareMerge(m: Memory, u: nat, b: nat, level: nat, after: H.Heap) returns (taken: H.Heap)
    requires PageOk(m, u) && H.Valid(m.model) && H.Used(m.model, u, level) && level < m.top
    requires b == FindBuddy(u, level) && H.FreeAt(m.model.blocks, b, level)
    requires level < |m.model.lists| && after == H.Merge(m.model, u, level)
    ensures taken == H.Take(m.model, b, level) && b != u && H.Listed(m.model) && m.model.top == m.top
  {
    BuddyHeader(m, u, level);
    taken := H.Take(m.model, b, level);
  }

  /** With the buddy out of its list, the block in hand may take it in. */
  lemma FinishMerge(m: Memory, h: H.Heap, u: nat, b: nat, level: nat, after: H.Heap)
    requires PageOk(m, u) && H.Valid(h) && H.Used(h, u, level) && level < h.top && h.top == m.top
    requires b == FindBuddy(u, level) && H.FreeAt(h.blocks, b, level)
    requires level < |h.lists| && after == H.Merge(h, u, level) && m.model == H.Take(h, b, level)
    ensures PageOk(m.(model := after), H.Lower(u, b))
  {
    assert H.Within(h.top, u, level);
    FindBuddyIsBuddy(u, level);
    H.BuddyFits(h.top, u, level);
    Resize(m, u, after, H.Lower(u, b));
  }

  lemma MergeResult(h: H.Heap, u: nat, level: nat) returns (h': H.Heap)
    requires H.Valid(h) && H.Used(h, u, level) && level < h.top < |h.lists|
    requires H.FreeAt(h.blocks, FindBuddy(u, level), level)
    ensures h' == H.Merge(h, u, level) && |h'.lists| == |h.lists| && h'.top == h.top
    ensures var p := H.Lower(u, FindBuddy(u, level));
      && H.Valid(h') && H.Used(h', p, level + 1)
      && H.UsedBlocks(h') - {p} == H.UsedBlocks(h) - {u}
      && H.FreeFrom(h, u, level) == H.FreeFrom(h', p, level + 1)
  {
    assert H.Within(h.top, u, level);
    FindBuddyIsBuddy(u, level);
    H.MergeValid(h, u, level);
    H.MergeUsed(h, u, level);
    h' := H.Merge(h, u, level);
  }

  lemma PrepareRelease(m: Memory, u: nat, level: nat) returns (after: H.Heap)
    requires PageOk(m, u) && H.Valid(m.model) && H.Used(m.model, u, level) && level <= m.top < |m.model.lists|
    requires m.model.top == m.top
    requires level < m.top ==> !H.FreeAt(m.model.blocks, FindBuddy(u, level), level)
    ensures after == H.Release(m.model, u, level) && H.Valid(after)
    ensures ReadyFor(m, u, u, level) && after == H.FreeFrom(m.model, u, level)
    ensures H.UsedBlocks(after) == H.UsedBlocks(m.model) - {u}
  {
    H.PutFree(m.model.blocks, u, level);
    assert H.Within(m.top, u, level);
    FindBuddyIsBuddy(u, level);
    H.ReleaseValid(m.model, u, level);
    after := H.Release(m.model, u, level);
    forall l | 0 <= l <= m.top ensures u !in m.model.lists[l] {
      assert u in m.model.lists[l] <==> H.FreeAt(m.model.blocks, u, l);
    }
    Ready(m, u, u, level, after);
  }

  lemma SizeInWord(len: nat, top: nat)
    requires top <= 27 && len + S.HEADER < 32 * Pow2(top)
    ensures len + S.HEADER < S.WORD / 2
  {
    Pow2Monotone(top, 27);
    S.Pow2Shift(9, 9);
    S.Pow2Shift(18, 9);
    assert Pow2(9) == 512;
  }

  lemma KeptStart(was: seq<Header>, used: map<nat, nat>)
    ensures Kept(was, was, used)
  {
  }

  lemma KeptTake(was: seq<Header>, h: H.Heap, u: nat, x: Header)
    requires H.Valid(h) && u in h.blocks && h.blocks[u].free && u < |was|
    ensures Kept(was, was[u := x], H.UsedBlocks(h))
  {
    KeptStep(was, was, H.UsedBlocks(h), h, u, x);
  }

  lemma KeptOn(was: seq<Header>, now: seq<Header>, later: seq<Header>, used: map<nat, nat>)
    requires Kept(was, now, used) && Kept(now, later, used)
    ensures Kept(was, later, used)
  {
  }

  lemma KeptMerge(was: seq<Header>, now: seq<Header>, used: map<nat, nat>, h: H.Heap, u: nat, b: nat, level: nat,
                  x: Header)
    requires H.Valid(h) && H.FreeAt(h.blocks, b, level) && b < |now|
    requires Kept(was, now, used) && used == H.UsedBlocks(h) - {u}
    ensures Kept(was, now[b := x], used)
  {
    KeptStep(was, now, used, h, b, x);
  }

  lemma KeptRelease(was: seq<Header>, now: seq<Header>, used: map<nat, nat>, h: H.Heap, u: nat, x: Header)
    requires H.Valid(h) && u in h.blocks && u < |now|
    requires Kept(was, now, used) && used == H.UsedBlocks(h) - {u}
    ensures Kept(was, now[u := x], used)
  {
    KeptStep(was, now, used, h, u, x);
  }

  lemma KeptSplit(was: seq<Header>, now: seq<Header>, used: map<nat, nat>, h: H.Heap, after: H.Heap, u: nat,
                  level: nat, x: Header)
    requires H.Valid(h) && H.Used(h, u, level) && 0 < level < |h.lists| && after == H.Split(h, u, level)
    requires Kept(was, now, used) && used == H.UsedBlocks(after) - {u} && FindBuddy(u, level - 1) < |now|
    ensures Kept(was, now[FindBuddy(u, level - 1) := x], used)
  {
    hide H.UsedBlocks;
    hide H.Split;
    hide FindBuddy;
    hide Aligned;
    hide Kept;
    H.SplitFrees(h, u, level);
    H.SplitAligned(h, u, level);
    hide H.Valid;
    H.SplitValid(h, u, level);
    FindBuddyIsBuddy(u, level - 1);
    KeptStep(was, now, used, after, FindBuddy(u, level - 1), x);
  }

  lemma SplitResult(h: H.Heap, u: nat, level: nat, expected: nat) returns (h': H.Heap)
    requires H.Valid(h) && H.Used(h, u, level) && 0 < level < |h.lists|
    ensures h' == H.Split(h, u, level) && H.Valid(h') && H.Used(h', u, level - 1) && |h'.lists| == |h.lists|
    ensures H.UsedBlocks(h') - {u} == H.UsedBlocks(h) - {u}
    ensures expected < level ==> H.SplitDown(h, u, level, expected) == H.SplitDown(h', u, level - 1, expected)
  {
    H.SplitValid(h, u, level);
    H.SplitUsed(h, u, level);
    h' := H.Split(h, u, level);
  }

  lemma PrepareTake(h: H.Heap, u: nat, level: nat, expected: nat) returns (taken: H.Heap)
    requires H.Valid(h) && expected <= level <= h.top && |h.lists| == h.top + 1
    requires H.FindLevel(h, expected) == Some(level) && h.lists[level][0] == u
    ensures taken == H.Take(h, u, level) && |taken.lists| == h.top + 1 && taken.top == h.top
    ensures H.FreeAt(h.blocks, u, level) && H.Listed(h) && H.Valid(taken) && H.Used(taken, u, level)
    ensures H.UsedBlocks(taken) - {u} == H.UsedBlocks(h)
    ensures H.Allocate(h, expected) == Some((H.SplitDown(taken, u, level, expected), u))
  {
    assert u in h.lists[level];
    H.TakeValid(h, u, level);
    H.PutUsed(h.blocks, u, level);
    assert u !in H.UsedBlocks(h);
    taken := H.Take(h, u, level);
  }

  lemma NotListed(h: H.Heap, b: nat)
    requires H.Listed(h) && b !in h.blocks
    ensures forall l :: 0 <= l <= h.top ==> b !in h.lists[l]
  {
    forall l | 0 <= l <= h.top ensures b !in h.lists[l] {
      assert b in h.lists[l] <==> H.FreeAt(h.blocks, b, l);
    }
  }

  /** What a split does, seen as giving up the upper half and then releasing it. */
  lemma HalfInHand(h: H.Heap, u: nat, level: nat, after: H.Heap) returns (g: H.Heap, b: nat)
    requires H.Valid(h) && H.Used(h, u, level) && 0 < level < |h.lists| && after == H.Split(h, u, level)
    ensures g == h.(blocks := h.blocks[u := H.Block(level - 1, false)]) && b == FindBuddy(u, level - 1)
    ensures b < Pow2(h.top) && b != u && b !in g.blocks && forall l :: 0 <= l <= h.top ==> b !in g.lists[l]
    ensures after == H.Release(g, b, level - 1) && H.Valid(after)
  {
    H.LevelFits(h, u);
    H.SplitValid(h, u, level);
    H.SplitTiled(h.top, h.blocks, u, false, true);
    assert H.Within(h.top, u, level);
    AlignedWeaken(u, level - 1, level);
    FindBuddyIsBuddy(u, level - 1);
    b := FindBuddy(u, level - 1);
    NotListed(h, b);
    g := h.(blocks := h.blocks[u := H.Block(level - 1, false)]);
    assert H.Within(h.top, b, level - 1) by {
      assert b in after.blocks;
    }
  }

  /** Before the upper half is released: the block in hand is already one level smaller. */
  lemma PrepareSplit(m: Memory, u: nat, level: nat, after: H.Heap) returns (g: H.Heap)
    requires PageOk(m, u) && H.Valid(m.model) && H.Used(m.model, u, level) && 0 < level < |m.model.lists|
    requires after == H.Split(m.model, u, level)
    ensures |m.model.lists| == |g.lists|
    ensures var b := FindBuddy(u, level - 1);
      && PageOk(m.(model := g), u) && ReadyFor(m.(model := g), u, b, level - 1) && b != u
      && after == H.Release(g, b, level - 1)
    ensures H.Used(after, u, level - 1)
  {
    hide H.Valid;
    hide H.Split;
    H.SplitValid(m.model, u, level);
    var b;
    g, b := HalfInHand(m.model, u, level, after);
    Resize(m, u, g, u);
    Ready(m.(model := g), u, b, level - 1, after);
  }

  /** A block size below 2^64 is not truncated. */
  lemma BlockSizeInWord(n: nat)
    requires 16 <= n < S.WORD / 2
    ensures 4 <= Log2(n) < 63 && 32 <= Pow2(Log2(n) + 1) < S.WORD
  {
    hide Log2;
    S.WordIsPow2();
    Log2Bounds(n);
    if Log2(n) >= 63 { Pow2Monotone(63, Log2(n)); }
    Pow2Monotone(Log2(n) + 1, 63);
    Log2Monotone(16, n);
    Log2OfPow2(4);
    assert Pow2(4) == 16;
    Pow2Monotone(5, Log2(n) + 1);
    assert Pow2(5) == 32;
  }

  lemma SmallMod(a: nat, m: nat)
    requires a < m
    ensures a % m == a
  {
  }

  /** level_of(next_pow_2(len + sizeof header)) is the level the block needs. */
  lemma BlockSizeLevel(len: nat, blockSize: nat)
    requires len + S.HEADER < S.WORD / 2 && blockSize == Pow2(Log2(len + S.HEADER) + 1) % S.WORD
    ensures blockSize >= 32 && S.LevelOf(blockSize) == S.LevelFor(len)
  {
    hide Log2;
    hide Pow2;
    var n := len + S.HEADER;
    BlockSizeInWord(n);
    SmallMod(Pow2(Log2(n) + 1), S.WORD);
    Log2OfPow2(Log2(n) + 1);
  }

  // ---------------------------------------------------------------- a run

  /** A page of 64 bytes has two blocks of 32, each for 10 bytes and their header, and then no more. */
  method TwoSmallBlocks() returns (first: Option<nat>, second: Option<nat>, third: Option<nat>)
    ensures first == Some(0) && second == Some(1) && third == None
  {
    hide Page.Valid;
    hide Page.Linked;
    hide PageOk;
    hide Kept;
    hide H.Valid;
    hide H.HasRoom;
    var page := new Page(1);
    S.LevelForFits(10);
    S.LevelIsUnique(10, 0);
    SmallRuns();
    first := page.Allocate(10);
    second := page.Allocate(10);
    third := page.Allocate(10);
  }

  lemma SmallRuns()
    ensures var half := H.Heap(1, map[0 := H.Block(0, false), 1 := H.Block(0, true)], [[1], []]);
      var full := H.Heap(1, map[0 := H.Block(0, false), 1 := H.Block(0, false)], [[], []]);
      && H.Allocate(H.Fresh(1), 0) == Some((half, 0))
      && H.Allocate(half, 0) == Some((full, 1)) && H.Allocate(full, 0) == None
  {
    var h := H.Fresh(1);
    var half := H.Heap(1, map[0 := H.Block(0, false), 1 := H.Block(0, true)], [[1], []]);
    assert h.lists == [[], [0]];
    assert H.FindLevel(h, 0) == Some(1);
    var taken := H.Take(h, 0, 1);
    assert taken == H.Heap(1, map[0 := H.Block(1, false)], [[], []]);
    assert Buddy(0, 0) == 1;
    var split := H.Split(taken, 0, 1);
    assert [1] + taken.lists[0] == [1] && split.lists == half.lists && split.blocks == half.blocks;
    assert split == half;
    assert H.SplitDown(taken, 0, 1, 0) == half;
    assert H.Take(half, 1, 0) == H.Heap(1, map[0 := H.Block(0, false), 1 := H.Block(0, false)], [[], []]);
  }
}
