/** How the header nodes, the level chains and the free headers of a buddy page hang together, on a snapshot of the memory. */
module BuddyLists {
  import opened Sequences
  import opened Bits
  import opened BuddyNodes
  import H = BuddyHeap
  import B = BuddyBound

  /** `user` is the header node of a free block, client data of a used one. */
  datatype Header = Header(user: int, free: bool, level: nat)

  /** The memory of a page together with what it stands for: `chains[l]` are the nodes of level list l,
      `home` says which chain a node is on, with top + 1 for the free chain of the pool. */
  datatype Memory = Memory(
    top: nat,
    prev: seq<int>, next: seq<int>, ptr: seq<int>, freeHead: int, pool: seq<nat>,
    heads: seq<int>,
    buffer: seq<Header>,
    chains: seq<seq<nat>>,
    home: seq<nat>,
    model: H.Heap)

  ghost predicate ShapeOk(m: Memory)
  {
    && |m.prev| == |m.next| == |m.ptr| == |m.home|
    && |m.heads| == |m.chains| == |m.model.lists| == m.top + 1 && m.model.top == m.top
  }

  ghost predicate HomesOk(m: Memory)
  {
    && (forall l, i :: 0 <= l < |m.chains| && 0 <= i < |m.chains[l]| ==> AtHome(m, m.chains[l][i], l))
    && (forall i :: 0 <= i < |m.pool| ==> AtHome(m, m.pool[i], m.top + 1))
  }

  predicate AtHome(m: Memory, node: nat, l: nat)
  {
    node < |m.home| && m.home[node] == l
  }

  ghost predicate ChainsOk(m: Memory)
    requires ShapeOk(m)
  {
    && Chain(m.next, m.freeHead, m.pool)
    && forall l :: 0 <= l <= m.top ==> Doubly(m.prev, m.next, m.heads[l], m.chains[l])
  }

  /** A list node and the header of its block point at each other. */
  predicate Tied(m: Memory, node: nat, u: nat)
  {
    node < |m.ptr| && m.ptr[node] == u && u < |m.buffer| && m.buffer[u].user == node
  }

  ghost predicate TiedOk(m: Memory)
    requires ShapeOk(m)
  {
    forall l :: 0 <= l <= m.top ==>
      && |m.chains[l]| == |m.model.lists[l]|
      && forall i :: 0 <= i < |m.chains[l]| ==> Tied(m, m.chains[l][i], m.model.lists[l][i])
  }

  ghost predicate CountOk(m: Memory)
    requires ShapeOk(m)
  {
    |m.pool| + B.Entries(m.model.lists, m.top + 1) == |m.next|
  }

  ghost predicate ListsOk(m: Memory)
  {
    match m case Memory(_, _, _, _, _, _, _, _, _, _, _) =>
      ShapeOk(m) && HomesOk(m) && ChainsOk(m) && TiedOk(m) && CountOk(m)
  }

  /** The headers in the buffer describe the blocks, except the block `hand` being worked on. */
  ghost predicate HeadersOk(m: Memory, hand: int)
  {
    match m case Memory(_, _, _, _, _, _, _, buffer, _, _, model) =>
      && (forall u :: u in model.blocks ==> u < |buffer|)
      && (forall u :: u in model.blocks && u != hand ==>
            buffer[u].level == model.blocks[u].level && buffer[u].free == model.blocks[u].free)
  }

  /** The lists do not depend on the blocks in use. */
  lemma SameLists(m: Memory, model: H.Heap)
    requires ListsOk(m) && model.lists == m.model.lists && model.top == m.model.top
    ensures ListsOk(m.(model := model))
  {
    var m' := m.(model := model);
    assert ShapeOk(m');
    forall l, i | 0 <= l < |m'.chains| && 0 <= i < |m'.chains[l]| ensures AtHome(m', m'.chains[l][i], l) {
      assert AtHome(m, m.chains[l][i], l);
    }
    forall i | 0 <= i < |m'.pool| ensures AtHome(m', m'.pool[i], m'.top + 1) {
      assert AtHome(m, m.pool[i], m.top + 1);
    }
    forall l, i | 0 <= l <= m'.top && 0 <= i < |m'.chains[l]| ensures Tied(m', m'.chains[l][i], m'.model.lists[l][i]) {
      assert Tied(m, m.chains[l][i], m.model.lists[l][i]);
    }
  }

  // ---------------------------------------------------------------- a block joins a list

  /** Node `node`, from the head of the pool, now heads the chain of `level` on behalf of block u. */
  ghost predicate Joins(m: Memory, m': Memory, node: nat, u: nat, level: nat)
  {
    && ShapeOk(m) && level <= m.top && u < |m.buffer| && node < |m.next|
    && m.pool != [] && m.pool[0] == node && m'.pool == m.pool[1..]
    && m'.top == m.top && |m'.prev| == |m'.next| == |m.next|
    && Chain(m'.next, m'.freeHead, m'.pool)
    && m'.ptr == m.ptr[node := u] && m'.home == m.home[node := level]
    && m'.buffer == m.buffer[u := Header(node, true, level)]
    && m'.chains == m.chains[level := [node] + m.chains[level]]
    && m'.model == H.Release(m.model, u, level)
    && |m'.heads| == |m.heads| && (forall l :: 0 <= l < |m.heads| && l != level ==> m'.heads[l] == m.heads[l])
    && Doubly(m'.prev, m'.next, m'.heads[level], m'.chains[level])
    && (forall x: nat :: x < |m.next| && x != node ==> m'.next[x] == m.next[x])
    && (forall x: nat :: x < |m.next| && x != node && x !in m.chains[level] ==> m'.prev[x] == m.prev[x])
  }

  lemma JoinHomes(m: Memory, m': Memory, node: nat, u: nat, level: nat)
    requires Joins(m, m', node, u, level) && HomesOk(m) && NoDup(m.pool)
    ensures ShapeOk(m') && HomesOk(m')
  {
    forall l, i | 0 <= l < |m'.chains| && 0 <= i < |m'.chains[l]| ensures AtHome(m', m'.chains[l][i], l) {
      var j := if l == level then i - 1 else i;
      if l != level || i > 0 {
        assert AtHome(m, m.chains[l][j], l);
        assert AtHome(m, node, m.top + 1);
      }
    }
    forall i | 0 <= i < |m'.pool| ensures AtHome(m', m'.pool[i], m'.top + 1) {
      assert AtHome(m, m.pool[i + 1], m.top + 1);
    }
  }

  lemma JoinChains(m: Memory, m': Memory, node: nat, u: nat, level: nat)
    requires Joins(m, m', node, u, level) && HomesOk(m) && ChainsOk(m)
    ensures ShapeOk(m') && ChainsOk(m')
  {
    forall l | 0 <= l <= m'.top ensures Doubly(m'.prev, m'.next, m'.heads[l], m'.chains[l]) {
      if l != level {
        var s := m.chains[l];
        assert Doubly(m.prev, m.next, m.heads[l], s);
        forall x | x in s ensures x < |m.next| && m'.next[x] == m.next[x] && m'.prev[x] == m.prev[x] {
          var i :| 0 <= i < |s| && s[i] == x;
          assert AtHome(m, m.chains[l][i], l);
          assert AtHome(m, node, m.top + 1);
          NotOnChain(m, x, l, level);
        }
        DoublyFrame(m.prev, m.next, m'.prev, m'.next, m.heads[l], s);
      }
    }
  }

  /** A node is on the chain that is its home, and on no other. */
  lemma NotOnChain(m: Memory, x: nat, l: nat, other: nat)
    requires HomesOk(m) && AtHome(m, x, l) && other < |m.chains| && l != other
    ensures x !in m.chains[other]
  {
    forall i | 0 <= i < |m.chains[other]| ensures m.chains[other][i] != x {
      assert AtHome(m, m.chains[other][i], other);
    }
  }

  lemma JoinTied(m: Memory, m': Memory, node: nat, u: nat, level: nat)
    requires Joins(m, m', node, u, level) && HomesOk(m) && TiedOk(m)
    requires forall l :: 0 <= l <= m.top ==> u !in m.model.lists[l]
    ensures ShapeOk(m') && TiedOk(m')
  {
    forall l, i | 0 <= l <= m'.top && 0 <= i < |m'.chains[l]|
      ensures |m'.chains[l]| == |m'.model.lists[l]| && Tied(m', m'.chains[l][i], m'.model.lists[l][i])
    {
      if l != level || i > 0 {
        var j := if l == level then i - 1 else i;
        assert Tied(m, m.chains[l][j], m.model.lists[l][j]);
        assert m.model.lists[l][j] in m.model.lists[l];
        assert AtHome(m, m.chains[l][j], l);
        assert AtHome(m, node, m.top + 1);
      }
    }
  }

  lemma Join(m: Memory, m': Memory, node: nat, u: nat, level: nat)
    requires Joins(m, m', node, u, level) && ListsOk(m)
    requires forall l :: 0 <= l <= m.top ==> u !in m.model.lists[l]
    ensures ListsOk(m')
  {
    JoinHomes(m, m', node, u, level);
    JoinChains(m, m', node, u, level);
    JoinTied(m, m', node, u, level);
    B.EntriesUpdate(m.model.lists, m.top + 1, level, [u] + m.model.lists[level]);
  }

  // ---------------------------------------------------------------- a block leaves its list

  /** Entry k of the list of `level`, node `node` for block u, goes; the node returns to the pool.
      The header of u is now that of a used block of level `level'`. */
  ghost predicate Leaves(m: Memory, m': Memory, node: nat, u: nat, level: nat, k: nat, level': nat)
  {
    && ShapeOk(m) && level <= m.top && u < |m.buffer| && node < |m.next|
    && k < |m.chains[level]| == |m.model.lists[level]|
    && m.chains[level][k] == node && m.model.lists[level][k] == u
    && m'.pool == [node] + m.pool
    && m'.top == m.top && |m'.prev| == |m'.next| == |m.next|
    && Chain(m'.next, m'.freeHead, m'.pool)
    && m'.ptr == m.ptr && m'.home == m.home[node := m.top + 1]
    && m'.buffer == m.buffer[u := Header(NIL, false, level')]
    && m'.chains == m.chains[level := Without(m.chains[level], k)]
    && m'.model == H.Take(m.model, u, level)
    && |m'.heads| == |m.heads| && (forall l :: 0 <= l < |m.heads| && l != level ==> m'.heads[l] == m.heads[l])
    && Doubly(m'.prev, m'.next, m'.heads[level], m'.chains[level])
    && (forall x: nat :: x < |m.next| && x !in m.chains[level] ==> m'.next[x] == m.next[x])
    && (forall x: nat :: x < |m.next| && x !in m.chains[level] && x !in m.pool ==> m'.prev[x] == m.prev[x])
  }

  lemma LeaveHomes(m: Memory, m': Memory, node: nat, u: nat, level: nat, k: nat, level': nat)
    requires Leaves(m, m', node, u, level, k, level') && HomesOk(m) && NoDup(m.chains[level])
    ensures ShapeOk(m') && HomesOk(m')
  {
    forall l, i | 0 <= l < |m'.chains| && 0 <= i < |m'.chains[l]| ensures AtHome(m', m'.chains[l][i], l) {
      var j := if l == level && i >= k then i + 1 else i;
      assert AtHome(m, m.chains[l][j], l);
      assert AtHome(m, node, level);
    }
    forall i | 0 <= i < |m'.pool| ensures AtHome(m', m'.pool[i], m'.top + 1) {
      if i > 0 { assert AtHome(m, m.pool[i - 1], m.top + 1); }
    }
  }

  lemma LeaveChains(m: Memory, m': Memory, node: nat, u: nat, level: nat, k: nat, level': nat)
    requires Leaves(m, m', node, u, level, k, level') && HomesOk(m) && ChainsOk(m)
    ensures ShapeOk(m') && ChainsOk(m')
  {
    forall l | 0 <= l <= m'.top ensures Doubly(m'.prev, m'.next, m'.heads[l], m'.chains[l]) {
      if l != level {
        var s := m.chains[l];
        assert Doubly(m.prev, m.next, m.heads[l], s);
        forall x | x in s ensures x < |m.next| && m'.next[x] == m.next[x] && m'.prev[x] == m.prev[x] {
          var i :| 0 <= i < |s| && s[i] == x;
          assert AtHome(m, m.chains[l][i], l);
          NotOnChain(m, x, l, level);
          NotInPool(m, x, l);
        }
        DoublyFrame(m.prev, m.next, m'.prev, m'.next, m.heads[l], s);
      }
    }
  }

  lemma NotInPool(m: Memory, x: nat, l: nat)
    requires HomesOk(m) && AtHome(m, x, l) && l <= m.top
    ensures x !in m.pool
  {
    forall i | 0 <= i < |m.pool| ensures m.pool[i] != x {
      assert AtHome(m, m.pool[i], m.top + 1);
    }
  }

  lemma {:induction false} RemoveFromAt(s: seq<nat>, k: nat)
    requires k < |s| && NoDup(s)
    ensures H.RemoveFrom(s, s[k]) == Without(s, k)
  {
    if k > 0 {
      var t := s[1..];
      assert s[0] != s[k] && t[k - 1] == s[k];
      RemoveFromAt(t, k - 1);
      assert [s[0]] + t[..k-1] == s[..k];
      assert t[k..] == s[k+1..];
    }
  }

  lemma LeaveTied(m: Memory, m': Memory, node: nat, u: nat, level: nat, k: nat, level': nat)
    requires Leaves(m, m', node, u, level, k, level') && HomesOk(m) && TiedOk(m)
    requires forall l :: 0 <= l <= m.top ==> NoDup(m.model.lists[l])
    requires forall l :: 0 <= l <= m.top && l != level ==> u !in m.model.lists[l]
    ensures ShapeOk(m') && TiedOk(m')
  {
    RemoveFromAt(m.model.lists[level], k);
    forall l, i | 0 <= l <= m'.top && 0 <= i < |m'.chains[l]|
      ensures |m'.chains[l]| == |m'.model.lists[l]| && Tied(m', m'.chains[l][i], m'.model.lists[l][i])
    {
      var j := if l == level && i >= k then i + 1 else i;
      assert Tied(m, m.chains[l][j], m.model.lists[l][j]);
      assert m.model.lists[l][j] in m.model.lists[l];
    }
  }

  lemma Leave(m: Memory, m': Memory, node: nat, u: nat, level: nat, k: nat, level': nat)
    requires Leaves(m, m', node, u, level, k, level') && ListsOk(m) && H.Listed(m.model)
    ensures ListsOk(m')
  {
    hide HomesOk;
    hide TiedOk;
    LeaveHomes(m, m', node, u, level, k, level');
    LeaveChains(m, m', node, u, level, k, level');
    assert u in m.model.lists[level];
    forall l | 0 <= l <= m.top && l != level ensures u !in m.model.lists[l] {
      assert H.FreeAt(m.model.blocks, u, level);
    }
    LeaveTied(m, m', node, u, level, k, level');
    RemoveFromAt(m.model.lists[level], k);
    B.EntriesUpdate(m.model.lists, m.top + 1, level, H.RemoveFrom(m.model.lists[level], u));
  }

  // ---------------------------------------------------------------- whole pages

  /** What holds of a page between any two registrations; `hand` is the block being worked on, or -1. */
  ghost predicate PageOk(m: Memory, hand: int)
  {
    match m case Memory(top, _, next, _, _, _, heads, buffer, _, _, _) =>
      && 1 <= top <= 27 && |buffer| == Pow2(top) && |heads| == top + 1 && |next| == Pow2(top - 1)
      && ListsOk(m) && HeadersOk(m, hand)
  }

  /** What register_as_free asks for: block u is in hand or new, and the pool has a node. */
  ghost predicate ReadyFor(m: Memory, hand: int, u: nat, level: nat)
  {
    match m case Memory(top, prev, next, _, _, pool, heads, buffer, chains, _, model) =>
      && ShapeOk(m) && level <= top && u < |buffer| && (u == hand || u !in model.blocks)
      && (forall l :: 0 <= l <= top ==> u !in model.lists[l])
      && pool != [] && pool[0] < |next| && pool[0] !in chains[level]
      && Doubly(prev, next, heads[level], chains[level])
  }

  /** A page that may take one more free block still has a node for it. */
  lemma Ready(m: Memory, hand: int, u: nat, level: nat, after: H.Heap)
    requires PageOk(m, hand) && level <= m.top && |m.model.lists| == m.top + 1
    requires H.Valid(after) && after == H.Release(m.model, u, level)
    requires u < Pow2(m.top) && (u == hand || u !in m.model.blocks)
    requires forall l :: 0 <= l <= m.top ==> u !in m.model.lists[l]
    ensures ReadyFor(m, hand, u, level)
  {
    B.FreeBlocksBound(after);
    B.EntriesUpdate(m.model.lists, m.top + 1, level, [u] + m.model.lists[level]);
    assert AtHome(m, m.pool[0], m.top + 1);
    NotOnChain(m, m.pool[0], m.top + 1, level);
  }

  /** register_as_free keeps the page. */
  lemma JoinPage(m: Memory, m': Memory, hand: int, node: nat, u: nat, level: nat)
    requires PageOk(m, hand) && ReadyFor(m, hand, u, level) && Joins(m, m', node, u, level)
    ensures PageOk(m', if u == hand then -1 else hand)
  {
    Join(m, m', node, u, level);
  }

  /** register_as_used keeps the page. */
  lemma LeavePage(m: Memory, m': Memory, hand: int, node: nat, u: nat, level: nat, k: nat, level': nat)
    requires PageOk(m, hand) && Leaves(m, m', node, u, level, k, level') && H.Listed(m.model)
    requires level' != level ==> hand == -1
    ensures PageOk(m', if level' == level then hand else u)
  {
    Leave(m, m', node, u, level, k, level');
  }

  /** The node that the header of a free block names is the one at the block's position in its list. */
  lemma FindEntry(m: Memory, hand: int, u: nat) returns (k: nat)
    requires PageOk(m, hand) && H.Listed(m.model) && u in m.model.blocks && m.model.blocks[u].free && u != hand
    requires m.model.blocks[u].level <= m.top
    ensures u < |m.buffer| && m.buffer[u].level == m.model.blocks[u].level
    ensures var level := m.model.blocks[u].level;
      && k < |m.model.lists[level]| == |m.chains[level]| && m.model.lists[level][k] == u
      && Tied(m, m.chains[level][k], u)
      && Doubly(m.prev, m.next, m.heads[level], m.chains[level])
      && forall x :: x in m.chains[level] ==> x !in m.pool
  {
    var level := m.model.blocks[u].level;
    assert H.FreeAt(m.model.blocks, u, level);
    assert u in m.model.lists[level];
    k :| 0 <= k < |m.model.lists[level]| && m.model.lists[level][k] == u;
    assert Tied(m, m.chains[level][k], m.model.lists[level][k]);
    forall i | 0 <= i < |m.chains[level]| ensures m.chains[level][i] !in m.pool {
      assert AtHome(m, m.chains[level][i], level);
      NotInPool(m, m.chains[level][i], level);
    }
  }

  /** The list at a head that is not null starts with the block of the head node. */
  lemma HeadOfList(m: Memory, hand: int, level: nat)
    requires PageOk(m, hand) && level <= m.top
    ensures |m.heads| == |m.model.lists| == m.top + 1
    ensures m.heads[level] == NIL <==> m.model.lists[level] == []
    ensures m.heads[level] != NIL ==>
      0 <= m.heads[level] < |m.ptr| && m.ptr[m.heads[level]] == m.model.lists[level][0]
  {
    assert Doubly(m.prev, m.next, m.heads[level], m.chains[level]);
    if m.chains[level] != [] {
      assert Tied(m, m.chains[level][0], m.model.lists[level][0]);
    }
  }

  /** The block in hand may change its extent without any registration. */
  lemma Resize(m: Memory, hand: int, model: H.Heap, hand': nat)
    requires PageOk(m, hand) && model.lists == m.model.lists && model.top == m.model.top
    requires forall u :: u in model.blocks && u != hand' ==> u in m.model.blocks && u != hand && model.blocks[u] == m.model.blocks[u]
    requires hand' < Pow2(m.top)
    ensures PageOk(m.(model := model), hand')
  {
    SameLists(m, model);
  }

  /** The block in hand is put down when its header says what it is. */
  lemma PutDown(m: Memory, hand: nat)
    requires PageOk(m, hand) && hand in m.model.blocks
    requires hand < |m.buffer| ==> m.buffer[hand].level == m.model.blocks[hand].level && m.buffer[hand].free == m.model.blocks[hand].free
    ensures PageOk(m, -1)
  {
  }

  // ---------------------------------------------------------------- payloads

  predicate Inside(used: map<nat, nat>, v: nat, c: nat)
  {
    v in used && v <= c < v + Pow2(used[v])
  }

  /** The cells of the given blocks, headers and payloads, are as they were. */
  ghost predicate Kept(was: seq<Header>, now: seq<Header>, used: map<nat, nat>)
  {
    && |was| == |now|
    && forall v: nat, c: nat :: Inside(used, v, c) && c < |was| ==> now[c] == was[c]
  }

  /** Writing at the start of one block touches no other block. */
  lemma KeptStep(was: seq<Header>, now: seq<Header>, used: map<nat, nat>, model: H.Heap, w: nat, x: Header)
    requires Kept(was, now, used) && H.Valid(model) && w in model.blocks && w < |now| && w !in used
    requires forall v :: v in used ==> v in H.UsedBlocks(model) && H.UsedBlocks(model)[v] == used[v]
    ensures Kept(was, now[w := x], used)
  {
    forall v: nat, c: nat | Inside(used, v, c) && c < |was| ensures c != w {
      assert v in model.blocks && model.blocks[v].level == used[v];
    }
  }

  /** What a client may write: anything behind the header of a used block, and the user word of its header. */
  predicate ClientMayWrite(model: H.Heap, buffer: seq<Header>, c: nat, x: Header)
  {
    && c < |buffer|
    && (c in model.blocks ==> !model.blocks[c].free && x.level == buffer[c].level && x.free == buffer[c].free)
  }

  lemma ClientWrite(m: Memory, c: nat, x: Header)
    requires PageOk(m, -1) && H.Valid(m.model) && ClientMayWrite(m.model, m.buffer, c, x)
    ensures PageOk(m.(buffer := m.buffer[c := x]), -1)
  {
    var m' := m.(buffer := m.buffer[c := x]);
    assert ListsOk(m') by {
      forall l, i | 0 <= l < |m'.chains| && 0 <= i < |m'.chains[l]| ensures AtHome(m', m'.chains[l][i], l) {
        assert AtHome(m, m.chains[l][i], l);
      }
      forall i | 0 <= i < |m'.pool| ensures AtHome(m', m'.pool[i], m'.top + 1) {
        assert AtHome(m, m.pool[i], m.top + 1);
      }
      forall l, i | 0 <= l <= m'.top && 0 <= i < |m'.chains[l]|
        ensures Tied(m', m'.chains[l][i], m'.model.lists[l][i])
      {
        assert Tied(m, m.chains[l][i], m.model.lists[l][i]);
        assert m.model.lists[l][i] in m.model.lists[l];
        assert H.FreeAt(m.model.blocks, m.model.lists[l][i], l);
      }
    }
  }
}
