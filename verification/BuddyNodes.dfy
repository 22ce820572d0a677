/**
  node_chain and node_pool of benchmarks/gc_prototype.cpp for buddy::header_node.

  A node is an index into the node memory, which grows by whole pages; -1 is the null pointer.
  Chains are threaded through `next` and `prev`; the free chain of the pool is only ever used
  at its head, so its `prev` links may be stale.
*/
module BuddyNodes {
  import opened Sequences

  const NIL := -1

  /** `nodes` are the nodes reached from `head` by `next`. */
  ghost predicate Chain(next: seq<int>, head: int, nodes: seq<nat>)
  {
    && NoDup(nodes)
    && (forall i :: 0 <= i < |nodes| ==> nodes[i] < |next|)
    && head == (if nodes == [] then NIL else nodes[0])
    && (forall i, j :: 0 <= i < |nodes| && j == i + 1 && j < |nodes| ==> next[nodes[i]] == nodes[j])
    && (nodes != [] ==> next[nodes[|nodes|-1]] == NIL)
  }

  /** The `prev` links of a chain mirror its `next` links. */
  ghost predicate Mirrored(prev: seq<int>, nodes: seq<nat>)
  {
    && (forall i :: 0 <= i < |nodes| ==> nodes[i] < |prev|)
    && (forall i, j :: 0 <= i < |nodes| && j == i + 1 && j < |nodes| ==> prev[nodes[j]] == nodes[i])
    && (nodes != [] ==> prev[nodes[0]] == NIL)
  }

  ghost predicate Doubly(prev: seq<int>, next: seq<int>, head: int, nodes: seq<nat>)
  {
    Chain(next, head, nodes) && Mirrored(prev, nodes)
  }

  /** A chain does not care about nodes that are not on it. */
  lemma DoublyFrame(prev: seq<int>, next: seq<int>, prev': seq<int>, next': seq<int>, head: int, nodes: seq<nat>)
    requires Doubly(prev, next, head, nodes) && |prev| <= |prev'| && |next| <= |next'|
    requires forall x :: x in nodes ==> x < |next| && x < |prev| && next'[x] == next[x] && prev'[x] == prev[x]
    ensures Doubly(prev', next', head, nodes)
  {
  }

  lemma ChainFrame(next: seq<int>, next': seq<int>, head: int, nodes: seq<nat>)
    requires Chain(next, head, nodes) && |next| <= |next'|
    requires forall x :: x in nodes ==> x < |next| && next'[x] == next[x]
    ensures Chain(next', head, nodes)
  {
  }

  /** The chain without the node at position k. */
  function Without(nodes: seq<nat>, k: nat): seq<nat>
    requires k < |nodes|
  {
    nodes[..k] + nodes[k+1..]
  }

  lemma WithoutProps(nodes: seq<nat>, k: nat)
    requires k < |nodes| && NoDup(nodes)
    ensures forall x :: x in Without(nodes, k) ==> x in nodes && x != nodes[k]
  {
    var rest := Without(nodes, k);
    forall x | x in rest ensures x in nodes && x != nodes[k] {
      var i :| 0 <= i < |rest| && rest[i] == x;
      assert rest[i] == nodes[if i < k then i else i + 1];
    }
  }

  /** Node x is spliced out of its chain. */
  lemma SpliceChain(next: seq<int>, next': seq<int>, head: int, nodes: seq<nat>, k: nat)
    requires k < |nodes| && Chain(next, head, nodes)
    requires next' == if k == 0 then next else next[nodes[k - 1] := next[nodes[k]]]
    ensures Chain(next', if k == 0 then next[nodes[k]] else head, Without(nodes, k))
  {
    WithoutProps(nodes, k);
    var rest := Without(nodes, k);
    assert forall i :: 0 <= i < |rest| ==> rest[i] == nodes[if i < k then i else i + 1];
    assert k < |nodes| - 1 ==> next[nodes[k]] == nodes[k + 1];
  }

  lemma SpliceMirror(prev: seq<int>, prev': seq<int>, nodes: seq<nat>, k: nat)
    requires k < |nodes| && NoDup(nodes) && Mirrored(prev, nodes) && |prev'| == |prev|
    requires forall x :: 0 <= x < |prev| && x != nodes[k] && (k < |nodes| - 1 ==> x != nodes[k + 1]) ==> prev'[x] == prev[x]
    requires k < |nodes| - 1 ==> prev'[nodes[k + 1]] == prev[nodes[k]]
    ensures Mirrored(prev', Without(nodes, k))
  {
    var rest := Without(nodes, k);
    assert forall i :: 0 <= i < |rest| ==> rest[i] == nodes[if i < k then i else i + 1];
    assert 0 < k ==> prev[nodes[k]] == nodes[k - 1];
  }

  lemma DelistFacts(nodes: seq<nat>, k: nat)
    requires k < |nodes| && NoDup(nodes)
    ensures forall x :: x in Without(nodes, k) ==> x in nodes && x != nodes[k]
    ensures nodes[k] in nodes
  {
    WithoutProps(nodes, k);
  }

  class Nodes {
    var prev: seq<int>
    var next: seq<int>
    var ptr: seq<int>
    var freeHead: int
    var pages: nat
    const pageCapacity: nat
    /** The free chain of the pool. */
    ghost var pool: seq<nat>

    ghost predicate Valid()
      reads this
    {
      && pageCapacity >= 1
      && |prev| == |next| == |ptr|
      && Chain(next, freeHead, pool)
    }

    constructor (capacity: nat)
      requires capacity >= 1
      ensures Valid() && pageCapacity == capacity && pages == 1
      ensures |next| == capacity && |pool| == capacity
    {
      pageCapacity := capacity;
      prev, next, ptr := [], [], [];
      freeHead := NIL;
      pages := 0;
      pool := [];
      new;
      AddPage();
    }

    /** add_page and format_top_page: one more page, all of it chained as the free chain. */
    method AddPage()
      requires Valid() && pool == []
      modifies this
      ensures Valid() && pages == old(pages) + 1
      ensures |next| == |old(next)| + pageCapacity && |pool| == pageCapacity
      ensures forall i :: 0 <= i < |pool| ==> pool[i] == |old(next)| + i
      ensures forall x :: 0 <= x < |old(next)| ==>
        next[x] == old(next)[x] && prev[x] == old(prev)[x] && ptr[x] == old(ptr)[x]
    {
      var base := |next|;
      prev := prev + seq(pageCapacity, i => NIL);
      next := next + seq(pageCapacity, i => NIL);
      ptr := ptr + seq(pageCapacity, i => NIL);
      pages := pages + 1;
      prev := prev[base := NIL];
      var i := 1;
      while i < pageCapacity
        invariant 1 <= i <= pageCapacity
        invariant |prev| == |next| == |ptr| == base + pageCapacity
        invariant forall x :: 0 <= x < base ==>
          next[x] == old(next)[x] && prev[x] == old(prev)[x] && ptr[x] == old(ptr)[x]
        invariant forall k :: base <= k < base + i - 1 ==> next[k] == k + 1
        invariant pages == old(pages) + 1
      {
        next := next[base + i - 1 := base + i];
        prev := prev[base + i := base + i - 1];
        i := i + 1;
      }
      next := next[base + pageCapacity - 1 := NIL];
      freeHead := base;
      pool := seq(pageCapacity, j requires 0 <= j => base + j);
    }

    /** node_chain::prepend on the chain `nodes` that starts at `head`. */
    method Prepend(head: int, node: nat, ghost nodes: seq<nat>) returns (newHead: int)
      requires |prev| == |next| && Chain(next, head, nodes) && node < |next| && node !in nodes
      modifies this`prev, this`next
      ensures |prev| == |next| == |old(next)| && Chain(next, newHead, [node] + nodes)
      ensures Mirrored(old(prev), nodes) ==> Mirrored(prev, [node] + nodes)
      ensures next == old(next)[node := head]
      ensures prev == (if nodes == [] then old(prev) else old(prev)[nodes[0] := node])[node := NIL]
    {
      if head != NIL {
        prev := prev[head := node];
      }
      next := next[node := head];
      prev := prev[node := NIL];
      newHead := node;
    }

    /** node_chain::remove of the node at position k. */
    method Remove(head: int, node: nat, ghost nodes: seq<nat>, ghost k: nat) returns (newHead: int)
      requires |prev| == |next| && Doubly(prev, next, head, nodes) && k < |nodes| && nodes[k] == node
      modifies this`prev, this`next
      ensures |prev| == |next| == |old(next)| && Doubly(prev, next, newHead, Without(nodes, k))
      ensures forall x: nat :: x < |next| && x !in nodes ==> next[x] == old(next)[x] && prev[x] == old(prev)[x]
    {
      hide Without;
      assert 0 < k ==> prev[nodes[k]] == nodes[k-1];
      assert k < |nodes| - 1 ==> next[nodes[k]] == nodes[k+1];
      if next[node] != NIL {
        prev := prev[next[node] := prev[node]];
      }
      if prev[node] != NIL {
        next := next[prev[node] := next[node]];
      }
      newHead := head;
      if node == head {
        newHead := next[node];
        prev := prev[node := NIL];
      }
      SpliceChain(old(next), next, head, nodes, k);
      SpliceMirror(old(prev), prev, nodes, k);
    }

    /** node_chain::pop on the free chain. */
    method Pop() returns (node: nat)
      requires Valid() && pool != []
      modifies this`freeHead, this`pool
      ensures Valid() && node == old(pool)[0] && pool == old(pool)[1..]
    {
      node := freeHead;
      freeHead := next[node];
      pool := pool[1..];
    }

    /** node_pool::reserve: a cleared node; the pool grows by a page only when its free chain is empty. */
    method Reserve() returns (node: nat)
      requires Valid()
      modifies this
      ensures Valid() && node < |next| && |next| >= |old(next)| && node !in pool
      ensures old(pool) != [] ==>
        && pages == old(pages) && node == old(pool)[0] && pool == old(pool)[1..]
        && next == old(next)[node := NIL] && prev == old(prev)[node := NIL] && ptr == old(ptr)[node := NIL]
      ensures old(pool) == [] ==>
        && pages == old(pages) + 1 && node >= |old(next)|
        && (forall x :: 0 <= x < |old(next)| ==> next[x] == old(next)[x] && prev[x] == old(prev)[x] && ptr[x] == old(ptr)[x])
    {
      if freeHead == NIL {
        AddPage();
      }
      node := Pop();
      next := next[node := NIL];
      prev := prev[node := NIL];
      ptr := ptr[node := NIL];
    }

    /** node_pool::release */
    method Release(node: nat)
      requires Valid() && node < |next| && node !in pool
      modifies this
      ensures Valid() && pool == [node] + old(pool) && pages == old(pages) && ptr == old(ptr)
      ensures next == old(next)[node := old(freeHead)]
      ensures prev == (if old(pool) == [] then old(prev) else old(prev)[old(pool)[0] := node])[node := NIL]
    {
      freeHead := Prepend(freeHead, node, pool);
      pool := [node] + pool;
    }

    /** The node half of register_as_free: a reserved node goes to the front of `nodes` and points at block u. */
    method Enlist(head: int, u: nat, ghost nodes: seq<nat>) returns (node: nat, newHead: int)
      requires Valid() && pool != [] && Doubly(prev, next, head, nodes) && pool[0] !in nodes
      modifies this
      ensures Valid() && node == old(pool)[0] && pool == old(pool)[1..] && pages == old(pages)
      ensures Doubly(prev, next, newHead, [node] + nodes)
      ensures next == old(next)[node := head] && ptr == old(ptr)[node := u]
      ensures prev == (if nodes == [] then old(prev) else old(prev)[nodes[0] := node])[node := NIL]
    {
      node := Reserve();
      ChainFrame(old(next), next, head, nodes);
      newHead := Prepend(head, node, nodes);
      ptr := ptr[node := u];
      assert next == old(next)[node := head];
    }

    /** The node half of register_as_used: the node at position k leaves `nodes` and returns to the pool. */
    method Delist(head: int, node: nat, ghost nodes: seq<nat>, ghost k: nat) returns (newHead: int)
      requires Valid() && Doubly(prev, next, head, nodes) && k < |nodes| && nodes[k] == node
      requires forall x :: x in nodes ==> x !in pool
      modifies this
      ensures Valid() && pool == [node] + old(pool) && pages == old(pages) && ptr == old(ptr)
      ensures |next| == |old(next)| && Doubly(prev, next, newHead, Without(nodes, k))
      ensures forall x: nat :: x < |next| && x !in nodes ==> next[x] == old(next)[x]
      ensures forall x: nat :: x < |next| && x !in nodes && x !in old(pool) ==> prev[x] == old(prev)[x]
    {
      hide Without;
      hide Mirrored;
      DelistFacts(nodes, k);
      newHead := Remove(head, node, nodes, k);
      ChainFrame(old(next), next, freeHead, pool);
      ghost var prev1, next1 := prev, next;
      Release(node);
      assert old(pool) != [] ==> old(pool)[0] in old(pool);
      DoublyFrame(prev1, next1, prev, next, newHead, Without(nodes, k));
    }
  }
}
