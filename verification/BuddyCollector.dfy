/** collector_buddy of benchmarks/gc_prototype.cpp: mark from the root, then give every other object's block back to the page. */
module BuddyCollector {
  import opened Options
  import opened Bits
  import opened BuddyLists
  import opened BuddyPage
  import opened ObjectTable
  import opened Reachability
  import opened Sequences
  import H = BuddyHeap
  import S = BuddySizes

  ghost predicate Owned(objects: seq<TableNode>, u: nat)
    reads objects
  {
    exists i :: 0 <= i < |objects| && objects[i].ptr == u
  }

  /** The used blocks are exactly the memory of the objects, one block each. */
  ghost predicate Backed(objects: seq<TableNode>, used: map<nat, nat>)
    reads objects
  {
    && (forall i :: 0 <= i < |objects| ==> objects[i].ptr >= 0 && objects[i].ptr in used)
    && (forall i, j :: 0 <= i < j < |objects| ==> objects[i].ptr != objects[j].ptr)
    && (forall u :: u in used ==> Owned(objects, u))
  }

  /** The blocks of `used` are among those of `was`, of the same levels. */
  ghost predicate Within(used: map<nat, nat>, was: map<nat, nat>)
  {
    forall u :: u in used ==> u in was && used[u] == was[u]
  }

  lemma BackedLess(objects: seq<TableNode>, used: map<nat, nat>, x: TableNode)
    requires NoDup(objects) && x in objects && Backed(objects, used)
    ensures x.ptr >= 0 && x.ptr in used && Backed(Remove(objects, x), used - {x.ptr})
  {
    hide Owned;
    var rest := Remove(objects, x);
    RemoveElements(objects, x);
    forall i | 0 <= i < |rest| ensures rest[i].ptr >= 0 && rest[i].ptr in used && rest[i].ptr != x.ptr {
      assert rest[i] in objects;
    }
    forall i, j | 0 <= i < j < |rest| ensures rest[i].ptr != rest[j].ptr {
      assert rest[i] in objects && rest[j] in objects && rest[i] != rest[j];
    }
    forall u | u in used - {x.ptr} ensures Owned(rest, u) {
      StillOwned(objects, x, u);
    }
  }

  lemma KeptFewer(was: seq<Header>, now: seq<Header>, later: seq<Header>, used: map<nat, nat>, u: nat)
    requires Kept(was, now, used) && Kept(now, later, used - {u})
    ensures Kept(was, later, used - {u})
  {
    forall v: nat, c: nat | Inside(used - {u}, v, c) && c < |was| ensures later[c] == was[c] {
      assert Inside(used, v, c);
    }
  }

  /** Writing the header of a new block touches no other block. */
  lemma KeptHeader(page: Page, was: seq<Header>, now: seq<Header>, used: map<nat, nat>, u: nat, level: nat)
    requires page.Valid() && Kept(was, now, used) && u !in used && H.UsedBlocks(page.model) == used[u := level]
    requires u < |now| == page.buffer.Length && page.buffer[..] == now[u := page.buffer[u]]
    ensures Kept(was, page.buffer[..], used)
  {
    PageValid(page);
    hide Page.Valid;
    hide Page.Linked;
    hide Kept;
    hide H.Valid;
    assert u in H.UsedBlocks(page.model);
    KeptStep(was, now, used, page.model, u, page.buffer[u]);
  }

  lemma NextDead(objects: seq<TableNode>, dead: seq<TableNode>, i: nat)
    requires i < |dead| && NoDup(dead) && dead[i] in objects
    ensures dead[i] in Elements(objects) - Elements(dead[..i])
    ensures Elements(objects) - Elements(dead[..i]) - {dead[i]} == Elements(objects) - Elements(dead[..i + 1])
  {
  }

  lemma StillOwned(objects: seq<TableNode>, x: TableNode, u: nat)
    requires NoDup(objects) && Owned(objects, u) && x.ptr != u
    ensures Owned(Remove(objects, x), u)
  {
    RemoveElements(objects, x);
    var i :| 0 <= i < |objects| && objects[i].ptr == u;
    assert objects[i] in Remove(objects, x);
  }

  lemma BackedMore(objects: seq<TableNode>, used: map<nat, nat>, node: TableNode, u: nat, level: nat)
    requires Backed(objects, used) && node !in objects && node.ptr == u && u !in used
    ensures Backed([node] + objects, used[u := level])
  {
    hide Owned;
    var more := [node] + objects;
    forall v | v in used[u := level] ensures Owned(more, v) {
      OwnedMore(objects, node, v);
    }
  }

  lemma NotBacked(objects: seq<TableNode>, used: map<nat, nat>)
    requires objects != [] && objects[0].ptr < 0
    ensures !Backed(objects, used)
  {
  }

  lemma OwnedMore(objects: seq<TableNode>, node: TableNode, u: nat)
    requires Owned(objects, u) || node.ptr == u
    ensures Owned([node] + objects, u)
  {
    if node.ptr == u {
      assert ([node] + objects)[0] == node;
    } else {
      var i :| 0 <= i < |objects| && objects[i].ptr == u;
      assert ([node] + objects)[i + 1] == objects[i];
    }
  }

  /** No reference of a survivor leads to a node that went. */
  lemma SurvivorsClosed(edges: map<TableNode, seq<TableNode>>, root: TableNode, live: set<TableNode>)
    requires live == LiveNodes(edges, root)
    requires forall n, k :: n in edges && 0 <= k < |edges[n]| ==> edges[n][k] in edges
    requires forall n :: n in live ==> n.refs == edges[n]
    ensures ClosedTable(live)
  {
    forall n, k | n in live && 0 <= k < |n.refs| ensures n.refs[k] in live {
      ReachStep(edges, root, n, n.refs[k]);
    }
  }

  /** Nothing leads to a node that no other node refers to. */
  lemma NewIsDead(table: Table, node: TableNode, before: seq<TableNode>)
    requires table.Valid() && table.objects == [node] + before && ClosedTable(Elements(before) + {table.root})
    ensures node !in table.Live()
  {
    assert forall i :: 0 <= i < |before| ==> table.objects[i + 1] == before[i] && table.objects[0] == node;
    assert table.Nodes() - {node} == Elements(before) + {table.root};
    ReachableInClosed(Edges(table.Nodes()), table.root, table.Nodes() - {node});
  }

  /** `ptr` of an object is the header of its block, in units: from_ptr undoes begin. */
  class Collector {
    const page: Page
    const table: Table

    constructor (t: nat)
      requires 1 <= t <= 27
      ensures Valid() && table.objects == [] && page.model == H.Fresh(t) && page.top == t
      ensures fresh(Frame()) && fresh(table.Nodes())
    {
      hide Page.Valid;
      hide Page.Linked;
      hide PageOk;
      hide H.Valid;
      page := new Page(t);
      table := new Table();
    }

    ghost function Frame(): set<object>
      reads this
    {
      {page, page.buffer, page.heads, page.nodes, table}
    }

    ghost predicate Valid()
      reads this, Frame(), table.Nodes()
    {
      && page.Valid() && table.Valid()
      && Backed(table.objects, H.UsedBlocks(page.model))
      && forall o :: o in table.objects ==> !o.marked
    }

    /** A new object of `len` bytes, with its destructor in the header, before its payload is constructed.  When the
        page is out of memory the exception leaves a node without memory in the table. */
    method Allocate(len: nat, destructor: int) returns (r: Option<TableNode>)
      requires Valid() && len + 16 < 32 * Pow2(page.top)
      modifies Frame()
      ensures table.objects != [] && table.objects[1..] == old(table.objects) && fresh(table.objects[0])
      ensures r.Some? ==> r.value == table.objects[0] && r.value.ptr >= 0 && r.value.refs == []
      ensures r.Some? ==> r.value.ptr !in old(H.UsedBlocks(page.model))
      ensures r.Some? ==> H.UsedBlocks(page.model) == old(H.UsedBlocks(page.model))[r.value.ptr as nat := S.LevelFor(len)]
      ensures r.Some? ==> r.value.ptr < page.buffer.Length && page.buffer[r.value.ptr].user == destructor
      ensures r.Some? <==> H.HasRoom(old(page.model), S.LevelFor(len))
      ensures Kept(old(page.buffer[..]), page.buffer[..], old(H.UsedBlocks(page.model)))
      ensures r.None? ==> table.objects[0].ptr == NULL && page.model == old(page.model)
      ensures r.None? ==> table.objects[0] !in table.Live()
      ensures Valid() <==> r.Some?
      ensures table.Valid() && forall o :: o in table.objects ==> !o.marked
    {
      hide H.HasRoom;
      hide LiveNodes;
      hide Reachable;
      hide ClosedTable;
      hide PageOk;
      hide Page.Linked;
      hide Page.Valid;
      hide Backed;
      hide H.Valid;
      hide H.UsedBlocks;
      hide Kept;
      ghost var nodes := table.Nodes();
      var node := table.AddObjNode();
      assert ClosedTable(nodes) && table.Nodes() == nodes + {node};
      ghost var used, was := H.UsedBlocks(page.model), page.buffer[..];
      var u := page.Allocate(len);
      assert table.objects[1..] == old(table.objects);
      if u.None? {
        NotBacked(table.objects, H.UsedBlocks(page.model));
        NewIsDead(table, node, table.objects[1..]);
        assert !Backed(table.objects, H.UsedBlocks(page.model));
        return None;
      }
      ghost var now := page.buffer[..];
      page.SetUserData(u.value, destructor);
      KeptHeader(page, was, now, used, u.value, S.LevelFor(len));
      node.ptr := u.value;
      BackedMore(table.objects[1..], used, node, u.value, S.LevelFor(len));
      assert table.objects == [node] + table.objects[1..];
      assert page.Valid() && Backed(table.objects, H.UsedBlocks(page.model));
      r := Some(node);
    }

    /** The node leaves the table, and its block goes back to the page. */
    method Release(node: TableNode)
      requires page.Valid() && NoDup(table.objects) && node in table.objects
      requires Backed(table.objects, H.UsedBlocks(page.model))
      modifies Frame(), node`refs
      ensures page.Valid() && NoDup(table.objects) && Backed(table.objects, H.UsedBlocks(page.model))
      ensures table.objects == Remove(old(table.objects), node)
      ensures node.ptr >= 0 && H.UsedBlocks(page.model) == old(H.UsedBlocks(page.model)) - {node.ptr}
      ensures Kept(old(page.buffer[..]), page.buffer[..], H.UsedBlocks(page.model))
    {
      hide PageOk;
      hide Page.Linked;
      hide Page.Valid;
      hide Backed;
      hide H.Valid;
      hide H.UsedBlocks;
      hide Kept;
      var header := node.ptr;
      BackedLess(table.objects, H.UsedBlocks(page.model), node);
      RemoveElements(table.objects, node);
      table.RemObjNode(node);
      page.Free(header);
    }

    /** Give the memory of the dead objects back. */
    method Sweep(dead: seq<TableNode>)
      requires page.Valid() && NoDup(table.objects) && NoDup(dead)
      requires Backed(table.objects, H.UsedBlocks(page.model))
      requires forall i :: 0 <= i < |dead| ==> dead[i] in table.objects
      modifies Frame(), dead`refs
      ensures page.Valid() && NoDup(table.objects) && Backed(table.objects, H.UsedBlocks(page.model))
      ensures table.objects == Keep(old(table.objects), Elements(old(table.objects)) - Elements(dead))
      ensures Within(H.UsedBlocks(page.model), old(H.UsedBlocks(page.model)))
      ensures Kept(old(page.buffer[..]), page.buffer[..], H.UsedBlocks(page.model))
      ensures forall o :: o in old(table.objects) && o !in dead ==> o.refs == old(o.refs)
    {
      hide PageOk;
      hide Page.Linked;
      hide Page.Valid;
      hide Backed;
      hide H.Valid;
      hide H.UsedBlocks;
      hide Kept;
      hide Keep;
      hide Remove;
      ghost var objects, was := table.objects, page.buffer[..];
      KeptStart(was, H.UsedBlocks(page.model));
      KeepAll(objects, Elements(objects));
      assert Elements(objects) - Elements(dead[..0]) == Elements(objects);
      for i := 0 to |dead|
        invariant page.Valid() && NoDup(table.objects) && Backed(table.objects, H.UsedBlocks(page.model))
        invariant table.objects == Keep(objects, Elements(objects) - Elements(dead[..i]))
        invariant Within(H.UsedBlocks(page.model), old(H.UsedBlocks(page.model)))
        invariant Kept(was, page.buffer[..], H.UsedBlocks(page.model))
        invariant forall o :: o in objects && o !in dead ==> o.refs == old(o.refs)
      {
        ghost var used, now, keep := H.UsedBlocks(page.model), page.buffer[..], Elements(objects) - Elements(dead[..i]);
        NextDead(objects, dead, i);
        KeepElements(objects, keep);
        KeepLess(objects, keep, dead[i]);
        Release(dead[i]);
        KeptFewer(was, now, page.buffer[..], used, dead[i].ptr);
      }
      assert dead[..|dead|] == dead;
    }

    /** collect: what survives are the objects reachable from the root, in their order, each with its
        references and its block unchanged; all other memory is free and coalesced. */
    method Collect()
      requires Valid()
      modifies Frame(), table.Nodes()
      ensures Valid()
      ensures table.objects == Keep(old(table.objects), old(table.Live()))
      ensures forall o :: o in old(table.Live()) ==> o.refs == old(o.refs) && o.ptr == old(o.ptr)
      ensures Within(H.UsedBlocks(page.model), old(H.UsedBlocks(page.model)))
      ensures Kept(old(page.buffer[..]), page.buffer[..], H.UsedBlocks(page.model))
    {
      hide PageOk;
      hide Page.Linked;
      hide Page.Valid;
      hide Backed;
      hide H.Valid;
      hide H.UsedBlocks;
      hide Kept;
      hide Keep;
      hide Reachable;
      hide LiveNodes;
      hide Within;
      ghost var nodes, objects, edges := table.Nodes(), table.objects, Edges(table.Nodes());
      LiveInNodes(edges, table.root);
      ghost var live := table.Live();
      var dead := FindDead();
      RootLive(edges, table.root);
      Sweep(dead);
      KeepLive(objects, table.root, live, dead, table.objects);
      SurvivorsClosed(edges, table.root, live);
    }

    /** The mark loop, and the objects that it has not marked, in their order; the marks are reset. */
    method FindDead() returns (dead: seq<TableNode>)
      requires table.Valid() && forall o :: o in table.objects ==> !o.marked
      modifies table.Nodes()`marked
      ensures dead == Keep(table.objects, Elements(table.objects) - old(table.Live()))
      ensures forall o :: o in table.objects ==> !o.marked
      ensures NoDup(dead) && Elements(dead) == Elements(table.objects) - old(table.Live())
      ensures forall i :: 0 <= i < |dead| ==> dead[i] in table.objects
    {
      hide LiveNodes;
      hide Reachable;
      ghost var live := Mark(table.Nodes(), table.root);
      dead := table.ResetMarks(live);
      KeepElements(table.objects, Elements(table.objects) - live);
      KeepNoDup(table.objects, Elements(table.objects) - live);
    }
  }

  /** A page of 64 bytes holds one object of 20 bytes.  Creating a second one runs out of memory, and the first thing
      that the next collect frees is the null pointer of its node. */
  method NullIsFreed() returns (ptr: int)
    ensures ptr == NULL
  {
    hide Page.Valid;
    hide Page.Linked;
    hide PageOk;
    hide Backed;
    hide H.Valid;
    hide H.HasRoom;
    hide H.Fresh;
    hide Kept;
    hide LiveNodes;
    hide Reachable;
    hide ClosedTable;
    var c := new Collector(1);
    SmallPage();
    var first := c.Allocate(20, 0);
    PageValid(c.page);
    H.TopInUse(c.page.model, c.table.objects[0].ptr, 1);
    var second := c.Allocate(20, 0);
    var dead := c.FindDead();
    ptr := dead[0].ptr;
  }

  lemma SmallPage()
    ensures S.LevelFor(20) == 1 && 20 + 16 < 32 * Pow2(1) && H.HasRoom(H.Fresh(1), 1)
  {
    S.LevelForFits(20);
    assert H.Fresh(1).blocks[0] == H.Block(1, true);
  }

  lemma PageValid(page: Page)
    requires page.Valid()
    ensures H.Valid(page.model) && page.model.top == page.top
  {
  }

  lemma KeepLive(objects: seq<TableNode>, root: TableNode, live: set<TableNode>, dead: seq<TableNode>,
                 kept: seq<TableNode>)
    requires NoDup(objects) && root !in objects && root in live && live <= Elements(objects) + {root}
    requires Elements(dead) == Elements(objects) - live
    requires kept == Keep(objects, Elements(objects) - Elements(dead))
    ensures kept == Keep(objects, live) && Elements(kept) + {root} == live && root !in kept
    ensures forall o :: o in kept ==> o in objects && o in live
  {
    KeepAgree(objects, Elements(objects) - Elements(dead), live);
    KeepElements(objects, live);
  }
}
