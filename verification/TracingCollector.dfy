/**
  gc::tracker and gc2::tracker of benchmarks/tracing_ptr.cpp: stop-the-world collection from the stack root.

  The two trackers differ only in collect: gc purges the reference list of an object when it visits
  it, gc2 purges those of all registered objects, but not the root's, before it marks.
*/
module TracingCollector {
  import opened Reachability
  import opened Sequences
  import opened TracingLists
  import opened TracingMark

  // ---------------------------------------------------------------- list_collect on the objects

  ghost predicate ObjectChain(head: Object?, s: seq<Object>)
    reads s`next
  {
    && (s == [] ==> head == null)
    && (s != [] ==> head == s[0] && s[|s| - 1].next == null)
    && forall i, j :: 0 <= i && j == i + 1 && j < |s| ==> s[i].next == s[j]
  }

  ghost predicate ObjectTail(head: Object?, s: seq<Object>, i: nat)
    reads s`next
  {
    && i <= |s|
    && (i == |s| ==> head == null)
    && (i < |s| ==> head == s[i] && s[|s| - 1].next == null)
    && forall k, j :: i <= k && j == k + 1 && j < |s| ==> s[k].next == s[j]
  }

  lemma ChainTail(head: Object?, s: seq<Object>)
    requires ObjectChain(head, s)
    ensures ObjectTail(head, s, 0)
  {
  }

  lemma TailStep(head: Object?, s: seq<Object>, i: nat)
    requires ObjectTail(head, s, i)
    ensures (head == null <==> i == |s|) && (i < |s| ==> head == s[i] && ObjectTail(s[i].next, s, i + 1))
  {
  }

  lemma KeepStep<T>(s: seq<T>, i: nat, keep: set<T>)
    requires i < |s|
    ensures Reverse(Keep(s[..i + 1], keep)) == (if s[i] in keep then [s[i]] else []) + Reverse(Keep(s[..i], keep))
    ensures Elements(s[..i + 1]) == Elements(s[..i]) + {s[i]}
  {
    hide Keep;
    hide Reverse;
    var kept := Keep(s[..i], keep);
    assert s[..i + 1] == s[..i] + [s[i]];
    KeepAppend(s[..i], s[i], keep);
    ReverseSnoc(kept, s[i]);
    ElementsSplit(s[..i], [s[i]]);
    assert kept + [] == kept && [] + Reverse(kept) == Reverse(kept);
  }

  /** What is left when the objects in `dropped` and their references are gone. */
  ghost predicate Swept(nodes: set<Object>, heap0: set<Reference>, heap: set<Reference>, dropped: set<Object>)
    reads nodes`refs, nodes`refHead, heap0
  {
    && heap <= heap0 && (forall r :: r in heap0 ==> (r in heap <==> r.owner !in dropped))
    && (forall r :: r in heap ==> r.owner in nodes && r in r.owner.refs)
    && (forall o, k :: o in nodes && o !in dropped && 0 <= k < |o.refs| ==> o.refs[k] in heap)
    && (forall o :: o in nodes && o !in dropped ==> RefsOk(o))
  }

  lemma SweptLists(nodes: set<Object>, heap0: set<Reference>, heap: set<Reference>, dropped: set<Object>, o: Object)
    requires Swept(nodes, heap0, heap, dropped) && o in nodes && o !in dropped
    ensures RefsOk(o) && Elements(o.refs) <= heap
    ensures forall x, k :: x in nodes && x !in dropped && 0 <= k < |x.refs| ==> x.refs[k] in heap && x.refs[k].owner == x
    ensures forall x :: x in nodes && x !in dropped ==> RefsOk(x)
    ensures heap <= heap0 && (forall r :: r in heap0 ==> (r in heap <==> r.owner !in dropped))
    ensures forall r :: r in heap ==> r.owner in nodes && r in r.owner.refs
  {
    assert forall k :: 0 <= k < |o.refs| ==> o.refs[k] in heap;
    forall x, k | x in nodes && x !in dropped && 0 <= k < |x.refs| ensures x.refs[k] in heap && x.refs[k].owner == x {
      assert RefsOk(x);
    }
  }

  lemma SweptMore(nodes: set<Object>, heap0: set<Reference>, heap: set<Reference>, heap': set<Reference>,
                  dropped: set<Object>, o: Object, was: seq<Reference>)
    requires heap <= heap0 && (forall r :: r in heap0 ==> (r in heap <==> r.owner !in dropped))
    requires heap' == heap - Elements(was) && o !in dropped
    requires forall r :: r in was ==> r.owner == o
    requires forall r :: r in heap ==> r.owner in nodes && (if r.owner == o then r in was else r in r.owner.refs)
    requires forall x, k :: x in nodes && x !in dropped && x != o && 0 <= k < |x.refs| ==> x.refs[k] in heap && x.refs[k].owner == x
    requires forall x :: x in nodes && x !in dropped && x != o ==> RefsOk(x)
    ensures Swept(nodes, heap0, heap', dropped + {o})
  {
  }

  /** An object is released: all its references are deleted, then its payload, then itself. */
  method DropReferences(o: Object, ghost nodes: set<Object>, ghost heap0: set<Reference>, ghost heap: set<Reference>,
                        ghost dropped: set<Object>)
    returns (ok: bool, ghost heap': set<Reference>)
    requires Swept(nodes, heap0, heap, dropped) && o in nodes && o !in dropped
    modifies o`refHead, o`refs, heap0`next
    ensures ok && Swept(nodes, heap0, heap', dropped + {o})
  {
    hide Swept;
    hide RefsOk;
    hide Reverse;
    SweptLists(nodes, heap0, heap, dropped, o);
    ghost var was := o.refs;
    OwnsAll(o);
    ok, heap' := CollectRefs(o, false, heap);
    NoneLeft(was);
    assert forall x :: x in nodes && x != o ==> x.refs == old(x.refs);
    forall x | x in nodes && x !in dropped && x != o ensures RefsOk(x) {
      assert old(RefsOk(x));
    }
    SweptMore(nodes, heap0, heap, heap', dropped, o, was);
  }

  lemma OwnsAll(o: Object)
    requires RefsOk(o)
    ensures forall r :: r in o.refs ==> r.owner == o
  {
  }

  lemma NoneLeft(refs: seq<Reference>)
    ensures Collected(refs, false) == [] && Elements<Reference>([]) == {}
  {
    KeepNone(refs);
  }

  /** One turn of list_collect on the objects. */
  method SweepObject(o: Object, head: Object?, ghost kept: seq<Object>, ghost all: seq<Object>, ghost i: nat,
                     ghost nodes: set<Object>, ghost heap0: set<Reference>, ghost heap: set<Reference>, ghost dropped: set<Object>)
    returns (ok: bool, head': Object?, ghost heap': set<Reference>)
    requires ObjectChain(head, kept) && o !in kept && o in nodes && o !in dropped && o.state != Marked
    requires i < |all| && all[i] == o && NoDup(all) && ObjectTail(o.next, all, i + 1)
    requires Swept(nodes, heap0, heap, dropped)
    modifies o`next, o`refHead, o`refs, heap0`next
    ensures ok && ObjectChain(head', if o.state == Active then [o] + kept else kept)
    ensures Swept(nodes, heap0, heap', if o.state == Active then dropped else dropped + {o})
    ensures o.state == Active ==> o.refs == old(o.refs)
    ensures ObjectTail(old(o.next), all, i + 1)
  {
    hide Swept;
    if o.state == Unreachable {
      ok, heap' := DropReferences(o, nodes, heap0, heap, dropped);
      head' := head;
    } else if o.state == Active {
      // list_push_front
      o.next := head;
      return true, o, heap;
    } else {
      // "object marked for collection is still reachable"
      return false, head, heap;
    }
  }

  /** list_collect on the registered objects: those left are the active ones, in turned order. */
  method SweepObjects(head: Object?, ghost all: seq<Object>, ghost live: set<Object>, ghost nodes: set<Object>,
                      ghost heap0: set<Reference>)
    returns (ok: bool, head': Object?, ghost heap: set<Reference>)
    requires ObjectChain(head, all) && NoDup(all) && Elements(all) <= nodes
    requires forall o :: o in all ==> o.state == if o in live then Active else Unreachable
    requires Swept(nodes, heap0, heap0, {})
    modifies all`next, nodes`refHead, nodes`refs, heap0`next
    ensures ok && ObjectChain(head', Reverse(Keep(all, live)))
    ensures Swept(nodes, heap0, heap, Elements(all) - live)
    ensures forall o :: o in nodes && !(o in all && o !in live) ==> o.refs == old(o.refs)
  {
    hide Swept;
    hide Reverse;
    hide Keep;
    hide ObjectChain;
    hide ObjectTail;
    ChainTail(head, all);
    TailStep(head, all, 0);
    var detached := head;
    ok, head', heap := true, null, heap0;
    NothingKept(all, live);
    assert Elements(all[..0]) - live == {};
    ghost var i := 0;
    while detached != null
      invariant 0 <= i <= |all| && ObjectTail(detached, all, i) && (detached == null <==> i == |all|)
      invariant detached != null ==> detached == all[i]
      invariant ok && ObjectChain(head', Reverse(Keep(all[..i], live)))
      invariant Swept(nodes, heap0, heap, Elements(all[..i]) - live)
      invariant forall o :: o in nodes && !(o in all && o !in live) ==> o.refs == old(o.refs)
      decreases |all| - i
    {
      ghost var kept, dropped := Reverse(Keep(all[..i], live)), Elements(all[..i]) - live;
      SweepStep(all, i, live);
      TailStep(detached, all, i);
      var next := detached.next;
      ok, head', heap := SweepObject(detached, head', kept, all, i, nodes, heap0, heap, dropped);
      detached := next;
      i := i + 1;
      TailStep(detached, all, i);
    }
    assert all[..|all|] == all;
  }

  lemma NothingKept(all: seq<Object>, live: set<Object>)
    ensures ObjectChain(null, Reverse(Keep(all[..0], live)))
  {
  }

  lemma SweepStep(all: seq<Object>, i: nat, live: set<Object>)
    requires i < |all| && NoDup(all)
    ensures all[i] !in Reverse(Keep(all[..i], live)) && all[i] !in Elements(all[..i])
    ensures Reverse(Keep(all[..i + 1], live)) ==
      if all[i] in live then [all[i]] + Reverse(Keep(all[..i], live)) else Reverse(Keep(all[..i], live))
    ensures Elements(all[..i + 1]) - live ==
      if all[i] in live then Elements(all[..i]) - live else (Elements(all[..i]) - live) + {all[i]}
  {
    hide Keep;
    hide Reverse;
    KeepStep(all, i, live);
    assert [] + Reverse(Keep(all[..i], live)) == Reverse(Keep(all[..i], live));
    KeepElements(all[..i], live);
    ReverseElements(Keep(all[..i], live));
  }

  // ---------------------------------------------------------------- the tracker

  ghost predicate ListOk(objects: Object?, list: seq<Object>, root: Object)
    reads list`next, root`nextMarked
  {
    root !in list && NoDup(list) && ObjectChain(objects, list) && root.nextMarked == null
  }

  /** The references that were not deleted are on the lists of the nodes, and lead to nodes unless they were disposed of. */
  ghost predicate ReferencesOk(nodes: set<Object>, heap: set<Reference>)
    reads nodes`refs, nodes`refHead, heap
  {
    && Held(nodes, heap)
    && (forall r :: r in heap ==> r.owner in nodes && r in r.owner.refs)
    && (forall o :: o in nodes ==> RefsOk(o))
    && (forall r :: r in heap && r.state != Unreachable && r.to != null ==> r.to in nodes)
  }

  class Tracker {
    var objects: Object?
    const root: Object

    /** The registered objects, in the order of the list at `objects`. */
    ghost var list: seq<Object>
    /** The references that were not deleted. */
    ghost var heap: set<Reference>

    ghost function Nodes(): set<Object>
      reads this
    {
      Elements(list) + {root}
    }

    ghost predicate Valid()
      reads this, Nodes(), heap
    {
      ListOk(objects, list, root) && ReferencesOk(Nodes(), heap)
    }

    /** What the root reaches through references that are neither null nor disposed of. */
    ghost function Live(): set<Object>
      requires Held(Nodes(), heap)
      reads this, Nodes(), heap
    {
      LiveNodes(Edges(Nodes(), heap), root)
    }

    constructor ()
      ensures Valid() && list == [] && heap == {}
    {
      objects, list, heap := null, [], {};
      root := new Object();
    }

    // -------------------------------------------------------------- collect

    /** The end of both collects: what was not reached is released. */
    method TakeOut(ghost nodes: set<Object>, ghost f: Found, ghost edges: map<Object, seq<Object>>) returns (ok: bool)
      requires ListOk(objects, list, root) && nodes == Nodes() && Graph(nodes, heap, f, edges)
      requires forall o, k :: o in edges && 0 <= k < |edges[o]| ==> edges[o][k] in edges
      requires forall o :: o in nodes ==> o.state == if o in LiveNodes(edges, root) then Active else Unreachable
      modifies this`objects, this`list, this`heap, list`next, nodes`refHead, nodes`refs, heap`next
      ensures ok && Valid()
      ensures list == Reverse(Keep(old(list), LiveNodes(edges, root)))
      ensures forall o :: o in LiveNodes(edges, root) ==> o in nodes && o.state == Active && o.refs == old(o.refs)
    {
      hide ListOk;
      hide Graph;
      hide Swept;
      hide LiveNodes;
      hide LeadsTo;
      hide Reverse;
      hide Keep;
      hide ObjectChain;
      hide ReferencesOk;
      ghost var live, heap0 := LiveNodes(edges, root), heap;
      ListFacts(objects, list, root);
      SweepStart(nodes, heap, f, edges);
      LiveIsActive(nodes, edges, root, list);
      ok, objects, heap := SweepObjects(objects, list, live, nodes, heap);
      SweepEnd(nodes, list, root, live, heap0, heap, f, edges);
      list := Reverse(Keep(list, live));
      assert Nodes() == live;
      ListAgain(objects, list, root);
    }

    /** The root is marked, and marking goes on from there. */
    method MarkFromRoot(purging: bool, ghost nodes: set<Object>, ghost f: Found, ghost edges: map<Object,
                        seq<Object>>, ghost refs0: map<Object, seq<Reference>>)
      returns (ok: bool)
      requires ListOk(objects, list, root) && nodes == Nodes() && Graph(nodes, heap, f, edges)
      requires ListsAfter(nodes, refs0, f.alive, {})
      requires forall o, k :: o in edges && 0 <= k < |edges[o]| ==> edges[o][k] in edges
      requires forall o :: o in list ==> o.state == Unreachable
      modifies this`heap, nodes`state, nodes`nextMarked, nodes`refHead, nodes`refs, heap`next
      ensures ok && heap <= old(heap) && ListOk(objects, list, root) && Graph(nodes, heap, f, edges)
      ensures forall o :: o in nodes ==> o.state == if o in LiveNodes(edges, root) then Active else Unreachable
      ensures ListsAfter(nodes, refs0, f.alive, if purging then LiveNodes(edges, root) else {})
    {
      hide ListOk;
      hide ObjectChain;
      hide Graph;
      hide ListsAfter;
      hide LiveNodes;
      hide NoDup;
      hide Elements;
      ListFacts(objects, list, root);
      NodesAre(list, root);
      root.state := Marked;
      ok, heap := Mark(purging, nodes, heap, f, edges, root, refs0);
      ListAgain(objects, list, root);
    }

    /** gc::tracker::collect.  What stays are the objects that the root reaches, in turned order; all of them are
        active, and each keeps the references that were not disposed of.  The throw is never taken. */
    method Collect() returns (ok: bool)
      requires Valid()
      modifies this`objects, this`list, this`heap, Nodes(), heap`next
      ensures ok && Valid()
      ensures list == Reverse(Keep(old(list), old(Live())))
      ensures forall o :: o in old(Live()) ==> o.state == Active && o.refs == old(Collected(o.refs, true))
    {
      hide ListOk;
      hide ObjectChain;
      hide Graph;
      hide ListsAfter;
      hide Collected;
      hide Targets;
      hide LiveNodes;
      hide ReferencesOk;
      hide Held;
      hide Reverse;
      hide Keep;
      hide Elements;
      hide NoDup;
      hide ListsOf;
      hide FoundIn;
      ghost var nodes, f, refs0 := Nodes(), FoundIn(heap), ListsOf(Nodes());
      ListFacts(objects, list, root);
      HeldRefs(nodes, heap);
      ghost var edges := Edges(nodes, heap);
      GraphStart(nodes, heap);
      CollectedLists(nodes, heap, refs0);
      NodesAre(list, root);
      SetUnreachable(objects, list);
      ok := MarkFromRoot(true, nodes, f, edges, refs0);
      LiveLists(nodes, refs0, f.alive, edges, root);
      ok := TakeOut(nodes, f, edges);
    }

    /** The two loops of gc2 before the garbage is taken out. */
    method PurgeAndMark(ghost nodes: set<Object>, ghost f: Found, ghost edges: map<Object, seq<Object>>,
                        ghost refs0: map<Object, seq<Reference>>)
      returns (ok: bool)
      requires ListOk(objects, list, root) && nodes == Nodes() && Graph(nodes, heap, f, edges)
      requires ListsAfter(nodes, refs0, f.alive, {})
      requires forall o, k :: o in edges && 0 <= k < |edges[o]| ==> edges[o][k] in edges
      modifies this`heap, nodes`state, nodes`nextMarked, nodes`refHead, nodes`refs, heap`next
      ensures ok && heap <= old(heap) && ListOk(objects, list, root) && Graph(nodes, heap, f, edges)
      ensures forall o :: o in nodes ==> o.state == if o in LiveNodes(edges, root) then Active else Unreachable
      ensures refs0.Keys == nodes
      ensures forall o :: o in nodes ==> o.refs == if o == root then refs0[o] else Reverse(Keep(refs0[o], f.alive))
    {
      hide ListOk;
      hide ObjectChain;
      hide Graph;
      hide ListsAfter;
      hide LiveNodes;
      hide Reverse;
      hide Keep;
      hide Elements;
      hide NoDup;
      hide ListsOf;
      ListFacts(objects, list, root);
      NodesAre(list, root);
      ok, heap := SetUnreachableAndPurge(objects, list, nodes, heap, f, edges, refs0);
      ListAgain(objects, list, root);
      ghost var refs1 := ListsOf(nodes);
      ListsNow(nodes, refs0, refs1, f.alive, Elements(list));
      ok := MarkFromRoot(false, nodes, f, edges, refs1);
      PurgedLists(nodes, refs0, refs1, f.alive, list, root);
    }

    /** gc2::tracker::collect.  The same objects stay as after gc::tracker::collect, in the same order, and the lists of
        the registered objects lose the same references; the list of the root is left as it was. */
    method CollectGc2() returns (ok: bool)
      requires Valid()
      modifies this`objects, this`list, this`heap, Nodes(), heap`next
      ensures ok && Valid()
      ensures list == Reverse(Keep(old(list), old(Live())))
      ensures forall o :: o in old(Live()) ==> o.state == Active && o.refs == if o == root then old(o.refs) else old(Collected(o.refs, true))
    {
      hide ListOk;
      hide ObjectChain;
      hide Graph;
      hide ListsAfter;
      hide Collected;
      hide Targets;
      hide LiveNodes;
      hide ReferencesOk;
      hide Held;
      hide Reverse;
      hide Keep;
      hide Elements;
      hide NoDup;
      hide ListsOf;
      hide FoundIn;
      ghost var nodes, f, refs0 := Nodes(), FoundIn(heap), ListsOf(Nodes());
      HeldRefs(nodes, heap);
      ghost var edges := Edges(nodes, heap);
      GraphStart(nodes, heap);
      CollectedLists(nodes, heap, refs0);
      GraphNodes(nodes, heap, f, edges);
      LiveInNodes(edges, root);
      NodesAre(list, root);
      ok := PurgeAndMark(nodes, f, edges, refs0);
      ok := TakeOut(nodes, f, edges);
    }

    // -------------------------------------------------------------- the mutator

    /** register_object, for a payload whose construction is over. */
    method RegisterObject() returns (o: Object)
      requires Valid()
      modifies this`objects, this`list
      ensures Valid() && fresh(o) && list == [o] + old(list) && o.refs == [] && o.state == Active
    {
      hide ReferencesOk;
      o := new Object();
      o.next := objects;
      objects := o;
      list := [o] + list;
      OneMoreObject(o, old(Nodes()), heap, Nodes());
    }

    /** A new reference of the object at the head of the object stack. */
    method Reference(from: Object, to: Object?) returns (r: Reference)
      requires Valid() && from in Nodes() && (to != null ==> to in Nodes())
      modifies this`heap, from`refHead, from`refs, Nodes()`state
      ensures Valid() && fresh(r) && from.refs == [r] + old(from.refs) && r.to == to && r.state == Active
      ensures heap == old(heap) + {r}
      ensures forall o :: o in Nodes() ==> o.state == if o == to then Active else old(o.state)
    {
      hide ListOk;
      hide ReferencesOk;
      if to != null {
        to.state := Active;
      }
      r := new Reference(to, from);
      PushReference(from, r, Nodes(), heap);
      heap := heap + {r};
    }

    /** Let a reference lead elsewhere. */
    method Retarget(r: Reference, to: Object?)
      requires Valid() && r in heap && (to != null ==> to in Nodes())
      modifies r`to, Nodes()`state
      ensures Valid() && r.to == to
      ensures forall o :: o in Nodes() ==> o.state == if o == to then Active else old(o.state)
    {
      hide ListOk;
      hide RefsOk;
      if to != null {
        to.state := Active;
      }
      r.to := to;
    }

    /** Dispose of a reference; its memory goes in the next collection. */
    method Dereference(r: Reference)
      requires Valid() && r in heap
      modifies r`state
      ensures Valid() && r.state == Unreachable
    {
      hide ListOk;
      hide RefChain;
      r.state := Unreachable;
    }
  }

  /** The references as a collection finds them. */
  ghost function FoundIn(heap: set<Reference>): Found
    reads heap`state, heap`to
  {
    Found(set r | r in heap && r.state != Unreachable, map r | r in heap :: r.to)
  }

  ghost function ListsOf(nodes: set<Object>): map<Object, seq<Reference>>
    reads nodes`refs
  {
    map o | o in nodes :: o.refs
  }

  lemma NodesAre(list: seq<Object>, root: Object)
    ensures forall o :: o in Elements(list) + {root} <==> o in list || o == root
  {
  }

  lemma HeldRefs(nodes: set<Object>, heap: set<Reference>)
    requires ReferencesOk(nodes, heap)
    ensures Held(nodes, heap)
  {
  }

  lemma TargetsLead(o: Object, heap: set<Reference>, t: Object)
    requires forall k :: 0 <= k < |o.refs| ==> o.refs[k] in heap
    ensures LeadsTo(o.refs, FoundIn(heap).alive, FoundIn(heap).to, t) <==> t in Targets(o.refs)
  {
    TargetsAre(o.refs, t);
    if IsTarget(o.refs, t) {
      var k :| 0 <= k < |o.refs| && o.refs[k].state != Unreachable && o.refs[k].to == t;
      assert o.refs[k] in FoundIn(heap).alive;
    }
  }

  lemma {:induction false} TargetsIn(refs: seq<Reference>, nodes: set<Object>)
    requires forall k :: 0 <= k < |refs| && refs[k].state != Unreachable && refs[k].to != null ==> refs[k].to in nodes
    ensures forall k :: 0 <= k < |Targets(refs)| ==> Targets(refs)[k] in nodes
  {
    if refs != [] { TargetsIn(refs[1..], nodes); }
  }

  lemma GraphStart(nodes: set<Object>, heap: set<Reference>)
    requires ReferencesOk(nodes, heap)
    ensures Graph(nodes, heap, FoundIn(heap), Edges(nodes, heap))
    ensures forall o, k :: o in nodes && 0 <= k < |Edges(nodes, heap)[o]| ==> Edges(nodes, heap)[o][k] in nodes
  {
    forall o, t | o in nodes && t in nodes
      ensures LeadsTo(o.refs, FoundIn(heap).alive, FoundIn(heap).to, t) <==> t in Edges(nodes, heap)[o]
    {
      TargetsLead(o, heap, t);
    }
    forall o | o in nodes ensures forall k :: 0 <= k < |Edges(nodes, heap)[o]| ==> Edges(nodes, heap)[o][k] in nodes {
      TargetsIn(o.refs, nodes);
    }
  }

  /** What list_collect will leave of each list. */
  lemma CollectedLists(nodes: set<Object>, heap: set<Reference>, refs0: map<Object, seq<Reference>>)
    requires Held(nodes, heap) && refs0 == ListsOf(nodes)
    ensures forall o :: o in nodes ==> Collected(o.refs, true) == Reverse(Keep(refs0[o], FoundIn(heap).alive))
    ensures ListsAfter(nodes, refs0, FoundIn(heap).alive, {})
  {
    forall o | o in nodes ensures Collected(o.refs, true) == Reverse(Keep(refs0[o], FoundIn(heap).alive)) {
      KeepAgree(o.refs, Alive(o.refs), FoundIn(heap).alive);
    }
  }

  lemma LiveLists(nodes: set<Object>, refs0: map<Object, seq<Reference>>, alive: set<Reference>, edges: map<Object,
                  seq<Object>>, root: Object)
    requires ListsAfter(nodes, refs0, alive, LiveNodes(edges, root)) && edges.Keys == nodes
    ensures forall o :: o in LiveNodes(edges, root) ==> o in nodes && o.refs == Reverse(Keep(refs0[o], alive))
  {
  }

  /** gc: all registered objects are taken to be unreachable. */
  method SetUnreachable(head: Object?, ghost all: seq<Object>)
    requires ObjectChain(head, all)
    modifies all`state
    ensures forall o :: o in all ==> o.state == Unreachable
  {
    ChainTail(head, all);
    TailStep(head, all, 0);
    var obj := head;
    ghost var i := 0;
    while obj != null
      invariant 0 <= i <= |all| && ObjectTail(obj, all, i) && (obj == null <==> i == |all|)
      invariant forall k :: 0 <= k < i ==> all[k].state == Unreachable
      decreases |all| - i
    {
      TailStep(obj, all, i);
      obj.state := Unreachable;
      obj := obj.next;
      i := i + 1;
      TailStep(obj, all, i);
    }
  }

  lemma ListsNow(nodes: set<Object>, refs0: map<Object, seq<Reference>>, refs: map<Object, seq<Reference>>,
                 alive: set<Reference>, done: set<Object>)
    requires refs == ListsOf(nodes) && ListsAfter(nodes, refs0, alive, done)
    ensures ListsAfter(nodes, refs, alive, {}) && refs0.Keys == nodes
    ensures forall o :: o in nodes ==> refs[o] == if o in done then Reverse(Keep(refs0[o], alive)) else refs0[o]
  {
  }

  /** The lists that were purged, after marking that left them alone. */
  lemma PurgedLists(nodes: set<Object>, refs0: map<Object, seq<Reference>>, refs1: map<Object, seq<Reference>>,
                    alive: set<Reference>,
                    list: seq<Object>, root: Object)
    requires ListsAfter(nodes, refs1, alive, {}) && nodes == Elements(list) + {root} && root !in list
    requires refs0.Keys == nodes
    requires forall o :: o in nodes ==> refs1[o] == if o in Elements(list) then Reverse(Keep(refs0[o], alive)) else refs0[o]
    ensures forall o :: o in nodes ==> o.refs == if o == root then refs0[o] else Reverse(Keep(refs0[o], alive))
  {
  }

  /** gc2: all registered objects are taken to be unreachable, and their lists are purged on the way. */
  method SetUnreachableAndPurge(head: Object?, ghost all: seq<Object>, ghost nodes: set<Object>,
                                ghost heap: set<Reference>, ghost f: Found,
                                ghost edges: map<Object, seq<Object>>, ghost refs0: map<Object, seq<Reference>>)
    returns (ok: bool, ghost heap': set<Reference>)
    requires ObjectChain(head, all) && NoDup(all) && Elements(all) <= nodes && Graph(nodes, heap, f, edges)
    requires ListsAfter(nodes, refs0, f.alive, {})
    modifies all`state, nodes`refHead, nodes`refs, heap`next
    ensures ok && heap' <= heap && Graph(nodes, heap', f, edges) && ListsAfter(nodes, refs0, f.alive, Elements(all))
    ensures forall o :: o in all ==> o.state == Unreachable
  {
    hide Graph;
    hide ListsAfter;
    hide ObjectTail;
    hide ObjectChain;
    hide Reverse;
    hide Keep;
    ChainTail(head, all);
    TailStep(head, all, 0);
    var obj := head;
    ok, heap' := true, heap;
    assert Elements(all[..0]) == {};
    ghost var i := 0;
    while obj != null
      invariant 0 <= i <= |all| && ObjectTail(obj, all, i) && (obj == null <==> i == |all|)
      invariant (obj != null ==> obj == all[i])
      invariant ok && heap' <= heap && Graph(nodes, heap', f, edges)
      invariant ListsAfter(nodes, refs0, f.alive, Elements(all[..i]))
      invariant forall k :: 0 <= k < i ==> all[k].state == Unreachable
      decreases |all| - i
    {
      TailStep(obj, all, i);
      assert obj in Elements(all) && obj !in all[..i];
      KeepStep(all, i, {});
      obj.state := Unreachable;
      ok, heap' := PurgeOne(obj, nodes, heap', f, edges, refs0, Elements(all[..i]));
      obj := obj.next;
      i := i + 1;
      TailStep(obj, all, i);
    }
    assert all[..|all|] == all;
  }

  method PurgeOne(o: Object, ghost nodes: set<Object>, ghost heap: set<Reference>, ghost f: Found,
                  ghost edges: map<Object, seq<Object>>, ghost refs0: map<Object, seq<Reference>>, ghost done: set<Object>)
    returns (ok: bool, ghost heap': set<Reference>)
    requires o in nodes && o !in done && Graph(nodes, heap, f, edges) && ListsAfter(nodes, refs0, f.alive, done)
    modifies o`refHead, o`refs, heap`next
    ensures ok && heap' <= heap && Graph(nodes, heap', f, edges) && ListsAfter(nodes, refs0, f.alive, done + {o})
  {
    hide Graph;
    hide Reverse;
    hide Keep;
    ok, heap' := Purge(o, nodes, heap, f, edges);
  }

  lemma SweepStart(nodes: set<Object>, heap: set<Reference>, f: Found, edges: map<Object, seq<Object>>)
    requires Graph(nodes, heap, f, edges)
    ensures Swept(nodes, heap, heap, {}) && edges.Keys == nodes
    ensures forall r :: r in heap ==> r in f.to && r.to == f.to[r] && (r.state != Unreachable <==> r in f.alive)
    ensures forall r :: r in heap && r in f.alive && f.to[r] != null ==> f.to[r] in nodes
    ensures forall o, t :: o in nodes && t in nodes ==> (LeadsTo(o.refs, f.alive, f.to, t) <==> t in edges[o])
  {
  }

  lemma LiveIsActive(nodes: set<Object>, edges: map<Object, seq<Object>>, root: Object, list: seq<Object>)
    requires edges.Keys == nodes && root in nodes && NoDup(list) && nodes == Elements(list) + {root}
    requires forall o :: o in nodes ==> o.state == if o in LiveNodes(edges, root) then Active else Unreachable
    ensures root in LiveNodes(edges, root) && LiveNodes(edges, root) <= nodes && Elements(list) <= nodes
    ensures forall o :: o in list ==> o in nodes && o.state == if o in LiveNodes(edges, root) then Active else Unreachable
  {
    RootReachable(edges, root);
    assert forall o :: o in list ==> o in Elements(list);
  }

  /** After the sweep just the live objects are left, and what they refer to is live. */
  lemma SweepEnd(nodes: set<Object>, list: seq<Object>, root: Object, live: set<Object>, heap0: set<Reference>,
                 heap: set<Reference>, f: Found, edges: map<Object, seq<Object>>)
    requires nodes == Elements(list) + {root} && root !in list && NoDup(list) && edges.Keys == nodes
    requires live == LiveNodes(edges, root) && root in live
    requires Swept(nodes, heap0, heap, Elements(list) - live)
    requires forall r :: r in heap0 ==> r in f.to && r.to == f.to[r] && (r.state != Unreachable <==> r in f.alive)
    requires forall r :: r in heap0 && r in f.alive && f.to[r] != null ==> f.to[r] in nodes
    requires forall o, t :: o in live && t in nodes ==> (LeadsTo(o.refs, f.alive, f.to, t) <==> t in edges[o])
    ensures ReferencesOk(live, heap)
    ensures Elements(Reverse(Keep(list, live))) + {root} == live && NoDup(Reverse(Keep(list, live)))
    ensures root !in Reverse(Keep(list, live))
  {
    KeepElements(list, live);
    ReverseElements(Keep(list, live));
    KeepNoDup(list, live);
    ReverseNoDup(Keep(list, live));
    assert forall o :: o in nodes && o !in Elements(list) - live ==> o in live;
    forall r | r in heap && r.state != Unreachable && r.to != null ensures r.to in live {
      LiveTarget(nodes, root, heap, f, edges, r, r.to);
    }
  }

  lemma LiveTarget(nodes: set<Object>, root: Object, heap: set<Reference>, f: Found, edges: map<Object, seq<Object>>,
                   r: Reference, t: Object)
    requires edges.Keys == nodes && r.owner in LiveNodes(edges, root) && r in r.owner.refs
    requires r in f.to && f.to[r] == t && r in f.alive && t in nodes
    requires forall o, t :: o in LiveNodes(edges, root) && t in nodes ==> (LeadsTo(o.refs, f.alive, f.to, t) <==> t in edges[o])
    ensures t in LiveNodes(edges, root)
  {
    var o := r.owner;
    var k :| 0 <= k < |o.refs| && o.refs[k] == r;
    assert LeadsTo(o.refs, f.alive, f.to, t);
    assert t in edges[o];
    ReachStep(edges, root, o, t);
  }

  lemma ListFacts(objects: Object?, list: seq<Object>, root: Object)
    requires ListOk(objects, list, root)
    ensures root !in list && NoDup(list) && ObjectChain(objects, list) && root.nextMarked == null
  {
  }

  lemma ListAgain(objects: Object?, list: seq<Object>, root: Object)
    requires root !in list && NoDup(list) && ObjectChain(objects, list) && root.nextMarked == null
    ensures ListOk(objects, list, root)
  {
  }

  lemma OneMoreObject(o: Object, nodes: set<Object>, heap: set<Reference>, nodes': set<Object>)
    requires ReferencesOk(nodes, heap) && o.refs == [] && o.refHead == null && nodes' == nodes + {o}
    ensures ReferencesOk(nodes', heap)
  {
    assert RefsOk(o);
  }

  /** list_push_front on the references of an object, for a new reference. */
  method PushReference(from: Object, r: Reference, ghost nodes: set<Object>, ghost heap: set<Reference>)
    requires ReferencesOk(nodes, heap) && from in nodes && r !in heap
    requires r.owner == from && r.state == Active && (r.to != null ==> r.to in nodes)
    modifies from`refHead, from`refs, r`next
    ensures ReferencesOk(nodes, heap + {r}) && from.refs == [r] + old(from.refs)
  {
    hide RefChain;
    assert RefsOk(from) && r !in from.refs;
    PushRef(from, r);
    forall o | o in nodes ensures RefsOk(o) {
      assert old(RefsOk(o));
    }
  }
}
