/** The objects and references of benchmarks/tracing_ptr.cpp, and list_collect on their lists. */
module TracingLists {
  import opened Sequences

  datatype TrackingState = Active | Marked | Unreachable

  class Reference {
    var next: Reference?
    var to: Object?
    var state: TrackingState
    /** The object whose list this reference is on. */
    ghost const owner: Object

    constructor (to: Object?, ghost owner: Object)
      ensures this.to == to && next == null && state == Active && this.owner == owner
    {
      next, this.to, state, this.owner := null, to, Active, owner;
    }
  }

  class Object {
    var next: Object?
    var nextMarked: Object?
    var state: TrackingState
    var refHead: Reference?
    /** The references on the list at refHead. */
    ghost var refs: seq<Reference>

    constructor ()
      ensures next == null && nextMarked == null && state == Active && refHead == null && refs == []
    {
      next, nextMarked, state, refHead, refs := null, null, Active, null, [];
    }
  }

  // ---------------------------------------------------------------- lists threaded through `next`

  ghost predicate RefChain(head: Reference?, s: seq<Reference>)
    reads s`next
  {
    && (s == [] ==> head == null)
    && (s != [] ==> head == s[0] && s[|s| - 1].next == null)
    && forall i, j :: 0 <= i && j == i + 1 && j < |s| ==> s[i].next == s[j]
  }


  /** The references that were not disposed of. */
  ghost function Alive(s: seq<Reference>): set<Reference>
    reads s`state
  {
    set r | r in s && r.state != Unreachable
  }

  /** The list of one object is well-formed, and its references are its own. */
  ghost predicate RefsOk(o: Object)
    reads o`refHead, o`refs, o.refs`next, o.refs`state
  {
    && RefChain(o.refHead, o.refs) && NoDup(o.refs)
    && forall r :: r in o.refs ==> r.owner == o && r.state != Marked
  }

  /** What list_collect leaves on the list of an object. */
  ghost function Collected(refs: seq<Reference>, check: bool): seq<Reference>
    reads refs`state
  {
    if check then Reverse(Keep(refs, Alive(refs))) else []
  }

  /** From s[i] on, the list is as the chain says. */
  ghost predicate RefTail(head: Reference?, s: seq<Reference>, i: nat)
    reads s`next
  {
    && i <= |s|
    && (i == |s| ==> head == null)
    && (i < |s| ==> head == s[i] && s[|s| - 1].next == null)
    && forall k, j :: i <= k && j == k + 1 && j < |s| ==> s[k].next == s[j]
  }

  /** list_push_front */
  method PushRef(o: Object, r: Reference)
    requires RefChain(o.refHead, o.refs) && r !in o.refs
    modifies o`refHead, o`refs, r`next
    ensures o.refs == [r] + old(o.refs) && RefChain(o.refHead, o.refs)
  {
    r.next := o.refHead;
    o.refHead := r;
    o.refs := [r] + o.refs;
  }

  /** One turn of list_collect: the reference goes, or is pushed back. */
  method CollectRef(o: Object, r: Reference, check: bool, ghost heap: set<Reference>, ghost all: seq<Reference>,
                    ghost i: nat)
    returns (ok: bool, ghost heap': set<Reference>)
    requires RefTail(r, all, i) && i < |all| && NoDup(all) && r in heap
    requires r !in o.refs && RefChain(o.refHead, o.refs) && r.state != Marked
    modifies o`refHead, o`refs, r`next
    ensures ok && RefChain(o.refHead, o.refs)
    ensures o.refs == if check && r.state == Active then [r] + old(o.refs) else old(o.refs)
    ensures heap' == if check && r.state == Active then heap else heap - {r}
    ensures RefTail(old(r.next), all, i + 1)
  {
    if !check || r.state == Unreachable {
      // delete
      return true, heap - {r};
    } else if r.state == Active {
      PushRef(o, r);
      return true, heap;
    } else {
      // "object marked for collection is still reachable"
      return false, heap;
    }
  }

  lemma CollectStep(all: seq<Reference>, i: nat, alive: set<Reference>)
    requires i < |all|
    ensures Elements(all[..i + 1]) == Elements(all[..i]) + {all[i]}
    ensures Reverse(Keep(all[..i + 1], alive)) ==
      (if all[i] in alive then [all[i]] else []) + Reverse(Keep(all[..i], alive))
  {
    hide Keep;
    hide Reverse;
    var kept := Keep(all[..i], alive);
    assert all[..i + 1] == all[..i] + [all[i]];
    KeepAppend(all[..i], all[i], alive);
    ReverseSnoc(kept, all[i]);
    ElementsSplit(all[..i], [all[i]]);
    assert kept + [] == kept && [] + Reverse(kept) == Reverse(kept);
  }

  /** The accounts of what was deleted, over one turn. */
  lemma HeapStep(heap: set<Reference>, before: seq<Reference>, kept: seq<Reference>, r: Reference)
    requires Elements(kept) <= Elements(before) && r !in before
    ensures r !in kept && Elements([r] + kept) == {r} + Elements(kept)
    ensures var e, k := Elements(before), Elements(kept);
      && heap - (e - k) == heap - ((e + {r}) - ({r} + k))
      && heap - (e - k) - {r} == heap - ((e + {r}) - k)
      && (r in heap ==> r in heap - (e - k)) && k <= e + {r} && {r} + k <= e + {r}
  {
    assert r !in Elements(before);
    ElementsSplit([r], kept);
  }

  lemma NotBefore<T>(s: seq<T>, i: nat)
    requires i < |s| && NoDup(s)
    ensures s[i] !in s[..i]
  {
  }

  lemma CollectedNoDup(all: seq<Reference>, alive: set<Reference>)
    requires NoDup(all)
    ensures NoDup(Reverse(Keep(all, alive)))
  {
    KeepNoDup(all, alive);
    ReverseNoDup(Keep(all, alive));
  }

  /** list_collect on the references of an object: `heap` are the references not deleted yet.
      Each one that goes is deleted once; the others are pushed back, so that their order turns round. */
  method CollectRefs(o: Object, check: bool, ghost heap: set<Reference>) returns (ok: bool, ghost heap': set<Reference>)
    requires RefsOk(o) && Elements(o.refs) <= heap
    modifies o`refHead, o`refs, o.refs`next
    ensures ok && RefsOk(o) && o.refs == old(Collected(o.refs, check))
    ensures heap' == heap - (Elements(old(o.refs)) - Elements(o.refs))
  {
    hide RefChain;
    hide RefTail;
    hide Keep;
    hide Reverse;
    hide Elements;
    hide NoDup;
    ghost var all, alive := o.refs, if check then Alive(o.refs) else {};
    RefTailOfChain(o.refHead, o.refs);
    var detached := o.refHead;
    o.refHead, o.refs, heap', ok := null, [], heap, true;
    EmptyCollect(all, alive);
    ghost var i := 0;
    while detached != null
      invariant 0 <= i <= |all| && RefTail(detached, all, i) && (detached == null <==> i == |all|)
      invariant detached != null ==> detached == all[i]
      invariant ok && RefChain(o.refHead, o.refs) && o.refs == Reverse(Keep(all[..i], alive))
      invariant Elements(o.refs) <= Elements(all[..i])
      invariant heap' == heap - (Elements(all[..i]) - Elements(o.refs))
      decreases |all| - i
    {
      NotBefore(all, i);
      CollectStep(all, i, alive);
      HeapStep(heap, all[..i], o.refs, detached);
      var next := detached.next;
      ok, heap' := CollectRef(o, detached, check, heap', all, i);
      detached := next;
      i := i + 1;
      TailHead(detached, all, i);
    }
    assert all[..|all|] == all;
    CollectedNoDup(all, alive);
    KeepNone(all);
    StillOwn(o, all);
  }

  lemma StillOwn(o: Object, all: seq<Reference>)
    requires Elements(o.refs) <= Elements(all) && forall r :: r in all ==> r.owner == o && r.state != Marked
    ensures forall r :: r in o.refs ==> r.owner == o && r.state != Marked
  {
    assert forall r :: r in o.refs ==> r in Elements(all);
  }

  lemma RefTailOfChain(head: Reference?, s: seq<Reference>)
    requires RefChain(head, s)
    ensures RefTail(head, s, 0) && (head == null <==> s == []) && (s != [] ==> head == s[0])
  {
  }

  lemma EmptyCollect(all: seq<Reference>, alive: set<Reference>)
    ensures Elements(all[..0]) == Elements<Reference>([]) == {} && forall r :: r in all ==> r in Elements(all)
    ensures RefChain(null, []) && Reverse(Keep(all[..0], alive)) == [] && Reverse<Reference>([]) == []
  {
  }

  lemma TailHead(head: Reference?, s: seq<Reference>, i: nat)
    requires RefTail(head, s, i)
    ensures (head == null <==> i == |s|) && (i < |s| ==> head == s[i])
  {
  }
}
