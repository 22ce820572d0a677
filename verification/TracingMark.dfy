/**
  The mark phase of both trackers of benchmarks/tracing_ptr.cpp.  Two work lists, threaded through
  one field, take turns; an object is on a list exactly while its state says so.
*/
module TracingMark {
  import opened Reachability
  import opened Sequences
  import opened TracingLists

  /** Some reference in the list that was not disposed of leads to t. */
  ghost predicate IsTarget(refs: seq<Reference>, t: Object)
    reads refs
  {
    exists k :: 0 <= k < |refs| && refs[k].state != Unreachable && refs[k].to == t
  }

  /** What the references lead to: null and disposed references lead nowhere. */
  ghost function Targets(refs: seq<Reference>): seq<Object>
    reads refs
  {
    if refs == [] then []
    else (if refs[0].state != Unreachable && refs[0].to != null then [refs[0].to] else []) + Targets(refs[1..])
  }

  lemma {:induction false} TargetsAre(refs: seq<Reference>, t: Object)
    ensures t in Targets(refs) <==> IsTarget(refs, t)
  {
    if refs != [] {
      TargetsAre(refs[1..], t);
      if IsTarget(refs[1..], t) {
        var k :| 0 <= k < |refs[1..]| && refs[1..][k].state != Unreachable && refs[1..][k].to == t;
        assert refs[k + 1].to == t;
      }
      if IsTarget(refs, t) {
        var k :| 0 <= k < |refs| && refs[k].state != Unreachable && refs[k].to == t;
        assert k > 0 ==> refs[1..][k - 1].to == t;
      }
    }
  }

  /** The same, when it is known which references were not disposed of and where each leads. */
  ghost predicate LeadsTo(refs: seq<Reference>, alive: set<Reference>, to: map<Reference, Object?>, t: Object)
  {
    exists k :: 0 <= k < |refs| && refs[k] in alive && refs[k] in to && to[refs[k]] == t
  }

  /** list_collect does not change where an object's references lead. */
  lemma CollectedLeads(refs: seq<Reference>, alive: set<Reference>, to: map<Reference, Object?>, t: Object)
    ensures LeadsTo(Reverse(Keep(refs, alive)), alive, to, t) <==> LeadsTo(refs, alive, to, t)
  {
    var kept := Keep(refs, alive);
    KeepElements(refs, alive);
    ReverseElements(kept);
    if LeadsTo(refs, alive, to, t) {
      var k :| 0 <= k < |refs| && refs[k] in alive && refs[k] in to && to[refs[k]] == t;
      assert refs[k] in kept;
      var j :| 0 <= j < |kept| && kept[j] == refs[k];
      assert Reverse(kept)[|kept| - 1 - j] == refs[k];
    }
    if LeadsTo(Reverse(kept), alive, to, t) {
      var k :| 0 <= k < |kept| && Reverse(kept)[k] in alive && Reverse(kept)[k] in to && to[Reverse(kept)[k]] == t;
      assert kept[|kept| - 1 - k] in refs;
    }
  }

  /** The references of the nodes are among those not deleted. */
  ghost predicate Held(nodes: set<Object>, heap: set<Reference>)
    reads nodes`refs
  {
    forall o, k :: o in nodes && 0 <= k < |o.refs| ==> o.refs[k] in heap
  }

  ghost function Edges(nodes: set<Object>, heap: set<Reference>): map<Object, seq<Object>>
    requires Held(nodes, heap)
    reads nodes`refs, heap
  {
    map o | o in nodes :: Targets(o.refs)
  }

  // ---------------------------------------------------------------- the lists threaded through next_marked

  ghost predicate Threaded(head: Object?, s: seq<Object>)
    reads s`nextMarked
  {
    && (s == [] ==> head == null)
    && (s != [] ==> head == s[0] && s[|s| - 1].nextMarked == null)
    && forall i, j :: 0 <= i && j == i + 1 && j < |s| ==> s[i].nextMarked == s[j]
  }

  ghost function States(nodes: set<Object>): map<Object, TrackingState>
    reads nodes`state
  {
    map o | o in nodes :: o.state
  }

  /** What the mark phase knows; no object is on two lists, or twice on one. */
  ghost predicate Marking(root: Object, edges: map<Object, seq<Object>>, state: map<Object, TrackingState>,
                          done: set<Object>, cur: seq<Object>, nxt: seq<Object>)
  {
    && root in state && edges.Keys == state.Keys
    && NoDup(cur) && NoDup(nxt) && Elements(cur) !! Elements(nxt) && done !! (Elements(cur) + Elements(nxt))
    && done + Elements(cur) + Elements(nxt) <= state.Keys
    && (forall o :: o in state ==> state[o] == if o in done then Active else if o in cur || o in nxt then Marked else Unreachable)
    && state[root] != Unreachable
    && (forall o, t :: o in done && t in state && t in edges[o] ==> state[t] != Unreachable)
    && (forall o :: o in state && state[o] != Unreachable ==> Reachable(edges, root, o))
  }

  // ---------------------------------------------------------------- visiting one object

  /** An object that was not reached before is marked and put on the next list. */
  method MarkTarget(t: Object, nextHead: Object?, ghost nxt: seq<Object>) returns (nextHead': Object?,
                    ghost nxt': seq<Object>)
    requires Threaded(nextHead, nxt) && (t.state == Unreachable ==> t !in nxt)
    modifies t`state, t`nextMarked
    ensures Threaded(nextHead', nxt')
    ensures if old(t.state) == Unreachable then nxt' == [t] + nxt && t.state == Marked
            else nxt' == nxt && t.state == old(t.state) && t.nextMarked == old(t.nextMarked)
  {
    nextHead', nxt' := nextHead, nxt;
    if t.state == Unreachable {
      t.state := Marked;
      t.nextMarked := nextHead;
      nextHead', nxt' := t, [t] + nxt;
    }
  }

  /** Since the scan began, with the given states and links, just the objects that joined the list have changed. */
  ghost predicate Scanned(nodes: set<Object>, state: map<Object, TrackingState>, link: map<Object, Object?>,
                          refs: seq<Reference>, nxt: seq<Object>, nxt': seq<Object>)
    reads nodes`state, nodes`nextMarked, refs
  {
    && state.Keys == nodes && link.Keys == nodes && Elements(nxt) <= Elements(nxt') <= nodes && NoDup(nxt')
    && (forall x :: x in nodes && state[x] != Unreachable ==> x.state == state[x] && x.nextMarked == link[x] && (x in nxt' ==> x in nxt))
    && (forall x :: x in nodes && state[x] == Unreachable ==> x.state == if x in nxt' then Marked else Unreachable)
    && (forall x :: x in nodes && x in nxt' && x !in nxt ==> IsTarget(refs, x))
  }

  /** The first n references lead to objects that were reached. */
  ghost predicate Reached(nodes: set<Object>, refs: seq<Reference>, n: nat)
    reads nodes`state, refs
  {
    && n <= |refs|
    && forall k :: 0 <= k < n && refs[k].state != Unreachable && refs[k].to != null && refs[k].to in nodes ==>
         refs[k].to.state != Unreachable
  }

  /** The k-th reference of the object being visited. */
  method ScanRef(r: Reference, nextHead: Object?, ghost nodes: set<Object>, ghost state: map<Object, TrackingState>,
                 ghost link: map<Object, Object?>,
                 ghost refs: seq<Reference>, ghost k: nat, ghost nxt: seq<Object>, ghost was: seq<Object>)
    returns (nextHead': Object?, ghost now: seq<Object>)
    requires k < |refs| && refs[k] == r && (r.state != Unreachable && r.to != null ==> r.to in nodes)
    requires Threaded(nextHead, was) && Scanned(nodes, state, link, refs, nxt, was) && Reached(nodes, refs, k)
    modifies nodes`state, nodes`nextMarked
    ensures Threaded(nextHead', now) && Scanned(nodes, state, link, refs, nxt, now) && Reached(nodes, refs, k + 1)
  {
    nextHead', now := nextHead, was;
    var obj := r.to;
    // null and disposed references are skipped
    if obj != null && r.state != Unreachable {
      assert IsTarget(refs, obj);
      hide IsTarget;
      nextHead', now := MarkTarget(obj, nextHead, was);
    }
  }

  /** The loop over the references of the object being visited. */
  method ScanRefs(node: Object, nextHead: Object?, ghost nodes: set<Object>, ghost nxt: seq<Object>)
    returns (nextHead': Object?, ghost now: seq<Object>, ghost state: map<Object, TrackingState>, ghost link: map<Object, Object?>)
    requires RefChain(node.refHead, node.refs) && node in nodes
    requires forall k :: 0 <= k < |node.refs| && node.refs[k].state != Unreachable && node.refs[k].to != null ==> node.refs[k].to in nodes
    requires Threaded(nextHead, nxt) && NoDup(nxt) && Elements(nxt) <= nodes
    requires forall x :: x in nodes && x in nxt ==> x.state == Marked
    modifies nodes`state, nodes`nextMarked
    ensures state == old(map x | x in nodes :: x.state) && link == old(map x | x in nodes :: x.nextMarked)
    ensures Threaded(nextHead', now) && Scanned(nodes, state, link, node.refs, nxt, now)
    ensures Reached(nodes, node.refs, |node.refs|)
  {
    hide RefTail;
    hide Threaded;
    hide Scanned;
    hide Reached;
    state, link := map x | x in nodes :: x.state, map x | x in nodes :: x.nextMarked;
    nextHead', now := nextHead, nxt;
    ghost var refs := node.refs;
    ScanStart(nodes, state, link, refs, nxt);
    RefTailOfChain(node.refHead, refs);
    var r := node.refHead;
    ghost var k := 0;
    while r != null
      invariant k <= |refs| && RefTail(r, refs, k) && (r == null <==> k == |refs|) && (r != null ==> r == refs[k])
      invariant Threaded(nextHead', now) && Scanned(nodes, state, link, refs, nxt, now) && Reached(nodes, refs, k)
      decreases |refs| - k
    {
      nextHead', now := ScanRef(r, nextHead', nodes, state, link, refs, k, nxt, now);
      NextInTail(r, refs, k);
      r := r.next;
      k := k + 1;
      TailHead(r, refs, k);
    }
  }

  lemma NextInTail(r: Reference, refs: seq<Reference>, k: nat)
    requires k < |refs| && RefTail(r, refs, k)
    ensures RefTail(r.next, refs, k + 1)
  {
  }

  lemma ScanStart(nodes: set<Object>, state: map<Object, TrackingState>, link: map<Object, Object?>,
                  refs: seq<Reference>, nxt: seq<Object>)
    requires state.Keys == nodes && link.Keys == nodes && Elements(nxt) <= nodes && NoDup(nxt)
    requires forall x :: x in nodes ==> x.state == state[x] && x.nextMarked == link[x] && (x in nxt ==> x.state == Marked)
    ensures Scanned(nodes, state, link, refs, nxt, nxt) && Reached(nodes, refs, 0)
  {
  }

  /** Between two states of a visit to the head of the current list. */
  ghost predicate Visited(edges: map<Object, seq<Object>>, state: map<Object, TrackingState>, state': map<Object,
                          TrackingState>,
                          node: Object, nxt: seq<Object>, now: seq<Object>)
  {
    && state'.Keys == state.Keys == edges.Keys && node in state && Elements(nxt) <= Elements(now) <= state.Keys && NoDup(now)
    && (forall x :: x in state && state[x] != Unreachable ==>
          state'[x] == (if x == node then Active else state[x]) && (x in now ==> x in nxt))
    && (forall x :: x in state && state[x] == Unreachable ==> state'[x] == if x in now then Marked else Unreachable)
    && (forall x :: x in state && x in now && x !in nxt ==> x in edges[node])
    && (forall t :: t in state && t in edges[node] ==> state'[t] != Unreachable)
  }

  lemma VisitLists(cur: seq<Object>)
    requires cur != [] && NoDup(cur)
    ensures NoDup(cur[1..]) && Elements(cur) == {cur[0]} + Elements(cur[1..]) && cur[0] !in Elements(cur[1..])
  {
    assert cur == [cur[0]] + cur[1..];
    ElementsSplit([cur[0]], cur[1..]);
  }

  lemma VisitReaches(root: Object, edges: map<Object, seq<Object>>, state: map<Object, TrackingState>,
                     state': map<Object, TrackingState>,
                     done: set<Object>, cur: seq<Object>, nxt: seq<Object>, now: seq<Object>, o: Object)
    requires cur != [] && Marking(root, edges, state, done, cur, nxt) && Visited(edges, state, state', cur[0], nxt, now)
    requires o in state' && state'[o] != Unreachable
    ensures Reachable(edges, root, o)
  {
    var node := cur[0];
    assert node in Elements(cur);
    if state[o] == Unreachable {
      assert o !in Elements(nxt);
      ReachStep(edges, root, node, o);
    }
  }

  lemma VisitDisjoint(root: Object, edges: map<Object, seq<Object>>, state: map<Object, TrackingState>,
                      state': map<Object, TrackingState>,
                      done: set<Object>, cur: seq<Object>, nxt: seq<Object>, now: seq<Object>)
    requires cur != [] && Marking(root, edges, state, done, cur, nxt) && Visited(edges, state, state', cur[0], nxt, now)
    ensures Elements(now) !! Elements(cur) && done !! Elements(now)
  {
    forall x | x in Elements(now) ensures x !in Elements(cur) && x !in done {
      if state[x] != Unreachable { assert x in Elements(nxt); }
    }
  }

  lemma VisitStates(root: Object, edges: map<Object, seq<Object>>, state: map<Object, TrackingState>,
                    state': map<Object, TrackingState>,
                    done: set<Object>, cur: seq<Object>, nxt: seq<Object>, now: seq<Object>, o: Object)
    requires cur != [] && Marking(root, edges, state, done, cur, nxt) && Visited(edges, state, state', cur[0], nxt, now)
    requires o in state'
    ensures state'[o] == if o in done + {cur[0]} then Active else if o in cur[1..] || o in now then Marked else Unreachable
  {
    VisitLists(cur);
    assert o in Elements(nxt) <==> o in nxt;
    assert o in Elements(now) <==> o in now;
    assert o in Elements(cur) <==> o in cur;
    assert o in Elements(cur[1..]) <==> o in cur[1..];
    VisitDisjoint(root, edges, state, state', done, cur, nxt, now);
  }

  /** A visit to the head of the current list. */
  lemma VisitMarks(root: Object, edges: map<Object, seq<Object>>, state: map<Object, TrackingState>,
                   state': map<Object, TrackingState>,
                   done: set<Object>, cur: seq<Object>, nxt: seq<Object>, now: seq<Object>)
    requires cur != [] && Marking(root, edges, state, done, cur, nxt) && Visited(edges, state, state', cur[0], nxt, now)
    ensures Marking(root, edges, state', done + {cur[0]}, cur[1..], now)
  {
    var node := cur[0];
    VisitLists(cur);
    VisitDisjoint(root, edges, state, state', done, cur, nxt, now);
    forall o | o in state' && state'[o] != Unreachable ensures Reachable(edges, root, o) {
      VisitReaches(root, edges, state, state', done, cur, nxt, now, o);
    }
    forall o | o in state'
      ensures state'[o] == if o in done + {node} then Active else if o in cur[1..] || o in now then Marked else Unreachable
    {
      VisitStates(root, edges, state, state', done, cur, nxt, now, o);
    }
    forall o, t | o in done + {node} && t in state' && t in edges[o] ensures state'[t] != Unreachable {
      assert o == node || state[t] != Unreachable;
    }
  }

  // ---------------------------------------------------------------- the objects with their reference lists

  /** The references that are not deleted, as the phase found them. */
  datatype Found = Found(ghost alive: set<Reference>, ghost to: map<Reference, Object?>)

  /** The references not deleted are those on the lists of the nodes.  They are as they were found, and lead where `edges` says. */
  ghost predicate Graph(nodes: set<Object>, heap: set<Reference>, f: Found, edges: map<Object, seq<Object>>)
    reads nodes`refs, nodes`refHead, heap
  {
    && Held(nodes, heap)
    && (forall r :: r in heap ==> r.owner in nodes && r in r.owner.refs)
    && (forall r :: r in heap ==> r in f.to && r.to == f.to[r] && (r.state != Unreachable <==> r in f.alive))
    && (forall o :: o in nodes ==> RefsOk(o))
    && edges.Keys == nodes
    && (forall r :: r in heap && r in f.alive && f.to[r] != null ==> f.to[r] in nodes)
    && (forall o, t :: o in nodes && t in nodes ==> (LeadsTo(o.refs, f.alive, f.to, t) <==> t in edges[o]))
  }

  lemma PurgeStart(o: Object, nodes: set<Object>, heap: set<Reference>, f: Found, edges: map<Object, seq<Object>>)
    requires o in nodes && Graph(nodes, heap, f, edges)
    ensures RefsOk(o) && Elements(o.refs) <= heap
    ensures Collected(o.refs, true) == Reverse(Keep(o.refs, f.alive))
    ensures forall k :: 0 <= k < |Collected(o.refs, true)| ==> Collected(o.refs, true)[k] in o.refs
  {
    KeepAgree(o.refs, Alive(o.refs), f.alive);
    KeepElements(o.refs, f.alive);
    ReverseElements(Keep(o.refs, f.alive));
  }

  lemma GraphLists(nodes: set<Object>, heap: set<Reference>, f: Found, edges: map<Object, seq<Object>>)
    requires Graph(nodes, heap, f, edges)
    ensures forall x, k :: x in nodes && 0 <= k < |x.refs| ==> x.refs[k] in heap && x.refs[k].owner == x
    ensures edges.Keys == nodes && forall x :: x in nodes ==> RefsOk(x)
    ensures forall r :: r in heap ==> r.owner in nodes && r in r.owner.refs
    ensures forall r :: r in heap ==> r in f.to && r.to == f.to[r] && (r.state != Unreachable <==> r in f.alive)
    ensures forall r :: r in heap && r in f.alive && f.to[r] != null ==> f.to[r] in nodes
    ensures forall o, t :: o in nodes && t in nodes ==> (LeadsTo(o.refs, f.alive, f.to, t) <==> t in edges[o])
  {
  }

  /** The lists are in order again when just that of o has lost references. */
  lemma GraphFromLists(o: Object, was: seq<Reference>, nodes: set<Object>, heap: set<Reference>,
                       heap': set<Reference>, f: Found, edges: map<Object, seq<Object>>)
    requires o in nodes && edges.Keys == nodes && heap' == heap - (Elements(was) - Elements(o.refs))
    requires forall x, k :: x in nodes && x != o && 0 <= k < |x.refs| ==> x.refs[k] in heap && x.refs[k].owner == x
    requires forall r :: r in was ==> r.owner == o
    requires forall k :: 0 <= k < |o.refs| ==> o.refs[k] in heap
    requires forall r :: r in heap ==> r.owner in nodes && (if r.owner == o then r in was else r in r.owner.refs)
    requires forall r :: r in heap ==> r in f.to && r.to == f.to[r] && (r.state != Unreachable <==> r in f.alive)
    requires forall r :: r in heap && r in f.alive && f.to[r] != null ==> f.to[r] in nodes
    requires forall x :: x in nodes ==> RefsOk(x)
    requires forall x, t :: x in nodes && t in nodes ==> (LeadsTo(x.refs, f.alive, f.to, t) <==> t in edges[x])
    ensures Graph(nodes, heap', f, edges)
  {
  }

  lemma CollectedEdges(o: Object, refs: seq<Reference>, nodes: set<Object>, f: Found, edges: map<Object, seq<Object>>)
    requires o in nodes && edges.Keys == nodes
    requires forall t :: t in nodes ==> (LeadsTo(refs, f.alive, f.to, t) <==> t in edges[o])
    ensures forall t :: t in nodes ==> (LeadsTo(Reverse(Keep(refs, f.alive)), f.alive, f.to, t) <==> t in edges[o])
  {
    forall t | t in nodes ensures LeadsTo(Reverse(Keep(refs, f.alive)), f.alive, f.to, t) <==> t in edges[o] {
      CollectedLeads(refs, f.alive, f.to, t);
    }
  }

  /** list_collect on the references of one node. */
  method Purge(o: Object, ghost nodes: set<Object>, ghost heap: set<Reference>, ghost f: Found,
               ghost edges: map<Object, seq<Object>>)
    returns (ok: bool, ghost heap': set<Reference>)
    requires o in nodes && Graph(nodes, heap, f, edges)
    modifies o`refHead, o`refs, heap`next
    ensures ok && heap' <= heap && Graph(nodes, heap', f, edges)
    ensures o.refs == Reverse(Keep(old(o.refs), f.alive))
  {
    hide Graph;
    hide RefsOk;
    hide LeadsTo;
    hide Reverse;
    hide Keep;
    PurgeStart(o, nodes, heap, f, edges);
    GraphLists(nodes, heap, f, edges);
    ghost var was, kept := o.refs, Collected(o.refs, true);
    CollectedEdges(o, was, nodes, f, edges);
    ok, heap' := CollectRefs(o, true, heap);
    assert o.refs == kept;
    assert forall x :: x in nodes && x != o ==> x.refs == old(x.refs);
    forall x | x in nodes ensures RefsOk(x) {
      assert x != o ==> old(RefsOk(x));
    }
    GraphFromLists(o, was, nodes, heap, heap', f, edges);
  }

  // ---------------------------------------------------------------- the mark loops

  /** What the references of a node lead to, in terms of the graph. */
  lemma GraphTargets(node: Object, nodes: set<Object>, heap: set<Reference>, f: Found, edges: map<Object, seq<Object>>)
    requires node in nodes && Graph(nodes, heap, f, edges)
    ensures RefChain(node.refHead, node.refs)
    ensures forall k :: 0 <= k < |node.refs| && node.refs[k].state != Unreachable && node.refs[k].to != null ==> node.refs[k].to in nodes
    ensures forall t :: t in nodes ==> (IsTarget(node.refs, t) <==> t in edges[node])
  {
    assert RefsOk(node);
    forall t | t in nodes ensures IsTarget(node.refs, t) <==> t in edges[node] {
      assert LeadsTo(node.refs, f.alive, f.to, t) <==> t in edges[node];
      if IsTarget(node.refs, t) {
        var k :| 0 <= k < |node.refs| && node.refs[k].state != Unreachable && node.refs[k].to == t;
        assert node.refs[k] in f.alive && f.to[node.refs[k]] == t;
      }
    }
  }

  /** What a scan found, and the new state of the object visited. */
  lemma ScanVisits(node: Object, nodes: set<Object>, edges: map<Object, seq<Object>>, state: map<Object,
                   TrackingState>, link: map<Object, Object?>,
                   refs: seq<Reference>, nxt: seq<Object>, now: seq<Object>)
    requires node in nodes && edges.Keys == nodes && state.Keys == nodes && state[node] != Unreachable
    requires forall t :: t in nodes ==> (IsTarget(refs, t) <==> t in edges[node])
    requires Scanned(nodes, state, link, refs, nxt, now) && Reached(nodes, refs, |refs|)
    ensures Visited(edges, state, States(nodes)[node := Active], node, nxt, now)
  {
    forall t | t in nodes && t in edges[node] ensures t.state != Unreachable {
      var k :| 0 <= k < |refs| && refs[k].state != Unreachable && refs[k].to == t;
    }
  }

  lemma CurrentIsMarked(nodes: set<Object>, root: Object, edges: map<Object, seq<Object>>, state: map<Object,
                        TrackingState>,
                        done: set<Object>, cur: seq<Object>, nxt: seq<Object>)
    requires Marking(root, edges, state, done, cur, nxt) && state.Keys == nodes
    ensures edges.Keys == nodes && root in nodes && NoDup(cur) && NoDup(nxt) && Elements(cur) <= nodes
    ensures Elements(nxt) <= nodes
    ensures forall x :: x in nodes && (x in cur || x in nxt) ==> state[x] == Marked
    ensures forall i :: 0 <= i < |cur| ==> cur[i] in nodes && state[cur[i]] == Marked
    ensures forall i :: 0 <= i < |nxt| ==> nxt[i] in nodes && state[nxt[i]] == Marked
    ensures state[root] != Unreachable
  {
    assert forall x :: x in cur <==> x in Elements(cur);
    assert forall x :: x in nxt <==> x in Elements(nxt);
  }

  /** Visit the head of the current list: scan its references, make it active, and step to the next in the list. */
  method VisitHead(node: Object, nextHead: Object?, ghost nodes: set<Object>, ghost heap: set<Reference>,
                   ghost f: Found,
                   ghost edges: map<Object, seq<Object>>, ghost root: Object, ghost done: set<Object>, ghost cur: seq<Object>, ghost nxt: seq<Object>)
    returns (nextHead': Object?, ghost now: seq<Object>)
    requires Graph(nodes, heap, f, edges) && Marking(root, edges, States(nodes), done, cur, nxt)
    requires cur != [] && cur[0] == node && Threaded(node, cur) && Threaded(nextHead, nxt) && root.nextMarked == null
    modifies nodes`state, nodes`nextMarked
    ensures Graph(nodes, heap, f, edges) && Marking(root, edges, States(nodes), done + {node}, cur[1..], now)
    ensures Threaded(node, cur) && Threaded(nextHead', now) && root.nextMarked == null
  {
    hide Graph;
    hide Marking;
    hide Scanned;
    hide Reached;
    hide Visited;
    hide RefChain;
    hide IsTarget;
    hide Threaded;
    hide ThreadedBy;
    CurrentIsMarked(nodes, root, edges, States(nodes), done, cur, nxt);
    GraphTargets(node, nodes, heap, f, edges);
    RecordLinks(nodes, node, cur);
    ghost var state, link;
    nextHead', now, state, link := ScanRefs(node, nextHead, nodes, nxt);
    ScanVisits(node, nodes, edges, state, link, node.refs, nxt, now);
    ScanLinks(nodes, state, link, node.refs, nxt, now, root, node, cur);
    ghost var state' := States(nodes)[node := Active];
    node.state := Active;
    assert States(nodes) == state';
    VisitMarks(root, edges, state, state', done, cur, nxt, now);
  }

  /** The links of a list, as recorded. */
  ghost predicate ThreadedBy(link: map<Object, Object?>, head: Object?, s: seq<Object>)
  {
    && (forall i :: 0 <= i < |s| ==> s[i] in link)
    && (s == [] ==> head == null)
    && (s != [] ==> head == s[0] && link[s[|s| - 1]] == null)
    && forall i, j :: 0 <= i && j == i + 1 && j < |s| ==> link[s[i]] == s[j]
  }

  lemma RecordLinks(nodes: set<Object>, head: Object?, s: seq<Object>)
    requires Threaded(head, s) && forall i :: 0 <= i < |s| ==> s[i] in nodes
    ensures ThreadedBy(map x | x in nodes :: x.nextMarked, head, s)
  {
  }

  /** A scan leaves the links of the current list alone. */
  lemma ScanLinks(nodes: set<Object>, state: map<Object, TrackingState>, link: map<Object, Object?>,
                  refs: seq<Reference>, nxt: seq<Object>, now: seq<Object>, root: Object, head: Object?, cur: seq<Object>)
    requires Scanned(nodes, state, link, refs, nxt, now) && root in nodes && state[root] != Unreachable
    requires ThreadedBy(link, head, cur) && forall i :: 0 <= i < |cur| ==> cur[i] in nodes && state[cur[i]] == Marked
    ensures Threaded(head, cur) && root.nextMarked == link[root]
  {
  }

  /** The lists of the objects in `done` have been through list_collect; the others are as they were. */
  ghost predicate ListsAfter(nodes: set<Object>, refs0: map<Object, seq<Reference>>, alive: set<Reference>,
                             done: set<Object>)
    reads nodes`refs
  {
    refs0.Keys == nodes && forall o :: o in nodes ==> o.refs == if o in done then Reverse(Keep(refs0[o], alive)) else refs0[o]
  }

  /** One turn of the inner mark loop.  gc purges the list of the object first, and clears its link when it leaves
      the current list (`purging`); gc2 does neither. */
  method Visit(node: Object, nextHead: Object?, purging: bool, ghost nodes: set<Object>, ghost heap: set<Reference>,
               ghost f: Found,
               ghost edges: map<Object, seq<Object>>, ghost root: Object, ghost done: set<Object>, ghost cur: seq<Object>, ghost nxt: seq<Object>,
               ghost refs0: map<Object, seq<Reference>>)
    returns (ok: bool, head': Object?, nextHead': Object?, ghost heap': set<Reference>, ghost now: seq<Object>)
    requires Graph(nodes, heap, f, edges) && Marking(root, edges, States(nodes), done, cur, nxt)
    requires cur != [] && cur[0] == node && Threaded(node, cur) && Threaded(nextHead, nxt) && root.nextMarked == null
    requires ListsAfter(nodes, refs0, f.alive, if purging then done else {})
    modifies nodes`state, nodes`nextMarked, nodes`refHead, nodes`refs, heap`next
    ensures ok && heap' <= heap && Graph(nodes, heap', f, edges)
    ensures Marking(root, edges, States(nodes), done + {node}, cur[1..], now)
    ensures Threaded(head', cur[1..]) && Threaded(nextHead', now) && root.nextMarked == null
    ensures ListsAfter(nodes, refs0, f.alive, if purging then done + {node} else {})
  {
    hide Graph;
    hide Marking;
    hide Reverse;
    hide Keep;
    hide Threaded;
    CurrentNode(root, edges, States(nodes), done, cur, nxt);
    ok, heap' := true, heap;
    if purging {
      ok, heap' := Purge(node, nodes, heap, f, edges);
      if !ok {
        return false, null, null, heap', nxt;
      }
    }
    nextHead', now := VisitHead(node, nextHead, nodes, heap', f, edges, root, done, cur, nxt);
    CurrentApart(root, edges, States(nodes), done + {node}, cur[1..], now, node);
    head' := Advance(node, nextHead', purging, root, cur, now);
  }

  /** The object leaves the head of the current list. */
  method Advance(node: Object, ghost nextHead: Object?, purging: bool, ghost root: Object, ghost cur: seq<Object>,
                 ghost nxt: seq<Object>)
    returns (head': Object?)
    requires cur != [] && cur[0] == node && Threaded(node, cur) && Threaded(nextHead, nxt)
    requires node !in cur[1..] && node !in nxt && root.nextMarked == null
    modifies node`nextMarked
    ensures Threaded(head', cur[1..]) && Threaded(nextHead, nxt) && root.nextMarked == null
  {
    head' := node.nextMarked;
    if purging {
      node.nextMarked := null;
    }
  }

  lemma CurrentNode(root: Object, edges: map<Object, seq<Object>>, state: map<Object, TrackingState>,
                    done: set<Object>, cur: seq<Object>, nxt: seq<Object>)
    requires Marking(root, edges, state, done, cur, nxt) && cur != []
    ensures cur[0] in state && cur[0] !in done && root in state
  {
    assert cur[0] in Elements(cur);
  }

  /** An object that is done is on neither list. */
  lemma CurrentApart(root: Object, edges: map<Object, seq<Object>>, state: map<Object, TrackingState>,
                     done: set<Object>, cur: seq<Object>, nxt: seq<Object>, node: Object)
    requires Marking(root, edges, state, done, cur, nxt) && node in done
    ensures node !in cur && node !in nxt
  {
    assert node !in Elements(cur) && node !in Elements(nxt);
  }

  /** The inner mark loop: the current list, to its end. */
  method MarkList(first: Object, purging: bool, ghost nodes: set<Object>, ghost heap: set<Reference>, ghost f: Found,
                  ghost edges: map<Object, seq<Object>>, ghost root: Object, ghost done0: set<Object>, ghost list: seq<Object>,
                  ghost refs0: map<Object, seq<Reference>>)
    returns (ok: bool, nextHead: Object?, ghost heap': set<Reference>, ghost done: set<Object>, ghost nxt: seq<Object>)
    requires Graph(nodes, heap, f, edges) && Marking(root, edges, States(nodes), done0, list, [])
    requires Threaded(first, list) && root.nextMarked == null
    requires ListsAfter(nodes, refs0, f.alive, if purging then done0 else {})
    modifies nodes`state, nodes`nextMarked, nodes`refHead, nodes`refs, heap`next
    ensures ok && heap' <= heap && Graph(nodes, heap', f, edges)
    ensures Marking(root, edges, States(nodes), done, nxt, []) && done0 < done
    ensures Threaded(nextHead, nxt) && root.nextMarked == null
    ensures ListsAfter(nodes, refs0, f.alive, if purging then done else {})
  {
    hide Graph;
    hide Marking;
    hide ListsAfter;
    hide Threaded;
    ThreadedHead(first, list);
    ghost var cur := list;
    var markList: Object? := first;
    ok, nextHead, heap', done, nxt := true, null, heap, done0, [];
    ThreadedEnd();
    while markList != null
      invariant ok && heap' <= heap && Graph(nodes, heap', f, edges)
      invariant Marking(root, edges, States(nodes), done, cur, nxt)
      invariant Threaded(markList, cur) && Threaded(nextHead, nxt) && root.nextMarked == null
      invariant (markList == null <==> cur == []) && (cur != [] ==> markList == cur[0])
      invariant ListsAfter(nodes, refs0, f.alive, if purging then done else {})
      invariant done0 <= done && ((cur == list && done == done0) || done0 < done)
      decreases |cur|
    {
      CurrentNode(root, edges, States(nodes), done, cur, nxt);
      var node: Object := markList;
      ok, markList, nextHead, heap', nxt := Visit(node, nextHead, purging, nodes, heap', f, edges, root, done, cur, nxt, refs0);
      done, cur := done + {node}, cur[1..];
      ThreadedHead(markList, cur);
    }
    SwapLists(root, edges, States(nodes), done, nxt);
  }

  lemma ThreadedHead(head: Object?, s: seq<Object>)
    requires Threaded(head, s)
    ensures (head == null <==> s == []) && (s != [] ==> head == s[0])
  {
  }

  lemma ThreadedOne(o: Object)
    requires o.nextMarked == null
    ensures Threaded(o, [o])
  {
  }

  lemma ThreadedEnd()
    ensures Threaded(null, [])
  {
  }

  /** The next list becomes the current one. */
  lemma SwapLists(root: Object, edges: map<Object, seq<Object>>, state: map<Object, TrackingState>,
                  done: set<Object>, nxt: seq<Object>)
    requires Marking(root, edges, state, done, [], nxt)
    ensures Marking(root, edges, state, done, nxt, [])
  {
  }

  /** Before the loop just the root is marked. */
  lemma MarkingStarts(root: Object, edges: map<Object, seq<Object>>, state: map<Object, TrackingState>)
    requires root in state && edges.Keys == state.Keys
    requires forall o :: o in state ==> state[o] == if o == root then Marked else Unreachable
    ensures Marking(root, edges, state, {}, [root], [])
  {
    RootReachable(edges, root);
  }

  /** When both lists are empty, the active objects are the reachable ones. */
  lemma MarkingEnds(root: Object, edges: map<Object, seq<Object>>, state: map<Object, TrackingState>, done: set<Object>)
    requires Marking(root, edges, state, done, [], [])
    requires forall o, k :: o in edges && 0 <= k < |edges[o]| ==> edges[o][k] in edges
    ensures done == LiveNodes(edges, root)
    ensures forall o :: o in state ==> state[o] == if o in done then Active else Unreachable
  {
    ReachableSet(edges, root, done);
  }

  /** The mark phase: the objects that the root reaches are active, all others are unreachable. */
  method Mark(purging: bool, ghost nodes: set<Object>, ghost heap: set<Reference>, ghost f: Found,
              ghost edges: map<Object, seq<Object>>,
              root: Object, ghost refs0: map<Object, seq<Reference>>)
    returns (ok: bool, ghost heap': set<Reference>)
    requires Graph(nodes, heap, f, edges) && root in nodes && root.nextMarked == null
    requires forall o, k :: o in edges && 0 <= k < |edges[o]| ==> edges[o][k] in edges
    requires forall o :: o in nodes ==> o.state == if o == root then Marked else Unreachable
    requires ListsAfter(nodes, refs0, f.alive, {})
    modifies nodes`state, nodes`nextMarked, nodes`refHead, nodes`refs, heap`next
    ensures ok && heap' <= heap && Graph(nodes, heap', f, edges) && root.nextMarked == null
    ensures forall o :: o in nodes ==> o.state == if o in LiveNodes(edges, root) then Active else Unreachable
    ensures ListsAfter(nodes, refs0, f.alive, if purging then LiveNodes(edges, root) else {})
  {
    hide Graph;
    hide Marking;
    hide ListsAfter;
    hide Threaded;
    hide LiveNodes;
    GraphNodes(nodes, heap, f, edges);
    ThreadedOne(root);
    MarkingStarts(root, edges, States(nodes));
    ghost var done: set<Object>, nxt := {}, [root];
    var nextMarkList: Object? := root;
    ok, heap' := true, heap;
    while nextMarkList != null
      invariant ok && heap' <= heap && Graph(nodes, heap', f, edges)
      invariant Marking(root, edges, States(nodes), done, nxt, [])
      invariant Threaded(nextMarkList, nxt) && root.nextMarked == null
      invariant ListsAfter(nodes, refs0, f.alive, if purging then done else {})
      decreases |nodes - done|
    {
      var first: Object := nextMarkList;
      ghost var was := done;
      ok, nextMarkList, heap', done, nxt := MarkList(first, purging, nodes, heap', f, edges, root, done, nxt, refs0);
      DoneInNodes(root, edges, States(nodes), done, nxt);
      Shrinks(nodes, was, done);
    }
    ThreadedHead(nextMarkList, nxt);
    MarkingEnds(root, edges, States(nodes), done);
    assert forall o :: o in nodes ==> States(nodes)[o] == o.state;
  }

  lemma GraphNodes(nodes: set<Object>, heap: set<Reference>, f: Found, edges: map<Object, seq<Object>>)
    requires Graph(nodes, heap, f, edges)
    ensures edges.Keys == nodes
  {
  }

  lemma DoneInNodes(root: Object, edges: map<Object, seq<Object>>, state: map<Object, TrackingState>,
                    done: set<Object>, nxt: seq<Object>)
    requires Marking(root, edges, state, done, nxt, [])
    ensures done <= state.Keys
  {
  }
}
