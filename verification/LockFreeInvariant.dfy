/**
  The invariant of the lock-free stack: every allocated node has exactly one place, the places are
  linked the way the code expects, and the nodes a collector may delete were retired while no other
  thread was inside its guard.
*/
module LockFreeInvariant {
  import opened Options
  import opened Sequences
  import opened LockFreeStack

  /** Where an allocated node is: private to a pusher, linked in the stack, in the collection list,
      or unlinked and owned by the thread that unlinked it. */
  datatype Place = Fresh(owner: nat) | OnStack | Retired | Owned(owner: nat)

  /** Bookkeeping of the proof.  `quiet` holds the nodes retired when thread `sole` passed its check. */
  datatype Book = Book(
    place: map<Addr, Place>,
    stk: seq<Addr>,
    dead: seq<Addr>,
    own: seq<seq<Addr>>,
    quiet: set<Addr>,
    sole: Option<nat>)

  // ---------------------------------------------------------------- memory

  ghost predicate Placed(b: Book, nodes: seq<Addr>, p: Place)
  {
    forall i :: 0 <= i < |nodes| ==> nodes[i] in b.place && b.place[nodes[i]] == p
  }

  ghost predicate MemoryOk(s: State, b: Book)
  {
    && |b.own| == |s.threads|
    && b.place.Keys == s.heap.Keys
    && NULL !in s.heap
    && Chain(s.heap, s.head, b.stk) && Placed(b, b.stk, OnStack)
    && Chain(s.heap, s.coll, b.dead) && Placed(b, b.dead, Retired)
  }

  /** Nothing is lost: each place lists its nodes completely. */
  ghost predicate NothingLost(b: Book)
  {
    forall x :: x in b.place ==> Listed(b, x)
  }

  ghost predicate Listed(b: Book, x: Addr)
    requires x in b.place
  {
    match b.place[x]
    case OnStack => x in b.stk
    case Retired => x in b.dead
    case Fresh(u) => u < |b.own| && b.own[u] == [x]
    case Owned(u) => u < |b.own| && x in b.own[u]
  }

  // ---------------------------------------------------------------- guard and quiet nodes

  ghost function Guarded(s: State): set<nat>
  {
    set t | 0 <= t < |s.threads| && InGuard(s.threads[t].pc)
  }

  ghost predicate MayBeQuiet(b: Book, x: Addr)
  {
    x in b.place && (b.place[x] == Retired || (b.sole.Some? && b.place[x] == Owned(b.sole.value)))
  }

  predicate SoleOk(s: State, t: nat)
  {
    t < |s.threads| && (Collecting(s.threads[t].pc) || s.threads[t].pc.Leave?)
  }

  ghost predicate QuietOk(s: State, b: Book)
  {
    && s.clients == |Guarded(s)|
    && (b.sole.None? ==> b.quiet == {})
    && (b.sole.Some? ==> SoleOk(s, b.sole.value))
    && (forall x :: x in b.quiet ==> MayBeQuiet(b, x))
    && (forall i, j :: 0 <= i < j < |b.dead| && b.dead[i] in b.quiet ==> b.dead[j] in b.quiet)
  }

  // ---------------------------------------------------------------- threads

  /** A node a popper may still dereference: never private, and not deletable by anybody. */
  ghost predicate Held(b: Book, x: Addr)
  {
    x in b.place && !b.place[x].Fresh? && x !in b.quiet
  }

  /** `own` linked from `first` to `last`, whatever the `next` field of `last` holds. */
  ghost predicate Segment(heap: map<Addr, Node>, own: seq<Addr>, first: Addr, last: Addr)
  {
    && own != [] && own[0] == first && own[|own|-1] == last
    && NoDup(own)
    && (forall i :: 0 <= i < |own| ==> own[i] != NULL && own[i] in heap)
    && (forall i, j :: 0 <= i < |own| && j == i + 1 && j < |own| ==> heap[own[i]].next == own[j])
  }

  ghost predicate WalkAt(own: seq<Addr>, tail: Addr, cur: Addr, k: nat)
  {
    k <= |own| && cur == At(own, k) && tail == (if k == 0 then NULL else own[k-1])
  }

  ghost predicate AllQuiet(b: Book, nodes: seq<Addr>)
  {
    forall i :: 0 <= i < |nodes| ==> nodes[i] in b.quiet
  }

  /** The part that speaks about memory. */
  ghost predicate LocalsOk(heap: map<Addr, Node>, b: Book, t: nat, pc: Pc)
    requires t < |b.own|
  {
    var own := b.own[t];
    && Placed(b, own, if pc.PushLink? || pc.PushCas? then Fresh(t) else Owned(t))
    && match pc
       case PushLink(n) => own == [n] && n in heap
       case PushCas(n) => own == [n] && n in heap
       case PopNext(top) => own == [] && Held(b, top)
       case PopCas(top, next) =>
         own == [] && Held(b, top) && (b.place[top] == OnStack ==> top in heap && heap[top].next == next)
       case PopTake(top) => own == [top] && top != NULL && top in heap
       case ClearWalk(first, tail, cur) =>
         own != [] && Chain(heap, first, own) && (exists k :: WalkAt(own, tail, cur, k))
       case RetireLink(first, last) => Segment(heap, own, first, last)
       case RetireCas(first, last) => Segment(heap, own, first, last)
       case CollectCheck(c) => own == [] && (c in b.place ==> b.place[c].Retired? || b.place[c].Owned?)
       case CollectCas(c) => own == [] && b.sole == Some(t) && (c in b.place ==> c in b.quiet)
       case CollectNext(c) => own != [] && Chain(heap, c, own) && AllQuiet(b, own) && b.sole == Some(t)
       case CollectDelete(c, next) =>
         own != [] && Chain(heap, c, own) && next == At(own, 1) && AllQuiet(b, own) && b.sole == Some(t)
       case _ => own == []
  }

  /** The part that speaks about commits. */
  ghost predicate CommitsOk(heap: map<Addr, Node>, t: nat, th: Thread)
  {
    match th.pc
    case Idle => th.op.NoOp? || Answered(t, th)
    case PushLink(n) => th.commits == [] && n in heap && th.op == OpPush(heap[n].value)
    case PushCas(n) => th.commits == [] && n in heap && th.op == OpPush(heap[n].value)
    case PopLoad => th.commits == [] && th.op == OpPop && th.result == None
    case PopNext(_) => th.commits == [] && th.op == OpPop && th.result == None
    case PopCas(_, _) => th.commits == [] && th.op == OpPop && th.result == None
    case PopTake(top) => th.op == OpPop && top in heap && th.commits == [Popped(t, Some(heap[top].value))]
    case ClearDetach => th.commits == [] && th.op == OpClear
    case ClearWalk(_, _, _) => th.op == OpClear && th.commits == [Cleared(t)]
    case _ => Answered(t, th)
  }

  /** The operation has committed exactly once, and its result is the one it committed. */
  predicate Answered(t: nat, th: Thread)
  {
    || (th.op.OpPush? && th.commits == [Pushed(t, th.op.value)])
    || (th.op.OpPop? && th.commits == [Popped(t, th.result)])
    || (th.op.OpClear? && th.commits == [Cleared(t)])
  }

  ghost predicate ThreadsOk(s: State, b: Book)
    requires |b.own| == |s.threads|
  {
    forall t :: 0 <= t < |s.threads| ==> LocalsOk(s.heap, b, t, s.threads[t].pc)
  }

  ghost predicate HistoryOk(s: State, b: Book)
  {
    && Replay(s.log) == Some(Values(s.heap, b.stk))
    && forall t :: 0 <= t < |s.threads| ==> CommitsOk(s.heap, t, s.threads[t])
  }

  ghost predicate Inv(s: State, b: Book)
  {
    MemoryOk(s, b) && NothingLost(b) && QuietOk(s, b) && ThreadsOk(s, b) && HistoryOk(s, b)
  }

  lemma InvImpliesSafe(s: State, b: Book)
    requires Inv(s, b)
    ensures Safe(s)
  {
    forall t | 0 <= t < |s.threads| && Touches(s.threads[t].pc).Some?
      ensures Touches(s.threads[t].pc).value in s.heap
    {
      assert LocalsOk(s.heap, b, t, s.threads[t].pc);
      match s.threads[t].pc
      case ClearWalk(first, tail, cur) =>
        var k :| WalkAt(b.own[t], tail, cur, k);
      case _ =>
    }
  }

  // ---------------------------------------------------------------- frames

  /** What a step of thread `t` may do to the nodes the other threads rely on. */
  ghost predicate Gentle(h: map<Addr, Node>, b: Book, h': map<Addr, Node>, b': Book, t: nat)
  {
    && |b'.own| == |b.own|
    && (forall u :: 0 <= u < |b.own| && u != t ==> b'.own[u] == b.own[u])
    && (forall u :: u != t && b.sole == Some(u) ==> b'.sole == Some(u) && b'.quiet == b.quiet)
    && b'.quiet <= b.quiet
    && (forall x :: x in b.place && x in h && OfOther(b.place[x], t) ==>
          x in h' && h'[x] == h[x] && x in b'.place && b'.place[x] == b.place[x])
    && (forall x :: x in b.place && x !in b.quiet && !b.place[x].Fresh? ==> x in b'.place)
    && (forall x :: x in b'.place && x in b.place && !b.place[x].Fresh? ==> Later(b.place[x], b'.place[x]))
    && (forall x :: x in b'.place && b'.place[x] == OnStack && x in b.place && b.place[x] == OnStack && x in h ==>
          x in h' && h'[x].next == h[x].next)
  }

  predicate OfOther(p: Place, t: nat)
  {
    (p.Fresh? && p.owner != t) || (p.Owned? && p.owner != t)
  }

  /** A node only moves from the stack towards the collection list. */
  predicate Later(p: Place, q: Place)
  {
    !q.Fresh? && (q == OnStack ==> p == OnStack)
  }

  /** The allocator assumption, seen from the places: a carried address does not come back. */
  ghost predicate NotReissued(s: State, b: Book, b': Book, t: nat)
  {
    forall u :: 0 <= u < |s.threads| && u != t && (s.threads[u].pc.CollectCheck? || s.threads[u].pc.CollectCas?) ==>
      (s.threads[u].pc.collectable in b'.place ==> s.threads[u].pc.collectable in b.place)
  }

  lemma LocalsFrame(h: map<Addr, Node>, b: Book, h': map<Addr, Node>, b': Book, t: nat, u: nat, pc: Pc)
    requires u < |b.own| && u != t && Gentle(h, b, h', b', t)
    requires LocalsOk(h, b, u, pc)
    requires (pc.CollectCheck? || pc.CollectCas?) && pc.collectable in b'.place ==> pc.collectable in b.place
    ensures LocalsOk(h', b', u, pc)
  {
    var own := b.own[u];
    match pc
    case ClearWalk(first, tail, cur) =>
      var k :| WalkAt(own, tail, cur, k);
      assert WalkAt(b'.own[u], tail, cur, k);
    case PushLink(n) => assert own[0] == n;
    case PushCas(n) => assert own[0] == n;
    case PopTake(n) => assert own[0] == n;
    case _ =>
  }

  /** A gentle step of thread `t` keeps the thread invariants when it re-establishes its own. */
  lemma ThreadsStep(s: State, b: Book, s': State, b': Book, t: nat)
    requires |b.own| == |s.threads| == |s'.threads| && t < |s.threads|
    requires ThreadsOk(s, b) && Gentle(s.heap, b, s'.heap, b', t) && NotReissued(s, b, b', t)
    requires forall u :: 0 <= u < |s.threads| && u != t ==> s'.threads[u] == s.threads[u]
    requires LocalsOk(s'.heap, b', t, s'.threads[t].pc)
    ensures ThreadsOk(s', b')
  {
    forall u | 0 <= u < |s'.threads| ensures LocalsOk(s'.heap, b', u, s'.threads[u].pc) {
      if u != t { LocalsFrame(s.heap, b, s'.heap, b', t, u, s.threads[u].pc); }
    }
  }

  lemma HistoryStep(s: State, b: Book, s': State, b': Book, t: nat)
    requires |b.own| == |s.threads| == |s'.threads| && t < |s.threads|
    requires ThreadsOk(s, b) && HistoryOk(s, b) && Gentle(s.heap, b, s'.heap, b', t)
    requires forall u :: 0 <= u < |s.threads| && u != t ==> s'.threads[u] == s.threads[u]
    requires CommitsOk(s'.heap, t, s'.threads[t])
    requires Replay(s'.log) == Some(Values(s'.heap, b'.stk))
    ensures HistoryOk(s', b')
  {
    forall u | 0 <= u < |s'.threads| ensures CommitsOk(s'.heap, u, s'.threads[u]) {
      if u != t {
        assert LocalsOk(s.heap, b, u, s.threads[u].pc) && CommitsOk(s.heap, u, s.threads[u]);
        match s.threads[u].pc
        case PushLink(n) => assert b.own[u][0] == n;
        case PushCas(n) => assert b.own[u][0] == n;
        case PopTake(n) => assert b.own[u][0] == n;
        case _ =>
      }
    }
  }

  /** `_critical_clients` counts the threads inside a guard. */
  lemma GuardedStep(s: State, s': State, t: nat)
    requires |s'.threads| == |s.threads| && t < |s.threads|
    requires forall u :: 0 <= u < |s.threads| && u != t ==> s'.threads[u] == s.threads[u]
    ensures |Guarded(s')| == |Guarded(s)|
      + (if InGuard(s'.threads[t].pc) then 1 else 0) - (if InGuard(s.threads[t].pc) then 1 else 0)
  {
    var g, g' := Guarded(s), Guarded(s');
    assert forall u :: u in g - {t} <==> u in g' - {t};
    assert g - {t} == g' - {t};
    assert t in g <==> InGuard(s.threads[t].pc);
    assert t in g' <==> InGuard(s'.threads[t].pc);
    assert t in g ==> g == (g - {t}) + {t};
    assert t !in g ==> g == g - {t};
    assert t in g' ==> g' == (g' - {t}) + {t};
    assert t !in g' ==> g' == g' - {t};
  }
}
