/** Every step of the lock-free stack keeps the invariant, one lemma per control point. */
module LockFreeSteps {
  import opened Options
  import opened Sequences
  import opened LockFreeStack
  import opened LockFreeInvariant

  /** Record that `nodes` are now at place `p`, owned by thread `t` as the chain `own`. */
  ghost function Move(b: Book, nodes: seq<Addr>, p: Place, t: nat, own: seq<Addr>): Book
    requires t < |b.own|
  {
    b.(place := map x | x in b.place :: if x in nodes then p else b.place[x], own := b.own[t := own])
  }

  /** The bookkeeping that goes with a step. */
  ghost function NextBook(s: State, b: Book, t: nat, a: Action): Book
    requires Enabled(s, t, a) && |b.own| == |s.threads|
  {
    match a
    case BeginPush(_, addr, _) => b.(place := b.place[addr := Fresh(t)], own := b.own[t := [addr]])
    case BeginPop => b
    case BeginClear => b
    case Go(spurious) =>
      match s.threads[t].pc
      case PushCas(node) =>
        if !spurious && s.head == Read(s.heap, node).next then
          Move(b, [node], OnStack, t, []).(stk := [node] + b.stk)
        else b
      case PopCas(top, _) =>
        if !spurious && s.head == top && b.stk != [] then
          Move(b, [top], Owned(t), t, [top]).(stk := b.stk[1..])
        else b
      case ClearDetach => Move(b, b.stk, Owned(t), t, b.stk).(stk := [])
      case RetireCas(first, last) =>
        if !spurious && s.coll == Read(s.heap, last).next then
          Move(b, b.own[t], Retired, t, []).(dead := b.own[t] + b.dead)
        else b
      case CollectCheck(c) =>
        if s.clients == 1 then b.(sole := Some(t), quiet := set x | x in b.dead) else b
      case CollectCas(c) =>
        if !spurious && s.coll == c then Move(b, b.dead, Owned(t), t, b.dead).(dead := []) else b
      case CollectDelete(c, _) =>
        if b.own[t] != [] then
          b.(place := b.place - {c}, own := b.own[t := b.own[t][1..]], quiet := b.quiet - {c})
        else b
      case Leave => if b.sole == Some(t) then b.(sole := None, quiet := {}) else b
      case _ => b
  }

  ghost predicate Others(s: State, s': State, t: nat)
  {
    && |s'.threads| == |s.threads| && t < |s.threads|
    && forall u :: 0 <= u < |s.threads| && u != t ==> s'.threads[u] == s.threads[u]
  }

  /** A step that leaves memory and places alone. */
  lemma ControlStep(s: State, b: Book, s': State, t: nat)
    requires Inv(s, b) && Others(s, s', t)
    requires s'.heap == s.heap && s'.head == s.head && s'.coll == s.coll
    requires s'.clients - s.clients ==
      (if InGuard(s'.threads[t].pc) then 1 else 0) - (if InGuard(s.threads[t].pc) then 1 else 0)
    requires b.sole == Some(t) ==> Collecting(s'.threads[t].pc) || s'.threads[t].pc.Leave?
    requires LocalsOk(s.heap, b, t, s'.threads[t].pc) && CommitsOk(s.heap, t, s'.threads[t])
    requires Replay(s'.log) == Replay(s.log)
    ensures Inv(s', b)
  {
    GuardedStep(s, s', t);
    ThreadsStep(s, b, s', b, t);
    HistoryStep(s, b, s', b, t);
  }

  ghost predicate WritesOwn(s: State, b: Book, s': State, t: nat, x: Addr, next: Addr)
  {
    && MemoryOk(s, b) && Others(s, s', t)
    && x in s.heap && OfThread(b.place[x], t)
    && s'.heap == WriteNext(s.heap, x, next) && s'.head == s.head && s'.coll == s.coll && s'.clients == s.clients
    && s'.log == s.log
  }

  lemma WriteMemory(s: State, b: Book, s': State, t: nat, x: Addr, next: Addr)
    requires WritesOwn(s, b, s', t, x, next)
    ensures MemoryOk(s', b) && Values(s'.heap, b.stk) == Values(s.heap, b.stk)
  {
  }

  lemma WriteGentle(s: State, b: Book, s': State, t: nat, x: Addr, next: Addr)
    requires WritesOwn(s, b, s', t, x, next)
    ensures Gentle(s.heap, b, s'.heap, b, t)
  {
  }

  /** A step that writes the `next` field of a node that thread `t` owns. */
  lemma OwnWriteStep(s: State, b: Book, s': State, t: nat, x: Addr, next: Addr)
    requires Inv(s, b) && WritesOwn(s, b, s', t, x, next)
    requires InGuard(s'.threads[t].pc) == InGuard(s.threads[t].pc) && b.sole != Some(t)
    requires LocalsOk(s'.heap, b, t, s'.threads[t].pc) && CommitsOk(s'.heap, t, s'.threads[t])
    ensures Inv(s', b)
  {
    GuardedStep(s, s', t);
    WriteMemory(s, b, s', t, x, next);
    WriteGentle(s, b, s', t, x, next);
    ThreadsStep(s, b, s', b, t);
    HistoryStep(s, b, s', b, t);
  }

  predicate OfThread(p: Place, t: nat)
  {
    p == Fresh(t) || p == Owned(t)
  }

  /** Thread `t` moves `nodes` to place `p` and owns `own` afterwards; no node changes. */
  ghost predicate Moves(s: State, b: Book, s': State, b': Book, t: nat, nodes: seq<Addr>, p: Place, own: seq<Addr>)
  {
    && MemoryOk(s, b) && t < |b.own| && Others(s, s', t) && s'.heap == s.heap && s'.clients == s.clients
    && b'.place == Move(b, nodes, p, t, own).place && b'.own == b.own[t := own]
    && b'.quiet == b.quiet && b'.sole == b.sole
    && !p.Fresh? && !OfOther(p, t)
    && forall i :: 0 <= i < |nodes| ==> Movable(b, t, nodes[i], p)
  }

  ghost predicate Movable(b: Book, t: nat, x: Addr, p: Place)
  {
    x in b.place && !OfOther(b.place[x], t) && (!b.place[x].Fresh? ==> Later(b.place[x], p))
  }

  lemma MoveGentle(s: State, b: Book, s': State, b': Book, t: nat, nodes: seq<Addr>, p: Place, own: seq<Addr>)
    requires Moves(s, b, s', b', t, nodes, p, own)
    ensures Gentle(s.heap, b, s'.heap, b', t)
  {
  }

  lemma MoveStep(s: State, b: Book, s': State, b': Book, t: nat, nodes: seq<Addr>, p: Place, own: seq<Addr>)
    requires Inv(s, b) && Moves(s, b, s', b', t, nodes, p, own)
    requires MemoryOk(s', b') && NothingLost(b') && QuietOk(s', b')
    requires LocalsOk(s'.heap, b', t, s'.threads[t].pc) && CommitsOk(s'.heap, t, s'.threads[t])
    requires Replay(s'.log) == Some(Values(s'.heap, b'.stk))
    ensures Inv(s', b')
  {
    MoveGentle(s, b, s', b', t, nodes, p, own);
    ThreadsStep(s, b, s', b', t);
    HistoryStep(s, b, s', b', t);
  }

  // ---------------------------------------------------------------- starting an operation

  ghost predicate Allocates(s: State, b: Book, s': State, b': Book, t: nat, addr: Addr, node: Node)
  {
    && MemoryOk(s, b) && t < |b.own| && b.own[t] == [] && addr != NULL && addr !in s.heap
    && s'.heap == s.heap[addr := node] && s'.head == s.head && s'.coll == s.coll && s'.clients == s.clients
    && |s'.threads| == |s.threads|
    && b' == b.(place := b.place[addr := Fresh(t)], own := b.own[t := [addr]])
  }

  lemma AllocateMemory(s: State, b: Book, s': State, b': Book, t: nat, addr: Addr, node: Node)
    requires Allocates(s, b, s', b', t, addr, node)
    ensures MemoryOk(s', b') && Values(s'.heap, b'.stk) == Values(s.heap, b.stk)
  {
  }

  lemma AllocateListed(s: State, b: Book, s': State, b': Book, t: nat, addr: Addr, node: Node)
    requires Allocates(s, b, s', b', t, addr, node) && NothingLost(b)
    ensures NothingLost(b')
  {
    forall x | x in b'.place ensures Listed(b', x) { if x in b.place { assert Listed(b, x); } }
  }

  lemma AllocateGentle(s: State, b: Book, s': State, b': Book, t: nat, addr: Addr, node: Node)
    requires Allocates(s, b, s', b', t, addr, node)
    ensures Gentle(s.heap, b, s'.heap, b', t)
  {
  }

  lemma AllocateQuiet(s: State, b: Book, s': State, b': Book, t: nat, addr: Addr, node: Node)
    requires Allocates(s, b, s', b', t, addr, node) && QuietOk(s, b) && |Guarded(s')| == |Guarded(s)|
    requires s.threads[t].pc.Idle? && Others(s, s', t)
    ensures QuietOk(s', b')
  {
    hide Chain;
  }

  lemma WithheldIsNotReissued(s: State, b: Book, b': Book, t: nat, a: Action)
    requires a.BeginPush? && AddressWithheld(s, a) && b'.place.Keys == b.place.Keys + {a.addr}
    ensures NotReissued(s, b, b', t)
  {
    forall u | 0 <= u < |s.threads| && u != t && (s.threads[u].pc.CollectCheck? || s.threads[u].pc.CollectCas?)
      ensures s.threads[u].pc.collectable != a.addr
    {
      assert !Carries(s.threads[u].pc, a.addr);
    }
  }

  lemma BeginPushStep(s: State, b: Book, t: nat, a: Action)
    requires Inv(s, b) && Enabled(s, t, a) && a.BeginPush? && AddressWithheld(s, a)
    ensures Inv(Step(s, t, a), NextBook(s, b, t, a))
  {
    hide Chain;
    var s', b' := Step(s, t, a), NextBook(s, b, t, a);
    assert LocalsOk(s.heap, b, t, s.threads[t].pc);
    var node := Node(a.value, a.junk);
    AllocateMemory(s, b, s', b', t, a.addr, node);
    AllocateListed(s, b, s', b', t, a.addr, node);
    AllocateGentle(s, b, s', b', t, a.addr, node);
    GuardedStep(s, s', t);
    AllocateQuiet(s, b, s', b', t, a.addr, node);
    WithheldIsNotReissued(s, b, b', t, a);
    ThreadsStep(s, b, s', b', t);
    HistoryStep(s, b, s', b', t);
  }

  lemma BeginGuardStep(s: State, b: Book, t: nat, a: Action)
    requires Inv(s, b) && Enabled(s, t, a) && (a.BeginPop? || a.BeginClear?)
    ensures Inv(Step(s, t, a), NextBook(s, b, t, a))
  {
    assert LocalsOk(s.heap, b, t, s.threads[t].pc);
    ControlStep(s, b, Step(s, t, a), t);
  }

  // ---------------------------------------------------------------- push

  lemma PushLinkStep(s: State, b: Book, t: nat, a: Action)
    requires Inv(s, b) && Enabled(s, t, a) && s.threads[t].pc.PushLink?
    ensures Inv(Step(s, t, a), NextBook(s, b, t, a))
  {
    var node := s.threads[t].pc.node;
    assert LocalsOk(s.heap, b, t, s.threads[t].pc) && CommitsOk(s.heap, t, s.threads[t]);
    assert b.own[t][0] == node;
    OwnWriteStep(s, b, Step(s, t, a), t, node, s.head);
  }

  lemma PushCasStep(s: State, b: Book, t: nat, a: Action)
    requires Inv(s, b) && Enabled(s, t, a) && s.threads[t].pc.PushCas?
    ensures Inv(Step(s, t, a), NextBook(s, b, t, a))
  {
    hide Replay;
    hide Values;
    var node := s.threads[t].pc.node;
    assert LocalsOk(s.heap, b, t, s.threads[t].pc) && CommitsOk(s.heap, t, s.threads[t]);
    assert b.own[t][0] == node;
    hide Chain;
    if !a.spurious && s.head == s.heap[node].next {
      PushCommit(s, b, Step(s, t, a), NextBook(s, b, t, a), t, node);
    } else {
      OwnWriteStep(s, b, Step(s, t, a), t, node, s.head);
    }
  }

  ghost predicate Links(s: State, b: Book, s': State, b': Book, t: nat, node: Addr)
  {
    && Moves(s, b, s', b', t, [node], OnStack, [])
    && b.own[t] == [node] && node in s.heap && b.place[node] == Fresh(t)
    && s.heap[node].next == s.head && s'.head == node && s'.coll == s.coll
    && b'.stk == [node] + b.stk && b'.dead == b.dead
  }

  lemma LinkMemory(s: State, b: Book, s': State, b': Book, t: nat, node: Addr)
    requires Links(s, b, s', b', t, node)
    ensures MemoryOk(s', b')
    ensures Values(s'.heap, b'.stk) == [s.heap[node].value] + Values(s.heap, b.stk)
  {
  }

  lemma LinkListed(s: State, b: Book, s': State, b': Book, t: nat, node: Addr)
    requires Links(s, b, s', b', t, node) && NothingLost(b)
    ensures NothingLost(b')
  {
    forall x | x in b'.place ensures Listed(b', x) { assert Listed(b, x); }
  }

  lemma PushCommit(s: State, b: Book, s': State, b': Book, t: nat, node: Addr)
    requires Inv(s, b) && Links(s, b, s', b', t, node)
    requires s.threads[t].pc == PushCas(node) && s'.threads[t].pc == Idle && Answered(t, s'.threads[t])
    requires s'.log == s.log + [Pushed(t, s.heap[node].value)]
    ensures Inv(s', b')
  {
    hide Answered;
    hide Replay;
    LinkMemory(s, b, s', b', t, node);
    LinkListed(s, b, s', b', t, node);
    GuardedStep(s, s', t);
    ReplayAppend(s.log, Pushed(t, s.heap[node].value));
    MoveStep(s, b, s', b', t, [node], OnStack, []);
  }

  // ---------------------------------------------------------------- pop

  /** A load or reload of `_head` in pop. */
  lemma ThreadFacts(s: State, b: Book, t: nat)
    requires Inv(s, b) && t < |s.threads|
    ensures |b.own| == |s.threads| && LocalsOk(s.heap, b, t, s.threads[t].pc) && CommitsOk(s.heap, t, s.threads[t])
  {
  }

  lemma SoleFacts(s: State, b: Book, t: nat)
    requires Inv(s, b)
    ensures b.sole == Some(t) ==> SoleOk(s, t)
  {
  }

  /** What a load of `_head` tells: either the stack is empty, or there is its top node. */
  lemma HeadFacts(s: State, b: Book)
    requires Inv(s, b)
    ensures if s.head == NULL then Replay(s.log) == Some([]) else Held(b, s.head)
  {
    if s.head != NULL {
      assert b.stk[0] == s.head;
    } else {
      assert b.stk == [];
    }
  }

  lemma PopWithStep(s: State, b: Book, t: nat)
    requires Inv(s, b) && t < |s.threads|
    requires s.threads[t].pc.PopLoad? || s.threads[t].pc.PopCas?
    ensures Inv(PopWith(s, t, s.head), b)
  {
    hide Inv;
    hide Replay;
    ThreadFacts(s, b, t);
    HeadFacts(s, b);
    SoleFacts(s, b, t);
    ReplayAppend(s.log, Popped(t, None));
    ControlStep(s, b, PopWith(s, t, s.head), t);
  }

  lemma PopNextStep(s: State, b: Book, t: nat, a: Action)
    requires Inv(s, b) && Enabled(s, t, a) && s.threads[t].pc.PopNext?
    ensures Inv(Step(s, t, a), NextBook(s, b, t, a))
  {
    assert LocalsOk(s.heap, b, t, s.threads[t].pc) && CommitsOk(s.heap, t, s.threads[t]);
    ControlStep(s, b, Step(s, t, a), t);
  }

  lemma PopCasStep(s: State, b: Book, t: nat, a: Action)
    requires Inv(s, b) && Enabled(s, t, a) && s.threads[t].pc.PopCas?
    ensures Inv(Step(s, t, a), NextBook(s, b, t, a))
  {
    var top := s.threads[t].pc.top;
    assert LocalsOk(s.heap, b, t, s.threads[t].pc) && CommitsOk(s.heap, t, s.threads[t]);
    if !a.spurious && s.head == top {
      assert b.stk != [];
      assert b.stk[0] == top;
      PopCommit(s, b, Step(s, t, a), NextBook(s, b, t, a), t, top);
    } else {
      PopWithStep(s, b, t);
    }
  }

  ghost predicate Unlinks(s: State, b: Book, s': State, b': Book, t: nat, top: Addr)
  {
    && Moves(s, b, s', b', t, [top], Owned(t), [top])
    && b.own[t] == [] && b.stk != [] && b.stk[0] == top && top !in b.quiet
    && s'.head == s.heap[top].next && s'.coll == s.coll
    && b'.stk == b.stk[1..] && b'.dead == b.dead
  }

  lemma UnlinkMemory(s: State, b: Book, s': State, b': Book, t: nat, top: Addr)
    requires Unlinks(s, b, s', b', t, top)
    ensures MemoryOk(s', b') && Values(s.heap, b.stk) == [s.heap[top].value] + Values(s'.heap, b'.stk)
  {
  }

  lemma UnlinkListed(s: State, b: Book, s': State, b': Book, t: nat, top: Addr)
    requires Unlinks(s, b, s', b', t, top) && NothingLost(b)
    ensures NothingLost(b')
  {
    forall x | x in b'.place ensures Listed(b', x) { assert Listed(b, x); }
  }

  /** A successful compare-exchange installs the second node: the `next` read earlier is still its link. */
  lemma UnlinkQuiet(s: State, b: Book, s': State, b': Book, t: nat, top: Addr)
    requires Unlinks(s, b, s', b', t, top) && QuietOk(s, b)
    requires InGuard(s.threads[t].pc) && InGuard(s'.threads[t].pc) && !SoleOk(s, t)
    ensures QuietOk(s', b')
  {
    GuardedStep(s, s', t);
    hide Chain;
  }

  lemma PopCommit(s: State, b: Book, s': State, b': Book, t: nat, top: Addr)
    requires Inv(s, b) && Unlinks(s, b, s', b', t, top)
    requires s.threads[t].pc.PopCas? && s.threads[t].op == OpPop && s.threads[t].commits == []
    requires s'.threads[t] == s.threads[t].(pc := PopTake(top), commits := [Popped(t, Some(s.heap[top].value))])
    requires s'.log == s.log + [Popped(t, Some(s.heap[top].value))]
    ensures Inv(s', b')
  {
    hide Replay;
    UnlinkMemory(s, b, s', b', t, top);
    UnlinkListed(s, b, s', b', t, top);
    UnlinkQuiet(s, b, s', b', t, top);
    ReplayAppend(s.log, Popped(t, Some(s.heap[top].value)));
    assert Values(s.heap, b.stk)[1..] == Values(s'.heap, b'.stk);
    MoveStep(s, b, s', b', t, [top], Owned(t), [top]);
  }

  lemma PopTakeStep(s: State, b: Book, t: nat, a: Action)
    requires Inv(s, b) && Enabled(s, t, a) && s.threads[t].pc.PopTake?
    ensures Inv(Step(s, t, a), NextBook(s, b, t, a))
  {
    assert LocalsOk(s.heap, b, t, s.threads[t].pc) && CommitsOk(s.heap, t, s.threads[t]);
    ControlStep(s, b, Step(s, t, a), t);
  }

  // ---------------------------------------------------------------- clear

  ghost predicate Detaches(s: State, b: Book, s': State, b': Book, t: nat)
  {
    && Moves(s, b, s', b', t, b.stk, Owned(t), b.stk)
    && b.own[t] == [] && s'.head == NULL && s'.coll == s.coll
    && b'.stk == [] && b'.dead == b.dead
  }

  lemma DetachPlaces(s: State, b: Book, s': State, b': Book, t: nat)
    requires Detaches(s, b, s', b', t) && NothingLost(b)
    ensures MemoryOk(s', b') && NothingLost(b')
  {
    forall x | x in b'.place ensures Listed(b', x) { assert Listed(b, x); }
  }

  lemma DetachQuiet(s: State, b: Book, s': State, b': Book, t: nat)
    requires Detaches(s, b, s', b', t) && QuietOk(s, b) && s.threads[t].pc.ClearDetach?
    requires s'.threads[t].pc.ClearWalk? || s'.threads[t].pc.CollectLoad?
    ensures QuietOk(s', b')
  {
    GuardedStep(s, s', t);
  }

  lemma DetachCommit(s: State, b: Book, s': State, b': Book, t: nat)
    requires Inv(s, b) && Detaches(s, b, s', b', t)
    requires s.threads[t].pc.ClearDetach? && s.threads[t].op == OpClear && s.threads[t].commits == []
    requires s'.threads[t].commits == [Cleared(t)] && s'.threads[t].op == OpClear
    requires s'.threads[t].pc == if s.head == NULL then CollectLoad else ClearWalk(s.head, NULL, s.head)
    requires s'.log == s.log + [Cleared(t)]
    ensures Inv(s', b')
  {
    DetachPlaces(s, b, s', b', t);
    DetachQuiet(s, b, s', b', t);
    ReplayAppend(s.log, Cleared(t));
    assert WalkAt(b.stk, NULL, s.head, 0);
    MoveStep(s, b, s', b', t, b.stk, Owned(t), b.stk);
  }

  lemma ClearDetachStep(s: State, b: Book, t: nat, a: Action)
    requires Inv(s, b) && Enabled(s, t, a) && s.threads[t].pc.ClearDetach?
    ensures Inv(Step(s, t, a), NextBook(s, b, t, a))
  {
    assert LocalsOk(s.heap, b, t, s.threads[t].pc) && CommitsOk(s.heap, t, s.threads[t]);
    DetachCommit(s, b, Step(s, t, a), NextBook(s, b, t, a), t);
  }

  /** find_tail: nobody else writes the links of a detached chain, so the walk ends at its last node. */
  lemma ClearWalkStep(s: State, b: Book, t: nat, a: Action)
    requires Inv(s, b) && Enabled(s, t, a) && s.threads[t].pc.ClearWalk?
    ensures Inv(Step(s, t, a), NextBook(s, b, t, a))
  {
    hide Inv;
    ThreadFacts(s, b, t);
    SoleFacts(s, b, t);
    var pc := s.threads[t].pc;
    var own := b.own[t];
    var k: nat :| WalkAt(own, pc.tail, pc.cur, k);
    if pc.cur != NULL {
      assert own[k] == pc.cur;
      assert WalkAt(own, pc.cur, s.heap[pc.cur].next, k + 1);
    }
    ControlStep(s, b, Step(s, t, a), t);
  }

  // ---------------------------------------------------------------- collector::push

  lemma RetireLinkStep(s: State, b: Book, t: nat, a: Action)
    requires Inv(s, b) && Enabled(s, t, a) && s.threads[t].pc.RetireLink?
    ensures Inv(Step(s, t, a), NextBook(s, b, t, a))
  {
    var last := s.threads[t].pc.last;
    assert LocalsOk(s.heap, b, t, s.threads[t].pc) && CommitsOk(s.heap, t, s.threads[t]);
    OwnWriteStep(s, b, Step(s, t, a), t, last, s.coll);
  }

  ghost predicate Retires(s: State, b: Book, s': State, b': Book, t: nat, first: Addr, last: Addr)
  {
    && t < |b.own| && Moves(s, b, s', b', t, b.own[t], Retired, [])
    && Segment(s.heap, b.own[t], first, last) && Placed(b, b.own[t], Owned(t))
    && s.heap[last].next == s.coll && s'.coll == first && s'.head == s.head
    && b'.stk == b.stk && b'.dead == b.own[t] + b.dead
  }

  lemma RetireMemory(s: State, b: Book, s': State, b': Book, t: nat, first: Addr, last: Addr)
    requires Retires(s, b, s', b', t, first, last)
    ensures MemoryOk(s', b')
  {
  }

  lemma RetireListed(s: State, b: Book, s': State, b': Book, t: nat, first: Addr, last: Addr)
    requires Retires(s, b, s', b', t, first, last) && NothingLost(b)
    ensures NothingLost(b')
  {
    forall x | x in b'.place ensures Listed(b', x) { assert Listed(b, x); }
  }

  lemma RetireCommit(s: State, b: Book, s': State, b': Book, t: nat, first: Addr, last: Addr)
    requires Inv(s, b) && Retires(s, b, s', b', t, first, last)
    requires s.threads[t].pc == RetireCas(first, last) && s'.threads[t] == s.threads[t].(pc := CollectLoad)
    requires s'.log == s.log
    ensures Inv(s', b')
  {
    RetireMemory(s, b, s', b', t, first, last);
    RetireListed(s, b, s', b', t, first, last);
    GuardedStep(s, s', t);
    assert CommitsOk(s.heap, t, s.threads[t]);
    assert QuietOk(s', b');
    MoveStep(s, b, s', b', t, b.own[t], Retired, []);
  }

  lemma RetireCasStep(s: State, b: Book, t: nat, a: Action)
    requires Inv(s, b) && Enabled(s, t, a) && s.threads[t].pc.RetireCas?
    ensures Inv(Step(s, t, a), NextBook(s, b, t, a))
  {
    var last := s.threads[t].pc.last;
    assert LocalsOk(s.heap, b, t, s.threads[t].pc) && CommitsOk(s.heap, t, s.threads[t]);
    if !a.spurious && s.coll == s.heap[last].next {
      RetireCommit(s, b, Step(s, t, a), NextBook(s, b, t, a), t, s.threads[t].pc.first, last);
    } else {
      OwnWriteStep(s, b, Step(s, t, a), t, last, s.coll);
    }
  }

  // ---------------------------------------------------------------- collector::try_collect

  lemma CollectLoadStep(s: State, b: Book, t: nat, a: Action)
    requires Inv(s, b) && Enabled(s, t, a) && s.threads[t].pc.CollectLoad?
    ensures Inv(Step(s, t, a), NextBook(s, b, t, a))
  {
    assert LocalsOk(s.heap, b, t, s.threads[t].pc) && CommitsOk(s.heap, t, s.threads[t]);
    if s.coll != NULL { assert b.dead[0] == s.coll; }
    ControlStep(s, b, Step(s, t, a), t);
  }

  /** With a count of one the thread is alone, so nothing but retired nodes can be carried or held. */
  lemma AloneInGuard(s: State, t: nat, u: nat)
    requires s.clients == |Guarded(s)| == 1
    requires t < |s.threads| && u < |s.threads| && InGuard(s.threads[t].pc) && InGuard(s.threads[u].pc)
    ensures t == u
  {
    var g := Guarded(s);
    assert t in g && u in g;
    assert g == (g - {t}) + {t};
    assert |g - {t}| == 0;
    assert u !in g - {t};
  }

  lemma CollectCheckStep(s: State, b: Book, t: nat, a: Action)
    requires Inv(s, b) && Enabled(s, t, a) && s.threads[t].pc.CollectCheck?
    ensures Inv(Step(s, t, a), NextBook(s, b, t, a))
  {
    assert LocalsOk(s.heap, b, t, s.threads[t].pc) && CommitsOk(s.heap, t, s.threads[t]);
    if s.clients == 1 {
      CheckPassed(s, b, Step(s, t, a), NextBook(s, b, t, a), t, s.threads[t].pc.collectable);
    } else {
      ControlStep(s, b, Step(s, t, a), t);
    }
  }

  lemma CheckPassed(s: State, b: Book, s': State, b': Book, t: nat, c: Addr)
    requires Inv(s, b) && t < |s.threads| && s.threads[t].pc == CollectCheck(c) && s.clients == 1
    requires s' == Goto(s, t, CollectCas(c))
    requires b' == b.(sole := Some(t), quiet := set x | x in b.dead)
    ensures Inv(s', b')
  {
    hide Chain;
    hide Replay;
    assert LocalsOk(s.heap, b, t, s.threads[t].pc) && CommitsOk(s.heap, t, s.threads[t]);
    GuardedStep(s, s', t);
    assert b.sole.None? by {
      if b.sole.Some? { AloneInGuard(s, t, b.sole.value); }
    }
    assert NothingLost(b') by {
      forall x | x in b'.place ensures Listed(b', x) { assert Listed(b, x); }
    }
    forall u | 0 <= u < |s.threads| && u != t ensures LocalsOk(s'.heap, b', u, s'.threads[u].pc) {
      assert LocalsOk(s.heap, b, u, s.threads[u].pc);
      if InGuard(s.threads[u].pc) { AloneInGuard(s, t, u); }
    }
    CarriedIsRetired(s, b, t, c);
    forall u | 0 <= u < |s'.threads| ensures CommitsOk(s'.heap, u, s'.threads[u]) {
      assert CommitsOk(s.heap, u, s.threads[u]);
    }
  }

  lemma CarriedIsRetired(s: State, b: Book, t: nat, c: Addr)
    requires Inv(s, b) && t < |s.threads| && s.threads[t].pc == CollectCheck(c) && s.clients == 1
    ensures c in b.place ==> c in b.dead
  {
    assert LocalsOk(s.heap, b, t, s.threads[t].pc);
    if c in b.place {
      assert Listed(b, c);
      if b.place[c].Owned? {
        var u := b.place[c].owner;
        assert LocalsOk(s.heap, b, u, s.threads[u].pc);
        if InGuard(s.threads[u].pc) { AloneInGuard(s, t, u); }
      }
    }
  }

  ghost predicate Grabs(s: State, b: Book, s': State, b': Book, t: nat, c: Addr)
  {
    && Moves(s, b, s', b', t, b.dead, Owned(t), b.dead)
    && b.own[t] == [] && s.coll == c && s'.coll == NULL && s'.head == s.head
    && b'.stk == b.stk && b'.dead == []
  }

  lemma GrabPlaces(s: State, b: Book, s': State, b': Book, t: nat, c: Addr)
    requires Grabs(s, b, s', b', t, c) && NothingLost(b)
    ensures MemoryOk(s', b') && NothingLost(b')
  {
    forall x | x in b'.place ensures Listed(b', x) { assert Listed(b, x); }
  }

  lemma GrabQuiet(s: State, b: Book, s': State, b': Book, t: nat, c: Addr)
    requires Grabs(s, b, s', b', t, c) && QuietOk(s, b) && b.sole == Some(t)
    requires s.threads[t].pc.CollectCas? && (s'.threads[t].pc.CollectNext? || s'.threads[t].pc.Leave?)
    ensures QuietOk(s', b')
  {
    GuardedStep(s, s', t);
  }

  /** The whole chain is quiet: its head is the carried address, which was retired at the check. */
  lemma GrabCommit(s: State, b: Book, s': State, b': Book, t: nat, c: Addr)
    requires Inv(s, b) && Grabs(s, b, s', b', t, c)
    requires s.threads[t].pc == CollectCas(c)
    requires s'.threads[t] == s.threads[t].(pc := if c == NULL then Leave else CollectNext(c))
    requires s'.log == s.log
    ensures Inv(s', b')
  {
    assert LocalsOk(s.heap, b, t, s.threads[t].pc) && CommitsOk(s.heap, t, s.threads[t]);
    GrabPlaces(s, b, s', b', t, c);
    GrabQuiet(s, b, s', b', t, c);
    if c != NULL { assert b.dead[0] == c && c in b.place; }
    assert AllQuiet(b, b.dead);
    MoveStep(s, b, s', b', t, b.dead, Owned(t), b.dead);
  }

  lemma CollectCasStep(s: State, b: Book, t: nat, a: Action)
    requires Inv(s, b) && Enabled(s, t, a) && s.threads[t].pc.CollectCas?
    ensures Inv(Step(s, t, a), NextBook(s, b, t, a))
  {
    var c := s.threads[t].pc.collectable;
    assert LocalsOk(s.heap, b, t, s.threads[t].pc) && CommitsOk(s.heap, t, s.threads[t]);
    if !a.spurious && s.coll == c {
      GrabCommit(s, b, Step(s, t, a), NextBook(s, b, t, a), t, c);
    } else {
      ControlStep(s, b, Step(s, t, a), t);
    }
  }

  lemma CollectNextStep(s: State, b: Book, t: nat, a: Action)
    requires Inv(s, b) && Enabled(s, t, a) && s.threads[t].pc.CollectNext?
    ensures Inv(Step(s, t, a), NextBook(s, b, t, a))
  {
    assert LocalsOk(s.heap, b, t, s.threads[t].pc) && CommitsOk(s.heap, t, s.threads[t]);
    ControlStep(s, b, Step(s, t, a), t);
  }

  ghost predicate Deletes(s: State, b: Book, s': State, b': Book, t: nat, c: Addr)
  {
    && MemoryOk(s, b) && Others(s, s', t) && s'.clients == s.clients
    && b.own[t] != [] && Chain(s.heap, c, b.own[t]) && Placed(b, b.own[t], Owned(t)) && AllQuiet(b, b.own[t])
    && s'.heap == s.heap - {c} && s'.head == s.head && s'.coll == s.coll
    && b' == b.(place := b.place - {c}, own := b.own[t := b.own[t][1..]], quiet := b.quiet - {c})
  }

  lemma DeleteMemory(s: State, b: Book, s': State, b': Book, t: nat, c: Addr)
    requires Deletes(s, b, s', b', t, c)
    ensures MemoryOk(s', b') && Values(s'.heap, b'.stk) == Values(s.heap, b.stk)
  {
  }

  lemma DeleteListed(s: State, b: Book, s': State, b': Book, t: nat, c: Addr)
    requires Deletes(s, b, s', b', t, c) && NothingLost(b)
    ensures NothingLost(b')
  {
    forall x | x in b'.place ensures Listed(b', x) { assert Listed(b, x); }
  }

  lemma DeleteGentle(s: State, b: Book, s': State, b': Book, t: nat, c: Addr)
    requires Deletes(s, b, s', b', t, c) && b.sole == Some(t)
    ensures Gentle(s.heap, b, s'.heap, b', t)
  {
    assert c == b.own[t][0];
  }

  lemma DeleteQuiet(s: State, b: Book, s': State, b': Book, t: nat, c: Addr)
    requires Deletes(s, b, s', b', t, c) && QuietOk(s, b) && b.sole == Some(t)
    requires s.threads[t].pc.CollectDelete? && (s'.threads[t].pc.CollectNext? || s'.threads[t].pc.Leave?)
    ensures QuietOk(s', b')
  {
    GuardedStep(s, s', t);
    assert c == b.own[t][0];
    forall i, j | 0 <= i < j < |b'.dead| && b'.dead[i] in b'.quiet ensures b'.dead[j] in b'.quiet {
      assert b.dead[j] != c;
    }
  }

  lemma CollectDeleteStep(s: State, b: Book, t: nat, a: Action)
    requires Inv(s, b) && Enabled(s, t, a) && s.threads[t].pc.CollectDelete?
    ensures Inv(Step(s, t, a), NextBook(s, b, t, a))
  {
    hide Replay;
    hide Values;
    hide Read;
    var s', b' := Step(s, t, a), NextBook(s, b, t, a);
    var c := s.threads[t].pc.collectable;
    assert LocalsOk(s.heap, b, t, s.threads[t].pc) && CommitsOk(s.heap, t, s.threads[t]);
    DeleteMemory(s, b, s', b', t, c);
    hide Chain;
    DeleteListed(s, b, s', b', t, c);
    DeleteQuiet(s, b, s', b', t, c);
    DeleteGentle(s, b, s', b', t, c);
    DeleteLocals(s, b, s', b', t, c);
    assert NotReissued(s, b, b', t) && CommitsOk(s'.heap, t, s'.threads[t]);
    hide LocalsOk;
    hide CommitsOk;
    hide Gentle;
    hide Listed;
    ThreadsStep(s, b, s', b', t);
    HistoryStep(s, b, s', b', t);
  }

  lemma DeleteLocals(s: State, b: Book, s': State, b': Book, t: nat, c: Addr)
    requires Deletes(s, b, s', b', t, c) && b.sole == Some(t)
    requires s'.threads[t].pc == if At(b.own[t], 1) == NULL then Leave else CollectNext(At(b.own[t], 1))
    ensures LocalsOk(s'.heap, b', t, s'.threads[t].pc)
  {
    var own := b.own[t];
    assert c == own[0];
    if |own| > 1 {
      assert At(own[1..], 0) == own[1];
      assert own[1..][|own| - 2] == own[|own| - 1];
    }
  }

  /** A thread that is leaving needs its quiet nodes no more. */
  lemma Forget(s: State, b: Book, t: nat)
    requires Inv(s, b) && t < |s.threads| && s.threads[t].pc.Leave? && b.sole == Some(t)
    ensures Inv(s, b.(sole := None, quiet := {}))
  {
    hide Chain;
    var b' := b.(sole := None, quiet := {});
    assert NothingLost(b') by {
      forall x | x in b'.place ensures Listed(b', x) { assert Listed(b, x); }
    }
    forall u | 0 <= u < |s.threads| ensures LocalsOk(s.heap, b', u, s.threads[u].pc) {
      assert LocalsOk(s.heap, b, u, s.threads[u].pc);
    }
  }

  lemma LeaveStep(s: State, b: Book, t: nat, a: Action)
    requires Inv(s, b) && Enabled(s, t, a) && s.threads[t].pc.Leave?
    ensures Inv(Step(s, t, a), NextBook(s, b, t, a))
  {
    if b.sole == Some(t) { Forget(s, b, t); }
    assert LocalsOk(s.heap, b, t, s.threads[t].pc) && CommitsOk(s.heap, t, s.threads[t]);
    ControlStep(s, NextBook(s, b, t, a), Step(s, t, a), t);
  }

  // ---------------------------------------------------------------- all steps

  lemma InvStep(s: State, b: Book, t: nat, a: Action)
    requires Inv(s, b) && Enabled(s, t, a) && AddressWithheld(s, a)
    ensures Inv(Step(s, t, a), NextBook(s, b, t, a))
  {
    match a
    case BeginPush(_, _, _) => BeginPushStep(s, b, t, a);
    case BeginPop => BeginGuardStep(s, b, t, a);
    case BeginClear => BeginGuardStep(s, b, t, a);
    case Go(_) =>
      match s.threads[t].pc
      case PushLink(_) => PushLinkStep(s, b, t, a);
      case PushCas(_) => PushCasStep(s, b, t, a);
      case PopLoad => PopWithStep(s, b, t);
      case PopNext(_) => PopNextStep(s, b, t, a);
      case PopCas(_, _) => PopCasStep(s, b, t, a);
      case PopTake(_) => PopTakeStep(s, b, t, a);
      case ClearDetach => ClearDetachStep(s, b, t, a);
      case ClearWalk(_, _, _) => ClearWalkStep(s, b, t, a);
      case RetireLink(_, _) => RetireLinkStep(s, b, t, a);
      case RetireCas(_, _) => RetireCasStep(s, b, t, a);
      case CollectLoad => CollectLoadStep(s, b, t, a);
      case CollectCheck(_) => CollectCheckStep(s, b, t, a);
      case CollectCas(_) => CollectCasStep(s, b, t, a);
      case CollectNext(_) => CollectNextStep(s, b, t, a);
      case CollectDelete(_, _) => CollectDeleteStep(s, b, t, a);
      case Leave => LeaveStep(s, b, t, a);
  }
}
