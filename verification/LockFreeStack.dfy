/**
  The lock-free stack of lockfree_stack.h as an interleaving step system.

  A state holds the shared memory (the node heap, `_head`, `_collection_head` and
  `_critical_clients`) and one control point with its locals per thread.  Every load, store,
  exchange and compare-exchange is a step of its own; in particular the read of
  `old_head->next` is separate from the compare-exchange that uses it.  The weak
  compare-exchange may fail spuriously and always reloads the expected value.

  A freed address may be issued again by the allocator.  `AddressWithheld` is the one thing
  asked of the allocator; LockFreeHazard shows that it cannot be dropped.
*/
module LockFreeStack {
  import opened Options
  import opened Sequences

  type Addr = nat
  const NULL: Addr := 0

  type Value = int

  datatype Node = Node(value: Value, next: Addr)

  /** The operation a thread is executing, with its argument. */
  datatype Op = NoOp | OpPush(value: Value) | OpPop | OpClear

  /** What an operation does to the abstract stack at its commit point. */
  datatype Event =
    | Pushed(who: nat, value: Value)
    | Popped(who: nat, result: Option<Value>)
    | Cleared(who: nat)

  datatype Pc =
    | Idle
    // push
    | PushLink(node: Addr)
    | PushCas(node: Addr)
    // pop
    | PopLoad
    | PopNext(top: Addr)
    | PopCas(top: Addr, next: Addr)
    | PopTake(top: Addr)
    // clear
    | ClearDetach
    | ClearWalk(first: Addr, tail: Addr, cur: Addr)
    // collector::push of the chain first..last
    | RetireLink(first: Addr, last: Addr)
    | RetireCas(first: Addr, last: Addr)
    // collector::try_collect
    | CollectLoad
    | CollectCheck(collectable: Addr)
    | CollectCas(collectable: Addr)
    | CollectNext(collectable: Addr)
    | CollectDelete(collectable: Addr, next: Addr)
    // ~client_guard
    | Leave

  /** `commits` is a history variable: what this operation has committed so far.  No step reads it. */
  datatype Thread = Thread(pc: Pc, op: Op, result: Option<Value>, commits: seq<Event>)

  /** `log` is a history variable: all commits, first one first.  No step reads it. */
  datatype State = State(
    heap: map<Addr, Node>,
    head: Addr,
    coll: Addr,
    clients: int,
    threads: seq<Thread>,
    log: seq<Event>)

  /** A scheduling choice.  `junk` is what the allocator leaves in the `next` field of a new node. */
  datatype Action =
    | BeginPush(value: Value, addr: Addr, junk: Addr)
    | BeginPop
    | BeginClear
    | Go(spurious: bool)

  // ---------------------------------------------------------------- the step system

  predicate Init(s: State)
  {
    && s.heap == map[] && s.head == NULL && s.coll == NULL && s.clients == 0 && s.log == []
    && forall t :: 0 <= t < |s.threads| ==> s.threads[t] == Thread(Idle, NoOp, None, [])
  }

  /** The allocator returns only addresses that are not in use. */
  predicate Enabled(s: State, t: nat, a: Action)
  {
    && t < |s.threads|
    && match a
       case BeginPush(_, addr, _) => s.threads[t].pc.Idle? && addr != NULL && addr !in s.heap
       case BeginPop => s.threads[t].pc.Idle?
       case BeginClear => s.threads[t].pc.Idle?
       case Go(_) => !s.threads[t].pc.Idle?
  }

  /** The address a thread carries from the load of `_collection_head` to its compare-exchange. */
  predicate Carries(pc: Pc, x: Addr)
  {
    pc == CollectCheck(x) || pc == CollectCas(x)
  }

  /** The allocator assumption: it does not issue an address that some thread carries that way. */
  predicate AddressWithheld(s: State, a: Action)
  {
    a.BeginPush? ==> forall t :: 0 <= t < |s.threads| ==> !Carries(s.threads[t].pc, a.addr)
  }

  /** Reading through a dangling pointer yields an arbitrary node; `Safe` says it never happens. */
  function Read(heap: map<Addr, Node>, x: Addr): Node
  {
    if x in heap then heap[x] else Node(0, NULL)
  }

  function WriteNext(heap: map<Addr, Node>, x: Addr, next: Addr): map<Addr, Node>
  {
    heap[x := Read(heap, x).(next := next)]
  }

  function Goto(s: State, t: nat, pc: Pc): State
    requires t < |s.threads|
  {
    s.(threads := s.threads[t := s.threads[t].(pc := pc)])
  }

  function Commit(s: State, t: nat, e: Event): State
    requires t < |s.threads|
  {
    s.(log := s.log + [e],
       threads := s.threads[t := s.threads[t].(commits := s.threads[t].commits + [e])])
  }

  function Begin(s: State, t: nat, pc: Pc, op: Op): State
    requires t < |s.threads|
  {
    s.(threads := s.threads[t := Thread(pc, op, None, [])])
  }

  /** After a load or reload of `_head` in `atomics::pop`: an empty stack ends the operation. */
  function PopWith(s: State, t: nat, top: Addr): State
    requires t < |s.threads|
  {
    if top == NULL then Goto(Commit(s, t, Popped(t, None)), t, CollectLoad) else Goto(s, t, PopNext(top))
  }

  function Step(s: State, t: nat, a: Action): State
    requires Enabled(s, t, a)
  {
    match a
    case BeginPush(v, addr, junk) =>
      Begin(s.(heap := s.heap[addr := Node(v, junk)]), t, PushLink(addr), OpPush(v))
    case BeginPop => Begin(s.(clients := s.clients + 1), t, PopLoad, OpPop)
    case BeginClear => Begin(s.(clients := s.clients + 1), t, ClearDetach, OpClear)
    case Go(spurious) =>
      match s.threads[t].pc
      case Idle => s

      case PushLink(node) => Goto(s.(heap := WriteNext(s.heap, node, s.head)), t, PushCas(node))
      case PushCas(node) =>
        if !spurious && s.head == Read(s.heap, node).next then
          Goto(Commit(s.(head := node), t, Pushed(t, Read(s.heap, node).value)), t, Idle)
        else
          s.(heap := WriteNext(s.heap, node, s.head))

      case PopLoad => PopWith(s, t, s.head)
      case PopNext(top) => Goto(s, t, PopCas(top, Read(s.heap, top).next))
      case PopCas(top, next) =>
        if !spurious && s.head == top then
          Goto(Commit(s.(head := next), t, Popped(t, Some(Read(s.heap, top).value))), t, PopTake(top))
        else
          PopWith(s, t, s.head)
      case PopTake(top) =>
        s.(threads := s.threads[t := s.threads[t].(pc := RetireLink(top, top),
                                                   result := Some(Read(s.heap, top).value))])

      case ClearDetach =>
        var c := Commit(s.(head := NULL), t, Cleared(t));
        Goto(c, t, if s.head == NULL then CollectLoad else ClearWalk(s.head, NULL, s.head))
      case ClearWalk(first, tail, cur) =>
        Goto(s, t, if cur != NULL then ClearWalk(first, cur, Read(s.heap, cur).next) else RetireLink(first, tail))

      case RetireLink(first, last) =>
        Goto(s.(heap := WriteNext(s.heap, last, s.coll)), t, RetireCas(first, last))
      case RetireCas(first, last) =>
        if !spurious && s.coll == Read(s.heap, last).next then
          Goto(s.(coll := first), t, CollectLoad)
        else
          s.(heap := WriteNext(s.heap, last, s.coll))

      case CollectLoad => Goto(s, t, CollectCheck(s.coll))
      case CollectCheck(c) => Goto(s, t, if s.clients == 1 then CollectCas(c) else Leave)
      case CollectCas(c) =>
        if !spurious && s.coll == c then
          Goto(s.(coll := NULL), t, if c == NULL then Leave else CollectNext(c))
        else
          Goto(s, t, Leave)
      case CollectNext(c) => Goto(s, t, CollectDelete(c, Read(s.heap, c).next))
      case CollectDelete(c, next) =>
        Goto(s.(heap := s.heap - {c}), t, if next == NULL then Leave else CollectNext(next))

      case Leave => Goto(s.(clients := s.clients - 1), t, Idle)
  }

  // ---------------------------------------------------------------- what is promised

  /** The address that the next step of a thread dereferences or deletes, if any. */
  function Touches(pc: Pc): Option<Addr>
  {
    match pc
    case PushLink(n) => Some(n)
    case PushCas(n) => Some(n)
    case PopNext(top) => Some(top)
    case PopTake(top) => Some(top)
    case ClearWalk(_, _, cur) => if cur == NULL then None else Some(cur)
    case RetireLink(_, last) => Some(last)
    case RetireCas(_, last) => Some(last)
    case CollectNext(c) => Some(c)
    case CollectDelete(c, _) => Some(c)
    case _ => None
  }

  /** No thread is about to dereference or delete an address that is not allocated. */
  predicate Safe(s: State)
  {
    forall t :: 0 <= t < |s.threads| && Touches(s.threads[t].pc).Some? ==> Touches(s.threads[t].pc).value in s.heap
  }

  predicate InGuard(pc: Pc)
  {
    !pc.Idle? && !pc.PushLink? && !pc.PushCas?
  }

  /** Past a successful "count equals one" check. */
  predicate Collecting(pc: Pc)
  {
    pc.CollectCas? || pc.CollectNext? || pc.CollectDelete?
  }

  /** The sequential stack, top first; None when an event is not one a sequential stack could produce. */
  function Apply(stack: Option<seq<Value>>, e: Event): Option<seq<Value>>
  {
    if stack.None? then None else
    match e
    case Pushed(_, v) => Some([v] + stack.value)
    case Popped(_, None) => if stack.value == [] then stack else None
    case Popped(_, Some(v)) => if stack.value != [] && stack.value[0] == v then Some(stack.value[1..]) else None
    case Cleared(_) => Some([])
  }

  function Replay(log: seq<Event>): Option<seq<Value>>
  {
    if log == [] then Some([]) else Apply(Replay(log[..|log|-1]), log[|log|-1])
  }

  lemma ReplayAppend(log: seq<Event>, e: Event)
    ensures Replay(log + [e]) == Apply(Replay(log), e)
  {
    assert (log + [e])[..|log|] == log;
  }

  /** `nodes` are the nodes of the null-terminated list that starts at `first`. */
  ghost predicate Chain(heap: map<Addr, Node>, first: Addr, nodes: seq<Addr>)
  {
    && first == At(nodes, 0)
    && NoDup(nodes)
    && (forall i :: 0 <= i < |nodes| ==> nodes[i] != NULL && nodes[i] in heap)
    && (forall i, j :: 0 <= i < |nodes| && j == i + 1 && j < |nodes| ==> heap[nodes[i]].next == nodes[j])
    && (nodes != [] ==> heap[nodes[|nodes|-1]].next == NULL)
  }

  function At(nodes: seq<Addr>, i: nat): Addr
  {
    if i < |nodes| then nodes[i] else NULL
  }

  function Values(heap: map<Addr, Node>, nodes: seq<Addr>): (r: seq<Value>)
    ensures |r| == |nodes|
  {
    seq(|nodes|, i requires 0 <= i < |nodes| => Read(heap, nodes[i]).value)
  }
}
