/** What the lock-free stack guarantees over every run, for any number of threads. */
module LockFreeTheorems {
  import opened Options
  import opened Sequences
  import opened LockFreeStack
  import opened LockFreeInvariant
  import opened LockFreeSteps

  type Schedule = seq<(nat, Action)>

  /** The state a schedule leads to; None when some choice of it is not possible. */
  function Exec(s: State, sched: Schedule): Option<State>
    decreases |sched|
  {
    if sched == [] then Some(s)
    else if Enabled(s, sched[0].0, sched[0].1) then Exec(Step(s, sched[0].0, sched[0].1), sched[1..])
    else None
  }

  /** The allocator keeps its assumption throughout. */
  predicate Withheld(s: State, sched: Schedule)
    decreases |sched|
  {
    sched != [] && Enabled(s, sched[0].0, sched[0].1) ==>
      AddressWithheld(s, sched[0].1) && Withheld(Step(s, sched[0].0, sched[0].1), sched[1..])
  }

  ghost function InitialBook(s: State): Book
  {
    Book(map[], [], [], seq(|s.threads|, i => []), {}, None)
  }

  lemma {:induction false} RunKeepsInv(s: State, b: Book, sched: Schedule) returns (b': Book)
    requires Inv(s, b) && Exec(s, sched).Some? && Withheld(s, sched)
    ensures Inv(Exec(s, sched).value, b')
    decreases |sched|
  {
    if sched == [] {
      b' := b;
    } else {
      var (t, a) := sched[0];
      InvStep(s, b, t, a);
      b' := RunKeepsInv(Step(s, t, a), NextBook(s, b, t, a), sched[1..]);
    }
  }

  lemma ReachedInv(s0: State, sched: Schedule) returns (b: Book)
    requires Init(s0) && Exec(s0, sched).Some? && Withheld(s0, sched)
    ensures Inv(Exec(s0, sched).value, b)
  {
    var b0 := InitialBook(s0);
    assert Guarded(s0) == {};
    assert Inv(s0, b0);
    b := RunKeepsInv(s0, b0, sched);
  }

  /** Reclamation safety: nothing freed is ever dereferenced, and nothing is freed twice. */
  lemma ReclamationSafety(s0: State, sched: Schedule)
    requires Init(s0) && Exec(s0, sched).Some? && Withheld(s0, sched)
    ensures Safe(Exec(s0, sched).value)
  {
    var b := ReachedInv(s0, sched);
    InvImpliesSafe(Exec(s0, sched).value, b);
  }

  /** The node a thread has loaded as `old_head` and may still dereference or compare. */
  predicate Reads(pc: Pc, x: Addr)
  {
    pc == PopNext(x) || (pc.PopCas? && pc.top == x)
  }

  /** While a node waits to be deleted, no thread holds it as `old_head`, and it is off the stack. */
  lemma DeletedNodeIsUnread(s0: State, sched: Schedule, t: nat, u: nat)
    requires Init(s0) && Exec(s0, sched).Some? && Withheld(s0, sched)
    requires var s := Exec(s0, sched).value; t < |s.threads| && u < |s.threads| && s.threads[t].pc.CollectDelete?
    ensures var s := Exec(s0, sched).value;
      !Reads(s.threads[u].pc, s.threads[t].pc.collectable) && s.head != s.threads[t].pc.collectable
  {
    var b := ReachedInv(s0, sched);
    var s := Exec(s0, sched).value;
    assert LocalsOk(s.heap, b, t, s.threads[t].pc);
    assert LocalsOk(s.heap, b, u, s.threads[u].pc);
    var c := s.threads[t].pc.collectable;
    assert b.own[t][0] == c;
    assert b.stk != [] ==> b.place[b.stk[0]] == OnStack;
  }

  /** The whole chain that a collector's compare-exchange is about to take is out of every reader's hands. */
  lemma TakenChainIsUnread(s0: State, sched: Schedule, t: nat) returns (nodes: seq<Addr>)
    requires Init(s0) && Exec(s0, sched).Some? && Withheld(s0, sched)
    requires var s := Exec(s0, sched).value;
      t < |s.threads| && s.threads[t].pc.CollectCas? && s.coll == s.threads[t].pc.collectable
    ensures var s := Exec(s0, sched).value;
      && Chain(s.heap, s.coll, nodes)
      && forall i, u :: 0 <= i < |nodes| && 0 <= u < |s.threads| ==> !Reads(s.threads[u].pc, nodes[i])
  {
    var b := ReachedInv(s0, sched);
    var s := Exec(s0, sched).value;
    nodes := b.dead;
    assert LocalsOk(s.heap, b, t, s.threads[t].pc);
    assert nodes != [] ==> nodes[0] in b.quiet;
    forall i, u | 0 <= i < |nodes| && 0 <= u < |s.threads| ensures !Reads(s.threads[u].pc, nodes[i]) {
      assert nodes[i] in b.quiet;
      assert LocalsOk(s.heap, b, u, s.threads[u].pc);
    }
  }

  // ---------------------------------------------------------------- the guard, whatever the allocator does

  /** `_critical_clients` counts the threads inside a guard, and no two of them are collecting. */
  ghost predicate GuardOk(s: State)
  {
    && s.clients == |Guarded(s)|
    && forall t, u :: 0 <= t < u < |s.threads| ==> !(Collecting(s.threads[t].pc) && Collecting(s.threads[u].pc))
  }

  /** Each step changes one thread, and the count goes with it. */
  lemma StepChangesOne(s: State, t: nat, a: Action)
    requires Enabled(s, t, a)
    ensures var s' := Step(s, t, a);
      && |s'.threads| == |s.threads|
      && (forall u :: 0 <= u < |s.threads| && u != t ==> s'.threads[u] == s.threads[u])
      && s'.clients - s.clients ==
           (if InGuard(s'.threads[t].pc) then 1 else 0) - (if InGuard(s.threads[t].pc) then 1 else 0)
      && (Collecting(s'.threads[t].pc) ==>
            Collecting(s.threads[t].pc) || (s.threads[t].pc.CollectCheck? && s.clients == 1))
  {
    hide Read;
    hide WriteNext;
    if a.Go? {
      match s.threads[t].pc
      case PopCas(_, _) =>
      case RetireCas(_, _) =>
      case CollectCas(_) =>
      case _ =>
    }
  }

  lemma GuardStep(s: State, t: nat, a: Action)
    requires GuardOk(s) && Enabled(s, t, a)
    ensures GuardOk(Step(s, t, a))
  {
    StepChangesOne(s, t, a);
    var s' := Step(s, t, a);
    hide Step;
    GuardedStep(s, s', t);
    if Collecting(s'.threads[t].pc) && !Collecting(s.threads[t].pc) {
      forall u | 0 <= u < |s.threads| && u != t ensures !Collecting(s.threads[u].pc) {
        if Collecting(s.threads[u].pc) { AloneInGuard(s, t, u); }
      }
    }
  }

  lemma {:induction false} ReachedGuard(s: State, sched: Schedule)
    requires GuardOk(s) && Exec(s, sched).Some?
    ensures GuardOk(Exec(s, sched).value)
    decreases |sched|
  {
    if sched != [] {
      GuardStep(s, sched[0].0, sched[0].1);
      ReachedGuard(Step(s, sched[0].0, sched[0].1), sched[1..]);
    }
  }

  lemma InitGuard(s: State)
    requires Init(s)
    ensures GuardOk(s)
  {
    assert Guarded(s) == {};
  }

  /** The count is right, and at most one thread sits between a passed check and the end of its collection. */
  lemma AtMostOneCollector(s0: State, sched: Schedule)
    requires Init(s0) && Exec(s0, sched).Some?
    ensures GuardOk(Exec(s0, sched).value)
  {
    InitGuard(s0);
    ReachedGuard(s0, sched);
  }

  /** The check passes exactly when no other thread is in its guard: so no second one passes before the first has left. */
  lemma CheckFailsBesideAnother(s0: State, sched: Schedule, u: nat)
    requires Init(s0) && Exec(s0, sched).Some?
    requires var s := Exec(s0, sched).value; u < |s.threads| && s.threads[u].pc.CollectCheck?
    ensures var s := Exec(s0, sched).value;
      (Step(s, u, Go(false)).threads[u].pc == Leave)
        <==> (exists t :: 0 <= t < |s.threads| && t != u && InGuard(s.threads[t].pc))
  {
    AtMostOneCollector(s0, sched);
    var s := Exec(s0, sched).value;
    if t :| 0 <= t < |s.threads| && t != u && InGuard(s.threads[t].pc) {
      if s.clients == 1 { AloneInGuard(s, t, u); }
    } else {
      assert Guarded(s) == {u};
    }
  }

  // ---------------------------------------------------------------- linearizability

  /** The commits so far are a run of the sequential stack, and they lead
      to the values that are linked from `_head`. */
  lemma LogIsSequential(s0: State, sched: Schedule) returns (nodes: seq<Addr>)
    requires Init(s0) && Exec(s0, sched).Some? && Withheld(s0, sched)
    ensures var s := Exec(s0, sched).value;
      Chain(s.heap, s.head, nodes) && Replay(s.log) == Some(Values(s.heap, nodes))
  {
    var b := ReachedInv(s0, sched);
    nodes := b.stk;
  }

  /** A step commits at most one event, on behalf of the running operation and under the name of its thread, and appends
      it to the log; an operation starts with none committed. */
  lemma CommitsFillTheLog(s: State, t: nat, a: Action)
    requires Enabled(s, t, a)
    ensures var s' := Step(s, t, a);
      && |s'.threads| == |s.threads|
      && (forall u :: 0 <= u < |s.threads| && u != t ==> s'.threads[u] == s.threads[u])
      && (!a.Go? ==> s'.log == s.log && s'.threads[t].commits == [] && !s'.threads[t].pc.Idle?)
      && (!a.Go? ==> Begins(a, s'.threads[t].op))
      && (a.Go? ==> s'.threads[t].op == s.threads[t].op)
      && (a.Go? ==> (s'.log == s.log && s'.threads[t].commits == s.threads[t].commits)
                    || exists e: Event :: e.who == t && s'.log == s.log + [e] && s'.threads[t].commits == s.threads[t].commits + [e])
  {
    if a.Go? {
      match s.threads[t].pc
      case PopCas(top, _) =>
        var e1, e2 := Popped(t, Some(Read(s.heap, top).value)), Popped(t, None);
        var s' := Step(s, t, a);
        assert s'.log == s.log || s'.log == s.log + [e1] || s'.log == s.log + [e2];
      case _ =>
    }
  }

  /** The operation that an action starts. */
  predicate Begins(a: Action, op: Op)
  {
    match a
    case BeginPush(v, _, _) => op == OpPush(v)
    case BeginPop => op == OpPop
    case BeginClear => op == OpClear
    case Go(_) => false
  }

  /** The operation that thread t was last asked for, as the schedule has it. */
  function Asked(sched: Schedule, t: nat): Option<Action>
  {
    if sched == [] then None
    else if sched[|sched| - 1].0 == t && !sched[|sched| - 1].1.Go? then Some(sched[|sched| - 1].1)
    else Asked(sched[..|sched| - 1], t)
  }

  /** What that operation has to commit, given the result it returns. */
  predicate Fulfils(a: Action, t: nat, e: Event, result: Option<Value>)
  {
    match a
    case BeginPush(v, _, _) => e == Pushed(t, v)
    case BeginPop => e == Popped(t, result)
    case BeginClear => e == Cleared(t)
    case Go(_) => false
  }

  /** The commits of thread t. */
  function By(log: seq<Event>, t: nat): seq<Event>
  {
    if log == [] then []
    else By(log[..|log| - 1], t) + if log[|log| - 1].who == t then [log[|log| - 1]] else []
  }

  lemma BySnoc(log: seq<Event>, e: Event, t: nat)
    ensures By(log + [e], t) == By(log, t) + if e.who == t then [e] else []
  {
    assert (log + [e])[..|log|] == log;
  }

  lemma {:induction false} ExecSplit(s: State, pre: Schedule, post: Schedule)
    requires Exec(s, pre + post).Some?
    ensures Exec(s, pre).Some? && Exec(Exec(s, pre).value, post) == Exec(s, pre + post)
    decreases |pre|
  {
    if pre == [] {
      assert pre + post == post;
    } else {
      assert (pre + post)[1..] == pre[1..] + post;
      ExecSplit(Step(s, pre[0].0, pre[0].1), pre[1..], post);
    }
  }

  /** Thread t does not start an operation. */
  predicate GoesOn(sched: Schedule, t: nat)
  {
    forall i :: 0 <= i < |sched| && sched[i].0 == t ==> sched[i].1.Go?
  }

  lemma GoOnce(s: State, u: nat, a: Action, t: nat)
    requires Enabled(s, u, a) && t < |s.threads| && (u == t ==> a.Go?)
    ensures var s1 := Step(s, u, a);
      && |s1.threads| == |s.threads| && s1.threads[t].op == s.threads[t].op
      && s.threads[t].commits <= s1.threads[t].commits
      && By(s1.log, t) == By(s.log, t) + s1.threads[t].commits[|s.threads[t].commits|..]
  {
    hide Step;
    hide By;
    CommitsFillTheLog(s, u, a);
    var s1 := Step(s, u, a);
    if s1.log != s.log {
      var e: Event :| e.who == u && s1.log == s.log + [e] && s1.threads[u].commits == s.threads[u].commits + [e];
      BySnoc(s.log, e, t);
    }
  }

  lemma Suffixes<T>(a: seq<T>, b: seq<T>, c: seq<T>)
    requires a <= b <= c
    ensures b[|a|..] + c[|b|..] == c[|a|..]
  {
  }

  /** While a thread goes on with an operation, its part of the log grows by what the operation commits. */
  lemma {:induction false} GoingOn(s: State, sched: Schedule, t: nat)
    requires Exec(s, sched).Some? && GoesOn(sched, t) && t < |s.threads|
    ensures var s' := Exec(s, sched).value;
      && |s'.threads| == |s.threads| && s'.threads[t].op == s.threads[t].op
      && s.threads[t].commits <= s'.threads[t].commits
      && By(s'.log, t) == By(s.log, t) + s'.threads[t].commits[|s.threads[t].commits|..]
    decreases |sched|
  {
    hide Step;
    hide By;
    if sched != [] {
      var (u, a) := sched[0];
      var s1 := Step(s, u, a);
      GoOnce(s, u, a, t);
      assert forall i :: 0 <= i < |sched[1..]| ==> sched[1..][i] == sched[i + 1];
      GoingOn(s1, sched[1..], t);
      Suffixes(s.threads[t].commits, s1.threads[t].commits, Exec(s, sched).value.threads[t].commits);
    }
  }

  /** Linearizability of one operation: between the moment thread t is asked for it and the moment it is idle again, t
      commits exactly one event, which is the one asked for and tells the result returned. */
  lemma OneCommitBetween(s0: State, pre: Schedule, t: nat, a: Action, mid: Schedule) returns (e: Event)
    requires Init(s0) && Exec(s0, pre + ([(t, a)] + mid)).Some? && Withheld(s0, pre + ([(t, a)] + mid))
    requires !a.Go? && GoesOn(mid, t)
    requires var s' := Exec(s0, pre + ([(t, a)] + mid)).value; t < |s'.threads| && s'.threads[t].pc.Idle?
    ensures Exec(s0, pre).Some?
    ensures var s' := Exec(s0, pre + ([(t, a)] + mid)).value;
      By(s'.log, t) == By(Exec(s0, pre).value.log, t) + [e] && Fulfils(a, t, e, s'.threads[t].result)
  {
    var sched := pre + ([(t, a)] + mid);
    var b := ReachedInv(s0, sched);
    ExecSplit(s0, pre, [(t, a)] + mid);
    var s := Exec(s0, pre).value;
    assert ([(t, a)] + mid)[1..] == mid && ([(t, a)] + mid)[0] == (t, a);
    CommitsFillTheLog(s, t, a);
    GoingOn(Step(s, t, a), mid, t);
    var s' := Exec(s0, sched).value;
    ThreadFacts(s', b, t);
    hide Inv;
    hide Step;
    hide Exec;
    e := s'.threads[t].commits[0];
  }

  lemma {:induction false} OpIsAsked(s0: State, sched: Schedule, t: nat)
    requires Init(s0) && Exec(s0, sched).Some? && t < |s0.threads|
    ensures |Exec(s0, sched).value.threads| == |s0.threads|
    ensures var s := Exec(s0, sched).value;
      match Asked(sched, t)
      case None => s.threads[t].op.NoOp?
      case Some(a) => Begins(a, s.threads[t].op)
    decreases |sched|
  {
    if sched != [] {
      var front := sched[..|sched| - 1];
      var (u, a) := sched[|sched| - 1];
      assert sched == front + [(u, a)];
      ExecSplit(s0, front, [(u, a)]);
      OpIsAsked(s0, front, t);
      CommitsFillTheLog(Exec(s0, front).value, u, a);
      assert [(u, a)][1..] == [];
    }
  }

  /** A thread that has been asked for an operation and is idle has returned from it: it committed once, what it was
      asked for, and with the result it returned. */
  lemma ReturnsWhatItCommitted(s0: State, sched: Schedule, t: nat)
    requires Init(s0) && Exec(s0, sched).Some? && Withheld(s0, sched)
    requires t < |s0.threads| && Asked(sched, t).Some?
    ensures |Exec(s0, sched).value.threads| == |s0.threads|
    ensures var s := Exec(s0, sched).value;
      s.threads[t].pc.Idle? ==>
        && |s.threads[t].commits| == 1
        && Fulfils(Asked(sched, t).value, t, s.threads[t].commits[0], s.threads[t].result)
  {
    var b := ReachedInv(s0, sched);
    OpIsAsked(s0, sched, t);
    hide Inv;
    hide Exec;
    ThreadFacts(Exec(s0, sched).value, b, t);
  }

  /** A successful pop compare-exchange installs exactly the second node, although `next` was read
      earlier and although other poppers may have overwritten the link of a retired node meanwhile. */
  lemma PopInstallsSecondNode(s0: State, sched: Schedule, t: nat) returns (nodes: seq<Addr>)
    requires Init(s0) && Exec(s0, sched).Some? && Withheld(s0, sched)
    requires var s := Exec(s0, sched).value;
      t < |s.threads| && s.threads[t].pc.PopCas? && s.head == s.threads[t].pc.top
    ensures var s := Exec(s0, sched).value;
      nodes != [] && Chain(s.heap, s.head, nodes) && s.threads[t].pc.next == At(nodes, 1)
  {
    var b := ReachedInv(s0, sched);
    var s := Exec(s0, sched).value;
    assert LocalsOk(s.heap, b, t, s.threads[t].pc);
    nodes := b.stk;
    assert nodes[0] == s.head;
  }

  /** Conservation: when every thread is idle, each allocated node is on the stack or in the
      collection list, and on one of them only. */
  lemma QuiescentAccounting(s0: State, sched: Schedule) returns (stk: seq<Addr>, dead: seq<Addr>)
    requires Init(s0) && Exec(s0, sched).Some? && Withheld(s0, sched)
    requires forall t :: 0 <= t < |Exec(s0, sched).value.threads| ==> Exec(s0, sched).value.threads[t].pc.Idle?
    ensures var s := Exec(s0, sched).value;
      && Chain(s.heap, s.head, stk) && Chain(s.heap, s.coll, dead) && s.clients == 0
      && (forall x :: x in s.heap <==> x in stk || x in dead)
      && (forall x :: !(x in stk && x in dead))
  {
    var b := ReachedInv(s0, sched);
    var s := Exec(s0, sched).value;
    stk, dead := b.stk, b.dead;
    assert Guarded(s) == {};
    forall t | 0 <= t < |b.own| ensures b.own[t] == [] {
      assert LocalsOk(s.heap, b, t, s.threads[t].pc);
    }
    forall x | x in s.heap ensures x in stk || x in dead {
      assert Listed(b, x);
    }
  }
}
