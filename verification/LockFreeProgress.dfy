/** What the lock-free stack gets done: retries, running alone, and when nodes are deleted. */
module LockFreeProgress {
  import opened Options
  import opened Sequences
  import opened LockFreeStack
  import opened LockFreeInvariant
  import opened LockFreeSteps
  import opened LockFreeTheorems

  // ---------------------------------------------------------------- a thread alone in its guard collects everything

  /** No thread but t is inside a guard. */
  ghost predicate NoOtherGuarded(s: State, t: nat)
  {
    forall u :: 0 <= u < |s.threads| && u != t ==> !InGuard(s.threads[u].pc)
  }

  /** So it is in every state of the run, and no compare-exchange of t fails spuriously. */
  ghost predicate Undisturbed(s: State, sched: Schedule, t: nat)
    requires Exec(s, sched).Some?
    decreases |sched|
  {
    && NoOtherGuarded(s, t)
    && (sched != [] ==>
          && (sched[0].0 == t ==> sched[0].1 == Go(false))
          && Undisturbed(Step(s, sched[0].0, sched[0].1), sched[1..], t))
  }

  /** What the thread knows of `_collection_head`. */
  ghost predicate Sweeping(s: State, pc: Pc)
  {
    match pc
    case PushLink(_) => false
    case PushCas(_) => false
    case CollectCheck(c) => s.coll == c
    case CollectCas(c) => s.coll == c
    case CollectNext(_) => s.coll == NULL
    case CollectDelete(_, _) => s.coll == NULL
    case Leave => s.coll == NULL
    case Idle => s.coll == NULL
    case _ => true
  }

  lemma SweepOwnStep(s: State, t: nat)
    requires GuardOk(s) && NoOtherGuarded(s, t) && t < |s.threads| && InGuard(s.threads[t].pc)
    requires Sweeping(s, s.threads[t].pc) && Enabled(s, t, Go(false))
    ensures var s' := Step(s, t, Go(false)); Sweeping(s', s'.threads[t].pc)
  {
    assert Guarded(s) == {t};
    hide Read;
    hide WriteNext;
  }

  /** A push leaves the collection list alone. */
  lemma PushStep(s: State, u: nat, a: Action)
    requires Enabled(s, u, a) && !InGuard(s.threads[u].pc) && !InGuard(Step(s, u, a).threads[u].pc)
    ensures Step(s, u, a).coll == s.coll
  {
  }

  lemma {:induction false} SweepRun(s: State, sched: Schedule, t: nat)
    requires GuardOk(s) && t < |s.threads| && Sweeping(s, s.threads[t].pc)
    requires InGuard(s.threads[t].pc) || s.threads[t].pc.Idle?
    requires Exec(s, sched).Some? && Undisturbed(s, sched, t)
    ensures var s' := Exec(s, sched).value;
      |s'.threads| == |s.threads| && (s'.threads[t].pc.Idle? ==> s'.coll == NULL)
    decreases |sched|
  {
    if sched != [] {
      var (u, a) := sched[0];
      var s1 := Step(s, u, a);
      GuardStep(s, u, a);
      CommitsFillTheLog(s, u, a);
      if u == t {
        SweepOwnStep(s, t);
      } else {
        PushStep(s, u, a);
      }
      SweepRun(s1, sched[1..], t);
    }
  }

  /** Whatever the allocator does: a pop or a clear that runs from its start to its return with no other thread in a guard
      meanwhile, and without a spurious failure, leaves an empty collection list. */
  lemma CollectsWhenAlone(s0: State, pre: Schedule, t: nat, a: Action, mid: Schedule)
    requires Init(s0) && Exec(s0, pre).Some? && Enabled(Exec(s0, pre).value, t, a) && (a.BeginPop? || a.BeginClear?)
    requires var s := Step(Exec(s0, pre).value, t, a); Exec(s, mid).Some? && Undisturbed(s, mid, t)
    ensures var s' := Exec(Step(Exec(s0, pre).value, t, a), mid).value;
      t < |s'.threads| && (s'.threads[t].pc.Idle? ==> s'.coll == NULL)
  {
    AtMostOneCollector(s0, pre);
    GuardStep(Exec(s0, pre).value, t, a);
    SweepRun(Step(Exec(s0, pre).value, t, a), mid, t);
  }

  /** A thread is about to push node x. */
  predicate Pushing(pc: Pc, x: Addr)
  {
    pc == PushLink(x) || pc == PushCas(x)
  }

  ghost predicate InPush(s: State, x: Addr)
  {
    exists u :: 0 <= u < |s.threads| && Pushing(s.threads[u].pc, x)
  }

  /** With an empty collection list and nobody in a guard, what is allocated is the stack, and the nodes being pushed. */
  lemma OnlyTheStackIsLeft(s0: State, sched: Schedule) returns (stk: seq<Addr>)
    requires Init(s0) && Exec(s0, sched).Some? && Withheld(s0, sched)
    requires var s := Exec(s0, sched).value;
      s.coll == NULL && forall u :: 0 <= u < |s.threads| ==> !InGuard(s.threads[u].pc)
    ensures var s := Exec(s0, sched).value;
      Chain(s.heap, s.head, stk) && forall x :: x in s.heap <==> x in stk || InPush(s, x)
  {
    var b := ReachedInv(s0, sched);
    var s := Exec(s0, sched).value;
    stk := b.stk;
    assert b.dead == [];
    forall x | x in s.heap ensures x in stk || InPush(s, x) {
      assert Listed(b, x);
      if b.place[x].Fresh? || b.place[x].Owned? {
        var u := b.place[x].owner;
        assert LocalsOk(s.heap, b, u, s.threads[u].pc);
        assert b.own[u] != [] && b.own[u][0] == x ==> Pushing(s.threads[u].pc, x);
      }
    }
    forall x | InPush(s, x) ensures x in s.heap {
      var u :| 0 <= u < |s.threads| && Pushing(s.threads[u].pc, x);
      assert LocalsOk(s.heap, b, u, s.threads[u].pc);
    }
  }

  // ---------------------------------------------------------------- a thread that runs alone returns

  /** The steps of try_collect, when the collection list has n nodes. */
  function CollectSteps(n: nat): nat
  {
    2 * n + 5
  }

  /** How far a walk has come. */
  ghost function Walked(own: seq<Addr>, tail: Addr, cur: Addr): (k: nat)
    ensures k <= |own|
  {
    if exists k :: WalkAt(own, tail, cur, k) then var k: nat :| WalkAt(own, tail, cur, k); k else 0
  }

  lemma WalkedIs(own: seq<Addr>, tail: Addr, cur: Addr, k: nat)
    requires NoDup(own) && (forall i :: 0 <= i < |own| ==> own[i] != NULL) && WalkAt(own, tail, cur, k)
    ensures Walked(own, tail, cur) == k
  {
  }

  /** How many steps thread t has left when it runs alone. */
  ghost function StepsLeft(s: State, b: Book, t: nat): nat
    requires t < |s.threads| && t < |b.own|
  {
    var own, dead := |b.own[t]|, |b.dead|;
    match s.threads[t].pc
    case Idle => 0
    case PushLink(node) => 2
    case PushCas(node) => if Read(s.heap, node).next == s.head then 1 else 2
    case PopLoad => CollectSteps(1 + dead) + 6
    case PopNext(top) => CollectSteps(1 + dead) + if top == s.head then 5 else 7
    case PopCas(top, _) => CollectSteps(1 + dead) + if top == s.head then 4 else 6
    case PopTake(_) => CollectSteps(own + dead) + 3
    case ClearDetach => CollectSteps(|b.stk| + dead) + |b.stk| + 4
    case ClearWalk(_, tail, cur) => CollectSteps(own + dead) + (own - Walked(b.own[t], tail, cur)) + 3
    case RetireLink(_, _) => CollectSteps(own + dead) + 2
    case RetireCas(_, last) => CollectSteps(own + dead) + if Read(s.heap, last).next == s.coll then 1 else 2
    case CollectLoad => CollectSteps(dead)
    case CollectCheck(_) => CollectSteps(dead) - 1
    case CollectCas(_) => CollectSteps(dead) - 2
    case CollectNext(_) => 2 * own + 1
    case CollectDelete(_, _) => 2 * own
    case Leave => 1
  }

  /** The next step of t brings it closer to its return. */
  ghost predicate Closer(s: State, b: Book, t: nat)
    requires |b.own| == |s.threads| && t < |s.threads| && !s.threads[t].pc.Idle?
  {
    var s', b' := Step(s, t, Go(false)), NextBook(s, b, t, Go(false));
    |s'.threads| == |s.threads| && |b'.own| == |b.own| && StepsLeft(s', b', t) < StepsLeft(s, b, t)
  }

  lemma CloserInPush(s: State, b: Book, t: nat)
    requires |b.own| == |s.threads| && t < |s.threads| && (s.threads[t].pc.PushLink? || s.threads[t].pc.PushCas?)
    ensures Closer(s, b, t)
  {
  }

  lemma CloserInLoad(s: State, b: Book, t: nat)
    requires |b.own| == |s.threads| && t < |s.threads| && (s.threads[t].pc.PopLoad? || s.threads[t].pc.PopNext?)
    ensures Closer(s, b, t)
  {
  }

  lemma CloserInPop(s: State, b: Book, t: nat)
    requires |b.own| == |s.threads| && t < |s.threads| && (s.threads[t].pc.PopCas? || s.threads[t].pc.PopTake?)
    requires LocalsOk(s.heap, b, t, s.threads[t].pc) && NULL !in b.place && (s.head != NULL ==> b.stk != [])
    ensures Closer(s, b, t)
  {
    hide Read;
    hide WriteNext;
  }

  lemma CloserInClear(s: State, b: Book, t: nat)
    requires |b.own| == |s.threads| && t < |s.threads| && (s.threads[t].pc.ClearDetach? || s.threads[t].pc.ClearWalk?)
    requires LocalsOk(s.heap, b, t, s.threads[t].pc) && Chain(s.heap, s.head, b.stk)
    ensures Closer(s, b, t)
  {
    hide Walked;
    match s.threads[t].pc
    case ClearDetach =>
      assert WalkAt(b.stk, NULL, s.head, 0);
      WalkedIs(b.stk, NULL, s.head, 0);
    case ClearWalk(_, tail, cur) =>
      var own := b.own[t];
      var k: nat :| WalkAt(own, tail, cur, k);
      WalkedIs(own, tail, cur, k);
      if cur != NULL {
        assert WalkAt(own, cur, Read(s.heap, cur).next, k + 1);
        WalkedIs(own, cur, Read(s.heap, cur).next, k + 1);
      }
  }

  lemma CloserInRetire(s: State, b: Book, t: nat)
    requires |b.own| == |s.threads| && t < |s.threads| && (s.threads[t].pc.RetireLink? || s.threads[t].pc.RetireCas?)
    ensures Closer(s, b, t)
  {
  }

  lemma CloserInCollect(s: State, b: Book, t: nat)
    requires |b.own| == |s.threads| && t < |s.threads|
    requires var pc := s.threads[t].pc; pc.CollectLoad? || pc.CollectCheck? || pc.CollectCas? || pc.CollectNext? || pc.Leave?
    ensures Closer(s, b, t)
  {
    hide Read;
  }

  lemma CloserInDelete(s: State, b: Book, t: nat)
    requires |b.own| == |s.threads| && t < |s.threads| && s.threads[t].pc.CollectDelete?
    requires LocalsOk(s.heap, b, t, s.threads[t].pc)
    ensures Closer(s, b, t)
  {
  }

  lemma StackFacts(s: State, b: Book)
    requires Inv(s, b)
    ensures NULL !in b.place && Chain(s.heap, s.head, b.stk) && (s.head != NULL ==> b.stk != [])
  {
  }

  lemma OwnStepIsCloser(s: State, b: Book, t: nat)
    requires Inv(s, b) && t < |s.threads| && !s.threads[t].pc.Idle?
    ensures |b.own| == |s.threads| && Closer(s, b, t)
  {
    hide Closer;
    ThreadFacts(s, b, t);
    StackFacts(s, b);
    hide Inv;
    match s.threads[t].pc
    case PushLink(_) => CloserInPush(s, b, t);
    case PushCas(_) => CloserInPush(s, b, t);
    case PopLoad => CloserInLoad(s, b, t);
    case PopNext(_) => CloserInLoad(s, b, t);
    case PopCas(_, _) => CloserInPop(s, b, t);
    case PopTake(_) => CloserInPop(s, b, t);
    case ClearDetach => CloserInClear(s, b, t);
    case ClearWalk(_, _, _) => CloserInClear(s, b, t);
    case RetireLink(_, _) => CloserInRetire(s, b, t);
    case RetireCas(_, _) => CloserInRetire(s, b, t);
    case CollectDelete(_, _) => CloserInDelete(s, b, t);
    case _ => CloserInCollect(s, b, t);
  }

  /** Thread t alone, without spurious failures. */
  function Solo(t: nat, n: nat): Schedule
  {
    seq(n, i => (t, Go(false)))
  }

  lemma SoloFirst(s: State, t: nat, n: nat)
    requires Enabled(s, t, Go(false))
    ensures Exec(s, Solo(t, n + 1)) == Exec(Step(s, t, Go(false)), Solo(t, n))
  {
    assert Solo(t, n + 1)[1..] == Solo(t, n);
  }

  ghost predicate Home(s: State, t: nat, n: nat)
  {
    && Exec(s, Solo(t, n)).Some?
    && t < |Exec(s, Solo(t, n)).value.threads| && Exec(s, Solo(t, n)).value.threads[t].pc.Idle?
  }

  lemma {:induction false} RunsHome(s: State, b: Book, t: nat) returns (n: nat)
    requires Inv(s, b) && t < |s.threads|
    ensures t < |b.own| && n <= StepsLeft(s, b, t) && Home(s, t, n)
    decreases if t < |b.own| && t < |s.threads| then StepsLeft(s, b, t) else 0
  {
    hide StepsLeft;
    hide Step;
    hide NextBook;
    hide Inv;
    ThreadFacts(s, b, t);
    if s.threads[t].pc.Idle? {
      n := 0;
    } else {
      OwnStepIsCloser(s, b, t);
      InvStep(s, b, t, Go(false));
      CommitsFillTheLog(s, t, Go(false));
      var m := RunsHome(Step(s, t, Go(false)), NextBook(s, b, t, Go(false)), t);
      SoloFirst(s, t, m);
      n := m + 1;
    }
  }

  lemma {:induction false} NoMoreThan(s: seq<Addr>, keys: set<Addr>)
    requires NoDup(s) && forall i :: 0 <= i < |s| ==> s[i] in keys
    ensures |s| <= |keys|
  {
    if s != [] {
      var front, last := s[..|s| - 1], s[|s| - 1];
      NoMoreThan(front, keys - {last});
    }
  }

  /** Stack, collection list and what t has unlinked are different nodes. */
  lemma ListsFit(s: State, b: Book, t: nat)
    requires Inv(s, b) && t < |s.threads|
    ensures t < |b.own| && |b.stk| + |b.dead| + |b.own[t]| <= |s.heap|
  {
    hide Inv;
    hide LocalsOk;
    ThreadFacts(s, b, t);
    OwnIsChain(s, b, t);
    ListsAreApart(s, b);
    var all := b.stk + b.dead + b.own[t];
    forall i, j | 0 <= i < j < |all| ensures all[i] != all[j] {
      assert PlaceIn(b, all, i) && PlaceIn(b, all, j);
    }
    assert forall i :: 0 <= i < |all| ==> PlaceIn(b, all, i);
    NoMoreThan(all, s.heap.Keys);
  }

  lemma ListsAreApart(s: State, b: Book)
    requires Inv(s, b)
    ensures NoDup(b.stk) && Placed(b, b.stk, OnStack) && NoDup(b.dead) && Placed(b, b.dead, Retired)
    ensures b.place.Keys == s.heap.Keys
  {
  }

  lemma OwnIsChain(s: State, b: Book, t: nat)
    requires Inv(s, b) && t < |s.threads| && t < |b.own|
    ensures NoDup(b.own[t]) && forall i :: 0 <= i < |b.own[t]| ==> b.own[t][i] in b.place && b.place[b.own[t][i]] != OnStack && b.place[b.own[t][i]] != Retired
  {
    assert LocalsOk(s.heap, b, t, s.threads[t].pc);
  }

  /** The stack comes first, then the collection list, then the rest. */
  predicate PlaceIn(b: Book, all: seq<Addr>, i: nat)
    requires i < |all|
  {
    && all[i] in b.place
    && (i < |b.stk| <==> b.place[all[i]] == OnStack)
    && (|b.stk| <= i < |b.stk| + |b.dead| <==> b.place[all[i]] == Retired)
  }

  lemma StepsAreFew(s: State, b: Book, t: nat)
    requires t < |s.threads| && t < |b.own|
    ensures StepsLeft(s, b, t) <= 3 * (|b.stk| + |b.dead| + |b.own[t]|) + 14
  {
    hide Read;
    hide Walked;
  }

  /** From every state that is reached, a thread that goes on alone returns from its operation, within a number of steps
      that is linear in the number of allocated nodes. */
  lemma ReturnsWhenAlone(s0: State, sched: Schedule, t: nat) returns (n: nat)
    requires Init(s0) && Exec(s0, sched).Some? && Withheld(s0, sched) && t < |Exec(s0, sched).value.threads|
    ensures Home(Exec(s0, sched).value, t, n) && n <= 3 * |Exec(s0, sched).value.heap| + 14
  {
    hide Inv;
    hide Home;
    hide StepsLeft;
    var b := ReachedInv(s0, sched);
    var s := Exec(s0, sched).value;
    n := RunsHome(s, b, t);
    ListsFit(s, b, t);
    StepsAreFew(s, b, t);
  }

  /** What a thread alone commits is all that is committed. */
  lemma {:induction false} SoloCommits(s: State, t: nat, n: nat)
    requires t < |s.threads| && Exec(s, Solo(t, n)).Some?
    ensures var s' := Exec(s, Solo(t, n)).value;
      && |s'.threads| == |s.threads| && s'.threads[t].op == s.threads[t].op
      && (forall u :: 0 <= u < |s.threads| && u != t ==> s'.threads[u] == s.threads[u])
      && s.threads[t].commits <= s'.threads[t].commits
      && s'.log == s.log + s'.threads[t].commits[|s.threads[t].commits|..]
    decreases n
  {
    hide Step;
    if n > 0 {
      assert Solo(t, n)[0] == (t, Go(false));
      SoloFirst(s, t, n - 1);
      CommitsFillTheLog(s, t, Go(false));
      SoloCommits(Step(s, t, Go(false)), t, n - 1);
    }
  }

  lemma {:induction false} SoloIsUndisturbed(s: State, t: nat, n: nat)
    requires t < |s.threads| && Exec(s, Solo(t, n)).Some? && NoOtherGuarded(s, t)
    ensures Undisturbed(s, Solo(t, n), t)
    decreases n
  {
    hide Step;
    if n > 0 {
      assert Solo(t, n)[0] == (t, Go(false)) && Solo(t, n)[1..] == Solo(t, n - 1);
      CommitsFillTheLog(s, t, Go(false));
      SoloIsUndisturbed(Step(s, t, Go(false)), t, n - 1);
    }
  }

  lemma {:induction false} SoloKeepsInv(s: State, b: Book, t: nat, n: nat) returns (b': Book)
    requires Inv(s, b) && Exec(s, Solo(t, n)).Some?
    ensures Inv(Exec(s, Solo(t, n)).value, b')
    decreases n
  {
    hide Inv;
    hide Step;
    hide NextBook;
    b' := b;
    if n > 0 {
      assert Solo(t, n)[0] == (t, Go(false));
      SoloFirst(s, t, n - 1);
      ThreadFactsOf(s, b);
      InvStep(s, b, t, Go(false));
      b' := SoloKeepsInv(Step(s, t, Go(false)), NextBook(s, b, t, Go(false)), t, n - 1);
    }
  }

  lemma ThreadFactsOf(s: State, b: Book)
    requires Inv(s, b)
    ensures |b.own| == |s.threads|
  {
  }

  /** An operation that runs alone from any state that is reached is the operation of the sequential stack: it appends one
      event to the log, the one asked for with the result returned.  With no other thread in a guard, a pop or clear also
      leaves an empty collection list. */
  lemma AloneIsSequential(s0: State, sched: Schedule, t: nat, a: Action) returns (n: nat, e: Event)
    requires Init(s0) && Exec(s0, sched).Some? && Withheld(s0, sched)
    requires var s := Exec(s0, sched).value; Enabled(s, t, a) && !a.Go? && AddressWithheld(s, a)
    ensures var s := Exec(s0, sched).value; var s1 := Step(s, t, a);
      && Home(s1, t, n)
      && var s' := Exec(s1, Solo(t, n)).value;
      && s'.log == s.log + [e] && Fulfils(a, t, e, s'.threads[t].result)
      && (!a.BeginPush? && NoOtherGuarded(s, t) ==> s'.coll == NULL)
  {
    hide Inv;
    hide NextBook;
    hide Sweeping;
    var b := ReachedInv(s0, sched);
    var s := Exec(s0, sched).value;
    hide Exec;
    ThreadFactsOf(s, b);
    InvStep(s, b, t, a);
    CommitsFillTheLog(s, t, a);
    var s1, b1 := Step(s, t, a), NextBook(s, b, t, a);
    n := RunsHome(s1, b1, t);
    SoloCommits(s1, t, n);
    var b' := SoloKeepsInv(s1, b1, t, n);
    ThreadFacts(Exec(s1, Solo(t, n)).value, b', t);
    e := Exec(s1, Solo(t, n)).value.threads[t].commits[0];
    if !a.BeginPush? && NoOtherGuarded(s, t) {
      SoloIsUndisturbed(s1, t, n);
      CollectsWhenAlone(s0, sched, t, a, Solo(t, n));
    }
  }

  // ---------------------------------------------------------------- a failed attempt is paid by another thread's success

  /** `_head` changes only with a commit. */
  lemma {:induction false} HeadMovesWithLog(s: State, sched: Schedule)
    requires Exec(s, sched).Some?
    ensures |s.log| <= |Exec(s, sched).value.log|
    ensures Exec(s, sched).value.head != s.head ==> |s.log| < |Exec(s, sched).value.log|
    decreases |sched|
  {
    if sched != [] {
      HeadStep(s, sched[0].0, sched[0].1);
      HeadMovesWithLog(Step(s, sched[0].0, sched[0].1), sched[1..]);
    }
  }

  lemma HeadStep(s: State, t: nat, a: Action)
    requires Enabled(s, t, a)
    ensures |s.log| <= |Step(s, t, a).log| && (Step(s, t, a).head != s.head ==> |s.log| < |Step(s, t, a).log|)
  {
    hide Read;
    hide WriteNext;
  }

  predicate Without(sched: Schedule, t: nat)
  {
    forall i :: 0 <= i < |sched| ==> sched[i].0 != t
  }

  /** The node that a thread is pushing is written by no other. */
  lemma PrivateStep(s: State, b: Book, u: nat, a: Action, t: nat, x: Addr)
    requires Inv(s, b) && Enabled(s, u, a) && u != t && t < |s.threads| && s.threads[t].pc == PushCas(x)
    ensures Read(Step(s, u, a).heap, x) == Read(s.heap, x)
  {
    ThreadFacts(s, b, t);
    ThreadFacts(s, b, u);
    StackFacts(s, b);
    OwnHasLast(s, b, u);
    hide Inv;
    hide Chain;
    assert b.own[t][0] == x;
  }

  /** What a thread writes to or deletes is its own. */
  lemma OwnHasLast(s: State, b: Book, u: nat)
    requires Inv(s, b) && u < |s.threads|
    ensures match s.threads[u].pc
      case PushLink(n) => n in b.place && b.place[n] == Fresh(u)
      case PushCas(n) => n in b.place && b.place[n] == Fresh(u)
      case RetireLink(_, last) => last in b.place && b.place[last] == Owned(u)
      case RetireCas(_, last) => last in b.place && b.place[last] == Owned(u)
      case CollectDelete(c, _) => c in b.place && b.place[c] == Owned(u)
      case _ => true
    ensures b.place.Keys == s.heap.Keys
  {
    assert LocalsOk(s.heap, b, u, s.threads[u].pc);
    assert b.own[u] != [] ==> b.own[u][0] in b.place && b.own[u][|b.own[u]| - 1] in b.place;
  }

  lemma {:induction false} PrivateRun(s: State, b: Book, sched: Schedule, t: nat, x: Addr)
    requires Inv(s, b) && t < |s.threads| && s.threads[t].pc == PushCas(x)
    requires Exec(s, sched).Some? && Withheld(s, sched) && Without(sched, t)
    ensures var s' := Exec(s, sched).value;
      |s'.threads| == |s.threads| && s'.threads[t] == s.threads[t] && Read(s'.heap, x) == Read(s.heap, x)
    decreases |sched|
  {
    hide Inv;
    hide Step;
    hide NextBook;
    hide Read;
    if sched != [] {
      var (u, a) := sched[0];
      ThreadFactsOf(s, b);
      PrivateStep(s, b, u, a, t, x);
      CommitsFillTheLog(s, u, a);
      InvStep(s, b, u, a);
      assert forall i :: 0 <= i < |sched[1..]| ==> sched[1..][i] == sched[i + 1];
      PrivateRun(Step(s, u, a), NextBook(s, b, u, a), sched[1..], t, x);
    }
  }

  /** The compare-exchange of t would fail, though not spuriously. */
  predicate Fails(s: State, t: nat)
    requires t < |s.threads|
  {
    match s.threads[t].pc
    case PushCas(n) => s.head != Read(s.heap, n).next
    case PopCas(top, _) => s.head != top
    case _ => false
  }

  /** A push whose compare-exchange fails, or fails spuriously, and then fails again on its next try: in between another
      thread has committed. */
  lemma PushRetryIsPaid(s0: State, sched: Schedule, t: nat, a: Action, mid: Schedule)
    requires Init(s0) && Exec(s0, sched).Some? && Withheld(s0, sched)
    requires var s := Exec(s0, sched).value; Enabled(s, t, a) && a.Go? && s.threads[t].pc.PushCas?
    requires var s1 := Step(Exec(s0, sched).value, t, a);
      Exec(s1, mid).Some? && Withheld(s1, mid) && Without(mid, t) && t < |s1.threads| && s1.threads[t].pc.PushCas?
    ensures var s1 := Step(Exec(s0, sched).value, t, a); var s2 := Exec(s1, mid).value;
      t < |s2.threads| && (Fails(s2, t) ==> |s1.log| < |s2.log|)
  {
    hide Inv;
    var b := ReachedInv(s0, sched);
    var s := Exec(s0, sched).value;
    ThreadFactsOf(s, b);
    InvStep(s, b, t, a);
    var s1, b1, x := Step(s, t, a), NextBook(s, b, t, a), s.threads[t].pc.node;
    assert s1.threads[t].pc == PushCas(x) && Read(s1.heap, x).next == s1.head;
    hide Exec;
    PrivateRun(s1, b1, mid, t, x);
    HeadMovesWithLog(s1, mid);
  }

  /** The same for a pop: from the load of `_head` to the compare-exchange that fails, whatever was done in between. */
  lemma PopRetryIsPaid(s: State, sched: Schedule, t: nat)
    requires t < |s.threads| && s.threads[t].pc.PopNext? && s.head == s.threads[t].pc.top && Exec(s, sched).Some?
    requires var s' := Exec(s, sched).value;
      t < |s'.threads| && s'.threads[t].pc.PopCas? && s'.threads[t].pc.top == s.threads[t].pc.top
    ensures Fails(Exec(s, sched).value, t) ==> |s.log| < |Exec(s, sched).value.log|
  {
    HeadMovesWithLog(s, sched);
  }
}
