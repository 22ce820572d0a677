/**
  Why the allocator assumption is stated: without it the check of `_critical_clients` does not
  protect a reader.  Thread 0 loads the collection head and is delayed; the node is deleted, its
  address is issued again, pushed, popped and retired; thread 0's compare-exchange then succeeds on
  an address that means another node.
*/
module LockFreeHazard {
  import opened Options
  import opened LockFreeStack
  import opened LockFreeTheorems

  const N: Addr := 1

  const FRESH := Thread(Idle, NoOp, None, [])
  const IN7 := Pushed(1, 7)
  const OUT7 := Popped(1, Some(7))
  const NOTHING := Popped(0, None)

  /** Thread 0, delayed inside its guard with the address it loaded from `_collection_head`. */
  const DELAYED := Thread(CollectCheck(N), OpPop, None, [NOTHING])
  const S0 := State(map[], NULL, NULL, 0, [FRESH, FRESH, FRESH], [])
  // thread 1 has pushed 7
  const S1 := State(map[N := Node(7, NULL)], N, NULL, 0, [FRESH, Thread(Idle, OpPush(7), None, [IN7]), FRESH], [IN7])
  // thread 1 has popped it
  const S1p := State(map[N := Node(7, NULL)], NULL, NULL, 1, [FRESH, Thread(PopTake(N), OpPop, None, [OUT7]), FRESH],
                     [IN7, OUT7])
  // thread 1 has retired it, and passed the check
  const S2 := State(map[N := Node(7, NULL)], NULL, N, 1, [FRESH, Thread(CollectCas(N), OpPop, Some(7), [OUT7]), FRESH],
                    [IN7, OUT7])
  // thread 0 has found the stack empty and loaded the collection head
  const S3 := State(map[N := Node(7, NULL)], NULL, N, 2, [DELAYED, Thread(CollectCas(N), OpPop, Some(7), [OUT7]), FRESH],
                    [IN7, OUT7, NOTHING])
  // thread 1 has deleted the node and left
  const S4 := State(map[], NULL, NULL, 1, [DELAYED, Thread(Idle, OpPop, Some(7), [OUT7]), FRESH], [IN7, OUT7, NOTHING])

  const GO := Go(false)

  function Gos(t: nat, n: nat): Schedule
  {
    if n == 0 then [] else [(t, GO)] + Gos(t, n - 1)
  }

  const PUSH7: Schedule := [(1, BeginPush(7, N, NULL))] + Gos(1, 2)
  const POP7: Schedule := [(1, BeginPop)] + Gos(1, 3)
  const RETIRE7: Schedule := Gos(1, 5)
  const DELAY: Schedule := [(0, BeginPop)] + Gos(0, 2)
  const DELETE7: Schedule := Gos(1, 4)

  lemma Fire(s: State, t: nat, a: Action, rest: Schedule)
    requires Enabled(s, t, a)
    ensures Exec(s, [(t, a)] + rest) == Exec(Step(s, t, a), rest)
  {
    assert ([(t, a)] + rest)[1..] == rest;
  }

  lemma AfterPush()
    ensures Exec(S0, PUSH7) == Some(S1)
  {
    var s1 := Step(S0, 1, BeginPush(7, N, NULL));
    Fire(S0, 1, BeginPush(7, N, NULL), Gos(1, 2));
    var s2 := Step(s1, 1, GO);
    Fire(s1, 1, GO, Gos(1, 1));
    var s3 := Step(s2, 1, GO);
    Fire(s2, 1, GO, Gos(1, 0));
    assert forall t :: 0 <= t < 3 ==> s3.threads[t].commits == S1.threads[t].commits;
    assert s3.heap == S1.heap && s3.log == S1.log && s3.threads == S1.threads;
    assert s3 == S1;
  }

  lemma AfterPop()
    ensures Exec(S1, POP7) == Some(S1p)
  {
    var s1 := Step(S1, 1, BeginPop);
    Fire(S1, 1, BeginPop, Gos(1, 3));
    var s2 := Step(s1, 1, GO);
    Fire(s1, 1, GO, Gos(1, 2));
    var s3 := Step(s2, 1, GO);
    Fire(s2, 1, GO, Gos(1, 1));
    var s4 := Step(s3, 1, GO);
    Fire(s3, 1, GO, Gos(1, 0));
    assert forall t :: 0 <= t < 3 ==> s4.threads[t].commits == S1p.threads[t].commits;
    assert s4.heap == S1p.heap && s4.log == S1p.log && s4.threads == S1p.threads;
    assert s4 == S1p;
  }

  lemma AfterRetire()
    ensures Exec(S1p, RETIRE7) == Some(S2)
  {
    var s1 := Step(S1p, 1, GO);
    Fire(S1p, 1, GO, Gos(1, 4));
    var s2 := Step(s1, 1, GO);
    Fire(s1, 1, GO, Gos(1, 3));
    var s3 := Step(s2, 1, GO);
    Fire(s2, 1, GO, Gos(1, 2));
    var s4 := Step(s3, 1, GO);
    Fire(s3, 1, GO, Gos(1, 1));
    var s5 := Step(s4, 1, GO);
    Fire(s4, 1, GO, Gos(1, 0));
    assert forall t :: 0 <= t < 3 ==> s5.threads[t].commits == S2.threads[t].commits;
    assert s5.heap == S2.heap && s5.log == S2.log && s5.threads == S2.threads;
    assert s5 == S2;
  }

  lemma AfterDelay()
    ensures Exec(S2, DELAY) == Some(S3)
  {
    var s1 := Step(S2, 0, BeginPop);
    Fire(S2, 0, BeginPop, Gos(0, 2));
    var s2 := Step(s1, 0, GO);
    Fire(s1, 0, GO, Gos(0, 1));
    var s3 := Step(s2, 0, GO);
    Fire(s2, 0, GO, Gos(0, 0));
    assert forall t :: 0 <= t < 3 ==> s3.threads[t].commits == S3.threads[t].commits;
    assert s3.heap == S3.heap && s3.log == S3.log && s3.threads == S3.threads;
    assert s3 == S3;
  }

  lemma AfterDelete()
    ensures Exec(S3, DELETE7) == Some(S4)
  {
    var s1 := Step(S3, 1, GO);
    Fire(S3, 1, GO, Gos(1, 3));
    var s2 := Step(s1, 1, GO);
    Fire(s1, 1, GO, Gos(1, 2));
    var s3 := Step(s2, 1, GO);
    Fire(s2, 1, GO, Gos(1, 1));
    var s4 := Step(s3, 1, GO);
    Fire(s3, 1, GO, Gos(1, 0));
    assert forall t :: 0 <= t < 3 ==> s4.threads[t].commits == S4.threads[t].commits;
    assert s4.heap == S4.heap && s4.log == S4.log && s4.threads == S4.threads;
    assert s4 == S4;
  }

  lemma {:induction false} ExecAppend(s: State, a: Schedule, b: Schedule)
    requires Exec(s, a).Some?
    ensures Exec(s, a + b) == Exec(Exec(s, a).value, b)
    decreases |a|
  {
    if a == [] {
      assert a + b == b;
    } else {
      assert (a + b)[1..] == a[1..] + b;
      ExecAppend(Step(s, a[0].0, a[0].1), a[1..], b);
    }
  }

  lemma Nothing(s: State)
    ensures Exec(s, []) == Some(s)
  {
  }

  // ---------------------------------------------------------------- any reissue beside idle threads

  /** Three threads, their control points, and how many are in a guard. */
  predicate At3(s: State, t: nat, u: nat, w: nat, clients: int, pt: Pc, pu: Pc, pw: Pc)
  {
    && t < |s.threads| && u < |s.threads| && w < |s.threads| && t != u && t != w && u != w && s.clients == clients
    && s.threads[t].pc == pt && s.threads[u].pc == pu && s.threads[w].pc == pw
  }

  /** Thread u pushes a node at the address x that thread t carries. */
  lemma Reissue(s: State, t: nat, u: nat, w: nat, x: Addr, value: Value) returns (sched: Schedule, s': State)
    requires At3(s, t, u, w, 1, CollectCheck(x), Idle, Idle) && x != NULL && x !in s.heap
    ensures sched != [] && sched[0] == (u, BeginPush(value, x, NULL)) && Exec(s, sched) == Some(s')
    ensures At3(s', t, u, w, 1, CollectCheck(x), Idle, Idle) && s'.head == x && x in s'.heap
  {
    var s1 := Step(s, u, BeginPush(value, x, NULL));
    var s2 := Step(s1, u, GO);
    s' := Step(s2, u, GO);
    Fire(s, u, BeginPush(value, x, NULL), Gos(u, 2));
    Fire(s1, u, GO, Gos(u, 1));
    Fire(s2, u, GO, Gos(u, 0));
    sched := [(u, BeginPush(value, x, NULL))] + Gos(u, 2);
  }

  /** Thread t passes its check, and only then thread w loads the head. */
  lemma PassThenRead(s: State, t: nat, u: nat, w: nat, x: Addr) returns (sched: Schedule, s': State)
    requires At3(s, t, u, w, 1, CollectCheck(x), Idle, Idle) && s.head == x != NULL && x in s.heap
    ensures Exec(s, sched) == Some(s')
    ensures At3(s', t, u, w, 2, CollectCas(x), Idle, PopNext(x)) && s'.head == x && x in s'.heap
  {
    var s1 := Step(s, t, GO);
    var s2 := Step(s1, w, BeginPop);
    s' := Step(s2, w, GO);
    Fire(s, t, GO, [(w, BeginPop)] + Gos(w, 1));
    Fire(s1, w, BeginPop, Gos(w, 1));
    Fire(s2, w, GO, Gos(w, 0));
    sched := [(t, GO)] + ([(w, BeginPop)] + Gos(w, 1));
  }

  /** Thread u takes the node off the stack. */
  lemma PopIt(s: State, t: nat, u: nat, w: nat, x: Addr) returns (sched: Schedule, s': State)
    requires At3(s, t, u, w, 2, CollectCas(x), Idle, PopNext(x)) && s.head == x != NULL && x in s.heap
    ensures Exec(s, sched) == Some(s')
    ensures At3(s', t, u, w, 3, CollectCas(x), PopTake(x), PopNext(x)) && x in s'.heap
  {
    var s1 := Step(s, u, BeginPop);
    var s2 := Step(s1, u, GO);
    var s3 := Step(s2, u, GO);
    s' := Step(s3, u, GO);
    Fire(s, u, BeginPop, Gos(u, 3));
    Fire(s1, u, GO, Gos(u, 2));
    Fire(s2, u, GO, Gos(u, 1));
    Fire(s3, u, GO, Gos(u, 0));
    sched := [(u, BeginPop)] + Gos(u, 3);
  }

  /** Thread u retires the node. */
  lemma RetireIt(s: State, t: nat, u: nat, w: nat, x: Addr) returns (sched: Schedule, s': State)
    requires At3(s, t, u, w, 3, CollectCas(x), PopTake(x), PopNext(x)) && x in s.heap
    ensures Exec(s, sched) == Some(s')
    ensures At3(s', t, u, w, 3, CollectCas(x), CollectLoad, PopNext(x)) && s'.coll == x && x in s'.heap
  {
    var s1 := Step(s, u, GO);
    var s2 := Step(s1, u, GO);
    s' := Step(s2, u, GO);
    Fire(s, u, GO, Gos(u, 2));
    Fire(s1, u, GO, Gos(u, 1));
    Fire(s2, u, GO, Gos(u, 0));
    sched := Gos(u, 3);
  }

  /** Thread t's compare-exchange succeeds, and it deletes the node that thread w is about to read. */
  lemma DeleteIt(s: State, t: nat, u: nat, w: nat, x: Addr) returns (sched: Schedule, s': State)
    requires At3(s, t, u, w, 3, CollectCas(x), CollectLoad, PopNext(x)) && s.coll == x != NULL && x in s.heap
    ensures Exec(s, sched) == Some(s') && w < |s'.threads| && s'.threads[w].pc == PopNext(x) && x !in s'.heap
  {
    var s1 := Step(s, t, GO);
    var s2 := Step(s1, t, GO);
    s' := Step(s2, t, GO);
    Fire(s, t, GO, Gos(t, 2));
    Fire(s1, t, GO, Gos(t, 1));
    Fire(s2, t, GO, Gos(t, 0));
    sched := Gos(t, 3);
  }

  /** Wherever a thread alone in its guard is about to check the count with an address that is not in use any more, and
      two others are idle, issuing that address lets the run go on to a reader at a deleted node. */
  lemma ReissueCanBreak(s: State, t: nat, u: nat, w: nat, x: Addr, value: Value) returns (sched: Schedule)
    requires At3(s, t, u, w, 1, CollectCheck(x), Idle, Idle) && x != NULL && x !in s.heap
    ensures sched != [] && sched[0] == (u, BeginPush(value, x, NULL)) && !AddressWithheld(s, sched[0].1)
    ensures Exec(s, sched).Some? && !Safe(Exec(s, sched).value)
  {
    hide Exec;
    hide Step;
    var more, s';
    sched, s' := Reissue(s, t, u, w, x, value);
    var s1 := s';
    more, s' := PassThenRead(s1, t, u, w, x);
    ExecAppend(s, sched, more);
    sched := sched + more;
    var s2 := s';
    more, s' := PopIt(s2, t, u, w, x);
    ExecAppend(s, sched, more);
    sched := sched + more;
    var s3 := s';
    more, s' := RetireIt(s3, t, u, w, x);
    ExecAppend(s, sched, more);
    sched := sched + more;
    var s4 := s';
    more, s' := DeleteIt(s4, t, u, w, x);
    ExecAppend(s, sched, more);
    sched := sched + more;
    assert Touches(s'.threads[w].pc) == Some(x);
    assert Carries(s.threads[t].pc, x);
  }

  lemma {:induction false} GosPush(t: nat, n: nat)
    ensures forall i :: 0 <= i < |Gos(t, n)| ==> !Gos(t, n)[i].1.BeginPush?
  {
    if n > 0 { GosPush(t, n - 1); }
  }

  /** Only a push can break the assumption. */
  lemma {:induction false} OnlyFirstPushes(s: State, sched: Schedule)
    requires sched != [] ==> AddressWithheld(s, sched[0].1)
    requires forall i :: 0 < i < |sched| ==> !sched[i].1.BeginPush?
    ensures Withheld(s, sched)
    decreases |sched|
  {
    if sched != [] && Enabled(s, sched[0].0, sched[0].1) {
      var rest := sched[1..];
      assert forall i :: 0 <= i < |rest| ==> rest[i] == sched[i + 1];
      OnlyFirstPushes(Step(s, sched[0].0, sched[0].1), rest);
    }
  }

  lemma BeforeIsWithheld(sched: Schedule)
    requires sched == PUSH7 + POP7 + RETIRE7 + DELAY + DELETE7
    ensures Withheld(S0, sched)
  {
    GosPush(1, 2);
    GosPush(1, 3);
    GosPush(1, 5);
    GosPush(0, 2);
    GosPush(1, 4);
    hide Gos;
    OnlyFirstPushes(S0, sched);
  }

  /** Thread 0 carries an address that was deleted meanwhile. */
  lemma DelayedBehindDelete() returns (sched: Schedule)
    ensures Exec(S0, sched) == Some(S4) && Withheld(S0, sched)
  {
    Nothing(S0);
    hide Exec;
    hide Step;
    hide Gos;
    sched := [];
    AfterPush(); ExecAppend(S0, sched, PUSH7); sched := sched + PUSH7;
    AfterPop(); ExecAppend(S0, sched, POP7); sched := sched + POP7;
    AfterRetire(); ExecAppend(S0, sched, RETIRE7); sched := sched + RETIRE7;
    AfterDelay(); ExecAppend(S0, sched, DELAY); sched := sched + DELAY;
    AfterDelete(); ExecAppend(S0, sched, DELETE7); sched := sched + DELETE7;
    assert sched == PUSH7 + POP7 + RETIRE7 + DELAY + DELETE7;
    BeforeIsWithheld(sched);
  }

  /** The run keeps the assumption up to one push, and ends with a freed node about to be read. */
  ghost predicate Breaks(before: Schedule, sched: Schedule)
  {
    && Withheld(S0, before) && Exec(S0, before).Some? && before < sched
    && !AddressWithheld(Exec(S0, before).value, sched[|before|].1)
    && Exec(S0, sched).Some? && !Safe(Exec(S0, sched).value)
  }

  /** There is such a state, and so such a run from the start. */
  lemma ReissueBreaksReclamation()
    ensures Init(S0) && exists before, sched :: Breaks(before, sched)
  {
    hide Exec;
    hide Step;
    hide Withheld;
    var before := DelayedBehindDelete();
    var more := ReissueCanBreak(S4, 0, 1, 2, N, 8);
    hide AddressWithheld;
    ExecAppend(S0, before, more);
    assert Breaks(before, before + more);
  }
}
