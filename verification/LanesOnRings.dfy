/**
  The executor on its real lanes: every lane is a ring of 8192 slots under two 64-bit counters, and push,
  pop and steal read and write slots and counters.  Over every run it does what the executor of
  WorkLanes does on deques, so that what WorkLanesProofs says of runs holds of it.
*/
module LanesOnRings {
  import opened WorkLanes
  import opened WorkLanesProofs
  import T = WorkLanesRuns
  import opened LaneRing

  /** All of the state of WorkLanes but its lanes, which are in the rings. */
  datatype RingState = RingState(rings: seq<RingLane>, rest: State)

  ghost predicate Enabled(s: RingState, t: nat, a: Action)
  {
    && t < |s.rest.threads| && t < |s.rings|
    && match a
       case PopOwn =>
         s.rest.threads[t].Idle? && (t == 0 ==> s.rest.main.WaitFor?) && s.rings[t].back != s.rings[t].front
       case StealFrom(v) =>
         && s.rest.threads[t].Idle? && (t == 0 ==> s.rest.main.WaitFor?) && v != t && v < |s.rings|
         && s.rings[v].back != s.rings[v].front
       case _ => WorkLanes.Enabled(s.rest.(lanes := seq(|s.rings|, l => [])), t, a)
  }

  /** No step reads the lanes of `rest`. */
  ghost function Step(s: RingState, t: nat, a: Action): (s': RingState)
    requires Sized(s.rings) && Enabled(s, t, a)
    ensures Sized(s'.rings)
  {
    match a
    case PopOwn =>
      var ring := s.rings[t];
      s.(rings := s.rings[t := ring.(back := Last(ring))], rest := Call(s.rest, t, TaskAt(ring, Last(ring))))
    case StealFrom(v) =>
      var ring := s.rings[v];
      s.(rings := s.rings[v := ring.(front := (ring.front + 1) % WORD)], rest := Call(s.rest, t, TaskAt(ring, ring.front)))
    case PushTask =>
      s.(rings := s.rings[0 := PushBack(s.rings[0], s.rest.index + 1)],
         rest := WorkLanes.Step(s.rest.(lanes := seq(|s.rings|, l => [])), t, a))
    case _ =>
      s.(rest := WorkLanes.Step(s.rest.(lanes := seq(|s.rings|, l => [])), t, a))
  }

  ghost predicate Sized(rings: seq<RingLane>)
  {
    forall l :: 0 <= l < |rings| ==> |rings[l].slots| == CAPACITY
  }

  ghost predicate RingsOk(rings: seq<RingLane>)
  {
    forall l :: 0 <= l < |rings| ==> RingOk(rings[l])
  }

  ghost function Deques(rings: seq<RingLane>): seq<seq<nat>>
    requires RingsOk(rings)
  {
    seq(|rings|, l requires 0 <= l < |rings| && RingOk(rings[l]) => Tasks(rings[l]))
  }

  /** The state of WorkLanes that a state stands for. */
  ghost function Abs(s: RingState): State
    requires RingsOk(s.rings)
  {
    s.rest.(lanes := Deques(s.rings))
  }

  lemma DequesUpdate(rings: seq<RingLane>, l: nat, r: RingLane)
    requires l < |rings| && RingOk(r) && RingsOk(rings)
    ensures RingsOk(rings[l := r])
    ensures Deques(rings[l := r]) == Deques(rings)[l := Tasks(r)]
  {
  }

  /** A choice is possible on the rings exactly when it is on the deques. */
  lemma SameChoices(s: RingState, t: nat, a: Action)
    requires RingsOk(s.rings)
    ensures Enabled(s, t, a) <==> WorkLanes.Enabled(Abs(s), t, a)
  {
    match a
    case PopOwn => if t < |s.rings| { PopTasks(s.rings[t]); }
    case StealFrom(v) => if v < |s.rings| { StealTasks(s.rings[v]); }
    case _ =>
  }

  lemma TakeRefines(s: RingState, t: nat, a: Action)
    requires RingsOk(s.rings) && Enabled(s, t, a) && (a.PopOwn? || a.StealFrom?)
    ensures RingsOk(Step(s, t, a).rings) && WorkLanes.Enabled(Abs(s), t, a) && Abs(Step(s, t, a)) == WorkLanes.Step(Abs(s), t, a)
  {
    assert Sized(s.rings);
    hide RingOk;
    hide Tasks;
    hide Ring;
    SameChoices(s, t, a);
    var l := if a.PopOwn? then t else a.victim;
    var ring := s.rings[l];
    PopTasks(ring);
    StealTasks(ring);
    DequesUpdate(s.rings, l, Step(s, t, a).rings[l]);
  }

  lemma PushRefines(s: RingState)
    requires RingsOk(s.rings) && Enabled(s, 0, PushTask) && |Abs(s).lanes[0]| < CAPACITY
    ensures RingsOk(Step(s, 0, PushTask).rings) && WorkLanes.Enabled(Abs(s), 0, PushTask)
    ensures Abs(Step(s, 0, PushTask)) == WorkLanes.Step(Abs(s), 0, PushTask)
  {
    var ring := s.rings[0];
    PushTasks(ring, s.rest.index + 1);
    RingFirst(ring.slots, ring.front, Held(ring.front, ring.back));
    hide RingOk;
    hide Tasks;
    DequesUpdate(s.rings, 0, PushBack(ring, s.rest.index + 1));
  }

  /** A step that leaves the lanes alone. */
  lemma OtherRefines(s: RingState, t: nat, a: Action)
    requires RingsOk(s.rings) && Enabled(s, t, a) && !a.PopOwn? && !a.StealFrom? && !a.PushTask?
    ensures RingsOk(Step(s, t, a).rings) && WorkLanes.Enabled(Abs(s), t, a) && Abs(Step(s, t, a)) == WorkLanes.Step(Abs(s), t, a)
  {
    assert Sized(s.rings);
    hide RingOk;
    hide Tasks;
    hide Put;
    hide Get;
    hide Mark;
  }

  lemma StepRefines(s: RingState, t: nat, a: Action)
    requires RingsOk(s.rings) && Inv(Abs(s)) && Enabled(s, t, a)
    ensures RingsOk(Step(s, t, a).rings) && WorkLanes.Enabled(Abs(s), t, a) && Abs(Step(s, t, a)) == WorkLanes.Step(Abs(s), t, a)
  {
    hide Inv;
    hide Tasks;
    if a.PopOwn? || a.StealFrom? {
      TakeRefines(s, t, a);
    } else if a.PushTask? {
      LaneFits(Abs(s), 0);
      PushRefines(s);
    } else {
      OtherRefines(s, t, a);
    }
  }

  // ---------------------------------------------------------------- over whole runs

  ghost predicate Init(s: RingState)
  {
    && WorkLanes.Init(s.rest.(lanes := seq(|s.rings|, l => [])))
    && Sized(s.rings) && forall l :: 0 <= l < |s.rings| ==> s.rings[l].front == s.rings[l].back == 0
  }

  ghost predicate Reaches(s: RingState, sched: Schedule, s': RingState)
    requires Sized(s.rings)
    decreases |sched|
  {
    if sched == [] then s' == s
    else Enabled(s, sched[0].0, sched[0].1) && Reaches(Step(s, sched[0].0, sched[0].1), sched[1..], s')
  }

  lemma {:induction false} RunRefines(s: RingState, sched: Schedule, s': RingState)
    requires RingsOk(s.rings) && Inv(Abs(s)) && Reaches(s, sched, s')
    ensures RingsOk(s'.rings) && Inv(Abs(s')) && WorkLanesProofs.Reaches(Abs(s), sched, Abs(s'))
    decreases |sched|
  {
    hide Inv;
    hide Abs;
    if sched != [] {
      var (t, a) := sched[0];
      StepRefines(s, t, a);
      InvStep(Abs(s), t, a);
      RunRefines(Step(s, t, a), sched[1..], s');
    }
  }

  lemma InitAbs(s: RingState)
    requires Init(s)
    ensures RingsOk(s.rings) && WorkLanes.Init(Abs(s))
  {
  }

  /** Every run on the rings is a run on the deques, with the same choices. */
  lemma RingsAreDeques(s0: RingState, sched: Schedule, s: RingState)
    requires Init(s0) && Reaches(s0, sched, s)
    ensures RingsOk(s0.rings) && RingsOk(s.rings) && WorkLanes.Init(Abs(s0)) && WorkLanesProofs.Reaches(Abs(s0), sched, Abs(s))
  {
    InitAbs(s0);
    InitInv(Abs(s0));
    hide Inv;
    RunRefines(s0, sched, s);
  }

  /** The executor on rings delivers: outside of run_parallel, or when it may return, the span is the image of the one given
      to the last call under the function given to it, and each of its pieces was called once. */
  lemma RingsDeliver(s0: RingState, sched: Schedule, s: RingState)
    requires Init(s0) && Reaches(s0, sched, s) && (s.rest.main.Out? || Enabled(s, 0, Return)) && T.LastRequest(sched).Some?
    ensures T.Delivered(s.rest.job, T.LastRequest(sched).value)
  {
    RingsAreDeques(s0, sched, s);
    SameChoices(s, 0, Return);
    T.ReturnMeansMapped(Abs(s0), sched, Abs(s));
  }

  /** The main thread has no step left, and no thread that runs a task can go on. */
  ghost predicate Exhausted(s: RingState)
  {
    && !Enabled(s, 0, PushTask) && !Enabled(s, 0, StartWait) && !Enabled(s, 0, PopOwn) && !Enabled(s, 0, Return)
    && forall t: nat :: !Enabled(s, t, Element) && !Enabled(s, t, Resolve)
  }

  /** Every call returns: without a further call there are only so many steps, and they end when run_parallel has returned. */
  lemma RingsReturn(s0: RingState, sched: Schedule, s: RingState, more: Schedule, s': RingState)
    requires Init(s0) && Reaches(s0, sched, s) && RingsOk(s.rings) && Reaches(s, more, s') && T.LastRequest(more).None?
    ensures |more| <= T.Weight(Abs(s)) && (Exhausted(s') ==> s'.rest.main.Out?)
  {
    RingsAreDeques(s0, sched, s);
    ReachedInv(Abs(s0), sched, Abs(s));
    RunRefines(s, more, s');
    T.EveryCallReturns(Abs(s0), sched, Abs(s), more, Abs(s'));
    if Exhausted(s') { SameExhausted(s'); }
  }

  lemma SameExhausted(s: RingState)
    requires RingsOk(s.rings) && Exhausted(s)
    ensures T.Exhausted(Abs(s))
  {
    SameChoices(s, 0, PushTask);
    SameChoices(s, 0, StartWait);
    SameChoices(s, 0, PopOwn);
    SameChoices(s, 0, Return);
    forall t: nat ensures !WorkLanes.Enabled(Abs(s), t, Element) && !WorkLanes.Enabled(Abs(s), t, Resolve) {
      SameChoices(s, t, Element);
      SameChoices(s, t, Resolve);
    }
  }
}
