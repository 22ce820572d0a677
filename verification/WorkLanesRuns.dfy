/**
  What the lanes do for the caller of run_parallel, told from the calls made: what the span is when a call
  has returned, and that every call returns.
*/
module WorkLanesRuns {
  import opened Options
  import opened Chunks
  import opened WorkLanes
  import opened WorkLanesProofs

  // ---------------------------------------------------------------- what was asked for

  /** The arguments of one call of run_parallel. */
  datatype Request = Request(fn: int -> int, data: seq<int>, pieces: nat)

  /** The last call of run_parallel in a schedule. */
  function LastRequest(sched: Schedule): Option<Request>
  {
    if sched == [] then None
    else
      var later := LastRequest(sched[1..]);
      if later.Some? then later
      else
        match sched[0].1
        case Begin(fn, data, pieces) => Some(Request(fn, data, pieces))
        case _ => None
  }

  ghost predicate Serves(job: Job, r: Request)
  {
    job.fn == r.fn && job.orig == r.data && |job.status| == r.pieces
  }

  lemma StepServes(s: State, t: nat, a: Action)
    requires Enabled(s, t, a)
    ensures var job, job' := s.job, Step(s, t, a).job;
      match a
      case Begin(fn, data, pieces) => Serves(job', Request(fn, data, pieces))
      case _ => job'.fn == job.fn && job'.orig == job.orig && |job'.status| == |job.status|
  {
  }

  /** The job is that of the last call. */
  lemma {:induction false} JobServes(s: State, sched: Schedule, s': State)
    requires Reaches(s, sched, s')
    ensures match LastRequest(sched)
      case Some(r) => Serves(s'.job, r)
      case None => s'.job.fn == s.job.fn && s'.job.orig == s.job.orig && |s'.job.status| == |s.job.status|
    decreases |sched|
  {
    hide Step;
    if sched != [] {
      StepServes(s, sched[0].0, sched[0].1);
      JobServes(Step(s, sched[0].0, sched[0].1), sched[1..], s');
    }
  }

  // ---------------------------------------------------------------- the result

  /** The span is the image of what it was, and each piece was called once. */
  ghost predicate Mapped(job: Job)
  {
    && |job.data| == |job.orig| && (forall x :: 0 <= x < |job.data| ==> job.data[x] == job.fn(job.orig[x]))
    && (forall k :: 0 <= k < |job.status| ==> k in job.calls)
    && (forall i, j :: 0 <= i < j < |job.calls| ==> job.calls[i] != job.calls[j])
    && (forall i :: 0 <= i < |job.calls| ==> job.calls[i] < |job.status|)
  }

  lemma FinishedIsMapped(s: State)
    requires Inv(s) && s.main.WaitFor? && s.buffer[s.main.parent].unresolved == 0
    ensures Mapped(s.job)
  {
    AllOver(s);
    forall x | 0 <= x < |s.job.data| ensures s.job.data[x] == s.job.fn(s.job.orig[x]) {
      var k := PieceOf(|s.job.orig|, |s.job.status|, x);
      PiecesTile(|s.job.orig|, |s.job.status|, x, k);
      assert ElementOk(s.job, s.threads, k, x);
    }
  }

  /** Outside of run_parallel, the last call has left its span mapped. */
  ghost predicate OutMapped(s: State)
  {
    s.main.Out? ==> Mapped(s.job)
  }

  lemma StepKeepsMapped(s: State, t: nat, a: Action)
    requires Inv(s) && OutMapped(s) && Enabled(s, t, a)
    ensures OutMapped(Step(s, t, a))
  {
    if a.Return? {
      FinishedIsMapped(s);
    } else if s.main.Out? {
      assert a.Begin?;
    }
  }

  lemma {:induction false} RunKeepsMapped(s: State, sched: Schedule, s': State)
    requires Inv(s) && OutMapped(s) && Reaches(s, sched, s')
    ensures OutMapped(s')
    decreases |sched|
  {
    hide Inv;
    hide OutMapped;
    hide Step;
    if sched != [] {
      StepKeepsMapped(s, sched[0].0, sched[0].1);
      InvStep(s, sched[0].0, sched[0].1);
      RunKeepsMapped(Step(s, sched[0].0, sched[0].1), sched[1..], s');
    }
  }

  /** What a call of run_parallel was asked for is done: the span is the image of the one given, under the function given,
      and each of the pieces asked for was called once. */
  ghost predicate Delivered(job: Job, r: Request)
  {
    && |job.data| == |r.data| && (forall x :: 0 <= x < |r.data| ==> job.data[x] == r.fn(r.data[x]))
    && (forall k :: k in job.calls <==> 0 <= k < r.pieces)
    && (forall i, j :: 0 <= i < j < |job.calls| ==> job.calls[i] != job.calls[j])
  }

  /** Whenever the main thread is outside of run_parallel, or may return from it, the last call has delivered; nothing is
      queued, and no thread holds a task. */
  lemma ReturnMeansMapped(s0: State, sched: Schedule, s: State)
    requires Init(s0) && Reaches(s0, sched, s) && (s.main.Out? || Enabled(s, 0, Return)) && LastRequest(sched).Some?
    ensures Delivered(s.job, LastRequest(sched).value) && Quiet(s)
  {
    ReachedInv(s0, sched, s);
    InitInv(s0);
    JobServes(s0, sched, s);
    RunKeepsMapped(s0, sched, s);
    hide Reaches;
    if !s.main.Out? {
      FinishedIsMapped(s);
      AllOver(s);
    }
    hide Inv;
  }

  /** A call of up to 8190 pieces may be made whenever the main thread is outside of run_parallel, and no slot behind the
      8192 of the task buffer is ever handed out or held. */
  lemma CallsFit(s0: State, sched: Schedule, s: State, a: Action)
    requires Init(s0) && Reaches(s0, sched, s) && a.Begin?
    ensures |s.buffer| == 8192 && s.index < 8192
    ensures Enabled(s, 0, a) <==> s.main.Out? && 0 < a.pieces <= 8190
    ensures forall t :: 0 <= t < |s.threads| && s.threads[t].Running? ==> s.threads[t].slot <= s.index
    ensures forall l, i :: 0 <= l < |s.lanes| && 0 <= i < |s.lanes[l]| ==> s.lanes[l][i] <= s.index
  {
    ReachedInv(s0, sched, s);
    InvShape(s);
    forall t | 0 <= t < |s.threads| && s.threads[t].Running? ensures s.threads[t].slot <= s.index {
      RunningAt(s, t);
      var k := PieceAt(s.main.parent, s.threads[t].slot);
      assert s.main.Pushing? ==> k < s.main.i;
    }
    forall l, i | 0 <= l < |s.lanes| && 0 <= i < |s.lanes[l]| ensures s.lanes[l][i] <= s.index {
      OnlyMainLane(s, l);
      MainLane(s);
      LaneAt(s.main.parent, s.job, s.lanes[0], i);
    }
  }

  // ---------------------------------------------------------------- every call returns

  /** How much is left to do for a piece. */
  ghost function PieceWeight(job: Job, threads: seq<Thread>, k: nat): nat
    requires k < |job.status|
  {
    var lo, hi := Lo(|job.orig|, |job.status|, k), Hi(|job.orig|, |job.status|, k);
    var length := if lo <= hi then hi - lo else 0;
    match job.status[k]
    case Unpushed => length + 3
    case Waiting => length + 2
    case Taken(t) => if t < |threads| && threads[t].Running? && threads[t].at <= hi then hi - threads[t].at + 1 else 0
    case Finished => 0
  }

  function Total(weights: seq<nat>): nat
  {
    if weights == [] then 0 else weights[0] + Total(weights[1..])
  }

  ghost function Weights(job: Job, threads: seq<Thread>): seq<nat>
  {
    seq(|job.status|, k requires 0 <= k < |job.status| => PieceWeight(job, threads, k))
  }

  ghost function Weight(s: State): nat
  {
    match s.main
    case Out => 0
    case WaitFor(_) => 1 + Total(Weights(s.job, s.threads))
    case Pushing(_, _, _) => 2 + Total(Weights(s.job, s.threads))
  }

  lemma {:induction false} LessTotal(u: seq<nat>, v: seq<nat>, k: nat)
    requires |u| == |v| && k < |u| && u[k] < v[k] && forall j :: 0 <= j < |u| && j != k ==> u[j] == v[j]
    ensures Total(u) < Total(v)
  {
    if k == 0 {
      assert u[1..] == v[1..];
    } else {
      LessTotal(u[1..], v[1..], k - 1);
    }
  }

  /** One piece comes closer, and the others stay as they are. */
  lemma OnePieceLess(job: Job, threads: seq<Thread>, job': Job, threads': seq<Thread>, k: nat)
    requires |job'.status| == |job.status| && k < |job.status|
    requires PieceWeight(job', threads', k) < PieceWeight(job, threads, k)
    requires forall j :: 0 <= j < |job.status| && j != k ==> PieceWeight(job', threads', j) == PieceWeight(job, threads, j)
    ensures Total(Weights(job', threads')) < Total(Weights(job, threads))
  {
    LessTotal(Weights(job', threads'), Weights(job, threads), k);
  }

  lemma PushIsCloser(s: State)
    requires Inv(s) && Enabled(s, 0, PushTask)
    ensures Weight(Step(s, 0, PushTask)) < Weight(s)
  {
    assert s.job.status[s.main.i].Unpushed?;
    hide Inv;
    OnePieceLess(s.job, s.threads, Step(s, 0, PushTask).job, s.threads, s.main.i);
  }

  /** Only thread t and piece k change, and no other piece is with t. */
  ghost predicate OnlyPiece(job: Job, threads: seq<Thread>, job': Job, threads': seq<Thread>, t: nat, k: nat)
  {
    && |job'.status| == |job.status| && |job'.orig| == |job.orig| && |threads'| == |threads|
    && (forall j :: 0 <= j < |job.status| && j != k ==> job'.status[j] == job.status[j] && job.status[j] != Taken(t))
    && (forall u :: 0 <= u < |threads| && u != t ==> threads'[u] == threads[u])
  }

  lemma OnePieceCloser(job: Job, threads: seq<Thread>, job': Job, threads': seq<Thread>, t: nat, k: nat)
    requires OnlyPiece(job, threads, job', threads', t, k) && k < |job.status|
    requires PieceWeight(job', threads', k) < PieceWeight(job, threads, k)
    ensures Total(Weights(job', threads')) < Total(Weights(job, threads))
  {
    hide Lo;
    hide Hi;
    hide Total;
    hide Weights;
    OnePieceLess(job, threads, job', threads', k);
  }

  lemma TakeIsCloser(s: State, t: nat, slot: nat)
    requires Inv(s) && !s.main.Out? && t < |s.threads| && s.threads[t].Idle?
    requires Current(s.main.parent, s.job, slot) && s.job.status[PieceAt(s.main.parent, slot)].Waiting?
    ensures var s' := Call(s, t, slot);
      Total(Weights(s'.job, s'.threads)) < Total(Weights(s.job, s.threads))
  {
    hide Inv;
    hide Total;
    hide Weights;
    var s', k := Call(s, t, slot), PieceAt(s.main.parent, slot);
    PieceFacts(s, slot);
    OthersAreElsewhere(s, t);
    hide Lo;
    hide Hi;
    OnePieceCloser(s.job, s.threads, s'.job, s'.threads, t, k);
  }

  /** The slot of a piece says where the piece lies. */
  lemma PieceFacts(s: State, slot: nat)
    requires Inv(s) && !s.main.Out? && Current(s.main.parent, s.job, slot)
    requires !s.job.status[PieceAt(s.main.parent, slot)].Unpushed?
    ensures var k, task := PieceAt(s.main.parent, slot), Get(s.buffer, slot);
      task.lo == Lo(|s.job.orig|, |s.job.status|, k) <= task.hi == Hi(|s.job.orig|, |s.job.status|, k)
  {
    var k := PieceAt(s.main.parent, slot);
    SlotOf(s.main.parent, Pushed(s.main, |s.job.status|), s.job, s.buffer, k);
    PieceBounds(|s.job.orig|, |s.job.status|, k);
  }

  /** A piece that was taken by t is the one that t runs. */
  lemma OthersAreElsewhere(s: State, t: nat)
    requires Inv(s) && !s.main.Out?
    ensures forall j :: 0 <= j < |s.job.status| && s.job.status[j] == Taken(t) ==>
      t < |s.threads| && s.threads[t].Running? && PieceAt(s.main.parent, s.threads[t].slot) == j
  {
    forall j | 0 <= j < |s.job.status| && s.job.status[j] == Taken(t)
      ensures t < |s.threads| && s.threads[t].Running? && PieceAt(s.main.parent, s.threads[t].slot) == j
    {
      assert Flies(s.main.parent, s.job, s.threads, t, j);
    }
  }

  lemma RunIsCloser(s: State, t: nat, a: Action)
    requires Inv(s) && Enabled(s, t, a) && (a.Element? || a.Resolve?)
    ensures Weight(Step(s, t, a)) < Weight(s)
  {
    hide Inv;
    hide Total;
    hide Weights;
    RunningAt(s, t);
    OthersAreElsewhere(s, t);
    hide Lo;
    hide Hi;
    var s', k := Step(s, t, a), PieceAt(s.main.parent, s.threads[t].slot);
    OnePieceCloser(s.job, s.threads, s'.job, s'.threads, t, k);
  }

  /** Every step but a call of run_parallel is one step closer to the return. */
  lemma StepIsCloser(s: State, t: nat, a: Action)
    requires Inv(s) && Enabled(s, t, a) && !a.Begin?
    ensures Weight(Step(s, t, a)) < Weight(s)
  {
    match a
    case PushTask => PushIsCloser(s);
    case StartWait =>
    case PopOwn =>
      OnlyMainLane(s, t);
      MainLane(s);
      var lane := s.lanes[0];
      LaneAt(s.main.parent, s.job, lane, |lane| - 1);
      TakeIsCloser(s, t, lane[|lane| - 1]);
    case StealFrom(v) =>
      OnlyMainLane(s, v);
      MainLane(s);
      var lane := s.lanes[0];
      LaneAt(s.main.parent, s.job, lane, 0);
      TakeIsCloser(s, t, lane[0]);
    case Element => RunIsCloser(s, t, a);
    case Resolve => RunIsCloser(s, t, a);
    case Return =>
  }

  /** However the threads are scheduled, without a further call there are only so many steps. */
  lemma {:induction false} RunsEnd(s: State, sched: Schedule, s': State)
    requires Inv(s) && Reaches(s, sched, s') && LastRequest(sched).None?
    ensures |sched| + Weight(s') <= Weight(s)
    decreases |sched|
  {
    hide Inv;
    hide Weight;
    hide Step;
    if sched != [] {
      var (t, a) := sched[0];
      StepIsCloser(s, t, a);
      InvStep(s, t, a);
      RunsEnd(Step(s, t, a), sched[1..], s');
    }
  }

  /** The main thread has no step left, and no thread that runs a task can go on. */
  ghost predicate Exhausted(s: State)
  {
    && !Enabled(s, 0, PushTask) && !Enabled(s, 0, StartWait) && !Enabled(s, 0, PopOwn) && !Enabled(s, 0, Return)
    && forall t: nat :: !Enabled(s, t, Element) && !Enabled(s, t, Resolve)
  }

  /** The steps end only when run_parallel has returned, even if no other thread steals. */
  lemma ExhaustedMeansOut(s: State)
    requires Inv(s) && Exhausted(s)
    ensures s.main.Out?
  {
    hide Inv;
    InvShape(s);
    if s.main.WaitFor? {
      forall t | 0 <= t < |s.threads| ensures s.threads[t].Idle? {
        assert !Enabled(s, t, Element) && !Enabled(s, t, Resolve);
      }
      assert s.lanes[0] == [];
      NobodyLeft(s);
    }
  }

  lemma NobodyLeft(s: State)
    requires Inv(s) && s.main.WaitFor? && s.lanes[0] == [] && forall t :: 0 <= t < |s.threads| ==> s.threads[t].Idle?
    ensures s.main.parent < |s.buffer| && s.buffer[s.main.parent].unresolved == 0
  {
    forall k | 0 <= k < |s.job.status| ensures s.job.status[k].Finished? {
      NotWaiting(s.main.parent, s.job, s.lanes[0], k);
      NotTaken(s.main.parent, s.job, s.threads, k);
    }
    AllFinished(s.job.status);
  }

  lemma NotWaiting(parent: nat, job: Job, lane: seq<nat>, k: nat)
    requires LaneOk(parent, job, lane) && lane == [] && k < |job.status|
    ensures !job.status[k].Waiting?
  {
    assert !InLane(lane, parent + 1 + k);
  }

  lemma NotTaken(parent: nat, job: Job, threads: seq<Thread>, k: nat)
    requires ThreadsOk(parent, job, threads) && k < |job.status| && forall t :: 0 <= t < |threads| ==> threads[t].Idle?
    ensures !job.status[k].Taken?
  {
    assert forall t :: !Flies(parent, job, threads, t, k);
  }

  lemma {:induction false} AllFinished(status: seq<Status>)
    requires forall k :: 0 <= k < |status| ==> status[k].Finished?
    ensures Unfinished(status) == 0
  {
    if status != [] { AllFinished(status[1..]); }
  }

  /** The run can go on until then. */
  lemma {:induction false} GoesOn(s: State) returns (more: Schedule, s': State)
    requires Inv(s)
    ensures Reaches(s, more, s') && LastRequest(more).None? && s'.main.Out?
    decreases Weight(s)
  {
    hide Inv;
    hide Step;
    hide Weight;
    more, s' := [], s;
    if Exhausted(s) {
      ExhaustedMeansOut(s);
    } else {
      var t, a := NextChoice(s);
      StepIsCloser(s, t, a);
      InvStep(s, t, a);
      more, s' := GoesOn(Step(s, t, a));
      assert ([(t, a)] + more)[1..] == more;
      more := [(t, a)] + more;
    }
  }

  lemma NextChoice(s: State) returns (t: nat, a: Action)
    requires !Exhausted(s)
    ensures Enabled(s, t, a) && !a.Begin?
  {
    if u: nat :| Enabled(s, u, Element) || Enabled(s, u, Resolve) {
      t := u;
      a := if Enabled(s, u, Element) then Element else Resolve;
    } else {
      t := 0;
      a := if Enabled(s, 0, PushTask) then PushTask
           else if Enabled(s, 0, StartWait) then StartWait
           else if Enabled(s, 0, PopOwn) then PopOwn else Return;
    }
  }

  /** No deadlock: from every state that is reached, the call under way can return, within a bound. */
  lemma CanReturn(s0: State, sched: Schedule, s: State) returns (more: Schedule, s': State)
    requires Init(s0) && Reaches(s0, sched, s)
    ensures Reaches(s, more, s') && LastRequest(more).None? && s'.main.Out? && |more| <= Weight(s)
  {
    ReachedInv(s0, sched, s);
    more, s' := GoesOn(s);
    RunsEnd(s, more, s');
  }

  /** And it does, whatever order the threads take and whoever steals: there are only so many steps, and when the main
      thread and the threads that run a task have none left, it has returned. */
  lemma EveryCallReturns(s0: State, sched: Schedule, s: State, more: Schedule, s': State)
    requires Init(s0) && Reaches(s0, sched, s) && Reaches(s, more, s') && LastRequest(more).None?
    ensures |more| <= Weight(s) && (Exhausted(s') ==> s'.main.Out?)
  {
    ReachedInv(s0, sched, s);
    RunsEnd(s, more, s');
    RunKeepsInv(s, more, s');
    hide Inv;
    if Exhausted(s') { ExhaustedMeansOut(s'); }
  }
}
