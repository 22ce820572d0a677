/** What the work-stealing lanes keep over every interleaving, and what run_parallel guarantees when it returns. */
module WorkLanesProofs {
  import opened Chunks
  import opened WorkLanes
  import R = LaneRing

  function Unfinished(status: seq<Status>): nat
  {
    if status == [] then 0 else (if status[0].Finished? then 0 else 1) + Unfinished(status[1..])
  }

  lemma {:induction false} UnfinishedUpdate(status: seq<Status>, k: nat, st: Status)
    requires k < |status|
    ensures Unfinished(status[k := st]) + (if status[k].Finished? then 0 else 1)
      == Unfinished(status) + (if st.Finished? then 0 else 1)
  {
    if k == 0 {
      assert status[0 := st][1..] == status[1..];
    } else {
      assert status[k := st][1..] == status[1..][k - 1 := st];
      UnfinishedUpdate(status[1..], k - 1, st);
    }
  }

  lemma {:induction false} UnfinishedIsZero(status: seq<Status>, k: nat)
    requires k < |status|
    ensures Unfinished(status) == 0 ==> status[k].Finished?
  {
    if k > 0 { UnfinishedIsZero(status[1..], k - 1); }
  }

  lemma {:induction false} AllUnpushed(n: nat)
    ensures Unfinished(seq(n, k => Unpushed)) == n
  {
    if n > 0 {
      assert seq(n, k => Unpushed)[1..] == seq(n - 1, k => Unpushed);
      AllUnpushed(n - 1);
    }
  }

  // ---------------------------------------------------------------- the invariant

  /** How many tasks of the current call have been pushed. */
  function Pushed(main: Main, pieces: nat): nat
  {
    if main.Pushing? then main.i else pieces
  }

  ghost predicate ShapeOk(s: State)
  {
    && |s.buffer| == BUFFER && |s.lanes| == |s.threads| > 0
    && (s.main.Out? ==> s.index == 0)
    && (!s.main.Out? ==>
          && |s.job.status| > 0 && Pushed(s.main, |s.job.status|) <= |s.job.status|
          && s.index == s.main.parent + Pushed(s.main, |s.job.status|)
          && 0 < s.main.parent && s.main.parent + |s.job.status| < BUFFER
          && (s.main.Pushing? ==> s.main.pieces == |s.job.status|))
    && (s.threads[0].Running? ==> s.main.WaitFor?)
  }

  predicate SlotOk(parent: nat, job: Job, buffer: seq<Task>, k: nat)
    requires |job.status| > 0
  {
    && parent + 1 + k < |buffer|
    && buffer[parent + 1 + k].parent == parent
    && buffer[parent + 1 + k].lo == Lo(|job.orig|, |job.status|, k)
    && buffer[parent + 1 + k].hi == Hi(|job.orig|, |job.status|, k)
  }

  /** The slots behind the parent hold the pieces pushed so far, and the parent counts those not over. */
  ghost predicate BufferOk(parent: nat, pushed: nat, job: Job, buffer: seq<Task>)
  {
    && |job.status| > 0 && |job.data| == |job.orig|
    && parent < |buffer| && buffer[parent].unresolved == Unfinished(job.status)
    && (forall k :: 0 <= k < |job.status| ==> (job.status[k].Unpushed? <==> k >= pushed))
    && (forall k :: 0 <= k < pushed ==> SlotOk(parent, job, buffer, k))
  }

  ghost predicate InLane(lane: seq<nat>, slot: nat)
  {
    exists i :: 0 <= i < |lane| && lane[i] == slot
  }

  predicate Current(parent: nat, job: Job, slot: nat)
  {
    parent < slot <= parent + |job.status|
  }

  /** The lane of the main thread holds each waiting task, once. */
  ghost predicate LaneOk(parent: nat, job: Job, lane: seq<nat>)
  {
    && (forall i :: 0 <= i < |lane| ==> Current(parent, job, lane[i]) && job.status[PieceAt(parent, lane[i])].Waiting?)
    && (forall i, j :: 0 <= i < j < |lane| ==> lane[i] != lane[j])
    && (forall k :: 0 <= k < |job.status| && job.status[k].Waiting? ==> InLane(lane, parent + 1 + k))
  }

  ghost predicate Flies(parent: nat, job: Job, threads: seq<Thread>, t: nat, k: nat)
  {
    t < |threads| && threads[t].Running? && threads[t].slot == parent + 1 + k
  }

  /** A task that was taken is with one thread. */
  ghost predicate ThreadsOk(parent: nat, job: Job, threads: seq<Thread>)
  {
    && |job.status| > 0
    && (forall t :: 0 <= t < |threads| && threads[t].Running? ==>
          && Current(parent, job, threads[t].slot) && job.status[PieceAt(parent, threads[t].slot)] == Taken(t)
          && threads[t].hi == Hi(|job.orig|, |job.status|, PieceAt(parent, threads[t].slot))
          && Lo(|job.orig|, |job.status|, PieceAt(parent, threads[t].slot)) <= threads[t].at <= threads[t].hi)
    && (forall k :: 0 <= k < |job.status| && job.status[k].Taken? ==> Flies(parent, job, threads, job.status[k].thread, k))
  }

  ghost function Progress(job: Job, threads: seq<Thread>, k: nat): nat
    requires k < |job.status|
  {
    match job.status[k]
    case Unpushed => Lo(|job.orig|, |job.status|, k)
    case Waiting => Lo(|job.orig|, |job.status|, k)
    case Taken(t) => if t < |threads| && threads[t].Running? then threads[t].at else 0
    case Finished => Hi(|job.orig|, |job.status|, k)
  }

  /** An element of piece k is mapped once the piece has come past it, and untouched before. */
  ghost predicate ElementOk(job: Job, threads: seq<Thread>, k: nat, x: nat)
    requires k < |job.status|
  {
    Lo(|job.orig|, |job.status|, k) <= x < Hi(|job.orig|, |job.status|, k) && x < |job.data| == |job.orig| ==>
      job.data[x] == if x < Progress(job, threads, k) then job.fn(job.orig[x]) else job.orig[x]
  }

  ghost predicate DataOk(job: Job, threads: seq<Thread>)
  {
    forall k: nat, x: nat :: k < |job.status| && x < |job.orig| ==> ElementOk(job, threads, k, x)
  }

  ghost predicate Called(st: Status)
  {
    st.Taken? || st.Finished?
  }

  /** Each piece that was taken was called once, and no other. */
  ghost predicate CallsOk(job: Job)
  {
    && (forall i, j :: 0 <= i < j < |job.calls| ==> job.calls[i] != job.calls[j])
    && (forall i :: 0 <= i < |job.calls| ==> job.calls[i] < |job.status| && Called(job.status[job.calls[i]]))
    && (forall k :: 0 <= k < |job.status| && Called(job.status[k]) ==> k in job.calls)
  }

  /** Between calls nothing is queued and nothing runs. */
  ghost predicate Quiet(s: State)
  {
    (forall l :: 0 <= l < |s.lanes| ==> s.lanes[l] == []) && (forall t :: 0 <= t < |s.threads| ==> s.threads[t].Idle?)
  }

  ghost predicate Busy(s: State)
    requires ShapeOk(s) && !s.main.Out?
  {
    && BufferOk(s.main.parent, Pushed(s.main, |s.job.status|), s.job, s.buffer)
    && LaneOk(s.main.parent, s.job, s.lanes[0]) && (forall l :: 0 < l < |s.lanes| ==> s.lanes[l] == [])
    && ThreadsOk(s.main.parent, s.job, s.threads) && DataOk(s.job, s.threads) && CallsOk(s.job)
  }

  ghost predicate Inv(s: State)
  {
    ShapeOk(s) && if s.main.Out? then Quiet(s) else Busy(s)
  }

  lemma InitInv(s: State)
    requires Init(s)
    ensures Inv(s)
  {
  }

  // ---------------------------------------------------------------- the main thread

  lemma BeginKeeps(s: State, a: Action)
    requires Inv(s) && Enabled(s, 0, a) && a.Begin?
    ensures Inv(Step(s, 0, a))
  {
    AllUnpushed(a.pieces);
  }

  lemma InLongerLane(lane: seq<nat>, slot: nat, more: nat)
    requires InLane(lane, slot) || slot == more
    ensures InLane(lane + [more], slot)
  {
    if slot == more {
      assert (lane + [more])[|lane|] == slot;
    } else {
      var j :| 0 <= j < |lane| && lane[j] == slot;
      assert (lane + [more])[j] == slot;
    }
  }

  lemma PushLane(parent: nat, job: Job, lane: seq<nat>, i: nat)
    requires LaneOk(parent, job, lane) && i < |job.status| && job.status[i].Unpushed?
    ensures LaneOk(parent, Mark(job, i, Waiting), lane + [parent + 1 + i])
  {
    hide InLane;
    var slot := parent + 1 + i;
    var lane', job' := lane + [slot], Mark(job, i, Waiting);
    forall j | 0 <= j < |lane| ensures lane[j] != slot { LaneAt(parent, job, lane, j); }
    forall k | 0 <= k < |job'.status| && job'.status[k].Waiting? ensures InLane(lane', parent + 1 + k) {
      assert k != i ==> InLane(lane, parent + 1 + k);
      InLongerLane(lane, parent + 1 + k, slot);
    }
  }

  /** A new status that is not about being taken. */
  lemma MarkOthers(parent: nat, job: Job, threads: seq<Thread>, i: nat, st: Status)
    requires ThreadsOk(parent, job, threads) && DataOk(job, threads) && CallsOk(job)
    requires i < |job.status| && job.status[i].Unpushed? && st.Waiting?
    ensures ThreadsOk(parent, Mark(job, i, st), threads) && DataOk(Mark(job, i, st), threads)
    ensures CallsOk(Mark(job, i, st))
  {
    var job' := Mark(job, i, st);
    forall k: nat, x: nat | k < |job'.status| && x < |job'.orig| ensures ElementOk(job', threads, k, x) {
      assert ElementOk(job, threads, k, x);
    }
    forall k | 0 <= k < |job'.status| && job'.status[k].Taken? ensures Flies(parent, job', threads, job'.status[k].thread, k) {
      assert Flies(parent, job, threads, job.status[k].thread, k);
    }
  }

  lemma PushBuffer(parent: nat, job: Job, buffer: seq<Task>, i: nat, task: Task)
    requires BufferOk(parent, i, job, buffer) && i < |job.status| && parent + 1 + i < |buffer|
    requires task.parent == parent && task.lo == Lo(|job.orig|, |job.status|, i)
    requires task.hi == Hi(|job.orig|, |job.status|, i)
    ensures BufferOk(parent, i + 1, Mark(job, i, Waiting), buffer[parent + 1 + i := task])
  {
    UnfinishedUpdate(job.status, i, Waiting);
    var job', buffer' := Mark(job, i, Waiting), buffer[parent + 1 + i := task];
    forall k | 0 <= k < i + 1 ensures SlotOk(parent, job', buffer', k) {
      assert k < i ==> SlotOk(parent, job, buffer, k);
    }
  }

  lemma PushKeeps(s: State)
    requires Inv(s) && Enabled(s, 0, PushTask)
    ensures Inv(Step(s, 0, PushTask))
  {
    var s', i, parent := Step(s, 0, PushTask), s.main.i, s.main.parent;
    var task := Get(s.buffer, s.index + 1).(lo := Lo(|s.job.data|, s.main.pieces, i), hi := Hi(|s.job.data|, s.main.pieces, i), parent := parent);
    PushBuffer(parent, s.job, s.buffer, i, task);
    PushLane(parent, s.job, s.lanes[0], i);
    MarkOthers(parent, s.job, s.threads, i, Waiting);
  }

  lemma StartWaitKeeps(s: State)
    requires Inv(s) && Enabled(s, 0, StartWait)
    ensures Inv(Step(s, 0, StartWait))
  {
  }

  // ---------------------------------------------------------------- pop and steal

  ghost function Take(job: Job, k: nat, t: nat): Job
  {
    Mark(job, k, Taken(t)).(calls := job.calls + [k])
  }

  function Drop(lane: seq<nat>, i: nat): seq<nat>
    requires i < |lane|
  {
    lane[..i] + lane[i + 1..]
  }

  lemma DropAt(lane: seq<nat>, i: nat)
    requires i < |lane|
    ensures |Drop(lane, i)| == |lane| - 1
    ensures forall j :: 0 <= j < |lane| - 1 ==> Drop(lane, i)[j] == lane[if j < i then j else j + 1]
  {
  }

  lemma LaneAt(parent: nat, job: Job, lane: seq<nat>, i: nat)
    requires LaneOk(parent, job, lane) && i < |lane|
    ensures Current(parent, job, lane[i]) && job.status[PieceAt(parent, lane[i])].Waiting?
    ensures forall j :: 0 <= j < |lane| && j != i ==> lane[j] != lane[i]
  {
  }

  lemma StillInLane(lane: seq<nat>, i: nat, slot: nat)
    requires i < |lane| && InLane(lane, slot) && slot != lane[i]
    ensures InLane(Drop(lane, i), slot)
  {
    DropAt(lane, i);
    var j :| 0 <= j < |lane| && lane[j] == slot;
    assert Drop(lane, i)[if j < i then j else j - 1] == slot;
  }

  /** The lane without the task at place i, which may be any of its ends. */
  lemma TakeEntries(parent: nat, job: Job, lane: seq<nat>, i: nat, t: nat)
    requires LaneOk(parent, job, lane) && i < |lane|
    ensures var lane', job' := Drop(lane, i), Take(job, PieceAt(parent, lane[i]), t);
      && (forall j :: 0 <= j < |lane'| ==> Current(parent, job', lane'[j]) && job'.status[PieceAt(parent, lane'[j])].Waiting?)
      && (forall j, l :: 0 <= j < l < |lane'| ==> lane'[j] != lane'[l])
  {
    var lane', job' := Drop(lane, i), Take(job, PieceAt(parent, lane[i]), t);
    LaneAt(parent, job, lane, i);
    DropAt(lane, i);
    hide Drop;
    hide LaneOk;
    forall j | 0 <= j < |lane'| ensures Current(parent, job', lane'[j]) && job'.status[PieceAt(parent, lane'[j])].Waiting? {
      LaneAt(parent, job, lane, if j < i then j else j + 1);
    }
    forall j, l | 0 <= j < l < |lane'| ensures lane'[j] != lane'[l] {
      LaneAt(parent, job, lane, if j < i then j else j + 1);
    }
  }

  lemma TakeLane(parent: nat, job: Job, lane: seq<nat>, i: nat, t: nat)
    requires LaneOk(parent, job, lane) && i < |lane|
    ensures LaneOk(parent, Take(job, PieceAt(parent, lane[i]), t), Drop(lane, i))
  {
    var lane', job' := Drop(lane, i), Take(job, PieceAt(parent, lane[i]), t);
    LaneAt(parent, job, lane, i);
    TakeEntries(parent, job, lane, i, t);
    hide Drop;
    hide InLane;
    forall k | 0 <= k < |job'.status| && job'.status[k].Waiting? ensures InLane(lane', parent + 1 + k) {
      assert InLane(lane, parent + 1 + k);
      StillInLane(lane, i, parent + 1 + k);
    }
  }

  lemma TakeThreads(parent: nat, job: Job, threads: seq<Thread>, slot: nat, t: nat, lo: nat, hi: nat)
    requires ThreadsOk(parent, job, threads) && t < |threads| && threads[t].Idle?
    requires Current(parent, job, slot) && job.status[PieceAt(parent, slot)].Waiting?
    requires lo == Lo(|job.orig|, |job.status|, PieceAt(parent, slot))
    requires hi == Hi(|job.orig|, |job.status|, PieceAt(parent, slot))
    ensures ThreadsOk(parent, Take(job, PieceAt(parent, slot), t), threads[t := Running(slot, lo, hi)])
  {
    var job', threads' := Take(job, PieceAt(parent, slot), t), threads[t := Running(slot, lo, hi)];
    PieceBounds(|job.orig|, |job.status|, PieceAt(parent, slot));
    forall k | 0 <= k < |job'.status| && job'.status[k].Taken? ensures Flies(parent, job', threads', job'.status[k].thread, k) {
      if k != PieceAt(parent, slot) { assert Flies(parent, job, threads, job.status[k].thread, k); }
    }
  }

  lemma TakeData(parent: nat, job: Job, threads: seq<Thread>, slot: nat, t: nat, hi: nat)
    requires ThreadsOk(parent, job, threads) && DataOk(job, threads) && t < |threads| && threads[t].Idle?
    requires Current(parent, job, slot) && job.status[PieceAt(parent, slot)].Waiting?
    ensures DataOk(Take(job, PieceAt(parent, slot), t), threads[t := Running(slot, Lo(|job.orig|, |job.status|, PieceAt(parent, slot)), hi)])
  {
    var p := PieceAt(parent, slot);
    var job', threads' := Take(job, p, t), threads[t := Running(slot, Lo(|job.orig|, |job.status|, p), hi)];
    forall k: nat, x: nat | k < |job'.status| && x < |job'.orig| ensures ElementOk(job', threads', k, x) {
      assert ElementOk(job, threads, k, x);
      if k != p && job.status[k].Taken? { assert Flies(parent, job, threads, job.status[k].thread, k); }
    }
  }

  lemma TakeCalls(job: Job, k: nat, t: nat)
    requires CallsOk(job) && k < |job.status| && job.status[k].Waiting?
    ensures CallsOk(Take(job, k, t))
  {
    var job' := Take(job, k, t);
    forall j | 0 <= j < |job'.status| && Called(job'.status[j]) ensures j in job'.calls {
      if j == k { assert job'.calls[|job.calls|] == k; } else { assert j in job.calls; }
    }
  }

  lemma TakeBuffer(parent: nat, pushed: nat, job: Job, buffer: seq<Task>, k: nat, t: nat)
    requires BufferOk(parent, pushed, job, buffer) && k < |job.status| && job.status[k].Waiting?
    ensures BufferOk(parent, pushed, Take(job, k, t), buffer) && SlotOk(parent, job, buffer, k)
  {
    UnfinishedUpdate(job.status, k, Taken(t));
    var job' := Take(job, k, t);
    forall j | 0 <= j < pushed ensures SlotOk(parent, job', buffer, j) {
      assert SlotOk(parent, job, buffer, j);
    }
  }

  /** Thread t takes the task at place i of the main thread's lane. */
  ghost function TakeAt(s: State, t: nat, i: nat): State
    requires ShapeOk(s) && t < |s.threads| && i < |s.lanes[0]|
  {
    Call(s.(lanes := s.lanes[0 := Drop(s.lanes[0], i)]), t, s.lanes[0][i])
  }

  lemma TakeKeeps(s: State, t: nat, i: nat)
    requires Inv(s) && t < |s.threads| && s.threads[t].Idle? && (t == 0 ==> s.main.WaitFor?) && i < |s.lanes[0]|
    ensures Inv(TakeAt(s, t, i))
  {
    hide LaneOk;
    hide ThreadsOk;
    hide DataOk;
    hide CallsOk;
    hide BufferOk;
    hide Drop;
    var parent, slot := s.main.parent, s.lanes[0][i];
    var k := PieceAt(parent, slot);
    LaneAt(parent, s.job, s.lanes[0], i);
    TakeBuffer(parent, Pushed(s.main, |s.job.status|), s.job, s.buffer, k, t);
    TakeLane(parent, s.job, s.lanes[0], i, t);
    TakeThreads(parent, s.job, s.threads, slot, t, Get(s.buffer, slot).lo, Get(s.buffer, slot).hi);
    TakeData(parent, s.job, s.threads, slot, t, Get(s.buffer, slot).hi);
    TakeCalls(s.job, k, t);
  }

  lemma OnlyMainLane(s: State, l: nat)
    requires Inv(s) && l < |s.lanes| && s.lanes[l] != []
    ensures l == 0 && !s.main.Out?
  {
  }

  lemma PopKeeps(s: State, t: nat)
    requires Inv(s) && Enabled(s, t, PopOwn)
    ensures Inv(Step(s, t, PopOwn))
  {
    hide Inv;
    OnlyMainLane(s, t);
    InvShape(s);
    var lane := s.lanes[0];
    TakeKeeps(s, t, |lane| - 1);
    assert Drop(lane, |lane| - 1) == lane[..|lane| - 1];
  }

  lemma StealKeeps(s: State, t: nat, v: nat)
    requires Inv(s) && Enabled(s, t, StealFrom(v))
    ensures Inv(Step(s, t, StealFrom(v)))
  {
    hide Inv;
    OnlyMainLane(s, v);
    InvShape(s);
    var lane := s.lanes[0];
    TakeKeeps(s, t, 0);
    assert Drop(lane, 0) == lane[1..];
  }

  lemma InvShape(s: State)
    requires Inv(s)
    ensures ShapeOk(s)
  {
  }

  // ---------------------------------------------------------------- a task runs

  lemma RunningAt(s: State, t: nat)
    requires Inv(s) && t < |s.threads| && s.threads[t].Running?
    ensures !s.main.Out? && Current(s.main.parent, s.job, s.threads[t].slot)
    ensures var k := PieceAt(s.main.parent, s.threads[t].slot);
      && k < |s.job.status| && s.job.status[k] == Taken(t) && |s.job.data| == |s.job.orig|
      && Lo(|s.job.orig|, |s.job.status|, k) <= s.threads[t].at <= s.threads[t].hi == Hi(|s.job.orig|, |s.job.status|, k) <= |s.job.orig|
  {
    PieceBounds(|s.job.orig|, |s.job.status|, PieceAt(s.main.parent, s.threads[t].slot));
  }

  lemma ElementThreads(parent: nat, job: Job, threads: seq<Thread>, t: nat, data: seq<int>)
    requires ThreadsOk(parent, job, threads) && t < |threads| && threads[t].Running? && threads[t].at < threads[t].hi
    ensures ThreadsOk(parent, job.(data := data), threads[t := threads[t].(at := threads[t].at + 1)])
  {
    var job', threads' := job.(data := data), threads[t := threads[t].(at := threads[t].at + 1)];
    forall k | 0 <= k < |job'.status| && job'.status[k].Taken? ensures Flies(parent, job', threads', job'.status[k].thread, k) {
      assert Flies(parent, job, threads, job.status[k].thread, k);
    }
  }

  /** One element of one piece changes; the pieces of all other tasks lie elsewhere. */
  lemma ElementData(parent: nat, job: Job, threads: seq<Thread>, t: nat)
    requires ThreadsOk(parent, job, threads) && DataOk(job, threads) && t < |threads|
    requires threads[t].Running? && threads[t].at < threads[t].hi <= |job.orig| == |job.data|
    ensures DataOk(job.(data := job.data[threads[t].at := job.fn(job.data[threads[t].at])]), threads[t := threads[t].(at := threads[t].at + 1)])
  {
    var r := threads[t];
    var job', threads' := job.(data := job.data[r.at := job.fn(job.data[r.at])]), threads[t := r.(at := r.at + 1)];
    var p := PieceAt(parent, r.slot);
    PiecesTile(|job.orig|, |job.status|, r.at, p);
    forall k: nat, x: nat | k < |job'.status| && x < |job'.orig| ensures ElementOk(job', threads', k, x) {
      assert ElementOk(job, threads, k, x);
      if x == r.at { PiecesTile(|job.orig|, |job.status|, x, k); }
      if job.status[k].Taken? { assert Flies(parent, job, threads, job.status[k].thread, k); }
    }
  }

  lemma SameStatus(parent: nat, pushed: nat, job: Job, buffer: seq<Task>, lane: seq<nat>, data: seq<int>)
    requires BufferOk(parent, pushed, job, buffer) && LaneOk(parent, job, lane) && CallsOk(job) && |data| == |job.data|
    ensures BufferOk(parent, pushed, job.(data := data), buffer) && LaneOk(parent, job.(data := data), lane)
    ensures CallsOk(job.(data := data))
  {
    forall k | 0 <= k < pushed ensures SlotOk(parent, job.(data := data), buffer, k) {
      assert SlotOk(parent, job, buffer, k);
    }
  }

  lemma ElementKeeps(s: State, t: nat)
    requires Inv(s) && Enabled(s, t, Element)
    ensures Inv(Step(s, t, Element))
  {
    hide LaneOk;
    hide ThreadsOk;
    hide DataOk;
    hide CallsOk;
    hide BufferOk;
    RunningAt(s, t);
    var r, parent := s.threads[t], s.main.parent;
    var data := s.job.data[r.at := s.job.fn(s.job.data[r.at])];
    ElementThreads(parent, s.job, s.threads, t, data);
    ElementData(parent, s.job, s.threads, t);
    SameStatus(parent, Pushed(s.main, |s.job.status|), s.job, s.buffer, s.lanes[0], data);
  }

  // ---------------------------------------------------------------- a task is over

  lemma ResolveBuffer(parent: nat, pushed: nat, job: Job, buffer: seq<Task>, k: nat)
    requires BufferOk(parent, pushed, job, buffer) && k < |job.status| && job.status[k].Taken?
    ensures buffer[parent].unresolved > 0
    ensures BufferOk(parent, pushed, Mark(job, k, Finished), buffer[parent := buffer[parent].(unresolved := buffer[parent].unresolved - 1)])
  {
    UnfinishedIsZero(job.status, k);
    UnfinishedUpdate(job.status, k, Finished);
    var job', buffer' := Mark(job, k, Finished), buffer[parent := buffer[parent].(unresolved := buffer[parent].unresolved - 1)];
    forall j | 0 <= j < pushed ensures SlotOk(parent, job', buffer', j) {
      assert SlotOk(parent, job, buffer, j);
    }
  }

  lemma ResolveThreads(parent: nat, job: Job, threads: seq<Thread>, t: nat)
    requires ThreadsOk(parent, job, threads) && t < |threads| && threads[t].Running?
    ensures ThreadsOk(parent, Mark(job, PieceAt(parent, threads[t].slot), Finished), threads[t := Idle])
  {
    var job', threads' := Mark(job, PieceAt(parent, threads[t].slot), Finished), threads[t := Idle];
    forall k | 0 <= k < |job'.status| && job'.status[k].Taken? ensures Flies(parent, job', threads', job'.status[k].thread, k) {
      assert Flies(parent, job, threads, job.status[k].thread, k);
    }
  }

  lemma ResolveData(parent: nat, job: Job, threads: seq<Thread>, t: nat)
    requires ThreadsOk(parent, job, threads) && DataOk(job, threads) && t < |threads| && threads[t].Running?
    requires threads[t].at >= threads[t].hi
    ensures DataOk(Mark(job, PieceAt(parent, threads[t].slot), Finished), threads[t := Idle])
  {
    var p := PieceAt(parent, threads[t].slot);
    var job', threads' := Mark(job, p, Finished), threads[t := Idle];
    forall k: nat, x: nat | k < |job'.status| && x < |job'.orig| ensures ElementOk(job', threads', k, x) {
      assert ElementOk(job, threads, k, x);
      if job.status[k].Taken? { assert Flies(parent, job, threads, job.status[k].thread, k); }
    }
  }

  lemma ResolveLane(parent: nat, job: Job, lane: seq<nat>, k: nat)
    requires LaneOk(parent, job, lane) && CallsOk(job) && k < |job.status| && job.status[k].Taken?
    ensures LaneOk(parent, Mark(job, k, Finished), lane) && CallsOk(Mark(job, k, Finished))
  {
  }

  lemma ResolveKeeps(s: State, t: nat)
    requires Inv(s) && Enabled(s, t, Resolve)
    ensures Inv(Step(s, t, Resolve))
  {
    hide LaneOk;
    hide ThreadsOk;
    hide DataOk;
    hide CallsOk;
    hide BufferOk;
    RunningAt(s, t);
    var slot, parent := s.threads[t].slot, s.main.parent;
    var k := PieceAt(parent, slot);
    SlotOf(parent, Pushed(s.main, |s.job.status|), s.job, s.buffer, k);
    ResolveBuffer(parent, Pushed(s.main, |s.job.status|), s.job, s.buffer, k);
    ResolveThreads(parent, s.job, s.threads, t);
    ResolveData(parent, s.job, s.threads, t);
    ResolveLane(parent, s.job, s.lanes[0], k);
  }

  lemma SlotOf(parent: nat, pushed: nat, job: Job, buffer: seq<Task>, k: nat)
    requires BufferOk(parent, pushed, job, buffer) && k < |job.status| && !job.status[k].Unpushed?
    ensures SlotOk(parent, job, buffer, k)
  {
  }

  // ---------------------------------------------------------------- run_parallel returns

  lemma EmptyLane(parent: nat, job: Job, lane: seq<nat>)
    requires LaneOk(parent, job, lane) && forall k :: 0 <= k < |job.status| ==> job.status[k].Finished?
    ensures lane == []
  {
    assert lane != [] ==> Current(parent, job, lane[0]);
  }

  /** When the counter of the parent is zero, each piece is over and nothing refers to the buffer any more. */
  lemma AllOver(s: State)
    requires Inv(s) && s.main.WaitFor? && s.buffer[s.main.parent].unresolved == 0
    ensures Quiet(s) && forall k :: 0 <= k < |s.job.status| ==> s.job.status[k].Finished?
  {
    forall k | 0 <= k < |s.job.status| ensures s.job.status[k].Finished? {
      UnfinishedIsZero(s.job.status, k);
    }
    EmptyLane(s.main.parent, s.job, s.lanes[0]);
    forall t | 0 <= t < |s.threads| ensures s.threads[t].Idle? {
      if s.threads[t].Running? { RunningAt(s, t); }
    }
  }

  /** Every step of every thread keeps the invariant. */
  lemma InvStep(s: State, t: nat, a: Action)
    requires Inv(s) && Enabled(s, t, a)
    ensures Inv(Step(s, t, a))
  {
    hide Inv;
    match a
    case Begin(_, _, _) => BeginKeeps(s, a);
    case PushTask => PushKeeps(s);
    case StartWait => StartWaitKeeps(s);
    case PopOwn => PopKeeps(s, t);
    case StealFrom(v) => StealKeeps(s, t, v);
    case Element => ElementKeeps(s, t);
    case Resolve => ResolveKeeps(s, t);
    case Return => ReturnKeeps(s);
  }

  lemma ReturnKeeps(s: State)
    requires Inv(s) && Enabled(s, 0, Return)
    ensures Inv(Step(s, 0, Return))
  {
    AllOver(s);
  }

  // ---------------------------------------------------------------- over whole runs

  type Schedule = seq<(nat, Action)>

  ghost predicate Reaches(s: State, sched: Schedule, s': State)
    decreases |sched|
  {
    if sched == [] then s' == s
    else Enabled(s, sched[0].0, sched[0].1) && Reaches(Step(s, sched[0].0, sched[0].1), sched[1..], s')
  }

  lemma {:induction false} RunKeepsInv(s: State, sched: Schedule, s': State)
    requires Inv(s) && Reaches(s, sched, s')
    ensures Inv(s')
    decreases |sched|
  {
    if sched != [] {
      InvStep(s, sched[0].0, sched[0].1);
      RunKeepsInv(Step(s, sched[0].0, sched[0].1), sched[1..], s');
    }
  }

  lemma ReachedInv(s0: State, sched: Schedule, s: State)
    requires Init(s0) && Reaches(s0, sched, s)
    ensures Inv(s)
  {
    InitInv(s0);
    hide Inv;
    hide Init;
    RunKeepsInv(s0, sched, s);
  }

  /** Place i of lane l holds the slot. */
  predicate Entry(lanes: seq<seq<nat>>, l: nat, i: nat, slot: nat)
  {
    l < |lanes| && i < |lanes[l]| && lanes[l][i] == slot
  }

  ghost predicate InNoLane(lanes: seq<seq<nat>>, slot: nat)
  {
    forall l, i :: !Entry(lanes, l, i, slot)
  }

  /** The slot lies in lane 0 at i, and nowhere else. */
  ghost predicate OnlyAt(lanes: seq<seq<nat>>, i: nat, slot: nat)
  {
    forall l, j :: Entry(lanes, l, j, slot) <==> l == 0 && j == i
  }

  ghost predicate WithNobody(parent: nat, job: Job, threads: seq<Thread>, k: nat)
  {
    forall u :: !Flies(parent, job, threads, u, k)
  }

  ghost predicate OnlyWith(parent: nat, job: Job, threads: seq<Thread>, t: nat, k: nat)
  {
    forall u :: Flies(parent, job, threads, u, k) <==> u == t
  }

  /** No task is lost or in two places: a pushed piece is in one place of one lane, or with one thread, or over; and it
      was called exactly if it has left the lanes. */
  lemma NoTaskLost(s0: State, sched: Schedule, s: State, k: nat)
    requires Init(s0) && Reaches(s0, sched, s) && !s.main.Out? && k < |s.job.status|
    ensures var parent := s.main.parent; var slot := parent + 1 + k;
      match s.job.status[k]
      case Unpushed =>
        s.main.Pushing? && k >= s.main.i && InNoLane(s.lanes, slot) && WithNobody(parent, s.job, s.threads, k) && k !in s.job.calls
      case Waiting =>
        (exists i :: OnlyAt(s.lanes, i, slot)) && WithNobody(parent, s.job, s.threads, k) && k !in s.job.calls
      case Taken(t) =>
        InNoLane(s.lanes, slot) && OnlyWith(parent, s.job, s.threads, t, k) && k in s.job.calls
      case Finished =>
        InNoLane(s.lanes, slot) && WithNobody(parent, s.job, s.threads, k) && k in s.job.calls
  {
    ReachedInv(s0, sched, s);
    PlaceInLanes(s, k);
    PlaceWithThreads(s, k);
    PlaceInCalls(s, k);
    hide Inv;
    hide Reaches;
    hide Init;
    hide OnlyAt;
    hide InNoLane;
    hide OnlyWith;
    hide WithNobody;
  }

  lemma OneEntry(lanes: seq<seq<nat>>, i: nat, slot: nat)
    requires |lanes| > 0 && (forall l :: 0 < l < |lanes| ==> lanes[l] == []) && i < |lanes[0]| && lanes[0][i] == slot
    requires forall j :: 0 <= j < |lanes[0]| && j != i ==> lanes[0][j] != slot
    ensures OnlyAt(lanes, i, slot)
  {
  }

  lemma NoEntry(lanes: seq<seq<nat>>, slot: nat)
    requires |lanes| > 0 && (forall l :: 0 < l < |lanes| ==> lanes[l] == [])
    requires forall j :: 0 <= j < |lanes[0]| ==> lanes[0][j] != slot
    ensures InNoLane(lanes, slot)
  {
  }

  lemma PlaceInLanes(s: State, k: nat)
    requires Inv(s) && !s.main.Out? && k < |s.job.status|
    ensures var slot := s.main.parent + 1 + k;
      if s.job.status[k].Waiting? then exists i :: OnlyAt(s.lanes, i, slot) else InNoLane(s.lanes, slot)
  {
    hide OnlyAt;
    hide InNoLane;
    hide Inv;
    hide LaneOk;
    MainLane(s);
    var parent, lane := s.main.parent, s.lanes[0];
    var slot := parent + 1 + k;
    if s.job.status[k].Waiting? {
      var i := EntryOf(parent, s.job, lane, k);
      LaneAt(parent, s.job, lane, i);
      OneEntry(s.lanes, i, slot);
    } else {
      forall j | 0 <= j < |lane| ensures lane[j] != slot { LaneAt(parent, s.job, lane, j); }
      NoEntry(s.lanes, slot);
    }
  }

  lemma MainLane(s: State)
    requires Inv(s) && !s.main.Out?
    ensures |s.lanes| > 0 && LaneOk(s.main.parent, s.job, s.lanes[0]) && forall l :: 0 < l < |s.lanes| ==> s.lanes[l] == []
  {
  }

  lemma EntryOf(parent: nat, job: Job, lane: seq<nat>, k: nat) returns (i: nat)
    requires LaneOk(parent, job, lane) && k < |job.status| && job.status[k].Waiting?
    ensures i < |lane| && lane[i] == parent + 1 + k
  {
    assert InLane(lane, parent + 1 + k);
    i :| i < |lane| && lane[i] == parent + 1 + k;
  }

  lemma PlaceWithThreads(s: State, k: nat)
    requires Inv(s) && !s.main.Out? && k < |s.job.status|
    ensures var st := s.job.status[k];
      if st.Taken? then OnlyWith(s.main.parent, s.job, s.threads, st.thread, k)
      else WithNobody(s.main.parent, s.job, s.threads, k)
  {
    hide LaneOk;
    hide BufferOk;
    hide CallsOk;
    hide DataOk;
  }

  lemma PlaceInCalls(s: State, k: nat)
    requires Inv(s) && !s.main.Out? && k < |s.job.status|
    ensures s.job.status[k].Unpushed? ==> s.main.Pushing? && k >= s.main.i
    ensures k in s.job.calls <==> Called(s.job.status[k])
  {
    hide LaneOk;
    hide ThreadsOk;
    hide DataOk;
  }

  /** What the lanes and the threads hold are pieces of the call under way. */
  lemma OnlyThisCall(s0: State, sched: Schedule, s: State)
    requires Init(s0) && Reaches(s0, sched, s)
    ensures if s.main.Out? then Quiet(s) else
      && (forall l, i :: 0 <= l < |s.lanes| && 0 <= i < |s.lanes[l]| ==> Current(s.main.parent, s.job, s.lanes[l][i]))
      && (forall t :: 0 <= t < |s.threads| && s.threads[t].Running? ==> Current(s.main.parent, s.job, s.threads[t].slot))
  {
    ReachedInv(s0, sched, s);
    if !s.main.Out? {
      forall l, i | 0 <= l < |s.lanes| && 0 <= i < |s.lanes[l]| ensures Current(s.main.parent, s.job, s.lanes[l][i]) {
        OnlyMainLane(s, l);
      }
    }
  }

  predicate InRange(s: seq<nat>, lo: nat, n: nat, i: nat)
  {
    i < |s| ==> lo < s[i] <= lo + n
  }

  lemma {:induction false} DistinctBounded(s: seq<nat>, lo: nat, n: nat)
    requires (forall i: nat :: InRange(s, lo, n, i)) && forall i, j :: 0 <= i < j < |s| ==> s[i] != s[j]
    ensures |s| <= n
    decreases n
  {
    if n == 0 {
      assert InRange(s, lo, n, 0);
    } else {
      var m := n - 1;
      if i: nat :| i < |s| && s[i] == lo + n {
        var rest := Drop(s, i);
        DropAt(s, i);
        hide Drop;
        forall j: nat ensures InRange(rest, lo, m, j) {
          assert InRange(s, lo, n, if j < i then j else j + 1);
        }
        DistinctBounded(rest, lo, m);
      } else {
        forall j: nat ensures InRange(s, lo, m, j) {
          assert InRange(s, lo, n, j);
        }
        DistinctBounded(s, lo, m);
      }
    }
  }

  /** A lane never holds more tasks than its ring has slots, so that it is the deque it is taken for. */
  lemma WithinRing(s0: State, sched: Schedule, s: State, l: nat)
    requires Init(s0) && Reaches(s0, sched, s) && l < |s.lanes|
    ensures |s.lanes[l]| < R.CAPACITY
  {
    ReachedInv(s0, sched, s);
    LaneFits(s, l);
  }

  lemma LaneFits(s: State, l: nat)
    requires Inv(s) && l < |s.lanes|
    ensures |s.lanes[l]| < R.CAPACITY
  {
    if s.lanes[l] != [] {
      OnlyMainLane(s, l);
      forall i: nat ensures InRange(s.lanes[0], s.main.parent, |s.job.status|, i) {
        if i < |s.lanes[0]| { LaneAt(s.main.parent, s.job, s.lanes[0], i); }
      }
      DistinctBounded(s.lanes[0], s.main.parent, |s.job.status|);
    }
  }
}
