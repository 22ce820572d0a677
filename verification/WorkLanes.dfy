/**
  proto_e::executor of benchmarks/streaming_tasks.cpp as an interleaving step system: one lane per
  thread, tasks pushed by the main thread onto its own lane, popped there and stolen by the others.

  Thread 0 is the main thread, which calls run_parallel, one call at a time.  A lane is the deque that
  LaneRing proves the ring to be while it holds at most 8192 tasks.  Lanes hold pointers into the task
  buffer, which every call of run_parallel uses again from its start.
*/
module WorkLanes {
  import opened Chunks
  import R = LaneRing

  /** A slot of the task buffer. */
  datatype Task = Task(lo: nat, hi: nat, parent: nat, unresolved: nat)

  /** What a thread has in hand: the slot of its task, and how far the callback has come. */
  datatype Thread = Idle | Running(slot: nat, at: nat, hi: nat)

  /** Where the main thread is in run_parallel; i tasks have been pushed. */
  datatype Main = Out | Pushing(parent: nat, pieces: nat, i: nat) | WaitFor(parent: nat)

  /** History: what became of a piece of the current call. */
  datatype Status = Unpushed | Waiting | Taken(thread: nat) | Finished

  /** The call of run_parallel under way.  `orig`, `status` and `calls`, the pieces called so far, are history.  No step reads them. */
  datatype Job = Job(fn: int -> int, data: seq<int>, orig: seq<int>, status: seq<Status>, calls: seq<nat>)

  datatype State = State(lanes: seq<seq<nat>>, buffer: seq<Task>, index: nat, threads: seq<Thread>, main: Main, job: Job)

  datatype Action =
    | Begin(fn: int -> int, data: seq<int>, pieces: nat)
    | PushTask
    | StartWait
    | PopOwn
    | StealFrom(victim: nat)
    | Element
    | Resolve
    | Return

  const BUFFER: nat := 8192

  ghost predicate Init(s: State)
  {
    && s.main.Out? && s.index == 0 && |s.buffer| == BUFFER && |s.lanes| == |s.threads| > 0
    && (forall l :: 0 <= l < |s.lanes| ==> s.lanes[l] == []) && (forall t :: 0 <= t < |s.threads| ==> s.threads[t].Idle?)
    && s.job.data == [] && s.job.orig == [] && s.job.status == [] && s.job.calls == []
  }

  /** The buffer has no room for more than 8190 tasks and their parent; alloc does not test for that. */
  ghost predicate Enabled(s: State, t: nat, a: Action)
  {
    && t < |s.threads| && t < |s.lanes|
    && match a
       case Begin(_, _, pieces) => t == 0 && s.main.Out? && 0 < pieces && pieces + 1 < BUFFER
       case PushTask => t == 0 && s.main.Pushing? && s.main.i < s.main.pieces
       case StartWait => t == 0 && s.main.Pushing? && s.main.i >= s.main.pieces
       case PopOwn => s.threads[t].Idle? && (t == 0 ==> s.main.WaitFor?) && s.lanes[t] != []
       case StealFrom(v) => s.threads[t].Idle? && (t == 0 ==> s.main.WaitFor?) && v != t && v < |s.lanes| && s.lanes[v] != []
       case Element => s.threads[t].Running? && s.threads[t].at < s.threads[t].hi
       case Resolve => s.threads[t].Running? && s.threads[t].at >= s.threads[t].hi
       case Return => t == 0 && s.threads[0].Idle? && s.main.WaitFor? && s.main.parent < |s.buffer| && s.buffer[s.main.parent].unresolved == 0
  }

  function Get(buffer: seq<Task>, slot: nat): Task
  {
    if slot < |buffer| then buffer[slot] else Task(0, 0, 0, 0)
  }

  function Put(buffer: seq<Task>, slot: nat, task: Task): seq<Task>
  {
    if slot < |buffer| then buffer[slot := task] else buffer
  }

  /** The slot of the parent task. */
  function Parent(main: Main): nat
  {
    if main.Out? then 0 else main.parent
  }

  /** The piece that a slot behind the parent stands for. */
  function PieceAt(parent: nat, slot: nat): nat
  {
    if slot <= parent then 0 else slot - parent - 1
  }

  ghost function Mark(job: Job, k: nat, st: Status): Job
  {
    if k < |job.status| then job.(status := job.status[k := st]) else job
  }

  /** call: the span is read from the slot, and the callback begins. */
  ghost function Call(s: State, t: nat, slot: nat): State
    requires t < |s.threads|
  {
    var task, k := Get(s.buffer, slot), PieceAt(Parent(s.main), slot);
    s.(threads := s.threads[t := Running(slot, task.lo, task.hi)],
       job := Mark(s.job, k, Taken(t)).(calls := s.job.calls + [k]))
  }

  ghost function Step(s: State, t: nat, a: Action): State
    requires Enabled(s, t, a)
  {
    match a
    case Begin(fn, data, pieces) =>
      // alloc the parent
      var parent := s.index + 1;
      s.(index := parent, buffer := Put(s.buffer, parent, Get(s.buffer, parent).(unresolved := pieces)),
         main := Pushing(parent, pieces, 0),
         job := Job(fn, data, data, seq(pieces, k => Unpushed), []))
    case PushTask =>
      var i, child := s.main.i, s.index + 1;
      var task := Get(s.buffer, child).(lo := Lo(|s.job.data|, s.main.pieces, i), hi := Hi(|s.job.data|, s.main.pieces, i), parent := s.main.parent);
      s.(index := child, buffer := Put(s.buffer, child, task),
         lanes := s.lanes[0 := s.lanes[0] + [child]],
         main := s.main.(i := i + 1),
         job := Mark(s.job, i, Waiting))
    case StartWait =>
      s.(main := WaitFor(s.main.parent))
    case PopOwn =>
      var lane := s.lanes[t];
      Call(s.(lanes := s.lanes[t := lane[..|lane| - 1]]), t, lane[|lane| - 1])
    case StealFrom(v) =>
      var lane := s.lanes[v];
      Call(s.(lanes := s.lanes[v := lane[1..]]), t, lane[0])
    case Element =>
      var r := s.threads[t];
      if r.at >= |s.job.data| then s
      else s.(threads := s.threads[t := r.(at := r.at + 1)],
              job := s.job.(data := s.job.data[r.at := s.job.fn(s.job.data[r.at])]))
    case Resolve =>
      // --(parent->unresolved_children), by way of the slot
      var r := s.threads[t];
      var parent, k := Get(s.buffer, r.slot).parent, PieceAt(Parent(s.main), r.slot);
      var p := Get(s.buffer, parent);
      s.(threads := s.threads[t := Idle],
         buffer := Put(s.buffer, parent, p.(unresolved := if p.unresolved == 0 then 0 else p.unresolved - 1)),
         job := Mark(s.job, k, Finished))
    case Return =>
      // alloc_free on every lane
      s.(index := 0, main := Out)
  }
}
