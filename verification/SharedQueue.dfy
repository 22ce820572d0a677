/**
  proto_g of benchmarks/streaming_tasks.cpp as an interleaving step system: one queue of tasks,
  workers that pop the front task, and waiters that move the front task out but leave the emptied
  entry where it is.

  What happens under the mutex is one step.  A task runs element by element, so that tasks in
  flight interleave.  A task that was moved out holds no callback any more.
*/
module SharedQueue {
  import opened Chunks

  /** An entry of the task queue: piece k of batch `token`, for the elements lo to hi, or an entry that was moved out of. */
  datatype Entry = Work(token: nat, k: nat, lo: nat, hi: nat) | Husk

  datatype Thread = Idle | Running(token: nat, k: nat, at: nat, hi: nat)

  /** History: whether a piece was taken from the queue, and by whom, and whether it is over.  No step reads it. */
  datatype Status = Waiting | Taken(thread: nat) | Finished

  /** One call of push_parallel: the span it was given, the function for its elements, and the counter of its token. */
  datatype Batch = Batch(fn: int -> int, data: seq<int>, unresolved: nat, orig: seq<int>, status: seq<Status>)

  /** `calls` is history: the pieces that were invoked, in order.  No step reads it. */
  datatype State = State(queue: seq<Entry>, threads: seq<Thread>, batches: seq<Batch>, calls: seq<(nat, nat)>)

  datatype Action =
    | PushParallel(fn: int -> int, data: seq<int>, pieces: nat)
    | WorkerTake
    | WaiterTake
    | Element
    | Resolve

  // ---------------------------------------------------------------- the pieces of a span

  function Pieces(token: nat, n: nat, pieces: nat): seq<Entry>
    requires pieces > 0
  {
    seq(pieces, k requires 0 <= k < pieces => Work(token, k, Lo(n, pieces, k), Hi(n, pieces, k)))
  }

  /** The loop of push_parallel that cuts the span. */
  method Cut(token: nat, n: nat, jobDiv: nat) returns (tasks: seq<Entry>)
    requires jobDiv > 0
    ensures tasks == Pieces(token, n, jobDiv)
  {
    var stride, rem := n / jobDiv, n % jobDiv;
    tasks := [];
    for i := 0 to jobDiv
      invariant tasks == Pieces(token, n, jobDiv)[..i]
      invariant stride == n / jobDiv + if i == jobDiv then rem else 0
    {
      var offset := i * stride;
      PieceBounds(n, jobDiv, i);
      assert (i + 1) * (n / jobDiv) == i * (n / jobDiv) + n / jobDiv;
      if i == jobDiv - 1 {
        assert jobDiv * (n / jobDiv) + rem == n;
        stride := stride + rem;
      }
      tasks := tasks + [Work(token, i, offset, offset + stride)];
    }
  }

  // ---------------------------------------------------------------- the step system

  ghost predicate Init(s: State)
  {
    s.queue == [] && s.batches == [] && s.calls == [] && forall t :: 0 <= t < |s.threads| ==> s.threads[t] == Idle
  }

  ghost predicate Enabled(s: State, t: nat, a: Action)
  {
    && t < |s.threads|
    && match a
       case PushParallel(_, _, pieces) => pieces > 0
       case WorkerTake => s.threads[t].Idle? && s.queue != []
       case WaiterTake => s.threads[t].Idle? && s.queue != [] && s.queue[0].Work?
       case Element => s.threads[t].Running? && s.threads[t].at < s.threads[t].hi
       case Resolve => s.threads[t].Running? && s.threads[t].at >= s.threads[t].hi
  }

  /** Thread t has the task e in hand and calls it. */
  ghost function Invoke(s: State, t: nat, e: Entry): State
    requires t < |s.threads|
  {
    if e.Husk? || e.token >= |s.batches| || e.k >= |s.batches[e.token].status| then s
    else
      var b := s.batches[e.token];
      s.(threads := s.threads[t := Running(e.token, e.k, e.lo, e.hi)],
         batches := s.batches[e.token := b.(status := b.status[e.k := Taken(t)])],
         calls := s.calls + [(e.token, e.k)])
  }

  ghost function Step(s: State, t: nat, a: Action): State
    requires Enabled(s, t, a)
  {
    match a
    case PushParallel(fn, data, pieces) =>
      s.(queue := s.queue + Pieces(|s.batches|, |data|, pieces),
         batches := s.batches + [Batch(fn, data, pieces, data, seq(pieces, k => Waiting))])
    case WorkerTake =>
      Invoke(s.(queue := s.queue[1..]), t, s.queue[0])
    case WaiterTake =>
      Invoke(s.(queue := s.queue[0 := Husk]), t, s.queue[0])
    case Element =>
      var r := s.threads[t];
      if r.token >= |s.batches| || r.at >= |s.batches[r.token].data| then s
      else
        var b := s.batches[r.token];
        s.(threads := s.threads[t := r.(at := r.at + 1)],
           batches := s.batches[r.token := b.(data := b.data[r.at := b.fn(b.data[r.at])])])
    case Resolve =>
      var r := s.threads[t];
      if r.token >= |s.batches| || r.k >= |s.batches[r.token].status| || s.batches[r.token].unresolved == 0 then s
      else
        var b := s.batches[r.token];
        s.(threads := s.threads[t := Idle],
           batches := s.batches[r.token := b.(unresolved := b.unresolved - 1, status := b.status[r.k := Finished])])
  }

  /** tk.done (), which busy_wait_for waits for. */
  predicate Done(s: State, token: nat)
  {
    token < |s.batches| && s.batches[token].unresolved == 0
  }
}
