/**
  What the shared queue does for its callers, told from the calls they made: the results that a done token
  stands for, the order of the calls, and that everything pushed gets done.
*/
module SharedQueueRuns {
  import opened Chunks
  import opened SharedQueue
  import opened SharedQueueProofs

  // ---------------------------------------------------------------- what was asked for

  /** The arguments of one call of push_parallel. */
  datatype Request = Request(fn: int -> int, data: seq<int>, pieces: nat)

  /** The calls of push_parallel in a schedule, first one first. */
  function Requests(sched: Schedule): seq<Request>
  {
    if sched == [] then []
    else
      match sched[0].1
      case PushParallel(fn, data, pieces) => [Request(fn, data, pieces)] + Requests(sched[1..])
      case _ => Requests(sched[1..])
  }

  /** The batch has the arguments of the call. */
  ghost predicate Serves(b: Batch, r: Request)
  {
    b.fn == r.fn && b.orig == r.data && |b.status| == r.pieces
  }

  ghost predicate SameRequest(b: Batch, c: Batch)
  {
    b.fn == c.fn && b.orig == c.orig && |b.status| == |c.status|
  }

  lemma StepServes(s: State, t: nat, a: Action)
    requires Enabled(s, t, a)
    ensures var s' := Step(s, t, a);
      && |s'.batches| == |s.batches| + (if a.PushParallel? then 1 else 0)
      && (forall i :: 0 <= i < |s.batches| ==> SameRequest(s.batches[i], s'.batches[i]))
      && (a.PushParallel? ==> Serves(s'.batches[|s.batches|], Request(a.fn, a.data, a.pieces)))
  {
  }

  /** The batches are the calls made, in their order. */
  lemma {:induction false} BatchesServe(s: State, sched: Schedule, s': State)
    requires Reaches(s, sched, s')
    ensures |s'.batches| == |s.batches| + |Requests(sched)|
    ensures forall i :: 0 <= i < |s.batches| ==> SameRequest(s.batches[i], s'.batches[i])
    ensures forall j :: 0 <= j < |Requests(sched)| ==> Serves(s'.batches[|s.batches| + j], Requests(sched)[j])
    decreases |sched|
  {
    if sched != [] {
      var (t, a) := sched[0];
      var s1 := Step(s, t, a);
      StepServes(s, t, a);
      hide Step;
      BatchesServe(s1, sched[1..], s');
      forall j | 0 <= j < |Requests(sched)| ensures Serves(s'.batches[|s.batches| + j], Requests(sched)[j]) {
        if a.PushParallel? && j == 0 {
          assert SameRequest(s1.batches[|s.batches|], s'.batches[|s.batches|]);
        } else if a.PushParallel? {
          assert Requests(sched)[j] == Requests(sched[1..])[j - 1];
          assert Serves(s'.batches[|s1.batches| + (j - 1)], Requests(sched[1..])[j - 1]);
        }
      }
    }
  }

  /** The n-th token handed out is done only when the span given to the n-th call of push_parallel is the image of what it was
      under the function of that call, each of the pieces asked for was called, and none is queued or in flight. */
  lemma DoneMeansMapped(s0: State, sched: Schedule, s: State, n: nat)
    requires Init(s0) && Reaches(s0, sched, s) && Done(s, n)
    ensures n < |Requests(sched)|
    ensures var r := Requests(sched)[n]; var data := s.batches[n].data;
      && |data| == |r.data| && (forall x :: 0 <= x < |data| ==> data[x] == r.fn(r.data[x]))
      && (forall k :: 0 <= k < r.pieces ==> (n, k) in s.calls)
    ensures forall i :: 0 <= i < |s.queue| ==> s.queue[i].Work? ==> s.queue[i].token != n
    ensures forall t :: 0 <= t < |s.threads| ==> s.threads[t].Running? ==> s.threads[t].token != n
  {
    BatchesServe(s0, sched, s);
    assert Serves(s.batches[|s0.batches| + n], Requests(sched)[n]);
    DoneIsMapped(s0, sched, s, n);
    hide Reaches;
    hide Requests;
  }

  /** Until then each element is what it was, or its image. */
  lemma NothingElseWritten(s0: State, sched: Schedule, s: State, n: nat, x: nat)
    requires Init(s0) && Reaches(s0, sched, s) && n < |s.batches| && x < |s.batches[n].data|
    ensures n < |Requests(sched)|
    ensures var r := Requests(sched)[n];
      |s.batches[n].data| == |r.data| && (s.batches[n].data[x] == r.data[x] || s.batches[n].data[x] == r.fn(r.data[x]))
  {
    BatchesServe(s0, sched, s);
    assert Serves(s.batches[|s0.batches| + n], Requests(sched)[n]);
    ReachedInv(s0, sched, s);
    var b := s.batches[n];
    var k := PieceOf(|b.orig|, |b.status|, x);
    PiecesTile(|b.orig|, |b.status|, x, k);
    assert Piece(s, n, k) && ElementOk(s, n, k, x);
  }

  // ---------------------------------------------------------------- first in, first out

  /** The pieces that the queue still holds, front first. */
  function Names(queue: seq<Entry>): seq<(nat, nat)>
  {
    if queue == [] then []
    else Names(queue[..|queue| - 1]) + Name(queue[|queue| - 1])
  }

  function Name(e: Entry): seq<(nat, nat)>
  {
    if e.Work? then [(e.token, e.k)] else []
  }

  /** The pieces of one call. */
  function PiecesOf(token: nat, pieces: nat): seq<(nat, nat)>
  {
    seq(pieces, k => (token, k))
  }

  /** All pieces asked for, in the order of the calls. */
  function AllPieces(requests: seq<Request>, first: nat): seq<(nat, nat)>
  {
    if requests == [] then [] else PiecesOf(first, requests[0].pieces) + AllPieces(requests[1..], first + 1)
  }

  lemma {:induction false} NamesAppend(q: seq<Entry>, r: seq<Entry>)
    ensures Names(q + r) == Names(q) + Names(r)
  {
    if r == [] {
      assert q + r == q;
    } else {
      assert (q + r)[..|q + r| - 1] == q + r[..|r| - 1];
      NamesAppend(q, r[..|r| - 1]);
    }
  }

  lemma NamesFront(queue: seq<Entry>)
    requires queue != []
    ensures Names(queue) == Name(queue[0]) + Names(queue[1..])
    ensures Names(queue[0 := Husk]) == Names(queue[1..])
  {
    hide Names;
    assert queue == [queue[0]] + queue[1..] && queue[0 := Husk] == [Husk] + queue[1..];
    NamesAppend([queue[0]], queue[1..]);
    NamesAppend([Husk], queue[1..]);
    NamesOne(queue[0]);
    NamesOne(Husk);
  }

  lemma NamesOne(e: Entry)
    ensures Names([e]) == Name(e)
  {
    assert [e][..0] == [];
  }

  lemma {:induction false} NamesPieces(token: nat, n: nat, pieces: nat, j: nat)
    requires 0 < pieces && j <= pieces
    ensures Names(Pieces(token, n, pieces)[..j]) == PiecesOf(token, j)
  {
    if j > 0 {
      NamesPieces(token, n, pieces, j - 1);
      assert Pieces(token, n, pieces)[..j][..j - 1] == Pieces(token, n, pieces)[..j - 1];
    }
  }

  ghost function CalledAndQueued(s: State): seq<(nat, nat)>
  {
    s.calls + Names(s.queue)
  }

  lemma PushKeepsOrder(s: State, t: nat, a: Action)
    requires Enabled(s, t, a) && a.PushParallel?
    ensures CalledAndQueued(Step(s, t, a)) == CalledAndQueued(s) + PiecesOf(|s.batches|, a.pieces)
  {
    hide Names;
    hide PiecesOf;
    var more := Pieces(|s.batches|, |a.data|, a.pieces);
    NamesAppend(s.queue, more);
    NamesPieces(|s.batches|, |a.data|, a.pieces, a.pieces);
    assert more[..a.pieces] == more;
  }

  lemma TakeKeepsOrder(s: State, t: nat, a: Action)
    requires QueueOk(s) && Enabled(s, t, a) && (a.WorkerTake? || a.WaiterTake?)
    ensures CalledAndQueued(Step(s, t, a)) == CalledAndQueued(s)
  {
    hide Names;
    TakeCalls(s, t, a);
    NamesFront(s.queue);
    var e, rest := s.queue[0], Names(s.queue[1..]);
    assert (s.calls + Name(e)) + rest == s.calls + (Name(e) + rest);
  }

  lemma TakeCalls(s: State, t: nat, a: Action)
    requires QueueOk(s) && Enabled(s, t, a) && (a.WorkerTake? || a.WaiterTake?)
    ensures Step(s, t, a).calls == s.calls + Name(s.queue[0])
    ensures Step(s, t, a).queue == if a.WorkerTake? then s.queue[1..] else s.queue[0 := Husk]
  {
    if s.queue[0].Work? { FrontWaits(s); }
    hide QueueOk;
  }

  lemma StepKeepsOrder(s: State, t: nat, a: Action)
    requires Inv(s) && Enabled(s, t, a)
    ensures CalledAndQueued(Step(s, t, a)) ==
      CalledAndQueued(s) + if a.PushParallel? then PiecesOf(|s.batches|, a.pieces) else []
  {
    match a
    case PushParallel(_, _, _) => PushKeepsOrder(s, t, a);
    case WorkerTake => TakeKeepsOrder(s, t, a);
    case WaiterTake => TakeKeepsOrder(s, t, a);
    case _ =>
  }

  lemma AllPiecesFirst(sched: Schedule, first: nat)
    requires sched != []
    ensures var rest, a := Requests(sched[1..]), sched[0].1;
      AllPieces(Requests(sched), first) ==
        if a.PushParallel? then PiecesOf(first, a.pieces) + AllPieces(rest, first + 1) else AllPieces(rest, first)
  {
    assert sched[0].1.PushParallel? ==> Requests(sched)[1..] == Requests(sched[1..]);
  }

  lemma {:induction false} RunKeepsOrder(s: State, sched: Schedule, s': State)
    requires Inv(s) && Reaches(s, sched, s')
    ensures CalledAndQueued(s') == CalledAndQueued(s) + AllPieces(Requests(sched), |s.batches|)
    decreases |sched|
  {
    hide Inv;
    hide CalledAndQueued;
    hide PiecesOf;
    hide Step;
    hide AllPieces;
    hide Requests;
    if sched == [] {
      NoPieces(|s.batches|);
    } else {
      var (t, a) := sched[0];
      StepKeepsOrder(s, t, a);
      StepServes(s, t, a);
      InvStep(s, t, a);
      var s1 := Step(s, t, a);
      RunKeepsOrder(s1, sched[1..], s');
      AllPiecesFirst(sched, |s.batches|);
      var was, rest := CalledAndQueued(s), AllPieces(Requests(sched[1..]), |s1.batches|);
      assert a.PushParallel? ==>
        (was + PiecesOf(|s.batches|, a.pieces)) + rest == was + (PiecesOf(|s.batches|, a.pieces) + rest);
      assert was + [] == was;
    }
  }

  lemma NoPieces(first: nat)
    ensures AllPieces(Requests([]), first) == []
  {
  }

  /** Pieces are called in the order in which they were pushed: what was called, followed by what the queue holds, is all that was asked for. */
  lemma FirstInFirstOut(s0: State, sched: Schedule, s: State)
    requires Init(s0) && Reaches(s0, sched, s)
    ensures s.calls + Names(s.queue) == AllPieces(Requests(sched), 0)
  {
    InitInv(s0);
    RunKeepsOrder(s0, sched, s);
  }

  // ---------------------------------------------------------------- everything gets done

  /** How much is left to do for an entry of the queue, and for a thread. */
  function EntryWeight(e: Entry): nat
  {
    if e.Husk? then 1 else 3 + if e.lo <= e.hi then e.hi - e.lo else 0
  }

  function ThreadWeight(r: Thread): nat
  {
    if r.Idle? then 0 else 1 + if r.at <= r.hi then r.hi - r.at else 0
  }

  function QueueWeight(queue: seq<Entry>): nat
  {
    if queue == [] then 0 else EntryWeight(queue[0]) + QueueWeight(queue[1..])
  }

  function ThreadsWeight(threads: seq<Thread>): nat
  {
    if threads == [] then 0 else ThreadWeight(threads[0]) + ThreadsWeight(threads[1..])
  }

  function Weight(s: State): nat
  {
    QueueWeight(s.queue) + ThreadsWeight(s.threads)
  }

  lemma {:induction false} ThreadsUpdate(threads: seq<Thread>, t: nat, r: Thread)
    requires t < |threads|
    ensures ThreadsWeight(threads[t := r]) + ThreadWeight(threads[t]) == ThreadsWeight(threads) + ThreadWeight(r)
  {
    if t == 0 {
      assert threads[0 := r][1..] == threads[1..];
    } else {
      assert threads[t := r][1..] == threads[1..][t - 1 := r];
      ThreadsUpdate(threads[1..], t - 1, r);
    }
  }

  /** Every step but a call of push_parallel is one step closer to the end. */
  lemma StepIsCloser(s: State, t: nat, a: Action)
    requires Inv(s) && Enabled(s, t, a) && !a.PushParallel?
    ensures Weight(Step(s, t, a)) < Weight(s)
  {
    if s.queue != [] && s.queue[0].Work? { FrontWaits(s); }
    if s.threads[t].Running? {
      RunningAt(s, t);
      NeverBelowZero(s, t);
    }
    hide Inv;
    var s' := Step(s, t, a);
    ThreadsUpdate(s.threads, t, s'.threads[t]);
    if a.WaiterTake? { assert s.queue[0 := Husk][1..] == s.queue[1..]; }
    assert s'.threads == s.threads[t := s'.threads[t]];
  }

  /** However the threads are scheduled, without further calls there are only so many steps. */
  lemma {:induction false} RunsEnd(s: State, sched: Schedule, s': State)
    requires Inv(s) && Reaches(s, sched, s') && Requests(sched) == []
    ensures |sched| + Weight(s') <= Weight(s)
    decreases |sched|
  {
    hide Inv;
    hide Weight;
    if sched != [] {
      var (t, a) := sched[0];
      StepIsCloser(s, t, a);
      InvStep(s, t, a);
      hide Step;
      RunsEnd(Step(s, t, a), sched[1..], s');
    }
  }

  /** Worker w has nothing to take, and no thread that runs a task can go on. */
  ghost predicate Exhausted(s: State, w: nat)
  {
    && !Enabled(s, w, WorkerTake)
    && forall t: nat :: !Enabled(s, t, Element) && !Enabled(s, t, Resolve)
  }

  /** Nothing is ever left behind: with one worker, the steps end only when every token is done. */
  lemma ExhaustedMeansDone(s0: State, sched: Schedule, s: State, w: nat, n: nat)
    requires Init(s0) && Reaches(s0, sched, s) && w < |s.threads| && Exhausted(s, w) && n < |s.batches|
    ensures Done(s, n) && s.queue == []
  {
    ReachedInv(s0, sched, s);
    forall t | 0 <= t < |s.threads| ensures s.threads[t] == Idle {
      assert !Enabled(s, t, Element) && !Enabled(s, t, Resolve);
    }
    assert s.queue == [];
    NoFlight(s.threads, n);
    CounterCounts(s0, sched, s, n);
  }

  /** Worker w can go on as long as anything is left. */
  lemma {:induction false} GoesOn(s: State, w: nat) returns (more: Schedule, s': State)
    requires Inv(s) && w < |s.threads|
    ensures Reaches(s, more, s') && Requests(more) == [] && Exhausted(s', w) && |s'.threads| == |s.threads|
    decreases Weight(s)
  {
    hide Inv;
    hide Step;
    hide Weight;
    more, s' := [], s;
    if !Exhausted(s, w) {
      var t, a := NextChoice(s, w);
      StepIsCloser(s, t, a);
      InvStep(s, t, a);
      SameThreads(s, t, a);
      more, s' := GoesOn(Step(s, t, a), w);
      assert ([(t, a)] + more)[1..] == more;
      more := [(t, a)] + more;
    }
  }

  lemma NextChoice(s: State, w: nat) returns (t: nat, a: Action)
    requires !Exhausted(s, w)
    ensures Enabled(s, t, a) && !a.PushParallel?
  {
    if Enabled(s, w, WorkerTake) {
      t, a := w, WorkerTake;
    } else {
      t :| Enabled(s, t, Element) || Enabled(s, t, Resolve);
      a := if Enabled(s, t, Element) then Element else Resolve;
    }
  }

  lemma SameThreads(s: State, t: nat, a: Action)
    requires Enabled(s, t, a)
    ensures |Step(s, t, a).threads| == |s.threads|
  {
  }

  /** No deadlock: from every state that is reached, the run can go on to a state in which all tokens are done. */
  lemma CanBeDone(s0: State, sched: Schedule, s: State, w: nat) returns (more: Schedule, s': State)
    requires Init(s0) && Reaches(s0, sched, s) && w < |s.threads|
    ensures Reaches(s, more, s') && Requests(more) == [] && |more| <= Weight(s)
    ensures |s'.batches| == |s.batches| && forall n :: 0 <= n < |s'.batches| ==> Done(s', n)
  {
    ReachedInv(s0, sched, s);
    more, s' := GoesOn(s, w);
    RunsEnd(s, more, s');
    BatchesServe(s, more, s');
    ReachAppend(s0, sched, s, more, s');
    forall n | 0 <= n < |s'.batches| ensures Done(s', n) {
      ExhaustedMeansDone(s0, sched + more, s', w, n);
    }
  }

  /** And it does so whatever order the threads take, once worker w and the threads that run a task have no step left. */
  lemma AllGetsDone(s0: State, sched: Schedule, s: State, more: Schedule, s': State, w: nat)
    requires Init(s0) && Reaches(s0, sched, s) && Reaches(s, more, s') && Requests(more) == []
    requires w < |s'.threads|
    ensures |more| <= Weight(s)
    ensures Exhausted(s', w) ==> forall n :: 0 <= n < |s'.batches| ==> Done(s', n)
  {
    ReachedInv(s0, sched, s);
    RunsEnd(s, more, s');
    ReachAppend(s0, sched, s, more, s');
    if Exhausted(s', w) {
      forall n | 0 <= n < |s'.batches| ensures Done(s', n) {
        ExhaustedMeansDone(s0, sched + more, s', w, n);
      }
    }
  }

  lemma {:induction false} ReachAppend(s: State, a: Schedule, mid: State, b: Schedule, s': State)
    requires Reaches(s, a, mid) && Reaches(mid, b, s')
    ensures Reaches(s, a + b, s')
    decreases |a|
  {
    if a == [] {
      assert a + b == b;
    } else {
      assert (a + b)[1..] == a[1..] + b;
      ReachAppend(Step(s, a[0].0, a[0].1), a[1..], mid, b, s');
    }
  }
}
