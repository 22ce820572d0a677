/** What the shared queue keeps over every interleaving of producers, workers and waiters. */
module SharedQueueProofs {
  import opened Chunks
  import opened SharedQueue

  function Unfinished(status: seq<Status>): nat
  {
    if status == [] then 0 else (if status[0].Finished? then 0 else 1) + Unfinished(status[1..])
  }

  lemma {:induction false} UnfinishedUpdate(status: seq<Status>, k: nat, st: Status)
    requires k < |status|
    ensures Unfinished(status[k := st]) + (if status[k].Finished? then 0 else 1)
      == Unfinished(status) + (if st.Finished? then 0 else 1)
  {
    if k == 0 {
      assert status[0 := st][1..] == status[1..];
    } else {
      assert status[k := st][1..] == status[1..][k - 1 := st];
      UnfinishedUpdate(status[1..], k - 1, st);
    }
  }

  lemma {:induction false} NoneUnfinished(status: seq<Status>, k: nat)
    requires k < |status| && Unfinished(status) == 0
    ensures status[k].Finished?
  {
    if k > 0 { NoneUnfinished(status[1..], k - 1); }
  }

  lemma {:induction false} AllUnfinished(n: nat)
    ensures Unfinished(seq(n, k => Waiting)) == n
  {
    if n > 0 {
      assert seq(n, k => Waiting)[1..] == seq(n - 1, k => Waiting);
      AllUnfinished(n - 1);
    }
  }

  // ---------------------------------------------------------------- the invariant

  predicate Piece(s: State, token: nat, k: nat)
  {
    token < |s.batches| && k < |s.batches[token].status|
  }

  ghost predicate SpanOk(s: State, token: nat, k: nat, lo: nat, hi: nat)
    requires Piece(s, token, k)
  {
    var b := s.batches[token];
    lo == Lo(|b.orig|, |b.status|, k) && hi == Hi(|b.orig|, |b.status|, k)
  }

  ghost predicate Queued(queue: seq<Entry>, token: nat, k: nat)
  {
    exists i :: 0 <= i < |queue| && queue[i].Work? && queue[i].token == token && queue[i].k == k
  }

  /** The queue has each waiting piece, once, and otherwise only emptied entries. */
  ghost predicate QueueOk(s: State)
  {
    && (forall i :: 0 <= i < |s.queue| && s.queue[i].Work? ==>
          var e := s.queue[i];
          Piece(s, e.token, e.k) && s.batches[e.token].status[e.k].Waiting? && SpanOk(s, e.token, e.k, e.lo, e.hi))
    && (forall i, j :: 0 <= i < j < |s.queue| && s.queue[i].Work? && s.queue[j].Work? ==>
          s.queue[i].token != s.queue[j].token || s.queue[i].k != s.queue[j].k)
    && (forall token: nat, k: nat :: Piece(s, token, k) && s.batches[token].status[k].Waiting? ==> Queued(s.queue, token, k))
  }

  ghost predicate Flies(s: State, t: nat, token: nat, k: nat)
  {
    t < |s.threads| && s.threads[t].Running? && s.threads[t].token == token && s.threads[t].k == k
  }

  /** A piece that was taken is with one thread. */
  ghost predicate ThreadsOk(s: State)
  {
    && (forall t :: 0 <= t < |s.threads| && s.threads[t].Running? ==>
          var r := s.threads[t];
          && Piece(s, r.token, r.k) && s.batches[r.token].status[r.k] == Taken(t)
          && r.hi == Hi(|s.batches[r.token].orig|, |s.batches[r.token].status|, r.k)
          && Lo(|s.batches[r.token].orig|, |s.batches[r.token].status|, r.k) <= r.at <= r.hi)
    && (forall token: nat, k: nat :: Piece(s, token, k) && s.batches[token].status[k].Taken? ==>
          Flies(s, s.batches[token].status[k].thread, token, k))
  }

  /** How far piece k has come. */
  ghost function Progress(s: State, token: nat, k: nat): nat
    requires Piece(s, token, k)
  {
    var b := s.batches[token];
    match b.status[k]
    case Waiting => Lo(|b.orig|, |b.status|, k)
    case Taken(t) => if t < |s.threads| && s.threads[t].Running? then s.threads[t].at else 0
    case Finished => Hi(|b.orig|, |b.status|, k)
  }

  /** An element of piece k is mapped once the piece has come past it, and untouched before. */
  ghost predicate ElementOk(s: State, token: nat, k: nat, x: nat)
    requires Piece(s, token, k)
  {
    var b := s.batches[token];
    Lo(|b.orig|, |b.status|, k) <= x < Hi(|b.orig|, |b.status|, k) && x < |b.data| == |b.orig| ==>
      b.data[x] == if x < Progress(s, token, k) then b.fn(b.orig[x]) else b.orig[x]
  }

  ghost predicate DataOk(s: State)
  {
    && (forall token :: 0 <= token < |s.batches| ==>
          var b := s.batches[token];
          |b.data| == |b.orig| && |b.status| > 0 && b.unresolved == Unfinished(b.status))
    && (forall token: nat, k: nat, x: nat :: Piece(s, token, k) && x < |s.batches[token].orig| ==> ElementOk(s, token, k, x))
  }

  /** Each piece that was taken was called once, and no other. */
  ghost predicate CallsOk(s: State)
  {
    && (forall i, j :: 0 <= i < j < |s.calls| ==> s.calls[i] != s.calls[j])
    && (forall i :: 0 <= i < |s.calls| ==> Piece(s, s.calls[i].0, s.calls[i].1) && !s.batches[s.calls[i].0].status[s.calls[i].1].Waiting?)
    && (forall token: nat, k: nat :: Piece(s, token, k) && !s.batches[token].status[k].Waiting? ==> (token, k) in s.calls)
  }

  ghost predicate Inv(s: State)
  {
    QueueOk(s) && ThreadsOk(s) && DataOk(s) && CallsOk(s)
  }

  lemma InitInv(s: State)
    requires Init(s)
    ensures Inv(s)
  {
  }

  // ---------------------------------------------------------------- push_parallel

  lemma PushQueue(s: State, t: nat, a: Action)
    requires QueueOk(s) && Enabled(s, t, a) && a.PushParallel?
    ensures QueueOk(Step(s, t, a))
  {
    var s' := Step(s, t, a);
    var n, token := |s.queue|, |s.batches|;
    var more := Pieces(token, |a.data|, a.pieces);
    assert s'.queue == s.queue + more;
    forall tk: nat, k: nat | Piece(s', tk, k) && s'.batches[tk].status[k].Waiting? ensures Queued(s'.queue, tk, k) {
      if tk == token {
        assert s'.queue[n + k] == more[k];
      } else {
        assert Piece(s, tk, k) && Queued(s.queue, tk, k);
        var i :| 0 <= i < |s.queue| && s.queue[i].Work? && s.queue[i].token == tk && s.queue[i].k == k;
        assert s'.queue[i] == s.queue[i];
      }
    }
  }

  lemma PushOthers(s: State, t: nat, a: Action)
    requires Inv(s) && Enabled(s, t, a) && a.PushParallel?
    ensures ThreadsOk(Step(s, t, a)) && DataOk(Step(s, t, a)) && CallsOk(Step(s, t, a))
  {
    var s' := Step(s, t, a);
    AllUnfinished(a.pieces);
    assert forall tk: nat, k: nat :: Piece(s, tk, k) ==> Piece(s', tk, k) && s'.batches[tk] == s.batches[tk];
    forall tk: nat, k: nat, x: nat | Piece(s', tk, k) && x < |s'.batches[tk].orig| ensures ElementOk(s', tk, k, x) {
      if tk < |s.batches| { assert Piece(s, tk, k) && ElementOk(s, tk, k, x); }
    }
  }

  // ---------------------------------------------------------------- a thread takes a piece

  /** A worker that pops an emptied entry, or one that a waiter leaves behind, changes nothing that counts. */
  lemma HuskQueue(s: State, queue: seq<Entry>)
    requires QueueOk(s) && s.queue != [] && s.queue[0].Husk? && queue == s.queue[1..]
    ensures QueueOk(s.(queue := queue))
  {
    var s' := s.(queue := queue);
    forall token: nat, k: nat | Piece(s', token, k) && s'.batches[token].status[k].Waiting? ensures Queued(queue, token, k) {
      assert Piece(s, token, k) && Queued(s.queue, token, k);
      var i :| 0 <= i < |s.queue| && s.queue[i].Work? && s.queue[i].token == token && s.queue[i].k == k;
      assert queue[i - 1] == s.queue[i];
    }
  }

  ghost function TakeFront(s: State, t: nat): State
    requires t < |s.threads| && s.queue != []
  {
    Invoke(s.(queue := s.queue[0 := Husk]), t, s.queue[0])
  }

  lemma TakeQueue(s: State, t: nat)
    requires QueueOk(s) && t < |s.threads| && s.queue != [] && s.queue[0].Work?
    ensures QueueOk(TakeFront(s, t))
  {
    var s', e := TakeFront(s, t), s.queue[0];
    forall token: nat, k: nat | Piece(s', token, k) && s'.batches[token].status[k].Waiting? ensures Queued(s'.queue, token, k) {
      assert Piece(s, token, k) && Queued(s.queue, token, k);
      var i :| 0 <= i < |s.queue| && s.queue[i].Work? && s.queue[i].token == token && s.queue[i].k == k;
      assert i > 0 && s'.queue[i] == s.queue[i];
    }
  }

  /** The front task is a waiting piece. */
  lemma FrontWaits(s: State)
    requires QueueOk(s) && s.queue != [] && s.queue[0].Work?
    ensures var e := s.queue[0]; Piece(s, e.token, e.k) && s.batches[e.token].status[e.k].Waiting? && SpanOk(s, e.token, e.k, e.lo, e.hi)
  {
  }

  lemma TakeThreads(s: State, t: nat)
    requires QueueOk(s) && ThreadsOk(s) && DataOk(s) && t < |s.threads| && s.threads[t].Idle? && s.queue != []
    requires s.queue[0].Work?
    ensures ThreadsOk(TakeFront(s, t))
  {
    FrontWaits(s);
    hide QueueOk;
    var s', e := TakeFront(s, t), s.queue[0];
    PieceBounds(|s.batches[e.token].orig|, |s.batches[e.token].status|, e.k);
    forall token: nat, k: nat | Piece(s', token, k) && s'.batches[token].status[k].Taken?
      ensures Flies(s', s'.batches[token].status[k].thread, token, k)
    {
      assert Piece(s, token, k);
      if token != e.token || k != e.k {
        assert Flies(s, s.batches[token].status[k].thread, token, k);
      }
    }
  }

  lemma TakeData(s: State, t: nat)
    requires QueueOk(s) && ThreadsOk(s) && DataOk(s) && t < |s.threads| && s.threads[t].Idle? && s.queue != []
    requires s.queue[0].Work?
    ensures DataOk(TakeFront(s, t))
  {
    FrontWaits(s);
    hide QueueOk;
    var s', e := TakeFront(s, t), s.queue[0];
    UnfinishedUpdate(s.batches[e.token].status, e.k, Taken(t));
    forall token: nat, k: nat, x: nat | Piece(s', token, k) && x < |s'.batches[token].orig| ensures ElementOk(s', token, k, x) {
      assert Piece(s, token, k) && ElementOk(s, token, k, x);
      if (token != e.token || k != e.k) && s.batches[token].status[k].Taken? {
        assert Flies(s, s.batches[token].status[k].thread, token, k);
      }
    }
  }

  lemma TakeCalls(s: State, t: nat)
    requires QueueOk(s) && CallsOk(s) && t < |s.threads| && s.queue != [] && s.queue[0].Work?
    ensures CallsOk(TakeFront(s, t))
  {
    FrontWaits(s);
    hide QueueOk;
    var s', e := TakeFront(s, t), s.queue[0];
    forall token: nat, k: nat | Piece(s', token, k) && !s'.batches[token].status[k].Waiting? ensures (token, k) in s'.calls {
      if token != e.token || k != e.k {
        assert Piece(s, token, k) && (token, k) in s.calls;
      } else {
        assert s'.calls[|s.calls|] == (token, k);
      }
    }
  }

  lemma TakeKeeps(s: State, t: nat)
    requires Inv(s) && t < |s.threads| && s.threads[t].Idle? && s.queue != [] && s.queue[0].Work?
    ensures Inv(TakeFront(s, t)) && TakeFront(s, t).queue == s.queue[0 := Husk]
  {
    TakeQueue(s, t);
    TakeThreads(s, t);
    TakeData(s, t);
    TakeCalls(s, t);
  }

  /** The queue matters to nothing else. */
  lemma DropHusk(s: State)
    requires Inv(s) && s.queue != [] && s.queue[0].Husk?
    ensures Inv(s.(queue := s.queue[1..]))
  {
    HuskQueue(s, s.queue[1..]);
    hide QueueOk;
    var s' := s.(queue := s.queue[1..]);
    forall token: nat, k: nat, x: nat | Piece(s', token, k) && x < |s'.batches[token].orig| ensures ElementOk(s', token, k, x) {
      assert Piece(s, token, k) && ElementOk(s, token, k, x);
    }
    forall token: nat, k: nat | Piece(s', token, k) && s'.batches[token].status[k].Taken?
      ensures Flies(s', s'.batches[token].status[k].thread, token, k)
    {
      assert Piece(s, token, k) && Flies(s, s.batches[token].status[k].thread, token, k);
    }
  }

  lemma WorkerKeeps(s: State, t: nat)
    requires Inv(s) && Enabled(s, t, WorkerTake)
    ensures Inv(Step(s, t, WorkerTake))
  {
    hide Inv;
    if s.queue[0].Husk? {
      DropHusk(s);
    } else {
      TakeKeeps(s, t);
      DropHusk(TakeFront(s, t));
      assert s.queue[0 := Husk][1..] == s.queue[1..];
    }
  }

  // ---------------------------------------------------------------- a task runs

  /** Status and spans of all batches are the same in both states. */
  predicate SamePieces(s: State, s': State)
  {
    && |s'.batches| == |s.batches|
    && forall token: nat :: token < |s.batches| ==>
         s'.batches[token].status == s.batches[token].status && |s'.batches[token].orig| == |s.batches[token].orig|
  }

  lemma SamePiecesQueue(s: State, s': State)
    requires QueueOk(s) && SamePieces(s, s') && s'.queue == s.queue
    ensures QueueOk(s')
  {
    forall token: nat, k: nat | Piece(s', token, k) && s'.batches[token].status[k].Waiting? ensures Queued(s'.queue, token, k) {
      assert Piece(s, token, k);
    }
  }

  lemma SamePiecesCalls(s: State, s': State)
    requires CallsOk(s) && SamePieces(s, s') && s'.calls == s.calls
    ensures CallsOk(s')
  {
    forall token: nat, k: nat | Piece(s', token, k) && !s'.batches[token].status[k].Waiting? ensures (token, k) in s'.calls {
      assert Piece(s, token, k);
    }
  }

  /** The element that a running task is at lies in its span. */
  lemma RunningAt(s: State, t: nat)
    requires ThreadsOk(s) && DataOk(s) && t < |s.threads| && s.threads[t].Running?
    ensures var r := s.threads[t];
      && Piece(s, r.token, r.k) && s.batches[r.token].status[r.k] == Taken(t)
      && var b := s.batches[r.token];
      && |b.data| == |b.orig| && r.hi == Hi(|b.orig|, |b.status|, r.k) <= |b.orig| && Lo(|b.orig|, |b.status|, r.k) <= r.at <= r.hi
  {
    var r := s.threads[t];
    PieceBounds(|s.batches[r.token].orig|, |s.batches[r.token].status|, r.k);
  }

  lemma ElementThreads(s: State, t: nat)
    requires ThreadsOk(s) && DataOk(s) && Enabled(s, t, Element)
    ensures ThreadsOk(Step(s, t, Element)) && SamePieces(s, Step(s, t, Element))
  {
    RunningAt(s, t);
    var s', r := Step(s, t, Element), s.threads[t];
    forall token: nat, k: nat | Piece(s', token, k) && s'.batches[token].status[k].Taken?
      ensures Flies(s', s'.batches[token].status[k].thread, token, k)
    {
      assert Piece(s, token, k) && Flies(s, s.batches[token].status[k].thread, token, k);
    }
  }

  /** One element of one piece changes; the pieces of all other tasks lie elsewhere. */
  lemma ElementData(s: State, t: nat)
    requires ThreadsOk(s) && DataOk(s) && Enabled(s, t, Element)
    ensures DataOk(Step(s, t, Element))
  {
    RunningAt(s, t);
    var s', r := Step(s, t, Element), s.threads[t];
    var n, pieces := |s.batches[r.token].orig|, |s.batches[r.token].status|;
    PiecesTile(n, pieces, r.at, r.k);
    forall token: nat, k: nat, x: nat | Piece(s', token, k) && x < |s'.batches[token].orig| ensures ElementOk(s', token, k, x) {
      assert Piece(s, token, k) && ElementOk(s, token, k, x);
      if token == r.token && x == r.at {
        PiecesTile(n, pieces, x, k);
      }
      if s.batches[token].status[k].Taken? {
        assert Flies(s, s.batches[token].status[k].thread, token, k);
      }
    }
  }

  lemma ElementKeeps(s: State, t: nat)
    requires Inv(s) && Enabled(s, t, Element)
    ensures Inv(Step(s, t, Element))
  {
    ElementThreads(s, t);
    ElementData(s, t);
    SamePiecesQueue(s, Step(s, t, Element));
    SamePiecesCalls(s, Step(s, t, Element));
  }

  // ---------------------------------------------------------------- a task is over

  lemma ResolveThreads(s: State, t: nat)
    requires ThreadsOk(s) && DataOk(s) && Enabled(s, t, Resolve) && s.batches[s.threads[t].token].unresolved > 0
    ensures ThreadsOk(Step(s, t, Resolve))
  {
    RunningAt(s, t);
    var s', r := Step(s, t, Resolve), s.threads[t];
    forall token: nat, k: nat | Piece(s', token, k) && s'.batches[token].status[k].Taken?
      ensures Flies(s', s'.batches[token].status[k].thread, token, k)
    {
      assert Piece(s, token, k) && Flies(s, s.batches[token].status[k].thread, token, k);
    }
  }

  lemma {:induction false} SomeUnfinished(status: seq<Status>, k: nat)
    requires k < |status| && !status[k].Finished?
    ensures Unfinished(status) > 0
  {
    if k > 0 { SomeUnfinished(status[1..], k - 1); }
  }

  /** The counter of a token is never decremented below zero. */
  lemma NeverBelowZero(s: State, t: nat)
    requires ThreadsOk(s) && DataOk(s) && t < |s.threads| && s.threads[t].Running?
    ensures s.threads[t].token < |s.batches| && s.batches[s.threads[t].token].unresolved > 0
  {
    RunningAt(s, t);
    SomeUnfinished(s.batches[s.threads[t].token].status, s.threads[t].k);
  }

  lemma ResolveData(s: State, t: nat)
    requires ThreadsOk(s) && DataOk(s) && Enabled(s, t, Resolve) && s.batches[s.threads[t].token].unresolved > 0
    ensures DataOk(Step(s, t, Resolve))
  {
    RunningAt(s, t);
    var s', r := Step(s, t, Resolve), s.threads[t];
    UnfinishedUpdate(s.batches[r.token].status, r.k, Finished);
    forall token: nat, k: nat, x: nat | Piece(s', token, k) && x < |s'.batches[token].orig| ensures ElementOk(s', token, k, x) {
      assert Piece(s, token, k) && ElementOk(s, token, k, x);
      if s.batches[token].status[k].Taken? {
        assert Flies(s, s.batches[token].status[k].thread, token, k);
      }
    }
  }

  lemma ResolveOthers(s: State, t: nat)
    requires Inv(s) && Enabled(s, t, Resolve) && s.batches[s.threads[t].token].unresolved > 0
    ensures QueueOk(Step(s, t, Resolve)) && CallsOk(Step(s, t, Resolve))
  {
    RunningAt(s, t);
    var s' := Step(s, t, Resolve);
    forall token: nat, k: nat | Piece(s', token, k) ensures Piece(s, token, k) {
    }
  }

  lemma ResolveKeeps(s: State, t: nat)
    requires Inv(s) && Enabled(s, t, Resolve)
    ensures Inv(Step(s, t, Resolve))
  {
    NeverBelowZero(s, t);
    ResolveThreads(s, t);
    ResolveData(s, t);
    ResolveOthers(s, t);
  }

  /** Every step of every thread keeps the invariant. */
  lemma InvStep(s: State, t: nat, a: Action)
    requires Inv(s) && Enabled(s, t, a)
    ensures Inv(Step(s, t, a))
  {
    hide Inv;
    match a
    case PushParallel(_, _, _) => PushKeeps(s, t, a);
    case WorkerTake => WorkerKeeps(s, t);
    case WaiterTake => TakeKeeps(s, t);
    case Element => ElementKeeps(s, t);
    case Resolve => ResolveKeeps(s, t);
  }

  lemma PushKeeps(s: State, t: nat, a: Action)
    requires Inv(s) && Enabled(s, t, a) && a.PushParallel?
    ensures Inv(Step(s, t, a))
  {
    PushQueue(s, t, a);
    PushOthers(s, t, a);
  }

  // ---------------------------------------------------------------- the counters

  /** The entries of the queue that still hold a piece of the batch. */
  function LiveQueue(queue: seq<Entry>, token: nat): nat
  {
    if queue == [] then 0
    else LiveQueue(queue[..|queue| - 1], token) + Ticks(queue[|queue| - 1], token)
  }

  function Ticks(e: Entry, token: nat): nat
  {
    if e.Work? && e.token == token then 1 else 0
  }

  /** The threads that run a piece of the batch. */
  function Flight(threads: seq<Thread>, token: nat): nat
  {
    if threads == [] then 0
    else Flight(threads[..|threads| - 1], token) + Runs(threads[|threads| - 1], token)
  }

  function Runs(r: Thread, token: nat): nat
  {
    if r.Running? && r.token == token then 1 else 0
  }

  /** The counter of a token is the number of its pieces that are queued or run. */
  ghost predicate Counted(s: State)
  {
    forall token: nat :: LiveQueue(s.queue, token) + Flight(s.threads, token) == Unresolved(s, token)
  }

  function Unresolved(s: State, token: nat): nat
  {
    if token < |s.batches| then s.batches[token].unresolved else 0
  }

  lemma {:induction false} LiveAppend(q: seq<Entry>, r: seq<Entry>, token: nat)
    ensures LiveQueue(q + r, token) == LiveQueue(q, token) + LiveQueue(r, token)
  {
    if r == [] {
      assert q + r == q;
    } else {
      assert (q + r)[..|q + r| - 1] == q + r[..|r| - 1];
      LiveAppend(q, r[..|r| - 1], token);
    }
  }

  lemma LiveFront(queue: seq<Entry>, e: Entry, token: nat)
    requires queue != []
    ensures LiveQueue(queue, token) == Ticks(queue[0], token) + LiveQueue(queue[1..], token)
    ensures LiveQueue(queue[0 := e], token) == Ticks(e, token) + LiveQueue(queue[1..], token)
  {
    assert queue == [queue[0]] + queue[1..] && queue[0 := e] == [e] + queue[1..];
    LiveAppend([queue[0]], queue[1..], token);
    LiveAppend([e], queue[1..], token);
    assert [e][..0] == [] && [queue[0]][..0] == [];
  }

  lemma {:induction false} LivePieces(token: nat, n: nat, pieces: nat, j: nat, other: nat)
    requires 0 < pieces && j <= pieces
    ensures LiveQueue(Pieces(token, n, pieces)[..j], other) == if other == token then j else 0
  {
    if j > 0 {
      LivePieces(token, n, pieces, j - 1, other);
      assert Pieces(token, n, pieces)[..j][..j - 1] == Pieces(token, n, pieces)[..j - 1];
    }
  }

  lemma {:induction false} FlightUpdate(threads: seq<Thread>, t: nat, r: Thread, token: nat)
    requires t < |threads|
    ensures Flight(threads[t := r], token) + Runs(threads[t], token) == Flight(threads, token) + Runs(r, token)
  {
    var n := |threads| - 1;
    if t == n {
      assert threads[t := r][..n] == threads[..n];
    } else {
      assert threads[t := r][..n] == threads[..n][t := r];
      FlightUpdate(threads[..n], t, r, token);
    }
  }

  lemma {:induction false} NoFlight(threads: seq<Thread>, token: nat)
    requires forall t :: 0 <= t < |threads| ==> threads[t] == Idle
    ensures Flight(threads, token) == 0
  {
    if threads != [] { NoFlight(threads[..|threads| - 1], token); }
  }

  lemma InitCounted(s: State)
    requires Init(s)
    ensures Counted(s)
  {
    forall token: nat ensures LiveQueue(s.queue, token) + Flight(s.threads, token) == Unresolved(s, token) {
      NoFlight(s.threads, token);
    }
  }

  lemma PushCounted(s: State, t: nat, a: Action)
    requires Counted(s) && Enabled(s, t, a) && a.PushParallel?
    ensures Counted(Step(s, t, a))
  {
    var s' := Step(s, t, a);
    var more := Pieces(|s.batches|, |a.data|, a.pieces);
    forall token: nat ensures LiveQueue(s'.queue, token) + Flight(s'.threads, token) == Unresolved(s', token) {
      LiveAppend(s.queue, more, token);
      LivePieces(|s.batches|, |a.data|, a.pieces, a.pieces, token);
      assert more[..a.pieces] == more;
      assert LiveQueue(s.queue, token) + Flight(s.threads, token) == Unresolved(s, token);
    }
  }

  /** A piece that is taken from the queue runs; an emptied entry counts for nothing. */
  lemma TakeCounted(s: State, t: nat, a: Action)
    requires QueueOk(s) && Counted(s) && Enabled(s, t, a) && (a.WorkerTake? || a.WaiterTake?)
    ensures Counted(Step(s, t, a))
  {
    if s.queue[0].Work? { FrontWaits(s); }
    hide QueueOk;
    var s', e := Step(s, t, a), s.queue[0];
    forall token: nat ensures LiveQueue(s'.queue, token) + Flight(s'.threads, token) == Unresolved(s', token) {
      assert LiveQueue(s.queue, token) + Flight(s.threads, token) == Unresolved(s, token);
      LiveFront(s.queue, Husk, token);
      if e.Work? { FlightUpdate(s.threads, t, Running(e.token, e.k, e.lo, e.hi), token); }
    }
  }

  lemma RunCounted(s: State, t: nat, a: Action)
    requires ThreadsOk(s) && DataOk(s) && Counted(s) && Enabled(s, t, a) && (a.Element? || a.Resolve?)
    ensures Counted(Step(s, t, a))
  {
    RunningAt(s, t);
    NeverBelowZero(s, t);
    hide ThreadsOk;
    hide DataOk;
    var s' := Step(s, t, a);
    forall token: nat ensures LiveQueue(s'.queue, token) + Flight(s'.threads, token) == Unresolved(s', token) {
      assert LiveQueue(s.queue, token) + Flight(s.threads, token) == Unresolved(s, token);
      FlightUpdate(s.threads, t, s'.threads[t], token);
      assert s'.threads == s.threads[t := s'.threads[t]];
    }
  }

  lemma CountedStep(s: State, t: nat, a: Action)
    requires Inv(s) && Counted(s) && Enabled(s, t, a)
    ensures Counted(Step(s, t, a))
  {
    match a
    case PushParallel(_, _, _) => PushCounted(s, t, a);
    case WorkerTake => TakeCounted(s, t, a);
    case WaiterTake => TakeCounted(s, t, a);
    case Element => RunCounted(s, t, a);
    case Resolve => RunCounted(s, t, a);
  }

  // ---------------------------------------------------------------- over whole runs

  type Schedule = seq<(nat, Action)>

  /** The states that a schedule leads to from s. */
  ghost predicate Reaches(s: State, sched: Schedule, s': State)
    decreases |sched|
  {
    if sched == [] then s' == s
    else Enabled(s, sched[0].0, sched[0].1) && Reaches(Step(s, sched[0].0, sched[0].1), sched[1..], s')
  }

  lemma {:induction false} RunKeepsInv(s: State, sched: Schedule, s': State)
    requires Inv(s) && Counted(s) && Reaches(s, sched, s')
    ensures Inv(s') && Counted(s')
    decreases |sched|
  {
    hide Inv;
    hide Counted;
    if sched != [] {
      CountedStep(s, sched[0].0, sched[0].1);
      InvStep(s, sched[0].0, sched[0].1);
      RunKeepsInv(Step(s, sched[0].0, sched[0].1), sched[1..], s');
    }
  }

  lemma ReachedInv(s0: State, sched: Schedule, s: State)
    requires Init(s0) && Reaches(s0, sched, s)
    ensures Inv(s) && Counted(s)
  {
    InitInv(s0);
    InitCounted(s0);
    hide Inv;
    hide Counted;
    hide Init;
    RunKeepsInv(s0, sched, s);
  }

  /** When a token is done, the span is the image of what was pushed, every piece was called, and none is queued or in flight. */
  lemma DoneIsMapped(s0: State, sched: Schedule, s: State, token: nat)
    requires Init(s0) && Reaches(s0, sched, s) && Done(s, token)
    ensures var b := s.batches[token];
      && |b.data| == |b.orig| && (forall x :: 0 <= x < |b.data| ==> b.data[x] == b.fn(b.orig[x]))
      && (forall k :: 0 <= k < |b.status| ==> (token, k) in s.calls)
      && (forall i :: 0 <= i < |s.queue| ==> s.queue[i].Work? ==> s.queue[i].token != token)
      && (forall t :: 0 <= t < |s.threads| ==> s.threads[t].Running? ==> s.threads[t].token != token)
  {
    ReachedInv(s0, sched, s);
    var b := s.batches[token];
    forall k | 0 <= k < |b.status| ensures b.status[k].Finished? && (token, k) in s.calls {
      NoneUnfinished(b.status, k);
      assert Piece(s, token, k);
    }
    forall x | 0 <= x < |b.data| ensures b.data[x] == b.fn(b.orig[x]) {
      var k := PieceOf(|b.orig|, |b.status|, x);
      PiecesTile(|b.orig|, |b.status|, x, k);
      assert Piece(s, token, k) && ElementOk(s, token, k, x);
    }
  }

  /** What busy_wait_for returned on stays as it is: nobody touches the span again. */
  lemma DoneStays(s0: State, sched: Schedule, s: State, t: nat, a: Action, token: nat)
    requires Init(s0) && Reaches(s0, sched, s) && Done(s, token) && Enabled(s, t, a)
    ensures Done(Step(s, t, a), token) && Step(s, t, a).batches[token].data == s.batches[token].data
  {
    ReachedInv(s0, sched, s);
    var b := s.batches[token];
    forall k | 0 <= k < |b.status| ensures b.status[k].Finished? {
      NoneUnfinished(b.status, k);
    }
    if s.threads[t].Running? { RunningAt(s, t); }
    if s.queue != [] && s.queue[0].Work? { FrontWaits(s); }
  }

  /** The counter of a token is the number of its pieces that are queued or in flight, at every moment. */
  lemma CounterCounts(s0: State, sched: Schedule, s: State, token: nat)
    requires Init(s0) && Reaches(s0, sched, s) && token < |s.batches|
    ensures s.batches[token].unresolved == LiveQueue(s.queue, token) + Flight(s.threads, token)
  {
    ReachedInv(s0, sched, s);
    hide Inv;
    assert LiveQueue(s.queue, token) + Flight(s.threads, token) == Unresolved(s, token);
  }

  /** An entry of the queue other than i does not hold the piece. */
  ghost predicate OnlyEntry(queue: seq<Entry>, i: nat, token: nat, k: nat)
  {
    forall j :: 0 <= j < |queue| && queue[j].Work? && queue[j].token == token && queue[j].k == k ==> j == i
  }

  /** A piece is in the queue once and was never called, or one thread has it, or it is over; it is called once. */
  lemma OnePlace(s0: State, sched: Schedule, s: State, token: nat, k: nat)
    requires Init(s0) && Reaches(s0, sched, s) && Piece(s, token, k)
    ensures match s.batches[token].status[k]
      case Waiting =>
        && Queued(s.queue, token, k) && (exists i :: OnlyEntry(s.queue, i, token, k))
        && (forall t :: !Flies(s, t, token, k)) && (token, k) !in s.calls
      case Taken(t) =>
        && !Queued(s.queue, token, k) && (forall u :: Flies(s, u, token, k) <==> u == t) && (token, k) in s.calls
      case Finished =>
        !Queued(s.queue, token, k) && (forall t :: !Flies(s, t, token, k)) && (token, k) in s.calls
    ensures forall i, j :: 0 <= i < j < |s.calls| ==> s.calls[i] != s.calls[j]
  {
    ReachedInv(s0, sched, s);
    if s.batches[token].status[k].Waiting? {
      assert Queued(s.queue, token, k);
      var i :| 0 <= i < |s.queue| && s.queue[i].Work? && s.queue[i].token == token && s.queue[i].k == k;
      assert OnlyEntry(s.queue, i, token, k);
    }
  }

  /** No two threads ever work on the same element: the whole spans of their pieces are apart. */
  lemma InFlightDisjoint(s0: State, sched: Schedule, s: State, t: nat, u: nat)
    requires Init(s0) && Reaches(s0, sched, s) && t < u < |s.threads|
    requires s.threads[t].Running? && s.threads[u].Running? && s.threads[t].token == s.threads[u].token
    ensures var r, q := s.threads[t], s.threads[u];
      && Piece(s, r.token, r.k) && Piece(s, q.token, q.k)
      && var b := s.batches[r.token];
      && Lo(|b.orig|, |b.status|, r.k) <= r.at <= r.hi && Lo(|b.orig|, |b.status|, q.k) <= q.at <= q.hi
      && (r.hi <= Lo(|b.orig|, |b.status|, q.k) || q.hi <= Lo(|b.orig|, |b.status|, r.k))
  {
    hide QueueOk;
    hide ThreadsOk;
    hide DataOk;
    hide CallsOk;
    hide Reaches;
    ReachedInv(s0, sched, s);
    RunningAt(s, t);
    RunningAt(s, u);
    var r, q := s.threads[t], s.threads[u];
    var b := s.batches[r.token];
    SpansApart(|b.orig|, |b.status|, r.k, q.k);
  }
}
