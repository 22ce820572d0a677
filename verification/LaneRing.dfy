/** proto_e::lane of benchmarks/streaming_tasks.cpp: a ring of 8192 slots under two 64-bit counters that wrap around. */
module LaneRing {
  import opened Bits
  import opened Options

  const CAPACITY: nat := 8192
  const MASK: nat := CAPACITY - 1
  const WORD: nat := 0x1_0000_0000_0000_0000

  /** The slot that a counter value selects. */
  function Slot(counter: nat): nat
  {
    And(counter, MASK)
  }

  lemma SlotIs(counter: nat)
    ensures Slot(counter) == counter % CAPACITY
  {
    assert Pow2(13) == CAPACITY by {
      assert Pow2(10) == 1024;
    }
    AndMask(counter, 13);
  }

  /** How many tasks lie between the counters, modulo 2^64. */
  function Held(front: nat, back: nat): nat
    requires front < WORD && back < WORD
  {
    if front <= back then back - front else back + WORD - front
  }

  /** The slot of the i-th task from the front. */
  function At(front: nat, i: nat): nat
  {
    (front + i) % CAPACITY
  }

  /** The counter i places on selects that slot, whether or not it has wrapped. */
  lemma SlotAt(front: nat, i: nat)
    requires front < WORD && i <= CAPACITY
    ensures Slot((front + i) % WORD) == At(front, i)
  {
    SlotIs((front + i) % WORD);
    if front + i >= WORD {
      assert (front + i) % WORD == front + i - WORD;
      assert WORD == CAPACITY * 0x8_0000_0000_0000;
      assert (front + i - WORD) % CAPACITY == (front + i) % CAPACITY;
    }
  }

  lemma SlotsDiffer(front: nat, i: nat, j: nat)
    requires i < j < i + CAPACITY
    ensures At(front, i) != At(front, j)
  {
  }

  /** n tasks from the front on. */
  function Ring(slots: seq<nat>, front: nat, n: nat): seq<nat>
    requires |slots| == CAPACITY
  {
    seq(n, i requires 0 <= i < n => slots[At(front, i)])
  }

  lemma RingPush(slots: seq<nat>, front: nat, n: nat, t: nat)
    requires |slots| == CAPACITY && n < CAPACITY
    ensures Ring(slots[At(front, n) := t], front, n + 1) == Ring(slots, front, n) + [t]
  {
    forall i | 0 <= i < n ensures At(front, i) != At(front, n) { SlotsDiffer(front, i, n); }
    hide At;
  }

  lemma RingSteal(slots: seq<nat>, front: nat, n: nat)
    requires |slots| == CAPACITY && front < WORD && 0 < n
    ensures Ring(slots, front, n)[1..] == Ring(slots, (front + 1) % WORD, n - 1)
  {
    hide At;
    var next := Ring(slots, (front + 1) % WORD, n - 1);
    forall i | 0 <= i < |next| ensures next[i] == Ring(slots, front, n)[i + 1] { NextAt(front, i); }
  }

  /** The slot behind a full ring is that of its front. */
  lemma FullRing(front: nat)
    ensures At(front, CAPACITY) == At(front, 0)
  {
  }

  lemma HeldSteps(front: nat, back: nat)
    requires front < WORD && back < WORD
    ensures Held(front, back) < WORD - 1 ==> Held(front, (back + 1) % WORD) == Held(front, back) + 1
    ensures back != front ==> Held(front, (back + WORD - 1) % WORD) == Held(front, back) - 1
    ensures back != front ==> Held((front + 1) % WORD, back) == Held(front, back) - 1
    ensures (front + Held(front, back)) % WORD == back
    ensures back != front ==> (front + (Held(front, back) - 1)) % WORD == (back + WORD - 1) % WORD
    ensures Held(front, back) == 0 <==> back == front
  {
  }

  // ---------------------------------------------------------------- push, pop and steal on the ring

  /** The fields of a lane. */
  datatype RingLane = RingLane(slots: seq<nat>, front: nat, back: nat)

  /** The counters are words, and at most 8192 tasks are held. */
  predicate RingOk(r: RingLane)
  {
    |r.slots| == CAPACITY && r.front < WORD && r.back < WORD && Held(r.front, r.back) <= CAPACITY
  }

  /** The tasks held, from the one to be stolen next to the one to be popped next. */
  function Tasks(r: RingLane): seq<nat>
    requires |r.slots| == CAPACITY && r.front < WORD && r.back < WORD
  {
    Ring(r.slots, r.front, Held(r.front, r.back))
  }

  function PushBack(r: RingLane, t: nat): (q: RingLane)
    requires |r.slots| == CAPACITY
    ensures |q.slots| == CAPACITY
  {
    SlotIs(r.back);
    r.(slots := r.slots[Slot(r.back) := t], back := (r.back + 1) % WORD)
  }

  /** The counter of the last task. */
  function Last(r: RingLane): nat
  {
    (r.back + WORD - 1) % WORD
  }

  function TaskAt(r: RingLane, counter: nat): nat
    requires |r.slots| == CAPACITY
  {
    SlotIs(counter);
    r.slots[Slot(counter)]
  }

  /** A push appends exactly when the ring is not full. */
  lemma PushTasks(r: RingLane, t: nat)
    requires RingOk(r)
    ensures RingOk(PushBack(r, t)) <==> Held(r.front, r.back) < CAPACITY
    ensures RingOk(PushBack(r, t)) ==> Tasks(PushBack(r, t)) == Tasks(r) + [t]
    ensures !RingOk(PushBack(r, t)) ==> TaskAt(PushBack(r, t), r.front) == t
  {
    var n := Held(r.front, r.back);
    HeldSteps(r.front, r.back);
    hide Held;
    SlotAt(r.front, n);
    SlotAt(r.front, 0);
    hide Slot;
    if n < CAPACITY { RingPush(r.slots, r.front, n, t); } else { FullRing(r.front); }
    hide At;
    hide Ring;
  }

  lemma PopTasks(r: RingLane)
    requires RingOk(r)
    ensures Tasks(r) == [] <==> r.back == r.front
    ensures r.back != r.front ==>
      && TaskAt(r, Last(r)) == Tasks(r)[|Tasks(r)| - 1]
      && RingOk(r.(back := Last(r))) && Tasks(r.(back := Last(r))) == Tasks(r)[..|Tasks(r)| - 1]
  {
    var n := Held(r.front, r.back);
    HeldSteps(r.front, r.back);
    if r.back != r.front { SlotAt(r.front, n - 1); }
    hide At;
    hide Held;
    hide Slot;
  }

  lemma StealTasks(r: RingLane)
    requires RingOk(r)
    ensures Tasks(r) == [] <==> r.back == r.front
    ensures r.back != r.front ==>
      && TaskAt(r, r.front) == Tasks(r)[0]
      && RingOk(r.(front := (r.front + 1) % WORD)) && Tasks(r.(front := (r.front + 1) % WORD)) == Tasks(r)[1..]
  {
    var n := Held(r.front, r.back);
    HeldSteps(r.front, r.back);
    hide Held;
    SlotAt(r.front, 0);
    RingFirst(r.slots, r.front, n);
    hide At;
    hide Slot;
    hide Ring;
    if r.back != r.front { RingSteal(r.slots, r.front, n); }
  }

  class Lane {
    var front: nat
    var back: nat
    const tasks: array<nat>

    function Fields(): RingLane
      reads this, tasks
    {
      RingLane(tasks[..], front, back)
    }

    ghost predicate Valid()
      reads this, tasks
    {
      RingOk(Fields())
    }

    ghost function Contents(): seq<nat>
      requires Valid()
      reads this, tasks
    {
      Tasks(Fields())
    }

    constructor ()
      ensures Valid() && Contents() == [] && front == back == 0 && fresh(tasks)
    {
      front, back := 0, 0;
      tasks := new nat[CAPACITY];
    }

    /** There is no test for a full ring: a push on one loses the oldest task, as its slot is overwritten. */
    method Push(t: nat)
      requires Valid()
      modifies this`back, tasks
      ensures Fields() == PushBack(old(Fields()), t)
      ensures Valid() <==> |old(Contents())| < CAPACITY
      ensures Valid() ==> Contents() == old(Contents()) + [t]
      ensures !Valid() ==> TaskAt(Fields(), front) == t
    {
      PushTasks(Fields(), t);
      RingFirst(tasks[..], front, Held(front, back));
      SlotIs(back);
      tasks[Slot(back)] := t;
      back := (back + 1) % WORD;
    }

    method Pop() returns (t: Option<nat>)
      requires Valid()
      modifies this`back
      ensures Valid()
      ensures old(back) == front ==> t == None && Fields() == old(Fields())
      ensures old(back) != front ==>
        t == Some(TaskAt(old(Fields()), Last(old(Fields())))) && Fields() == old(Fields()).(back := Last(old(Fields())))
      ensures old(Contents()) == [] ==> t == None && Contents() == []
      ensures old(Contents()) != [] ==> t == Some(old(Contents())[|old(Contents())| - 1]) && Contents() == old(Contents())[..|old(Contents())| - 1]
    {
      PopTasks(Fields());
      hide Tasks;
      hide RingOk;
      if back == front {
        return None;
      }
      back := (back + WORD - 1) % WORD;
      SlotIs(back);
      t := Some(tasks[Slot(back)]);
    }

    method Steal() returns (t: Option<nat>)
      requires Valid()
      modifies this`front
      ensures Valid()
      ensures back == old(front) ==> t == None && Fields() == old(Fields())
      ensures back != old(front) ==>
        t == Some(TaskAt(old(Fields()), old(front))) && Fields() == old(Fields()).(front := (old(front) + 1) % WORD)
      ensures old(Contents()) == [] ==> t == None && Contents() == []
      ensures old(Contents()) != [] ==> t == Some(old(Contents())[0]) && Contents() == old(Contents())[1..]
    {
      StealTasks(Fields());
      hide Tasks;
      hide RingOk;
      if back == front {
        return None;
      }
      SlotIs(front);
      t := Some(tasks[Slot(front)]);
      front := (front + 1) % WORD;
    }
  }

  /** 8192 tasks fill a new lane; with one more the first of them is gone. */
  method FillPastTheEnd() returns (full: seq<nat>, oldest: nat)
    ensures full == seq(CAPACITY, i => i) && oldest == CAPACITY
  {
    var lane := new Lane();
    for i := 0 to CAPACITY
      invariant lane.Valid() && fresh(lane) && fresh(lane.tasks) && lane.front == 0
      invariant lane.Contents() == seq(i, j => j)
    {
      lane.Push(i);
    }
    SlotIs(0);
    full := lane.tasks[..];
    lane.Push(CAPACITY);
    oldest := lane.tasks[Slot(lane.front)];
  }

  lemma RingFirst(slots: seq<nat>, front: nat, n: nat)
    requires |slots| == CAPACITY
    ensures |Ring(slots, front, n)| == n && (n > 0 ==> Ring(slots, front, n)[0] == slots[At(front, 0)])
  {
  }

  lemma NextAt(front: nat, i: nat)
    requires front < WORD
    ensures At((front + 1) % WORD, i) == At(front, i + 1)
  {
    if front + 1 == WORD {
      assert WORD == CAPACITY * 0x8_0000_0000_0000;
      assert (front + 1 + i) % CAPACITY == i % CAPACITY;
    }
  }
}
