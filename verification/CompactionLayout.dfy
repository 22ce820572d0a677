/**
  Where paging::compress of benchmarks/gc_prototype.cpp puts the blocks that it reads.

  The write cursor depends on nothing but the lengths, the places and the marks of the blocks, in the
  order in which they are read.  It can fail in two ways: it may have to take the page that is being
  read, and it may pass the end of a buffer.  This module says exactly when.
*/
module CompactionLayout {
  /** sizeof (page_header) */
  const HEADER: nat := 32

  datatype Address = Address(buffer: nat, at: nat)

  datatype Block = Block(node: nat, length: nat, data: seq<int>)

  /** A block with the number of its page and its address. */
  datatype Placed = Placed(block: Block, page: nat, where: Address)

  /** The size of a buffer, and whether has_capacity counts the header and the alignment.  The code has it at false. */
  datatype Limit = Limit(capacity: nat, counted: bool)

  function AlignLength(length: nat): nat
  {
    (length + 7) / 8 * 8
  }

  predicate HasCapacity(limit: Limit, offset: nat, length: nat)
  {
    if limit.counted then limit.capacity >= offset + (HEADER + AlignLength(length)) else limit.capacity > offset + length
  }

  /** align_length rounds up to the next multiple of 8, and no further. */
  lemma AlignLengthIs(length: nat)
    ensures AlignLength(length) % 8 == 0 && length <= AlignLength(length) < length + 8
  {
  }

  /** has_capacity, as it is and as it would be if it counted header and alignment. */
  lemma HasCapacityIs(limit: Limit, offset: nat, length: nat, aligned: nat)
    requires aligned % 8 == 0 && length <= aligned < length + 8
    ensures HasCapacity(limit, offset, length) <==>
      if limit.counted then offset + 32 + aligned <= limit.capacity else offset + length < limit.capacity
  {
    AlignLengthIs(length);
  }

  /** The test passes for the length as asked for, and not for the aligned one. */
  predicate Slips(limit: Limit, offset: nat, length: nat)
  {
    HasCapacity(limit, offset, length) && !HasCapacity(limit, offset, AlignLength(length))
  }

  lemma AlignCapacity(limit: Limit, offset: nat, length: nat)
    ensures AlignLength(length) >= length
    ensures HasCapacity(limit, offset, AlignLength(length)) ==> HasCapacity(limit, offset, length)
  {
    assert AlignLength(AlignLength(length)) == AlignLength(length);
  }

  /** The byte behind a block. */
  function End(p: Placed): nat
  {
    p.where.at + HEADER + p.block.length
  }

  /** Page by page the blocks follow each other from the start, with aligned lengths. */
  ghost predicate Layout(s: seq<Placed>)
  {
    && (forall k :: 0 <= k < |s| ==> s[k].block.length % 8 == 0)
    && (s != [] ==> s[0].where.at == 0)
    && (forall j, k :: 0 <= j && k == j + 1 && k < |s| ==> Follows(s[j], s[k]))
  }

  predicate Follows(p: Placed, q: Placed)
  {
    (q.page == p.page && q.where.at == End(p)) || (q.page > p.page && q.where.at == 0)
  }

  // ---------------------------------------------------------------- the write cursor

  datatype Cursor = Cursor(recycle: nat, offset: nat)

  /** A work page without room for the block read is exchanged; a live block then goes to its end. */
  function Advance(limit: Limit, w: Cursor, p: Placed, live: bool): Cursor
  {
    var at := if HasCapacity(limit, w.offset, p.block.length) then w else Cursor(w.recycle + 1, 0);
    if live then at.(offset := at.offset + (HEADER + p.block.length)) else at
  }

  /** The write cursor when the blocks of s have been read. */
  function WriteAt(limit: Limit, s: seq<Placed>, marked: set<nat>): Cursor
  {
    if s == [] then Cursor(0, 0)
    else Advance(limit, WriteAt(limit, s[..|s| - 1], marked), s[|s| - 1], s[|s| - 1].block.node in marked)
  }

  lemma WriteSnoc(limit: Limit, s: seq<Placed>, p: Placed, marked: set<nat>)
    ensures WriteAt(limit, s + [p], marked) == Advance(limit, WriteAt(limit, s, marked), p, p.block.node in marked)
  {
    assert (s + [p])[..|s|] == s;
  }

  lemma NextWrite(limit: Limit, s: seq<Placed>, marked: set<nat>, k: nat)
    requires k < |s|
    ensures WriteAt(limit, s[..k + 1], marked) == Advance(limit, WriteAt(limit, s[..k], marked), s[k], s[k].block.node in marked)
  {
    assert s[..k + 1] == s[..k] + [s[k]];
    WriteSnoc(limit, s[..k], s[k], marked);
  }

  /** At block k the work page is full, and the page it would be exchanged with is the one being read. */
  predicate Caught(limit: Limit, s: seq<Placed>, marked: set<nat>, k: nat)
  {
    && k < |s| && WriteAt(limit, s[..k], marked).recycle == s[k].page
    && !HasCapacity(limit, WriteAt(limit, s[..k], marked).offset, s[k].block.length)
  }

  /** compress takes the page that it is reading. */
  ghost predicate Overtaken(limit: Limit, s: seq<Placed>, marked: set<nat>)
  {
    exists k :: Caught(limit, s, marked, k)
  }

  /** Not so before block n. */
  ghost predicate FreeUntil(limit: Limit, s: seq<Placed>, marked: set<nat>, n: nat)
  {
    forall k :: 0 <= k < n ==> !Caught(limit, s, marked, k)
  }

  /** Every block that was copied ends within its buffer. */
  ghost predicate EndsInside(limit: Limit, s: seq<Placed>, marked: set<nat>)
  {
    forall k :: 0 <= k <= |s| ==> WriteAt(limit, s[..k], marked).offset <= limit.capacity
  }

  /** Every block ends within its buffer where it is. */
  ghost predicate BlocksInside(limit: Limit, s: seq<Placed>)
  {
    forall k :: 0 <= k < |s| ==> End(s[k]) <= limit.capacity
  }

  predicate Roomy(limit: Limit, p: Placed)
  {
    HasCapacity(limit, p.where.at, p.block.length)
  }

  function All(s: seq<Placed>): set<nat>
  {
    set p | p in s :: p.block.node
  }

  // ---------------------------------------------------------------- the write cursor stays behind the reader

  /** (page, offset) of the write cursor is not past the place of p. */
  predicate NotPast(w: Cursor, p: Placed)
  {
    w.recycle < p.page || (w.recycle == p.page && w.offset <= p.where.at)
  }

  lemma {:induction false} StaysBehind(limit: Limit, s: seq<Placed>, marked: set<nat>, k: nat)
    requires Layout(s) && k < |s| && FreeUntil(limit, s, marked, k)
    ensures NotPast(WriteAt(limit, s[..k], marked), s[k])
  {
    if k > 0 {
      StaysBehind(limit, s, marked, k - 1);
      NextWrite(limit, s, marked, k - 1);
      assert Follows(s[k - 1], s[k]) && !Caught(limit, s, marked, k - 1);
    }
  }

  /** The cursor is caught only at a block that lacked room where it is. */
  lemma CaughtLacksRoom(limit: Limit, s: seq<Placed>, marked: set<nat>, k: nat)
    requires Layout(s) && FreeUntil(limit, s, marked, k) && Caught(limit, s, marked, k)
    ensures !Roomy(limit, s[k])
  {
    StaysBehind(limit, s, marked, k);
  }

  /** The first block at which the cursor is caught. */
  lemma {:induction false} FirstCaught(limit: Limit, s: seq<Placed>, marked: set<nat>, k: nat) returns (j: nat)
    requires Caught(limit, s, marked, k)
    ensures j <= k && Caught(limit, s, marked, j) && FreeUntil(limit, s, marked, j)
  {
    j := k;
    if !FreeUntil(limit, s, marked, k) {
      var i: nat :| i < k && Caught(limit, s, marked, i);
      j := FirstCaught(limit, s, marked, i);
    }
  }

  // ---------------------------------------------------------------- blocks without room

  /** The place the reader has come to before block k. */
  function ReadAt(s: seq<Placed>, k: nat): Cursor
    requires k <= |s|
  {
    if k == 0 then Cursor(0, 0) else Cursor(s[k - 1].page, End(s[k - 1]))
  }

  /** The block opens a page behind the first one. */
  predicate OpensPage(s: seq<Placed>, k: nat)
    requires k < |s|
  {
    s[k].page > ReadAt(s, k).recycle
  }

  /** Block k has no room and does not open a page. */
  predicate Blocked(limit: Limit, s: seq<Placed>, k: nat)
  {
    k < |s| && !Roomy(limit, s[k]) && !OpensPage(s, k)
  }

  ghost predicate AnyBlocked(limit: Limit, s: seq<Placed>)
  {
    exists k :: Blocked(limit, s, k)
  }

  /** The work page is not one behind the reader's last block. */
  lemma WorkPageIsRead(limit: Limit, s: seq<Placed>, marked: set<nat>, k: nat)
    requires Layout(s) && k < |s| && FreeUntil(limit, s, marked, k)
    ensures WriteAt(limit, s[..k], marked).recycle <= ReadAt(s, k).recycle
  {
    if k > 0 {
      StaysBehind(limit, s, marked, k - 1);
      NextWrite(limit, s, marked, k - 1);
      assert !Caught(limit, s, marked, k - 1);
    }
  }

  /** Whatever is marked, compress takes the page that it is reading only at a block that has no room and does not
      open its page. */
  lemma OvertakenIsBlocked(limit: Limit, s: seq<Placed>, marked: set<nat>)
    requires Layout(s) && Overtaken(limit, s, marked)
    ensures AnyBlocked(limit, s)
  {
    var k :| Caught(limit, s, marked, k);
    var j := FirstCaught(limit, s, marked, k);
    CaughtLacksRoom(limit, s, marked, j);
    WorkPageIsRead(limit, s, marked, j);
    assert Blocked(limit, s, j);
  }

  lemma BlockedSnoc(limit: Limit, s: seq<Placed>, p: Placed)
    ensures AnyBlocked(limit, s + [p]) <==>
      AnyBlocked(limit, s) || (!Roomy(limit, p) && p.page <= ReadAt(s, |s|).recycle)
  {
    var t := s + [p];
    assert forall k :: 0 <= k < |s| ==> t[k] == s[k] && (Blocked(limit, t, k) <==> Blocked(limit, s, k));
    assert t[|s|] == p && (Blocked(limit, t, |s|) <==> !Roomy(limit, p) && p.page <= ReadAt(s, |s|).recycle);
  }

  /** Blocks that end within their buffers have room, by either test: the header outweighs the rounding. */
  lemma InsideIsRoomy(limit: Limit, s: seq<Placed>)
    requires Layout(s) && BlocksInside(limit, s)
    ensures !AnyBlocked(limit, s)
  {
    assert forall k :: 0 <= k < |s| ==> End(s[k]) <= limit.capacity && Roomy(limit, s[k]);
  }

  // ---------------------------------------------------------------- marking everything is the worst case

  /** Earlier in the order of pages and offsets. */
  predicate Below(v: Cursor, w: Cursor)
  {
    v.recycle < w.recycle || (v.recycle == w.recycle && v.offset <= w.offset)
  }

  lemma {:induction false} AllIsFurthest(limit: Limit, s: seq<Placed>, marked: set<nat>, k: nat)
    requires k <= |s|
    ensures Below(WriteAt(limit, s[..k], marked), WriteAt(limit, s[..k], All(s)))
  {
    if k > 0 {
      AllIsFurthest(limit, s, marked, k - 1);
      NextWrite(limit, s, marked, k - 1);
      NextWrite(limit, s, All(s), k - 1);
      assert s[k - 1] in s;
    }
  }

  /** Some choice of live blocks makes compress take the page it is reading if and only if keeping all of them does. */
  lemma AllIsWorst(limit: Limit, s: seq<Placed>, marked: set<nat>)
    requires Layout(s) && Overtaken(limit, s, marked)
    ensures Overtaken(limit, s, All(s))
  {
    var k :| Caught(limit, s, marked, k);
    if FreeUntil(limit, s, All(s), k) {
      StaysBehind(limit, s, All(s), k);
      AllIsFurthest(limit, s, marked, k);
      assert Caught(limit, s, All(s), k);
    }
  }

  // ---------------------------------------------------------------- when keeping everything takes the page

  /** If so, it is the next page, and the block had no room behind the block before. */
  predicate OpenedFull(limit: Limit, s: seq<Placed>, k: nat)
    requires k < |s|
  {
    OpensPage(s, k) ==> s[k].page == ReadAt(s, k).recycle + 1 && !HasCapacity(limit, ReadAt(s, k).offset, s[k].block.length)
  }

  /** So allocate leaves the pages. */
  ghost predicate Packed(limit: Limit, s: seq<Placed>)
  {
    forall k :: 0 <= k < |s| ==> OpenedFull(limit, s, k)
  }

  lemma PackedSnoc(limit: Limit, s: seq<Placed>, p: Placed)
    requires Packed(limit, s)
    requires var r := ReadAt(s, |s|);
      p.page > r.recycle ==> p.page == r.recycle + 1 && !HasCapacity(limit, r.offset, p.block.length)
    ensures Packed(limit, s + [p])
  {
    var t := s + [p];
    forall k | 0 <= k < |t| ensures OpenedFull(limit, t, k) {
      assert ReadAt(t, k) == ReadAt(s, k);
      if k < |s| { assert OpenedFull(limit, s, k) && t[k] == s[k]; }
    }
  }

  lemma {:induction false} AllFollowsReader(limit: Limit, s: seq<Placed>, k: nat)
    requires Layout(s) && Packed(limit, s) && k <= |s| && FreeUntil(limit, s, All(s), k)
    ensures WriteAt(limit, s[..k], All(s)) == ReadAt(s, k)
  {
    if k > 0 {
      AllFollowsReader(limit, s, k - 1);
      FollowOne(limit, s, k - 1);
    }
  }

  lemma FollowOne(limit: Limit, s: seq<Placed>, k: nat)
    requires Layout(s) && k < |s| && OpenedFull(limit, s, k) && !Caught(limit, s, All(s), k)
    requires WriteAt(limit, s[..k], All(s)) == ReadAt(s, k)
    ensures WriteAt(limit, s[..k + 1], All(s)) == ReadAt(s, k + 1)
  {
    hide WriteAt;
    NextWrite(limit, s, All(s), k);
    assert s[k] in s && s[k].block.node in All(s);
    hide All;
    PlaceOf(s, k);
  }

  lemma PlaceOf(s: seq<Placed>, k: nat)
    requires Layout(s) && k < |s|
    ensures if OpensPage(s, k) then s[k].where.at == 0 else ReadAt(s, k) == Cursor(s[k].page, s[k].where.at)
  {
    if k > 0 { assert Follows(s[k - 1], s[k]); }
  }

  lemma BlockedIsCaught(limit: Limit, s: seq<Placed>, k: nat)
    requires Layout(s) && Packed(limit, s) && k < |s| && FreeUntil(limit, s, All(s), k)
    ensures Caught(limit, s, All(s), k) <==> Blocked(limit, s, k)
  {
    AllFollowsReader(limit, s, k);
    PlaceOf(s, k);
    assert OpenedFull(limit, s, k);
  }

  /** On pages as allocate leaves them, some choice of live blocks makes compress take the page that it is reading if and
      only if some block that does not open a page lacks room. */
  lemma OvertakenIff(limit: Limit, s: seq<Placed>)
    requires Layout(s) && Packed(limit, s)
    ensures (exists marked: set<nat> :: Overtaken(limit, s, marked)) <==> AnyBlocked(limit, s)
  {
    if marked: set<nat> :| Overtaken(limit, s, marked) {
      OvertakenIsBlocked(limit, s, marked);
    }
    if k :| Blocked(limit, s, k) {
      if FreeUntil(limit, s, All(s), k) { BlockedIsCaught(limit, s, k); }
      assert Overtaken(limit, s, All(s));
    }
  }

  lemma {:induction false} FirstPageIsFirst(s: seq<Placed>, j: nat, k: nat)
    requires Layout(s) && j <= k < |s| && s[k].page == 0
    ensures s[j].page == 0
    decreases k - j
  {
    if j < k {
      assert Follows(s[k - 1], s[k]);
      FirstPageIsFirst(s, j, k - 1);
    }
  }

  lemma {:induction false} AllOnFirstPage(limit: Limit, s: seq<Placed>, k: nat)
    requires Layout(s) && k < |s| && s[k].page == 0 && FreeUntil(limit, s, All(s), k)
    ensures WriteAt(limit, s[..k], All(s)) == Cursor(0, s[k].where.at)
  {
    if k > 0 {
      FirstPageIsFirst(s, k - 1, k);
      AllOnFirstPage(limit, s, k - 1);
      NextWrite(limit, s, All(s), k - 1);
      assert s[k - 1] in s && Follows(s[k - 1], s[k]) && !Caught(limit, s, All(s), k - 1);
    }
  }

  /** At block k, on the first page. */
  predicate CaughtOnFirst(limit: Limit, s: seq<Placed>, marked: set<nat>, k: nat)
  {
    Caught(limit, s, marked, k) && s[k].page == 0
  }

  /** On any pages, the first page is taken from under the reader for some choice of live blocks if and only if some
      block on it lacks room. */
  lemma FirstPageIff(limit: Limit, s: seq<Placed>)
    requires Layout(s)
    ensures (exists marked: set<nat>, k :: CaughtOnFirst(limit, s, marked, k))
      <==> exists k :: 0 <= k < |s| && !Roomy(limit, s[k]) && s[k].page == 0
  {
    if marked: set<nat>, k :| CaughtOnFirst(limit, s, marked, k) {
      var j := FirstCaught(limit, s, marked, k);
      FirstPageIsFirst(s, j, k);
      CaughtLacksRoom(limit, s, marked, j);
    }
    if k :| 0 <= k < |s| && !Roomy(limit, s[k]) && s[k].page == 0 {
      if FreeUntil(limit, s, All(s), k) {
        AllOnFirstPage(limit, s, k);
        assert CaughtOnFirst(limit, s, All(s), k);
      } else {
        var j: nat :| j < k && Caught(limit, s, All(s), j);
        FirstPageIsFirst(s, j, k);
        assert CaughtOnFirst(limit, s, All(s), j);
      }
    }
  }

  // ---------------------------------------------------------------- the end of the buffers

  /** With a test that counts header and alignment, blocks that lie inside their buffers are copied inside them, whatever is marked. */
  lemma CountedStaysInside(limit: Limit, s: seq<Placed>, marked: set<nat>)
    requires limit.counted && Layout(s) && BlocksInside(limit, s)
    ensures EndsInside(limit, s, marked)
  {
    forall k | 0 <= k <= |s| ensures WriteAt(limit, s[..k], marked).offset <= limit.capacity {
      if k > 0 {
        NextWrite(limit, s, marked, k - 1);
        assert End(s[k - 1]) <= limit.capacity && s[k - 1].block.length % 8 == 0;
      }
    }
  }
}
