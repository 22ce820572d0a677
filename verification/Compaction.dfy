/**
  paging::compress of benchmarks/gc_prototype.cpp: live blocks slide towards the first page, into a
  work page that trades places with the pages already read.

  A page is a buffer and the offset of its free end, as in the source.  A buffer is what lies in it:
  headers by their offset; a write destroys every header in the bytes that it covers.  A buffer has
  no end of its own: whether pages stay inside their capacity is stated by every operation.
*/
module Compaction {
  import opened CompactionLayout

  datatype Header = Header(next: nat, block: Block)

  datatype Page = Page(buffer: nat, offset: nat)

  type Memory = seq<map<nat, Header>>

  function Write(cells: map<nat, Header>, at: nat, end: nat, h: Header): map<nat, Header>
  {
    (map k | k in cells && !(at <= k < end) :: cells[k])[at := h]
  }

  // ---------------------------------------------------------------- what a page holds

  /** From `at` to `end` the buffer is a chain of blocks with aligned lengths. */
  predicate Formed(cells: map<nat, Header>, at: nat, end: nat)
    decreases end - at
  {
    at == end ||
    (&& at < end && at in cells
     && var h := cells[at];
     && h.block.length % 8 == 0 && h.next == at + HEADER + h.block.length && h.next <= end
     && Formed(cells, h.next, end))
  }

  /** The blocks of page i from `at` to `end`. */
  function Walk(cells: map<nat, Header>, i: nat, buffer: nat, at: nat, end: nat): seq<Placed>
    requires Formed(cells, at, end)
    decreases end - at
  {
    if at == end then []
    else [Placed(cells[at].block, i, Address(buffer, at))] + Walk(cells, i, buffer, cells[at].next, end)
  }

  predicate PageOk(memory: Memory, page: Page)
  {
    page.buffer < |memory| && Formed(memory[page.buffer], 0, page.offset)
  }

  predicate PagesOk(memory: Memory, pages: seq<Page>)
  {
    forall i :: 0 <= i < |pages| ==> PageOk(memory, pages[i])
  }

  function PageContents(memory: Memory, page: Page, i: nat): seq<Placed>
    requires PageOk(memory, page)
  {
    Walk(memory[page.buffer], i, page.buffer, 0, page.offset)
  }

  /** All blocks, page by page. */
  function Contents(memory: Memory, pages: seq<Page>): seq<Placed>
    requires PagesOk(memory, pages)
  {
    if pages == [] then []
    else Contents(memory, pages[..|pages| - 1]) + PageContents(memory, pages[|pages| - 1], |pages| - 1)
  }

  /** No page has been written past the end of its buffer. */
  predicate Inside(pages: seq<Page>, capacity: nat)
  {
    forall i :: 0 <= i < |pages| ==> pages[i].offset <= capacity
  }

  predicate Apart(pages: seq<Page>)
  {
    forall i, j :: 0 <= i < j < |pages| ==> pages[i].buffer != pages[j].buffer
  }

  /** obj.ptr of every block's node is the address of that block. */
  ghost predicate Located(address: map<nat, Address>, s: seq<Placed>)
  {
    forall k :: 0 <= k < |s| ==> s[k].block.node in address && address[s[k].block.node] == s[k].where
  }

  /** No two blocks belong to the same node. */
  ghost predicate NodesApart(s: seq<Placed>)
  {
    forall i, j :: 0 <= i < j < |s| ==> s[i].block.node != s[j].block.node
  }

  // ---------------------------------------------------------------- what compaction should do

  /** The blocks of marked nodes, in order. */
  function Live(s: seq<Placed>, marked: set<nat>): seq<Block>
  {
    if s == [] then []
    else Live(s[..|s| - 1], marked) + (if s[|s| - 1].block.node in marked then [s[|s| - 1].block] else [])
  }

  /** The nodes of the other blocks, in order. */
  function Dead(s: seq<Placed>, marked: set<nat>): seq<nat>
  {
    if s == [] then []
    else Dead(s[..|s| - 1], marked) + (if s[|s| - 1].block.node in marked then [] else [s[|s| - 1].block.node])
  }

  function Blocks(s: seq<Placed>): seq<Block>
  {
    seq(|s|, k requires 0 <= k < |s| => s[k].block)
  }

  // ---------------------------------------------------------------- lemmas on one buffer

  lemma {:induction false} WalkFrame(cells: map<nat, Header>, cells': map<nat, Header>, i: nat, buffer: nat, at: nat,
                                     end: nat)
    requires Formed(cells, at, end)
    requires forall k :: k in cells && k < end ==> k in cells' && cells'[k] == cells[k]
    ensures Formed(cells', at, end)
    ensures Walk(cells', i, buffer, at, end) == Walk(cells, i, buffer, at, end)
    decreases end - at
  {
    if at < end { WalkFrame(cells, cells', i, buffer, cells[at].next, end); }
  }

  /** A chain and one more block at its end. */
  lemma {:induction false} WalkAppend(cells: map<nat, Header>, i: nat, buffer: nat, at: nat, mid: nat)
    requires Formed(cells, at, mid) && mid in cells
    requires var h := cells[mid]; h.block.length % 8 == 0 && h.next == mid + HEADER + h.block.length
    ensures Formed(cells, at, cells[mid].next)
    ensures Walk(cells, i, buffer, at, cells[mid].next) ==
      Walk(cells, i, buffer, at, mid) + [Placed(cells[mid].block, i, Address(buffer, mid))]
    decreases mid - at
  {
    if at < mid {
      WalkAppend(cells, i, buffer, cells[at].next, mid);
    } else {
      assert Formed(cells, cells[mid].next, cells[mid].next);
    }
  }

  /** Writing a block at the end of a page. */
  lemma WriteAppend(memory: Memory, page: Page, i: nat, block: Block)
    requires PageOk(memory, page) && block.length % 8 == 0
    ensures var end := page.offset + HEADER + block.length;
      var memory' := memory[page.buffer := Write(memory[page.buffer], page.offset, end, Header(end, block))];
      && PageOk(memory', page.(offset := end))
      && PageContents(memory', page.(offset := end), i) ==
           PageContents(memory, page, i) + [Placed(block, i, Address(page.buffer, page.offset))]
  {
    var end := page.offset + HEADER + block.length;
    var cells := memory[page.buffer];
    var cells' := Write(cells, page.offset, end, Header(end, block));
    WalkFrame(cells, cells', i, page.buffer, 0, page.offset);
    WalkAppend(cells', i, page.buffer, 0, page.offset);
  }

  /** The blocks of a page follow each other, from `at` to `end`. */
  lemma {:induction false} WalkLayout(cells: map<nat, Header>, i: nat, buffer: nat, at: nat, end: nat)
    requires Formed(cells, at, end)
    ensures var s := Walk(cells, i, buffer, at, end);
      && (forall k :: 0 <= k < |s| ==> s[k].block.length % 8 == 0 && s[k].page == i && End(s[k]) <= end)
      && (s == [] <==> at == end)
      && (s != [] ==> s[0].where.at == at && End(s[|s| - 1]) == end)
      && (forall j, k :: 0 <= j && k == j + 1 && k < |s| ==> Follows(s[j], s[k]))
    decreases end - at
  {
    if at < end { WalkLayout(cells, i, buffer, cells[at].next, end); }
  }

  // ---------------------------------------------------------------- lemmas on all pages

  lemma {:induction false} ContentsFrame(memory: Memory, memory': Memory, pages: seq<Page>)
    requires PagesOk(memory, pages) && |memory| <= |memory'|
    requires forall i :: 0 <= i < |pages| ==> memory'[pages[i].buffer] == memory[pages[i].buffer]
    ensures PagesOk(memory', pages)
    ensures Contents(memory', pages) == Contents(memory, pages)
  {
    assert forall i :: 0 <= i < |pages| ==> PageOk(memory, pages[i]) && PageOk(memory', pages[i]);
    if pages != [] { ContentsFrame(memory, memory', pages[..|pages| - 1]); }
  }

  lemma ContentsSnoc(memory: Memory, pages: seq<Page>, page: Page)
    requires PagesOk(memory, pages) && PageOk(memory, page)
    ensures PagesOk(memory, pages + [page])
    ensures Contents(memory, pages + [page]) == Contents(memory, pages) + PageContents(memory, page, |pages|)
  {
    assert (pages + [page])[..|pages|] == pages;
  }

  /** The last block lies at the end of its page, and pages behind that are empty. */
  ghost predicate LastIsLast(pages: seq<Page>, s: seq<Placed>)
  {
    && (s != [] ==> s[|s| - 1].page < |pages| && End(s[|s| - 1]) == pages[s[|s| - 1].page].offset)
    && forall k :: (if s == [] then 0 else s[|s| - 1].page + 1) <= k < |pages| ==> pages[k].offset == 0
  }

  lemma {:induction false} ContentsLayout(memory: Memory, pages: seq<Page>)
    requires PagesOk(memory, pages)
    ensures Layout(Contents(memory, pages)) && LastIsLast(pages, Contents(memory, pages))
  {
    if pages != [] {
      var n := |pages| - 1;
      ContentsLayout(memory, pages[..n]);
      WalkLayout(memory[pages[n].buffer], n, pages[n].buffer, 0, pages[n].offset);
    }
  }

  lemma InsideSnoc(pages: seq<Page>, page: Page, capacity: nat)
    ensures Inside(pages + [page], capacity) <==> Inside(pages, capacity) && page.offset <= capacity
  {
    var all := pages + [page];
    assert all[|pages|] == page && forall k :: 0 <= k < |pages| ==> all[k] == pages[k];
    if Inside(all, capacity) {
      assert all[|pages|].offset <= capacity && forall k :: 0 <= k < |pages| ==> all[k].offset <= capacity;
    }
  }

  lemma BlocksInsideConcat(limit: Limit, s: seq<Placed>, t: seq<Placed>)
    ensures BlocksInside(limit, s + t) <==> BlocksInside(limit, s) && BlocksInside(limit, t)
  {
    var all := s + t;
    if BlocksInside(limit, all) {
      assert forall k :: 0 <= k < |s| ==> End(all[k]) <= limit.capacity && all[k] == s[k];
      forall k | 0 <= k < |t| ensures End(t[k]) <= limit.capacity { assert all[|s| + k] == t[k]; }
    }
  }

  /** The pages end within their buffers if and only if their blocks do. */
  lemma {:induction false} InsideIsBlocks(limit: Limit, memory: Memory, pages: seq<Page>)
    requires PagesOk(memory, pages)
    ensures Inside(pages, limit.capacity) <==> BlocksInside(limit, Contents(memory, pages))
  {
    if pages != [] {
      var n := |pages| - 1;
      var last := PageContents(memory, pages[n], n);
      InsideIsBlocks(limit, memory, pages[..n]);
      PageInside(limit, memory[pages[n].buffer], n, pages[n].buffer, pages[n].offset);
      BlocksInsideConcat(limit, Contents(memory, pages[..n]), last);
      InsideSnoc(pages[..n], pages[n], limit.capacity);
      assert pages == pages[..n] + [pages[n]];
    }
  }

  lemma PageInside(limit: Limit, cells: map<nat, Header>, i: nat, buffer: nat, end: nat)
    requires Formed(cells, 0, end)
    ensures BlocksInside(limit, Walk(cells, i, buffer, 0, end)) <==> end <= limit.capacity
  {
    WalkLayout(cells, i, buffer, 0, end);
    hide Formed;
    hide Walk;
    var s := Walk(cells, i, buffer, 0, end);
    assert s != [] && BlocksInside(limit, s) ==> End(s[|s| - 1]) <= limit.capacity;
  }

  // ---------------------------------------------------------------- one step of compress

  /** What compress starts from. */
  datatype Input = Input(limit: Limit, memory: Memory, pages: seq<Page>, address: map<nat, Address>, marked: set<nat>)

  datatype State = State(memory: Memory, pages: seq<Page>, work: Page, address: map<nat, Address>)

  /** The pages that hold what was moved so far. */
  function Done(s: State, recycle: nat): seq<Page>
    requires recycle <= |s.pages|
  {
    s.pages[..recycle] + [s.work]
  }

  /** The full work page trades places with a page that has been read. */
  function SwapOut(s: State, recycle: nat): State
    requires recycle < |s.pages|
  {
    s.(pages := s.pages[recycle := s.work], work := Page(s.pages[recycle].buffer, 0))
  }

  /** The block is copied to the end of the work page, and its node follows it. */
  function MoveBlock(s: State, block: Block): State
    requires s.work.buffer < |s.memory|
  {
    var end := s.work.offset + HEADER + block.length;
    s.(memory := s.memory[s.work.buffer := Write(s.memory[s.work.buffer], s.work.offset, end, Header(end, block))],
       work := s.work.(offset := end),
       address := s.address[block.node := Address(s.work.buffer, s.work.offset)])
  }

  ghost predicate InputOk(c: Input)
  {
    && c.pages != [] && PagesOk(c.memory, c.pages) && Apart(c.pages)
    && NodesApart(Contents(c.memory, c.pages))
  }

  /** The write cursor (recycle, end of the work page) is not past the read cursor (i, at). */
  predicate Behind(s: State, recycle: nat, i: nat, at: nat)
  {
    recycle < i || (recycle == i && s.work.offset <= at)
  }

  /** The pages not read yet are where and what they were. */
  ghost predicate Unread(c: Input, s: State, recycle: nat, i: nat)
  {
    && |s.pages| == |c.pages| && |s.memory| == |c.memory| && recycle < |s.pages| && s.work.buffer < |s.memory|
    && Apart(s.pages + [s.work])
    && (forall k :: 0 <= k < |s.pages| ==> s.pages[k].buffer < |s.memory|)
    && (forall k :: recycle <= k < |s.pages| ==> s.pages[k] == c.pages[k])
    && (forall k :: i <= k < |c.pages| ==>
          c.pages[k].buffer < |c.memory| && s.memory[c.pages[k].buffer] == c.memory[c.pages[k].buffer])
  }

  /** The nodes without a block in `read` are left alone. */
  ghost predicate OthersStay(was: map<nat, Address>, now: map<nat, Address>, read: seq<Placed>)
  {
    forall n :: n in was && (forall k :: 0 <= k < |read| ==> read[k].block.node != n) ==> n in now && now[n] == was[n]
  }

  /** What was moved are the live ones of the blocks read, each of them where its node says. */
  ghost predicate Moved(c: Input, s: State, recycle: nat, read: seq<Placed>)
  {
    && recycle <= |s.pages| && PagesOk(s.memory, Done(s, recycle))
    && Blocks(Contents(s.memory, Done(s, recycle))) == Live(read, c.marked)
    && Located(s.address, Contents(s.memory, Done(s, recycle)))
    && OthersStay(c.address, s.address, read)
    && !AnyBlocked(c.limit, Contents(s.memory, Done(s, recycle)))
  }

  /** The work page has room for the block, or nothing lies on it. */
  ghost predicate Fitting(c: Input, s: State, recycle: nat, length: nat)
    requires recycle <= |s.pages| && PagesOk(s.memory, Done(s, recycle))
  {
    var was := Contents(s.memory, Done(s, recycle));
    HasCapacity(c.limit, s.work.offset, length) || ReadAt(was, |was|).recycle < recycle
  }

  /** The write cursor is the one of CompactionLayout, it has not taken the page that is being read, and the pages done
      end within their buffers if and only if every block moved did. */
  ghost predicate Written(c: Input, s: State, recycle: nat, read: seq<Placed>)
  {
    && recycle <= |s.pages| && WriteAt(c.limit, read, c.marked) == Cursor(recycle, s.work.offset)
    && FreeUntil(c.limit, read, c.marked, |read|)
    && (Inside(Done(s, recycle), c.limit.capacity) <==> EndsInside(c.limit, read, c.marked))
  }

  lemma SwapKeepsUnread(c: Input, s: State, recycle: nat, i: nat)
    requires InputOk(c) && Unread(c, s, recycle, i) && recycle < i < |c.pages|
    ensures Unread(c, SwapOut(s, recycle), recycle + 1, i)
  {
    var s' := SwapOut(s, recycle);
    var was, now := s.pages + [s.work], s'.pages + [s'.work];
    forall k, j | 0 <= k < j < |now| ensures now[k].buffer != now[j].buffer {
      var k' := if k == recycle then |s.pages| else k;
      var j' := if j == recycle then |s.pages| else if j == |s.pages| then recycle else j;
      assert was[k'].buffer == now[k].buffer && was[j'].buffer == now[j].buffer;
    }
  }

  lemma SwapKeepsMoved(c: Input, s: State, recycle: nat, read: seq<Placed>)
    requires recycle < |s.pages| && s.pages[recycle].buffer < |s.memory| && Moved(c, s, recycle, read)
    ensures Moved(c, SwapOut(s, recycle), recycle + 1, read)
  {
    hide AnyBlocked;
    var s' := SwapOut(s, recycle);
    assert Done(s', recycle + 1) == Done(s, recycle) + [s'.work];
    ContentsSnoc(s.memory, Done(s, recycle), s'.work);
    assert PageContents(s.memory, s'.work, recycle + 1) == [];
    assert Contents(s'.memory, Done(s', recycle + 1)) == Contents(s.memory, Done(s, recycle));
  }

  lemma SwapFits(c: Input, s: State, recycle: nat, read: seq<Placed>, length: nat)
    requires recycle < |s.pages| && s.pages[recycle].buffer < |s.memory| && Moved(c, s, recycle, read)
    ensures PagesOk(s.memory, Done(SwapOut(s, recycle), recycle + 1))
    ensures Fitting(c, SwapOut(s, recycle), recycle + 1, length)
  {
    var s' := SwapOut(s, recycle);
    ContentsLayout(s.memory, Done(s, recycle));
    assert Done(s', recycle + 1) == Done(s, recycle) + [s'.work];
    ContentsSnoc(s.memory, Done(s, recycle), s'.work);
    assert PageContents(s.memory, s'.work, recycle + 1) == [];
  }

  lemma SwapKeepsInside(s: State, recycle: nat, capacity: nat)
    requires recycle < |s.pages|
    ensures Inside(Done(SwapOut(s, recycle), recycle + 1), capacity) <==> Inside(Done(s, recycle), capacity)
  {
    var s' := SwapOut(s, recycle);
    assert Done(s', recycle + 1) == Done(s, recycle) + [s'.work];
    InsideSnoc(Done(s, recycle), s'.work, capacity);
  }

  lemma MoveKeepsUnread(c: Input, s: State, recycle: nat, i: nat, block: Block)
    requires Unread(c, s, recycle, i) && recycle <= i
    ensures Unread(c, MoveBlock(s, block), recycle, i)
  {
    var s' := MoveBlock(s, block);
    assert s.pages + [s.work] == s.pages + [s.work] && (s.pages + [s.work])[|s.pages|] == s.work;
    forall k | i <= k < |c.pages| ensures s'.memory[c.pages[k].buffer] == c.memory[c.pages[k].buffer] {
      assert (s.pages + [s.work])[k].buffer != (s.pages + [s.work])[|s.pages|].buffer;
    }
    assert forall k :: 0 <= k < |s.pages| ==> (s'.pages + [s'.work])[k] == (s.pages + [s.work])[k];
  }

  lemma MoveKeepsInside(s: State, recycle: nat, capacity: nat, block: Block)
    requires recycle <= |s.pages| && s.work.buffer < |s.memory|
    ensures var s' := MoveBlock(s, block);
      Inside(Done(s', recycle), capacity) <==> Inside(Done(s, recycle), capacity) && s'.work.offset <= capacity
  {
    var s' := MoveBlock(s, block);
    InsideSnoc(s.pages[..recycle], s.work, capacity);
    InsideSnoc(s.pages[..recycle], s'.work, capacity);
  }

  /** The moved block is one more block of the pages done. */
  lemma MoveAppends(s: State, recycle: nat, block: Block)
    requires recycle <= |s.pages| && Apart(s.pages + [s.work]) && s.work.buffer < |s.memory|
    requires PagesOk(s.memory, Done(s, recycle))
    requires block.length % 8 == 0
    ensures var s' := MoveBlock(s, block);
      && PagesOk(s'.memory, Done(s', recycle))
      && Contents(s'.memory, Done(s', recycle)) ==
           Contents(s.memory, Done(s, recycle)) + [Placed(block, recycle, Address(s.work.buffer, s.work.offset))]
  {
    hide Formed;
    hide PageContents;
    hide Write;
    hide Contents;
    var s' := MoveBlock(s, block);
    var front := s.pages[..recycle];
    assert forall i :: 0 <= i < |front| ==> front[i] == Done(s, recycle)[i];
    assert Done(s, recycle)[recycle] == s.work;
    ContentsSnoc(s.memory, front, s.work);
    forall i | 0 <= i < |front| ensures s'.memory[front[i].buffer] == s.memory[front[i].buffer] {
      assert (s.pages + [s.work])[i].buffer != (s.pages + [s.work])[|s.pages|].buffer;
    }
    ContentsFrame(s.memory, s'.memory, front);
    WriteAppend(s.memory, s.work, recycle, block);
    ContentsSnoc(s'.memory, front, s'.work);
  }

  ghost predicate IsRead(read: seq<Placed>, block: Block)
  {
    exists j :: 0 <= j < |read| && read[j].block == block
  }

  lemma {:induction false} LiveIsRead(read: seq<Placed>, marked: set<nat>)
    ensures forall k :: 0 <= k < |Live(read, marked)| ==> IsRead(read, Live(read, marked)[k])
  {
    if read != [] {
      var front := read[..|read| - 1];
      LiveIsRead(front, marked);
      forall k | 0 <= k < |Live(read, marked)| ensures IsRead(read, Live(read, marked)[k]) {
        if k < |Live(front, marked)| {
          assert IsRead(front, Live(front, marked)[k]);
        } else {
          assert read[|read| - 1].block == Live(read, marked)[k];
        }
      }
    }
  }

  lemma NotMovedYet(read: seq<Placed>, marked: set<nat>, was: seq<Placed>, p: Placed)
    requires Blocks(was) == Live(read, marked) && NodesApart(read + [p])
    ensures forall k :: 0 <= k < |was| ==> was[k].block.node != p.block.node
  {
    LiveIsRead(read, marked);
    hide Live;
    forall k | 0 <= k < |was| ensures was[k].block.node != p.block.node {
      assert Blocks(was)[k] == was[k].block && IsRead(read, Live(read, marked)[k]);
      var j :| 0 <= j < |read| && read[j].block == was[k].block;
      assert (read + [p])[j].block.node != (read + [p])[|read|].block.node;
    }
  }

  lemma BlocksSnoc(s: seq<Placed>, p: Placed)
    ensures Blocks(s + [p]) == Blocks(s) + [p.block]
  {
  }

  lemma LiveSnoc(s: seq<Placed>, p: Placed, marked: set<nat>)
    ensures Live(s + [p], marked) == Live(s, marked) + (if p.block.node in marked then [p.block] else [])
  {
    assert (s + [p])[..|s|] == s;
  }

  lemma OthersStaySnoc(was: map<nat, Address>, now: map<nat, Address>, read: seq<Placed>, p: Placed, where: Address)
    requires OthersStay(was, now, read)
    ensures OthersStay(was, now, read + [p]) && OthersStay(was, now[p.block.node := where], read + [p])
  {
    assert forall k :: 0 <= k < |read| ==> (read + [p])[k] == read[k];
    assert (read + [p])[|read|] == p;
  }

  lemma MoveKeepsMoved(c: Input, s: State, recycle: nat, read: seq<Placed>, p: Placed)
    requires recycle <= |s.pages| && Apart(s.pages + [s.work]) && s.work.buffer < |s.memory|
    requires Moved(c, s, recycle, read)
    requires p.block.node in c.marked && p.block.length % 8 == 0
    requires NodesApart(read + [p]) && Fitting(c, s, recycle, p.block.length)
    ensures Moved(c, MoveBlock(s, p.block), recycle, read + [p])
  {
    hide AnyBlocked;
    hide HasCapacity;
    hide Apart;
    hide NodesApart;
    hide PagesOk;
    hide OthersStay;
    hide Blocks;
    hide Live;
    hide Contents;
    var where := Address(s.work.buffer, s.work.offset);
    var was := Contents(s.memory, Done(s, recycle));
    MoveAppends(s, recycle, p.block);
    BlocksSnoc(was, Placed(p.block, recycle, where));
    BlockedSnoc(c.limit, was, Placed(p.block, recycle, where));
    LiveSnoc(read, p, c.marked);
    NotMovedYet(read, c.marked, was, p);
    OthersStaySnoc(c.address, s.address, read, p, where);
  }

  lemma SkipKeepsMoved(c: Input, s: State, recycle: nat, read: seq<Placed>, p: Placed)
    requires recycle <= |s.pages| && Moved(c, s, recycle, read) && p.block.node !in c.marked
    ensures Moved(c, s, recycle, read + [p])
  {
    LiveSnoc(read, p, c.marked);
    OthersStaySnoc(c.address, s.address, read, p, p.where);
  }

  // ---------------------------------------------------------------- the write cursor

  lemma EndsInsideSnoc(limit: Limit, s: seq<Placed>, p: Placed, marked: set<nat>)
    ensures EndsInside(limit, s + [p], marked) <==>
      EndsInside(limit, s, marked) && WriteAt(limit, s + [p], marked).offset <= limit.capacity
  {
    assert forall k :: 0 <= k <= |s| ==> (s + [p])[..k] == s[..k];
    assert (s + [p])[..|s| + 1] == s + [p];
    if EndsInside(limit, s + [p], marked) {
      assert WriteAt(limit, (s + [p])[..|s| + 1], marked).offset <= limit.capacity;
      assert forall k :: 0 <= k <= |s| ==> WriteAt(limit, (s + [p])[..k], marked).offset <= limit.capacity;
    }
  }

  lemma FreeSnoc(limit: Limit, s: seq<Placed>, p: Placed, marked: set<nat>)
    ensures FreeUntil(limit, s + [p], marked, |s| + 1) <==>
      FreeUntil(limit, s, marked, |s|) && !Caught(limit, s + [p], marked, |s|)
  {
    forall k | 0 <= k < |s| ensures Caught(limit, s + [p], marked, k) <==> Caught(limit, s, marked, k) {
      assert (s + [p])[..k] == s[..k];
    }
  }

  lemma NothingWritten(c: Input, s: State)
    requires s.work.offset == 0
    ensures Written(c, s, 0, [])
  {
    assert Done(s, 0) == [s.work];
  }

  /** The work page is full and its turn to be exchanged is that of the page being read. */
  lemma CaughtNow(c: Input, s: State, recycle: nat, read: seq<Placed>, p: Placed)
    requires Written(c, s, recycle, read) && recycle == p.page && !HasCapacity(c.limit, s.work.offset, p.block.length)
    ensures Caught(c.limit, read + [p], c.marked, |read|)
  {
    assert (read + [p])[..|read|] == read;
  }

  lemma TurnIsWritten(c: Input, s: State, s1: State, s2: State, recycle: nat, recycle': nat, read: seq<Placed>, p: Placed)
    requires Written(c, s, recycle, read) && recycle < |s.pages|
    requires s1.work.buffer < |s1.memory| && recycle' <= |s1.pages| == |s.pages|
    requires if HasCapacity(c.limit, s.work.offset, p.block.length) then s1 == s && recycle' == recycle
             else recycle != p.page && s1 == SwapOut(s, recycle) && recycle' == recycle + 1
    requires s2 == if p.block.node in c.marked then MoveBlock(s1, p.block) else s1
    ensures Written(c, s2, recycle', read + [p])
  {
    hide EndsInside;
    hide Inside;
    hide FreeUntil;
    SwapKeepsInside(s, recycle, c.limit.capacity);
    MoveKeepsInside(s1, recycle', c.limit.capacity, p.block);
    EndsInsideSnoc(c.limit, read, p, c.marked);
    FreeSnoc(c.limit, read, p, c.marked);
    WriteSnoc(c.limit, read, p, c.marked);
    if Inside(Done(s1, recycle'), c.limit.capacity) { WorkIsInside(s1, recycle', c.limit.capacity); }
    assert (read + [p])[..|read|] == read;
  }

  lemma WorkIsInside(s: State, recycle: nat, capacity: nat)
    requires recycle <= |s.pages| && Inside(Done(s, recycle), capacity)
    ensures s.work.offset <= capacity
  {
    InsideSnoc(s.pages[..recycle], s.work, capacity);
  }

  lemma CaughtInAll(limit: Limit, s: seq<Placed>, t: seq<Placed>, marked: set<nat>, k: nat)
    requires s <= t && Caught(limit, s, marked, k)
    ensures Overtaken(limit, t, marked)
  {
    assert s[..k] == t[..k];
    assert Caught(limit, t, marked, k);
  }

  // ---------------------------------------------------------------- the read cursor

  /** The block under the read cursor. */
  lemma NextBlock(c: Input, i: nat, buffer: nat, at: nat, end: nat, read: seq<Placed>, all: seq<Placed>)
    returns (p: Placed)
    requires buffer < |c.memory| && Formed(c.memory[buffer], at, end) && at != end
    requires read + Walk(c.memory[buffer], i, buffer, at, end) == all && NodesApart(all)
    ensures at in c.memory[buffer] && p == Placed(c.memory[buffer][at].block, i, Address(buffer, at))
    ensures p.block.length % 8 == 0 && NodesApart(read + [p]) && read + [p] <= all
    ensures var next := c.memory[buffer][at].next;
      && next == at + HEADER + p.block.length && next <= end && Formed(c.memory[buffer], next, end)
      && read + [p] + Walk(c.memory[buffer], i, buffer, next, end) == all
  {
    hide Walk;
    hide Formed;
    WalkHead(c.memory[buffer], i, buffer, at, end);
    p := Placed(c.memory[buffer][at].block, i, Address(buffer, at));
    var rest := Walk(c.memory[buffer], i, buffer, c.memory[buffer][at].next, end);
    assert all == read + ([p] + rest) == read + [p] + rest;
    assert forall k :: 0 <= k < |read + [p]| ==> (read + [p])[k] == all[k];
  }

  lemma WalkHead(cells: map<nat, Header>, i: nat, buffer: nat, at: nat, end: nat)
    requires Formed(cells, at, end) && at != end
    ensures at in cells && cells[at].block.length % 8 == 0
    ensures var next := cells[at].next;
      && next == at + HEADER + cells[at].block.length && next <= end && Formed(cells, next, end)
      && Walk(cells, i, buffer, at, end) == [Placed(cells[at].block, i, Address(buffer, at))] + Walk(cells, i, buffer, next, end)
  {
  }

  lemma {:induction false} ContentsPrefix(memory: Memory, pages: seq<Page>, n: nat)
    requires PagesOk(memory, pages) && n <= |pages|
    ensures PagesOk(memory, pages[..n])
    ensures Contents(memory, pages[..n]) <= Contents(memory, pages)
    decreases |pages|
  {
    if n == |pages| {
      assert pages[..n] == pages;
    } else {
      var front := pages[..|pages| - 1];
      assert pages[..n] == front[..n];
      ContentsPrefix(memory, front, n);
    }
  }

  lemma ApartPrefix(s: seq<Placed>, t: seq<Placed>)
    requires s <= t && NodesApart(t)
    ensures NodesApart(s)
  {
    assert forall k :: 0 <= k < |s| ==> s[k] == t[k];
  }

  lemma PageStart(c: Input, i: nat)
    requires InputOk(c) && i < |c.pages|
    ensures PagesOk(c.memory, c.pages[..i]) && PagesOk(c.memory, c.pages[..i + 1])
    ensures PageOk(c.memory, c.pages[i])
    ensures Contents(c.memory, c.pages[..i]) + PageContents(c.memory, c.pages[i], i)
      == Contents(c.memory, c.pages[..i + 1])
    ensures NodesApart(Contents(c.memory, c.pages[..i + 1]))
    ensures Contents(c.memory, c.pages[..i + 1]) <= Contents(c.memory, c.pages)
  {
    assert c.pages[..i + 1][..i] == c.pages[..i];
    ContentsPrefix(c.memory, c.pages, i + 1);
    ApartPrefix(Contents(c.memory, c.pages[..i + 1]), Contents(c.memory, c.pages));
  }

  /** The page under the read cursor is still the one to be read. */
  lemma Reading(c: Input, s: State, recycle: nat, i: nat, at: nat)
    requires Unread(c, s, recycle, i) && Behind(s, recycle, i, at) && i < |c.pages|
    ensures i < |s.pages| == |c.pages| && s.pages[i] == c.pages[i] && c.pages[i].buffer < |c.memory| == |s.memory|
    ensures s.memory[c.pages[i].buffer] == c.memory[c.pages[i].buffer]
  {
  }

  lemma NextPage(c: Input, s: State, recycle: nat, i: nat, at: nat)
    requires Unread(c, s, recycle, i) && Behind(s, recycle, i, at)
    ensures Unread(c, s, recycle, i + 1) && Behind(s, recycle, i + 1, 0) && |s.pages| == |c.pages|
  {
  }

  ghost predicate Sound(s: State)
  {
    && s.pages != [] && s.work.buffer < |s.memory| && Apart(s.pages + [s.work]) && PagesOk(s.memory, s.pages)
    && NodesApart(Contents(s.memory, s.pages))
    && Located(s.address, Contents(s.memory, s.pages))
  }

  lemma SoundPages(s: State)
    requires Sound(s)
    ensures s.pages != [] && PagesOk(s.memory, s.pages)
  {
  }

  lemma StartApart(pages: seq<Page>, work: Page)
    requires Apart(pages + [work])
    ensures Apart(pages) && Apart(pages + [work.(offset := 0)])
  {
    var was, now := pages + [work], pages + [work.(offset := 0)];
    assert forall k :: 0 <= k < |was| ==> was[k].buffer == now[k].buffer;
    assert forall k :: 0 <= k < |pages| ==> was[k] == pages[k];
  }

  lemma CompressStart(c: Input, s: State)
    requires Sound(s) && c == Input(c.limit, s.memory, s.pages, s.address, c.marked)
    ensures var s' := s.(work := s.work.(offset := 0));
      InputOk(c) && Unread(c, s', 0, 0) && Behind(s', 0, 0, 0) && Moved(c, s', 0, Contents(c.memory, c.pages[..0]))
    ensures Written(c, s.(work := s.work.(offset := 0)), 0, Contents(c.memory, c.pages[..0]))
    ensures PagesOk(c.memory, c.pages[..0])
    ensures Dead(Contents(c.memory, c.pages[..0]), c.marked) == []
  {
    var s' := s.(work := s.work.(offset := 0));
    StartApart(s.pages, s.work);
    hide Apart;
    hide NodesApart;
    hide Located;
    hide OthersStay;
    NothingMoved(c, s');
    NothingWritten(c, s');
  }

  lemma NothingMoved(c: Input, s: State)
    requires s.work.offset == 0 && s.work.buffer < |s.memory| && s.address == c.address
    ensures Moved(c, s, 0, Contents(c.memory, c.pages[..0]))
  {
    ContentsSnoc(s.memory, s.pages[..0], s.work);
    assert PageContents(s.memory, s.work, 0) == [];
  }

  lemma {:induction false} LiveApart(read: seq<Placed>, marked: set<nat>)
    requires NodesApart(read)
    ensures forall i, j :: 0 <= i < j < |Live(read, marked)| ==> Live(read, marked)[i].node != Live(read, marked)[j].node
  {
    if read != [] {
      var front, p := read[..|read| - 1], read[|read| - 1];
      LiveApart(front, marked);
      LiveIsRead(front, marked);
      forall i | 0 <= i < |Live(front, marked)| ensures Live(front, marked)[i].node != p.block.node {
        assert IsRead(front, Live(front, marked)[i]);
      }
    }
  }

  lemma EndApart(c: Input, s: State, recycle: nat)
    requires Unread(c, s, recycle, |c.pages|)
    ensures Apart(s.pages[recycle := s.work][..recycle + 1] + [s.pages[recycle]])
  {
    var was, now := s.pages + [s.work], s.pages[recycle := s.work][..recycle + 1] + [s.pages[recycle]];
    forall i, j | 0 <= i < j < |now| ensures now[i].buffer != now[j].buffer {
      var i' := if i == recycle then |s.pages| else i;
      var j' := if j == recycle then |s.pages| else if j == recycle + 1 then recycle else j;
      assert was[i'] == now[i] && was[j'] == now[j];
    }
  }

  lemma MovedApart(c: Input, s: State, recycle: nat, read: seq<Placed>)
    requires Moved(c, s, recycle, read) && NodesApart(read)
    ensures NodesApart(Contents(s.memory, Done(s, recycle)))
  {
    var moved := Contents(s.memory, Done(s, recycle));
    LiveApart(read, c.marked);
    assert forall k :: 0 <= k < |moved| ==> Blocks(moved)[k] == moved[k].block;
  }

  /** The last work page takes its place behind the others, and what is behind it is dropped. */
  lemma CompressEnd(c: Input, s: State, recycle: nat)
    requires InputOk(c) && Unread(c, s, recycle, |c.pages|)
    requires Moved(c, s, recycle, Contents(c.memory, c.pages)) && Written(c, s, recycle, Contents(c.memory, c.pages))
    ensures recycle < |s.pages|
    ensures !Overtaken(c.limit, Contents(c.memory, c.pages), c.marked)
    ensures var s' := s.(pages := s.pages[recycle := s.work][..recycle + 1], work := s.pages[recycle]);
      && Sound(s') && |s'.pages| <= |c.pages|
      && Blocks(Contents(s'.memory, s'.pages)) == Live(Contents(c.memory, c.pages), c.marked)
      && OthersStay(c.address, s'.address, Contents(c.memory, c.pages))
      && !AnyBlocked(c.limit, Contents(s'.memory, s'.pages))
      && (Inside(s'.pages, c.limit.capacity) <==> EndsInside(c.limit, Contents(c.memory, c.pages), c.marked))
  {
    EndApart(c, s, recycle);
    MovedApart(c, s, recycle, Contents(c.memory, c.pages));
    hide Apart;
    hide NodesApart;
    hide PagesOk;
    hide Located;
    assert s.pages[recycle := s.work][..recycle + 1] == Done(s, recycle);
  }

  /** Inside their buffers, blocks cannot make compress take the page it reads, and counting headers keeps them there. */
  lemma InsideStays(limit: Limit, memory: Memory, pages: seq<Page>, marked: set<nat>)
    requires PagesOk(memory, pages)
    ensures Inside(pages, limit.capacity) || !AnyBlocked(limit, Contents(memory, pages)) ==>
      !Overtaken(limit, Contents(memory, pages), marked)
    ensures Inside(pages, limit.capacity) && limit.counted ==> EndsInside(limit, Contents(memory, pages), marked)
  {
    var s := Contents(memory, pages);
    ContentsLayout(memory, pages);
    InsideIsBlocks(limit, memory, pages);
    if Inside(pages, limit.capacity) {
      InsideIsRoomy(limit, s);
      if limit.counted { CountedStaysInside(limit, s, marked); }
    }
    if Overtaken(limit, s, marked) { OvertakenIsBlocked(limit, s, marked); }
  }

  lemma DeadSnoc(read: seq<Placed>, p: Placed, marked: set<nat>)
    ensures Dead(read + [p], marked) == Dead(read, marked) + (if p.block.node in marked then [] else [p.block.node])
  {
    assert (read + [p])[..|read|] == read;
  }

  // ---------------------------------------------------------------- allocate

  /** The pages that the new block goes to: the last one, or a new page behind it. */
  function ForBlock(s: State, limit: Limit, length: nat): State
    requires s.pages != []
  {
    if HasCapacity(limit, s.pages[|s.pages| - 1].offset, length) then s
    else s.(memory := s.memory + [map[]], pages := s.pages + [Page(|s.memory|, 0)])
  }

  /** The block at the end of the last page. */
  function PutBlock(s: State, block: Block): State
    requires s.pages != [] && s.pages[|s.pages| - 1].buffer < |s.memory|
  {
    var page := s.pages[|s.pages| - 1];
    var end := page.offset + HEADER + block.length;
    s.(memory := s.memory[page.buffer := Write(s.memory[page.buffer], page.offset, end, Header(end, block))],
       pages := s.pages[|s.pages| - 1 := page.(offset := end)],
       address := s.address[block.node := Address(page.buffer, page.offset)])
  }

  lemma NewPageApart(pages: seq<Page>, work: Page, page: Page)
    requires Apart(pages + [work]) && page.buffer != work.buffer
    requires forall k :: 0 <= k < |pages| ==> pages[k].buffer < page.buffer
    ensures Apart(pages + [page] + [work])
  {
    var was, now := pages + [work], pages + [page] + [work];
    forall i, j | 0 <= i < j < |now| ensures now[i].buffer != now[j].buffer {
      assert i < |pages| ==> was[i] == now[i];
      assert j < |pages| ==> was[j] == now[j];
      assert was[|pages|] == work;
    }
  }

  lemma NewPageContents(memory: Memory, pages: seq<Page>)
    requires PagesOk(memory, pages)
    ensures var memory', page := memory + [map[]], Page(|memory|, 0);
      && PagesOk(memory', pages + [page]) && Contents(memory', pages + [page]) == Contents(memory, pages)
      && forall k :: 0 <= k < |pages| ==> pages[k].buffer < |memory|
  {
    var memory', page := memory + [map[]], Page(|memory|, 0);
    assert forall k :: 0 <= k < |pages| ==> PageOk(memory, pages[k]);
    ContentsFrame(memory, memory', pages);
    ContentsSnoc(memory', pages, page);
    assert PageContents(memory', page, |pages|) == [];
  }

  lemma ForBlockSound(s: State, limit: Limit, length: nat)
    requires Sound(s)
    ensures var s' := ForBlock(s, limit, length);
      && Sound(s') && s'.pages[|s'.pages| - 1].buffer < |s'.memory|
      && Contents(s'.memory, s'.pages) == Contents(s.memory, s.pages)
  {
    hide NodesApart;
    hide Located;
    hide Contents;
    NewPageContents(s.memory, s.pages);
    NewPageApart(s.pages, s.work, Page(|s.memory|, 0));
  }

  lemma PutApart(pages: seq<Page>, work: Page, page: Page)
    requires pages != [] && Apart(pages + [work]) && page.buffer == pages[|pages| - 1].buffer
    ensures Apart(pages[|pages| - 1 := page] + [work])
    ensures forall k :: 0 <= k < |pages| - 1 ==> pages[k].buffer != page.buffer
  {
    var was, now := pages + [work], pages[|pages| - 1 := page] + [work];
    assert forall k :: 0 <= k < |was| ==> was[k].buffer == now[k].buffer;
    forall k | 0 <= k < |pages| - 1 ensures pages[k].buffer != page.buffer {
      assert was[k] == pages[k] && was[|pages| - 1] == pages[|pages| - 1];
    }
  }

  /** The new block is the last of the contents. */
  lemma PutContents(s: State, block: Block)
    requires s.pages != [] && Apart(s.pages + [s.work]) && PagesOk(s.memory, s.pages) && block.length % 8 == 0
    ensures PageOk(s.memory, s.pages[|s.pages| - 1])
    ensures var s' := PutBlock(s, block); var page := s.pages[|s.pages| - 1];
      && PagesOk(s'.memory, s'.pages) && Apart(s'.pages + [s'.work])
      && Contents(s'.memory, s'.pages) ==
           Contents(s.memory, s.pages) + [Placed(block, |s.pages| - 1, Address(page.buffer, page.offset))]
  {
    hide Formed;
    hide PageContents;
    hide Write;
    hide Contents;
    var s' := PutBlock(s, block);
    var n := |s.pages| - 1;
    assert PageOk(s.memory, s.pages[n]);
    PutApart(s.pages, s.work, s'.pages[n]);
    assert s.pages == s.pages[..n] + [s.pages[n]] && s'.pages == s.pages[..n] + [s'.pages[n]];
    ContentsFrame(s.memory, s'.memory, s.pages[..n]);
    WriteAppend(s.memory, s.pages[n], n, block);
    ContentsSnoc(s.memory, s.pages[..n], s.pages[n]);
    ContentsSnoc(s'.memory, s.pages[..n], s'.pages[n]);
  }

  lemma PutSound(s: State, block: Block)
    requires Sound(s) && block.length % 8 == 0
    requires forall k :: 0 <= k < |Contents(s.memory, s.pages)| ==>
      Contents(s.memory, s.pages)[k].block.node != block.node
    ensures s.pages[|s.pages| - 1].buffer < |s.memory| && Sound(PutBlock(s, block))
  {
    PutContents(s, block);
  }

  /** Where allocate puts a block of that length. */
  function Spot(pages: seq<Page>, limit: Limit, length: nat): (w: Cursor)
    requires pages != []
  {
    if HasCapacity(limit, pages[|pages| - 1].offset, length) then Cursor(|pages| - 1, pages[|pages| - 1].offset)
    else Cursor(|pages|, 0)
  }

  /** What allocate leaves behind. */
  lemma AllocateResult(s: State, limit: Limit, length: nat, block: Block)
    requires Sound(s) && block.length == AlignLength(length)
    requires forall p :: p in Contents(s.memory, s.pages) ==> p.block.node != block.node
    ensures var s1 := ForBlock(s, limit, length); var w := Spot(s.pages, limit, length);
      && |s1.pages| == w.recycle + 1 && s1.pages[w.recycle].offset == w.offset
      && s1.pages[w.recycle].buffer < |s1.memory|
      && Sound(PutBlock(s1, block)) && PagesOk(PutBlock(s1, block).memory, PutBlock(s1, block).pages)
      && Contents(PutBlock(s1, block).memory, PutBlock(s1, block).pages) ==
           Contents(s.memory, s.pages) + [Placed(block, w.recycle, Address(s1.pages[w.recycle].buffer, w.offset))]
  {
    hide Write;
    hide Contents;
    hide PagesOk;
    hide NodesApart;
    hide Located;
    hide Apart;
    ForBlockSound(s, limit, length);
    PutSound(ForBlock(s, limit, length), block);
    PutContents(ForBlock(s, limit, length), block);
  }

  /** The pages stay inside their buffers exactly if the new block does. */
  lemma AllocateInside(s: State, limit: Limit, length: nat, block: Block)
    requires s.pages != [] && ForBlock(s, limit, length).pages[|ForBlock(s, limit, length).pages| - 1].buffer <
      |ForBlock(s, limit, length).memory|
    requires block.length == AlignLength(length)
    ensures Inside(PutBlock(ForBlock(s, limit, length), block).pages, limit.capacity) <==>
      Inside(s.pages, limit.capacity) &&
      Spot(s.pages, limit, length).offset + HEADER + AlignLength(length) <= limit.capacity
  {
    var s1 := ForBlock(s, limit, length);
    var now := PutBlock(s1, block).pages;
    assert forall k :: 0 <= k < |now| - 1 ==> now[k] == s1.pages[k];
    assert forall k :: 0 <= k < |s.pages| ==> s1.pages[k] == s.pages[k];
    assert Inside(now, limit.capacity) ==> now[|now| - 1].offset <= limit.capacity;
  }

  /** Where a test that counts both lets it go, a block that fits a page at all fits. */
  lemma SpotFits(pages: seq<Page>, limit: Limit, length: nat)
    requires pages != [] && limit.counted
    ensures Spot(pages, limit, length).offset + HEADER + AlignLength(length) <= limit.capacity
      <==> HEADER + AlignLength(length) <= limit.capacity
  {
  }

  /** Every page behind the first was opened by a block that had no room before, and no page is empty behind a block. */
  ghost predicate AsAllocated(limit: Limit, pages: seq<Page>, s: seq<Placed>)
  {
    Packed(limit, s) && if s == [] then |pages| == 1 else s[|s| - 1].page == |pages| - 1
  }

  /** allocate adds a block at which compress can be caught only when its test slips, and then does if the pages are
      as allocate leaves them. */
  lemma AllocatePacks(limit: Limit, pages: seq<Page>, s: seq<Placed>, length: nat, p: Placed)
    requires pages != [] && LastIsLast(pages, s)
    requires var w := Spot(pages, limit, length);
      p.page == w.recycle && p.where.at == w.offset && p.block.length == AlignLength(length)
    ensures AnyBlocked(limit, s + [p]) ==> AnyBlocked(limit, s) || Slips(limit, pages[|pages| - 1].offset, length)
    ensures AsAllocated(limit, pages, s) ==>
      && Packed(limit, s + [p])
      && (Slips(limit, pages[|pages| - 1].offset, length) ==> AnyBlocked(limit, s + [p]))
    ensures AnyBlocked(limit, s) ==> AnyBlocked(limit, s + [p])
  {
    AlignCapacity(limit, pages[|pages| - 1].offset, length);
    if AsAllocated(limit, pages, s) { PackedSnoc(limit, s, p); }
    BlockedSnoc(limit, s, p);
  }

  /** What allocate does to pages that were `pages`, with the blocks `before`, as to their ends and to blocks without capacity. */
  ghost predicate Grown(limit: Limit, pages: seq<Page>, before: seq<Placed>, pages': seq<Page>, after: seq<Placed>, length: nat)
    requires pages != []
  {
    var w, slips := Spot(pages, limit, length), Slips(limit, pages[|pages| - 1].offset, length);
    && (Inside(pages', limit.capacity) <==>
          Inside(pages, limit.capacity) && w.offset + HEADER + AlignLength(length) <= limit.capacity)
    && (limit.counted && Inside(pages, limit.capacity) ==>
          (Inside(pages', limit.capacity) <==> HEADER + AlignLength(length) <= limit.capacity))
    && (AsAllocated(limit, pages, before) ==> AsAllocated(limit, pages', after) && (slips ==> AnyBlocked(limit, after)))
    && (AnyBlocked(limit, before) ==> AnyBlocked(limit, after))
    && (AnyBlocked(limit, after) ==> AnyBlocked(limit, before) || slips)
  }

  lemma AllocateGrows(s: State, s1: State, s': State, limit: Limit, length: nat, block: Block, p: Placed)
    requires s.pages != [] && PagesOk(s.memory, s.pages) && block.length == AlignLength(length)
    requires s1 == ForBlock(s, limit, length) && s1.pages != [] && s1.pages[|s1.pages| - 1].buffer < |s1.memory|
    requires s' == PutBlock(s1, block) && p.block == block
    requires p.page == Spot(s.pages, limit, length).recycle && p.where.at == Spot(s.pages, limit, length).offset
    ensures Grown(limit, s.pages, Contents(s.memory, s.pages), s'.pages, Contents(s.memory, s.pages) + [p], length)
  {
    hide Contents;
    hide PagesOk;
    hide Packed;
    hide AnyBlocked;
    hide Inside;
    hide AlignLength;
    var before := Contents(s.memory, s.pages);
    ContentsLayout(s.memory, s.pages);
    AllocateInside(s, limit, length, block);
    if limit.counted { SpotFits(s.pages, limit, length); }
    AllocatePacks(limit, s.pages, before, length, p);
  }

  // ---------------------------------------------------------------- the pages

  class Paging {
    const limit: Limit
    var memory: Memory
    var pages: seq<Page>
    var work: Page
    var address: map<nat, Address>

    ghost function Snapshot(): State
      reads this
    {
      State(memory, pages, work, address)
    }

    ghost predicate Valid()
      reads this
    {
      Sound(Snapshot())
    }

    constructor (limit: Limit)
      ensures Valid() && this.limit == limit && Contents(memory, pages) == []
      ensures |pages| == 1 && pages[0].offset == 0 && Inside(pages, limit.capacity) && AsAllocated(limit, pages, [])
    {
      this.limit := limit;
      memory, work, pages, address := [map[], map[]], Page(0, 0), [Page(1, 0)], map[];
      new;
      assert pages[..0] == [];
    }

    /** page::allocate on the last page. */
    method AllocateLast(length: nat, node: nat, data: seq<int>)
      requires pages != [] && pages[|pages| - 1].buffer < |memory|
      modifies this`memory, this`pages, this`address
      ensures Snapshot() == PutBlock(old(Snapshot()), Block(node, AlignLength(length), data))
    {
      var page := pages[|pages| - 1];
      var at := page.offset;
      var block := Block(node, AlignLength(length), data);
      page := page.(offset := at + (block.length + HEADER));
      pages := pages[|pages| - 1 := page];
      memory := memory[page.buffer := Write(memory[page.buffer], at, page.offset, Header(page.offset, block))];
      address := address[node := Address(page.buffer, at)];
    }

    /** A block for a node that has none yet.  It ends inside its buffer if there is room for its header and its aligned
        length; the test is on neither of the two. */
    method Allocate(length: nat, node: nat, data: seq<int>)
      requires Valid() && forall p :: p in Contents(memory, pages) ==> p.block.node != node
      modifies this`memory, this`pages, this`address
      ensures Valid() && old(pages) != [] && var w := Spot(old(pages), limit, length);
        && |pages| == w.recycle + 1 && pages[w.recycle].offset == w.offset + HEADER + AlignLength(length)
        && (forall k :: 0 <= k < w.recycle ==> pages[k] == old(pages)[k])
        && Contents(memory, pages) == old(Contents(memory, pages)) +
             [Placed(Block(node, AlignLength(length), data), w.recycle, Address(pages[w.recycle].buffer, w.offset))]
      ensures var block := Contents(memory, pages)[|Contents(memory, pages)| - 1].block;
        && block.length % 8 == 0 && length <= block.length < length + 8
        && (|pages| == |old(pages)| <==>
              if limit.counted then old(pages)[|old(pages)| - 1].offset + 32 + block.length <= limit.capacity
              else old(pages)[|old(pages)| - 1].offset + length < limit.capacity)
        && pages[|pages| - 1].offset ==
             (if |pages| == |old(pages)| then old(pages)[|old(pages)| - 1].offset else 0) + 32 + block.length
      ensures Grown(limit, old(pages), old(Contents(memory, pages)), pages, Contents(memory, pages), length)
      ensures forall n :: n in old(address) && n != node ==> n in address && address[n] == old(address)[n]
    {
      hide Write;
      hide Contents;
      hide Sound;
      hide PagesOk;
      hide Packed;
      hide AnyBlocked;
      hide Inside;
      hide Grown;
      ghost var s := Snapshot();
      SoundPages(s);
      ghost var before, block := Contents(memory, pages), Block(node, AlignLength(length), data);
      AlignLengthIs(length);
      HasCapacityIs(limit, pages[|pages| - 1].offset, length, block.length);
      AllocateResult(s, limit, length, block);
      if !HasCapacity(limit, pages[|pages| - 1].offset, length) {
        pages := pages + [Page(|memory|, 0)];
        memory := memory + [map[]];
      }
      assert Snapshot() == ForBlock(s, limit, length);
      AllocateLast(length, node, data);
      AllocateGrows(s, ForBlock(s, limit, length), Snapshot(), limit, length, block, Contents(memory, pages)[|before|]);
    }

    /** std::swap (pages [recycle], work_page) and reset. */
    method SwapWork(recycle: nat)
      requires recycle < |pages|
      modifies this`pages, this`work
      ensures Snapshot() == SwapOut(old(Snapshot()), recycle)
    {
      var page := pages[recycle];
      pages := pages[recycle := work];
      work := page;
      work := work.(offset := 0);
    }

    /** page::move_allocated into the work page; the length of a block is aligned already. */
    method MoveAllocated(block: Block)
      requires work.buffer < |memory| && block.length % 8 == 0
      modifies this`memory, this`work, this`address
      ensures Snapshot() == MoveBlock(old(Snapshot()), block)
    {
      var at := work.offset;
      var length := AlignLength(block.length);
      work := work.(offset := at + (length + HEADER));
      var header := Header(work.offset, block);
      memory := memory[work.buffer := Write(memory[work.buffer], at, work.offset, header)];
      address := address[block.node := Address(work.buffer, at)];
    }

    /** One turn of the inner loop of compress.  It stops when the page to be exchanged is the one being read. */
    method CompressBlock(ghost c: Input, recycle: nat, i: nat, buffer: nat, at: nat, ghost read: seq<Placed>,
                         marked: set<nat>)
      returns (ok: bool, recycle': nat, disposed: seq<nat>)
      requires InputOk(c) && c.limit == limit && c.marked == marked && i < |c.pages|
      requires c.pages[i].buffer == buffer
      requires Unread(c, Snapshot(), recycle, i) && Moved(c, Snapshot(), recycle, read)
      requires Written(c, Snapshot(), recycle, read) && Behind(Snapshot(), recycle, i, at)
      requires buffer < |c.memory| && at in c.memory[buffer] && c.memory[buffer][at].block.length % 8 == 0
      requires NodesApart(read + [Placed(c.memory[buffer][at].block, i, Address(buffer, at))])
      modifies this`memory, this`work, this`address, this`pages
      ensures !ok ==>
        Caught(limit, read + [Placed(c.memory[buffer][at].block, i, Address(buffer, at))], marked, |read|)
      ensures ok ==>
        && Unread(c, Snapshot(), recycle', i)
        && Behind(Snapshot(), recycle', i, at + HEADER + c.memory[buffer][at].block.length)
        && Moved(c, Snapshot(), recycle', read + [Placed(c.memory[buffer][at].block, i, Address(buffer, at))])
        && Written(c, Snapshot(), recycle', read + [Placed(c.memory[buffer][at].block, i, Address(buffer, at))])
        && disposed == if c.memory[buffer][at].block.node in marked then [] else [c.memory[buffer][at].block.node]
    {
      hide InputOk;
      hide Moved;
      hide Written;
      hide NodesApart;
      hide Write;
      hide Caught;
      ghost var p := Placed(c.memory[buffer][at].block, i, Address(buffer, at));
      ghost var s := Snapshot();
      ok, recycle', disposed := true, recycle, [];
      var block := memory[buffer][at].block;
      if !HasCapacity(limit, work.offset, block.length) {
        if recycle == i {
          CaughtNow(c, s, recycle, read, p);
          ok := false;
          return;
        }
        SwapKeepsUnread(c, Snapshot(), recycle, i);
        SwapKeepsMoved(c, Snapshot(), recycle, read);
        SwapFits(c, Snapshot(), recycle, read, block.length);
        SwapWork(recycle);
        recycle' := recycle + 1;
      }
      ghost var s1 := Snapshot();
      if block.node in marked {
        MoveKeepsUnread(c, Snapshot(), recycle', i, block);
        MoveKeepsMoved(c, Snapshot(), recycle', read, p);
        MoveAllocated(block);
      } else {
        SkipKeepsMoved(c, Snapshot(), recycle', read, p);
        disposed := [block.node];
      }
      TurnIsWritten(c, s, s1, Snapshot(), recycle, recycle', read, p);
    }

    /** The inner loop of compress: page i, block by block. */
    method CompressPage(ghost c: Input, recycle: nat, i: nat, marked: set<nat>)
      returns (ok: bool, recycle': nat, disposed: seq<nat>)
      requires InputOk(c) && c.limit == limit && c.marked == marked && i < |c.pages|
      requires Unread(c, Snapshot(), recycle, i) && Behind(Snapshot(), recycle, i, 0)
      requires PagesOk(c.memory, c.pages) && PagesOk(c.memory, c.pages[..i]) && PagesOk(c.memory, c.pages[..i + 1])
      requires Moved(c, Snapshot(), recycle, Contents(c.memory, c.pages[..i]))
      requires Written(c, Snapshot(), recycle, Contents(c.memory, c.pages[..i]))
      modifies this`memory, this`work, this`address, this`pages
      ensures !ok ==> Overtaken(limit, Contents(c.memory, c.pages), marked)
      ensures ok ==>
        && Unread(c, Snapshot(), recycle', i + 1) && Behind(Snapshot(), recycle', i + 1, 0) && |pages| == |c.pages|
        && Moved(c, Snapshot(), recycle', Contents(c.memory, c.pages[..i + 1]))
        && Written(c, Snapshot(), recycle', Contents(c.memory, c.pages[..i + 1]))
        && Dead(Contents(c.memory, c.pages[..i]), marked) + disposed == Dead(Contents(c.memory, c.pages[..i + 1]), marked)
    {
      hide InputOk;
      hide Moved;
      hide Written;
      hide Unread;
      hide Behind;
      hide NodesApart;
      hide PagesOk;
      hide Dead;
      hide Overtaken;
      hide Caught;
      Reading(c, Snapshot(), recycle, i, 0);
      var page := pages[i];
      var at: nat, end := 0, page.offset;
      ghost var before, all := Contents(c.memory, c.pages[..i]), Contents(c.memory, c.pages[..i + 1]);
      ghost var read := before;
      PageStart(c, i);
      ok, recycle', disposed := true, recycle, [];
      while at != end
        invariant Unread(c, Snapshot(), recycle', i) && Behind(Snapshot(), recycle', i, at)
        invariant Formed(c.memory[page.buffer], at, end) && at <= end
        invariant read + Walk(c.memory[page.buffer], i, page.buffer, at, end) == all
        invariant Moved(c, Snapshot(), recycle', read) && Written(c, Snapshot(), recycle', read)
        invariant Dead(before, marked) + disposed == Dead(read, marked)
      {
        ghost var p := NextBlock(c, i, page.buffer, at, end, read, all);
        Reading(c, Snapshot(), recycle', i, at);
        var dropped;
        ok, recycle', dropped := CompressBlock(c, recycle', i, page.buffer, at, read, marked);
        if !ok {
          CaughtInAll(limit, read + [p], Contents(c.memory, c.pages), marked, |read|);
          return;
        }
        DeadSnoc(read, p, marked);
        read, disposed := read + [p], disposed + dropped;
        Reading(c, Snapshot(), recycle', i, at + HEADER + p.block.length);
        at := memory[page.buffer][at].next;
      }
      NextPage(c, Snapshot(), recycle', i, at);
      assert read == all;
    }

    /** compress: the live blocks stay, in order and with their contents, on at most as many pages; the
        node of each knows its new address, and the other blocks were disposed of, once and in order.  It gets that far
        unless it would take the page that it is reading, and stays inside the buffers if every block copied does. */
    method Compress(marked: set<nat>) returns (ok: bool, disposed: seq<nat>)
      requires Valid()
      modifies this`memory, this`work, this`address, this`pages
      ensures ok <==> !Overtaken(limit, old(Contents(memory, pages)), marked)
      ensures ok ==>
        && Valid() && |pages| <= |old(pages)|
        && Blocks(Contents(memory, pages)) == Live(old(Contents(memory, pages)), marked)
        && disposed == Dead(old(Contents(memory, pages)), marked)
        && OthersStay(old(address), address, old(Contents(memory, pages)))
        && (Inside(pages, limit.capacity) <==> EndsInside(limit, old(Contents(memory, pages)), marked))
      ensures ok ==> !AnyBlocked(limit, Contents(memory, pages))
      ensures !AnyBlocked(limit, old(Contents(memory, pages))) || Inside(old(pages), limit.capacity) ==> ok
      ensures Inside(old(pages), limit.capacity) && limit.counted ==> Inside(pages, limit.capacity)
    {
      hide InputOk;
      hide Unread;
      hide Moved;
      hide Written;
      hide Behind;
      hide Sound;
      hide Dead;
      hide Live;
      hide OthersStay;
      hide PagesOk;
      hide Overtaken;
      hide EndsInside;
      hide Inside;
      hide AnyBlocked;
      ghost var c, s := Input(limit, memory, pages, address, marked), Snapshot();
      CompressStart(c, s);
      SoundPages(s);
      InsideStays(limit, memory, pages, marked);
      var recycle: nat := 0;
      work := work.(offset := 0);
      assert Snapshot() == s.(work := s.work.(offset := 0));
      ok, disposed := true, [];
      for i := 0 to |pages|
        invariant Unread(c, Snapshot(), recycle, i) && Behind(Snapshot(), recycle, i, 0) && |pages| == |c.pages|
        invariant PagesOk(c.memory, c.pages[..i]) && ok
        invariant Moved(c, Snapshot(), recycle, Contents(c.memory, c.pages[..i]))
        invariant Written(c, Snapshot(), recycle, Contents(c.memory, c.pages[..i]))
        invariant disposed == Dead(Contents(c.memory, c.pages[..i]), marked)
      {
        PageStart(c, i);
        Reading(c, Snapshot(), recycle, i, 0);
        if pages[i].offset != 0 {
          var dropped;
          ok, recycle, dropped := CompressPage(c, recycle, i, marked);
          if !ok { return; }
          disposed := disposed + dropped;
        } else {
          NextPage(c, Snapshot(), recycle, i, 0);
          assert Contents(c.memory, c.pages[..i]) == Contents(c.memory, c.pages[..i + 1]);
        }
      }
      assert c.pages[..|c.pages|] == c.pages;
      s := Snapshot();
      CompressEnd(c, s, recycle);
      var page := pages[recycle];
      pages := pages[recycle := work];
      work := page;
      pages := pages[..recycle + 1];
      assert Snapshot() == s.(pages := s.pages[recycle := s.work][..recycle + 1], work := s.pages[recycle]);
    }
  }

  // ---------------------------------------------------------------- runs

  /** Two blocks for 20 bytes take 24 each, behind headers of 32: the first ends at 56, and the second starts on the same
      page of 80, as 56 and 20 are less than that. */
  method TwoOnOnePage() returns (pages: nat, first: nat, second: nat)
    ensures pages == 1 && first == 56 && second == 112
  {
    var p := new Paging(Limit(80, false));
    p.Allocate(20, 0, []);
    first := p.pages[0].offset;
    p.Allocate(20, 1, []);
    pages, second := |p.pages|, p.pages[0].offset;
  }

  /** 57 bytes pass the test on a fresh page of 64; as 64 they have compress take the page that it is reading. */
  method UnalignedLengthSlips() returns (ok: bool)
    ensures !ok
  {
    var p := new Paging(Limit(64, false));
    p.Allocate(57, 0, []);
    ghost var s := Contents(p.memory, p.pages);
    assert s[..0] == [] && Caught(p.limit, s, {0}, 0);
    var disposed;
    ok, disposed := p.Compress({0});
  }

  /** Three blocks that lie within buffers of 200 bytes. */
  method ThreeBlocks() returns (p: Paging)
    ensures fresh(p) && p.Valid() && p.limit == Limit(200, false)
    ensures Inside(p.pages, 200) && ThreeLengths(Contents(p.memory, p.pages))
  {
    hide Contents;
    hide PagesOk;
    hide AsAllocated;
    hide Grown;
    p := new Paging(Limit(200, false));
    p.Allocate(80, 0, []);
    assert |p.pages| == 1 && p.pages[0].offset == 112 && |Contents(p.memory, p.pages)| == 1;
    p.Allocate(48, 1, []);
    assert |p.pages| == 1 && p.pages[0].offset == 192 && |Contents(p.memory, p.pages)| == 2;
    p.Allocate(80, 2, []);
    assert |p.pages| == 2 && p.pages[0].offset == 192 && p.pages[1].offset == 112;
  }

  predicate ThreeLengths(s: seq<Placed>)
  {
    && |s| == 3 && s[0].block.node == 0 && s[1].block.node == 1 && s[2].block.node == 2
    && s[0].block.length == s[2].block.length == 80 && s[1].block.length == 48
  }

  /** The second of them is dead, and compress moves the others to a page that does not hold them. */
  method CompactionPassesTheEnd() returns (before: bool, after: bool)
    ensures before && !after
  {
    hide Contents;
    hide PagesOk;
    hide Overtaken;
    var p := ThreeBlocks();
    before := Inside(p.pages, 200);
    ThirdPasses(Contents(p.memory, p.pages));
    var _, _ := p.Compress({0, 2});
    after := Inside(p.pages, 200);
  }

  lemma ThirdPasses(s: seq<Placed>)
    requires ThreeLengths(s)
    ensures !EndsInside(Limit(200, false), s, {0, 2})
  {
    var limit := Limit(200, false);
    NextWrite(limit, s, {0, 2}, 0);
    NextWrite(limit, s, {0, 2}, 1);
    NextWrite(limit, s, {0, 2}, 2);
    assert WriteAt(limit, s[..3], {0, 2}).offset == 224;
  }

  /** A block as large as the page has no room anywhere; as long as it opens its page, compress gets by. */
  method OpenerIsSafe(marked: set<nat>) returns (inside: bool, ok: bool)
    ensures !inside && ok
  {
    var p := new Paging(Limit(64, false));
    p.Allocate(8, 0, []);
    p.Allocate(64, 1, []);
    inside := Inside(p.pages, 64);
    var disposed;
    ok, disposed := p.Compress(marked);
  }
}
