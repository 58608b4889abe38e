/** The stores of sys_malloc and sys_free to headers and links, against the functions of module Heaps,
    which leave those words open: what they change, and that the words keep their meaning through
    everything else that happens to memory. */
module HeapRelink {
  import opened Paging
  import opened Frames
  import opened Pages
  import opened PageAlloc
  import opened PageData
  import opened PageRuns
  import opened Lists
  import opened Slabs
  import opened Heaps
  import opened HeapData
  import opened HeapRuns
  import opened HeapLinks
  import opened HeapWords

  /** The words say what the slab says. */
  ghost predicate Wired(env: Env, st: Store, sl: Slab)
  {
    Linked(env, st, sl.free) && Headers(env, st, sl.arenas)
  }

  /** r is g but for words of headers and free blocks. */
  ghost predicate Relinked(g: Heap, r: Heap, pf: Pf)
  {
    |g.slab.free| == DESC_CNT && r == Heap(g.sys.(m := r.sys.m), g.slab) && OnlyMeta(g, pf, r.sys.m)
  }

  // ----- pages of arenas -----

  lemma PlacedFrom(s: Sys, pf: Pf, sl: Slab)
    requires Inv(s) && Usable(s, pf) && SlabOk(sl) && PagesOk(s, pf, sl)
    ensures Placed(s, pf, sl.arenas)
  {
    forall k: nat ensures PlacedAt(s, pf, sl.arenas, k) {
      assert RunOk(s, pf, sl, k) && ArenaOk(sl, k);
      assert k in sl.arenas ==> LiveAt(s, pf, k);
    }
  }

  /** Whatever headers and links hold, the pages are the same. */
  lemma MetaSame(g: Heap, pf: Pf, m: Memory)
    requires Placed(g.sys, pf, g.slab.arenas) && |g.slab.free| == DESC_CNT && OnlyMeta(g, pf, m)
    ensures OnlyPlain(g.sys, m) && Placed(g.sys.(m := m), pf, g.slab.arenas) && SamePages(g.sys, g.sys.(m := m), pf)
  {
    forall y: Frame, w: nat | w < 1024 && !Plain(g.sys, y) ensures Entry(m, y, w) == Entry(g.sys.m, y, w) {
      if Entry(m, y, w) != Entry(g.sys.m, y, w) {
        var k: nat :| LiveAt(g.sys, pf, k) && FrameAt(g.sys, pf, k) == y && MetaWord(g.slab, k, w);
        FrameOwned(g.sys, pf, k);
      }
    }
    PlainSame(g.sys, m, pf, g.slab.arenas);
  }

  lemma RelinkedTwice(g: Heap, h: Heap, r: Heap, pf: Pf)
    requires Placed(g.sys, pf, g.slab.arenas) && Relinked(g, h, pf) && Relinked(h, r, pf)
    ensures Relinked(g, r, pf)
  {
    MetaSame(g, pf, h.sys.m);
    forall y: Frame, w: nat | w < 1024 && Entry(r.sys.m, y, w) != Entry(g.sys.m, y, w)
      ensures exists k: nat {:trigger MetaWord(g.slab, k, w)} ::
                LiveAt(g.sys, pf, k) && FrameAt(g.sys, pf, k) == y && MetaWord(g.slab, k, w)
    {
      if Entry(h.sys.m, y, w) == Entry(g.sys.m, y, w) {
        var k: nat :| LiveAt(h.sys, pf, k) && FrameAt(h.sys, pf, k) == y && MetaWord(h.slab, k, w);
        SameBack(g.sys, h.sys, pf, k);
      }
    }
  }

  /** Pages are as they were before, too. */
  lemma SameBack(s: Sys, r: Sys, pf: Pf, k: nat)
    requires Core(s) && OnlyPlain(s, r.m) && r == s.(m := r.m) && SamePages(s, r, pf) && LiveAt(r, pf, k)
    ensures LiveAt(s, pf, k) && FrameAt(s, pf, k) == FrameAt(r, pf, k)
  {
    PlainEntry(s, r.m, OwnerAt(pf, k));
    PlainKeeps(s, r.m);
    assert Active(r, OwnerAt(pf, k)) <==> Active(s, OwnerAt(pf, k));
  }

  // ----- from words of the store to words of memory -----

  /** st1 differs from st in headers, sentinels and links of listed blocks only. */
  ghost predicate MetaOnly(st: Store, st1: Store, free: seq<seq<Ptr>>)
    requires |free| == DESC_CNT
  {
    forall cell {:trigger cell in st1} :: cell in st && cell in st1 && st1[cell] != st[cell] ==>
      cell.Hdr? || Used(free, cell)
  }

  lemma MetaFound(s: Sys, s1: Sys, pf: Pf, ends: seq<Ends>, ends1: seq<Ends>, sl: Slab, y: Frame, j: nat, cell: Cell)
    requires Placed(s, pf, sl.arenas) && Wrote(s, s1, pf, sl.arenas) && |sl.free| == DESC_CNT
    requires |ends| == DESC_CNT && |ends1| == DESC_CNT && CellAt(s, pf, sl.arenas, y, j, cell) && j < 1024
    requires MetaOnly(View(s, pf, ends, sl.arenas), View(s1, pf, ends1, sl.arenas), sl.free)
    requires Entry(s1.m, y, j) != Entry(s.m, y, j)
    ensures LiveAt(s, pf, CellPage(cell)) && FrameAt(s, pf, CellPage(cell)) == y && MetaWord(sl, CellPage(cell), j)
  {
    CellFits(sl.arenas, cell);
    assert PlacedAt(s, pf, sl.arenas, CellPage(cell));
    assert LiveAt(s1, pf, CellPage(cell)) && FrameAt(s1, pf, CellPage(cell)) == y;
    assert cell in View(s1, pf, ends1, sl.arenas);
    if !cell.Hdr? {
      var c: Class :| cell.n.p in sl.free[c];
    }
  }

  lemma MetaWrote(s: Sys, s1: Sys, pf: Pf, ends: seq<Ends>, ends1: seq<Ends>, sl: Slab)
    requires Placed(s, pf, sl.arenas) && Wrote(s, s1, pf, sl.arenas) && |sl.free| == DESC_CNT
    requires |ends| == DESC_CNT && |ends1| == DESC_CNT
    requires MetaOnly(View(s, pf, ends, sl.arenas), View(s1, pf, ends1, sl.arenas), sl.free)
    ensures Relinked(Heap(s, sl), Heap(s1, sl), pf)
  {
    forall y: Frame, j: nat | j < 1024 && Entry(s1.m, y, j) != Entry(s.m, y, j)
      ensures exists k: nat {:trigger MetaWord(sl, k, j)} ::
                LiveAt(s, pf, k) && FrameAt(s, pf, k) == y && MetaWord(sl, k, j)
    {
      var cell :| CellAt(s, pf, sl.arenas, y, j, cell);
      MetaFound(s, s1, pf, ends, ends1, sl, y, j, cell);
    }
  }

  // ----- handing out a block -----

  lemma BlockFree(sl: Slab, c: Class, b: Ptr)
    requires SlabOk(sl) && b in sl.free[c]
    ensures ProperNode(sl.arenas, Blk(b)) && sl.arenas[b.page].cls == c
  {
    assert FreeOk(sl, c, b);
  }

  /** Of a word that is not the block's own: if it was a word of the allocator's, it still is. */
  lemma MetaAfterPop(sl: Slab, c: Class, size: nat, k: nat, w: nat)
    requires SlabOk(sl) && sl.free[c] != [] && MetaWord(sl, k, w)
    ensures (HeadCounts(sl, c);
             MetaWord(Pop(sl, c, size), k, w)
             || (k == sl.free[c][0].page && sl.free[c][0].off / 4 <= w < sl.free[c][0].off / 4 + BlockSize(c) / 4))
  {
    HeadCounts(sl, c);
    var r, b := Pop(sl, c, size), sl.free[c][0];
    if k in sl.arenas && w < HEADER / 4 {
      assert k in r.arenas;
    } else {
      var d: Class, x: Ptr :| x in sl.free[d] && x.page == k && x.off / 4 <= w < x.off / 4 + 2;
      if x == b {
        assert FreeOk(sl, c, b) && FreeOk(sl, d, b);
      } else {
        assert x in r.free[d] by {
          if d == c {
            var i :| 0 <= i < |sl.free[c]| && sl.free[c][i] == x;
            assert sl.free[c][1..][i - 1] == x;
          }
        }
      }
    }
  }

  /** list_pop's stores come before the memset: the block is zero, and the rest differs in words of the
      allocator's. */
  lemma ClearedRelinked(g: Heap, pf: Pf, c: Class, size: nat, m: Memory)
    requires Ready(g, pf, c) && OnlyMeta(g, pf, m)
    ensures var r, b := GiveHead(g, pf, c, size).h, g.slab.free[c][0];
            |r.slab.free| == DESC_CNT &&
            OnlyMeta(r, pf, ClearWords(m, FrameAt(g.sys, pf, b.page), b.off / 4, BlockSize(c) / 4))
  {
    HeadLive(g, pf, c);
    HeadCounts(g.slab, c);
    var r, b := GiveHead(g, pf, c, size).h, g.slab.free[c][0];
    var f, at, n := FrameAt(g.sys, pf, b.page), b.off / 4, BlockSize(c) / 4;
    var t := ClearWords(m, f, at, n);
    BlockWords(c, b.page, b);
    forall y: Frame, w: nat | w < 1024 && Entry(t, y, w) != Entry(r.sys.m, y, w)
      ensures exists k: nat {:trigger MetaWord(r.slab, k, w)} ::
                LiveAt(r.sys, pf, k) && FrameAt(r.sys, pf, k) == y && MetaWord(r.slab, k, w)
    {
      ClearEntry(m, f, at, n, y, w);
      ClearEntry(g.sys.m, f, at, n, y, w);
      var k: nat :| LiveAt(g.sys, pf, k) && FrameAt(g.sys, pf, k) == y && MetaWord(g.slab, k, w);
      MetaAfterPop(g.slab, c, size, k, w);
      ZeroBlockFrames(g.sys, pf, b, c, k);
    }
  }

  /** A store to a header. */
  lemma HeaderRelinked(g: Heap, pf: Pf, m: Memory, k: nat, i: nat, w: Word)
    requires |g.slab.free| == DESC_CNT && OnlyMeta(g, pf, m) && k in g.slab.arenas && LiveAt(g.sys, pf, k) && i < 3
    ensures OnlyMeta(g, pf, m[FrameAt(g.sys, pf, k) * 1024 + i := w])
  {
    var t := m[FrameAt(g.sys, pf, k) * 1024 + i := w];
    forall y: Frame, j: nat | j < 1024 && Entry(t, y, j) != Entry(g.sys.m, y, j)
      ensures exists l: nat {:trigger MetaWord(g.slab, l, j)} ::
                LiveAt(g.sys, pf, l) && FrameAt(g.sys, pf, l) == y && MetaWord(g.slab, l, j)
    {
      EntryWritten(m, FrameAt(g.sys, pf, k), i, w, y, j);
      if y == FrameAt(g.sys, pf, k) && j == i { assert MetaWord(g.slab, k, j); }
    }
  }

  // ----- the words keep their meaning -----

  /** Same lists, perhaps fewer arenas, the same words: wired as before. */
  lemma WiredAgrees(env: Env, st: Store, r: Store, sl: Slab, t: Slab)
    requires Wired(env, st, sl) && t.free == sl.free
    requires forall k: nat {:trigger k in t.arenas} :: k in t.arenas ==> k in sl.arenas && t.arenas[k] == sl.arenas[k]
    requires forall cell {:trigger cell in st} ::
               cell in st && (if cell.Hdr? then cell.k in t.arenas else Used(sl.free, cell)) ==>
                 cell in r && r[cell] == st[cell]
    ensures Wired(env, r, t)
  {
    LinkedAgrees(env, st, r, sl.free);
    forall k: nat ensures HeaderOk(env, r, t.arenas, k) { assert HeaderOk(env, st, sl.arenas, k); }
  }

  lemma CellStays(s: Sys, r: Sys, pf: Pf, ends: seq<Ends>, cell: Cell)
    requires |ends| == DESC_CNT && (InMemory(cell) ==> StaysAt(s, r, pf, CellPage(cell)))
    ensures CellWord(r, pf, ends, cell) == CellWord(s, pf, ends, cell)
  {
  }

  /** If the first pages of the remaining arenas stay, so do the words in them. */
  lemma StaysWired(env: Env, pf: Pf, s: Sys, r: Sys, ends: seq<Ends>, sl: Slab, t: Slab, arenas: map<nat, Arena>)
    requires |ends| == DESC_CNT && Wired(env, View(s, pf, ends, sl.arenas), sl) && t.free == sl.free
    requires forall c: Class, b: Ptr {:trigger FreeOk(t, c, b)} :: FreeOk(t, c, b)
    requires forall k: nat {:trigger k in t.arenas} :: k in t.arenas ==>
               k in sl.arenas && t.arenas[k] == sl.arenas[k] && k in arenas && arenas[k] == t.arenas[k] &&
               StaysAt(s, r, pf, k)
    ensures Wired(env, View(r, pf, ends, arenas), t)
  {
    var st, st1 := View(s, pf, ends, sl.arenas), View(r, pf, ends, arenas);
    forall cell | cell in st && (if cell.Hdr? then cell.k in t.arenas else Used(sl.free, cell))
      ensures cell in st1 && st1[cell] == st[cell]
    {
      if !cell.Hdr? && cell.n.Blk? {
        var c: Class :| cell.n.p in sl.free[c];
        assert FreeOk(t, c, cell.n.p);
      }
      CellStays(s, r, pf, ends, cell);
    }
    WiredAgrees(env, st, st1, sl, t);
  }

  /** Mapping other pages. */
  lemma AllocatedStays(s: Sys, pf: Pf, n: nat, r: Sys, k: nat, j: nat)
    requires Inv(s) && Usable(s, pf) && GetPages(s, pf, n) == Got(r, k) && LiveAt(s, pf, j)
    ensures StaysAt(s, r, pf, j)
  {
    FrameOwned(s, pf, j);
    GetPagesKeeps(s, pf, n, r, k);
    GetPagesData(s, pf, n, r, k);
    KeptStays(s, r, pf, j);
  }

  lemma ReleasedStays(s: Sys, pf: Pf, k: nat, n: nat, j: nat)
    requires Inv(s) && Usable(s, pf) && Live(s, pf, k, n) && k + n <= |VBits(s, pf).v| && LiveAt(s, pf, j)
    requires j < k || k + n <= j
    ensures StaysAt(s, MfreePage(s, pf, k, n), pf, j)
  {
    MfreeShape(s, pf, k, n);
    MfreePageData(s, pf, k, n);
    var r := MfreePage(s, pf, k, n);
    FrameOwned(s, pf, j);
    assert OwnShrunkAt(s, r, pf, k, n, FrameAt(s, pf, j));
    KeptStays(s, r, pf, j);
  }

  lemma ArenaAllocated(h: Heap, pf: Pf, n: nat, r: Sys, k: nat, l: nat)
    requires HeapInv(h, pf) && GetPages(h.sys, pf, n) == Got(r, k) && l in h.slab.arenas
    ensures StaysAt(h.sys, r, pf, l)
  {
    ArenaLive(h, pf, l);
    AllocatedStays(h.sys, pf, n, r, k, l);
  }

  lemma ArenasAllocated(h: Heap, pf: Pf, n: nat, r: Sys, k: nat)
    requires HeapInv(h, pf) && GetPages(h.sys, pf, n) == Got(r, k)
    ensures forall l: nat {:trigger l in h.slab.arenas} :: l in h.slab.arenas ==> StaysAt(h.sys, r, pf, l)
    ensures forall c: Class, b: Ptr {:trigger FreeOk(h.slab, c, b)} :: FreeOk(h.slab, c, b)
  {
    forall l: nat | l in h.slab.arenas ensures StaysAt(h.sys, r, pf, l) { ArenaAllocated(h, pf, n, r, k, l); }
  }

  /** get_kernel_pages and the like leave all headers and links. */
  lemma AllocatedWired(env: Env, h: Heap, pf: Pf, ends: seq<Ends>, n: nat, r: Sys, k: nat, a: Arena)
    requires HeapInv(h, pf) && |ends| == DESC_CNT && Wired(env, View(h.sys, pf, ends, h.slab.arenas), h.slab)
    requires GetPages(h.sys, pf, n) == Got(r, k) && k !in h.slab.arenas
    ensures Wired(env, View(r, pf, ends, h.slab.arenas[k := a]), h.slab)
  {
    ArenasAllocated(h, pf, n, r, k);
    StaysWired(env, pf, h.sys, r, ends, h.slab, h.slab, h.slab.arenas[k := a]);
  }

  /** mfree_page on one arena leaves the headers and links of the others. */
  lemma ReleasedWired(env: Env, s: Sys, pf: Pf, ends: seq<Ends>, sl: Slab, k: nat, t: Slab)
    requires Inv(s) && Usable(s, pf) && PagesOk(s, pf, sl) && k in sl.arenas && |ends| == DESC_CNT
    requires Wired(env, View(s, pf, ends, sl.arenas), sl) && t.free == sl.free && t.arenas == sl.arenas - {k}
    requires SlabOk(t) && k + Span(sl.arenas[k]) <= |VBits(s, pf).v|
    requires forall l: nat {:trigger ApartAt(sl, k, l)} :: ApartAt(sl, k, l)
    requires forall l: nat {:trigger l in sl.arenas} :: l in sl.arenas ==> Span(sl.arenas[l]) >= 1
    ensures Live(s, pf, k, Span(sl.arenas[k]))
    ensures Wired(env, View(MfreePage(s, pf, k, Span(sl.arenas[k])), pf, ends, t.arenas), t)
  {
    var n := Span(sl.arenas[k]);
    assert RunOk(s, pf, sl, k);
    var r := MfreePage(s, pf, k, n);
    forall l: nat | l in t.arenas ensures StaysAt(s, r, pf, l) {
      assert RunOk(s, pf, sl, l) && ApartAt(sl, k, l);
      assert LiveAt(s, pf, l);
      ReleasedStays(s, pf, k, n, l);
    }
    forall c: Class, b: Ptr ensures FreeOk(t, c, b) { }
    StaysWired(env, pf, s, r, ends, sl, t, t.arenas);
  }

  /** Page operations of others leave them all. */
  lemma OthersWired(env: Env, h: Heap, pf: Pf, ends: seq<Ends>, op: Op)
    requires HeapInv(h, pf) && |ends| == DESC_CNT && Wired(env, View(h.sys, pf, ends, h.slab.arenas), h.slab)
    requires Enabled(h.sys, op) && Foreign(h, pf, op) && Next(h.sys, op).Done?
    ensures Wired(env, View(Next(h.sys, op).value, pf, ends, h.slab.arenas), h.slab)
  {
    var r := Next(h.sys, op).value;
    forall l: nat | l in h.slab.arenas ensures StaysAt(h.sys, r, pf, l) {
      ArenaLive(h, pf, l);
      assert InArena(h.slab, l, l);
      OthersStay(h, pf, op, l, l);
    }
    forall c: Class, b: Ptr ensures FreeOk(h.slab, c, b) { }
    StaysWired(env, pf, h.sys, r, ends, h.slab, h.slab, h.slab.arenas);
  }

  /** Other words of the same frames. */
  lemma WordsWired(env: Env, s: Sys, r: Sys, pf: Pf, ends: seq<Ends>, sl: Slab)
    requires |ends| == DESC_CNT && Placed(s, pf, sl.arenas) && SamePages(s, r, pf)
    requires Wired(env, View(s, pf, ends, sl.arenas), sl)
    requires forall cell {:trigger InMemory(cell)} ::
               Proper(sl.arenas, cell) && InMemory(cell) && (cell.Hdr? || Used(sl.free, cell)) ==>
                 CellWord(r, pf, ends, cell) == CellWord(s, pf, ends, cell)
    ensures Wired(env, View(r, pf, ends, sl.arenas), sl)
  {
    var st, st1 := View(s, pf, ends, sl.arenas), View(r, pf, ends, sl.arenas);
    forall cell | cell in st && (if cell.Hdr? then cell.k in sl.arenas else Used(sl.free, cell))
      ensures cell in st1 && st1[cell] == st[cell]
    {
      assert InMemory(cell) || CellWord(r, pf, ends, cell) == CellWord(s, pf, ends, cell);
    }
    WiredAgrees(env, st, st1, sl, sl);
  }

  /** The memset of a block that is on no list. */
  lemma ZeroedWired(env: Env, s: Sys, pf: Pf, ends: seq<Ends>, sl: Slab, b: Ptr, c: Class)
    requires Placed(s, pf, sl.arenas) && |ends| == DESC_CNT && Wired(env, View(s, pf, ends, sl.arenas), sl)
    requires ProperNode(sl.arenas, Blk(b)) && sl.arenas[b.page].cls == c && forall d: Class :: b !in sl.free[d]
    ensures var r := ZeroBlock(s, pf, b, c);
            Placed(r, pf, sl.arenas) && SamePages(s, r, pf) && Wired(env, View(r, pf, ends, sl.arenas), sl)
  {
    var r := ZeroBlock(s, pf, b, c);
    assert PlacedAt(s, pf, sl.arenas, b.page);
    ZeroSame(s, pf, sl.arenas, b, c);
    forall cell | Proper(sl.arenas, cell) && InMemory(cell) && (cell.Hdr? || Used(sl.free, cell))
      ensures CellWord(r, pf, ends, cell) == CellWord(s, pf, ends, cell)
    {
      ZeroCell(s, pf, ends, sl.arenas, b, c, cell);
    }
    WordsWired(env, s, r, pf, ends, sl);
  }

  lemma ZeroSame(s: Sys, pf: Pf, arenas: map<nat, Arena>, b: Ptr, c: Class)
    requires Placed(s, pf, arenas) && LiveAt(s, pf, b.page) && b in AllBlocks(b.page, c)
    ensures var r := ZeroBlock(s, pf, b, c); Placed(r, pf, arenas) && SamePages(s, r, pf)
  {
    var f := FrameAt(s, pf, b.page);
    FrameOwned(s, pf, b.page);
    BlockWords(c, b.page, b);
    forall y: Frame, j: nat | j < 1024 && !Plain(s, y)
      ensures Entry(ZeroBlock(s, pf, b, c).m, y, j) == Entry(s.m, y, j)
    {
      ClearEntry(s.m, f, b.off / 4, BlockSize(c) / 4, y, j);
    }
    PlainSame(s, ZeroBlock(s, pf, b, c).m, pf, arenas);
  }

  lemma ZeroCell(s: Sys, pf: Pf, ends: seq<Ends>, arenas: map<nat, Arena>, b: Ptr, c: Class, cell: Cell)
    requires Placed(s, pf, arenas) && |ends| == DESC_CNT && SamePages(s, ZeroBlock(s, pf, b, c), pf)
    requires ProperNode(arenas, Blk(b)) && arenas[b.page].cls == c
    requires Proper(arenas, cell) && InMemory(cell) && (!cell.Hdr? ==> cell.n.p != b)
    ensures CellWord(ZeroBlock(s, pf, b, c), pf, ends, cell) == CellWord(s, pf, ends, cell)
  {
    var k, l := CellPage(cell), b.page;
    CellFits(arenas, cell);
    BlockWords(c, l, b);
    assert PlacedAt(s, pf, arenas, k) && PlacedAt(s, pf, arenas, l);
    ClearEntry(s.m, FrameAt(s, pf, l), b.off / 4, BlockSize(c) / 4, FrameAt(s, pf, k), CellIndex(cell));
    if k != l {
      FrameUnique(s, pf, k, l);
    } else if !cell.Hdr? {
      BlocksApart(c, l, cell.n.p, b);
    }
  }

  /** A program's own stores leave headers and links. */
  lemma FillWired(env: Env, h: Heap, pf: Pf, ends: seq<Ends>, p: Ptr, j: nat, w: Word)
    requires HeapInv(h, pf) && |ends| == DESC_CNT && Wired(env, View(h.sys, pf, ends, h.slab.arenas), h.slab)
    requires p in h.slab.live && j < WordsOf(h.slab.live[p])
    ensures Wired(env, View(Filled(h, pf, p, j, w).sys, pf, ends, h.slab.arenas), h.slab)
  {
    var k, i := PageAt(p, j), IndexAt(p, j);
    FillPlace(h, pf, p, j, w);
    StoredWired(env, h.sys, pf, ends, h.slab, k, i, w);
  }

  lemma FillPlace(h: Heap, pf: Pf, p: Ptr, j: nat, w: Word)
    requires HeapInv(h, pf) && p in h.slab.live && j < WordsOf(h.slab.live[p])
    ensures Placed(h.sys, pf, h.slab.arenas) && LiveAt(h.sys, pf, PageAt(p, j))
    ensures !MetaWord(h.slab, PageAt(p, j), IndexAt(p, j))
    ensures Filled(h, pf, p, j, w).sys == Stored(h.sys, pf, PageAt(p, j), IndexAt(p, j), w)
  {
    PlacedFrom(h.sys, pf, h.slab);
    LiveWord(h, pf, p, j);
    MetaApart(h, pf, p, j);
  }

  lemma StoredWired(env: Env, s: Sys, pf: Pf, ends: seq<Ends>, sl: Slab, k: nat, i: nat, w: Word)
    requires Placed(s, pf, sl.arenas) && |ends| == DESC_CNT && Wired(env, View(s, pf, ends, sl.arenas), sl)
    requires LiveAt(s, pf, k) && i < 1024 && !MetaWord(sl, k, i)
    ensures Wired(env, View(Stored(s, pf, k, i, w), pf, ends, sl.arenas), sl)
  {
    var r := Stored(s, pf, k, i, w);
    StoreKeeps(s, pf, sl.arenas, k, i, w);
    forall cell | Proper(sl.arenas, cell) && InMemory(cell) && (cell.Hdr? || Used(sl.free, cell))
      ensures CellWord(r, pf, ends, cell) == CellWord(s, pf, ends, cell)
    {
      StoredBeside(s, pf, ends, sl, k, i, w, cell);
    }
    WordsWired(env, s, r, pf, ends, sl);
  }

  lemma StoredBeside(s: Sys, pf: Pf, ends: seq<Ends>, sl: Slab, k: nat, i: nat, w: Word, cell: Cell)
    requires Placed(s, pf, sl.arenas) && |ends| == DESC_CNT && |sl.free| == DESC_CNT && LiveAt(s, pf, k) && i < 1024
    requires SamePages(s, Stored(s, pf, k, i, w), pf) && !MetaWord(sl, k, i)
    requires Proper(sl.arenas, cell) && InMemory(cell) && (cell.Hdr? || Used(sl.free, cell))
    ensures CellWord(Stored(s, pf, k, i, w), pf, ends, cell) == CellWord(s, pf, ends, cell)
  {
    var l := CellPage(cell);
    MetaCell(sl, cell);
    assert PlacedAt(s, pf, sl.arenas, l);
    EntryWritten(s.m, FrameAt(s, pf, k), i, w, FrameAt(s, pf, l), CellIndex(cell));
    if l != k { FrameUnique(s, pf, l, k); }
  }

  lemma MetaCell(sl: Slab, cell: Cell)
    requires |sl.free| == DESC_CNT && Proper(sl.arenas, cell) && InMemory(cell) && (cell.Hdr? || Used(sl.free, cell))
    ensures CellPage(cell) in sl.arenas && CellIndex(cell) < 1024 && MetaWord(sl, CellPage(cell), CellIndex(cell))
  {
    CellFits(sl.arenas, cell);
    if !cell.Hdr? { var c: Class :| cell.n.p in sl.free[c]; }
  }

  // ----- stores that keep the wiring -----

  lemma AppendedWired(env: Env, st: Store, sl: Slab, c: Class, b: Ptr)
    requires Wired(env, st, sl) && (forall d: Class :: b !in sl.free[d]) && NextOf(Blk(b)) in st && PrevOf(Blk(b)) in st
    ensures Wired(env, Appended(env, st, c, sl.free[c], b), sl.(free := sl.free[c := sl.free[c] + [b]]))
  {
    AppendLinks(env, st, sl.free, c, b);
    var r := Appended(env, st, c, sl.free[c], b);
    forall k: nat ensures HeaderOk(env, r, sl.arenas, k) { assert HeaderOk(env, st, sl.arenas, k); }
  }

  lemma RemovedWired(env: Env, st: Store, sl: Slab, c: Class, i: nat)
    requires Wired(env, st, sl) && i < |sl.free[c]|
    ensures Wired(env, Removed(env, st, c, sl.free[c], i), sl.(free := sl.free[c := RemoveAt(sl.free[c], i)]))
  {
    RemoveLinks(env, st, sl.free, c, i);
    var r := Removed(env, st, c, sl.free[c], i);
    forall k: nat ensures HeaderOk(env, r, sl.arenas, k) { assert HeaderOk(env, st, sl.arenas, k); }
  }

  /** They touch nodes of that list, its sentinels and the block. */
  lemma AppendedMeta(env: Env, st: Store, free: seq<seq<Ptr>>, c: Class, b: Ptr)
    requires |free| == DESC_CNT
    ensures MetaOnly(st, Appended(env, st, c, free[c], b), free[c := free[c] + [b]])
  {
    var list, t := free[c], free[c := free[c] + [b]];
    var a := Nodes(c, list)[|list|];
    NodesAt(c, list);
    assert t[c][|list|] == b;
    if a.Blk? { assert a.p == list[|list| - 1] == t[c][|list| - 1]; }
  }

  lemma RemovedMeta(env: Env, st: Store, free: seq<seq<Ptr>>, c: Class, i: nat)
    requires |free| == DESC_CNT && i < |free[c]|
    ensures MetaOnly(st, Removed(env, st, c, free[c], i), free)
  {
    NodesAt(c, free[c]);
    var a, b := Nodes(c, free[c])[i], Nodes(c, free[c])[i + 2];
    assert a in Nodes(c, free[c]) && b in Nodes(c, free[c]);
  }

  lemma MetaTwice(st: Store, st1: Store, st2: Store, free: seq<seq<Ptr>>, free1: seq<seq<Ptr>>)
    requires |free| == |free1| == DESC_CNT && MetaOnly(st, st1, free) && MetaOnly(st1, st2, free1)
    requires (forall cell :: cell in st2 ==> cell in st1) && forall c: Class, b :: b in free[c] ==> b in free1[c]
    ensures MetaOnly(st, st2, free1)
  {
    forall cell | cell in st && cell in st2 && st2[cell] != st[cell] ensures cell.Hdr? || Used(free1, cell) {
      if st1[cell] != st[cell] && !cell.Hdr? && cell.n.Blk? {
        var c: Class :| cell.n.p in free[c];
        assert cell.n.p in free1[c];
      }
    }
  }

  /** An append that follows other stores. */
  lemma AppendedTwice(env: Env, st: Store, st1: Store, free: seq<seq<Ptr>>, c: Class, b: Ptr)
    requires Linked(env, st1, free) && MetaOnly(st, st1, free) && NextOf(Blk(b)) in st1 && PrevOf(Blk(b)) in st1
    ensures MetaOnly(st, Appended(env, st1, c, free[c], b), free[c := free[c] + [b]])
  {
    AppendedMeta(env, st1, free, c, b);
    assert ListOk(env, st1, free, c);
    NodesAt(c, free[c]);
    assert LinkAt(env, st1, Nodes(c, free[c]), |free[c]|);
    MetaTwice(st, st1, Appended(env, st1, c, free[c], b), free, free[c := free[c] + [b]]);
  }

  /** One header word; which words there are depends on the kind of the arenas only. */
  lemma ViewShape(s: Sys, pf: Pf, ends: seq<Ends>, arenas: map<nat, Arena>, k: nat, a: Arena)
    requires |ends| == DESC_CNT && k in arenas && arenas[k].Small? && a.Small? && a.cls == arenas[k].cls
    ensures View(s, pf, ends, arenas[k := a]) == View(s, pf, ends, arenas)
    ensures Placed(s, pf, arenas) ==> Placed(s, pf, arenas[k := a])
  {
    if Placed(s, pf, arenas) {
      var t := arenas[k := a];
      forall l: nat ensures PlacedAt(s, pf, t, l) { assert PlacedAt(s, pf, arenas, l); }
    }
  }

  lemma CountWired(env: Env, st: Store, sl: Slab, k: nat, cnt: nat)
    requires Wired(env, st, sl) && k in sl.arenas && sl.arenas[k].Small?
    ensures Wired(env, st[Hdr(k, 1) := cnt], sl.(arenas := sl.arenas[k := Small(sl.arenas[k].cls, cnt)]))
  {
    var r, t := st[Hdr(k, 1) := cnt], sl.arenas[k := Small(sl.arenas[k].cls, cnt)];
    LinkedAgrees(env, st, r, sl.free);
    forall l: nat ensures HeaderOk(env, r, t, l) { assert HeaderOk(env, st, sl.arenas, l); }
  }

  /** A new arena's three header words. */
  function HeaderSet(env: Env, st: Store, k: nat, a: Arena): Store
  {
    match a
    case Small(c, cnt) => st[Hdr(k, 0) := DescAddr(env, c)][Hdr(k, 2) := 0][Hdr(k, 1) := cnt]
    case Large(n) => st[Hdr(k, 0) := 0][Hdr(k, 1) := n][Hdr(k, 2) := 1]
  }

  lemma HeaderWired(env: Env, st: Store, sl: Slab, k: nat, a: Arena)
    requires Wired(env, st, sl) && k !in sl.arenas
    ensures Wired(env, HeaderSet(env, st, k, a), sl.(arenas := sl.arenas[k := a]))
  {
    var r, t := HeaderSet(env, st, k, a), sl.arenas[k := a];
    LinkedAgrees(env, st, r, sl.free);
    forall l: nat ensures HeaderOk(env, r, t, l) { assert HeaderOk(env, st, sl.arenas, l); }
  }

  // ----- the pieces of handing out a block, put together -----

  /** list_pop's stores, after others to such words. */
  lemma RemovedRelinked(env: Env, g: Heap, s: Sys, s1: Sys, pf: Pf, ends: seq<Ends>, ends1: seq<Ends>, sl: Slab,
                        c: Class, i: nat)
    requires |ends| == DESC_CNT && |ends1| == DESC_CNT && Placed(g.sys, pf, g.slab.arenas) && |sl.free| == DESC_CNT
    requires Relinked(g, Heap(s, g.slab), pf) && Placed(s, pf, g.slab.arenas) && Wrote(s, s1, pf, g.slab.arenas)
    requires i < |sl.free[c]| && forall d: Class, b :: b in sl.free[d] ==> b in g.slab.free[d]
    requires View(s1, pf, ends1, g.slab.arenas) == Removed(env, View(s, pf, ends, g.slab.arenas), c, sl.free[c], i)
    ensures Relinked(g, Heap(s1, g.slab), pf)
  {
    var st, st1 := View(s, pf, ends, g.slab.arenas), View(s1, pf, ends1, g.slab.arenas);
    RemovedMeta(env, st, sl.free, c, i);
    MetaWider(st, st1, sl.free, g.slab.free);
    MetaWrote(s, s1, pf, ends, ends1, g.slab);
    RelinkedTwice(g, Heap(s, g.slab), Heap(s1, g.slab), pf);
  }

  lemma MetaWider(st: Store, st1: Store, free: seq<seq<Ptr>>, free1: seq<seq<Ptr>>)
    requires |free| == |free1| == DESC_CNT && MetaOnly(st, st1, free)
    requires forall d: Class, b :: b in free[d] ==> b in free1[d]
    ensures MetaOnly(st, st1, free1)
  {
    forall cell | cell in st && cell in st1 && st1[cell] != st[cell] ensures cell.Hdr? || Used(free1, cell) {
      if !cell.Hdr? && cell.n.Blk? {
        var c: Class :| cell.n.p in free[c];
        assert cell.n.p in free1[c];
      }
    }
  }

  lemma HeadOffLists(sl: Slab, c: Class)
    requires SlabOk(sl) && sl.free[c] != []
    ensures var b, t := sl.free[c][0], sl.free[c := sl.free[c][1..]] ; forall d: Class :: b !in t[d]
  {
    HeadCounts(sl, c);
    var b := sl.free[c][0];
    forall d: Class | d != c ensures b !in sl.free[d] { assert FreeOk(sl, c, b) && FreeOk(sl, d, b); }
  }

  /** After list_pop and the memset. */
  lemma ClearedPages(g: Heap, pf: Pf, c: Class, size: nat, m: Memory)
    requires Ready(g, pf, c) && OnlyMeta(g, pf, m)
    ensures var b, s := g.slab.free[c][0], g.sys.(m := m);
            var t, gh := ZeroBlock(s, pf, b, c), GiveHead(g, pf, c, size).h;
            |gh.slab.free| == DESC_CNT && t == gh.sys.(m := t.m) && OnlyMeta(gh, pf, t.m) &&
            LiveAt(gh.sys, pf, b.page) && b.page in gh.slab.arenas &&
            FrameAt(t, pf, b.page) == FrameAt(gh.sys, pf, b.page)
  {
    var b, s := g.slab.free[c][0], g.sys.(m := m);
    HeadLive(g, pf, c);
    HeadCounts(g.slab, c);
    PlacedFrom(g.sys, pf, g.slab);
    MetaSame(g, pf, m);
    ClearedRelinked(g, pf, c, size, m);
    ZeroBlockFrames(g.sys, pf, b, c, b.page);
    assert LiveAt(s, pf, b.page);
    ZeroSame(s, pf, g.slab.arenas, b, c);
  }

  /** The counter's store completes it. */
  lemma GivenRelinked(g: Heap, pf: Pf, c: Class, size: nat, m: Memory, cnt: Word)
    requires Ready(g, pf, c) && OnlyMeta(g, pf, m)
    ensures var b, s := g.slab.free[c][0], g.sys.(m := m);
            var gh := GiveHead(g, pf, c, size).h;
            Relinked(gh, Heap(Stored(ZeroBlock(s, pf, b, c), pf, b.page, 1, cnt), gh.slab), pf)
  {
    var b, s := g.slab.free[c][0], g.sys.(m := m);
    var t, gh := ZeroBlock(s, pf, b, c), GiveHead(g, pf, c, size).h;
    ClearedPages(g, pf, c, size, m);
    HeaderStored(gh, t, pf, b.page, cnt);
  }

  lemma HeaderStored(g: Heap, t: Sys, pf: Pf, k: nat, cnt: Word)
    requires |g.slab.free| == DESC_CNT && t == g.sys.(m := t.m) && OnlyMeta(g, pf, t.m)
    requires LiveAt(g.sys, pf, k) && k in g.slab.arenas && FrameAt(t, pf, k) == FrameAt(g.sys, pf, k)
    ensures Relinked(g, Heap(Stored(t, pf, k, 1, cnt), g.slab), pf)
  {
    HeaderRelinked(g, pf, t.m, k, 1, cnt);
  }

  // ----- the pieces of cutting an arena, put together -----

  /** The lists while the arena at k is cut: its first n blocks are on list c. */
  ghost predicate Cut(sl: Slab, free: seq<seq<Ptr>>, k: nat, c: Class, n: nat)
    requires |sl.free| == DESC_CNT
  {
    n <= PerArena(c) && |free| == DESC_CNT && free == sl.free[c := sl.free[c] + BlockSeq(k, c)[..n]]
  }

  lemma NextBlockAbsent(sl: Slab, free: seq<seq<Ptr>>, k: nat, c: Class, n: nat)
    requires SlabOk(sl) && FreshRun(sl, k, 1) && Cut(sl, free, k, c, n) && n < PerArena(c)
    ensures forall d: Class :: Block(k, c, n) !in free[d]
  {
    var b := Block(k, c, n);
    BlockSeqAll(k, c);
    assert BlockSeq(k, c)[n] == b && b in BlockSeq(k, c);
    NewBlocksAbsent(sl, k, c, b);
    NotBefore(BlockSeq(k, c), n);
    forall d: Class ensures b !in free[d] { assert FreeOk(sl, d, b); }
  }

  lemma NotBefore<T>(s: seq<T>, n: nat)
    requires Distinct(s) && n < |s|
    ensures s[n] !in s[..n]
  {
    forall i | 0 <= i < n ensures s[..n][i] != s[n] { assert s[i] != s[n]; }
  }

  lemma CutNext(sl: Slab, free: seq<seq<Ptr>>, k: nat, c: Class, n: nat)
    requires |sl.free| == DESC_CNT && Cut(sl, free, k, c, n) && n < PerArena(c)
    ensures Cut(sl, free[c := free[c] + [Block(k, c, n)]], k, c, n + 1)
  {
    var blocks := BlockSeq(k, c);
    assert blocks[..n + 1] == blocks[..n] + [blocks[n]];
    assert sl.free[c] + blocks[..n + 1] == free[c] + [Block(k, c, n)];
  }

  lemma CutNone(sl: Slab, k: nat, c: Class)
    requires |sl.free| == DESC_CNT
    ensures Cut(sl, sl.free, k, c, 0)
  {
    assert sl.free[c] + BlockSeq(k, c)[..0] == sl.free[c];
  }

  lemma CutAll(sl: Slab, free: seq<seq<Ptr>>, k: nat, c: Class)
    requires |sl.free| == DESC_CNT && Cut(sl, free, k, c, PerArena(c))
    ensures free == Carve(sl, k, c).free
  {
    assert BlockSeq(k, c)[..PerArena(c)] == BlockSeq(k, c);
  }

  lemma HeaderMeta(env: Env, st: Store, k: nat, a: Arena, free: seq<seq<Ptr>>)
    requires |free| == DESC_CNT
    ensures MetaOnly(st, HeaderSet(env, st, k, a), free)
  {
  }

  // ----- the calls -----

  lemma RelinkedNone(g: Heap, pf: Pf)
    requires |g.slab.free| == DESC_CNT
    ensures Relinked(g, g, pf)
  {
  }

  lemma RelinkedKeeps(g: Heap, r: Heap, pf: Pf)
    requires HeapInv(g, pf) && Relinked(g, r, pf)
    ensures HeapInv(r, pf)
  {
    MetaKeeps(g, pf, r.sys.m);
  }

  lemma PagesCounted(s: Sys, pf: Pf, n: nat)
    requires Core(s) && Usable(s, pf) && GetPages(s, pf, n).Got?
    ensures n < 3840
  {
  }

  /** What get_kernel_pages leaves for a new arena at k. */
  lemma GrownReady(env: Env, h: Heap, pf: Pf, ends: seq<Ends>, c: Class, s: Sys, k: nat)
    requires HeapInv(h, pf) && h.slab.free[c] == [] && GetPages(h.sys, pf, 1) == Got(s, k) && |ends| == DESC_CNT
    requires Wired(env, View(h.sys, pf, ends, h.slab.arenas), h.slab)
    ensures FreshRun(h.slab, k, 1) && k !in h.slab.arenas && Ready(Heap(s, Carve(h.slab, k, c)), pf, c)
    ensures Wired(env, View(s, pf, ends, Carve(h.slab, k, c).arenas), h.slab)
  {
    NewRunFresh(h, pf, 1, s, k);
    CarveKeeps(h.slab, k, c);
    CarvedReady(h, pf, c, s, k);
    AllocatedWired(env, h, pf, ends, 1, s, k, Small(c, PerArena(c)));
  }

  lemma LargeFits(h: Heap, pf: Pf, size: nat, s: Sys, k: nat)
    requires HeapInv(h, pf) && size > 0 && GetPages(h.sys, pf, PagesFor(size)) == Got(s, k)
    ensures k !in h.slab.arenas && PagesFor(size) < 3840
    ensures Placed(s, pf, h.slab.arenas[k := Large(PagesFor(size))])
  {
    var n := PagesFor(size);
    var t := AddLarge(h.slab, k, n, size);
    NewRunFresh(h, pf, n, s, k);
    AddLargeKeeps(h.slab, k, n, size);
    PagesCounted(h.sys, pf, n);
    MallocLargeKeeps(h, pf, size);
    assert MallocLarge(h, pf, size).h == Heap(s, t);
    PlacedFrom(s, pf, t);
  }

  /** The same for a large allocation. */
  lemma LargeReady(env: Env, h: Heap, pf: Pf, ends: seq<Ends>, size: nat, s: Sys, k: nat)
    requires HeapInv(h, pf) && size > 0 && GetPages(h.sys, pf, PagesFor(size)) == Got(s, k) && |ends| == DESC_CNT
    requires Wired(env, View(h.sys, pf, ends, h.slab.arenas), h.slab)
    ensures var arenas := h.slab.arenas[k := Large(PagesFor(size))];
            k !in h.slab.arenas && PagesFor(size) < 3840 && Placed(s, pf, arenas) &&
            Wired(env, View(s, pf, ends, arenas), h.slab)
  {
    LargeFits(h, pf, size, s, k);
    AllocatedWired(env, h, pf, ends, PagesFor(size), s, k, Large(PagesFor(size)));
  }

  // ----- the pieces of taking a block back, put together -----

  /** A block that is handed out is on no list. */
  lemma LiveOffEvery(sl: Slab, p: Ptr)
    requires SlabOk(sl) && p in sl.live && p.page in sl.arenas && sl.arenas[p.page].Small?
    ensures ProperNode(sl.arenas, Blk(p)) && |sl.free| == DESC_CNT && forall d: Class :: p !in sl.free[d]
    ensures sl.arenas[p.page].cnt < 4096
  {
    assert LiveOk(sl, p) && ArenaOk(sl, p.page);
    FullIff(sl, p.page);
    forall d: Class ensures p !in sl.free[d] { assert FreeOk(sl, d, p); }
  }

  lemma MetaKey(sl: Slab, t: Slab, k: nat, w: nat)
    requires |sl.free| == DESC_CNT && t.free == sl.free && t.arenas.Keys == sl.arenas.Keys && MetaWord(sl, k, w)
    ensures MetaWord(t, k, w)
  {
    assert k in t.arenas.Keys <==> k in sl.arenas.Keys;
    if !(k in sl.arenas && w < HEADER / 4) {
      var c: Class, b: Ptr :| b in sl.free[c] && b.page == k && b.off / 4 <= w < b.off / 4 + 2;
      assert b in t.free[c];
    }
  }

  lemma MetaKeys(s: Sys, pf: Pf, sl: Slab, t: Slab, m: Memory)
    requires |sl.free| == DESC_CNT && t.free == sl.free && t.arenas.Keys == sl.arenas.Keys
    requires OnlyMeta(Heap(s, sl), pf, m)
    ensures OnlyMeta(Heap(s, t), pf, m)
  {
    forall y: Frame, w: nat | w < 1024 && Entry(m, y, w) != Entry(s.m, y, w)
      ensures exists k: nat {:trigger MetaWord(t, k, w)} ::
                LiveAt(s, pf, k) && FrameAt(s, pf, k) == y && MetaWord(t, k, w)
    {
      var k: nat :| LiveAt(s, pf, k) && FrameAt(s, pf, k) == y && MetaWord(sl, k, w);
      MetaKey(sl, t, k, w);
    }
  }

  /** list_append's stores and the counter's. */
  lemma PutRelinked(env: Env, s: Sys, s1: Sys, pf: Pf, ends: seq<Ends>, ends1: seq<Ends>, sl: Slab, p: Ptr, cnt: Word)
    requires |sl.free| == DESC_CNT && p.page in sl.arenas && sl.arenas[p.page].Small?
    requires Placed(s, pf, sl.arenas) && Wrote(s, s1, pf, sl.arenas) && |ends| == DESC_CNT && |ends1| == DESC_CNT
    requires var c := sl.arenas[p.page].cls;
             View(s1, pf, ends1, sl.arenas) == Appended(env, View(s, pf, ends, sl.arenas), c, sl.free[c], p)
    ensures var t := Stored(s1, pf, p.page, 1, cnt); t == s.(m := t.m) && OnlyMeta(Heap(s, Put(sl, p)), pf, t.m)
  {
    var c, k := sl.arenas[p.page].cls, p.page;
    var mid := sl.(free := sl.free[c := sl.free[c] + [p]]);
    AppendedMeta(env, View(s, pf, ends, sl.arenas), sl.free, c, p);
    MetaWrote(s, s1, pf, ends, ends1, mid);
    assert PlacedAt(s, pf, sl.arenas, k);
    HeaderRelinked(Heap(s, mid), pf, s1.m, k, 1, cnt);
    MetaKeys(s, pf, mid, Put(sl, p), Stored(s1, pf, k, 1, cnt).m);
  }

  /** The list while the arena at k is taken apart: its first n blocks are off it. */
  ghost predicate TakenOff(sl: Slab, free: seq<seq<Ptr>>, k: nat, c: Class, n: nat)
    requires |sl.free| == DESC_CNT
  {
    n <= PerArena(c) && free == sl.free[c := Without(sl.free[c], Taken(BlockSeq(k, c), n))]
  }

  lemma TakenOffNone(sl: Slab, k: nat, c: Class)
    requires |sl.free| == DESC_CNT
    ensures TakenOff(sl, sl.free, k, c, 0)
  {
    WithoutNone(sl.free[c], Taken(BlockSeq(k, c), 0));
  }

  lemma TakenOffAll(sl: Slab, free: seq<seq<Ptr>>, k: nat, c: Class)
    requires |sl.free| == DESC_CNT && TakenOff(sl, free, k, c, PerArena(c))
    ensures free == sl.free[c := Without(sl.free[c], AllBlocks(k, c))]
  {
    BlockSeqAll(k, c);
    assert Taken(BlockSeq(k, c), PerArena(c)) == AllBlocks(k, c);
  }

  /** The next block is on the list, and without it the list is the next one. */
  lemma TakenOffNext(sl: Slab, free: seq<seq<Ptr>>, k: nat, c: Class, n: nat) returns (i: nat)
    requires |sl.free| == DESC_CNT && Distinct(sl.free[c]) && TakenOff(sl, free, k, c, n) && n < PerArena(c)
    requires forall b :: b in AllBlocks(k, c) ==> b in sl.free[c]
    ensures i < |free[c]| && free[c][i] == Block(k, c, n)
    ensures TakenOff(sl, free[c := RemoveAt(free[c], i)], k, c, n + 1)
    ensures forall d: Class, b :: b in free[d] ==> b in sl.free[d]
  {
    var blocks := BlockSeq(k, c);
    BlockSeqAll(k, c);
    assert blocks[n] == Block(k, c, n) && blocks[n] in blocks;
    WithoutMembers(sl.free[c], Taken(blocks, n));
    TakenStep(sl.free[c], blocks, n);
    i :| 0 <= i < |free[c]| && free[c][i] == blocks[n];
    RemoveAtWithout(free[c], i);
  }

  lemma FreedIs(h: Heap, pf: Pf, p: Ptr)
    requires HeapInv(h, pf) && p in h.slab.live && p.page in h.slab.arenas && h.slab.arenas[p.page].Small?
    ensures var sl, k := Put(h.slab, p), p.page;
            Live(h.sys, pf, k, 1) && k + 1 <= 8 * VBits(h.sys, pf).len + 1 && k + 1 <= |VBits(h.sys, pf).v| &&
            SlabOk(sl) && PagesOk(h.sys, pf, sl) && |sl.free| == DESC_CNT && Distinct(sl.free[sl.arenas[k].cls]) &&
            (sl.arenas[k].cnt == PerArena(sl.arenas[k].cls) ==>
               (forall b :: b in AllBlocks(k, sl.arenas[k].cls) ==> b in sl.free[sl.arenas[k].cls]) &&
               SlabOk(Retire(sl, k)))
  {
    PutKeeps(h.slab, p);
    PutPages(h, pf, p);
    ArenaLive(h, pf, p.page);
    FullIff(Put(h.slab, p), p.page);
    if Put(h.slab, p).arenas[p.page].cnt == PerArena(Put(h.slab, p).arenas[p.page].cls) {
      RetireKeeps(Put(h.slab, p), p.page);
    }
  }

  /** mfree_page on the page of an arena whose blocks are off the lists. */
  lemma RetiredWired(env: Env, h: Heap, pf: Pf, p: Ptr, ends: seq<Ends>)
    requires HeapInv(h, pf) && p in h.slab.live && p.page in h.slab.arenas && h.slab.arenas[p.page].Small?
    requires Put(h.slab, p).arenas[p.page].cnt == PerArena(h.slab.arenas[p.page].cls) && |ends| == DESC_CNT
    requires var sl := Put(h.slab, p);
             Wired(env, View(h.sys, pf, ends, sl.arenas), sl.(free := Retire(sl, p.page).free))
    ensures Live(h.sys, pf, p.page, 1) && p.page + 1 <= |VBits(h.sys, pf).v|
    ensures var t := Retire(Put(h.slab, p), p.page);
            Wired(env, View(MfreePage(h.sys, pf, p.page, 1), pf, ends, t.arenas), t)
  {
    var k, sl := p.page, Put(h.slab, p);
    var mid, t := sl.(free := Retire(sl, k).free), Retire(sl, k);
    FreedIs(h, pf, p);
    forall l: nat ensures ApartAt(mid, k, l) { assert ApartAt(sl, k, l); }
    forall l: nat ensures RunOk(h.sys, pf, mid, l) { assert RunOk(h.sys, pf, sl, l); }
    forall l: nat | l in mid.arenas ensures Span(mid.arenas[l]) >= 1 { assert ArenaOk(sl, l); }
    ReleasedWired(env, h.sys, pf, ends, mid, k, t);
  }

  lemma LargeWired(env: Env, h: Heap, pf: Pf, p: Ptr, ends: seq<Ends>)
    requires HeapInv(h, pf) && p in h.slab.live && p.page in h.slab.arenas && h.slab.arenas[p.page].Large?
    requires |ends| == DESC_CNT && Wired(env, View(h.sys, pf, ends, h.slab.arenas), h.slab)
    ensures Live(h.sys, pf, p.page, Span(h.slab.arenas[p.page]))
    ensures p.page + Span(h.slab.arenas[p.page]) <= |VBits(h.sys, pf).v|
    ensures var t := DropLarge(h.slab, p);
            Wired(env, View(MfreePage(h.sys, pf, p.page, Span(h.slab.arenas[p.page])), pf, ends, t.arenas), t)
  {
    var k, sl, t := p.page, h.slab, DropLarge(h.slab, p);
    DropLargeKeeps(sl, p);
    ArenaLive(h, pf, k);
    forall l: nat ensures ApartAt(sl, k, l) { }
    forall l: nat | l in sl.arenas ensures Span(sl.arenas[l]) >= 1 { assert ArenaOk(sl, l); }
    ReleasedWired(env, h.sys, pf, ends, sl, k, t);
  }

  /** All that giving the pages of a large block back needs and leaves. */
  lemma LargeBack(env: Env, h: Heap, pf: Pf, p: Ptr, ends: seq<Ends>)
    requires HeapInv(h, pf) && p in h.slab.live && p.page in h.slab.arenas && h.slab.arenas[p.page].Large?
    requires |ends| == DESC_CNT && Wired(env, View(h.sys, pf, ends, h.slab.arenas), h.slab)
    ensures var k, n, t := p.page, h.slab.arenas[p.page].pages, DropLarge(h.slab, p);
            n >= 1 && Live(h.sys, pf, k, n) && k + n <= 8 * VBits(h.sys, pf).len + 1 && k + n <= |VBits(h.sys, pf).v| &&
            var s := MfreePage(h.sys, pf, k, n);
            FreeLarge(h, pf, p) == Heap(s, t) &&
            t == h.slab.(arenas := h.slab.arenas - {k}, live := h.slab.live - {p}) &&
            Placed(s, pf, t.arenas) && Wired(env, View(s, pf, ends, t.arenas), t)
  {
    LargeWired(env, h, pf, p, ends);
    ArenaLive(h, pf, p.page);
    FreeLargeKeeps(h, pf, p);
    var r := FreeLarge(h, pf, p);
    PlacedFrom(r.sys, pf, r.slab);
  }

  /** The same for the page of a small arena. */
  lemma RetireBack(env: Env, h: Heap, pf: Pf, p: Ptr, ends: seq<Ends>)
    requires HeapInv(h, pf) && p in h.slab.live && p.page in h.slab.arenas && h.slab.arenas[p.page].Small?
    requires Put(h.slab, p).arenas[p.page].cnt == PerArena(h.slab.arenas[p.page].cls) && |ends| == DESC_CNT
    requires var sl := Put(h.slab, p);
             Wired(env, View(h.sys, pf, ends, sl.arenas), sl.(free := Retire(sl, p.page).free))
    ensures var k, t := p.page, Retire(Put(h.slab, p), p.page);
            Live(h.sys, pf, k, 1) && k + 1 <= 8 * VBits(h.sys, pf).len + 1 && k + 1 <= |VBits(h.sys, pf).v| &&
            var s := MfreePage(h.sys, pf, k, 1);
            FreeSmall(h, pf, p) == Heap(s, t) && Placed(s, pf, t.arenas) && Wired(env, View(s, pf, ends, t.arenas), t)
  {
    FreedIs(h, pf, p);
    RetiredWired(env, h, pf, p, ends);
    FreeSmallKeeps(h, pf, p);
    var r := FreeSmall(h, pf, p);
    PlacedFrom(r.sys, pf, r.slab);
  }

  // ----- what the code does is a run -----

  /** sys_malloc as written: the specified call, then stores to headers and links. */
  lemma MallocIsRun(h: Heap, pf: Pf, poolSize: nat, size: nat, r: Heap)
    requires HeapInv(h, pf) && SysMalloc(h, pf, poolSize, size).Given?
    requires Relinked(SysMalloc(h, pf, poolSize, size).h, r, pf)
    ensures HeapRun(h, pf, poolSize, [Malloc(size), Links(r.sys.m)], r)
  {
    var calls, g := [Malloc(size), Links(r.sys.m)], SysMalloc(h, pf, poolSize, size).h;
    StepOk(h, pf, poolSize, Malloc(size));
    assert Step(h, pf, poolSize, calls[0]) == Done(g) && calls[1..] == [Links(r.sys.m)];
    RunOne(g, pf, poolSize, Links(r.sys.m), r);
  }

  lemma RunOne(h: Heap, pf: Pf, poolSize: nat, call: Call, r: Heap)
    requires HeapInv(h, pf) && Allowed(h, pf, call) && Step(h, pf, poolSize, call) == Done(r)
    ensures HeapRun(h, pf, poolSize, [call], r)
  {
    StepOk(h, pf, poolSize, call);
    assert [call][1..] == [];
  }

  /** sys_free as written: stores to headers and links, the block's own among them, then the specified call. */
  lemma FreeIsRun(h: Heap, pf: Pf, poolSize: nat, p: Ptr, m: Memory)
    requires HeapInv(h, pf) && p in h.slab.live && Scribbled(h, pf, p, m)
    ensures HeapInv(Heap(h.sys.(m := m), h.slab), pf)
    ensures HeapRun(h, pf, poolSize, [Scribble(p, m), Free(p)], SysFree(Heap(h.sys.(m := m), h.slab), pf, p))
  {
    var calls, g := [Scribble(p, m), Free(p)], Heap(h.sys.(m := m), h.slab);
    StepOk(h, pf, poolSize, Scribble(p, m));
    assert Step(h, pf, poolSize, calls[0]) == Done(g) && calls[1..] == [Free(p)];
    RunOne(g, pf, poolSize, Free(p), SysFree(g, pf, p));
  }
}
