/** What the heap does to the words of its allocations: a new one is zero, the others stay, and the
    allocator's own words (arena headers, list links) are none of theirs. */
module HeapData {
  import opened Paging
  import opened Frames
  import opened Pages
  import opened PageAlloc
  import opened PageData
  import opened Slabs
  import opened Heaps

  function WordsOf(size: nat): nat
  {
    (size + 3) / 4
  }

  /** The page and the word in it of word j of an allocation. */
  function PageAt(p: Ptr, j: nat): nat
  {
    p.page + (p.off / 4 + j) / 1024
  }

  function IndexAt(p: Ptr, j: nat): (w: nat)
    ensures w < 1024
  {
    (p.off / 4 + j) % 1024
  }

  ghost function WordAt(s: Sys, pf: Pf, p: Ptr, j: nat): Word
  {
    Entry(s.m, FrameAt(s, pf, PageAt(p, j)), IndexAt(p, j))
  }

  ghost predicate InArena(sl: Slab, k: nat, j: nat)
  {
    k in sl.arenas && k <= j < k + Span(sl.arenas[k])
  }

  // ----- where the words of an allocation are -----

  lemma LiveWord(h: Heap, pf: Pf, q: Ptr, j: nat)
    requires HeapInv(h, pf) && q in h.slab.live && j < WordsOf(h.slab.live[q])
    ensures InArena(h.slab, q.page, PageAt(q, j)) && LiveAt(h.sys, pf, PageAt(q, j))
  {
    LiveInside(h.slab, q);
    ArenaLive(h, pf, q.page);
    assert LiveOk(h.slab, q) && ArenaOk(h.slab, q.page);
  }

  /** In a small arena they are words of its one page, inside the block. */
  lemma SmallWord(sl: Slab, q: Ptr, j: nat)
    requires SlabOk(sl) && q in sl.live && j < WordsOf(sl.live[q])
    ensures q.page in sl.arenas
    ensures sl.arenas[q.page].Small? ==>
              PageAt(q, j) == q.page && q in AllBlocks(q.page, sl.arenas[q.page].cls) &&
              IndexAt(q, j) == q.off / 4 + j < q.off / 4 + BlockSize(sl.arenas[q.page].cls) / 4
  {
    assert LiveOk(sl, q);
    if sl.arenas[q.page].Small? {
      var c := sl.arenas[q.page].cls;
      BlockWords(c, q.page, q);
      SizeWords(c, sl.live[q]);
    }
  }

  lemma SizeWords(c: Class, size: nat)
    requires size <= BlockSize(c)
    ensures WordsOf(size) <= BlockSize(c) / 4
  {
  }

  /** Two blocks of an arena share no word. */
  lemma BlocksApart(c: Class, k: nat, a: Ptr, b: Ptr)
    requires a in AllBlocks(k, c) && b in AllBlocks(k, c) && a != b
    ensures a.off / 4 + BlockSize(c) / 4 <= b.off / 4 || b.off / 4 + BlockSize(c) / 4 <= a.off / 4
  {
    var i: nat :| i < PerArena(c) && a == Block(k, c, i);
    var j: nat :| j < PerArena(c) && b == Block(k, c, j);
    OffsetsApart(c, i, j);
    OffsetsApart(c, j, i);
  }

  // ----- sys_malloc -----

  lemma FrameUnique(s: Sys, pf: Pf, i: nat, j: nat)
    requires Core(s) && LiveAt(s, pf, i) && LiveAt(s, pf, j) && i != j
    ensures FrameAt(s, pf, i) != FrameAt(s, pf, j)
  {
    FrameOwned(s, pf, i);
    FrameOwned(s, pf, j);
  }

  lemma PageKept(s: Sys, r: Sys, pf: Pf, k: nat, w: nat)
    requires Core(s) && Core(r) && LiveAt(s, pf, k) && Extends(s, r) && r.uv.Keys == s.uv.Keys && DataKept(s, r)
    requires w < 1024
    ensures FrameAt(r, pf, k) == FrameAt(s, pf, k)
    ensures Entry(r.m, FrameAt(r, pf, k), w) == Entry(s.m, FrameAt(s, pf, k), w)
  {
    FrameOwned(s, pf, k);
    LiveStays(s, r, pf, k);
    assert KeptAt(s, r, FrameAt(s, pf, k));
  }

  lemma GetPagesWord(h: Heap, pf: Pf, n: nat, s: Sys, k: nat, q: Ptr, j: nat)
    requires HeapInv(h, pf) && GetPages(h.sys, pf, n) == Got(s, k)
    requires q in h.slab.live && j < WordsOf(h.slab.live[q])
    ensures WordAt(s, pf, q, j) == WordAt(h.sys, pf, q, j)
  {
    LiveWord(h, pf, q, j);
    GetPagesKeeps(h.sys, pf, n, s, k);
    GetPagesData(h.sys, pf, n, s, k);
    PageKept(h.sys, s, pf, PageAt(q, j), IndexAt(q, j));
  }

  lemma ZeroBlockFrames(s: Sys, pf: Pf, b: Ptr, c: Class, k: nat)
    requires Inv(s) && LiveAt(s, pf, b.page) && b in AllBlocks(b.page, c)
    requires LiveAt(s, pf, k)
    ensures var r := ZeroBlock(s, pf, b, c); LiveAt(r, pf, k) && FrameAt(r, pf, k) == FrameAt(s, pf, k)
  {
    ZeroBlockKeeps(s, pf, b, c);
    FrameOwned(s, pf, k);
    LiveStays(s, ZeroBlock(s, pf, b, c), pf, k);
  }

  /** What is pending: a heap about to hand out the head of a list, and an allocation made before. */
  ghost predicate LiveBeside(h: Heap, pf: Pf, c: Class, q: Ptr, j: nat)
  {
    Ready(h, pf, c) && q in h.slab.live && j < WordsOf(h.slab.live[q]) && LiveAt(h.sys, pf, PageAt(q, j))
  }

  lemma GiveWord(h: Heap, pf: Pf, c: Class, size: nat, q: Ptr, j: nat)
    requires LiveBeside(h, pf, c, q, j)
    ensures WordAt(GiveHead(h, pf, c, size).h.sys, pf, q, j) == WordAt(h.sys, pf, q, j)
  {
    HeadLive(h, pf, c);
    HeadCounts(h.slab, c);
    var b, s := h.slab.free[c][0], h.sys;
    ZeroBlockFrames(s, pf, b, c, PageAt(q, j));
    BlockWords(c, b.page, b);
    ClearEntry(s.m, FrameAt(s, pf, b.page), b.off / 4, BlockSize(c) / 4, FrameAt(s, pf, PageAt(q, j)), IndexAt(q, j));
    if PageAt(q, j) != b.page {
      FrameUnique(s, pf, PageAt(q, j), b.page);
    } else {
      SamePageSmall(h.slab, b, q, j);
      SmallWord(h.slab, q, j);
      BlocksApart(c, b.page, q, b);
    }
  }

  /** An allocation with a word on the page of a small arena is a block of it. */
  lemma SamePageSmall(sl: Slab, b: Ptr, q: Ptr, j: nat)
    requires SlabOk(sl) && q in sl.live && j < WordsOf(sl.live[q])
    requires b.page in sl.arenas && sl.arenas[b.page].Small? && PageAt(q, j) == b.page
    ensures q.page == b.page
  {
    LiveInside(sl, q);
    assert LiveOk(sl, q) && ApartAt(sl, q.page, b.page);
  }

  lemma GiveZero(h: Heap, pf: Pf, c: Class, size: nat, j: nat)
    requires Ready(h, pf, c) && 0 < size <= BlockSize(c) && j < BlockSize(c) / 4
    ensures WordAt(GiveHead(h, pf, c, size).h.sys, pf, GiveHead(h, pf, c, size).p, j) == 0
  {
    HeadLive(h, pf, c);
    HeadCounts(h.slab, c);
    var b, s := h.slab.free[c][0], h.sys;
    BlockWord(c, b, BlockSize(c), j);
    ZeroBlockFrames(s, pf, b, c, b.page);
    ClearEntry(s.m, FrameAt(s, pf, b.page), b.off / 4, BlockSize(c) / 4, FrameAt(s, pf, b.page), IndexAt(b, j));
  }

  lemma BlockWord(c: Class, b: Ptr, size: nat, j: nat)
    requires b in AllBlocks(b.page, c) && size <= BlockSize(c) && j < WordsOf(size)
    ensures PageAt(b, j) == b.page && b.off / 4 + BlockSize(c) / 4 <= 1024
    ensures b.off / 4 <= IndexAt(b, j) < b.off / 4 + BlockSize(c) / 4
  {
    BlockWords(c, b.page, b);
    SizeWords(c, size);
  }

  lemma CarvedBeside(h: Heap, pf: Pf, c: Class, s: Sys, k: nat, q: Ptr, j: nat)
    requires HeapInv(h, pf) && h.slab.free[c] == [] && GetPages(h.sys, pf, 1) == Got(s, k)
    requires q in h.slab.live && j < WordsOf(h.slab.live[q])
    ensures LiveBeside(Heap(s, Carve(h.slab, k, c)), pf, c, q, j)
  {
    CarvedReady(h, pf, c, s, k);
    LiveWord(h, pf, q, j);
    GetPagesKeeps(h.sys, pf, 1, s, k);
    FrameOwned(h.sys, pf, PageAt(q, j));
    LiveStays(h.sys, s, pf, PageAt(q, j));
  }

  /** sys_malloc changes no word of what was handed out before. */
  lemma MallocPreserves(h: Heap, pf: Pf, poolSize: nat, size: nat, q: Ptr, j: nat)
    requires HeapInv(h, pf) && SysMalloc(h, pf, poolSize, size).Given?
    requires q in h.slab.live && j < WordsOf(h.slab.live[q])
    ensures WordAt(SysMalloc(h, pf, poolSize, size).h.sys, pf, q, j) == WordAt(h.sys, pf, q, j)
  {
    if size > 1024 {
      var a := GetPages(h.sys, pf, PagesFor(size));
      GetPagesWord(h, pf, PagesFor(size), a.s, a.k, q, j);
    } else {
      var c := ClassOf(size);
      if h.slab.free[c] != [] {
        BusyAll(h.slab, h.slab.free[c][0].page);
        LiveWord(h, pf, q, j);
        GiveWord(h, pf, c, size, q, j);
      } else {
        var a := GetPages(h.sys, pf, 1);
        GetPagesWord(h, pf, 1, a.s, a.k, q, j);
        CarvedBeside(h, pf, c, a.s, a.k, q, j);
        GiveWord(Heap(a.s, Carve(h.slab, a.k, c)), pf, c, size, q, j);
      }
    }
  }

  /** The words behind the header that the pages of a large allocation hold, or those of its block. */
  function RoomWords(size: nat): nat
    requires size > 0
  {
    if size > 1024 then 1024 * PagesFor(size) - HEADER / 4 else BlockSize(ClassOf(size)) / 4
  }

  lemma RoomEnough(size: nat)
    requires size > 0
    ensures WordsOf(size) <= RoomWords(size)
  {
    if size <= 1024 { SizeWords(ClassOf(size), size); }
  }

  lemma LargeZero(h: Heap, pf: Pf, size: nat, j: nat)
    requires HeapInv(h, pf) && size > 1024 && MallocLarge(h, pf, size).Given? && j < RoomWords(size)
    ensures WordAt(MallocLarge(h, pf, size).h.sys, pf, MallocLarge(h, pf, size).p, j) == 0
  {
    var n := PagesFor(size);
    var a := GetPages(h.sys, pf, n);
    var p := Ptr(a.k, HEADER);
    LargeRoom(a.k, size, j);
    NewPageZero(h.sys, pf, n, a.s, a.k, PageAt(p, j), IndexAt(p, j));
  }

  lemma LargeRoom(k: nat, size: nat, j: nat)
    requires size > 1024 && j < RoomWords(size)
    ensures k <= PageAt(Ptr(k, HEADER), j) < k + PagesFor(size) && IndexAt(Ptr(k, HEADER), j) < 1024
  {
  }

  /** Every word of a page get_kernel_pages has just mapped is zero. */
  lemma NewPageZero(s: Sys, pf: Pf, n: nat, t: Sys, k: nat, at: nat, w: nat)
    requires Inv(s) && Usable(s, pf) && GetPages(s, pf, n) == Got(t, k) && k <= at < k + n && w < 1024
    ensures LiveAt(t, pf, at) && Entry(t.m, FrameAt(t, pf, at), w) == 0
  {
    GetPagesKeeps(s, pf, n, t, k);
    assert LiveAt(t, pf, at);
    FrameOwned(t, pf, at);
    assert InRunFrame(t, pf, k, n, FrameAt(t, pf, at));
    assert ZeroWords(t.m, FrameAt(t, pf, at));
  }

  /** What sys_malloc returns is new, as large as asked, and zero to the end of its block or pages. */
  lemma MallocZeroes(h: Heap, pf: Pf, poolSize: nat, size: nat, j: nat)
    requires HeapInv(h, pf) && SysMalloc(h, pf, poolSize, size).Given?
    ensures var r := SysMalloc(h, pf, poolSize, size);
            r.p !in h.slab.live && r.h.slab.live == h.slab.live[r.p := size] &&
            size > 0 && WordsOf(size) <= RoomWords(size) &&
            (j < RoomWords(size) ==> WordAt(r.h.sys, pf, r.p, j) == 0)
  {
    RoomEnough(size);
    if size > 1024 {
      var a := GetPages(h.sys, pf, PagesFor(size));
      NewRunFresh(h, pf, PagesFor(size), a.s, a.k);
      AddLargeKeeps(h.slab, a.k, PagesFor(size), size);
      assert LiveOk(h.slab, Ptr(a.k, HEADER));
      if j < RoomWords(size) { LargeZero(h, pf, size, j); }
    } else {
      var c := ClassOf(size);
      if h.slab.free[c] != [] {
        BusyAll(h.slab, h.slab.free[c][0].page);
        HeadCounts(h.slab, c);
        if j < RoomWords(size) { GiveZero(h, pf, c, size, j); }
      } else {
        var a := GetPages(h.sys, pf, 1);
        var g := Heap(a.s, Carve(h.slab, a.k, c));
        CarvedReady(h, pf, c, a.s, a.k);
        HeadCounts(g.slab, c);
        if j < RoomWords(size) { GiveZero(g, pf, c, size, j); }
      }
    }
  }

  // ----- sys_free -----

  lemma MfreeWord(h: Heap, pf: Pf, k: nat, q: Ptr, j: nat)
    requires HeapInv(h, pf) && k in h.slab.arenas && q in h.slab.live && j < WordsOf(h.slab.live[q]) && q.page != k
    ensures var n := Span(h.slab.arenas[k]);
            Live(h.sys, pf, k, n) && k + n <= |VBits(h.sys, pf).v| &&
            WordAt(MfreePage(h.sys, pf, k, n), pf, q, j) == WordAt(h.sys, pf, q, j)
  {
    var n, at := Span(h.slab.arenas[k]), PageAt(q, j);
    LiveWord(h, pf, q, j);
    ArenaLive(h, pf, k);
    assert ApartAt(h.slab, k, q.page);
    MfreePageWord(h.sys, pf, k, n, at, IndexAt(q, j));
  }

  /** mfree_page leaves the words of a page outside its run. */
  lemma MfreePageWord(s: Sys, pf: Pf, k: nat, n: nat, at: nat, w: nat)
    requires Inv(s) && Usable(s, pf) && n >= 1 && Live(s, pf, k, n) && k + n <= 8 * VBits(s, pf).len + 1
    requires k + n <= |VBits(s, pf).v| && LiveAt(s, pf, at) && (at < k || k + n <= at) && w < 1024
    ensures var r, f := MfreePage(s, pf, k, n), FrameAt(s, pf, at);
            FrameAt(r, pf, at) == f && Entry(r.m, f, w) == Entry(s.m, f, w)
  {
    var r := MfreePage(s, pf, k, n);
    MfreeKept(s, pf, k, n, r);
    KeptElsewhere(s, r, pf, k, n, at, w);
  }

  lemma MfreeKept(s: Sys, pf: Pf, k: nat, n: nat, r: Sys)
    requires Inv(s) && Usable(s, pf) && Live(s, pf, k, n) && k + n <= |VBits(s, pf).v| && r == MfreePage(s, pf, k, n)
    ensures Core(r) && Freed(s, r, pf, k, n) && r.uv.Keys == s.uv.Keys && DataKept(s, r)
  {
    MfreeKeeps(s, pf, k, n);
    MfreePageData(s, pf, k, n);
  }

  lemma KeptElsewhere(s: Sys, r: Sys, pf: Pf, k: nat, n: nat, at: nat, w: nat)
    requires Core(s) && Core(r) && Freed(s, r, pf, k, n) && r.uv.Keys == s.uv.Keys && DataKept(s, r)
    requires LiveAt(s, pf, at) && (at < k || k + n <= at) && w < 1024
    ensures FrameAt(r, pf, at) == FrameAt(s, pf, at)
    ensures Entry(r.m, FrameAt(s, pf, at), w) == Entry(s.m, FrameAt(s, pf, at), w)
  {
    LiveElsewhere(s, r, pf, k, n, at);
    FrameOwned(s, pf, at);
    var f := FrameAt(s, pf, at);
    assert OwnShrunkAt(s, r, pf, k, n, f) && KeptAt(s, r, f);
  }

  /** An arena given back holds no other allocation. */
  lemma RetiredAlone(sl: Slab, p: Ptr, q: Ptr)
    requires SlabOk(sl) && Busy(sl) && p in sl.live && q in sl.live && p != q && q.page == p.page
    requires p.page in sl.arenas
    ensures sl.arenas[p.page].Small? && Put(sl, p).arenas[p.page].cnt != PerArena(sl.arenas[p.page].cls)
  {
    assert LiveOk(sl, p) && LiveOk(sl, q);
    PutKeeps(sl, p);
    FullIff(Put(sl, p), p.page);
    assert ArenaOk(Put(sl, p), p.page);
  }

  /** Freeing a block beside q: the arena stays and memory is as it was. */
  lemma FreeBeside(h: Heap, pf: Pf, p: Ptr, q: Ptr)
    requires HeapInv(h, pf) && p in h.slab.live && q in h.slab.live && p != q && q.page == p.page
    ensures SysFree(h, pf, p) == Heap(h.sys, SysFree(h, pf, p).slab)
    ensures SysFree(h, pf, p).slab.live == h.slab.live - {p}
  {
    assert LiveOk(h.slab, p);
    RetiredAlone(h.slab, p, q);
  }

  /** sys_free leaves the pages alone, or gives back those of the block's arena. */
  lemma FreeSys(h: Heap, pf: Pf, p: Ptr)
    requires HeapInv(h, pf) && p in h.slab.live
    ensures p.page in h.slab.arenas && SysFree(h, pf, p).slab.live == h.slab.live - {p}
    ensures var n := Span(h.slab.arenas[p.page]);
            Live(h.sys, pf, p.page, n) && p.page + n <= |VBits(h.sys, pf).v| &&
            (SysFree(h, pf, p).sys == h.sys || SysFree(h, pf, p).sys == MfreePage(h.sys, pf, p.page, n))
  {
    assert LiveOk(h.slab, p);
    ArenaLive(h, pf, p.page);
  }

  lemma FreeElsewhere(h: Heap, pf: Pf, p: Ptr, q: Ptr, j: nat)
    requires HeapInv(h, pf) && p in h.slab.live && q in h.slab.live && q.page != p.page
    requires j < WordsOf(h.slab.live[q])
    ensures SysFree(h, pf, p).slab.live == h.slab.live - {p}
    ensures WordAt(SysFree(h, pf, p).sys, pf, q, j) == WordAt(h.sys, pf, q, j)
  {
    FreeSys(h, pf, p);
    MfreeWord(h, pf, p.page, q, j);
  }

  /** sys_free changes no word of any other allocation. */
  lemma FreePreserves(h: Heap, pf: Pf, p: Ptr, q: Ptr, j: nat)
    requires HeapInv(h, pf) && p in h.slab.live && q in h.slab.live && p != q && j < WordsOf(h.slab.live[q])
    ensures SysFree(h, pf, p).slab.live == h.slab.live - {p}
    ensures WordAt(SysFree(h, pf, p).sys, pf, q, j) == WordAt(h.sys, pf, q, j)
  {
    if q.page == p.page { FreeBeside(h, pf, p, q); } else { FreeElsewhere(h, pf, p, q, j); }
  }

  // ----- the allocator's own words -----

  /** Word w of the page at index k is part of an arena's header or of a free block's links. */
  ghost predicate MetaWord(sl: Slab, k: nat, w: nat)
    requires |sl.free| == DESC_CNT
  {
    (k in sl.arenas && w < HEADER / 4) ||
    (exists c: Class, b: Ptr {:trigger b in sl.free[c]} ::
       b in sl.free[c] && b.page == k && b.off / 4 <= w < b.off / 4 + 2)
  }

  /** No word of an allocation is one of them. */
  lemma MetaApart(h: Heap, pf: Pf, q: Ptr, j: nat)
    requires HeapInv(h, pf) && q in h.slab.live && j < WordsOf(h.slab.live[q])
    ensures !MetaWord(h.slab, PageAt(q, j), IndexAt(q, j))
  {
    var sl, k, w := h.slab, PageAt(q, j), IndexAt(q, j);
    LiveWord(h, pf, q, j);
    LiveInside(sl, q);
    assert LiveOk(sl, q) && ArenaOk(sl, q.page) && ApartAt(sl, q.page, k);
    SmallWord(sl, q, j);
    forall c: Class, b: Ptr | b in sl.free[c] && b.page == k ensures !(b.off / 4 <= w < b.off / 4 + 2) {
      assert FreeOk(sl, c, b);
      SamePageSmall(sl, b, q, j);
      BlocksApart(c, k, q, b);
    }
  }

  /** m differs from the heap's memory in such words only. */
  ghost predicate OnlyMeta(h: Heap, pf: Pf, m: Memory)
    requires |h.slab.free| == DESC_CNT
  {
    forall y: Frame, w: nat {:trigger Entry(m, y, w)} ::
      w < 1024 && Entry(m, y, w) != Entry(h.sys.m, y, w) ==>
        exists k: nat {:trigger MetaWord(h.slab, k, w)} ::
          LiveAt(h.sys, pf, k) && FrameAt(h.sys, pf, k) == y && MetaWord(h.slab, k, w)
  }

  /** Whatever headers and links hold, the heap is a good heap and the allocations hold what they held. */
  lemma MetaKeeps(h: Heap, pf: Pf, m: Memory)
    requires HeapInv(h, pf) && OnlyMeta(h, pf, m)
    ensures HeapInv(Heap(h.sys.(m := m), h.slab), pf)
  {
    var r := h.sys.(m := m);
    forall y: Frame, w: nat | w < 1024 && !Plain(h.sys, y) ensures Entry(m, y, w) == Entry(h.sys.m, y, w) {
      MetaPlain(h, pf, m, y, w);
    }
    PlainKeeps(h.sys, m);
    SameVirtual(h.sys, r);
    PagesStay(h.sys, r, pf, h.slab);
  }

  lemma MetaPlain(h: Heap, pf: Pf, m: Memory, y: Frame, w: nat)
    requires HeapInv(h, pf) && OnlyMeta(h, pf, m) && w < 1024
    ensures Entry(m, y, w) != Entry(h.sys.m, y, w) ==> Plain(h.sys, y)
  {
    if Entry(m, y, w) != Entry(h.sys.m, y, w) {
      var k: nat :| LiveAt(h.sys, pf, k) && FrameAt(h.sys, pf, k) == y && MetaWord(h.slab, k, w);
      FrameOwned(h.sys, pf, k);
    }
  }

  lemma MetaPreserves(h: Heap, pf: Pf, m: Memory, q: Ptr, j: nat)
    requires HeapInv(h, pf) && OnlyMeta(h, pf, m) && q in h.slab.live && j < WordsOf(h.slab.live[q])
    ensures WordAt(h.sys.(m := m), pf, q, j) == WordAt(h.sys, pf, q, j)
  {
    var r, at, w := h.sys.(m := m), PageAt(q, j), IndexAt(q, j);
    LiveWord(h, pf, q, j);
    MetaKeeps(h, pf, m);
    FrameOwned(h.sys, pf, at);
    LiveStays(h.sys, r, pf, at);
    MetaApart(h, pf, q, j);
    var y := FrameAt(h.sys, pf, at);
    forall k: nat | LiveAt(h.sys, pf, k) && FrameAt(h.sys, pf, k) == y ensures k == at { FrameOwned(h.sys, pf, k); }
  }

  // ----- the links of a block that is being given back -----

  /** sys_free puts the block on its list before anything else happens to its arena: until the page is
      given back, memory differs in headers and links, the block's own links among them. */
  ghost predicate Scribbled(h: Heap, pf: Pf, p: Ptr, m: Memory)
    requires |h.slab.free| == DESC_CNT
  {
    if p.page in h.slab.arenas && h.slab.arenas[p.page].Small? then OnlyMeta(Heap(h.sys, Put(h.slab, p)), pf, m)
    else m == h.sys.m
  }

  lemma PutMeta(sl: Slab, p: Ptr, k: nat, w: nat)
    requires |sl.free| == DESC_CNT && p.page in sl.arenas && sl.arenas[p.page].Small? && MetaWord(Put(sl, p), k, w)
    ensures MetaWord(sl, k, w) || (k == p.page && p.off / 4 <= w < p.off / 4 + 2)
  {
    if !(k in sl.arenas && w < HEADER / 4) {
      var c: Class, b: Ptr :| b in Put(sl, p).free[c] && b.page == k && b.off / 4 <= w < b.off / 4 + 2;
      if b != p { assert b in sl.free[c]; }
    }
  }

  lemma ScribblePlain(h: Heap, pf: Pf, p: Ptr, m: Memory)
    requires HeapInv(h, pf) && p in h.slab.live && Scribbled(h, pf, p, m)
    ensures OnlyPlain(h.sys, m)
  {
    assert LiveOk(h.slab, p);
    if h.slab.arenas[p.page].Small? {
      forall y: Frame, w: nat | w < 1024 && !Plain(h.sys, y) ensures Entry(m, y, w) == Entry(h.sys.m, y, w) {
        if Entry(m, y, w) != Entry(h.sys.m, y, w) {
          var k: nat :| LiveAt(h.sys, pf, k) && FrameAt(h.sys, pf, k) == y && MetaWord(Put(h.slab, p), k, w);
          FrameOwned(h.sys, pf, k);
        }
      }
    }
  }

  lemma ScribbleKeeps(h: Heap, pf: Pf, p: Ptr, m: Memory)
    requires HeapInv(h, pf) && p in h.slab.live && Scribbled(h, pf, p, m)
    ensures HeapInv(Heap(h.sys.(m := m), h.slab), pf)
    ensures forall q {:trigger Active(h.sys.(m := m), q)} :: Active(h.sys.(m := m), q) <==> Active(h.sys, q)
  {
    ScribblePlain(h, pf, p, m);
    PlainKeeps(h.sys, m);
    SameVirtual(h.sys, h.sys.(m := m));
    PagesStay(h.sys, h.sys.(m := m), pf, h.slab);
  }

  lemma ScribblePreserves(h: Heap, pf: Pf, p: Ptr, m: Memory, q: Ptr, j: nat)
    requires HeapInv(h, pf) && p in h.slab.live && Scribbled(h, pf, p, m)
    requires q in h.slab.live && q != p && j < WordsOf(h.slab.live[q])
    ensures WordAt(h.sys.(m := m), pf, q, j) == WordAt(h.sys, pf, q, j)
  {
    var at, w := PageAt(q, j), IndexAt(q, j);
    LiveWord(h, pf, q, j);
    ScribbleKeeps(h, pf, p, m);
    FrameOwned(h.sys, pf, at);
    LiveStays(h.sys, h.sys.(m := m), pf, at);
    assert LiveOk(h.slab, p);
    var f := FrameAt(h.sys, pf, at);
    if h.slab.arenas[p.page].Small? && Entry(m, f, w) != Entry(h.sys.m, f, w) {
      var k: nat :| LiveAt(h.sys, pf, k) && FrameAt(h.sys, pf, k) == f && MetaWord(Put(h.slab, p), k, w);
      FrameOwned(h.sys, pf, k);
      ScribbleApart(h, pf, p, q, j);
    }
  }

  lemma ScribbleApart(h: Heap, pf: Pf, p: Ptr, q: Ptr, j: nat)
    requires HeapInv(h, pf) && p in h.slab.live && p.page in h.slab.arenas && h.slab.arenas[p.page].Small?
    requires q in h.slab.live && q != p && j < WordsOf(h.slab.live[q])
    ensures !MetaWord(Put(h.slab, p), PageAt(q, j), IndexAt(q, j))
  {
    var k, w := PageAt(q, j), IndexAt(q, j);
    MetaApart(h, pf, q, j);
    if MetaWord(Put(h.slab, p), k, w) {
      PutMeta(h.slab, p, k, w);
      assert LiveOk(h.slab, p);
      SamePageSmall(h.slab, p, q, j);
      SmallWord(h.slab, q, j);
      BlocksApart(h.slab.arenas[k].cls, k, p, q);
    }
  }

  // ----- a program's own stores -----

  ghost function Filled(h: Heap, pf: Pf, p: Ptr, j: nat, w: Word): Heap
  {
    Heap(h.sys.(m := h.sys.m[FrameAt(h.sys, pf, PageAt(p, j)) * 1024 + IndexAt(p, j) := w]), h.slab)
  }

  lemma FillKeeps(h: Heap, pf: Pf, p: Ptr, j: nat, w: Word)
    requires HeapInv(h, pf) && p in h.slab.live && j < WordsOf(h.slab.live[p])
    ensures HeapInv(Filled(h, pf, p, j, w), pf) && WordAt(Filled(h, pf, p, j, w).sys, pf, p, j) == w
  {
    var f, i, r := FrameAt(h.sys, pf, PageAt(p, j)), IndexAt(p, j), Filled(h, pf, p, j, w);
    LiveWord(h, pf, p, j);
    FrameOwned(h.sys, pf, PageAt(p, j));
    forall y: Frame, n: nat | n < 1024 && !Plain(h.sys, y) ensures Entry(r.sys.m, y, n) == Entry(h.sys.m, y, n) {
      EntryWritten(h.sys.m, f, i, w, y, n);
    }
    PlainKeeps(h.sys, r.sys.m);
    SameVirtual(h.sys, r.sys);
    PagesStay(h.sys, r.sys, pf, h.slab);
    LiveStays(h.sys, r.sys, pf, PageAt(p, j));
  }

  /** A store into one allocation reaches no other, nor another word of the same. */
  lemma FillPreserves(h: Heap, pf: Pf, p: Ptr, j: nat, w: Word, q: Ptr, i: nat)
    requires HeapInv(h, pf) && p in h.slab.live && j < WordsOf(h.slab.live[p])
    requires q in h.slab.live && i < WordsOf(h.slab.live[q]) && (p != q || i != j)
    ensures WordAt(Filled(h, pf, p, j, w).sys, pf, q, i) == WordAt(h.sys, pf, q, i)
  {
    var r := Filled(h, pf, p, j, w);
    FillKeeps(h, pf, p, j, w);
    LiveWord(h, pf, p, j);
    LiveWord(h, pf, q, i);
    FrameOwned(h.sys, pf, PageAt(q, i));
    LiveStays(h.sys, r.sys, pf, PageAt(q, i));
    EntryWritten(h.sys.m, FrameAt(h.sys, pf, PageAt(p, j)), IndexAt(p, j), w,
                 FrameAt(h.sys, pf, PageAt(q, i)), IndexAt(q, i));
    if PageAt(p, j) != PageAt(q, i) { FrameUnique(h.sys, pf, PageAt(p, j), PageAt(q, i)); }
    else { WordsApart(h.slab, p, j, q, i); }
  }

  lemma WordsApart(sl: Slab, p: Ptr, j: nat, q: Ptr, i: nat)
    requires SlabOk(sl) && p in sl.live && j < WordsOf(sl.live[p]) && q in sl.live && i < WordsOf(sl.live[q])
    requires (p != q || i != j) && PageAt(p, j) == PageAt(q, i)
    ensures IndexAt(p, j) != IndexAt(q, i)
  {
    LiveInside(sl, p);
    LiveInside(sl, q);
    assert LiveOk(sl, p) && LiveOk(sl, q) && ArenaOk(sl, p.page) && ArenaOk(sl, q.page) && ApartAt(sl, p.page, q.page);
    if p.page == q.page && sl.arenas[p.page].Small? {
      SmallWord(sl, p, j);
      SmallWord(sl, q, i);
      if p != q { BlocksApart(sl.arenas[p.page].cls, p.page, p, q); }
    }
  }
}
