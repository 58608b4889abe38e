/** sys_malloc and sys_free (kernel/memory.c) over the page allocator: what one call keeps. */
module Heaps {
  import opened Paging
  import opened Frames
  import opened Pages
  import opened PageAlloc
  import opened Slabs

  /** The machine and the bookkeeping of one heap: the kernel's, or one process's. */
  datatype Heap = Heap(sys: Sys, slab: Slab)

  /** A call stops in an ASSERT, returns NULL having changed nothing, or hands out p. */
  datatype Outcome = Stops | Nil | Given(h: Heap, p: Ptr)

  ghost predicate RunOk(s: Sys, pf: Pf, sl: Slab, k: nat)
    requires Geometry(s) && Usable(s, pf)
  {
    k in sl.arenas ==>
      k + Span(sl.arenas[k]) <= 8 * VBits(s, pf).len + 1 && Live(s, pf, k, Span(sl.arenas[k]))
  }

  /** Every arena's pages are mapped. */
  ghost predicate PagesOk(s: Sys, pf: Pf, sl: Slab)
    requires Geometry(s) && Usable(s, pf)
  {
    forall k: nat {:trigger RunOk(s, pf, sl, k)} :: RunOk(s, pf, sl, k)
  }

  ghost predicate HeapInv(h: Heap, pf: Pf)
  {
    Inv(h.sys) && Usable(h.sys, pf) && SlabOk(h.slab) && Busy(h.slab) && PagesOk(h.sys, pf, h.slab)
  }

  // ----- the two calls -----

  ghost function FrameAt(s: Sys, pf: Pf, k: nat): Frame
  {
    if Active(s, OwnerAt(pf, k)) then FrameOf(EntryOf(s, OwnerAt(pf, k))) else 0
  }

  /** memset of n words from word w of frame f. */
  function ClearWords(m: Memory, f: Frame, w: nat, n: nat): Memory
  {
    seq(WORDS, i requires 0 <= i < WORDS => if f * 1024 + w <= i < f * 1024 + w + n then 0 else m[i])
  }

  ghost function ZeroBlock(s: Sys, pf: Pf, b: Ptr, c: Class): Sys
  {
    s.(m := ClearWords(s.m, FrameAt(s, pf, b.page), b.off / 4, BlockSize(c) / 4))
  }

  /** DIV_ROUND_UP(size + sizeof(struct arena), PG_SIZE) */
  function PagesFor(size: nat): (n: nat)
    ensures n >= 1 && size + HEADER <= PAGE * n < size + HEADER + PAGE
  {
    (size + HEADER + PAGE - 1) / PAGE
  }

  /** list_pop, memset, a->cnt--. */
  ghost function GiveHead(h: Heap, pf: Pf, c: Class, size: nat): Outcome
    requires SlabOk(h.slab) && h.slab.free[c] != []
  {
    HeadCounts(h.slab, c);
    var b := h.slab.free[c][0];
    Given(Heap(ZeroBlock(h.sys, pf, b, c), Pop(h.slab, c, size)), b)
  }

  ghost function MallocSmall(h: Heap, pf: Pf, size: nat): Outcome
    requires HeapInv(h, pf) && 0 < size <= 1024
  {
    var c := ClassOf(size);
    if h.slab.free[c] != [] then GiveHead(h, pf, c, size)
    else
      match GetPages(h.sys, pf, 1)
      case Crash => Stops
      case Null => Nil
      case Got(s, k) =>
        NewRunFresh(h, pf, 1, s, k);
        CarveKeeps(h.slab, k, c);
        GiveHead(Heap(s, Carve(h.slab, k, c)), pf, c, size)
  }

  ghost function MallocLarge(h: Heap, pf: Pf, size: nat): Outcome
    requires HeapInv(h, pf)
  {
    match GetPages(h.sys, pf, PagesFor(size))
    case Crash => Stops
    case Null => Nil
    case Got(s, k) => Given(Heap(s, AddLarge(h.slab, k, PagesFor(size), size)), Ptr(k, HEADER))
  }

  /** poolSize is pool_size: at most 65535 pages, so that size + 12 does not wrap. */
  ghost function SysMalloc(h: Heap, pf: Pf, poolSize: nat, size: nat): Outcome
    requires HeapInv(h, pf)
  {
    if !(0 < size < poolSize) then Nil
    else if size > 1024 then MallocLarge(h, pf, size)
    else MallocSmall(h, pf, size)
  }

  ghost function FreeSmall(h: Heap, pf: Pf, p: Ptr): Heap
    requires HeapInv(h, pf) && p in h.slab.live && p.page in h.slab.arenas && h.slab.arenas[p.page].Small?
  {
    var sl := Put(h.slab, p);
    if sl.arenas[p.page].cnt == PerArena(sl.arenas[p.page].cls) then
      ArenaLive(h, pf, p.page);
      Heap(MfreePage(h.sys, pf, p.page, 1), Retire(sl, p.page))
    else Heap(h.sys, sl)
  }

  ghost function FreeLarge(h: Heap, pf: Pf, p: Ptr): Heap
    requires HeapInv(h, pf) && p.page in h.slab.arenas
  {
    ArenaLive(h, pf, p.page);
    Heap(MfreePage(h.sys, pf, p.page, Span(h.slab.arenas[p.page])), DropLarge(h.slab, p))
  }

  /** Of a pointer sys_malloc returned and nobody freed since. */
  ghost function SysFree(h: Heap, pf: Pf, p: Ptr): Heap
    requires HeapInv(h, pf) && p in h.slab.live
  {
    assert LiveOk(h.slab, p);
    if h.slab.arenas[p.page].Large? then FreeLarge(h, pf, p) else FreeSmall(h, pf, p)
  }

  // ----- pages under the arenas -----

  lemma ArenaLive(h: Heap, pf: Pf, k: nat)
    requires HeapInv(h, pf) && k in h.slab.arenas
    ensures var n := Span(h.slab.arenas[k]);
            n >= 1 && Live(h.sys, pf, k, n) && k + n <= 8 * VBits(h.sys, pf).len + 1 &&
            k + n <= |VBits(h.sys, pf).v| && LiveAt(h.sys, pf, k)
  {
    assert RunOk(h.sys, pf, h.slab, k) && ArenaOk(h.slab, k);
  }

  /** A run malloc_page has just mapped overlaps no arena. */
  lemma NewRunFresh(h: Heap, pf: Pf, n: nat, s: Sys, k: nat)
    requires HeapInv(h, pf) && GetPages(h.sys, pf, n) == Got(s, k)
    ensures FreshRun(h.slab, k, n) && n >= 1 && Usable(s, pf) && k + n <= 8 * VBits(s, pf).len + 1
  {
    GetPagesKeeps(h.sys, pf, n, s, k);
    MallocKeeps(h.sys, pf, n, MallocPage(h.sys, pf, n).s, k);
    forall l: nat | l in h.slab.arenas ensures k + n <= l || l + Span(h.slab.arenas[l]) <= k {
      NewRunApart(h, pf, n, s, k, l);
    }
  }

  lemma NewRunApart(h: Heap, pf: Pf, n: nat, s: Sys, k: nat, l: nat)
    requires HeapInv(h, pf) && GetPages(h.sys, pf, n) == Got(s, k) && l in h.slab.arenas
    ensures k + n <= l || l + Span(h.slab.arenas[l]) <= k
  {
    ArenaLive(h, pf, l);
    var j := if k < l then l else k;
    if j < k + n && j < l + Span(h.slab.arenas[l]) {
      assert LiveAt(h.sys, pf, j);
      NewlyMapped(h.sys, pf, n, s, k, j);
    }
  }

  lemma NewlyMapped(s: Sys, pf: Pf, n: nat, t: Sys, k: nat, j: nat)
    requires Inv(s) && Usable(s, pf) && GetPages(s, pf, n) == Got(t, k) && k <= j < k + n
    ensures !LiveAt(s, pf, j)
  {
    GetPagesKeeps(s, pf, n, t, k);
    assert MappedAt(s, t, pf, k, n, OwnerAt(pf, j));
  }

  /** A page stays what it was as long as its frame keeps its owner. */
  lemma LiveStays(s: Sys, r: Sys, pf: Pf, k: nat)
    requires Core(s) && Core(r) && LiveAt(s, pf, k)
    requires var f := FrameAt(s, pf, k); f in r.own && r.own[f] == OwnerAt(pf, k) && f !in r.uv
    ensures LiveAt(r, pf, k) && FrameAt(r, pf, k) == FrameAt(s, pf, k)
  {
    assert OwnedOk(r, FrameAt(s, pf, k));
  }

  lemma FrameOwned(s: Sys, pf: Pf, k: nat)
    requires Core(s) && LiveAt(s, pf, k)
    ensures var f := FrameAt(s, pf, k); f in s.own && s.own[f] == OwnerAt(pf, k) && f !in s.uv && Plain(s, f)
  {
    assert Backed(s, OwnerAt(pf, k));
    assert OwnedOk(s, FrameAt(s, pf, k));
  }

  lemma RunStays(s: Sys, r: Sys, pf: Pf, k: nat, n: nat)
    requires Core(s) && Core(r) && Live(s, pf, k, n) && Extends(s, r) && r.uv.Keys == s.uv.Keys
    ensures Live(r, pf, k, n)
  {
    forall j: nat | k <= j < k + n ensures LiveAt(r, pf, j) {
      assert LiveAt(s, pf, j);
      FrameOwned(s, pf, j);
      LiveStays(s, r, pf, j);
    }
  }

  lemma SameVLen(s: Sys, r: Sys, pf: Pf)
    requires Geometry(s) && Geometry(r) && Usable(s, pf) && Usable(r, pf) && r.kv.len == s.kv.len
    ensures VBits(r, pf).len == VBits(s, pf).len
  {
  }

  /** Arenas keep their pages while others are mapped. */
  lemma PagesStay(s: Sys, r: Sys, pf: Pf, sl: Slab)
    requires Core(s) && Core(r) && Usable(s, pf) && PagesOk(s, pf, sl) && Extends(s, r)
    requires r.uv.Keys == s.uv.Keys && r.kv.len == s.kv.len
    ensures Usable(r, pf) && PagesOk(r, pf, sl)
  {
    SameVLen(s, r, pf);
    forall k: nat ensures RunOk(r, pf, sl, k) {
      assert RunOk(s, pf, sl, k);
      if k in sl.arenas { RunStays(s, r, pf, k, Span(sl.arenas[k])); }
    }
  }

  // ----- malloc keeps -----

  lemma ClearEntry(m: Memory, f: Frame, w: nat, n: nat, y: Frame, j: nat)
    requires j < 1024 && w + n <= 1024
    ensures Entry(ClearWords(m, f, w, n), y, j) == if y == f && w <= j < w + n then 0 else Entry(m, y, j)
  {
  }

  lemma BlockWords(c: Class, k: nat, b: Ptr)
    requires b in AllBlocks(k, c)
    ensures b.page == k && b.off % 4 == 0 && HEADER <= b.off && b.off / 4 + BlockSize(c) / 4 <= 1024
    ensures b.off + BlockSize(c) <= PAGE
  {
    var i: nat :| i < PerArena(c) && b == Block(k, c, i);
    OffsetsApart(c, i, i);
  }

  /** Zeroing a block writes its own words in a frame of data. */
  lemma ZeroBlockKeeps(s: Sys, pf: Pf, b: Ptr, c: Class)
    requires Inv(s) && LiveAt(s, pf, b.page) && b in AllBlocks(b.page, c)
    ensures var r := ZeroBlock(s, pf, b, c);
            Inv(r) && r == s.(m := r.m) && Extends(s, r) &&
            forall q {:trigger Active(r, q)} :: Active(r, q) <==> Active(s, q)
  {
    var r, f := ZeroBlock(s, pf, b, c), FrameAt(s, pf, b.page);
    FrameOwned(s, pf, b.page);
    BlockWords(c, b.page, b);
    forall y: Frame, j: nat | j < 1024 && !Plain(s, y) ensures Entry(r.m, y, j) == Entry(s.m, y, j) {
      ClearEntry(s.m, f, b.off / 4, BlockSize(c) / 4, y, j);
    }
    PlainKeeps(s, r.m);
    SameVirtual(s, r);
  }

  /** The state just before a block is handed out: an arena may be full of free blocks. */
  ghost predicate Ready(h: Heap, pf: Pf, c: Class)
  {
    Inv(h.sys) && Usable(h.sys, pf) && SlabOk(h.slab) && PagesOk(h.sys, pf, h.slab) &&
    h.slab.free[c] != [] && BusyBut(h.slab, h.slab.free[c][0].page)
  }

  lemma HeadLive(h: Heap, pf: Pf, c: Class)
    requires Ready(h, pf, c)
    ensures var b := h.slab.free[c][0]; LiveAt(h.sys, pf, b.page) && b in AllBlocks(b.page, c)
  {
    HeadCounts(h.slab, c);
    var b := h.slab.free[c][0];
    assert RunOk(h.sys, pf, h.slab, b.page);
    assert LiveAt(h.sys, pf, b.page);
  }

  lemma PopPages(h: Heap, pf: Pf, c: Class, size: nat)
    requires Ready(h, pf, c)
    ensures (HeadCounts(h.slab, c); PagesOk(h.sys, pf, Pop(h.slab, c, size)))
  {
    HeadCounts(h.slab, c);
    forall k: nat ensures RunOk(h.sys, pf, Pop(h.slab, c, size), k) { assert RunOk(h.sys, pf, h.slab, k); }
  }

  lemma GivePages(s: Sys, pf: Pf, b: Ptr, c: Class, sl: Slab)
    requires Inv(s) && Usable(s, pf) && LiveAt(s, pf, b.page) && b in AllBlocks(b.page, c) && PagesOk(s, pf, sl)
    ensures var r := ZeroBlock(s, pf, b, c); Inv(r) && Usable(r, pf) && PagesOk(r, pf, sl)
  {
    ZeroBlockKeeps(s, pf, b, c);
    PagesStay(s, ZeroBlock(s, pf, b, c), pf, sl);
  }

  lemma GiveKeeps(h: Heap, pf: Pf, c: Class, size: nat)
    requires Ready(h, pf, c) && 0 < size <= BlockSize(c)
    ensures HeapInv(GiveHead(h, pf, c, size).h, pf)
  {
    HeadLive(h, pf, c);
    HeadCounts(h.slab, c);
    PopKeeps(h.slab, c, size);
    PopPages(h, pf, c, size);
    GivePages(h.sys, pf, h.slab.free[c][0], c, Pop(h.slab, c, size));
  }

  /** A fresh page cut into blocks is ready to hand out its first. */
  lemma CarvedReady(h: Heap, pf: Pf, c: Class, s: Sys, k: nat)
    requires HeapInv(h, pf) && h.slab.free[c] == [] && GetPages(h.sys, pf, 1) == Got(s, k)
    ensures Ready(Heap(s, Carve(h.slab, k, c)), pf, c)
    ensures Carve(h.slab, k, c).free[c][0] == Block(k, c, 0)
  {
    NewRunFresh(h, pf, 1, s, k);
    CarveKeeps(h.slab, k, c);
    GetPagesKeeps(h.sys, pf, 1, s, k);
    PagesStay(h.sys, s, pf, h.slab);
    var sl := Carve(h.slab, k, c);
    forall l: nat ensures RunOk(s, pf, sl, l) { assert RunOk(s, pf, h.slab, l); }
    assert sl.free[c] == BlockSeq(k, c);
  }

  lemma MallocSmallKeeps(h: Heap, pf: Pf, size: nat)
    requires HeapInv(h, pf) && 0 < size <= 1024 && MallocSmall(h, pf, size).Given?
    ensures HeapInv(MallocSmall(h, pf, size).h, pf)
  {
    var c := ClassOf(size);
    if h.slab.free[c] != [] {
      BusyAll(h.slab, h.slab.free[c][0].page);
      GiveKeeps(h, pf, c, size);
    } else {
      var a := GetPages(h.sys, pf, 1);
      CarvedReady(h, pf, c, a.s, a.k);
      GiveKeeps(Heap(a.s, Carve(h.slab, a.k, c)), pf, c, size);
    }
  }

  lemma BusyAll(sl: Slab, k: nat)
    requires Busy(sl)
    ensures BusyBut(sl, k)
  {
  }

  lemma MallocLargeKeeps(h: Heap, pf: Pf, size: nat)
    requires HeapInv(h, pf) && size > 0 && MallocLarge(h, pf, size).Given?
    ensures HeapInv(MallocLarge(h, pf, size).h, pf)
  {
    var n := PagesFor(size);
    var a := GetPages(h.sys, pf, n);
    var sl := AddLarge(h.slab, a.k, n, size);
    NewRunFresh(h, pf, n, a.s, a.k);
    AddLargeKeeps(h.slab, a.k, n, size);
    GetPagesKeeps(h.sys, pf, n, a.s, a.k);
    PagesStay(h.sys, a.s, pf, h.slab);
    forall l: nat ensures RunOk(a.s, pf, sl, l) { assert RunOk(a.s, pf, h.slab, l); }
  }

  /** sys_malloc keeps the heap's invariant. */
  lemma SysMallocKeeps(h: Heap, pf: Pf, poolSize: nat, size: nat)
    requires HeapInv(h, pf) && SysMalloc(h, pf, poolSize, size).Given?
    ensures HeapInv(SysMalloc(h, pf, poolSize, size).h, pf)
  {
    if size > 1024 { MallocLargeKeeps(h, pf, size); } else { MallocSmallKeeps(h, pf, size); }
  }

  // ----- free keeps -----

  /** Other pages stay when a run is unmapped. */
  lemma LiveElsewhere(s: Sys, r: Sys, pf: Pf, k: nat, n: nat, j: nat)
    requires Core(s) && Core(r) && Freed(s, r, pf, k, n) && r.uv.Keys == s.uv.Keys && LiveAt(s, pf, j)
    requires j < k || k + n <= j
    ensures LiveAt(r, pf, j) && FrameAt(r, pf, j) == FrameAt(s, pf, j)
  {
    FrameOwned(s, pf, j);
    assert OwnShrunkAt(s, r, pf, k, n, FrameAt(s, pf, j));
    LiveStays(s, r, pf, j);
  }

  /** Giving back the pages of one arena leaves the others theirs. */
  lemma PagesWithout(s: Sys, r: Sys, pf: Pf, sl: Slab, k: nat, t: Slab)
    requires Core(s) && Core(r) && Usable(s, pf) && PagesOk(s, pf, sl) && k in sl.arenas
    requires Freed(s, r, pf, k, Span(sl.arenas[k])) && r.uv.Keys == s.uv.Keys && r.kv.len == s.kv.len
    requires (forall l: nat {:trigger ApartAt(sl, k, l)} :: ApartAt(sl, k, l)) && t.arenas == sl.arenas - {k}
    ensures Usable(r, pf) && PagesOk(r, pf, t)
  {
    SameVLen(s, r, pf);
    forall l: nat ensures RunOk(r, pf, t, l) {
      assert RunOk(s, pf, sl, l) && ApartAt(sl, k, l);
      if l in t.arenas {
        forall j: nat | l <= j < l + Span(t.arenas[l]) ensures LiveAt(r, pf, j) {
          assert LiveAt(s, pf, j);
          LiveElsewhere(s, r, pf, k, Span(sl.arenas[k]), j);
        }
      }
    }
  }

  lemma MfreeShape(s: Sys, pf: Pf, k: nat, n: nat)
    requires Inv(s) && Usable(s, pf) && Live(s, pf, k, n) && k + n <= |VBits(s, pf).v|
    ensures var r := MfreePage(s, pf, k, n);
            Inv(r) && Freed(s, r, pf, k, n) && r.uv.Keys == s.uv.Keys && r.kv.len == s.kv.len
  {
    MfreeKeeps(s, pf, k, n);
  }

  /** mfree_page on one arena's pages. */
  lemma PagesReturned(s: Sys, pf: Pf, sl: Slab, k: nat, n: nat, t: Slab)
    requires Inv(s) && Usable(s, pf) && SlabOk(sl) && PagesOk(s, pf, sl) && k in sl.arenas && n == Span(sl.arenas[k])
    requires Live(s, pf, k, n) && k + n <= |VBits(s, pf).v| && t.arenas == sl.arenas - {k}
    ensures var r := MfreePage(s, pf, k, n); Inv(r) && Usable(r, pf) && PagesOk(r, pf, t)
  {
    MfreeShape(s, pf, k, n);
    forall l: nat ensures ApartAt(sl, k, l) { }
    PagesWithout(s, MfreePage(s, pf, k, n), pf, sl, k, t);
  }

  lemma FreeLargeKeeps(h: Heap, pf: Pf, p: Ptr)
    requires HeapInv(h, pf) && p in h.slab.live && p.page in h.slab.arenas && h.slab.arenas[p.page].Large?
    ensures HeapInv(FreeLarge(h, pf, p), pf)
  {
    ArenaLive(h, pf, p.page);
    DropLargeKeeps(h.slab, p);
    PagesReturned(h.sys, pf, h.slab, p.page, Span(h.slab.arenas[p.page]), DropLarge(h.slab, p));
  }

  lemma PutPages(h: Heap, pf: Pf, p: Ptr)
    requires HeapInv(h, pf) && p in h.slab.live && p.page in h.slab.arenas && h.slab.arenas[p.page].Small?
    ensures PagesOk(h.sys, pf, Put(h.slab, p))
  {
    forall k: nat ensures RunOk(h.sys, pf, Put(h.slab, p), k) { assert RunOk(h.sys, pf, h.slab, k); }
  }

  lemma NotFullBusy(sl: Slab, k: nat)
    requires SlabOk(sl) && BusyBut(sl, k) && k in sl.arenas && sl.arenas[k].Small?
    requires sl.arenas[k].cnt != PerArena(sl.arenas[k].cls)
    ensures Busy(sl)
  {
    FullIff(sl, k);
    forall l: nat ensures BusyAt(sl, l) { assert l != k ==> BusyAt(sl, l); }
  }

  lemma FreeSmallKeeps(h: Heap, pf: Pf, p: Ptr)
    requires HeapInv(h, pf) && p in h.slab.live && p.page in h.slab.arenas && h.slab.arenas[p.page].Small?
    ensures HeapInv(FreeSmall(h, pf, p), pf)
  {
    var k, sl := p.page, Put(h.slab, p);
    PutKeeps(h.slab, p);
    PutPages(h, pf, p);
    if sl.arenas[k].cnt == PerArena(sl.arenas[k].cls) {
      ArenaLive(h, pf, k);
      RetireKeeps(sl, k);
      PagesReturned(h.sys, pf, sl, k, 1, Retire(sl, k));
    } else {
      NotFullBusy(sl, k);
    }
  }

  /** sys_free keeps the heap's invariant. */
  lemma SysFreeKeeps(h: Heap, pf: Pf, p: Ptr)
    requires HeapInv(h, pf) && p in h.slab.live
    ensures HeapInv(SysFree(h, pf, p), pf)
  {
    assert LiveOk(h.slab, p);
    if h.slab.arenas[p.page].Large? { FreeLargeKeeps(h, pf, p); } else { FreeSmallKeeps(h, pf, p); }
  }
}
