/** sys_malloc and sys_free as they are written, over module MemoryManager's machine: free lists linked
    through the free blocks, headers in the arenas' first pages, all of it read and written through
    the page tables. What is ghost is only what the words are proved to say. */
module HeapCode {
  import opened Bitmaps
  import opened Paging
  import opened Frames
  import opened Pages
  import opened PageAlloc
  import opened MemoryManager
  import opened Lists
  import opened Slabs
  import opened Heaps
  import opened HeapData
  import opened HeapLinks
  import opened HeapWords
  import opened HeapStore
  import opened HeapRelink

  /** How sys_malloc ends: in an ASSERT, with NULL, or with a block. */
  datatype Reply = Halted | NullPtr | Pointer(p: Ptr)

  /** The block at an address. */
  function PtrOf(pf: Pf, a: Word): Ptr
    requires a / PG_SIZE >= PageOf(pf, 0)
  {
    Ptr(a / PG_SIZE - PageOf(pf, 0), a % PG_SIZE)
  }

  class SysHeap {
    const machine: Machine
    const links: Links
    const vaddr: Bitmap        // the virtual bitmap pages are taken from
    const pf: Pf
    const poolSize: nat
    ghost var free: seq<seq<Ptr>>
    ghost var live: map<Ptr, nat>

    ghost predicate Ready()
      reads links, machine, vaddr.bits
    {
      links.machine == machine && links.pf == pf && machine.Valid() && machine.RunningAs(pf) &&
      machine.VaddrOf(pf, vaddr) && |links.ends| == DESC_CNT && EnvOk(pf, links.base)
    }

    ghost function Env(): Env
    {
      EnvOf(pf, links.base)
    }

    ghost function Now(): Slab
      reads this, links
    {
      Slab(links.arenas, free, live)
    }

    ghost function Abs(): Heap
      requires machine.Valid()
      reads this, links, machine, machine.ram, machine.kernelPool.bits, machine.userPool.bits, machine.kernelVaddr.bits
    {
      Heap(machine.Abs(), Now())
    }

    /** The words in memory say what Now() says, and their pages are mapped. */
    ghost predicate Wired()
      requires Ready()
      reads this`free, links, machine, machine.ram, machine.kernelPool.bits, machine.userPool.bits
      reads machine.kernelVaddr.bits, vaddr.bits
    {
      Linked(Env(), links.View(), free) && Headers(Env(), links.View(), links.arenas) &&
      Placed(machine.Abs(), pf, links.arenas)
    }

    constructor (m: Machine, v: Bitmap, flag: Pf, size: nat, descs: nat)
      requires m.Valid() && m.RunningAs(flag) && m.VaddrOf(flag, v) && Inv(m.Abs()) && EnvOk(flag, descs)
      ensures Ready() && machine == m && vaddr == v && pf == flag && poolSize == size && links.base == descs
      ensures Abs().sys == m.Abs() && Abs().slab == Slab(map[], seq(DESC_CNT, _ => []), map[])
      ensures HeapInv(Abs(), pf) && Wired() && fresh(links)
    {
      links := new Links(m, flag, descs);
      machine, vaddr, pf, poolSize := m, v, flag, size;
      free, live := seq(DESC_CNT, _ => []), map[];
      new;
      EmptyOk(m.Abs(), flag);
    }

    // ----- handing out a block -----

    /** list_pop and elem2entry. */
    method PopFirst(c: Class) returns (b: Ptr)
      requires Ready() && Wired() && free[c] != []
      modifies this`free, links`ends, machine.ram
      ensures Ready() && Wired() && |old(free)| == DESC_CNT && b == old(free)[c][0]
      ensures free == old(free)[c := old(free)[c][1..]]
      ensures Wrote(old(machine.Abs()), machine.Abs(), pf, links.arenas)
      ensures links.View() == Removed(Env(), old(links.View()), c, old(free)[c], 0)
    {
      ghost var st, sl := links.View(), Now();
      var e := links.Pop(c, free);
      BlockAddr(machine.Abs(), pf, links.base, links.arenas, free[c][0]);
      b := PtrOf(pf, e);
      RemovedWired(Env(), st, sl, c, 0);
      assert RemoveAt(free[c], 0) == free[c][1..];
      free := free[c := free[c][1..]];
    }

    /** The same when g is the heap but for words of headers and links. */
    method PopBlock(c: Class, ghost g: Heap) returns (b: Ptr)
      requires Ready() && Wired() && free[c] != []
      requires Placed(g.sys, pf, g.slab.arenas) && Relinked(g, Abs(), pf)
      modifies this`free, links`ends, machine.ram
      ensures Ready() && Wired() && b == old(free)[c][0] && free == old(free)[c := old(free)[c][1..]]
      ensures |g.slab.free| == DESC_CNT && machine.Abs() == g.sys.(m := machine.ram[..])
      ensures OnlyMeta(g, pf, machine.ram[..])
    {
      ghost var s, sl, ends := machine.Abs(), Now(), links.ends;
      b := PopFirst(c);
      RemovedRelinked(Env(), g, s, machine.Abs(), pf, ends, links.ends, sl, c, 0);
    }

    /** memset(b, 0, block_size) */
    method ClearBlock(b: Ptr, c: Class)
      requires Ready() && Core(machine.Abs()) && LiveAt(machine.Abs(), pf, b.page) && b in AllBlocks(b.page, c)
      requires b.page <= 8 * VBits(machine.Abs(), pf).len
      modifies machine.ram
      ensures machine.Abs() == ZeroBlock(old(machine.Abs()), pf, b, c)
    {
      ghost var s := machine.Abs();
      BlockWords(c, b.page, b);
      PageShown(s, machine.cr3, pf, b.page);
      assert DirOk(s.m, machine.cr3);
      Memset(machine, PageOf(pf, b.page), FrameAt(s, pf, b.page), b.off / 4, BlockSize(c) / 4);
    }

    /** a->cnt += step, of a small arena. */
    method AddCount(k: nat, step: int) returns (cnt: Word)
      requires Ready() && Wired() && k in links.arenas && links.arenas[k].Small?
      requires 0 <= links.arenas[k].cnt + step < 0x1_0000_0000
      modifies links`arenas, machine.ram
      ensures Ready() && Wired() && cnt == old(links.arenas)[k].cnt + step
      ensures links.arenas == old(links.arenas)[k := Small(old(links.arenas)[k].cls, cnt)]
      ensures machine.Abs() == Stored(old(machine.Abs()), pf, k, 1, cnt)
      ensures Wrote(old(machine.Abs()), machine.Abs(), pf, old(links.arenas))
      ensures links.View() == old(links.View())[Hdr(k, 1) := cnt]
    {
      ghost var st, sl, arenas := links.View(), Now(), links.arenas;
      assert HeaderOk(Env(), st, arenas, k);
      cnt := links.LoadHeader(k, 1);
      cnt := cnt + step;
      links.StoreHeader(k, 1, cnt);
      CountWired(Env(), st, sl, k, cnt);
      ViewShape(machine.Abs(), pf, links.ends, arenas, k, Small(arenas[k].cls, cnt));
      links.arenas := arenas[k := Small(arenas[k].cls, cnt)];
    }

    /** The memset of the block just popped. */
    method ClearHead(b: Ptr, c: Class)
      requires Ready() && Wired() && ProperNode(links.arenas, Blk(b)) && links.arenas[b.page].cls == c
      requires forall d: Class :: b !in free[d]
      modifies machine.ram
      ensures Ready() && Wired() && machine.Abs() == ZeroBlock(old(machine.Abs()), pf, b, c)
    {
      assert PlacedAt(machine.Abs(), pf, links.arenas, b.page);
      ZeroedWired(Env(), machine.Abs(), pf, links.ends, Now(), b, c);
      ClearBlock(b, c);
    }

    /** The memset of the block just popped and a->cnt--. */
    method GivePopped(b: Ptr, c: Class, ghost size: nat, ghost g: Heap)
      requires Ready() && Wired() && Heaps.Ready(g, pf, c) && b == g.slab.free[c][0]
      requires machine.Abs() == g.sys.(m := machine.ram[..]) && OnlyMeta(g, pf, machine.ram[..])
      requires Now() == g.slab.(free := g.slab.free[c := g.slab.free[c][1..]])
      modifies this`live, links`arenas, machine.ram
      ensures Ready() && Wired() && Relinked(GiveHead(g, pf, c, size).h, Abs(), pf)
    {
      HeadCounts(g.slab, c);
      HeadOffLists(g.slab, c);
      ghost var m := machine.ram[..];
      ClearHead(b, c);
      CountGiven(b, c, size, g, m);
    }

    /** a->cnt-- */
    method CountGiven(b: Ptr, c: Class, ghost size: nat, ghost g: Heap, ghost m: Memory)
      requires Ready() && Wired() && Heaps.Ready(g, pf, c) && b == g.slab.free[c][0] && OnlyMeta(g, pf, m)
      requires machine.Abs() == ZeroBlock(g.sys.(m := m), pf, b, c)
      requires Now() == g.slab.(free := g.slab.free[c := g.slab.free[c][1..]])
      modifies this`live, links`arenas, machine.ram
      ensures Ready() && Wired() && Relinked(GiveHead(g, pf, c, size).h, Abs(), pf)
    {
      HeadCounts(g.slab, c);
      FullIff(g.slab, b.page);
      var cnt := AddCount(b.page, -1);
      live := live[b := size];
      assert links.arenas == Pop(g.slab, c, size).arenas;
      assert free == Pop(g.slab, c, size).free;
      assert live == Pop(g.slab, c, size).live;
      GivenRelinked(g, pf, c, size, m, cnt);
    }

    /** list_pop, then that; g is the heap but for words of headers and links. */
    method TakeHead(c: Class, ghost size: nat, ghost g: Heap) returns (b: Ptr)
      requires Ready() && Wired() && Heaps.Ready(g, pf, c) && Relinked(g, Abs(), pf)
      modifies this`free, this`live, links, machine.ram
      ensures Ready() && Wired() && b == g.slab.free[c][0]
      ensures Relinked(GiveHead(g, pf, c, size).h, Abs(), pf)
    {
      PlacedFrom(g.sys, pf, g.slab);
      b := PopBlock(c, g);
      GivePopped(b, c, size, g);
    }

    // ----- a new arena -----

    /** a->desc, a->large and a->cnt of a page just mapped. */
    method SetSmall(k: nat, c: Class, cnt: Word)
      requires Ready() && links.Ready() && k in links.arenas
      modifies machine.ram
      ensures Ready() && links.Ready() && links.View() == HeaderSet(Env(), old(links.View()), k, Small(c, cnt))
      ensures Wrote(old(machine.Abs()), machine.Abs(), pf, links.arenas)
    {
      var desc: Word := links.base + DESC_SIZE * c;
      assert desc == DescAddr(Env(), c);
      links.StoreHeaders(k, 0, desc, 2, 0, 1, cnt);
    }

    method SetLarge(k: nat, n: Word)
      requires Ready() && links.Ready() && k in links.arenas
      modifies machine.ram
      ensures Ready() && links.Ready() && links.View() == HeaderSet(Env(), old(links.View()), k, Large(n))
      ensures Wrote(old(machine.Abs()), machine.Abs(), pf, links.arenas)
    {
      links.StoreHeaders(k, 0, 0, 1, n, 2, 1);
    }

    /** list_append of a block that is on no list. */
    method AppendBlock(c: Class, b: Ptr)
      requires Ready() && Wired() && ProperNode(links.arenas, Blk(b)) && forall d: Class :: b !in free[d]
      modifies this`free, links`ends, machine.ram
      ensures Ready() && Wired() && |old(free)| == DESC_CNT && free == old(free)[c := old(free)[c] + [b]]
      ensures Wrote(old(machine.Abs()), machine.Abs(), pf, links.arenas)
      ensures NextOf(Blk(b)) in old(links.View()) && PrevOf(Blk(b)) in old(links.View())
      ensures links.View() == Appended(Env(), old(links.View()), c, old(free)[c], b)
    {
      ghost var st, sl := links.View(), Now();
      BlockAddr(machine.Abs(), pf, links.base, links.arenas, b);
      links.Append(c, PageOf(pf, b.page) * PG_SIZE + b.off, b, free);
      AppendedWired(Env(), st, sl, c, b);
      free := free[c := free[c] + [b]];
    }

    /** list_remove of a block on a list. */
    method RemoveBlock(c: Class, b: Ptr, ghost i: nat)
      requires Ready() && Wired() && ProperNode(links.arenas, Blk(b)) && i < |free[c]| && free[c][i] == b
      modifies this`free, links`ends, machine.ram
      ensures Ready() && Wired() && |old(free)| == DESC_CNT && i < |old(free)[c]|
      ensures free == old(free)[c := RemoveAt(old(free)[c], i)]
      ensures Wrote(old(machine.Abs()), machine.Abs(), pf, links.arenas)
      ensures links.View() == Removed(Env(), old(links.View()), c, old(free)[c], i)
    {
      ghost var st, sl := links.View(), Now();
      BlockAddr(machine.Abs(), pf, links.base, links.arenas, b);
      links.Remove(c, PageOf(pf, b.page) * PG_SIZE + b.off, i, free);
      RemovedWired(Env(), st, sl, c, i);
      free := free[c := RemoveAt(free[c], i)];
    }

    /** ASSERT of elem_find on a block. */
    method OnList(c: Class, b: Ptr) returns (found: bool)
      requires Ready() && Wired() && ProperNode(links.arenas, Blk(b))
      ensures found <==> b in free[c]
    {
      BlockAddr(machine.Abs(), pf, links.base, links.arenas, b);
      found := links.Find(c, PageOf(pf, b.page) * PG_SIZE + b.off, b, free);
    }

    /** One turn of the cutting loop: the ASSERT, then list_append. */
    method CutBlock(k: nat, c: Class, idx: nat, ghost s: Sys, ghost st: Store)
      requires Ready() && Wired() && k in links.arenas && links.arenas[k].Small? && links.arenas[k].cls == c
      requires idx < PerArena(c) && forall d: Class :: Block(k, c, idx) !in free[d]
      requires Placed(s, pf, links.arenas) && Wrote(s, machine.Abs(), pf, links.arenas)
      requires MetaOnly(st, links.View(), free)
      modifies this`free, links`ends, machine.ram
      ensures Ready() && Wired() && |old(free)| == DESC_CNT
      ensures free == old(free)[c := old(free)[c] + [Block(k, c, idx)]]
      ensures Wrote(s, machine.Abs(), pf, links.arenas) && MetaOnly(st, links.View(), free)
    {
      var b := Block(k, c, idx);
      assert b in AllBlocks(k, c);
      ghost var s0, st0, free0 := machine.Abs(), links.View(), free;
      var found := OnList(c, b);
      assert !found;
      AppendBlock(c, b);
      WroteTwice(s, s0, machine.Abs(), pf, links.arenas);
      AppendedTwice(Env(), st, st0, free0, c, b);
    }

    /** The arena at k with its first n blocks cut. */
    ghost predicate Cutting(k: nat, c: Class, n: nat, g: Heap, sl: Slab, st: Store)
      reads this, links, machine, machine.ram, machine.kernelPool.bits, machine.userPool.bits, machine.kernelVaddr.bits
      reads vaddr.bits
    {
      Ready() && Wired() && |sl.free| == DESC_CNT && Cut(sl, free, k, c, n) &&
      links.arenas == g.slab.arenas && live == sl.live &&
      Wrote(g.sys, machine.Abs(), pf, links.arenas) && MetaOnly(st, links.View(), free)
    }

    method CutOne(k: nat, c: Class, n: nat, ghost g: Heap, ghost sl: Slab, ghost st: Store)
      requires Cutting(k, c, n, g, sl, st) && n < PerArena(c) && SlabOk(sl) && FreshRun(sl, k, 1)
      requires Placed(g.sys, pf, g.slab.arenas) && k in g.slab.arenas && g.slab.arenas[k] == Small(c, PerArena(c))
      modifies this`free, links`ends, machine.ram
      ensures Cutting(k, c, n + 1, g, sl, st)
    {
      NextBlockAbsent(sl, free, k, c, n);
      CutNext(sl, free, k, c, n);
      CutBlock(k, c, n, g.sys, st);
    }

    /** The cutting loop. */
    method CutBlocks(k: nat, c: Class, ghost g: Heap, ghost sl: Slab, ghost st: Store)
      requires Cutting(k, c, 0, g, sl, st) && SlabOk(sl) && FreshRun(sl, k, 1) && g.slab == Carve(sl, k, c)
      requires Placed(g.sys, pf, g.slab.arenas)
      modifies this`free, links`ends, machine.ram
      ensures Cutting(k, c, PerArena(c), g, sl, st)
    {
      for blockIdx := 0 to PerArena(c)
        invariant Cutting(k, c, blockIdx, g, sl, st)
      {
        CutOne(k, c, blockIdx, g, sl, st);
      }
    }

    /** A page just mapped becomes an arena: its header, then its blocks. */
    method CutArena(k: nat, c: Class, ghost g: Heap)
      requires Ready() && SlabOk(Now()) && FreshRun(Now(), k, 1) && Heaps.Ready(g, pf, c)
      requires g == Heap(machine.Abs(), Carve(Now(), k, c)) && k !in links.arenas
      requires HeapRelink.Wired(Env(), HeapWords.View(machine.Abs(), pf, links.ends, g.slab.arenas), Now())
      modifies this`free, links, machine.ram
      ensures Ready() && Wired() && Relinked(g, Abs(), pf)
    {
      ghost var sl, ends := Now(), links.ends;
      PlacedFrom(g.sys, pf, g.slab);
      links.arenas := links.arenas[k := Small(c, PerArena(c))];
      ghost var st := links.View();
      SetSmall(k, c, PerArena(c));
      HeaderWired(Env(), st, sl, k, Small(c, PerArena(c)));
      HeaderMeta(Env(), st, k, Small(c, PerArena(c)), free);
      CutNone(sl, k, c);
      CutBlocks(k, c, g, sl, st);
      CutAll(sl, free, k, c);
      MetaWrote(g.sys, machine.Abs(), pf, ends, links.ends, g.slab);
    }

    // ----- sys_malloc -----

    /** More than 1024 bytes: whole pages and a header. */
    method MallocPages(size: nat) returns (r: Reply)
      requires Ready() && Wired() && HeapInv(Abs(), pf) && size > 0
      modifies this`live, links, machine`own, machine`uv
      modifies machine.ram, machine.kernelPool.bits, machine.userPool.bits, vaddr.bits
      ensures r.Halted? ==> MallocLarge(old(Abs()), pf, size) == Stops
      ensures !r.Halted? ==> Ready() && Wired()
      ensures r.NullPtr? ==> MallocLarge(old(Abs()), pf, size) == Nil && Abs() == old(Abs())
      ensures r.Pointer? ==>
                var o := MallocLarge(old(Abs()), pf, size); o.Given? && o.p == r.p && Relinked(o.h, Abs(), pf)
    {
      ghost var h, ends := Abs(), links.ends;
      var pageCnt := (size + HEADER + PAGE - 1) / PAGE;
      var a := machine.GetPages(pf, pageCnt, vaddr);
      match a
      case Stopped => return Halted;
      case NoPages => return NullPtr;
      case PagesAt(k) =>
        LargeReady(Env(), h, pf, ends, size, machine.Abs(), k);
        AddLargeArena(k, pageCnt, size);
        return Pointer(Ptr(k, HEADER));
    }

    method AddLargeArena(k: nat, n: nat, ghost size: nat)
      requires Ready() && n < 3840 && k !in links.arenas && |free| == DESC_CNT
      requires Placed(machine.Abs(), pf, links.arenas[k := Large(n)])
      requires var arenas := links.arenas[k := Large(n)];
               HeapRelink.Wired(Env(), HeapWords.View(machine.Abs(), pf, links.ends, arenas), Now())
      modifies this`live, links, machine.ram
      ensures Ready() && Wired() && Relinked(Heap(old(machine.Abs()), AddLarge(old(Now()), k, n, size)), Abs(), pf)
    {
      ghost var s, sl, ends := machine.Abs(), Now(), links.ends;
      links.arenas := links.arenas[k := Large(n)];
      ghost var st := links.View();
      SetLarge(k, n);
      HeaderWired(Env(), st, sl, k, Large(n));
      HeaderMeta(Env(), st, k, Large(n), free);
      live := live[Ptr(k, HEADER) := size];
      MetaWrote(s, machine.Abs(), pf, ends, links.ends, Now());
    }

    /** A page for a new arena, cut into blocks. */
    method GrowClass(c: Class) returns (a: Returned, ghost g: Heap)
      requires Ready() && Wired() && HeapInv(Abs(), pf) && free[c] == []
      modifies this`free, links, machine`own, machine`uv
      modifies machine.ram, machine.kernelPool.bits, machine.userPool.bits, vaddr.bits
      ensures a == Answer(PageAlloc.GetPages(old(Abs()).sys, pf, 1))
      ensures !a.Stopped? ==> Ready() && Wired()
      ensures a.NoPages? ==> Abs() == old(Abs())
      ensures a.PagesAt? ==>
                g == Heap(PageAlloc.GetPages(old(Abs()).sys, pf, 1).s, Carve(old(Abs()).slab, a.k, c)) &&
                Heaps.Ready(g, pf, c) && Relinked(g, Abs(), pf)
    {
      ghost var h, ends := Abs(), links.ends;
      a := machine.GetPages(pf, 1, vaddr);
      g := h;
      if a.PagesAt? {
        GrownReady(Env(), h, pf, ends, c, machine.Abs(), a.k);
        g := Heap(machine.Abs(), Carve(h.slab, a.k, c));
        CutArena(a.k, c, g);
      }
    }

    /** What is left of sys_malloc then is to hand out the head of the list. */
    method GrowFor(c: Class, ghost size: nat) returns (a: Returned, ghost g: Heap)
      requires Ready() && Wired() && HeapInv(Abs(), pf) && free[c] == [] && 0 < size <= 1024 && c == ClassOf(size)
      modifies this`free, links, machine`own, machine`uv
      modifies machine.ram, machine.kernelPool.bits, machine.userPool.bits, vaddr.bits
      ensures a.Stopped? ==> MallocSmall(old(Abs()), pf, size) == Stops
      ensures !a.Stopped? ==> Ready() && Wired()
      ensures a.NoPages? ==> MallocSmall(old(Abs()), pf, size) == Nil && Abs() == old(Abs())
      ensures a.PagesAt? ==> Heaps.Ready(g, pf, c) && Relinked(g, Abs(), pf)
                             && MallocSmall(old(Abs()), pf, size) == GiveHead(g, pf, c, size)
    {
      SmallByPage(Abs(), pf, size);
      a, g := GrowClass(c);
    }

    method MallocBlock(size: nat) returns (r: Reply)
      requires Ready() && Wired() && HeapInv(Abs(), pf) && 0 < size <= 1024
      modifies this`free, this`live, links, machine`own, machine`uv
      modifies machine.ram, machine.kernelPool.bits, machine.userPool.bits, vaddr.bits
      ensures r.Halted? ==> MallocSmall(old(Abs()), pf, size) == Stops
      ensures !r.Halted? ==> Ready() && Wired()
      ensures r.NullPtr? ==> MallocSmall(old(Abs()), pf, size) == Nil && Abs() == old(Abs())
      ensures r.Pointer? ==>
                var o := MallocSmall(old(Abs()), pf, size); o.Given? && o.p == r.p && Relinked(o.h, Abs(), pf)
    {
      ghost var g := Abs();
      var c := FindClass(size);
      var empty := links.Empty(c, free);
      if empty {
        var a;
        a, g := GrowFor(c, size);
        if a.Stopped? { return Halted; }
        if a.NoPages? { return NullPtr; }
      } else {
        BusyAll(g.slab, free[c][0].page);
        RelinkedNone(g, pf);
      }
      var b := TakeHead(c, size, g);
      r := Pointer(b);
    }

    method SysMalloc(size: nat) returns (r: Reply)
      requires Ready() && Wired() && HeapInv(Abs(), pf)
      modifies this`free, this`live, links, machine`own, machine`uv
      modifies machine.ram, machine.kernelPool.bits, machine.userPool.bits, vaddr.bits
      ensures r.Halted? ==> Heaps.SysMalloc(old(Abs()), pf, poolSize, size) == Stops
      ensures !r.Halted? ==> Ready() && Wired() && HeapInv(Abs(), pf)
      ensures r.NullPtr? ==> Heaps.SysMalloc(old(Abs()), pf, poolSize, size) == Nil && Abs() == old(Abs())
      ensures r.Pointer? ==>
                var o := Heaps.SysMalloc(old(Abs()), pf, poolSize, size);
                o.Given? && o.p == r.p && Relinked(o.h, Abs(), pf)
    {
      ghost var h := Abs();
      if !(size > 0 && size < poolSize) { return NullPtr; }
      if size > 1024 { r := MallocPages(size); } else { r := MallocBlock(size); }
      if r.Pointer? {
        SysMallocKeeps(h, pf, poolSize, size);
        RelinkedKeeps(Heaps.SysMalloc(h, pf, poolSize, size).h, Abs(), pf);
      }
    }

    // ----- sys_free -----

    /** list_append, and ++a->cnt. */
    method PutBlock(p: Ptr, c: Class) returns (cnt: Word)
      requires Ready() && Wired() && ProperNode(links.arenas, Blk(p)) && forall d: Class :: p !in free[d]
      requires p.page in links.arenas && links.arenas[p.page].Small? && links.arenas[p.page].cls == c
      requires links.arenas[p.page].cnt < 4096
      modifies this`free, this`live, links, machine.ram
      ensures Ready() && Wired() && |old(free)| == DESC_CNT
      ensures Now() == Put(old(Now()), p) && links.arenas[p.page] == Small(c, cnt)
      ensures machine.Abs() == old(machine.Abs()).(m := machine.ram[..])
      ensures OnlyMeta(Heap(old(machine.Abs()), Put(old(Now()), p)), pf, machine.ram[..])
    {
      ghost var s, st, sl, ends := machine.Abs(), links.View(), Now(), links.ends;
      AppendBlock(c, p);
      cnt := CountPut(p, c, s, st, sl, ends);
    }

    /** ++a->cnt, after the block was appended in state s. */
    method CountPut(p: Ptr, c: Class, ghost s: Sys, ghost st: Store, ghost sl: Slab, ghost ends: seq<Ends>)
      returns (cnt: Word)
      requires Ready() && Wired() && |sl.free| == DESC_CNT
      requires p.page in sl.arenas && sl.arenas[p.page].Small? && sl.arenas[p.page].cls == c
      requires sl.arenas[p.page].cnt < 4096
      requires Now() == sl.(free := sl.free[c := sl.free[c] + [p]]) && |ends| == DESC_CNT
      requires Placed(s, pf, sl.arenas) && Wrote(s, machine.Abs(), pf, sl.arenas)
      requires st == HeapWords.View(s, pf, ends, sl.arenas) && links.View() == Appended(Env(), st, c, sl.free[c], p)
      modifies this`live, links`arenas, machine.ram
      ensures Ready() && Wired() && Now() == Put(sl, p) && links.arenas[p.page] == Small(c, cnt)
      ensures machine.Abs() == s.(m := machine.ram[..]) && OnlyMeta(Heap(s, Put(sl, p)), pf, machine.ram[..])
    {
      ghost var s1, ends1 := machine.Abs(), links.ends;
      cnt := AddCount(p.page, 1);
      live := live - {p};
      assert links.arenas == Put(sl, p).arenas && free == Put(sl, p).free && live == Put(sl, p).live;
      PutRelinked(Env(), s, s1, pf, ends, ends1, sl, p, cnt);
    }

    /** The arena at k with its first n blocks off the list; g is the heap but for headers and links. */
    ghost predicate Dropping(k: nat, c: Class, n: nat, g: Heap)
      reads this, links, machine, machine.ram, machine.kernelPool.bits, machine.userPool.bits, machine.kernelVaddr.bits
      reads vaddr.bits
    {
      Ready() && Wired() && |g.slab.free| == DESC_CNT && TakenOff(g.slab, free, k, c, n) &&
      links.arenas == g.slab.arenas && live == g.slab.live &&
      machine.Abs() == g.sys.(m := machine.ram[..]) && OnlyMeta(g, pf, machine.ram[..])
    }

    /** One turn of that loop: the ASSERT, then list_remove. */
    method DropOne(k: nat, c: Class, n: nat, ghost g: Heap)
      requires Dropping(k, c, n, g) && n < PerArena(c) && Placed(g.sys, pf, g.slab.arenas)
      requires k in g.slab.arenas && g.slab.arenas[k].Small? && g.slab.arenas[k].cls == c
      requires Distinct(g.slab.free[c]) && forall b :: b in AllBlocks(k, c) ==> b in g.slab.free[c]
      modifies this`free, links`ends, machine.ram
      ensures Dropping(k, c, n + 1, g)
    {
      ghost var s, sl, ends := machine.Abs(), Now(), links.ends;
      var b := Block(k, c, n);
      assert b in AllBlocks(k, c);
      ghost var i := TakenOffNext(g.slab, free, k, c, n);
      var found := OnList(c, b);
      assert found;
      RemoveBlock(c, b, i);
      RemovedRelinked(Env(), g, s, machine.Abs(), pf, ends, links.ends, sl, c, i);
    }

    /** The loop that takes a finished arena apart. */
    method DropBlocks(k: nat, c: Class, ghost g: Heap)
      requires Dropping(k, c, 0, g) && Placed(g.sys, pf, g.slab.arenas)
      requires k in g.slab.arenas && g.slab.arenas[k].Small? && g.slab.arenas[k].cls == c
      requires Distinct(g.slab.free[c]) && forall b :: b in AllBlocks(k, c) ==> b in g.slab.free[c]
      modifies this`free, links`ends, machine.ram
      ensures Dropping(k, c, PerArena(c), g)
    {
      for blockIdx := 0 to PerArena(c)
        invariant Dropping(k, c, blockIdx, g)
      {
        DropOne(k, c, blockIdx, g);
      }
    }

    /** mfree_page on an arena's pages. */
    method ReturnPages(k: nat, n: nat)
      requires Ready() && Core(machine.Abs()) && Live(machine.Abs(), pf, k, n) && n >= 1
      requires k + n <= 8 * VBits(machine.Abs(), pf).len + 1
      modifies machine`own, machine`uv
      modifies machine.ram, machine.kernelPool.bits, machine.userPool.bits, vaddr.bits
      ensures Ready() && machine.Abs() == PageAlloc.MfreePage(old(machine.Abs()), pf, k, n)
    {
      machine.MfreePage(pf, k, n, vaddr);
    }

    /** A small block: back on its list, and if that was the last of its arena, the arena back. m is the
        memory when that is settled. */
    method FreeBlock(p: Ptr, c: Class) returns (ghost m: Memory)
      requires Ready() && Wired() && HeapInv(Abs(), pf) && p in live
      requires p.page in links.arenas && links.arenas[p.page].Small? && links.arenas[p.page].cls == c
      modifies this`free, this`live, links, machine`own, machine`uv
      modifies machine.ram, machine.kernelPool.bits, machine.userPool.bits, vaddr.bits
      ensures Ready() && Wired() && Scribbled(old(Abs()), pf, p, m)
      ensures var g := Heap(old(Abs()).sys.(m := m), old(Abs()).slab); HeapInv(g, pf) && Abs() == FreeSmall(g, pf, p)
    {
      ghost var h := Abs();
      LiveOffEvery(h.slab, p);
      var cnt := PutBlock(p, c);
      m := machine.ram[..];
      ScribbleKeeps(h, pf, p, m);
      ghost var g := Heap(h.sys.(m := m), h.slab);
      if cnt == PerArena(c) { m := RetireArena(p, c, h, g); }
    }

    /** Its blocks off the list, its page back. */
    method RetireArena(p: Ptr, c: Class, ghost h: Heap, ghost g0: Heap) returns (ghost m: Memory)
      requires Ready() && Wired() && HeapInv(h, pf) && p in h.slab.live
      requires p.page in h.slab.arenas && h.slab.arenas[p.page].Small? && h.slab.arenas[p.page].cls == c
      requires Now() == Put(h.slab, p) && links.arenas[p.page] == Small(c, PerArena(c))
      requires machine.Abs() == h.sys.(m := machine.ram[..])
      requires OnlyMeta(Heap(h.sys, Put(h.slab, p)), pf, machine.ram[..])
      modifies this`free, links, machine`own, machine`uv
      modifies machine.ram, machine.kernelPool.bits, machine.userPool.bits, vaddr.bits
      ensures Ready() && Wired() && Scribbled(h, pf, p, m)
      ensures var g := Heap(h.sys.(m := m), h.slab); HeapInv(g, pf) && Abs() == FreeSmall(g, pf, p)
    {
      var k := p.page;
      ghost var sl := Put(h.slab, p);
      FreedIs(h, pf, p);
      PlacedFrom(h.sys, pf, sl);
      TakenOffNone(sl, k, c);
      DropBlocks(k, c, Heap(h.sys, sl));
      TakenOffAll(sl, free, k, c);
      m := machine.ram[..];
      GiveArenaBack(p, c, h, m);
    }

    /** mfree_page(a, 1) */
    method GiveArenaBack(p: Ptr, c: Class, ghost h: Heap, ghost m: Memory)
      requires Ready() && Wired() && HeapInv(h, pf) && p in h.slab.live && Scribbled(h, pf, p, m)
      requires p.page in h.slab.arenas && h.slab.arenas[p.page].Small? && h.slab.arenas[p.page].cls == c
      requires Put(h.slab, p).arenas[p.page].cnt == PerArena(c)
      requires Now() == Put(h.slab, p).(free := Retire(Put(h.slab, p), p.page).free)
      requires machine.Abs() == h.sys.(m := m)
      modifies links, machine`own, machine`uv
      modifies machine.ram, machine.kernelPool.bits, machine.userPool.bits, vaddr.bits
      ensures Ready() && Wired()
      ensures var g := Heap(h.sys.(m := m), h.slab); HeapInv(g, pf) && Abs() == FreeSmall(g, pf, p)
    {
      ScribbleKeeps(h, pf, p, m);
      ghost var g := Heap(h.sys.(m := m), h.slab);
      RetireBack(Env(), g, pf, p, links.ends);
      ghost var r := FreeSmall(g, pf, p);
      ReturnArena(p.page, 1, r.sys, r.slab);
    }

    /** mfree_page, after which the heap is t. */
    method ReturnArena(k: nat, n: nat, ghost s: Sys, ghost t: Slab)
      requires Ready() && Core(machine.Abs()) && Live(machine.Abs(), pf, k, n) && n >= 1
      requires k + n <= 8 * VBits(machine.Abs(), pf).len + 1 && k + n <= |VBits(machine.Abs(), pf).v|
      requires t.arenas == links.arenas - {k} && t.free == free && s == PageAlloc.MfreePage(machine.Abs(), pf, k, n)
      requires Placed(s, pf, t.arenas) && HeapRelink.Wired(Env(), HeapWords.View(s, pf, links.ends, t.arenas), t)
      modifies links`arenas, machine`own, machine`uv
      modifies machine.ram, machine.kernelPool.bits, machine.userPool.bits, vaddr.bits
      ensures Ready() && Wired() && links.arenas == t.arenas && machine.Abs() == s
    {
      ReturnPages(k, n);
      Forget(t);
    }

    /** The arenas are those of t now. */
    ghost method Forget(t: Slab)
      requires Ready() && t.free == free && Placed(machine.Abs(), pf, t.arenas)
      requires HeapRelink.Wired(Env(), HeapWords.View(machine.Abs(), pf, links.ends, t.arenas), t)
      modifies links`arenas
      ensures Ready() && Wired() && links.arenas == t.arenas
    {
      links.arenas := t.arenas;
    }

    /** A large block: its pages back, which leaves the heap r. */
    method FreePages(p: Ptr, ghost r: Heap)
      requires Ready() && Wired() && p.page in links.arenas && links.arenas[p.page].Large?
      requires var k, n := p.page, links.arenas[p.page].pages;
               Core(machine.Abs()) && Live(machine.Abs(), pf, k, n) && n >= 1 &&
               k + n <= 8 * VBits(machine.Abs(), pf).len + 1 && k + n <= |VBits(machine.Abs(), pf).v| &&
               r.sys == PageAlloc.MfreePage(machine.Abs(), pf, k, n)
      requires r.slab == Slab(links.arenas - {p.page}, free, live - {p}) && Placed(r.sys, pf, r.slab.arenas)
      requires HeapRelink.Wired(Env(), HeapWords.View(r.sys, pf, links.ends, r.slab.arenas), r.slab)
      modifies this`live, links, machine`own, machine`uv
      modifies machine.ram, machine.kernelPool.bits, machine.userPool.bits, vaddr.bits
      ensures Ready() && Wired() && Abs() == r
    {
      var n := PageCount(p.page);
      live := live - {p};
      ReturnArena(p.page, n, r.sys, r.slab);
    }

    /** a->cnt of a large arena */
    method PageCount(k: nat) returns (n: Word)
      requires Ready() && Wired() && k in links.arenas && links.arenas[k].Large?
      ensures n == links.arenas[k].pages
    {
      assert HeaderOk(Env(), links.View(), links.arenas, k);
      n := links.LoadHeader(k, 1);
    }

    /** The words of the header tell a large block from a small one and the size of that. */
    method SysFree(p: Ptr) returns (ghost m: Memory)
      requires Ready() && Wired() && HeapInv(Abs(), pf) && p in live
      modifies this`free, this`live, links, machine`own, machine`uv
      modifies machine.ram, machine.kernelPool.bits, machine.userPool.bits, vaddr.bits
      ensures Ready() && Wired() && HeapInv(Abs(), pf) && Scribbled(old(Abs()), pf, p, m)
      ensures var g := Heap(old(Abs()).sys.(m := m), old(Abs()).slab);
              HeapInv(g, pf) && Abs() == Heaps.SysFree(g, pf, p)
    {
      ghost var h := Abs();
      assert LiveOk(h.slab, p);
      assert HeaderOk(Env(), links.View(), links.arenas, p.page);
      var desc := links.LoadHeader(p.page, 0);
      var large := links.LoadHeader(p.page, 2);
      m := machine.ram[..];
      if desc == 0 && large == 1 {
        LargeBack(Env(), h, pf, p, links.ends);
        FreePages(p, FreeLarge(h, pf, p));
      } else {
        var c := (desc - links.base) / DESC_SIZE;
        m := FreeBlock(p, c);
      }
      SysFreeKeeps(Heap(h.sys.(m := m), h.slab), pf, p);
    }
  }

  /** memset of n words of one mapped page, from word w. */
  method Memset(mc: Machine, vp: Page, ghost f: Frame, w: nat, n: nat)
    requires mc.Valid() && Copyable(mc.ram[..], mc.cr3, vp, f) && w + n <= 1024
    modifies mc.ram
    ensures mc.ram[..] == ClearWords(old(mc.ram[..]), f, w, n)
  {
    ghost var m := mc.ram[..];
    ClearNone(m, f, w);
    for j := 0 to n
      invariant mc.ram[..] == ClearWords(m, f, w, j)
    {
      var dst: Word := vp * PG_SIZE + (w + j) * 4;
      ClearTarget(m, mc.cr3, vp, f, w, j, dst);
      ClearNext(m, f, w, j, Walk(mc.ram[..], mc.cr3, dst).addr / 4);
      mc.Store(dst, 0);
    }
  }

  lemma ClearNone(m: Memory, f: Frame, w: nat)
    ensures ClearWords(m, f, w, 0) == m
  {
  }

  lemma ClearNext(m: Memory, f: Frame, w: nat, j: nat, at: nat)
    requires w + j < 1024 && at == f * 1024 + (w + j)
    ensures ClearWords(m, f, w, j)[at := 0] == ClearWords(m, f, w, j + 1)
  {
  }

  lemma ClearTarget(m: Memory, dir: Frame, vp: Page, f: Frame, w: nat, j: nat, dst: Word)
    requires w + j < 1024 && Copyable(m, dir, vp, f) && dst == vp * PG_SIZE + (w + j) * 4
    ensures var r := ClearWords(m, f, w, j);
            dst % 4 == 0 && Walk(r, dir, dst).At? && Walk(r, dir, dst).addr / 4 == f * 1024 + (w + j)
  {
    ClearEntry(m, f, w, j, dir, vp / 1024);
    ClearEntry(m, f, w, j, FrameOf(Entry(m, dir, vp / 1024)), vp % 1024);
    WalkWord(ClearWords(m, f, w, j), dir, vp, f, w + j, dst);
  }

  /** sys_malloc of a small size that finds its list empty. */
  lemma SmallByPage(h: Heap, pf: Pf, size: nat)
    requires HeapInv(h, pf) && 0 < size <= 1024 && h.slab.free[ClassOf(size)] == []
    ensures match PageAlloc.GetPages(h.sys, pf, 1)
            case Crash => MallocSmall(h, pf, size) == Stops
            case Null => MallocSmall(h, pf, size) == Nil
            case Got(s, k) =>
              var g := Heap(s, Carve(h.slab, k, ClassOf(size)));
              SlabOk(g.slab) && g.slab.free[ClassOf(size)] != [] &&
              MallocSmall(h, pf, size) == GiveHead(g, pf, ClassOf(size), size)
  {
    var a := PageAlloc.GetPages(h.sys, pf, 1);
    if a.Got? { CarvedReady(h, pf, ClassOf(size), a.s, a.k); }
  }

  lemma EmptyOk(s: Sys, pf: Pf)
    requires Inv(s) && Usable(s, pf)
    ensures HeapInv(Heap(s, Slab(map[], seq(DESC_CNT, _ => []), map[])), pf)
  {
    var sl := Slab(map[], seq(DESC_CNT, _ => []), map[]);
    forall k: nat ensures ArenaOk(sl, k) && RunOk(s, pf, sl, k) && BusyAt(sl, k) { }
    forall k: nat, l: nat ensures ApartAt(sl, k, l) { }
    forall c: Class, b: Ptr ensures FreeOk(sl, c, b) { }
    forall p: Ptr ensures LiveOk(sl, p) { }
  }
}
