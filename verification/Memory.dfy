/** kernel/memory.c and create_page_dir as they are written: bitmaps and page tables updated in
    place, page-table entries reached through the self-map. Each method is proved to do what the
    function of module Pages or PageAlloc says. */
module MemoryManager {
  import opened Bitmaps
  import opened Paging
  import opened Frames
  import opened Pages
  import opened PageAlloc

  /** How malloc_page ends: in an ASSERT, with NULL, or with the pages from index k on. */
  datatype Returned = Stopped | NoPages | PagesAt(k: nat)

  function Answer(a: Alloc): Returned
  {
    match a
    case Crash => Stopped
    case Null => NoPages
    case Got(_, k) => PagesAt(k)
  }

  function PageOf(pf: Pf, k: nat): nat
  {
    (if pf.Kernel? then KHEAP_VP else USER_VP) + k
  }

  // ----- the geometry mem_pool_init computes -----

  const USED_MEM := 0x20_0000      // 1 MB and 256 pages of page tables

  /** free_mem / PG_SIZE in a uint16_t; free_mem is a uint32_t. */
  function FreePages(allMem: Word): nat
  {
    (allMem - USED_MEM) % 0x1_0000_0000 / PG_SIZE % 0x1_0000
  }

  function KernelFree(allMem: Word): nat
  {
    FreePages(allMem) / 2
  }

  function UserFree(allMem: Word): nat
  {
    FreePages(allMem) - KernelFree(allMem)
  }

  /** The frames up to where the user pool starts are the kernel's, the rest of the free ones the
      user's: half each, an odd one being the user's; the bitmaps have a bit for each, but for the
      pages that do not fill a byte. */
  predicate Halved(allMem: Word, userStart: nat, kernelLen: nat, userLen: nat)
  {
    var kernel := userStart - POOL0;
    var user := FreePages(allMem) - kernel;
    0 <= user - kernel <= 1 &&
    8 * kernelLen <= kernel < 8 * kernelLen + 8 && 8 * userLen <= user < 8 * userLen + 8
  }

  /** Lines 216 to 223: the pages of each pool and the bytes of their bitmaps. */
  method SplitPages(allMem: Word) returns (kernelFree: nat, kbmLength: nat, ubmLength: nat)
    ensures kernelFree == KernelFree(allMem) && kbmLength == KernelFree(allMem) / 8 && ubmLength == UserFree(allMem) / 8
    ensures Halved(allMem, POOL0 + kernelFree, kbmLength, ubmLength)
  {
    var allFree := (allMem - USED_MEM) % 0x1_0000_0000 / PG_SIZE % 0x1_0000;
    kernelFree := allFree / 2;
    var userFree := allFree - kernelFree;
    kbmLength, ubmLength := kernelFree / 8, userFree / 8;
  }

  ghost function BitsAt(b: Bitmap): Bits
    reads b.bits
  {
    Bits(b.View(), b.bytesLen)
  }

  function Cleared(b: Bits): (r: Bits)
    requires 8 * b.len <= |b.v|
    ensures r.len == b.len && |r.v| == |b.v| && forall i :: 0 <= i < 8 * b.len ==> !r.v[i]
  {
    Bits(FillRun(b.v, 0, 8 * b.len, false), b.len)
  }

  /** The loops of vaddr_get and vaddr_remove. */
  method SetBits(b: Bitmap, start: nat, cnt: nat, value: bool)
    requires start + cnt <= 8 * b.bits.Length
    modifies b.bits
    ensures b.View() == FillRun(old(b.View()), start, cnt, value)
  {
    ghost var v := b.View();
    for i := 0 to cnt
      invariant b.View() == FillRun(v, start, i, value)
    {
      b.Set(start + i, value);
    }
  }

  lemma NoPagesLeft(s: Sys, pf: Pf, ks: seq<nat>)
    requires |ks| == 0
    ensures MapPages(s, pf, ks) == Done(s)
  {
  }

  lemma PagesStep(s: Sys, pf: Pf, k: nat, ks: seq<nat>, rest: seq<nat>)
    requires ks != [] && ks[0] == k && ks[1..] == rest && Geometry(s) && Usable(s, pf) && k <= 8 * VBits(s, pf).len
    ensures MapPages(s, pf, ks) == match MapPage(s, pf, k)
                                   case Panic => Panic
                                   case Done(t) => MapPages(t, pf, rest)
  {
  }

  method NewBitmap(mem: array<Byte>, len: nat) returns (b: Bitmap)
    requires len < mem.Length
    modifies mem
    ensures b.Valid() && b.bits == mem && BitsAt(b) == Cleared(Bits(old(BitsOf(mem[..])), len))
  {
    b := new Bitmap(mem, len);
    b.Init();
  }

  /** page_table_add(vp, f) seen from directory cur: the entry alone, or a table and the entry. */
  function AddedTo(s: Sys, cur: Frame, vp: Page, f: Frame): Ran<Sys>
    requires Geometry(s)
  {
    if HasTable(s.m, cur, vp) then
      if Present(s.m[PteSlot(s.m, cur, vp)]) then Panic else Done(s.(m := MapIn(s.m, cur, vp, f)))
    else
      match TakeFrame(s, Kernel)
      case Panic => Panic
      case Done(t) => Done(SetPool(s, t, true).(m := MapIn(AddTable(s.m, cur, vp / 1024, t), cur, vp, f)))
  }

  /** The table there is, if any, is open to the user and not the directory itself. */
  predicate TableForUser(m: Memory, cur: Frame, vp: Page)
  {
    var pde := Entry(m, cur, vp / 1024);
    Present(pde) ==> UserWord(pde) && FrameOf(pde) != cur
  }

  /** page_table_add opens the page to user programs. */
  lemma AddedForUser(s: Sys, cur: Frame, vp: Page, f: Frame)
    requires Geometry(s) && AddedTo(s, cur, vp, f).Done? && TableForUser(s.m, cur, vp)
    requires TakeFrame(s, Kernel) != Done(cur)
    ensures UserMayWrite(AddedTo(s, cur, vp, f).value.m, cur, vp)
  {
    PteForUser(f);
    if HasTable(s.m, cur, vp) {
      InForUser(s.m, cur, vp, f);
    } else {
      var t := TakeFrame(s, Kernel).value;
      PteForUser(t);
      TableAdded(s.m, cur, vp / 1024, t, cur, vp / 1024);
      InForUser(AddTable(s.m, cur, vp / 1024, t), cur, vp, f);
    }
  }

  lemma InForUser(m: Memory, cur: Frame, vp: Page, f: Frame)
    requires HasTable(m, cur, vp) && TableForUser(m, cur, vp) && UserWord(Pte(f))
    ensures UserMayWrite(MapIn(m, cur, vp, f), cur, vp)
  {
    var pde := Entry(m, cur, vp / 1024);
    EntryWritten(m, FrameOf(pde), vp % 1024, Pte(f), cur, vp / 1024);
    EntryWritten(m, FrameOf(pde), vp % 1024, Pte(f), FrameOf(pde), vp % 1024);
  }

  class Machine {
    const ram: array<Word>
    var cr3: Frame
    const kernelPool: Bitmap
    const userPool: Bitmap
    const kernelVaddr: Bitmap
    var userStart: nat               // user_pool.phy_addr_start / PG_SIZE
    ghost var uv: map<Frame, Bits>   // the virtual bitmaps of the processes
    ghost var own: map<Frame, Owner>

    ghost predicate Valid()
    {
      ram.Length == WORDS && kernelPool.Valid() && userPool.Valid() && kernelVaddr.Valid() &&
      kernelPool.bits != userPool.bits && kernelPool.bits != kernelVaddr.bits && userPool.bits != kernelVaddr.bits &&
      (ram as object) !in {kernelPool.bits as object, userPool.bits as object, kernelVaddr.bits as object}
    }

    ghost function Abs(): Sys
      requires Valid()
      reads this, ram, kernelPool.bits, userPool.bits, kernelVaddr.bits
    {
      Sys(ram[..], BitsAt(kernelPool), BitsAt(userPool), BitsAt(kernelVaddr), userStart, uv, own)
    }

    /** mem_pool_init, over the memory at MEM_BITMAP_BASE. */
    constructor (mem: array<Word>, allMem: Word, kbits: array<Byte>, ubits: array<Byte>, vbits: array<Byte>)
      requires mem.Length == WORDS && kbits != ubits && kbits != vbits && ubits != vbits
      requires (mem as object) !in {kbits as object, ubits as object, vbits as object}
      requires KernelFree(allMem) / 8 < kbits.Length && UserFree(allMem) / 8 < ubits.Length
      requires KernelFree(allMem) / 8 < vbits.Length
      modifies kbits, ubits, vbits
      ensures Valid() && ram == mem && cr3 == DIR0 && uv == map[] && own == map[]
      ensures userStart == POOL0 + KernelFree(allMem)
      ensures Halved(allMem, userStart, kernelPool.bytesLen, userPool.bytesLen)
      ensures kernelVaddr.bytesLen == kernelPool.bytesLen
      ensures kernelPool.bits == kbits && userPool.bits == ubits && kernelVaddr.bits == vbits
      ensures BitsAt(kernelPool) == Cleared(Bits(old(BitsOf(kbits[..])), KernelFree(allMem) / 8))
      ensures BitsAt(userPool) == Cleared(Bits(old(BitsOf(ubits[..])), UserFree(allMem) / 8))
      ensures BitsAt(kernelVaddr) == Cleared(Bits(old(BitsOf(vbits[..])), KernelFree(allMem) / 8))
    {
      var kernelFree, kbmLength, ubmLength := SplitPages(allMem);
      var kernel := NewBitmap(kbits, kbmLength);
      var user := NewBitmap(ubits, ubmLength);
      var vaddr := NewBitmap(vbits, kbmLength);
      ram, cr3, uv, own := mem, DIR0, map[], map[];
      userStart := POOL0 + kernelFree;
      kernelPool, userPool, kernelVaddr := kernel, user, vaddr;
    }

    // ----- the processor's memory accesses -----

    method Load(vaddr: Word) returns (w: Word)
      requires Valid() && vaddr % 4 == 0 && Walk(ram[..], cr3, vaddr).At?
      ensures w == ram[Walk(ram[..], cr3, vaddr).addr / 4]
    {
      var pde := ram[cr3 * 1024 + vaddr / PG_SIZE / 1024];
      var pte := ram[FrameOf(pde) * 1024 + vaddr / PG_SIZE % 1024];
      w := ram[FrameOf(pte) * 1024 + vaddr % PG_SIZE / 4];
    }

    method Store(vaddr: Word, w: Word)
      requires Valid() && vaddr % 4 == 0 && Walk(ram[..], cr3, vaddr).At?
      modifies ram
      ensures ram[..] == old(ram[..])[old(Walk(ram[..], cr3, vaddr)).addr / 4 := w]
    {
      var pde := ram[cr3 * 1024 + vaddr / PG_SIZE / 1024];
      var pte := ram[FrameOf(pde) * 1024 + vaddr / PG_SIZE % 1024];
      ram[FrameOf(pte) * 1024 + vaddr % PG_SIZE / 4] := w;
    }

    /** memset of one mapped page that holds no entry of its own translation. */
    method ZeroPage(vp: Page, ghost f: Frame)
      requires Valid() && WalkPage(ram[..], cr3, vp) == Walked.At(f * PG_SIZE)
      requires f != cr3 && f != FrameOf(Entry(ram[..], cr3, vp / 1024))
      modifies ram
      ensures ram[..] == ZeroFrame(old(ram[..]), f)
    {
      ghost var m := ram[..];
      for j := 0 to 1024
        invariant ram[..] == ZeroFirst(m, f, j)
      {
        var dst: Word := vp * PG_SIZE + j * 4;
        ZeroTarget(m, cr3, vp, f, j, dst);
        ZeroFirstNext(m, f, j, Walk(ram[..], cr3, dst).addr / 4);
        Store(dst, 0);
      }
      ZeroFirstAll(m, f);
    }

    // ----- palloc, page_table_add -----

    method Palloc(pool: Bitmap, start: nat) returns (r: Ran<Frame>)
      requires pool.Valid() && start + 8 * pool.bytesLen <= FRAMES
      modifies pool.bits
      ensures r == TakeFrom(old(BitsAt(pool)), start)
      ensures pool.View() == if r.Done? then old(pool.View())[r.value - start := true] else old(pool.View())
    {
      OneBitFound(pool.View(), pool.bytesLen);
      var scan := pool.Scan(1);
      ScanDetermined(pool.View(), pool.bytesLen, 1, scan);
      if !scan.At? { return Panic; }
      pool.Set(scan.start, true);
      r := Done(start + scan.start);
    }

    method PageTableAdd(vp: Page, f: Frame) returns (ok: bool)
      requires Valid() && Geometry(Abs()) && SelfMapped(ram[..], cr3) && vp < 1023 * 1024
      requires TakeFrame(Abs(), Kernel) != Done(cr3)
      modifies ram, kernelPool.bits
      ensures AddedTo(old(Abs()), cr3, vp, f) == if ok then Done(Abs()) else Panic
      ensures ok && TableForUser(old(ram[..]), cr3, vp) ==> UserMayWrite(ram[..], cr3, vp)
    {
      ghost var s := Abs();
      SelfMapWords(ram[..], cr3, vp);
      var pde := Load(PdePtr(vp * PG_SIZE));
      if Present(pde) {
        ok := AddEntry(vp, f);
      } else {
        ok := AddTableAndEntry(vp, f);
      }
      if ok && TableForUser(s.m, cr3, vp) { AddedForUser(s, cr3, vp, f); }
    }

    /** The first branch of page_table_add. */
    method AddEntry(vp: Page, f: Frame) returns (ok: bool)
      requires Valid() && SelfMapped(ram[..], cr3) && HasTable(ram[..], cr3, vp)
      modifies ram
      ensures var m := old(ram[..]);
              ok == !Present(m[PteSlot(m, cr3, vp)]) && ram[..] == if ok then MapIn(m, cr3, vp, f) else m
    {
      SelfMapWords(ram[..], cr3, vp);
      var pte := Load(PtePtr(vp * PG_SIZE));
      ok := !Present(pte);
      if ok { Store(PtePtr(vp * PG_SIZE), Pte(f)); }
    }

    /** The second branch. */
    method AddTableAndEntry(vp: Page, f: Frame) returns (ok: bool)
      requires Valid() && Geometry(Abs()) && SelfMapped(ram[..], cr3) && vp < 1023 * 1024
      requires !HasTable(ram[..], cr3, vp) && TakeFrame(Abs(), Kernel) != Done(cr3)
      modifies ram, kernelPool.bits
      ensures AddedTo(old(Abs()), cr3, vp, f) == if ok then Done(Abs()) else Panic
    {
      var t := NewTable(vp);
      if t.Panic? { return false; }
      ok := AddEntry(vp, f);
    }

    /** A frame for the table, linked and cleared. */
    method NewTable(vp: Page) returns (t: Ran<Frame>)
      requires Valid() && Geometry(Abs()) && SelfMapped(ram[..], cr3) && vp < 1023 * 1024
      requires TakeFrame(Abs(), Kernel) != Done(cr3)
      modifies ram, kernelPool.bits
      ensures t == TakeFrame(old(Abs()), Kernel)
      ensures t.Done? ==>
                Abs() == SetPool(old(Abs()), t.value, true).(m := AddTable(old(ram[..]), cr3, vp / 1024, t.value)) &&
                SelfMapped(ram[..], cr3) && HasTable(ram[..], cr3, vp) && ram[PteSlot(ram[..], cr3, vp)] == 0
    {
      t := Palloc(kernelPool, POOL0);
      if t.Done? { LinkFrame(vp, t.value); }
    }

    /** *pde = ..., then memset of the new table through the self-map. */
    method LinkFrame(vp: Page, t: Frame)
      requires Valid() && SelfMapped(ram[..], cr3) && vp < 1023 * 1024 && t != cr3
      modifies ram
      ensures ram[..] == AddTable(old(ram[..]), cr3, vp / 1024, t)
      ensures SelfMapped(ram[..], cr3) && HasTable(ram[..], cr3, vp) && ram[..][PteSlot(ram[..], cr3, vp)] == 0
    {
      ghost var m := ram[..];
      SelfMapWords(m, cr3, vp);
      Store(PdePtr(vp * PG_SIZE), Pte(t));
      FreshWindow(m, cr3, vp, t);
      ZeroPage(PtePtr(vp * PG_SIZE) / PG_SIZE, t);
      FreshTable(m, cr3, vp, t);
    }

    // ----- malloc_page -----

    ghost predicate RunningAs(pf: Pf)
      requires Valid()
      reads this
    {
      (cr3 == DIR0 || cr3 in uv) && (pf.User? ==> pf.dir == cr3 && cr3 in uv)
    }

    /** palloc from the pool of a flag. */
    method PallocFor(pf: Pf) returns (f: Ran<Frame>)
      requires Valid() && Geometry(Abs())
      modifies kernelPool.bits, userPool.bits
      ensures f == TakeFrame(old(Abs()), pf)
      ensures Abs() == if f.Done? then SetPool(old(Abs()), f.value, true) else old(Abs())
    {
      if pf.Kernel? { f := Palloc(kernelPool, POOL0); } else { f := Palloc(userPool, userStart); }
    }

    /** One turn of malloc_page's loop. */
    method MapOne(pf: Pf, k: nat) returns (ok: bool)
      requires Valid() && Core(Abs()) && RunningAs(pf) && k <= 8 * VBits(Abs(), pf).len
      modifies this`own, ram, kernelPool.bits, userPool.bits
      ensures MapPage(old(Abs()), pf, k) == if ok then Done(Abs()) else Panic
    {
      ghost var s := Abs();
      var f := PallocFor(pf);
      if f.Panic? { return false; }
      OneTurn(s, cr3, pf, k, f.value);
      ok := PageTableAdd(PageOf(pf, k), f.value);
      ghost var page := MapPage(s, pf, k);
      if page.Done? { own := page.value.own; }
    }

    /** vaddr is the virtual bitmap the flag stands for: the kernel's, or the running process's. */
    ghost predicate VaddrOf(pf: Pf, vaddr: Bitmap)
      requires Valid()
      reads this, vaddr.bits
    {
      if pf.Kernel? then vaddr == kernelVaddr
      else vaddr.Valid() && pf.dir in uv && uv[pf.dir] == BitsAt(vaddr) && vaddr.bits != kernelVaddr.bits &&
           vaddr.bits != kernelPool.bits && vaddr.bits != userPool.bits && (vaddr.bits as object) != ram
    }

    method VaddrGet(pf: Pf, cnt: nat, vaddr: Bitmap) returns (r: Scan)
      requires Valid() && Core(Abs()) && VaddrOf(pf, vaddr) && cnt >= 1
      modifies this`uv, vaddr.bits
      ensures VaddrOf(pf, vaddr) && uv.Keys == old(uv.Keys)
      ensures var s := old(Abs());
              match ScanOf(VBits(s, pf).v, VBits(s, pf).len, cnt)
              case At(k) =>
                k + cnt <= |VBits(s, pf).v| && Abs() == SetV(s, pf, k, cnt, true) &&
                r == if pf.User? && !((USER_VP + k) * PG_SIZE < 0xc000_0000 - PG_SIZE) then Scan.Panicked
                     else Scan.At(k)
              case other => r == other && Abs() == s
    {
      ghost var s := Abs();
      r := vaddr.Scan(cnt);
      ScanDetermined(vaddr.View(), vaddr.bytesLen, cnt, r);
      if !r.At? { return; }
      ScanOfAt(vaddr.View(), vaddr.bytesLen, cnt, r.start);
      SetBits(vaddr, r.start, cnt, true);
      if pf.User? {
        uv := uv[pf.dir := BitsAt(vaddr)];
        if !((USER_VP + r.start) * PG_SIZE < 0xc000_0000 - PG_SIZE) { r := Scan.Panicked; }
      }
    }

    method MapNext(pf: Pf, k: nat, ghost todo: seq<nat>, ghost rest: seq<nat>) returns (ok: bool)
      requires Valid() && Core(Abs()) && RunningAs(pf) && k <= 8 * VBits(Abs(), pf).len
      requires todo != [] && todo[0] == k && todo[1..] == rest
      modifies this`own, ram, kernelPool.bits, userPool.bits
      ensures ok ==> Core(Abs())
      ensures MapPages(old(Abs()), pf, todo) == if ok then MapPages(Abs(), pf, rest) else Panic
    {
      ghost var s := Abs();
      PagesStep(s, pf, k, todo, rest);
      ok := MapOne(pf, k);
      if ok { MapPageGrows(s, pf, k, Abs()); }
    }

    /** The loop of malloc_page. */
    method MapAll(pf: Pf, k: nat, cnt: nat) returns (ok: bool)
      requires Valid() && Core(Abs()) && RunningAs(pf) && k + cnt <= 8 * VBits(Abs(), pf).len + 1
      modifies this`own, ram, kernelPool.bits, userPool.bits
      ensures MapPages(old(Abs()), pf, Indices(k, cnt)) == if ok then Done(Abs()) else Panic
    {
      ghost var todo := Indices(k, cnt);
      ghost var target := MapPages(Abs(), pf, todo);
      var page, left := k, cnt;
      while left > 0
        invariant left <= cnt && page + left == k + cnt && |todo| == left
        invariant forall j :: 0 <= j < left ==> todo[j] == page + j
        invariant Core(Abs())
        invariant MapPages(Abs(), pf, todo) == target
      {
        ok := MapNext(pf, page, todo, todo[1..]);
        if !ok { return; }
        todo := todo[1..];
        page, left := page + 1, left - 1;
      }
      NoPagesLeft(Abs(), pf, todo);
      ok := true;
    }

    method MallocPage(pf: Pf, cnt: nat, vaddr: Bitmap) returns (r: Returned)
      requires Valid() && Core(Abs()) && RunningAs(pf) && VaddrOf(pf, vaddr)
      modifies this`own, this`uv, ram, kernelPool.bits, userPool.bits, vaddr.bits
      ensures RunningAs(pf) && (!r.Stopped? ==> VaddrOf(pf, vaddr))
      ensures r == Answer(PageAlloc.MallocPage(old(Abs()), pf, cnt))
      ensures r.NoPages? ==> Abs() == old(Abs())
      ensures r.PagesAt? ==> Abs() == PageAlloc.MallocPage(old(Abs()), pf, cnt).s
    {
      if !(0 < cnt < 3840) { return Stopped; }
      ghost var s := Abs();
      var scan := VaddrGet(pf, cnt, vaddr);
      if scan.NoRun? { return NoPages; }
      if scan.Panicked? { return Stopped; }
      var ok := MapFound(s, pf, scan.start, cnt);
      r := if ok then PagesAt(scan.start) else Stopped;
    }

    /** The pages behind the bits vaddr_get has set. */
    method MapFound(ghost s: Sys, pf: Pf, k: nat, cnt: nat) returns (ok: bool)
      requires Valid() && Core(s) && RunningAs(pf) && Usable(s, pf) && cnt >= 1
      requires ScanOf(VBits(s, pf).v, VBits(s, pf).len, cnt) == Scan.At(k)
      requires k + cnt <= |VBits(s, pf).v| && Abs() == SetV(s, pf, k, cnt, true)
      modifies this`own, ram, kernelPool.bits, userPool.bits
      ensures var t := SetV(s, pf, k, cnt, true);
              Core(t) && Usable(t, pf) && k + cnt <= 8 * VBits(t, pf).len + 1 &&
              MapRun(t, pf, k, cnt) == if ok then Done(Abs()) else Panic
    {
      SetVKeeps(s, pf, k, cnt, true);
      ScanOfAt(VBits(s, pf).v, VBits(s, pf).len, cnt, k);
      ok := MapAll(pf, k, cnt);
    }

    // ----- addr_v2p, pfree, mfree_page -----

    method AddrV2p(vaddr: Word) returns (p: Word)
      requires Valid() && SelfMapped(ram[..], cr3) && HasTable(ram[..], cr3, vaddr / PG_SIZE)
      ensures p == FrameOf(ram[PteSlot(ram[..], cr3, vaddr / PG_SIZE)]) * PG_SIZE + vaddr % PG_SIZE
    {
      PtePtrOfPage(vaddr);
      SelfMapWords(ram[..], cr3, vaddr / PG_SIZE);
      var pte := Load(PtePtr(vaddr));
      p := FrameOf(pte) * PG_SIZE + vaddr % PG_SIZE;
    }

    method Pfree(addr: Word)
      requires Valid() && Geometry(Abs())
      requires InKernelPool(Abs(), addr / PG_SIZE) || InUserPool(Abs(), addr / PG_SIZE)
      modifies kernelPool.bits, userPool.bits
      ensures Abs() == SetPool(old(Abs()), addr / PG_SIZE, false)
    {
      if addr >= userStart * PG_SIZE {
        userPool.Set((addr - userStart * PG_SIZE) / PG_SIZE, false);
      } else {
        kernelPool.Set((addr - POOL0 * PG_SIZE) / PG_SIZE, false);
      }
    }

    method PageTablePteRemove(vp: Page)
      requires Valid() && SelfMapped(ram[..], cr3) && HasTable(ram[..], cr3, vp)
      modifies ram
      ensures var m := old(ram[..]); var i := PteSlot(m, cr3, vp); ram[..] == m[i := Dropped(m[i])]
    {
      SelfMapWords(ram[..], cr3, vp);
      var pte := Load(PtePtr(vp * PG_SIZE));
      Store(PtePtr(vp * PG_SIZE), Dropped(pte));
    }

    /** One turn of mfree_page's loops, with the ASSERT of the branch it is in. */
    method UnmapOne(pf: Pf, k: nat)
      requires Valid() && Core(Abs()) && RunningAs(pf) && LiveAt(Abs(), pf, k) && k <= 8 * VBits(Abs(), pf).len
      modifies this`own, ram, kernelPool.bits, userPool.bits
      ensures Abs() == UnmapPage(old(Abs()), pf, k)
    {
      ghost var s := Abs();
      LivePageWords(s, cr3, pf, k);
      var phys := AddrV2p(PageOf(pf, k) * PG_SIZE);
      assert if pf.User? then phys >= userStart * PG_SIZE else POOL0 * PG_SIZE <= phys < userStart * PG_SIZE;
      ghost var f := FrameOf(s.m[PteSlot(s.m, cr3, PageOf(pf, k))]);
      assert phys / PG_SIZE == f;
      Pfree(phys);
      ghost var a := Abs();
      PageTablePteRemove(PageOf(pf, k));
      assert Abs() == a.(m := ram[..]);
      own := own - {f};
    }

    method UnmapNext(pf: Pf, k: nat, ghost left: nat, ghost todo: seq<nat>)
      requires Valid() && Core(Abs()) && RunningAs(pf) && k <= 8 * VBits(Abs(), pf).len
      requires left > 0 && Live(Abs(), pf, k, left) && todo != [] && todo[0] == k
      modifies this`own, ram, kernelPool.bits, userPool.bits
      ensures Core(Abs()) && Live(Abs(), pf, k + 1, left - 1)
      ensures UnmapPages(old(Abs()), pf, todo) == UnmapPages(Abs(), pf, todo[1..])
    {
      ghost var s := Abs();
      assert LiveAt(s, pf, k);
      UnmapOne(pf, k);
      UnmapPageKeeps(s, pf, k, Abs());
      LiveAfter(s, Abs(), pf, k, k + 1, left - 1);
    }

    method MfreePage(pf: Pf, k: nat, cnt: nat, vaddr: Bitmap)
      requires Valid() && Core(Abs()) && RunningAs(pf) && VaddrOf(pf, vaddr)
      requires cnt >= 1 && Live(Abs(), pf, k, cnt) && k + cnt <= 8 * VBits(Abs(), pf).len + 1
      modifies this`own, this`uv, ram, kernelPool.bits, userPool.bits, vaddr.bits
      ensures VaddrOf(pf, vaddr) && uv.Keys == old(uv.Keys)
      ensures Abs() == PageAlloc.MfreePage(old(Abs()), pf, k, cnt)
    {
      assert LiveAt(Abs(), pf, k);
      FirstPage(pf, k);
      FreeAll(pf, k, cnt);
      VaddrRemove(pf, k, cnt, vaddr);
    }

    /** The ASSERTs and the test that come before the loops. */
    method FirstPage(pf: Pf, k: nat)
      requires Valid() && Core(Abs()) && RunningAs(pf) && LiveAt(Abs(), pf, k) && k <= 8 * VBits(Abs(), pf).len
    {
      LivePageWords(Abs(), cr3, pf, k);
      var phys := AddrV2p(PageOf(pf, k) * PG_SIZE);
      assert phys % PG_SIZE == 0 && phys >= 0x10_2000;
      assert phys >= userStart * PG_SIZE <==> pf.User?;
    }

    method VaddrRemove(pf: Pf, k: nat, cnt: nat, vaddr: Bitmap)
      requires Valid() && Geometry(Abs()) && VaddrOf(pf, vaddr) && k + cnt <= |VBits(Abs(), pf).v|
      modifies this`uv, vaddr.bits
      ensures VaddrOf(pf, vaddr) && uv.Keys == old(uv.Keys)
      ensures Abs() == SetV(old(Abs()), pf, k, cnt, false)
    {
      SetBits(vaddr, k, cnt, false);
      if pf.User? { uv := uv[pf.dir := BitsAt(vaddr)]; }
    }

    /** The two loops of mfree_page, which differ only in the ASSERT. */
    method FreeAll(pf: Pf, k: nat, cnt: nat)
      requires Valid() && Core(Abs()) && RunningAs(pf)
      requires Live(Abs(), pf, k, cnt) && k + cnt <= 8 * VBits(Abs(), pf).len + 1
      modifies this`own, ram, kernelPool.bits, userPool.bits
      ensures Abs() == UnmapRun(old(Abs()), pf, k, cnt)
    {
      ghost var todo := Indices(k, cnt);
      ghost var target := UnmapPages(Abs(), pf, todo);
      var page, left := k, cnt;
      while left > 0
        invariant left <= cnt && page + left == k + cnt && |todo| == left
        invariant forall j :: 0 <= j < left ==> todo[j] == page + j
        invariant Core(Abs()) && Live(Abs(), pf, page, left)
        invariant UnmapPages(Abs(), pf, todo) == target
      {
        UnmapNext(pf, page, left, todo);
        ghost var rest := todo[1..];
        var next, less := page + 1, left - 1;
        assert forall j :: 0 <= j < less ==> rest[j] == todo[j + 1];
        todo, page, left := rest, next, less;
      }
    }

    // ----- get_kernel_pages, get_a_page, create_page_dir -----

    /** memset over freshly mapped pages. */
    method ZeroPages(pf: Pf, k: nat, cnt: nat)
      requires Valid() && Core(Abs()) && RunningAs(pf)
      requires Live(Abs(), pf, k, cnt) && k + cnt <= 8 * VBits(Abs(), pf).len + 1
      modifies ram
      ensures Abs() == ZeroRun(old(Abs()), pf, k, cnt)
    {
      ghost var s := Abs();
      ZeroRunNone(s, pf, k);
      for j := 0 to cnt
        invariant ram[..] == ZeroRun(s, pf, k, j).m
      {
        var page := k + j;
        assert LiveAt(s, pf, page);
        ghost var f := FrameOf(EntryOf(s, OwnerAt(pf, page)));
        ZeroRunShows(s, cr3, pf, k, j, page, f);
        ZeroPage(PageOf(pf, page), f);
        ZeroRunStep(s, pf, k, j, page, j + 1, f);
      }
    }

    /** get_kernel_pages and get_user_pages. */
    method GetPages(pf: Pf, cnt: nat, vaddr: Bitmap) returns (r: Returned)
      requires Valid() && Inv(Abs()) && RunningAs(pf) && VaddrOf(pf, vaddr)
      modifies this`own, this`uv, ram, kernelPool.bits, userPool.bits, vaddr.bits
      ensures RunningAs(pf) && (!r.Stopped? ==> VaddrOf(pf, vaddr))
      ensures r == Answer(PageAlloc.GetPages(old(Abs()), pf, cnt))
      ensures r.NoPages? ==> Abs() == old(Abs())
      ensures r.PagesAt? ==> Abs() == PageAlloc.GetPages(old(Abs()), pf, cnt).s
    {
      ghost var s := Abs();
      r := MallocPage(pf, cnt, vaddr);
      if r.PagesAt? { ZeroNew(s, pf, cnt, r.k); }
    }

    /** The memset of the pages malloc_page has found. */
    method ZeroNew(ghost s: Sys, pf: Pf, cnt: nat, k: nat)
      requires Valid() && Inv(s) && Usable(s, pf) && RunningAs(pf)
      requires PageAlloc.MallocPage(s, pf, cnt) == Got(Abs(), k)
      modifies ram
      ensures PageAlloc.GetPages(s, pf, cnt) == Got(Abs(), k)
    {
      MallocKeeps(s, pf, cnt, Abs(), k);
      LiveNew(s, Abs(), pf, k, cnt);
      ZeroPages(pf, k, cnt);
    }

    method GetAPage(pf: Pf, user: bool, k: nat, vaddr: Bitmap) returns (ok: bool)
      requires Valid() && Inv(Abs()) && RunningAs(pf) && VaddrOf(pf, vaddr) && k < 8 * VBits(Abs(), pf).len
      modifies this`own, this`uv, ram, kernelPool.bits, userPool.bits, vaddr.bits
      ensures PageAlloc.GetAPage(old(Abs()), pf, user, k) == if ok then Done(Abs()) else Panic
    {
      if user != pf.User? { return false; }
      if !(k > 0) { return false; }
      ghost var s := Abs();
      SetVKeeps(s, pf, k, 1, true);
      SetBits(vaddr, k, 1, true);
      if pf.User? { uv := uv[pf.dir := BitsAt(vaddr)]; }
      assert Abs() == SetV(s, pf, k, 1, true);
      ok := MapOne(pf, k);
    }

    /** The process's directory, with the kernel half copied and the self-map entry; its virtual
        bitmap comes with it. */
    method CreatePageDir(ghost bits: Bits) returns (r: Returned)
      requires Valid() && Inv(Abs()) && RunningAs(Kernel)
      modifies this`own, this`uv, ram, kernelPool.bits, userPool.bits, kernelVaddr.bits
      ensures r == Answer(PageAlloc.CreatePageDir(old(Abs()), cr3, bits))
      ensures r.PagesAt? ==> Abs() == PageAlloc.CreatePageDir(old(Abs()), cr3, bits).s
    {
      ghost var s := Abs();
      r := GetPages(Kernel, 1, kernelVaddr);
      if r.PagesAt? { FillNewPage(s, r.k, bits); }
    }

    /** s is the state before the page for the directory was taken. */
    method FillNewPage(ghost s: Sys, k: nat, ghost bits: Bits)
      requires Valid() && Inv(s) && IsDir(s, cr3) && PageAlloc.GetPages(s, Kernel, 1) == Got(Abs(), k)
      modifies this`uv, ram
      ensures PageAlloc.CreatePageDir(s, cr3, bits) == Got(Abs(), k)
    {
      ghost var t := Abs();
      CreateStart(s, cr3, bits, t, k);
      InitDirectory(k, bits);
    }

    method InitDirectory(k: nat, ghost bits: Bits)
      requires Valid() && Active(Abs(), KHeap(k)) && KHEAP_VP + k < FRAMES
      requires Copyable(ram[..], cr3, KHEAP_VP + k, FrameOf(EntryOf(Abs(), KHeap(k))))
      modifies this`uv, ram
      ensures var s, p := old(Abs()), FrameOf(EntryOf(old(Abs()), KHeap(k)));
              Abs() == AddDir(s.(m := DirImage(s.m, cr3, p)), p, bits)
    {
      var p := FillDirectory(KHEAP_VP + k, FrameOf(EntryOf(Abs(), KHeap(k))));
      uv := uv[p := bits];
    }

    /** memcpy of entries 768 to 1023 from the directory in use, then the new directory's own entry. */
    method FillDirectory(vp: Page, ghost f: Frame) returns (p: Frame)
      requires Valid() && Copyable(ram[..], cr3, vp, f)
      modifies ram
      ensures p == f && ram[..] == DirImage(old(ram[..]), cr3, f)
    {
      ghost var m := ram[..];
      DirCopyStart(m, cr3, f);
      for i := 768 to 1024
        invariant ram[..] == DirCopy(m, cr3, f, i)
      {
        CopyEntry(m, vp, f, i);
      }
      p := SelfEntry(m, vp, f);
      DirCopyDone(m, cr3, f);
    }

    /** One word of the memcpy. */
    method CopyEntry(ghost m: Memory, vp: Page, ghost f: Frame, i: nat)
      requires Valid() && 768 <= i < 1024 && Copyable(m, cr3, vp, f) && ram[..] == DirCopy(m, cr3, f, i)
      modifies ram
      ensures ram[..] == DirCopy(m, cr3, f, i + 1)
    {
      var src: Word, dst: Word := 0xffff_f000 + i * 4, vp * PG_SIZE + i * 4;
      DirCopyWalks(m, cr3, vp, f, i, i, src, dst);
      var w := Load(src);
      DirCopyStep(m, cr3, f, i, Walk(ram[..], cr3, dst).addr / 4, w);
      Store(dst, w);
    }

    /** page_dir_vaddr[1023] = addr_v2p(page_dir_vaddr) | flags. */
    method SelfEntry(ghost m: Memory, vp: Page, ghost f: Frame) returns (p: Frame)
      requires Valid() && Copyable(m, cr3, vp, f) && ram[..] == DirCopy(m, cr3, f, 1024)
      modifies ram
      ensures p == f && ram[..] == DirCopy(m, cr3, f, 1024)[f * 1024 + 1023 := Pte(f)]
    {
      DirCopyAddress(m, cr3, vp, f);
      var phys := AddrV2p(vp * PG_SIZE);
      p := phys / PG_SIZE;
      var last: Word := vp * PG_SIZE + 1023 * 4;
      DirCopyWalks(m, cr3, vp, f, 1024, 1023, 0xffff_fffc, last);
      Store(last, Pte(p));
    }
  }

  /** Page vp shows frame p, which holds no entry of its own translation. */
  predicate Copyable(m: Memory, cur: Frame, vp: Page, p: Frame)
  {
    SelfMapped(m, cur) && p != cur && WalkPage(m, cur, vp) == Walked.At(p * PG_SIZE) &&
    p != FrameOf(Entry(m, cur, vp / 1024))
  }

  lemma NewPageCopyable(s: Sys, cur: Frame, t: Sys, k: nat)
    requires Inv(s) && IsDir(s, cur) && PageAlloc.GetPages(s, Kernel, 1) == Got(t, k)
    ensures Active(t, KHeap(k)) && KHEAP_VP + k < FRAMES
    ensures Copyable(t.m, cur, KHEAP_VP + k, FrameOf(EntryOf(t, KHeap(k))))
  {
    GetPagesKeeps(s, Kernel, 1, t, k);
    assert LiveAt(t, Kernel, k);
    LiveCopyable(t, cur, k);
  }

  lemma LiveCopyable(t: Sys, cur: Frame, k: nat)
    requires Core(t) && IsDir(t, cur) && LiveAt(t, Kernel, k) && k <= 8 * t.kv.len
    ensures KHEAP_VP + k < FRAMES && Copyable(t.m, cur, KHEAP_VP + k, FrameOf(EntryOf(t, KHeap(k))))
  {
    PageShown(t, cur, Kernel, k);
    assert DirOk(t.m, cur);
  }

  /** After get_kernel_pages: what is left of create_page_dir. */
  lemma CreateStart(s: Sys, cur: Frame, bits: Bits, t: Sys, k: nat)
    requires Inv(s) && IsDir(s, cur) && PageAlloc.GetPages(s, Kernel, 1) == Got(t, k)
    ensures Active(t, KHeap(k)) && KHEAP_VP + k < FRAMES
    ensures var p := FrameOf(EntryOf(t, KHeap(k)));
            Copyable(t.m, cur, KHEAP_VP + k, p) &&
            PageAlloc.CreatePageDir(s, cur, bits) == Got(AddDir(t.(m := DirImage(t.m, cur, p)), p, bits), k)
  {
    NewPageCopyable(s, cur, t, k);
    CreateIs(s, cur, bits, t, k);
  }

  lemma CreateIs(s: Sys, cur: Frame, bits: Bits, t: Sys, k: nat)
    requires Core(s) && PageAlloc.GetPages(s, Kernel, 1) == Got(t, k) && Active(t, KHeap(k))
    ensures var p := FrameOf(EntryOf(t, KHeap(k)));
            PageAlloc.CreatePageDir(s, cur, bits) == Got(AddDir(t.(m := DirImage(t.m, cur, p)), p, bits), k)
  {
  }

  /** Directory entries 768 to i - 1 copied into frame p. */
  function DirCopy(m: Memory, cur: Frame, p: Frame, i: nat): Memory
  {
    seq(WORDS, x requires 0 <= x < WORDS =>
      if x / 1024 == p && 768 <= x % 1024 < i then Entry(m, cur, x % 1024) else m[x])
  }

  lemma DirCopyStart(m: Memory, cur: Frame, p: Frame)
    ensures DirCopy(m, cur, p, 768) == m
  {
  }

  lemma DirCopyStep(m: Memory, cur: Frame, p: Frame, i: nat, at: nat, w: Word)
    requires 768 <= i < 1024 && at == p * 1024 + i && w == Entry(m, cur, i)
    ensures DirCopy(m, cur, p, i)[at := w] == DirCopy(m, cur, p, i + 1)
  {
  }

  lemma DirCopyDone(m: Memory, cur: Frame, p: Frame)
    ensures DirCopy(m, cur, p, 1024)[p * 1024 + 1023 := Pte(p)] == DirImage(m, cur, p)
  {
  }

  lemma DirCopyEntry(m: Memory, cur: Frame, p: Frame, i: nat, y: Frame, j: nat)
    requires j < 1024
    ensures Entry(DirCopy(m, cur, p, i), y, j) == if y == p && 768 <= j < i then Entry(m, cur, j) else Entry(m, y, j)
  {
    assert (y * 1024 + j) / 1024 == y && (y * 1024 + j) % 1024 == j;
  }

  /** While the copy runs, both directories stay where the copy reads and writes them. */
  lemma DirCopyWalks(m: Memory, cur: Frame, vp: Page, p: Frame, n: nat, i: nat, src: Word, dst: Word)
    requires 768 <= i < 1024 && Copyable(m, cur, vp, p)
    requires src == 0xffff_f000 + i * 4 && dst == vp * PG_SIZE + i * 4
    ensures var r := DirCopy(m, cur, p, n);
            src % 4 == 0 && Walk(r, cur, src).At? && Walk(r, cur, src).addr / 4 == cur * 1024 + i &&
            dst % 4 == 0 && Walk(r, cur, dst).At? && Walk(r, cur, dst).addr / 4 == p * 1024 + i &&
            r[cur * 1024 + i] == Entry(m, cur, i)
  {
    DirCopyEntry(m, cur, p, n, cur, 1023);
    DirCopyEntry(m, cur, p, n, cur, i);
    DirCopyEntry(m, cur, p, n, cur, vp / 1024);
    DirCopyEntry(m, cur, p, n, FrameOf(Entry(m, cur, vp / 1024)), vp % 1024);
    var r := DirCopy(m, cur, p, n);
    WalkWord(r, cur, vp, p, i, dst);
    assert src == 0xf_ffff * PG_SIZE + i * 4;
    WalkWord(r, cur, 0xf_ffff, cur, i, src);
  }

  lemma DirCopyAddress(m: Memory, cur: Frame, vp: Page, p: Frame)
    requires Copyable(m, cur, vp, p)
    ensures var r := DirCopy(m, cur, p, 1024);
            vp * PG_SIZE / PG_SIZE == vp && SelfMapped(r, cur) && HasTable(r, cur, vp) &&
            FrameOf(r[PteSlot(r, cur, vp)]) == p
  {
    DirCopyEntry(m, cur, p, 1024, cur, 1023);
    DirCopyEntry(m, cur, p, 1024, cur, vp / 1024);
    DirCopyEntry(m, cur, p, 1024, FrameOf(Entry(m, cur, vp / 1024)), vp % 1024);
  }

  lemma ZeroRunNone(s: Sys, pf: Pf, k: nat)
    ensures ZeroRun(s, pf, k, 0).m == s.m
  {
    forall i | 0 <= i < WORDS ensures ZeroRun(s, pf, k, 0).m[i] == s.m[i] {
      assert !InRunFrame(s, pf, k, 0, i / 1024);
    }
  }

  /** With the first j pages of a run zeroed, the next is still mapped to its frame. */
  lemma ZeroRunShows(s: Sys, cur: Frame, pf: Pf, k: nat, j: nat, at: nat, f: Frame)
    requires Core(s) && IsDir(s, cur) && Usable(s, pf) && (pf.User? ==> pf.dir == cur)
    requires Live(s, pf, k, j) && at <= 8 * VBits(s, pf).len && LiveAt(s, pf, at)
    requires f == FrameOf(EntryOf(s, OwnerAt(pf, at)))
    ensures var m, vp := ZeroRun(s, pf, k, j).m, PageOf(pf, at);
            vp < FRAMES && WalkPage(m, cur, vp) == Walked.At(f * PG_SIZE) && f != cur &&
            f != FrameOf(Entry(m, cur, vp / 1024))
  {
    var vp := PageOf(pf, at);
    PageShown(s, cur, pf, at);
    var t := FrameOf(Entry(s.m, cur, vp / 1024));
    NotInRun(s, cur, pf, k, j);
    ZeroRunEntry(s, pf, k, j, cur, vp / 1024);
    ZeroRunEntry(s, pf, k, j, t, vp % 1024);
  }

  /** And zeroing it is one more. */
  lemma ZeroRunStep(s: Sys, pf: Pf, k: nat, j: nat, at: nat, next: nat, f: Frame)
    requires Core(s) && Active(s, OwnerAt(pf, at)) && f == FrameOf(EntryOf(s, OwnerAt(pf, at)))
    requires at == k + j && next == j + 1
    ensures ZeroFrame(ZeroRun(s, pf, k, j).m, f) == ZeroRun(s, pf, k, next).m
  {
    var o := OwnerAt(pf, at);
    forall y: Frame ensures InRunFrame(s, pf, k, next, y) <==> InRunFrame(s, pf, k, j, y) || y == f {
      FrameOfOwner(s, o, y);
    }
    ZeroRunGrows(s, pf, k, j, next, f);
  }

  lemma ZeroRunGrows(s: Sys, pf: Pf, k: nat, j: nat, n: nat, f: Frame)
    requires forall y: Frame :: InRunFrame(s, pf, k, n, y) <==> InRunFrame(s, pf, k, j, y) || y == f
    ensures ZeroFrame(ZeroRun(s, pf, k, j).m, f) == ZeroRun(s, pf, k, n).m
  {
    var a, b := ZeroFrame(ZeroRun(s, pf, k, j).m, f), ZeroRun(s, pf, k, n).m;
    forall i | 0 <= i < WORDS ensures a[i] == b[i] {
      var y: Frame := i / 1024;
      assert InRunFrame(s, pf, k, n, y) <==> InRunFrame(s, pf, k, j, y) || y == f;
    }
  }

  lemma FrameOfOwner(s: Sys, o: Owner, y: Frame)
    requires Core(s) && Active(s, o)
    ensures y == FrameOf(EntryOf(s, o)) <==> y in s.own && s.own[y] == o
  {
    assert Backed(s, o);
    if y in s.own { assert OwnedOk(s, y); }
  }

  /** Neither a directory nor a page table is a page of a run. */
  lemma NotInRun(s: Sys, d: Frame, pf: Pf, k: nat, cnt: nat)
    requires Core(s) && IsDir(s, d) && Live(s, pf, k, cnt)
    ensures !InRunFrame(s, pf, k, cnt, d)
    ensures forall t: Frame :: t < POOL0 || (t in s.own && s.own[t].UTable?) ==> !InRunFrame(s, pf, k, cnt, t)
  {
    forall t: Frame ensures InRunFrame(s, pf, k, cnt, t) ==> Plain(s, t) { RunFramePlain(s, pf, k, cnt, t); }
    assert InRunFrame(s, pf, k, cnt, d) ==> Plain(s, d);
    forall t: Frame | t < POOL0 || (t in s.own && s.own[t].UTable?) ensures !InRunFrame(s, pf, k, cnt, t) {
      assert InRunFrame(s, pf, k, cnt, t) ==> Plain(s, t);
    }
  }

  lemma PageShown(s: Sys, cur: Frame, pf: Pf, k: nat)
    requires Core(s) && IsDir(s, cur) && Usable(s, pf) && (pf.User? ==> pf.dir == cur)
    requires k <= 8 * VBits(s, pf).len && LiveAt(s, pf, k)
    ensures var vp, f := PageOf(pf, k), FrameOf(EntryOf(s, OwnerAt(pf, k)));
            vp < FRAMES && WalkPage(s.m, cur, vp) == Walked.At(f * PG_SIZE) && f != cur &&
            var t := FrameOf(Entry(s.m, cur, vp / 1024));
            f != t && (t < POOL0 || (t in s.own && s.own[t].UTable?))
  {
    var o := OwnerAt(pf, k);
    SlotOfOwner(s, cur, pf, k);
    HomeOwned(s, o);
    if pf.Kernel? { HeapEntry(s, cur, k); }
    LivePlain(s, pf, k);
  }

  lemma LivePlain(s: Sys, pf: Pf, k: nat)
    requires Core(s) && LiveAt(s, pf, k)
    ensures Plain(s, FrameOf(EntryOf(s, OwnerAt(pf, k))))
  {
    assert Backed(s, OwnerAt(pf, k));
    assert OwnedOk(s, FrameOf(EntryOf(s, OwnerAt(pf, k))));
  }

  lemma PtePtrOfPage(vaddr: Word)
    ensures PtePtr(vaddr) == PtePtr(vaddr / PG_SIZE * PG_SIZE)
  {
    var p := vaddr / PG_SIZE;
    assert p * PG_SIZE / 0x1000 == p && p * PG_SIZE / 0x40_0000 == p / 1024 == vaddr / 0x40_0000;
  }

  /** A live page as addr_v2p, pfree and page_table_pte_remove see it: its ASSERTs hold, and the
      three together do what UnmapPage says. */
  lemma LivePageWords(s: Sys, cur: Frame, pf: Pf, k: nat)
    requires Core(s) && IsDir(s, cur) && Usable(s, pf) && (pf.User? ==> pf.dir == cur)
    requires k <= 8 * VBits(s, pf).len && LiveAt(s, pf, k)
    ensures SelfMapped(s.m, cur) && PageOf(pf, k) < FRAMES && HasTable(s.m, cur, PageOf(pf, k))
    ensures var i := PteSlot(s.m, cur, PageOf(pf, k));
            var f := FrameOf(s.m[i]);
            f >= POOL0 && (if pf.User? then InUserPool(s, f) else InKernelPool(s, f)) &&
            UnmapPage(s, pf, k) == SetPool(s, f, false).(m := s.m[i := Dropped(s.m[i])], own := s.own - {f})
  {
    assert DirOk(s.m, cur);
    SlotOfOwner(s, cur, pf, k);
    FreedPool(s, OwnerAt(pf, k));
  }

  /** The entry of a page is the word pte_ptr reaches from the directory in use. */
  lemma SlotOfOwner(s: Sys, cur: Frame, pf: Pf, k: nat)
    requires Core(s) && IsDir(s, cur) && Usable(s, pf) && (pf.User? ==> pf.dir == cur)
    requires k <= 8 * VBits(s, pf).len && Typed(s, OwnerAt(pf, k))
    ensures var o, vp := OwnerAt(pf, k), PageOf(pf, k);
            vp < FRAMES && HasTable(s.m, cur, vp) && Home(s, o) * 1024 + Idx(o) == PteSlot(s.m, cur, vp)
  {
    if pf.Kernel? { HeapEntry(s, cur, k); }
  }

  /** The state after the pool bits of a frame and the words of one entry are written. */
  function Written(s: Sys, f: Frame, m: Memory, own: map<Frame, Owner>): Sys
    requires Geometry(s) && (InKernelPool(s, f) || InUserPool(s, f))
  {
    SetPool(s, f, true).(m := m, own := own)
  }

  /** page_table_add's first branch on a page whose table is there. */
  lemma MappedInPlace(s: Sys, cur: Frame, pf: Pf, k: nat, f: Frame)
    requires Core(s) && IsDir(s, cur) && Usable(s, pf) && (pf.User? ==> pf.dir == cur)
    requires k <= 8 * VBits(s, pf).len && TakeFrame(s, pf) == Done(f) && !NeedsTable(s, pf, k)
    ensures var vp := PageOf(pf, k);
            vp < 1023 * 1024 && HasTable(s.m, cur, vp) &&
            MapPage(s, pf, k) ==
              if Present(s.m[PteSlot(s.m, cur, vp)]) then Panic
              else Done(Written(s, f, MapIn(s.m, cur, vp, f), s.own[f := OwnerAt(pf, k)]))
  {
    if PageOf(pf, k) == KERNEL_VP {
      assert DirOk(s.m, cur);
      assert Entry(s.m, KTABLE0, 0) == Pte(0);
      assert Entry(s.m, cur, 768) == Pte(KTABLE0);
    } else {
      SlotOfOwner(s, cur, pf, k);
    }
  }

  lemma PoolsCommute(s: Sys, f: Frame, t: Frame)
    requires Geometry(s) && InUserPool(s, f) && InKernelPool(s, t)
    ensures SetPool(SetPool(s, f, true), t, true) == SetPool(SetPool(s, t, true), f, true)
  {
  }

  lemma WithTableWords(s: Sys, pf: Pf, k: nat, t: Frame)
    requires Core(s) && Usable(s, pf) && k <= 8 * VBits(s, pf).len && NeedsTable(s, pf, k)
    requires TakeFrame(s, Kernel) == Done(t)
    ensures var d, vp := pf.dir, PageOf(pf, k);
            vp < KERNEL_VP &&
            WithTable(s, pf, k) == Done(Written(s, t, AddTable(s.m, d, vp / 1024, t), s.own[t := UTable(d, vp / 1024)]))
  {
  }

  lemma MapPageIs(s: Sys, pf: Pf, k: nat, f: Frame, r: Sys)
    requires Core(s) && Usable(s, pf) && k <= 8 * VBits(s, pf).len
    requires TakeFrame(s, pf) == Done(f) && WithTable(s, pf, k) == Done(r)
    requires Typed(r, OwnerAt(pf, k)) && !Active(r, OwnerAt(pf, k))
    ensures MapPage(s, pf, k) == Done(MapOwner(r, OwnerAt(pf, k), f))
  {
  }

  lemma MapOwnerWords(r: Sys, pf: Pf, k: nat, f: Frame)
    requires Geometry(r) && pf.User? && Typed(r, OwnerAt(pf, k)) && InPool(r, f, OwnerAt(pf, k))
    ensures MapOwner(r, OwnerAt(pf, k), f)
            == Written(r, f, MapIn(r.m, pf.dir, PageOf(pf, k), f), r.own[f := OwnerAt(pf, k)])
  {
  }

  /** And its second branch. */
  lemma MappedWithTable(s: Sys, pf: Pf, k: nat, f: Frame)
    requires Core(s) && Usable(s, pf) && k <= 8 * VBits(s, pf).len && NeedsTable(s, pf, k)
    requires TakeFrame(s, pf) == Done(f)
    ensures var d, vp, a := pf.dir, PageOf(pf, k), SetPool(s, f, true);
            vp < 1023 * 1024 && !HasTable(s.m, d, vp) && TakeFrame(a, Kernel) == TakeFrame(s, Kernel) &&
            match TakeFrame(s, Kernel)
            case Panic => MapPage(s, pf, k).Panic?
            case Done(t) =>
              MapPage(s, pf, k) ==
                Done(Written(a, t, MapIn(AddTable(s.m, d, vp / 1024, t), d, vp, f),
                             s.own[t := UTable(d, vp / 1024)][f := OwnerAt(pf, k)]))
  {
    if TakeFrame(s, Kernel).Done? {
      var t := TakeFrame(s, Kernel).value;
      WithTableWords(s, pf, k, t);
      NewPageReady(s, pf, k);
      var r := WithTable(s, pf, k).value;
      MapPageIs(s, pf, k, f, r);
      MapOwnerWords(r, pf, k, f);
      PoolsCommute(s, f, t);
    }
  }

  /** After palloc: page_table_add may edit the tables, and does what MapPage says. */
  lemma OneTurn(s: Sys, cur: Frame, pf: Pf, k: nat, f: Frame)
    requires Core(s) && IsDir(s, cur) && Usable(s, pf) && (pf.User? ==> pf.dir == cur)
    requires k <= 8 * VBits(s, pf).len && TakeFrame(s, pf) == Done(f)
    ensures SelfMapped(s.m, cur) && PageOf(pf, k) < 1023 * 1024 && TakeFrame(SetPool(s, f, true), Kernel) != Done(cur)
    ensures match AddedTo(SetPool(s, f, true), cur, PageOf(pf, k), f)
            case Panic => MapPage(s, pf, k).Panic?
            case Done(r) => MapPage(s, pf, k).Done? && MapPage(s, pf, k).value == r.(own := MapPage(s, pf, k).value.own)
  {
    assert DirOk(s.m, cur);
    NoFreeDirectory(s, cur, SetPool(s, f, true));
    if NeedsTable(s, pf, k) { MappedWithTable(s, pf, k, f); } else { MappedInPlace(s, cur, pf, k, f); }
  }

  lemma NoFreeDirectory(s: Sys, cur: Frame, a: Sys)
    requires Core(s) && IsDir(s, cur) && Geometry(a) && a.kp.len == s.kp.len && |a.kp.v| == |s.kp.v|
    requires forall i :: 0 <= i < |a.kp.v| && s.kp.v[i] ==> a.kp.v[i]
    ensures TakeFrame(a, Kernel) != Done(cur)
  {
    if cur in s.uv { DirOwner(s, cur); }
    if InKernelPool(s, cur) { assert s.kp.v[cur - POOL0] <==> POOL0 + (cur - POOL0) in s.own; }
  }

  lemma NewPageReady(s: Sys, pf: Pf, k: nat)
    requires Core(s) && Usable(s, pf) && k <= 8 * VBits(s, pf).len && NeedsTable(s, pf, k)
    requires WithTable(s, pf, k).Done?
    ensures var r := WithTable(s, pf, k).value; Typed(r, OwnerAt(pf, k)) && !Active(r, OwnerAt(pf, k))
  {
    WithTableKeeps(s, pf, k);
    assert MappedAt(s, WithTable(s, pf, k).value, pf, k, 0, OwnerAt(pf, k));
  }

  /** The first j words of frame f zeroed. */
  function ZeroFirst(m: Memory, f: Frame, j: nat): Memory
  {
    seq(WORDS, i requires 0 <= i < WORDS => if f * 1024 <= i < f * 1024 + j then 0 else m[i])
  }

  lemma ZeroFirstNext(m: Memory, f: Frame, j: nat, at: nat)
    requires j < 1024 && at == f * 1024 + j
    ensures ZeroFirst(m, f, j)[at := 0] == ZeroFirst(m, f, j + 1)
  {
  }

  lemma ZeroFirstAll(m: Memory, f: Frame)
    ensures ZeroFirst(m, f, 0) == m && ZeroFirst(m, f, 1024) == ZeroFrame(m, f)
  {
  }

  lemma ZeroFirstEntry(m: Memory, f: Frame, j: nat, y: Frame, i: nat)
    requires j <= 1024 && i < 1024 && y != f
    ensures Entry(ZeroFirst(m, f, j), y, i) == Entry(m, y, i)
  {
  }

  /** The next word of the page, in a memory where part of it is zero. */
  lemma ZeroTarget(m: Memory, dir: Frame, vp: Page, f: Frame, j: nat, dst: Word)
    requires j < 1024 && WalkPage(m, dir, vp) == Walked.At(f * PG_SIZE) && dst == vp * PG_SIZE + j * 4
    requires f != dir && f != FrameOf(Entry(m, dir, vp / 1024))
    ensures var r := ZeroFirst(m, f, j);
            dst % 4 == 0 && Walk(r, dir, dst).At? && Walk(r, dir, dst).addr / 4 == f * 1024 + j
  {
    ZeroFirstEntry(m, f, j, dir, vp / 1024);
    ZeroFirstEntry(m, f, j, FrameOf(Entry(m, dir, vp / 1024)), vp % 1024);
    WalkWord(ZeroFirst(m, f, j), dir, vp, f, j, dst);
  }

  /** Once the directory names table t, the self-map shows it. */
  lemma FreshWindow(m: Memory, dir: Frame, vp: Page, t: Frame)
    requires SelfMapped(m, dir) && vp < 1023 * 1024
    ensures var r := m[dir * 1024 + vp / 1024 := Pte(t)];
            var w := PtePtr(vp * PG_SIZE) / PG_SIZE;
            WalkPage(r, dir, w) == Walked.At(t * PG_SIZE) && FrameOf(Entry(r, dir, w / 1024)) == dir
  {
    assert PtePtr(vp * PG_SIZE) / PG_SIZE == 1023 * 1024 + vp / 1024;
    EntryWritten(m, dir, vp / 1024, Pte(t), dir, 1023);
    EntryWritten(m, dir, vp / 1024, Pte(t), dir, vp / 1024);
  }

  lemma FreshTable(m: Memory, dir: Frame, vp: Page, t: Frame)
    requires SelfMapped(m, dir) && vp < 1023 * 1024 && t != dir
    ensures var r := ZeroFrame(m[dir * 1024 + vp / 1024 := Pte(t)], t);
            r == AddTable(m, dir, vp / 1024, t) && SelfMapped(r, dir) && HasTable(r, dir, vp) &&
            r[PteSlot(r, dir, vp)] == 0
  {
    var i := vp / 1024;
    var r := ZeroFrame(m[dir * 1024 + i := Pte(t)], t);
    assert r == AddTable(m, dir, i, t);
    TableAdded(m, dir, i, t, dir, 1023);
    TableAdded(m, dir, i, t, dir, i);
    TableAdded(m, dir, i, t, t, vp % 1024);
  }

  // ----- mem_pool_init -----

  const MEM_BITMAP_BASE := 0xc009_a000

  /** From setup_page and mem_pool_init on the invariant of module Frames holds, if the page tables
      setup_page does not clear were zero. */
  lemma InitInv(m: Memory, allMem: Word, kb: Bits, ub: Bits, vb: Bits)
    requires kb.len == vb.len == KernelFree(allMem) / 8 && ub.len == UserFree(allMem) / 8
    requires 8 * kb.len < |kb.v| && 8 * ub.len < |ub.v| && 8 * vb.len < |vb.v|
    requires forall f: Frame :: KTABLE0 <= f < POOL0 ==> ZeroWords(m, f)
    ensures Inv(Boot(m, Cleared(kb), Cleared(ub), Cleared(vb), POOL0 + KernelFree(allMem)))
  {
    BootInv(m, Cleared(kb), Cleared(ub), Cleared(vb), POOL0 + KernelFree(allMem));
  }

  /** The two pools lie inside physical memory exactly when there are 2 MB of it: with less,
      free_mem wraps and the pools name frames that do not exist. */
  lemma PoolsInMemory(allMem: Word)
    ensures (POOL0 + KernelFree(allMem) + 8 * (UserFree(allMem) / 8)) * PG_SIZE <= allMem <==> allMem >= USED_MEM
  {
    if allMem < USED_MEM {
      assert (allMem - USED_MEM) % 0x1_0000_0000 == allMem - USED_MEM + 0x1_0000_0000;
    }
  }

  /** The uint16_t page count is the true one exactly below 258 MB, and the pools end with the last
      whole page of memory exactly from 2 MB to there. */
  lemma PageCountExact(allMem: Word)
    ensures allMem >= USED_MEM ==>
              (FreePages(allMem) == (allMem - USED_MEM) / PG_SIZE <==> allMem < USED_MEM + 0x1000_0000)
    ensures POOL0 + FreePages(allMem) == allMem / PG_SIZE <==> 0x20_0000 <= allMem < 0x1020_0000
  {
  }

  /** The three bitmaps, laid end to end, stay below the main thread's PCB at 0xc009e000, with room
      for the byte after the last. */
  lemma BitmapsFit(allMem: Word)
    ensures MEM_BITMAP_BASE + 2 * (KernelFree(allMem) / 8) + UserFree(allMem) / 8 < 0xc009_e000
  {
  }
}
