/** Who owns each page frame: the invariant that ties the pool bitmaps of kernel/memory.c to the
    page tables, and the single steps that keep it. */
module Frames {
  import opened Paging

  const POOL0: Frame := 0x200          // first frame after 1 MB and the 256 directory and table frames
  const KHEAP_VP: Page := 0xc0100      // K_HEAP_START / PG_SIZE
  const USER_VP: Page := 0x8048        // USER_VADDR_START / PG_SIZE
  const KERNEL_VP: Page := 0xc0000
  const USER_BYTES := 94199            // bytes of a process's virtual bitmap

  /** What a frame can back: a kernel-heap page, a page table of a process, a user page. */
  datatype Owner = KHeap(b: nat) | UTable(dir: Frame, i: nat) | UPage(dir: Frame, vp: nat)

  /** The bits of a bitmap and of the memory after it; len is btmp_bytes_len. */
  datatype Bits = Bits(v: seq<bool>, len: nat)

  /** Physical memory; the kernel and user physical bitmaps and the kernel virtual one; the first
      user frame; the virtual bitmap of every process, by its directory; and the owner of every
      frame taken from a pool. */
  datatype Sys = Sys(m: Memory, kp: Bits, up: Bits, kv: Bits, uStart: nat,
                     uv: map<Frame, Bits>, own: map<Frame, Owner>)

  predicate Geometry(s: Sys)
  {
    8 * s.kp.len < |s.kp.v| && 8 * s.up.len < |s.up.v| && 8 * s.kv.len < |s.kv.v| &&
    POOL0 + 8 * s.kp.len <= s.uStart && s.uStart + 8 * s.up.len <= FRAMES &&
    KHEAP_VP + 8 * s.kv.len < 1023 * 1024 &&
    forall d :: d in s.uv ==> s.uv[d].len == USER_BYTES && 8 * USER_BYTES < |s.uv[d].v|
  }

  predicate InKernelPool(s: Sys, f: int)
  {
    POOL0 <= f < POOL0 + 8 * s.kp.len
  }

  predicate InUserPool(s: Sys, f: int)
  {
    s.uStart <= f < s.uStart + 8 * s.up.len
  }

  predicate InPool(s: Sys, f: Frame, o: Owner)
  {
    if o.UPage? then InUserPool(s, f) else InKernelPool(s, f)
  }

  /** The pages and tables that can exist. The last heap page is the one past the bitmap that
      a search for several pages can hand out. */
  predicate Typed(s: Sys, o: Owner)
  {
    match o
    case KHeap(b) => b <= 8 * s.kv.len
    case UTable(d, i) => d in s.uv && i < 768
    case UPage(d, vp) => d in s.uv && USER_VP <= vp < KERNEL_VP && Present(Entry(s.m, d, vp / 1024))
  }

  /** The frame that holds the entry mapping an owner's frame, and the entry's index there. */
  function Home(s: Sys, o: Owner): Frame
    requires Geometry(s) && Typed(s, o)
  {
    match o
    case KHeap(b) => KTABLE0 + (0x100 + b) / 1024
    case UTable(d, i) => d
    case UPage(d, vp) => FrameOf(Entry(s.m, d, vp / 1024))
  }

  function Idx(o: Owner): (i: nat)
    ensures i < 1024
  {
    match o
    case KHeap(b) => (0x100 + b) % 1024
    case UTable(d, i) => i % 1024
    case UPage(d, vp) => vp % 1024
  }

  function EntryOf(s: Sys, o: Owner): Word
    requires Geometry(s) && Typed(s, o)
  {
    Entry(s.m, Home(s, o), Idx(o))
  }

  predicate Active(s: Sys, o: Owner)
  {
    Geometry(s) && Typed(s, o) && Present(EntryOf(s, o))
  }

  /** Entries 768 to 1022 are the kernel tables, entry 1023 is the directory itself. */
  ghost predicate DirOk(m: Memory, d: Frame)
  {
    SelfMapped(m, d) && forall i :: 768 <= i < 1023 ==> Entry(m, d, i) == Pte(KTABLE0 + (i - 768))
  }

  predicate IsDir(s: Sys, d: Frame)
  {
    d == DIR0 || d in s.uv
  }

  /** The low megabyte stays mapped at 3 GB. */
  ghost predicate LowOk(m: Memory)
  {
    forall i {:trigger Entry(m, KTABLE0, i)} :: 0 <= i < 256 ==> Entry(m, KTABLE0, i) == Pte(i)
  }

  ghost predicate DirsOk(s: Sys)
  {
    (forall d {:trigger DirOk(s.m, d)} :: IsDir(s, d) ==> DirOk(s.m, d)) &&
    forall d :: d in s.uv ==> d in s.own && s.own[d].KHeap?
  }

  /** The frame an active owner maps is its own, and user programs may write through its entry. */
  predicate Backed(s: Sys, o: Owner)
    requires Active(s, o)
  {
    var f := FrameOf(EntryOf(s, o));
    f in s.own && s.own[f] == o && UserWord(EntryOf(s, o))
  }

  predicate OwnedOk(s: Sys, f: Frame)
    requires f in s.own
  {
    Active(s, s.own[f]) && FrameOf(EntryOf(s, s.own[f])) == f && InPool(s, f, s.own[f])
  }

  ghost predicate BitsOk(s: Sys)
    requires Geometry(s)
  {
    (forall j :: 0 <= j < 8 * s.kp.len ==> (s.kp.v[j] <==> POOL0 + j in s.own)) &&
    (forall j :: 0 <= j < 8 * s.up.len ==> (s.up.v[j] <==> s.uStart + j in s.own))
  }

  ghost predicate Owners(s: Sys)
  {
    (forall o {:trigger Backed(s, o)} :: Active(s, o) ==> Backed(s, o)) &&
    (forall f {:trigger OwnedOk(s, f)} :: f in s.own ==> OwnedOk(s, f))
  }

  /** Set pool bits, owners and present entries correspond one to one. */
  ghost predicate Core(s: Sys)
  {
    Geometry(s) && LowOk(s.m) && DirsOk(s) && BitsOk(s) && Owners(s)
  }

  /** A set virtual bit is a mapped page. Only the bit after the kernel's bitmap, which is not the
      bitmap's own, may be set with nothing mapped. */
  ghost predicate VirtualOk(s: Sys)
    requires Geometry(s)
  {
    (forall b :: 0 <= b <= 8 * s.kv.len && Active(s, KHeap(b)) ==> s.kv.v[b]) &&
    (forall b :: 0 <= b < 8 * s.kv.len && s.kv.v[b] ==> Active(s, KHeap(b))) &&
    (forall d, k :: d in s.uv && 0 <= k < 8 * USER_BYTES ==> (s.uv[d].v[k] <==> Active(s, UPage(d, USER_VP + k))))
  }

  ghost predicate Inv(s: Sys)
  {
    Core(s) && VirtualOk(s)
  }

  // ----- consequences -----

  /** Every directory translates every kernel page alike, and never lacks the table for it. */
  lemma KernelShared(s: Sys, d: Frame, vp: Page)
    requires Core(s) && IsDir(s, d) && KERNEL_VP <= vp < 1023 * 1024
    ensures WalkPage(s.m, d, vp) == WalkPage(s.m, DIR0, vp)
    ensures HasTable(s.m, d, vp)
  {
    assert DirOk(s.m, d) && DirOk(s.m, DIR0);
  }

  lemma HeapEntry(s: Sys, d: Frame, b: nat)
    requires Core(s) && IsDir(s, d) && b <= 8 * s.kv.len
    ensures var vp := KHEAP_VP + b;
            Entry(s.m, d, vp / 1024) == Pte(Home(s, KHeap(b))) && vp % 1024 == Idx(KHeap(b))
  {
    var vp := KHEAP_VP + b;
    assert DirOk(s.m, d);
    assert vp / 1024 == 768 + (0x100 + b) / 1024;
  }

  /** The page an owner maps, as a walk from directory d sees it. */
  predicate Shows(s: Sys, d: Frame, o: Owner, f: Frame)
  {
    match o
    case KHeap(b) => KHEAP_VP + b < FRAMES && WalkPage(s.m, d, KHEAP_VP + b) == Walked.At(f * PG_SIZE)
    case UTable(e, i) => e == d ==> i < 1024 && Entry(s.m, d, i) == Pte(f)
    case UPage(e, vp) => e == d ==> vp < FRAMES && WalkPage(s.m, d, vp) == Walked.At(f * PG_SIZE)
  }

  /** A bit of a pool is set exactly when its frame has an owner; then exactly one page or table is
      backed by the frame, and the walk of that page gives the frame: from every directory for a
      heap page, from its own directory for a user page. */
  lemma SetBitBacksOne(s: Sys, f: Frame)
    requires Core(s) && (InKernelPool(s, f) || InUserPool(s, f))
    ensures (if f < s.uStart then s.kp.v[f - POOL0] else s.up.v[f - s.uStart]) <==> f in s.own
    ensures forall o :: Active(s, o) && FrameOf(EntryOf(s, o)) == f <==> f in s.own && o == s.own[f]
    ensures f in s.own && !s.own[f].UTable? ==> forall d :: IsDir(s, d) ==> Shows(s, d, s.own[f], f)
  {
    if InKernelPool(s, f) { assert s.kp.v[f - POOL0] <==> POOL0 + (f - POOL0) in s.own; }
    if InUserPool(s, f) { assert s.up.v[f - s.uStart] <==> s.uStart + (f - s.uStart) in s.own; }
    forall o ensures Active(s, o) && FrameOf(EntryOf(s, o)) == f <==> f in s.own && o == s.own[f] {
      if Active(s, o) { assert Backed(s, o); }
      if f in s.own { assert OwnedOk(s, f); }
    }
    if f in s.own && !s.own[f].UTable? {
      assert OwnedOk(s, f);
      forall d | IsDir(s, d) ensures Shows(s, d, s.own[f], f) {
        if s.own[f].KHeap? { HeapEntry(s, d, s.own[f].b); }
      }
    }
  }

  // ----- where entries lie -----

  /** The entries of heap pages lie below the pools; the others in frames that have an owner. */
  lemma HomeOwned(s: Sys, o: Owner)
    requires Core(s) && Typed(s, o)
    ensures var h := Home(s, o);
            match o
            case KHeap(b) => KTABLE0 <= h < POOL0
            case UTable(d, i) => h == d && d in s.own && s.own[d].KHeap? && d >= POOL0
            case UPage(d, vp) => h in s.own && s.own[h] == UTable(d, vp / 1024) && h >= POOL0
  {
    match o
    case KHeap(b) =>
    case UTable(d, i) => assert OwnedOk(s, d);
    case UPage(d, vp) =>
      var q := UTable(d, vp / 1024);
      assert Active(s, q) && Backed(s, q);
      assert OwnedOk(s, Home(s, o));
  }

  /** No two owners share an entry. */
  lemma EntriesDiffer(s: Sys, o: Owner, q: Owner)
    requires Core(s) && Typed(s, o) && Typed(s, q) && o != q
    ensures Home(s, o) != Home(s, q) || Idx(o) != Idx(q)
  {
    HomeOwned(s, o);
    HomeOwned(s, q);
  }

  // ----- how owners change -----

  predicate SameEntry(s: Sys, r: Sys, q: Owner)
  {
    (Active(r, q) <==> Active(s, q)) && (Active(s, q) ==> EntryOf(r, q) == EntryOf(s, q))
  }

  predicate SamePools(s: Sys, r: Sys)
  {
    Geometry(r) && r.kp.len == s.kp.len && r.up.len == s.up.len && r.uStart == s.uStart
  }

  lemma OwnersKept(s: Sys, r: Sys)
    requires Owners(s) && SamePools(s, r) && r.own == s.own
    requires forall q {:trigger SameEntry(s, r, q)} :: SameEntry(s, r, q)
    ensures Owners(r)
  {
    forall q | Active(r, q) ensures Backed(r, q) { assert SameEntry(s, r, q) && Backed(s, q); }
    forall g | g in r.own ensures OwnedOk(r, g) { assert OwnedOk(s, g) && SameEntry(s, r, s.own[g]); }
  }

  lemma OwnersGrow(s: Sys, r: Sys, o: Owner, f: Frame)
    requires Owners(s) && SamePools(s, r) && f !in s.own && r.own == s.own[f := o]
    requires !Active(s, o) && Active(r, o) && FrameOf(EntryOf(r, o)) == f && UserWord(EntryOf(r, o)) && InPool(s, f, o)
    requires forall q {:trigger SameEntry(s, r, q)} :: q != o ==> SameEntry(s, r, q)
    ensures Owners(r)
  {
    forall q | Active(r, q) ensures Backed(r, q) {
      if q != o { assert SameEntry(s, r, q) && Backed(s, q); }
    }
    forall g | g in r.own ensures OwnedOk(r, g) {
      if g != f { assert OwnedOk(s, g) && SameEntry(s, r, s.own[g]); }
    }
  }

  lemma OwnersShrink(s: Sys, r: Sys, o: Owner)
    requires Owners(s) && SamePools(s, r)
    requires Active(s, o) && !Active(r, o) && r.own == s.own - {FrameOf(EntryOf(s, o))}
    requires forall q {:trigger SameEntry(s, r, q)} :: q != o ==> SameEntry(s, r, q)
    ensures Owners(r)
  {
    assert Backed(s, o);
    forall q | Active(r, q) ensures Backed(r, q) { assert SameEntry(s, r, q) && Backed(s, q); }
    forall g | g in r.own ensures OwnedOk(r, g) { assert OwnedOk(s, g) && SameEntry(s, r, s.own[g]); }
  }

  // ----- writing one leaf entry -----

  function WriteAt(s: Sys, o: Owner, w: Word): Sys
    requires Geometry(s) && Typed(s, o)
  {
    s.(m := s.m[Home(s, o) * 1024 + Idx(o) := w])
  }

  /** Rewriting a leaf entry leaves every other owner's entry where it was and as it was. */
  lemma LeafWrite(s: Sys, o: Owner, w: Word, q: Owner)
    requires Core(s) && Typed(s, o) && !o.UTable?
    ensures var r := WriteAt(s, o, w);
            Geometry(r) && (Typed(r, q) <==> Typed(s, q)) &&
            (Typed(s, q) ==> EntryOf(r, q) == if q == o then w else EntryOf(s, q))
  {
    var r := WriteAt(s, o, w);
    var h, i := Home(s, o), Idx(o);
    if q.UPage? && q.dir in s.uv && q.vp < KERNEL_VP {
      EntriesDiffer(s, o, UTable(q.dir, q.vp / 1024));
      EntryWritten(s.m, h, i, w, q.dir, q.vp / 1024);
    }
    if Typed(s, q) {
      assert Home(r, q) == Home(s, q);
      if q != o { EntriesDiffer(s, o, q); }
      EntryWritten(s.m, h, i, w, Home(s, q), Idx(q));
    }
  }

  lemma LeafWriteDirs(s: Sys, o: Owner, w: Word)
    requires Core(s) && Typed(s, o) && !o.UTable?
    ensures var r := WriteAt(s, o, w);
            LowOk(r.m) && forall d {:trigger DirOk(r.m, d)} :: IsDir(s, d) ==> DirOk(r.m, d)
  {
    var r := WriteAt(s, o, w);
    var h, i := Home(s, o), Idx(o);
    HomeOwned(s, o);
    forall d | IsDir(s, d) ensures DirOk(r.m, d) {
      assert DirOk(s.m, d);
      if d in s.uv { assert s.own[d].KHeap? && OwnedOk(s, d); }
      forall j: nat | j < 1024 ensures Entry(r.m, d, j) == Entry(s.m, d, j) {
        EntryWritten(s.m, h, i, w, d, j);
      }
    }
    forall j: nat | j < 256 ensures Entry(r.m, KTABLE0, j) == Pte(j) {
      EntryWritten(s.m, h, i, w, KTABLE0, j);
    }
  }

  // ----- map and unmap -----

  function SetPool(s: Sys, f: Frame, value: bool): (r: Sys)
    requires Geometry(s) && (InKernelPool(s, f) || InUserPool(s, f))
    ensures Geometry(r)
  {
    if f < s.uStart then s.(kp := Bits(s.kp.v[f - POOL0 := value], s.kp.len))
    else s.(up := Bits(s.up.v[f - s.uStart := value], s.up.len))
  }

  /** palloc's bit and page_table_add's entry: frame f now backs o. */
  function MapOwner(s: Sys, o: Owner, f: Frame): Sys
    requires Geometry(s) && Typed(s, o) && InPool(s, f, o)
  {
    SetPool(WriteAt(s, o, Pte(f)), f, true).(own := s.own[f := o])
  }

  /** Pool bits and owners play no part in what is mapped. */
  lemma SameWords(s: Sys, r: Sys, q: Owner)
    requires Geometry(s) && Geometry(r) && r.m == s.m && r.uv.Keys == s.uv.Keys && r.kv.len == s.kv.len
    ensures Typed(r, q) <==> Typed(s, q)
    ensures Typed(s, q) ==> EntryOf(r, q) == EntryOf(s, q)
  {
  }

  lemma MapEntry(s: Sys, o: Owner, f: Frame, q: Owner)
    requires Core(s) && Typed(s, o) && !o.UTable? && InPool(s, f, o)
    ensures var r := MapOwner(s, o, f);
            Geometry(r) && (Typed(r, q) <==> Typed(s, q)) &&
            (Typed(s, q) ==> EntryOf(r, q) == if q == o then Pte(f) else EntryOf(s, q))
  {
    LeafWrite(s, o, Pte(f), q);
    SameWords(WriteAt(s, o, Pte(f)), MapOwner(s, o, f), q);
  }

  lemma MapBits(s: Sys, o: Owner, f: Frame)
    requires Core(s) && Typed(s, o) && InPool(s, f, o)
    ensures BitsOk(MapOwner(s, o, f))
  {
  }

  /** Giving a free frame to a page that has none keeps everything, and maps that page only. */
  lemma MapKeeps(s: Sys, o: Owner, f: Frame)
    requires Core(s) && Typed(s, o) && !o.UTable? && !Active(s, o) && InPool(s, f, o) && f !in s.own
    ensures Core(MapOwner(s, o, f))
    ensures forall q {:trigger Active(MapOwner(s, o, f), q)} ::
              Active(MapOwner(s, o, f), q) <==> Active(s, q) || q == o
  {
    var r := MapOwner(s, o, f);
    LeafWriteDirs(s, o, Pte(f));
    MapBits(s, o, f);
    forall d | d in s.uv ensures r.own[d].KHeap? { assert s.own[d].KHeap?; }
    forall q ensures q != o ==> SameEntry(s, r, q) { MapEntry(s, o, f, q); }
    MapEntry(s, o, f, o);
    PteForUser(f);
    forall q ensures Active(r, q) <==> Active(s, q) || q == o {
      if q != o { assert SameEntry(s, r, q); }
    }
    OwnersGrow(s, r, o, f);
  }

  /** pfree's bit and page_table_pte_remove. */
  function UnmapOwner(s: Sys, o: Owner): Sys
    requires Active(s, o) && InPool(s, FrameOf(EntryOf(s, o)), o)
  {
    var w := EntryOf(s, o);
    SetPool(WriteAt(s, o, Dropped(w)), FrameOf(w), false).(own := s.own - {FrameOf(w)})
  }

  lemma UnmapEntry(s: Sys, o: Owner, q: Owner)
    requires Core(s) && Active(s, o) && !o.UTable? && InPool(s, FrameOf(EntryOf(s, o)), o)
    ensures var r := UnmapOwner(s, o);
            Geometry(r) && (Typed(r, q) <==> Typed(s, q)) &&
            (Typed(s, q) ==> EntryOf(r, q) == if q == o then Dropped(EntryOf(s, o)) else EntryOf(s, q))
  {
    LeafWrite(s, o, Dropped(EntryOf(s, o)), q);
    SameWords(WriteAt(s, o, Dropped(EntryOf(s, o))), UnmapOwner(s, o), q);
  }

  lemma UnmapBits(s: Sys, o: Owner)
    requires Core(s) && Active(s, o) && InPool(s, FrameOf(EntryOf(s, o)), o)
    ensures BitsOk(UnmapOwner(s, o))
  {
  }

  /** pfree picks the pool the frame was taken from. */
  lemma FreedPool(s: Sys, o: Owner)
    requires Core(s) && Active(s, o)
    ensures InPool(s, FrameOf(EntryOf(s, o)), o)
    ensures FrameOf(EntryOf(s, o)) >= s.uStart <==> o.UPage?
  {
    assert Backed(s, o);
    assert OwnedOk(s, FrameOf(EntryOf(s, o)));
  }

  /** Taking the frame of a page back keeps everything, and unmaps that page only. */
  lemma UnmapKeeps(s: Sys, o: Owner)
    requires Core(s) && Active(s, o) && !o.UTable? && FrameOf(EntryOf(s, o)) !in s.uv
    requires InPool(s, FrameOf(EntryOf(s, o)), o)
    ensures Core(UnmapOwner(s, o))
    ensures forall q {:trigger Active(UnmapOwner(s, o), q)} ::
              Active(UnmapOwner(s, o), q) <==> Active(s, q) && q != o
  {
    var w := EntryOf(s, o);
    var f := FrameOf(w);
    assert Backed(s, o);
    var r := UnmapOwner(s, o);
    LeafWriteDirs(s, o, Dropped(w));
    UnmapBits(s, o);
    forall d | d in s.uv ensures d in r.own && r.own[d].KHeap? { assert s.own[d].KHeap?; }
    forall q ensures q != o ==> SameEntry(s, r, q) { UnmapEntry(s, o, q); }
    UnmapEntry(s, o, o);
    forall q ensures Active(r, q) <==> Active(s, q) && q != o {
      if q != o { assert SameEntry(s, r, q); }
    }
    OwnersShrink(s, r, o);
  }

  // ----- writing frames that hold no entries -----

  /** A pool frame that is neither a directory nor a page table. */
  predicate Plain(s: Sys, p: Frame)
  {
    p >= POOL0 && p !in s.uv && (p in s.own ==> !s.own[p].UTable?)
  }

  /** m differs from s's memory in such frames only. */
  ghost predicate OnlyPlain(s: Sys, m: Memory)
  {
    forall y: Frame, j: nat {:trigger Entry(m, y, j)} ::
      j < 1024 && !Plain(s, y) ==> Entry(m, y, j) == Entry(s.m, y, j)
  }

  lemma PlainEntry(s: Sys, m: Memory, q: Owner)
    requires Core(s) && OnlyPlain(s, m)
    ensures var r := s.(m := m);
            Geometry(r) && (Typed(r, q) <==> Typed(s, q)) && (Typed(s, q) ==> EntryOf(r, q) == EntryOf(s, q))
  {
    var r := s.(m := m);
    if q.UPage? && q.dir in s.uv && q.vp < KERNEL_VP {
      assert Entry(r.m, q.dir, q.vp / 1024) == Entry(s.m, q.dir, q.vp / 1024);
    }
    if Typed(s, q) {
      HomeOwned(s, q);
      assert Home(r, q) == Home(s, q);
      assert Entry(r.m, Home(s, q), Idx(q)) == Entry(s.m, Home(s, q), Idx(q));
    }
  }

  lemma PlainDirs(s: Sys, m: Memory)
    requires Core(s) && OnlyPlain(s, m)
    ensures LowOk(m) && forall d {:trigger DirOk(m, d)} :: IsDir(s, d) ==> DirOk(m, d)
  {
    forall d | IsDir(s, d) ensures DirOk(m, d) {
      assert DirOk(s.m, d);
      forall j: nat | j < 1024 ensures Entry(m, d, j) == Entry(s.m, d, j) { }
    }
    forall j: nat | j < 256 ensures Entry(m, KTABLE0, j) == Pte(j) {
      assert Entry(m, KTABLE0, j) == Entry(s.m, KTABLE0, j);
    }
  }

  /** Data written to such frames changes no mapping and no owner. */
  lemma PlainKeeps(s: Sys, m: Memory)
    requires Core(s) && OnlyPlain(s, m)
    ensures Core(s.(m := m))
    ensures forall q {:trigger Active(s.(m := m), q)} :: Active(s.(m := m), q) <==> Active(s, q)
  {
    var r := s.(m := m);
    PlainDirs(s, m);
    forall q ensures SameEntry(s, r, q) { PlainEntry(s, m, q); }
    forall q ensures Active(r, q) <==> Active(s, q) { assert SameEntry(s, r, q); }
    OwnersKept(s, r);
  }

  // ----- a page table for a process -----

  /** The directory entry page_table_add writes for a table taken from the kernel pool. */
  function LinkTable(s: Sys, d: Frame, i: nat, t: Frame): Sys
    requires Geometry(s) && i < 768 && InKernelPool(s, t)
  {
    SetPool(s.(m := s.m[d * 1024 + i := Pte(t)]), t, true).(own := s.own[t := UTable(d, i)])
  }

  predicate ZeroWords(m: Memory, f: Frame)
  {
    forall j: nat :: j < 1024 ==> Entry(m, f, j) == 0
  }

  /** A zeroed free frame becomes the table of 4 MB that had none. */
  predicate Linkable(s: Sys, d: Frame, i: nat, t: Frame)
    requires Geometry(s)
  {
    d in s.uv && i < 768 && !Present(Entry(s.m, d, i)) && InKernelPool(s, t) && t !in s.own && ZeroWords(s.m, t)
  }

  lemma LinkEntry(s: Sys, d: Frame, i: nat, t: Frame, q: Owner)
    requires Core(s) && Linkable(s, d, i, t)
    ensures var r := LinkTable(s, d, i, t);
            Geometry(r) && (Active(r, q) <==> Active(s, q) || q == UTable(d, i)) &&
            (Active(s, q) ==> EntryOf(r, q) == EntryOf(s, q)) &&
            (q == UTable(d, i) ==> EntryOf(r, q) == Pte(t))
  {
    var r := LinkTable(s, d, i, t);
    var o := UTable(d, i);
    if q.UPage? && q.dir in s.uv && q.vp < KERNEL_VP {
      EntryWritten(s.m, d, i, Pte(t), q.dir, q.vp / 1024);
    }
    if Typed(s, q) {
      HomeOwned(s, q);
      assert Home(r, q) == Home(s, q);
      if q != o { EntriesDiffer(s, o, q); }
      EntryWritten(s.m, d, i, Pte(t), Home(s, q), Idx(q));
    } else if Typed(r, q) {
      assert Home(r, q) == t;
      EntryWritten(s.m, d, i, Pte(t), t, Idx(q));
    }
  }

  lemma LinkDirs(s: Sys, d: Frame, i: nat, t: Frame)
    requires Core(s) && Linkable(s, d, i, t)
    ensures DirsOk(LinkTable(s, d, i, t)) && LowOk(LinkTable(s, d, i, t).m)
  {
    var r := LinkTable(s, d, i, t);
    assert OwnedOk(s, d);
    forall e | IsDir(s, e) ensures DirOk(r.m, e) {
      assert DirOk(s.m, e);
      forall j: nat | 768 <= j < 1024 ensures Entry(r.m, e, j) == Entry(s.m, e, j) {
        EntryWritten(s.m, d, i, Pte(t), e, j);
      }
    }
    forall j: nat | j < 256 ensures Entry(r.m, KTABLE0, j) == Pte(j) {
      EntryWritten(s.m, d, i, Pte(t), KTABLE0, j);
    }
    forall e | e in s.uv ensures e in r.own && r.own[e].KHeap? { assert s.own[e].KHeap?; }
  }

  lemma LinkKeeps(s: Sys, d: Frame, i: nat, t: Frame)
    requires Core(s) && Linkable(s, d, i, t)
    ensures Core(LinkTable(s, d, i, t))
    ensures forall q {:trigger Active(LinkTable(s, d, i, t), q)} ::
              Active(LinkTable(s, d, i, t), q) <==> Active(s, q) || q == UTable(d, i)
  {
    var r := LinkTable(s, d, i, t);
    LinkDirs(s, d, i, t);
    forall q ensures q != UTable(d, i) ==> SameEntry(s, r, q) { LinkEntry(s, d, i, t, q); }
    LinkEntry(s, d, i, t, UTable(d, i));
    PteForUser(t);
    forall q ensures Active(r, q) <==> Active(s, q) || q == UTable(d, i) {
      if q != UTable(d, i) { assert SameEntry(s, r, q); }
    }
    OwnersGrow(s, r, UTable(d, i), t);
  }

  // ----- a new process -----

  /** The directory create_page_dir leaves in frame p: user half empty, kernel half copied from the
      directory in use, last entry pointing at itself. */
  ghost predicate NewDirWords(m: Memory, cur: Frame, p: Frame)
  {
    (forall j: nat {:trigger Entry(m, p, j)} :: j < 768 ==> Entry(m, p, j) == 0) &&
    (forall j: nat {:trigger Entry(m, p, j)} :: 768 <= j < 1023 ==> Entry(m, p, j) == Entry(m, cur, j)) &&
    Entry(m, p, 1023) == Pte(p)
  }

  function AddDir(s: Sys, p: Frame, bits: Bits): Sys
  {
    s.(uv := s.uv[p := bits])
  }

  predicate FreshUserBits(bits: Bits)
  {
    bits.len == USER_BYTES && 8 * USER_BYTES < |bits.v| && forall k :: 0 <= k < 8 * USER_BYTES ==> !bits.v[k]
  }

  lemma DirAdded(s: Sys, cur: Frame, p: Frame, bits: Bits, q: Owner)
    requires Core(s) && IsDir(s, cur) && Plain(s, p) && p in s.own && s.own[p].KHeap?
    requires NewDirWords(s.m, cur, p) && FreshUserBits(bits)
    ensures var r := AddDir(s, p, bits);
            Geometry(r) && (Active(r, q) <==> Active(s, q)) && (Active(s, q) ==> EntryOf(r, q) == EntryOf(s, q))
  {
  }

  /** The new directory is one more view of the same kernel, and maps nothing of its own. */
  lemma DirKeeps(s: Sys, cur: Frame, p: Frame, bits: Bits)
    requires Core(s) && IsDir(s, cur) && Plain(s, p) && p in s.own && s.own[p].KHeap?
    requires NewDirWords(s.m, cur, p) && FreshUserBits(bits)
    ensures Core(AddDir(s, p, bits))
    ensures forall q {:trigger Active(AddDir(s, p, bits), q)} ::
              Active(AddDir(s, p, bits), q) <==> Active(s, q)
  {
    var r := AddDir(s, p, bits);
    assert DirOk(s.m, cur);
    forall d | IsDir(r, d) ensures DirOk(r.m, d) {
      if d != p { assert DirOk(s.m, d); }
    }
    forall q ensures SameEntry(s, r, q) { DirAdded(s, cur, p, bits, q); }
    forall q ensures Active(r, q) <==> Active(s, q) { assert SameEntry(s, r, q); }
    OwnersKept(s, r);
  }

  // ----- boot -----

  /** After setup_page and mem_pool_init: no page is taken, no process exists. */
  function Boot(m: Memory, kp: Bits, up: Bits, kv: Bits, uStart: nat): Sys
  {
    Sys(BootMemory(m), kp, up, kv, uStart, map[], map[])
  }

  /** setup_page clears only the directory, so the 255 kernel tables must have been zero. */
  lemma BootInv(m: Memory, kp: Bits, up: Bits, kv: Bits, uStart: nat)
    requires Geometry(Boot(m, kp, up, kv, uStart))
    requires forall f: Frame :: KTABLE0 <= f < POOL0 ==> ZeroWords(m, f)
    requires forall j :: 0 <= j < 8 * kp.len ==> !kp.v[j]
    requires forall j :: 0 <= j < 8 * up.len ==> !up.v[j]
    requires forall j :: 0 <= j < 8 * kv.len ==> !kv.v[j]
    ensures Inv(Boot(m, kp, up, kv, uStart))
  {
    var s := Boot(m, kp, up, kv, uStart);
    assert DirOk(s.m, DIR0);
    forall o ensures !Active(s, o) {
      if Typed(s, o) {
        var h := Home(s, o);
        assert ZeroWords(m, h) && Entry(m, h, Idx(o)) == 0;
      }
    }
  }
}
