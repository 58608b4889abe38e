/** Two-level page tables (32-bit paging, section 4.3 of the Intel SDM Volume 3A) and the
    self-map through which kernel/memory.c edits them. */
module Paging {

  const PG_SIZE := 4096
  const FRAMES := 0x10_0000        // page frames of the 4 GB physical address space
  const WORDS := 0x4000_0000       // 32-bit words in it

  type Word = w: int | 0 <= w < 0x1_0000_0000
  type Frame = f: int | 0 <= f < FRAMES
  type Page = p: int | 0 <= p < FRAMES
  type Memory = m: seq<Word> | |m| == WORDS
    ghost witness seq(WORDS, _ => 0)

  datatype Walked = Fault | At(addr: Word)

  predicate Present(w: Word)
  {
    w % 2 == 1
  }

  /** The R/W and U/S flags (section 4.6 of the SDM) of a present entry are set, and of the nine other
      flag bits none. */
  predicate UserWord(w: Word)
  {
    Present(w) && w / 2 % 2 == 1 && w / 4 % 2 == 1 && w % PG_SIZE < 8
  }

  function FrameOf(w: Word): Frame
  {
    w / PG_SIZE
  }

  /** phyaddr | PG_US_U | PG_RW_W | PG_P_1 for a page-aligned address. */
  function Pte(f: Frame): (w: Word)
    ensures Present(w) && FrameOf(w) == f
  {
    f * PG_SIZE + 7
  }

  lemma PteForUser(f: Frame)
    ensures UserWord(Pte(f))
  {
  }

  /** *pte &= ~PG_P_1 */
  function Dropped(w: Word): (r: Word)
    ensures !Present(r) && r / 2 == w / 2 && FrameOf(r) == FrameOf(w)
  {
    w - w % 2
  }

  function Entry(m: Memory, f: Frame, i: nat): Word
    requires i < 1024
  {
    m[f * 1024 + i]
  }

  function PdeIdx(vaddr: Word): nat
  {
    vaddr / 0x40_0000
  }

  function PteIdx(vaddr: Word): nat
  {
    vaddr / 0x1000 % 1024
  }

  /** The processor's translation of a page: directory entry, then table entry. */
  function WalkPage(m: Memory, dir: Frame, vp: Page): Walked
  {
    var pde := Entry(m, dir, vp / 1024);
    if !Present(pde) then Fault
    else
      var pte := Entry(m, FrameOf(pde), vp % 1024);
      if !Present(pte) then Fault else At(FrameOf(pte) * PG_SIZE)
  }

  /** The processor's check of a write in user mode (section 4.6): present, writable and for the user
      in the directory entry and in the table entry. */
  predicate UserMayWrite(m: Memory, dir: Frame, vp: Page)
  {
    var pde := Entry(m, dir, vp / 1024);
    var pte := Entry(m, FrameOf(pde), vp % 1024);
    pde % 2 == 1 && pde / 2 % 2 == 1 && pde / 4 % 2 == 1 && pte % 2 == 1 && pte / 2 % 2 == 1 && pte / 4 % 2 == 1
  }

  function Walk(m: Memory, dir: Frame, vaddr: Word): Walked
  {
    match WalkPage(m, dir, vaddr / PG_SIZE)
    case Fault => Fault
    case At(a) => Walked.At(a / PG_SIZE * PG_SIZE + vaddr % PG_SIZE)
  }

  /** A word of a mapped page. */
  lemma WalkWord(m: Memory, dir: Frame, vp: Page, f: Frame, i: nat, vaddr: Word)
    requires WalkPage(m, dir, vp) == Walked.At(f * PG_SIZE) && i < 1024 && vaddr == vp * PG_SIZE + i * 4
    ensures vaddr % 4 == 0 && Walk(m, dir, vaddr).At? && Walk(m, dir, vaddr).addr / 4 == f * 1024 + i
  {
    PageAndOffset(vp, i);
    PageAndOffset(f, i);
  }

  lemma PageAndOffset(p: Page, i: nat)
    requires i < 1024
    ensures (p * PG_SIZE + i * 4) / PG_SIZE == p && (p * PG_SIZE + i * 4) % PG_SIZE == i * 4
    ensures (p * PG_SIZE + i * 4) % 4 == 0 && (p * PG_SIZE + i * 4) / 4 == p * 1024 + i
    ensures p * PG_SIZE / PG_SIZE * PG_SIZE == p * PG_SIZE
  {
  }

  /** 0xffc00000 + ((vaddr & 0xffc00000) >> 10) + PTE_IDX(vaddr) * 4 */
  function PtePtr(vaddr: Word): Word
  {
    0xffc0_0000 + vaddr / 0x40_0000 * 0x1000 + PteIdx(vaddr) * 4
  }

  /** 0xfffff000 + PDE_IDX(vaddr) * 4 */
  function PdePtr(vaddr: Word): Word
  {
    0xffff_f000 + PdeIdx(vaddr) * 4
  }

  predicate SelfMapped(m: Memory, dir: Frame)
  {
    Entry(m, dir, 1023) == Pte(dir)
  }

  /** With the last directory entry pointing at the directory, the walk of pde_ptr(v) is the
      directory entry of v, and the walk of pte_ptr(v) is its table entry, faulting exactly when v
      has no table. */
  lemma SelfMapExact(m: Memory, dir: Frame, vaddr: Word)
    requires SelfMapped(m, dir)
    ensures Walk(m, dir, PdePtr(vaddr)) == Walked.At(dir * PG_SIZE + PdeIdx(vaddr) * 4)
    ensures var pde := Entry(m, dir, PdeIdx(vaddr));
            Walk(m, dir, PtePtr(vaddr))
            == if Present(pde) then Walked.At(FrameOf(pde) * PG_SIZE + PteIdx(vaddr) * 4) else Fault
  {
    assert PdePtr(vaddr) / PG_SIZE == 1023 * 1024 + 1023;
    assert PdePtr(vaddr) % PG_SIZE == PdeIdx(vaddr) * 4;
    assert PtePtr(vaddr) / PG_SIZE == 1023 * 1024 + PdeIdx(vaddr);
    assert PtePtr(vaddr) % PG_SIZE == PteIdx(vaddr) * 4;
  }

  /** The physical word of a table entry. */
  function PteSlot(m: Memory, dir: Frame, vp: Page): nat
  {
    FrameOf(Entry(m, dir, vp / 1024)) * 1024 + vp % 1024
  }

  predicate HasTable(m: Memory, dir: Frame, vp: Page)
  {
    Present(Entry(m, dir, vp / 1024))
  }

  lemma PageIndices(vp: Page, vaddr: Word)
    requires vaddr == vp * PG_SIZE
    ensures PdeIdx(vaddr) == vp / 1024 && PteIdx(vaddr) == vp % 1024
    ensures PdePtr(vaddr) % 4 == 0 && PtePtr(vaddr) % 4 == 0
  {
    assert vaddr / 0x1000 == vp;
  }

  lemma WordIndex(f: Frame, i: nat, addr: Word)
    requires i < 1024 && addr == f * PG_SIZE + i * 4
    ensures addr / 4 == f * 1024 + i
  {
  }

  /** The words pde_ptr and pte_ptr reach for a page. */
  lemma SelfMapWords(m: Memory, dir: Frame, vp: Page)
    requires SelfMapped(m, dir)
    ensures var pde := Walk(m, dir, PdePtr(vp * PG_SIZE));
            PdePtr(vp * PG_SIZE) % 4 == 0 && pde.At? && pde.addr / 4 == dir * 1024 + vp / 1024
    ensures HasTable(m, dir, vp) ==>
              var pte := Walk(m, dir, PtePtr(vp * PG_SIZE));
              PtePtr(vp * PG_SIZE) % 4 == 0 && pte.At? && pte.addr / 4 == PteSlot(m, dir, vp)
  {
    var vaddr: Word := vp * PG_SIZE;
    PageIndices(vp, vaddr);
    SelfMapExact(m, dir, vaddr);
    WordIndex(dir, vp / 1024, Walk(m, dir, PdePtr(vaddr)).addr);
    if HasTable(m, dir, vp) {
      WordIndex(FrameOf(Entry(m, dir, vp / 1024)), vp % 1024, Walk(m, dir, PtePtr(vaddr)).addr);
    }
  }

  /** page_table_add, first branch. */
  function MapIn(m: Memory, dir: Frame, vp: Page, f: Frame): Memory
  {
    m[PteSlot(m, dir, vp) := Pte(f)]
  }

  function ZeroFrame(m: Memory, f: Frame): Memory
  {
    seq(WORDS, i requires 0 <= i < WORDS => if i / 1024 == f then 0 else m[i])
  }

  /** A new empty table t for the 4 MB of vp. */
  function AddTable(m: Memory, dir: Frame, i: nat, t: Frame): Memory
    requires i < 1024
  {
    ZeroFrame(m, t)[dir * 1024 + i := Pte(t)]
  }

  /** After page_table_add(vp, f) the walk of vp yields f. Seen from any directory d, every other
      page translates as before, except those whose table entry is the very same word. */
  lemma MapInExact(m: Memory, dir: Frame, vp: Page, f: Frame, d: Frame, u: Page)
    requires HasTable(m, dir, vp)
    requires FrameOf(Entry(m, dir, vp / 1024)) != d && FrameOf(Entry(m, dir, vp / 1024)) != dir
    ensures var m' := MapIn(m, dir, vp, f);
            WalkPage(m', dir, vp) == Walked.At(f * PG_SIZE) &&
            WalkPage(m', d, u) == (if HasTable(m, d, u) && PteSlot(m, d, u) == PteSlot(m, dir, vp)
                                   then Walked.At(f * PG_SIZE) else WalkPage(m, d, u))
  {
    var m' := MapIn(m, dir, vp, f);
    assert Entry(m', dir, vp / 1024) == Entry(m, dir, vp / 1024);
    assert Entry(m', d, u / 1024) == Entry(m, d, u / 1024);
  }

  lemma EntryWritten(m: Memory, x: Frame, i: nat, w: Word, y: Frame, j: nat)
    requires i < 1024 && j < 1024
    ensures Entry(m[x * 1024 + i := w], y, j) == if y == x && j == i then w else Entry(m, y, j)
  {
  }

  lemma TableAdded(m: Memory, dir: Frame, i: nat, t: Frame, y: Frame, j: nat)
    requires i < 1024 && j < 1024 && t != dir
    ensures Entry(AddTable(m, dir, i, t), y, j)
            == if y == dir && j == i then Pte(t) else if y == t then 0 else Entry(m, y, j)
  {
    assert (y * 1024 + j) / 1024 == y;
    EntryWritten(ZeroFrame(m, t), dir, i, Pte(t), y, j);
  }

  /** A fresh empty table changes no translation but that of its own page in the self-map window. */
  lemma AddTableExact(m: Memory, dir: Frame, i: nat, t: Frame, u: Page)
    requires SelfMapped(m, dir) && i < 1023 && !Present(Entry(m, dir, i)) && t != dir
    requires forall k :: 0 <= k < 1024 && Present(Entry(m, dir, k)) ==> FrameOf(Entry(m, dir, k)) != t
    requires forall k :: 0 <= k < 1023 && Present(Entry(m, dir, k)) ==> FrameOf(Entry(m, dir, k)) != dir
    ensures WalkPage(AddTable(m, dir, i, t), dir, u)
            == if u == 1023 * 1024 + i then Walked.At(t * PG_SIZE) else WalkPage(m, dir, u)
  {
    TableAdded(m, dir, i, t, dir, u / 1024);
    TableAdded(m, dir, i, t, t, u % 1024);
    TableAdded(m, dir, i, t, FrameOf(Entry(m, dir, u / 1024)), u % 1024);
  }

  /** The second branch: with a fresh table t, the walk of vp yields f and every other page is as
      before, except the one page of the self-map window that now shows t. */
  lemma MapFreshExact(m: Memory, dir: Frame, vp: Page, f: Frame, t: Frame, u: Page)
    requires SelfMapped(m, dir) && !HasTable(m, dir, vp) && t != dir
    requires forall k :: 0 <= k < 1024 && Present(Entry(m, dir, k)) ==> FrameOf(Entry(m, dir, k)) != t
    requires forall k :: 0 <= k < 1023 && Present(Entry(m, dir, k)) ==> FrameOf(Entry(m, dir, k)) != dir
    ensures WalkPage(MapIn(AddTable(m, dir, vp / 1024, t), dir, vp, f), dir, u)
            == if u == vp then Walked.At(f * PG_SIZE)
               else if u == 1023 * 1024 + vp / 1024 then Walked.At(t * PG_SIZE)
               else WalkPage(m, dir, u)
  {
    var i := vp / 1024;
    var a := AddTable(m, dir, i, t);
    AddTableExact(m, dir, i, t, u);
    TableAdded(m, dir, i, t, dir, i);
    TableAdded(m, dir, i, t, dir, u / 1024);
    MapInExact(a, dir, vp, f, dir, u);
  }

  // ----- boot -----

  const DIR0: Frame := 0x100       // the kernel directory, at 1 MB
  const KTABLE0: Frame := 0x101    // its first table; the 254 others follow it

  /** The memory setup_page leaves. */
  function BootMemory(m: Memory): Memory
  {
    seq(WORDS, k requires 0 <= k < WORDS =>
      if k / 1024 == DIR0 then
        var i := k % 1024;
        if i == 0 || i == 768 then Pte(KTABLE0)
        else if i == 1023 then Pte(DIR0)
        else if 769 <= i then Pte(KTABLE0 + (i - 768))
        else 0
      else if k / 1024 == KTABLE0 && k % 1024 < 256 then Pte(k % 1024)
      else m[k])
  }

  /** setup_page, with paging still off. */
  method SetupPage(ram: array<Word>)
    requires ram.Length == WORDS
    modifies ram
    ensures ram[..] == BootMemory(old(ram[..]))
  {
    ghost var m := ram[..];
    for esi := 0 to 1024
      invariant forall k :: 0 <= k < WORDS ==> ram[k] == if DIR0 * 1024 <= k < DIR0 * 1024 + esi then 0 else m[k]
    {
      ram[DIR0 * 1024 + esi] := 0;
    }
    ram[DIR0 * 1024] := Pte(KTABLE0);
    ram[DIR0 * 1024 + 768] := Pte(KTABLE0);
    ram[DIR0 * 1024 + 1023] := Pte(DIR0);
    ghost var m1 := ram[..];
    var edx: Word := 7;
    for esi := 0 to 256
      invariant edx == esi * PG_SIZE + 7
      invariant forall k :: 0 <= k < WORDS ==>
                  ram[k] == if KTABLE0 * 1024 <= k < KTABLE0 * 1024 + esi then Pte(k - KTABLE0 * 1024) else m1[k]
    {
      ram[KTABLE0 * 1024 + esi] := edx;
      edx := edx + PG_SIZE;
    }
    ghost var m2 := ram[..];
    var eax: Word := Pte(DIR0 + 2);
    for esi := 769 to 1023
      invariant eax == Pte(KTABLE0 + (esi - 768))
      invariant forall k :: 0 <= k < WORDS ==>
                  ram[k] == if DIR0 * 1024 + 769 <= k < DIR0 * 1024 + esi
                            then Pte(KTABLE0 + (k - (DIR0 * 1024 + 768))) else m2[k]
    {
      ram[DIR0 * 1024 + esi] := eax;
      eax := eax + PG_SIZE;
    }
  }

  /** In the boot directory entries 0 and 768 name one table, so a page of the first 4 MB of
      kernel space and the page 3 GB below it are one table entry: mapping either maps both. */
  lemma BootAlias(m: Memory, vp: Page, f: Frame)
    requires 0xc0000 <= vp < 0xc0400
    ensures var b := BootMemory(m);
            var m' := MapIn(b, DIR0, vp, f);
            WalkPage(m', DIR0, vp) == WalkPage(m', DIR0, vp - 0xc0000) == Walked.At(f * PG_SIZE)
  {
    var b := BootMemory(m);
    assert Entry(b, DIR0, 768) == Pte(KTABLE0) == Entry(b, DIR0, 0);
    MapInExact(b, DIR0, vp, f, DIR0, vp - 0xc0000);
  }

  /** The low megabyte is mapped to itself and at 3 GB; no user page is mapped. */
  lemma BootWalk(m: Memory, u: Page)
    ensures var b := BootMemory(m);
            SelfMapped(b, DIR0) &&
            (u < 256 ==> WalkPage(b, DIR0, u) == WalkPage(b, DIR0, u + 0xc0000) == Walked.At(u * PG_SIZE)) &&
            (1024 <= u < 0xc0000 ==> WalkPage(b, DIR0, u) == Fault)
  {
  }
}
