/** From power-on: setup_page and mem_pool_init make a good machine, and every run from there on,
    of pages or of the kernel's heap, stays good. */
module Booting {
  import opened Bitmaps
  import opened Paging
  import opened Frames
  import opened Pages
  import opened PageRuns
  import opened MemoryManager
  import opened Slabs
  import opened Heaps
  import opened HeapRuns
  import opened HeapCode

  /** setup_page, then mem_pool_init. The tables setup_page does not clear must have been zero. */
  method Start(mem: array<Word>, allMem: Word, kbits: array<Byte>, ubits: array<Byte>, vbits: array<Byte>)
    returns (mc: Machine)
    requires mem.Length == WORDS && kbits != ubits && kbits != vbits && ubits != vbits
    requires (mem as object) !in {kbits as object, ubits as object, vbits as object}
    requires KernelFree(allMem) / 8 < kbits.Length && UserFree(allMem) / 8 < ubits.Length
    requires KernelFree(allMem) / 8 < vbits.Length
    requires forall f: Frame :: KTABLE0 <= f < POOL0 ==> ZeroWords(mem[..], f)
    modifies mem, kbits, ubits, vbits
    ensures mc.Valid() && mc.ram == mem && mc.cr3 == DIR0 && Inv(mc.Abs()) && mc.Abs().own == map[]
  {
    ghost var m, kb, ub, vb := mem[..], BitsOf(kbits[..]), BitsOf(ubits[..]), BitsOf(vbits[..]);
    SetupPage(mem);
    mc := new Machine(mem, allMem, kbits, ubits, vbits);
    ghost var k, u := KernelFree(allMem) / 8, UserFree(allMem) / 8;
    InitInv(m, allMem, Bits(kb, k), Bits(ub, u), Bits(vb, k));
    assert mc.Abs()
        == Boot(m, Cleared(Bits(kb, k)), Cleared(Bits(ub, u)), Cleared(Bits(vb, k)), POOL0 + KernelFree(allMem));
  }

  /** The state Start leaves, as a value. */
  predicate Booted(s: Sys, m: Memory, allMem: Word, kb: Bits, ub: Bits, vb: Bits)
  {
    kb.len == vb.len == KernelFree(allMem) / 8 && ub.len == UserFree(allMem) / 8 &&
    8 * kb.len < |kb.v| && 8 * ub.len < |ub.v| && 8 * vb.len < |vb.v| &&
    s == Boot(m, Cleared(kb), Cleared(ub), Cleared(vb), POOL0 + KernelFree(allMem))
  }

  /** Whatever is allocated, freed, created and stored after boot: bitmaps, owners, page tables and
      virtual bits agree. */
  lemma RunFromBoot(s: Sys, m: Memory, allMem: Word, kb: Bits, ub: Bits, vb: Bits, ops: seq<Op>, r: Sys)
    requires Booted(s, m, allMem, kb, ub, vb) && forall f: Frame :: KTABLE0 <= f < POOL0 ==> ZeroWords(m, f)
    ensures Inv(s) && (Runs(s, ops, r) ==> Inv(r))
  {
    InitInv(m, allMem, kb, ub, vb);
    if Runs(s, ops, r) { RunKeeps(s, ops, r); }
  }

  /** And every directory that exists by then maps the kernel half alike. */
  lemma SharedFromBoot(s: Sys, m: Memory, allMem: Word, kb: Bits, ub: Bits, vb: Bits, ops: seq<Op>, r: Sys,
                       d: Frame, e: Frame, vp: Page)
    requires Booted(s, m, allMem, kb, ub, vb) && forall f: Frame :: KTABLE0 <= f < POOL0 ==> ZeroWords(m, f)
    requires IsDir(r, d) && IsDir(r, e) && KERNEL_VP <= vp < 1023 * 1024
    ensures Inv(s) && (Runs(s, ops, r) ==> WalkPage(r.m, d, vp) == WalkPage(r.m, e, vp) && HasTable(r.m, d, vp))
  {
    InitInv(m, allMem, kb, ub, vb);
    if Runs(s, ops, r) { KernelHalfShared(s, ops, r, d, e, vp); }
  }

  /** The kernel's heap from boot: good after any run of calls, and when all is freed nothing is left
      of it, in the lists, the owners or the three bitmaps. */
  lemma HeapFromBoot(s: Sys, m: Memory, allMem: Word, kb: Bits, ub: Bits, vb: Bits, calls: seq<Call>, r: Heap)
    requires Booted(s, m, allMem, kb, ub, vb) && forall f: Frame :: KTABLE0 <= f < POOL0 ==> ZeroWords(m, f)
    ensures var h := Heap(s, Slab(map[], seq(DESC_CNT, _ => []), map[]));
            HeapInv(h, Kernel) &&
            (HeapRun(h, Kernel, KernelFree(allMem) * PG_SIZE, calls, r) ==>
               HeapInv(r, Kernel) &&
               ((forall i :: 0 <= i < |calls| ==> OwnCall(calls[i])) && r.slab.live == map[] ==>
                  r.slab == h.slab && r.sys.own == map[] && r.sys.kp == s.kp && r.sys.up == s.up &&
                  r.sys.kv.len == s.kv.len && forall b :: 0 <= b < 8 * s.kv.len ==> !r.sys.kv.v[b]))
  {
    InitInv(m, allMem, kb, ub, vb);
    EmptyOk(s, Kernel);
    var h := Heap(s, Slab(map[], seq(DESC_CNT, _ => []), map[]));
    var size := KernelFree(allMem) * PG_SIZE;
    if HeapRun(h, Kernel, size, calls, r) {
      HeapRunKeeps(h, Kernel, size, calls, r);
      if (forall i :: 0 <= i < |calls| ==> OwnCall(calls[i])) && r.slab.live == map[] {
        HeapRunConserves(h, Kernel, size, calls, r);
        BitmapsRestored(h, Kernel, size, calls, r);
        assert r.slab.free == h.slab.free;
      }
    }
  }
}
