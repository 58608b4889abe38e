/** The loads and stores of list.c and of the arena headers, over module MemoryManager's machine: links
    and headers are words of mapped pages, reached through their virtual addresses. */
module HeapStore {
  import opened Paging
  import opened Frames
  import opened Pages
  import opened PageAlloc
  import opened MemoryManager
  import opened Slabs
  import opened Heaps
  import opened HeapLinks
  import opened HeapWords

  /** The descriptors of a kernel's heap lie below it, those of a process in its PCB, above 3 GB. */
  predicate EnvOk(pf: Pf, base: nat)
  {
    if pf.Kernel? then base + DESC_SIZE * DESC_CNT <= KHEAP_VP * PG_SIZE
    else KERNEL_VP * PG_SIZE <= base && base + DESC_SIZE * DESC_CNT <= 0x1_0000_0000
  }

  function EnvOf(pf: Pf, base: nat): Env
  {
    Env(base, PageOf(pf, 0) * PG_SIZE)
  }

  /** The virtual address of word i of a page. */
  function WordAddr(pf: Pf, k: nat, i: nat): nat
  {
    PageOf(pf, k) * PG_SIZE + i * 4
  }

  lemma PageInSpace(s: Sys, pf: Pf, k: nat)
    requires Core(s) && LiveAt(s, pf, k)
    ensures if pf.Kernel? then KHEAP_VP <= PageOf(pf, k) < 1023 * 1024 else PageOf(pf, k) < KERNEL_VP
  {
  }

  /** Sentinels that point at each other are empty lists. */
  lemma EmptyLinked(env: Env, st: Store)
    requires forall c: Class :: NextOf(HeadOf(c)) in st && PrevOf(TailOf(c)) in st
    requires forall c: Class :: st[NextOf(HeadOf(c))] == Addr(env, TailOf(c))
    requires forall c: Class :: st[PrevOf(TailOf(c))] == Addr(env, HeadOf(c))
    ensures Linked(env, st, seq(DESC_CNT, _ => []))
  {
    var free: seq<seq<Ptr>> := seq(DESC_CNT, _ => []);
    forall c: Class ensures ListOk(env, st, free, c) {
      var nodes := Nodes(c, []);
      forall i: nat | i + 1 < |nodes| ensures LinkAt(env, st, nodes, i) { assert i == 0; }
    }
    forall c: Class, d: Class, b: Ptr ensures OnOne(free, c, d, b) { }
  }

  /** Of a linked list's node i and the next one: their words exist and point at each other. */
  lemma LinkNode(env: Env, st: Store, s: Sys, pf: Pf, ends: seq<Ends>, arenas: map<nat, Arena>,
                 free: seq<seq<Ptr>>, c: Class, i: nat)
    requires |ends| == DESC_CNT && st == HeapWords.View(s, pf, ends, arenas) && Linked(env, st, free)
    requires i <= |free[c]|
    ensures var a, b := Nodes(c, free[c])[i], Nodes(c, free[c])[i + 1];
            NextOf(a) in st && PrevOf(b) in st && st[NextOf(a)] == Addr(env, b) && st[PrevOf(b)] == Addr(env, a) &&
            ProperNode(arenas, a) && ProperNode(arenas, b) && (a.Blk? || a == HeadOf(c)) && (b.Blk? || b == TailOf(c))
  {
    assert ListOk(env, st, free, c);
    NodesAt(c, free[c]);
    assert LinkAt(env, st, Nodes(c, free[c]), i);
  }

  /** Addresses tell nodes apart. */
  lemma AddrsDiffer(s: Sys, pf: Pf, base: nat, arenas: map<nat, Arena>, a: Node, b: Node)
    requires EnvOk(pf, base) && Placed(s, pf, arenas) && ProperNode(arenas, a) && ProperNode(arenas, b)
    ensures Addr(EnvOf(pf, base), a) == Addr(EnvOf(pf, base), b) ==> a == b
    ensures 0 < Addr(EnvOf(pf, base), a) && Addr(EnvOf(pf, base), a) + 8 <= 0x1_0000_0000
  {
    if a.Blk? { BlockAddr(s, pf, base, arenas, a.p); }
    if b.Blk? { BlockAddr(s, pf, base, arenas, b.p); }
  }

  lemma BlockAddr(s: Sys, pf: Pf, base: nat, arenas: map<nat, Arena>, p: Ptr)
    requires EnvOk(pf, base) && Placed(s, pf, arenas) && ProperNode(arenas, Blk(p))
    ensures var a := Addr(EnvOf(pf, base), Blk(p));
            HEADER <= p.off && p.off + 8 <= PAGE && p.off % 4 == 0 &&
            a == WordAddr(pf, p.page, p.off / 4) && a + 4 == WordAddr(pf, p.page, p.off / 4 + 1) &&
            p.off / 4 + 1 < 1024 && a == PageOf(pf, p.page) * PG_SIZE + p.off &&
            a / PG_SIZE == PageOf(pf, p.page) && a % PG_SIZE == p.off && a + 8 <= 0x1_0000_0000 &&
            if pf.Kernel? then KHEAP_VP * PG_SIZE <= a else a + 8 <= KERNEL_VP * PG_SIZE
  {
    BlockWords(arenas[p.page].cls, p.page, p);
    assert PlacedAt(s, pf, arenas, p.page);
    PageInSpace(s, pf, p.page);
  }

  /** The load of a word of a mapped page. */
  method ReadWord(mc: Machine, a: Word, ghost pf: Pf, ghost k: nat, ghost i: nat) returns (w: Word)
    requires mc.Valid() && mc.RunningAs(pf) && Core(mc.Abs()) && LiveAt(mc.Abs(), pf, k) && i < 1024
    requires k <= 8 * VBits(mc.Abs(), pf).len && a == WordAddr(pf, k, i)
    ensures w == Entry(mc.Abs().m, FrameAt(mc.Abs(), pf, k), i)
  {
    PageShown(mc.Abs(), mc.cr3, pf, k);
    WalkWord(mc.ram[..], mc.cr3, PageOf(pf, k), FrameAt(mc.Abs(), pf, k), i, a);
    w := mc.Load(a);
  }

  method WriteWord(mc: Machine, a: Word, w: Word, ghost pf: Pf, ghost k: nat, ghost i: nat)
    requires mc.Valid() && mc.RunningAs(pf) && Core(mc.Abs()) && LiveAt(mc.Abs(), pf, k) && i < 1024
    requires k <= 8 * VBits(mc.Abs(), pf).len && a == WordAddr(pf, k, i)
    modifies mc.ram
    ensures mc.Abs() == Stored(old(mc.Abs()), pf, k, i, w)
  {
    PageShown(mc.Abs(), mc.cr3, pf, k);
    WalkWord(mc.ram[..], mc.cr3, PageOf(pf, k), FrameAt(mc.Abs(), pf, k), i, a);
    mc.Store(a, w);
  }

  class Links {
    const machine: Machine
    const pf: Pf
    const base: nat
    var ends: seq<Ends>                 // the sentinels of the seven descriptors
    ghost var arenas: map<nat, Arena>   // which pages hold headers and blocks

    ghost predicate Ready()
      reads this, machine, machine.ram, machine.kernelPool.bits, machine.userPool.bits, machine.kernelVaddr.bits
    {
      machine.Valid() && machine.RunningAs(pf) && Placed(machine.Abs(), pf, arenas) &&
      |ends| == DESC_CNT && EnvOk(pf, base)
    }

    ghost function View(): Store
      requires machine.Valid() && |ends| == DESC_CNT
      reads this, machine, machine.ram, machine.kernelPool.bits, machine.userPool.bits, machine.kernelVaddr.bits
    {
      HeapWords.View(machine.Abs(), pf, ends, arenas)
    }

    /** list_init of the seven lists. */
    constructor (mc: Machine, flag: Pf, descs: nat)
      requires mc.Valid() && mc.RunningAs(flag) && Inv(mc.Abs()) && Usable(mc.Abs(), flag) && EnvOk(flag, descs)
      ensures machine == mc && pf == flag && base == descs && arenas == map[] && Ready()
      ensures Linked(EnvOf(pf, base), View(), seq(DESC_CNT, _ => []))
    {
      machine, pf, base, arenas := mc, flag, descs, map[];
      var made: seq<Ends> := [];
      for c := 0 to DESC_CNT
        invariant |made| == c
        invariant forall d :: 0 <= d < c ==>
                    made[d] == Ends(descs + DESC_SIZE * d + 16, descs + DESC_SIZE * d + 8)
      {
        made := made + [Ends(descs + DESC_SIZE * c + 16, descs + DESC_SIZE * c + 8)];
      }
      ends := made;
      new;
      EmptyLinked(EnvOf(pf, base), View());
    }

    function HeadAddr(c: Class): (a: Word)
      requires EnvOk(pf, base)
      ensures a == Addr(EnvOf(pf, base), HeadOf(c))
    {
      base + DESC_SIZE * c + 8
    }

    function TailAddr(c: Class): (a: Word)
      requires EnvOk(pf, base)
      ensures a == Addr(EnvOf(pf, base), TailOf(c))
    {
      base + DESC_SIZE * c + 16
    }

    /** a->next, for a node a of list c. */
    method Next(c: Class, a: Word, ghost n: Node) returns (w: Word)
      requires Ready() && ProperNode(arenas, n) && (n.Blk? || n == HeadOf(c)) && a == Addr(EnvOf(pf, base), n)
      ensures NextOf(n) in View() && w == View()[NextOf(n)]
    {
      AddrsDiffer(machine.Abs(), pf, base, arenas, n, HeadOf(c));
      if a == HeadAddr(c) {
        w := ends[c].next;
      } else {
        BlockAddr(machine.Abs(), pf, base, arenas, n.p);
        assert PlacedAt(machine.Abs(), pf, arenas, n.p.page);
        w := ReadWord(machine, a + 4, pf, n.p.page, n.p.off / 4 + 1);
      }
    }

    /** a->prev */
    method Prev(c: Class, a: Word, ghost n: Node) returns (w: Word)
      requires Ready() && ProperNode(arenas, n) && (n.Blk? || n == TailOf(c)) && a == Addr(EnvOf(pf, base), n)
      ensures PrevOf(n) in View() && w == View()[PrevOf(n)]
    {
      AddrsDiffer(machine.Abs(), pf, base, arenas, n, TailOf(c));
      if a == TailAddr(c) {
        w := ends[c].prev;
      } else {
        BlockAddr(machine.Abs(), pf, base, arenas, n.p);
        assert PlacedAt(machine.Abs(), pf, arenas, n.p.page);
        w := ReadWord(machine, a, pf, n.p.page, n.p.off / 4);
      }
    }

    /** One store to a word of a header or of a block. */
    method Write(a: Word, w: Word, ghost cell: Cell)
      requires Ready() && Proper(arenas, cell) && InMemory(cell) && CellIndex(cell) < 1024
      requires a == WordAddr(pf, CellPage(cell), CellIndex(cell))
      modifies machine.ram
      ensures Ready() && View() == old(View())[cell := w] && Wrote(old(machine.Abs()), machine.Abs(), pf, arenas)
      ensures machine.Abs() == Stored(old(machine.Abs()), pf, CellPage(cell), CellIndex(cell), w)
    {
      ghost var s := machine.Abs();
      StoreView(s, pf, ends, arenas, cell, w);
      WroteOne(s, pf, arenas, cell, w);
      assert PlacedAt(s, pf, arenas, CellPage(cell));
      WriteWord(machine, a, w, pf, CellPage(cell), CellIndex(cell));
    }

    /** a->next = w */
    method SetNext(c: Class, a: Word, w: Word, ghost n: Node)
      requires Ready() && ProperNode(arenas, n) && (n.Blk? || n == HeadOf(c)) && a == Addr(EnvOf(pf, base), n)
      modifies this`ends, machine.ram
      ensures Ready() && View() == old(View())[NextOf(n) := w] && Wrote(old(machine.Abs()), machine.Abs(), pf, arenas)
    {
      AddrsDiffer(machine.Abs(), pf, base, arenas, n, HeadOf(c));
      if a == HeadAddr(c) {
        WroteNone(machine.Abs(), pf, arenas);
        EndsView(machine.Abs(), pf, ends, arenas, c, w);
        ends := ends[c := Ends(w, ends[c].prev)];
      } else {
        BlockAddr(machine.Abs(), pf, base, arenas, n.p);
        Write(a + 4, w, NextOf(n));
      }
    }

    /** a->prev = w */
    method SetPrev(c: Class, a: Word, w: Word, ghost n: Node)
      requires Ready() && ProperNode(arenas, n) && (n.Blk? || n == TailOf(c)) && a == Addr(EnvOf(pf, base), n)
      modifies this`ends, machine.ram
      ensures Ready() && View() == old(View())[PrevOf(n) := w] && Wrote(old(machine.Abs()), machine.Abs(), pf, arenas)
    {
      AddrsDiffer(machine.Abs(), pf, base, arenas, n, TailOf(c));
      if a == TailAddr(c) {
        WroteNone(machine.Abs(), pf, arenas);
        EndsView(machine.Abs(), pf, ends, arenas, c, w);
        ends := ends[c := Ends(ends[c].next, w)];
      } else {
        BlockAddr(machine.Abs(), pf, base, arenas, n.p);
        Write(a, w, PrevOf(n));
      }
    }

    // ----- headers -----

    method LoadHeader(k: nat, i: nat) returns (w: Word)
      requires Ready() && k in arenas && i < 3
      ensures Hdr(k, i) in View() && w == View()[Hdr(k, i)]
    {
      assert PlacedAt(machine.Abs(), pf, arenas, k);
      PageInSpace(machine.Abs(), pf, k);
      w := ReadWord(machine, WordAddr(pf, k, i), pf, k, i);
    }

    method StoreHeader(k: nat, i: nat, w: Word)
      requires Ready() && k in arenas && i < 3
      modifies machine.ram
      ensures Ready() && View() == old(View())[Hdr(k, i) := w] && Wrote(old(machine.Abs()), machine.Abs(), pf, arenas)
      ensures machine.Abs() == Stored(old(machine.Abs()), pf, k, i, w)
    {
      assert PlacedAt(machine.Abs(), pf, arenas, k);
      PageInSpace(machine.Abs(), pf, k);
      Write(WordAddr(pf, k, i), w, Hdr(k, i));
    }

    /** All three words of a header, in that order. */
    method StoreHeaders(k: nat, i: nat, v: Word, j: nat, w: Word, l: nat, x: Word)
      requires Ready() && k in arenas && i < 3 && j < 3 && l < 3
      modifies machine.ram
      ensures Ready() && Wrote(old(machine.Abs()), machine.Abs(), pf, arenas)
      ensures View() == old(View())[Hdr(k, i) := v][Hdr(k, j) := w][Hdr(k, l) := x]
    {
      ghost var s := machine.Abs();
      StoreHeader(k, i, v);
      ghost var s1 := machine.Abs();
      StoreHeader(k, j, w);
      WroteTwice(s, s1, machine.Abs(), pf, arenas);
      ghost var s2 := machine.Abs();
      StoreHeader(k, l, x);
      WroteTwice(s, s2, machine.Abs(), pf, arenas);
    }

    // ----- list.c -----

    /** list_empty */
    method Empty(c: Class, ghost free: seq<seq<Ptr>>) returns (r: bool)
      requires Ready() && Linked(EnvOf(pf, base), View(), free)
      ensures r <==> free[c] == []
    {
      LinkNode(EnvOf(pf, base), View(), machine.Abs(), pf, ends, arenas, free, c, 0);
      NodesAt(c, free[c]);
      ghost var first := Nodes(c, free[c])[1];
      AddrsDiffer(machine.Abs(), pf, base, arenas, first, TailOf(c));
      var w := Next(c, HeadAddr(c), HeadOf(c));
      r := w == TailAddr(c);
    }

    /** list_insert_before the tail. */
    method Append(c: Class, e: Word, ghost b: Ptr, ghost free: seq<seq<Ptr>>)
      requires Ready() && Linked(EnvOf(pf, base), View(), free) && ProperNode(arenas, Blk(b))
      requires e == Addr(EnvOf(pf, base), Blk(b)) && forall d: Class :: b !in free[d]
      modifies this`ends, machine.ram
      ensures Ready() && Wrote(old(machine.Abs()), machine.Abs(), pf, arenas)
      ensures View() == Appended(EnvOf(pf, base), old(View()), c, free[c], b)
    {
      ghost var last := Nodes(c, free[c])[|free[c]|];
      LinkNode(EnvOf(pf, base), View(), machine.Abs(), pf, ends, arenas, free, c, |free[c]|);
      NodesAt(c, free[c]);
      InsertBefore(c, TailAddr(c), e, last, b);
    }

    /** list_insert_before, the node before the tail being a. */
    method InsertBefore(c: Class, before: Word, e: Word, ghost a: Node, ghost b: Ptr)
      requires Ready() && ProperNode(arenas, Blk(b)) && e == Addr(EnvOf(pf, base), Blk(b)) && before == TailAddr(c)
      requires ProperNode(arenas, a) && (a.Blk? || a == HeadOf(c)) && a != Blk(b)
      requires PrevOf(TailOf(c)) in View() && View()[PrevOf(TailOf(c))] == Addr(EnvOf(pf, base), a)
      modifies this`ends, machine.ram
      ensures Ready() && Wrote(old(machine.Abs()), machine.Abs(), pf, arenas)
      ensures View() == Inserted(EnvOf(pf, base), old(View()), a, Blk(b), TailOf(c))
    {
      ghost var s := machine.Abs();
      var prev := Prev(c, before, TailOf(c));
      SetNext(c, prev, e, a);
      ghost var s1 := machine.Abs();
      prev := Prev(c, before, TailOf(c));
      OwnLinks(c, e, prev, before, b);
      WroteTwice(s, s1, machine.Abs(), pf, arenas);
      ghost var s2 := machine.Abs();
      SetPrev(c, before, e, TailOf(c));
      WroteTwice(s, s2, machine.Abs(), pf, arenas);
    }

    /** elem->prev and elem->next */
    method OwnLinks(c: Class, e: Word, prev: Word, next: Word, ghost b: Ptr)
      requires Ready() && ProperNode(arenas, Blk(b)) && e == Addr(EnvOf(pf, base), Blk(b))
      modifies this`ends, machine.ram
      ensures Ready() && Wrote(old(machine.Abs()), machine.Abs(), pf, arenas)
      ensures View() == old(View())[PrevOf(Blk(b)) := prev][NextOf(Blk(b)) := next]
    {
      ghost var s := machine.Abs();
      SetPrev(c, e, prev, Blk(b));
      ghost var s1 := machine.Abs();
      SetNext(c, e, next, Blk(b));
      WroteTwice(s, s1, machine.Abs(), pf, arenas);
    }

    /** list_remove */
    method Remove(c: Class, e: Word, ghost i: nat, ghost free: seq<seq<Ptr>>)
      requires Ready() && Linked(EnvOf(pf, base), View(), free) && i < |free[c]|
      requires e == Addr(EnvOf(pf, base), Blk(free[c][i]))
      modifies this`ends, machine.ram
      ensures Ready() && Wrote(old(machine.Abs()), machine.Abs(), pf, arenas)
      ensures View() == Removed(EnvOf(pf, base), old(View()), c, free[c], i)
    {
      ghost var nodes, s := Nodes(c, free[c]), machine.Abs();
      LinkNode(EnvOf(pf, base), View(), machine.Abs(), pf, ends, arenas, free, c, i);
      LinkNode(EnvOf(pf, base), View(), machine.Abs(), pf, ends, arenas, free, c, i + 1);
      NodesAt(c, free[c]);
      var prev := Prev(c, e, nodes[i + 1]);
      var next := Next(c, e, nodes[i + 1]);
      SetNext(c, prev, next, nodes[i]);
      ghost var s1 := machine.Abs();
      SetPrev(c, next, prev, nodes[i + 2]);
      WroteTwice(s, s1, machine.Abs(), pf, arenas);
    }

    /** list_pop */
    method Pop(c: Class, ghost free: seq<seq<Ptr>>) returns (e: Word)
      requires Ready() && Linked(EnvOf(pf, base), View(), free) && free[c] != []
      modifies this`ends, machine.ram
      ensures Ready() && Wrote(old(machine.Abs()), machine.Abs(), pf, arenas)
      ensures View() == Removed(EnvOf(pf, base), old(View()), c, free[c], 0)
      ensures ProperNode(arenas, Blk(free[c][0])) && e == Addr(EnvOf(pf, base), Blk(free[c][0]))
    {
      LinkNode(EnvOf(pf, base), View(), machine.Abs(), pf, ends, arenas, free, c, 0);
      NodesAt(c, free[c]);
      e := Next(c, HeadAddr(c), HeadOf(c));
      Remove(c, e, 0, free);
    }

    /** elem is the list's node after i blocks. */
    ghost predicate Past(c: Class, list: seq<Ptr>, elem: Word, i: nat)
      requires EnvOk(pf, base)
      reads this
    {
      i <= |list| && elem == Addr(EnvOf(pf, base), Nodes(c, list)[i + 1]) && (elem == TailAddr(c) <==> i == |list|) &&
      (i < |list| ==> ProperNode(arenas, Blk(list[i])) && elem == Addr(EnvOf(pf, base), Blk(list[i])))
    }

    /** node i's next, of a list's node i */
    method Follow(c: Class, a: Word, ghost i: nat, ghost free: seq<seq<Ptr>>) returns (w: Word)
      requires Ready() && Linked(EnvOf(pf, base), View(), free) && i <= |free[c]|
      requires a == Addr(EnvOf(pf, base), Nodes(c, free[c])[i])
      ensures Past(c, free[c], w, i)
    {
      LinkNode(EnvOf(pf, base), View(), machine.Abs(), pf, ends, arenas, free, c, i);
      NodesAt(c, free[c]);
      AddrsDiffer(machine.Abs(), pf, base, arenas, Nodes(c, free[c])[i + 1], TailOf(c));
      w := Next(c, a, Nodes(c, free[c])[i]);
    }

    /** One comparison of elem_find's loop, and the next node. */
    method Compare(c: Class, elem: Word, e: Word, ghost i: nat, ghost b: Ptr, ghost free: seq<seq<Ptr>>)
      returns (same: bool, next: Word)
      requires Ready() && Linked(EnvOf(pf, base), View(), free) && ProperNode(arenas, Blk(b))
      requires e == Addr(EnvOf(pf, base), Blk(b)) && Past(c, free[c], elem, i) && i < |free[c]|
      requires b !in free[c][..i]
      ensures Past(c, free[c], next, i + 1)
      ensures if same then b in free[c] else b !in free[c][..i + 1]
    {
      AddrsDiffer(machine.Abs(), pf, base, arenas, Blk(free[c][i]), Blk(b));
      same := elem == e;
      assert free[c][..i + 1] == free[c][..i] + [free[c][i]];
      next := Follow(c, elem, i + 1, free);
    }

    /** elem_find */
    method Find(c: Class, e: Word, ghost b: Ptr, ghost free: seq<seq<Ptr>>) returns (found: bool)
      requires Ready() && Linked(EnvOf(pf, base), View(), free) && ProperNode(arenas, Blk(b))
      requires e == Addr(EnvOf(pf, base), Blk(b))
      ensures found <==> b in free[c]
    {
      ghost var i := 0;
      var elem := Follow(c, HeadAddr(c), 0, free);
      while elem != TailAddr(c)
        invariant i <= |free[c]| && Past(c, free[c], elem, i) && b !in free[c][..i]
        decreases |free[c]| - i
      {
        var same, next := Compare(c, elem, e, i, b, free);
        if same { return true; }
        elem := next;
        i := i + 1;
      }
      assert free[c][..i] == free[c];
      found := false;
    }
  }
}
