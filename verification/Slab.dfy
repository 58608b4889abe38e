/** The block bookkeeping of sys_malloc and sys_free (kernel/memory.c): arenas cut into blocks of
    seven sizes, their free blocks interleaved on one list a size. Addresses are pages and offsets. */
module Slabs {
  import opened Lists

  const PAGE := 4096
  const HEADER := 12       // sizeof(struct arena)
  const DESC_CNT := 7

  type Class = c: int | 0 <= c < DESC_CNT

  function BlockSize(c: Class): nat
  {
    if c == 0 then 16 else if c == 1 then 32 else if c == 2 then 64 else if c == 3 then 128
    else if c == 4 then 256 else if c == 5 then 512 else 1024
  }

  function PerArena(c: Class): (n: nat)
    ensures n >= 3
  {
    (PAGE - HEADER) / BlockSize(c)
  }

  datatype Ptr = Ptr(page: nat, off: nat)

  /** desc and cnt of a small arena, or the page count of a large one. */
  datatype Arena = Small(cls: Class, cnt: nat) | Large(pages: nat)

  /** The arenas by their first page, the free list of every size, and what has been handed out. */
  datatype Slab = Slab(arenas: map<nat, Arena>, free: seq<seq<Ptr>>, live: map<Ptr, nat>)

  function Span(a: Arena): nat
  {
    if a.Small? then 1 else a.pages
  }

  /** sizeof(struct arena) + i * block_size */
  function Off(c: Class, i: nat): nat
  {
    HEADER + (if c == 0 then i * 16 else if c == 1 then i * 32 else if c == 2 then i * 64 else if c == 3 then i * 128
              else if c == 4 then i * 256 else if c == 5 then i * 512 else i * 1024)
  }

  /** arena2block */
  function Block(k: nat, c: Class, i: nat): Ptr
  {
    Ptr(k, Off(c, i))
  }

  /** The blocks of one arena lie one after another behind the header and inside the page. */
  lemma OffsetsApart(c: Class, i: nat, j: nat)
    ensures i < j ==> Off(c, i) + BlockSize(c) <= Off(c, j)
    ensures i < PerArena(c) ==> Off(c, i) + BlockSize(c) <= PAGE
    ensures Off(c, i) % 4 == 0 && Off(c, i) >= HEADER
  {
    PerArenaOf(c);
    OffsetOrder(c, i, j);
    OffsetAligned(c, i);
  }

  lemma PerArenaOf(c: Class)
    ensures PerArena(c) == [255, 127, 63, 31, 15, 7, 3][c]
  {
  }

  lemma OffsetOrder(c: Class, i: nat, j: nat)
    ensures i < j ==> Off(c, i) + BlockSize(c) <= Off(c, j)
  {
    if c < 3 {
      if c == 0 { } else if c == 1 { } else { }
    } else if c < 5 {
      if c == 3 { } else { }
    } else {
      if c == 5 { } else { }
    }
  }

  lemma OffsetAligned(c: Class, i: nat)
    ensures Off(c, i) % 4 == 0
  {
    var q := if c == 0 then i * 4 else if c == 1 then i * 8 else if c == 2 then i * 16 else if c == 3 then i * 32
             else if c == 4 then i * 64 else if c == 5 then i * 128 else i * 256;
    assert Off(c, i) == 4 * (3 + q);
  }

  function FirstBlocks(k: nat, c: Class, n: nat): set<Ptr>
  {
    set i: nat | i < n :: Block(k, c, i)
  }

  function AllBlocks(k: nat, c: Class): set<Ptr>
  {
    FirstBlocks(k, c, PerArena(c))
  }

  lemma {:induction false} FirstBlocksCount(k: nat, c: Class, n: nat)
    ensures |FirstBlocks(k, c, n)| == n
  {
    if n == 0 {
      assert FirstBlocks(k, c, 0) == {};
    } else {
      FirstBlocksCount(k, c, n - 1);
      forall i: nat | i < n - 1 ensures Block(k, c, i) != Block(k, c, n - 1) { OffsetsApart(c, i, n - 1); }
      assert FirstBlocks(k, c, n) == FirstBlocks(k, c, n - 1) + {Block(k, c, n - 1)};
    }
  }

  /** The blocks in the order they are cut. */
  function BlockSeq(k: nat, c: Class): seq<Ptr>
  {
    seq(PerArena(c), i requires 0 <= i < PerArena(c) => Block(k, c, i))
  }

  lemma BlockSeqAll(k: nat, c: Class)
    ensures forall b :: b in BlockSeq(k, c) <==> b in AllBlocks(k, c)
    ensures Distinct(BlockSeq(k, c))
  {
    var s := BlockSeq(k, c);
    forall b | b in AllBlocks(k, c) ensures b in s {
      var i: nat :| i < PerArena(c) && b == Block(k, c, i);
      assert s[i] == b;
    }
    forall i, j | 0 <= i < j < |s| ensures s[i] != s[j] { OffsetsApart(c, i, j); }
  }

  /** The free blocks of one arena. */
  function OnPage(list: seq<Ptr>, k: nat): set<Ptr>
  {
    set b | b in list && b.page == k
  }

  // ----- the invariant -----

  predicate ArenaOk(sl: Slab, k: nat)
    requires |sl.free| == DESC_CNT
  {
    k in sl.arenas ==>
      match sl.arenas[k]
      case Small(c, cnt) =>
        cnt == |OnPage(sl.free[c], k)| && forall b :: b in AllBlocks(k, c) ==> (b in sl.free[c] <==> b !in sl.live)
      case Large(n) => n >= 1 && Ptr(k, HEADER) in sl.live
  }

  predicate FreeOk(sl: Slab, c: Class, b: Ptr)
    requires |sl.free| == DESC_CNT
  {
    b in sl.free[c] ==>
      b.page in sl.arenas && sl.arenas[b.page].Small? && sl.arenas[b.page].cls == c && b in AllBlocks(b.page, c)
  }

  predicate LiveOk(sl: Slab, p: Ptr)
  {
    p in sl.live ==>
      p.page in sl.arenas && 0 < sl.live[p] &&
      match sl.arenas[p.page]
      case Small(c, _) => p in AllBlocks(p.page, c) && sl.live[p] <= BlockSize(c)
      case Large(n) => p.off == HEADER && sl.live[p] + HEADER <= PAGE * n
  }

  predicate ApartAt(sl: Slab, k: nat, l: nat)
  {
    k in sl.arenas && l in sl.arenas && k != l ==>
      k + Span(sl.arenas[k]) <= l || l + Span(sl.arenas[l]) <= k
  }

  /** Every arena counts its free blocks; every block of it is either on its size's list or handed
      out; lists and allocations hold nothing else; arenas do not overlap. */
  ghost predicate SlabOk(sl: Slab)
  {
    |sl.free| == DESC_CNT && (forall c: Class :: Distinct(sl.free[c])) &&
    (forall k: nat {:trigger ArenaOk(sl, k)} :: ArenaOk(sl, k)) &&
    (forall c: Class, b: Ptr {:trigger FreeOk(sl, c, b)} :: FreeOk(sl, c, b)) &&
    (forall p: Ptr {:trigger LiveOk(sl, p)} :: LiveOk(sl, p)) &&
    (forall k: nat, l: nat {:trigger ApartAt(sl, k, l)} :: ApartAt(sl, k, l))
  }

  /** An arena whose blocks are all free does not stay. */
  predicate BusyAt(sl: Slab, k: nat)
  {
    k in sl.arenas && sl.arenas[k].Small? ==> sl.arenas[k].cnt < PerArena(sl.arenas[k].cls)
  }

  ghost predicate Busy(sl: Slab)
  {
    forall k: nat {:trigger BusyAt(sl, k)} :: BusyAt(sl, k)
  }

  ghost predicate BusyBut(sl: Slab, k: nat)
  {
    forall l: nat {:trigger BusyAt(sl, l)} :: l != k ==> BusyAt(sl, l)
  }

  // ----- counting -----

  lemma SubsetSize<T>(a: set<T>, b: set<T>)
    requires a <= b
    ensures |a| <= |b| && (|a| == |b| ==> a == b)
  {
    assert b == a + (b - a);
    assert |b| == |a| + |b - a|;
  }

  /** cnt says how full an arena is: it reaches blocks_per_arena exactly when every block is on the
      list, which is what the ASSERT in sys_free's loop tests block by block. */
  lemma FullIff(sl: Slab, k: nat)
    requires SlabOk(sl) && k in sl.arenas && sl.arenas[k].Small?
    ensures var a := sl.arenas[k];
            a.cnt <= PerArena(a.cls) &&
            (a.cnt == PerArena(a.cls) <==> forall b :: b in AllBlocks(k, a.cls) ==> b in sl.free[a.cls])
  {
    var c := sl.arenas[k].cls;
    assert ArenaOk(sl, k);
    FirstBlocksCount(k, c, PerArena(c));
    forall b | b in OnPage(sl.free[c], k) ensures b in AllBlocks(k, c) { assert FreeOk(sl, c, b); }
    SubsetSize(OnPage(sl.free[c], k), AllBlocks(k, c));
    if forall b :: b in AllBlocks(k, c) ==> b in sl.free[c] {
      assert OnPage(sl.free[c], k) == AllBlocks(k, c);
    }
  }

  // ----- cutting an arena -----

  /** page_cnt == 1: the new arena's blocks, appended in order. */
  function Carve(sl: Slab, k: nat, c: Class): Slab
    requires |sl.free| == DESC_CNT
  {
    sl.(arenas := sl.arenas[k := Small(c, PerArena(c))], free := sl.free[c := sl.free[c] + BlockSeq(k, c)])
  }

  /** Pages that no arena uses. */
  ghost predicate FreshRun(sl: Slab, k: nat, n: nat)
  {
    forall l: nat {:trigger l in sl.arenas} :: l in sl.arenas ==> k + n <= l || l + Span(sl.arenas[l]) <= k
  }

  /** No block of a new arena is on the list yet, so the ASSERT in sys_malloc's loop holds. */
  lemma NewBlocksAbsent(sl: Slab, k: nat, c: Class, b: Ptr)
    requires SlabOk(sl) && FreshRun(sl, k, 1) && b in AllBlocks(k, c)
    ensures b !in sl.free[c] && b !in sl.live && k !in sl.arenas
  {
    assert FreeOk(sl, c, b) && LiveOk(sl, b) && b.page == k;
    assert ArenaOk(sl, k);
  }

  lemma CarveKeeps(sl: Slab, k: nat, c: Class)
    requires SlabOk(sl) && Busy(sl) && FreshRun(sl, k, 1)
    ensures SlabOk(Carve(sl, k, c)) && BusyBut(Carve(sl, k, c), k) && k !in sl.arenas
  {
    var r := Carve(sl, k, c);
    BlockSeqAll(k, c);
    NewBlocksAbsent(sl, k, c, Block(k, c, 0));
    forall b | b in AllBlocks(k, c) ensures b !in sl.free[c] && b !in sl.live { NewBlocksAbsent(sl, k, c, b); }
    AppendDistinct(sl.free[c], BlockSeq(k, c));
    forall l: nat ensures ArenaOk(r, l) { CarveArena(sl, k, c, l); }
    forall d: Class, b: Ptr ensures FreeOk(r, d, b) {
      assert FreeOk(sl, d, b);
    }
    forall p: Ptr ensures LiveOk(r, p) { assert LiveOk(sl, p); }
    forall l: nat, n: nat ensures ApartAt(r, l, n) { assert ApartAt(sl, l, n); }
    forall l: nat ensures l != k ==> BusyAt(r, l) { assert BusyAt(sl, l); }
  }

  lemma AppendDistinct<T>(a: seq<T>, b: seq<T>)
    requires Distinct(a) && Distinct(b) && forall x :: x in b ==> x !in a
    ensures Distinct(a + b)
  {
    var s := a + b;
    forall i, j | 0 <= i < j < |s| ensures s[i] != s[j] {
      if i < |a| <= j { assert b[j - |a|] in b; }
    }
  }

  lemma CarveArena(sl: Slab, k: nat, c: Class, l: nat)
    requires SlabOk(sl) && k !in sl.arenas
    requires forall b :: b in AllBlocks(k, c) ==> b !in sl.free[c] && b !in sl.live
    ensures ArenaOk(Carve(sl, k, c), l)
  {
    var r := Carve(sl, k, c);
    BlockSeqAll(k, c);
    if l == k {
      FirstBlocksCount(k, c, PerArena(c));
      forall b | b in OnPage(r.free[c], k) ensures b in AllBlocks(k, c) { assert FreeOk(sl, c, b); }
      assert OnPage(r.free[c], k) == AllBlocks(k, c);
    } else if l in sl.arenas {
      assert ArenaOk(sl, l);
      if sl.arenas[l].Small? && sl.arenas[l].cls == c {
        assert OnPage(r.free[c], l) == OnPage(sl.free[c], l);
      }
    }
  }

  // ----- handing out a block -----

  /** list_pop, and a->cnt--. */
  function Pop(sl: Slab, c: Class, size: nat): Slab
    requires |sl.free| == DESC_CNT && sl.free[c] != []
    requires sl.free[c][0].page in sl.arenas && sl.arenas[sl.free[c][0].page].Small?
    requires sl.arenas[sl.free[c][0].page].cnt > 0
  {
    var b := sl.free[c][0];
    var a := sl.arenas[b.page];
    Slab(sl.arenas[b.page := Small(a.cls, a.cnt - 1)], sl.free[c := sl.free[c][1..]], sl.live[b := size])
  }

  lemma HeadCounts(sl: Slab, c: Class)
    requires SlabOk(sl) && sl.free[c] != []
    ensures var b := sl.free[c][0];
            b.page in sl.arenas && sl.arenas[b.page].Small? && sl.arenas[b.page].cls == c &&
            sl.arenas[b.page].cnt > 0 && b in AllBlocks(b.page, c) && b !in sl.live && b !in sl.free[c][1..]
  {
    var b := sl.free[c][0];
    assert FreeOk(sl, c, b) && ArenaOk(sl, b.page);
    assert b in OnPage(sl.free[c], b.page);
  }

  lemma PopArena(sl: Slab, c: Class, size: nat, l: nat)
    requires SlabOk(sl) && sl.free[c] != []
    ensures (HeadCounts(sl, c); ArenaOk(Pop(sl, c, size), l))
  {
    HeadCounts(sl, c);
    var b, r := sl.free[c][0], Pop(sl, c, size);
    assert ArenaOk(sl, l);
    if l in sl.arenas && sl.arenas[l].Small? && sl.arenas[l].cls == c {
      assert OnPage(r.free[c], l) == OnPage(sl.free[c], l) - {b};
    }
  }

  lemma PopKeeps(sl: Slab, c: Class, size: nat)
    requires SlabOk(sl) && sl.free[c] != [] && 0 < size <= BlockSize(c) && BusyBut(sl, sl.free[c][0].page)
    ensures (HeadCounts(sl, c); SlabOk(Pop(sl, c, size)) && Busy(Pop(sl, c, size)))
  {
    HeadCounts(sl, c);
    var b, r := sl.free[c][0], Pop(sl, c, size);
    FullIff(sl, b.page);
    forall l: nat ensures ArenaOk(r, l) { PopArena(sl, c, size, l); }
    forall d: Class, x: Ptr ensures FreeOk(r, d, x) { assert FreeOk(sl, d, x); }
    forall p: Ptr ensures LiveOk(r, p) { assert LiveOk(sl, p); }
    forall l: nat, n: nat ensures ApartAt(r, l, n) { assert ApartAt(sl, l, n); }
    forall l: nat ensures BusyAt(r, l) { assert l != b.page ==> BusyAt(sl, l); }
  }

  // ----- taking a block back -----

  /** list_append, and ++a->cnt. */
  function Put(sl: Slab, p: Ptr): Slab
    requires |sl.free| == DESC_CNT && p.page in sl.arenas && sl.arenas[p.page].Small?
  {
    var a := sl.arenas[p.page];
    Slab(sl.arenas[p.page := Small(a.cls, a.cnt + 1)], sl.free[a.cls := sl.free[a.cls] + [p]], sl.live - {p})
  }

  lemma PutArena(sl: Slab, p: Ptr, l: nat)
    requires SlabOk(sl) && p in sl.live && p.page in sl.arenas && sl.arenas[p.page].Small?
    ensures ArenaOk(Put(sl, p), l)
  {
    var r, c := Put(sl, p), sl.arenas[p.page].cls;
    assert ArenaOk(sl, l) && ArenaOk(sl, p.page) && LiveOk(sl, p);
    if l in sl.arenas && sl.arenas[l].Small? && sl.arenas[l].cls == c {
      assert OnPage(r.free[c], l) == if l == p.page then OnPage(sl.free[c], l) + {p} else OnPage(sl.free[c], l);
    }
  }

  lemma PutKeeps(sl: Slab, p: Ptr)
    requires SlabOk(sl) && Busy(sl) && p in sl.live && p.page in sl.arenas && sl.arenas[p.page].Small?
    ensures SlabOk(Put(sl, p)) && BusyBut(Put(sl, p), p.page)
  {
    var r, c := Put(sl, p), sl.arenas[p.page].cls;
    assert ArenaOk(sl, p.page) && LiveOk(sl, p);
    forall l: nat ensures ArenaOk(r, l) { PutArena(sl, p, l); }
    forall d: Class, x: Ptr ensures FreeOk(r, d, x) { assert FreeOk(sl, d, x); }
    forall q: Ptr ensures LiveOk(r, q) { assert LiveOk(sl, q); }
    forall l: nat, n: nat ensures ApartAt(r, l, n) { assert ApartAt(sl, l, n); }
    forall l: nat ensures l != p.page ==> BusyAt(r, l) { assert BusyAt(sl, l); }
  }

  // ----- retiring an arena -----

  /** The loop that takes every block of the arena off the list. */
  function Retire(sl: Slab, k: nat): Slab
    requires |sl.free| == DESC_CNT && k in sl.arenas && sl.arenas[k].Small?
  {
    var c := sl.arenas[k].cls;
    sl.(arenas := sl.arenas - {k}, free := sl.free[c := Without(sl.free[c], AllBlocks(k, c))])
  }

  lemma RetireArena(sl: Slab, k: nat, l: nat)
    requires SlabOk(sl) && k in sl.arenas && sl.arenas[k].Small?
    ensures ArenaOk(Retire(sl, k), l)
  {
    var r, c := Retire(sl, k), sl.arenas[k].cls;
    assert ArenaOk(sl, l);
    WithoutMembers(sl.free[c], AllBlocks(k, c));
    if l != k && l in sl.arenas && sl.arenas[l].Small? && sl.arenas[l].cls == c {
      assert OnPage(r.free[c], l) == OnPage(sl.free[c], l);
    }
  }

  lemma RetireKeeps(sl: Slab, k: nat)
    requires SlabOk(sl) && k in sl.arenas && sl.arenas[k].Small? && BusyBut(sl, k)
    requires sl.arenas[k].cnt == PerArena(sl.arenas[k].cls)
    ensures SlabOk(Retire(sl, k)) && Busy(Retire(sl, k))
  {
    var r, c := Retire(sl, k), sl.arenas[k].cls;
    FullIff(sl, k);
    assert ArenaOk(sl, k);
    WithoutMembers(sl.free[c], AllBlocks(k, c));
    forall l: nat ensures ArenaOk(r, l) { RetireArena(sl, k, l); }
    forall d: Class, x: Ptr ensures FreeOk(r, d, x) { assert FreeOk(sl, d, x); }
    forall q: Ptr ensures LiveOk(r, q) { assert LiveOk(sl, q); }
    forall l: nat, n: nat ensures ApartAt(r, l, n) { assert ApartAt(sl, l, n); }
    forall l: nat ensures BusyAt(r, l) { assert l != k ==> BusyAt(sl, l); }
  }

  // ----- large allocations -----

  function AddLarge(sl: Slab, k: nat, n: nat, size: nat): Slab
  {
    sl.(arenas := sl.arenas[k := Large(n)], live := sl.live[Ptr(k, HEADER) := size])
  }

  lemma AddLargeKeeps(sl: Slab, k: nat, n: nat, size: nat)
    requires SlabOk(sl) && Busy(sl) && n >= 1 && FreshRun(sl, k, n) && 0 < size && size + HEADER <= PAGE * n
    ensures SlabOk(AddLarge(sl, k, n, size)) && Busy(AddLarge(sl, k, n, size)) && k !in sl.arenas
  {
    var r, p := AddLarge(sl, k, n, size), Ptr(k, HEADER);
    assert ArenaOk(sl, k) && LiveOk(sl, p);
    forall l: nat ensures ArenaOk(r, l) { assert ArenaOk(sl, l); }
    forall d: Class, x: Ptr ensures FreeOk(r, d, x) { assert FreeOk(sl, d, x); }
    forall q: Ptr ensures LiveOk(r, q) { assert LiveOk(sl, q); }
    forall l: nat, m: nat ensures ApartAt(r, l, m) { assert ApartAt(sl, l, m); }
    forall l: nat ensures BusyAt(r, l) { assert BusyAt(sl, l); }
  }

  function DropLarge(sl: Slab, p: Ptr): Slab
  {
    sl.(arenas := sl.arenas - {p.page}, live := sl.live - {p})
  }

  lemma DropLargeKeeps(sl: Slab, p: Ptr)
    requires SlabOk(sl) && Busy(sl) && p in sl.live && p.page in sl.arenas && sl.arenas[p.page].Large?
    ensures SlabOk(DropLarge(sl, p)) && Busy(DropLarge(sl, p))
  {
    var r := DropLarge(sl, p);
    assert LiveOk(sl, p);
    forall l: nat ensures ArenaOk(r, l) { assert ArenaOk(sl, l); }
    forall d: Class, x: Ptr ensures FreeOk(r, d, x) { assert FreeOk(sl, d, x); }
    forall q: Ptr ensures LiveOk(r, q) { assert LiveOk(sl, q); }
    forall l: nat, m: nat ensures ApartAt(r, l, m) { assert ApartAt(sl, l, m); }
    forall l: nat ensures BusyAt(r, l) { assert BusyAt(sl, l); }
  }

  // ----- what the invariant says -----

  function Start(p: Ptr): nat
  {
    p.page * PAGE + p.off
  }

  /** The bytes of an allocation lie in its arena, behind the header. */
  lemma LiveInside(sl: Slab, p: Ptr)
    requires SlabOk(sl) && p in sl.live
    ensures p.page in sl.arenas && p.off >= HEADER && p.off % 4 == 0
    ensures Start(p) + sl.live[p] <= (p.page + Span(sl.arenas[p.page])) * PAGE
  {
    assert LiveOk(sl, p);
    match sl.arenas[p.page]
    case Small(c, _) =>
      var i: nat :| i < PerArena(c) && p == Block(p.page, c, i);
      OffsetsApart(c, i, i);
    case Large(n) =>
  }

  /** Allocations do not overlap. */
  lemma LiveDisjoint(sl: Slab, p: Ptr, q: Ptr)
    requires SlabOk(sl) && p in sl.live && q in sl.live && p != q
    ensures Start(p) + sl.live[p] <= Start(q) || Start(q) + sl.live[q] <= Start(p)
  {
    LiveInside(sl, p);
    LiveInside(sl, q);
    assert LiveOk(sl, p) && LiveOk(sl, q);
    if p.page == q.page {
      var c := sl.arenas[p.page].cls;
      var i: nat :| i < PerArena(c) && p == Block(p.page, c, i);
      var j: nat :| j < PerArena(c) && q == Block(q.page, c, j);
      OffsetsApart(c, i, j);
      OffsetsApart(c, j, i);
    } else {
      assert ApartAt(sl, p.page, q.page);
    }
  }

  /** Nothing handed out is on a free list, whole or in part. */
  lemma LiveOffLists(sl: Slab, p: Ptr, c: Class, b: Ptr)
    requires SlabOk(sl) && p in sl.live && b in sl.free[c]
    ensures Start(p) + sl.live[p] <= Start(b) || Start(b) + BlockSize(c) <= Start(p)
  {
    LiveInside(sl, p);
    assert LiveOk(sl, p) && FreeOk(sl, c, b);
    var j: nat :| j < PerArena(c) && b == Block(b.page, c, j);
    OffsetsApart(c, j, j);
    if p.page == b.page {
      assert ArenaOk(sl, p.page);
      var i: nat :| i < PerArena(c) && p == Block(p.page, c, i);
      OffsetsApart(c, i, j);
      OffsetsApart(c, j, i);
    } else {
      assert ApartAt(sl, p.page, b.page);
    }
  }

  /** With nothing handed out there is no arena and every free list is empty. */
  lemma NothingLive(sl: Slab)
    requires SlabOk(sl) && Busy(sl) && sl.live == map[]
    ensures sl.arenas == map[] && forall c: Class :: sl.free[c] == []
  {
    forall k: nat ensures k !in sl.arenas {
      assert ArenaOk(sl, k) && BusyAt(sl, k);
      if k in sl.arenas && sl.arenas[k].Small? { FullIff(sl, k); }
    }
    forall c: Class ensures sl.free[c] == [] { HeadArena(sl, c); }
  }

  lemma HeadArena(sl: Slab, c: Class)
    requires SlabOk(sl)
    ensures sl.free[c] != [] ==> sl.free[c][0].page in sl.arenas
  {
    if sl.free[c] != [] { assert FreeOk(sl, c, sl.free[c][0]); }
  }

  // ----- sizes -----

  /** The loop that picks the size class. */
  method FindClass(size: nat) returns (c: Class)
    requires 0 < size <= 1024
    ensures size <= BlockSize(c) && forall d: Class :: d < c ==> size > BlockSize(d)
    ensures c == ClassOf(size)
  {
    c := 0;
    while !(size <= BlockSize(c))
      invariant 0 <= c < DESC_CNT && forall d: Class :: d < c ==> size > BlockSize(d)
      decreases DESC_CNT - c
    {
      c := c + 1;
    }
  }

  function ClassOf(size: nat): (c: Class)
    requires 0 < size <= 1024
    ensures size <= BlockSize(c) && (c > 0 ==> size > BlockSize(c - 1))
  {
    if size <= 16 then 0 else if size <= 32 then 1 else if size <= 64 then 2 else if size <= 128 then 3
    else if size <= 256 then 4 else if size <= 512 then 5 else 6
  }

  /** block_desc_init, with block_size a uint16_t that doubles. */
  method BlockDescInit() returns (sizes: seq<nat>, perArena: seq<nat>, free: seq<seq<Ptr>>)
    ensures |sizes| == |perArena| == |free| == DESC_CNT
    ensures forall c: Class :: sizes[c] == BlockSize(c) && perArena[c] == PerArena(c) && free[c] == []
  {
    var blockSize := 16;
    sizes, perArena, free := [], [], [];
    for c := 0 to DESC_CNT
      invariant |sizes| == |perArena| == |free| == c
      invariant c < DESC_CNT ==> blockSize == BlockSize(c)
      invariant forall d: Class :: d < c ==> sizes[d] == BlockSize(d) && perArena[d] == PerArena(d) && free[d] == []
    {
      sizes := sizes + [blockSize];
      perArena := perArena + [(PAGE - HEADER) / blockSize];
      free := free + [[]];
      blockSize := blockSize * 2 % 0x1_0000;
    }
  }
}
