/** Where the words of module HeapLinks lie, and what a store to one of them does to the machine. */
module HeapWords {
  import opened Paging
  import opened Frames
  import opened Pages
  import opened PageAlloc
  import opened Slabs
  import opened Heaps
  import opened HeapData
  import opened HeapLinks

  /** Of a list's sentinels the words that are ever used: head.next and tail.prev. */
  datatype Ends = Ends(next: Word, prev: Word)

  predicate ProperNode(arenas: map<nat, Arena>, n: Node)
  {
    n.Blk? ==>
      n.p.page in arenas && arenas[n.p.page].Small? && n.p in AllBlocks(n.p.page, arenas[n.p.page].cls)
  }

  /** The words there are: headers of arenas, links of blocks, and the used words of sentinels. */
  predicate Proper(arenas: map<nat, Arena>, cell: Cell)
  {
    match cell
    case Hdr(k, i) => k in arenas && i < 3
    case NextOf(n) => ProperNode(arenas, n) && !n.TailOf?
    case PrevOf(n) => ProperNode(arenas, n) && !n.HeadOf?
  }

  predicate InMemory(cell: Cell)
  {
    cell.Hdr? || cell.n.Blk?
  }

  function CellPage(cell: Cell): nat
    requires InMemory(cell)
  {
    if cell.Hdr? then cell.k else cell.n.p.page
  }

  function CellIndex(cell: Cell): nat
    requires InMemory(cell)
  {
    match cell
    case Hdr(_, i) => i
    case NextOf(n) => n.p.off / 4 + 1
    case PrevOf(n) => n.p.off / 4
  }

  lemma CellFits(arenas: map<nat, Arena>, cell: Cell)
    requires Proper(arenas, cell) && InMemory(cell)
    ensures CellPage(cell) in arenas && CellIndex(cell) < 1024
    ensures !cell.Hdr? ==> cell.n.p.off % 4 == 0 && 3 <= cell.n.p.off / 4 && cell.n.p.off < PAGE
  {
    if !cell.Hdr? { BlockWords(arenas[cell.n.p.page].cls, cell.n.p.page, cell.n.p); }
  }

  /** No two of them are one word. */
  lemma CellsApart(arenas: map<nat, Arena>, a: Cell, b: Cell)
    requires Proper(arenas, a) && InMemory(a) && Proper(arenas, b) && InMemory(b) && a != b
    ensures CellPage(a) != CellPage(b) || CellIndex(a) != CellIndex(b)
  {
    CellFits(arenas, a);
    CellFits(arenas, b);
    if CellPage(a) == CellPage(b) && !a.Hdr? && !b.Hdr? && a.n.p != b.n.p {
      BlocksApart(arenas[a.n.p.page].cls, a.n.p.page, a.n.p, b.n.p);
    }
  }

  ghost function CellWord(s: Sys, pf: Pf, ends: seq<Ends>, cell: Cell): int
    requires |ends| == DESC_CNT
  {
    if InMemory(cell) then
      if CellIndex(cell) < 1024 then Entry(s.m, FrameAt(s, pf, CellPage(cell)), CellIndex(cell)) else 0
    else if cell.NextOf? && cell.n.HeadOf? then ends[cell.n.c].next
    else if cell.PrevOf? && cell.n.TailOf? then ends[cell.n.c].prev
    else 0
  }

  /** What the words hold now. */
  ghost function View(s: Sys, pf: Pf, ends: seq<Ends>, arenas: map<nat, Arena>): Store
    requires |ends| == DESC_CNT
  {
    imap cell: Cell | Proper(arenas, cell) :: CellWord(s, pf, ends, cell)
  }

  /** The first page of every arena is mapped. */
  ghost predicate PlacedAt(s: Sys, pf: Pf, arenas: map<nat, Arena>, k: nat)
    requires Geometry(s) && Usable(s, pf)
  {
    k in arenas ==> LiveAt(s, pf, k) && k <= 8 * VBits(s, pf).len
  }

  ghost predicate Placed(s: Sys, pf: Pf, arenas: map<nat, Arena>)
  {
    Inv(s) && Usable(s, pf) && forall k: nat {:trigger PlacedAt(s, pf, arenas, k)} :: PlacedAt(s, pf, arenas, k)
  }

  // ----- a store -----

  /** Word i of the page at index k. */
  ghost function Stored(s: Sys, pf: Pf, k: nat, i: nat, w: Word): Sys
    requires i < 1024
  {
    s.(m := s.m[FrameAt(s, pf, k) * 1024 + i := w])
  }

  /** r's pages are those of s, in the same frames. */
  ghost predicate SamePages(s: Sys, r: Sys, pf: Pf)
  {
    forall j: nat {:trigger LiveAt(r, pf, j)} {:trigger LiveAt(s, pf, j)} ::
      LiveAt(s, pf, j) ==> LiveAt(r, pf, j) && FrameAt(r, pf, j) == FrameAt(s, pf, j)
  }

  /** Other memory in frames of data, the same pages. */
  lemma PlainSame(s: Sys, m: Memory, pf: Pf, arenas: map<nat, Arena>)
    requires Placed(s, pf, arenas) && OnlyPlain(s, m)
    ensures Placed(s.(m := m), pf, arenas) && SamePages(s, s.(m := m), pf)
  {
    var r := s.(m := m);
    PlainKeeps(s, m);
    SameVirtual(s, r);
    forall j: nat | LiveAt(s, pf, j) ensures LiveAt(r, pf, j) && FrameAt(r, pf, j) == FrameAt(s, pf, j) {
      FrameOwned(s, pf, j);
      LiveStays(s, r, pf, j);
    }
    forall k: nat ensures PlacedAt(r, pf, arenas, k) { assert PlacedAt(s, pf, arenas, k); }
  }

  lemma StoreKeeps(s: Sys, pf: Pf, arenas: map<nat, Arena>, k: nat, i: nat, w: Word)
    requires Placed(s, pf, arenas) && LiveAt(s, pf, k) && i < 1024
    ensures Placed(Stored(s, pf, k, i, w), pf, arenas) && SamePages(s, Stored(s, pf, k, i, w), pf)
  {
    var f := FrameAt(s, pf, k);
    FrameOwned(s, pf, k);
    forall y: Frame, j: nat | j < 1024 && !Plain(s, y)
      ensures Entry(Stored(s, pf, k, i, w).m, y, j) == Entry(s.m, y, j)
    {
      EntryWritten(s.m, f, i, w, y, j);
    }
    PlainSame(s, Stored(s, pf, k, i, w).m, pf, arenas);
  }

  /** A store to one of the words changes that word and no other. */
  lemma StoreView(s: Sys, pf: Pf, ends: seq<Ends>, arenas: map<nat, Arena>, cell: Cell, w: Word)
    requires Placed(s, pf, arenas) && Proper(arenas, cell) && InMemory(cell) && |ends| == DESC_CNT
    ensures CellIndex(cell) < 1024 && CellPage(cell) in arenas
    ensures var r := Stored(s, pf, CellPage(cell), CellIndex(cell), w);
            Placed(r, pf, arenas) && SamePages(s, r, pf) &&
            View(r, pf, ends, arenas) == View(s, pf, ends, arenas)[cell := w]
  {
    CellFits(arenas, cell);
    assert PlacedAt(s, pf, arenas, CellPage(cell));
    StoreKeeps(s, pf, arenas, CellPage(cell), CellIndex(cell), w);
    var r := Stored(s, pf, CellPage(cell), CellIndex(cell), w);
    forall d | Proper(arenas, d) && InMemory(d)
      ensures CellWord(r, pf, ends, d) == if d == cell then w else CellWord(s, pf, ends, d)
    {
      StoreWord(s, pf, ends, arenas, cell, w, d);
    }
  }

  lemma StoreWord(s: Sys, pf: Pf, ends: seq<Ends>, arenas: map<nat, Arena>, cell: Cell, w: Word, d: Cell)
    requires Placed(s, pf, arenas) && Proper(arenas, cell) && InMemory(cell) && |ends| == DESC_CNT
    requires Proper(arenas, d) && InMemory(d) && CellIndex(cell) < 1024
    requires SamePages(s, Stored(s, pf, CellPage(cell), CellIndex(cell), w), pf)
    ensures CellWord(Stored(s, pf, CellPage(cell), CellIndex(cell), w), pf, ends, d)
            == if d == cell then w else CellWord(s, pf, ends, d)
  {
    CellFits(arenas, cell);
    CellFits(arenas, d);
    var k, l := CellPage(cell), CellPage(d);
    assert PlacedAt(s, pf, arenas, k) && PlacedAt(s, pf, arenas, l);
    EntryWritten(s.m, FrameAt(s, pf, k), CellIndex(cell), w, FrameAt(s, pf, l), CellIndex(d));
    if d != cell {
      CellsApart(arenas, cell, d);
      if k != l { FrameUnique(s, pf, k, l); }
    }
  }

  /** A store to a sentinel. */
  lemma EndsView(s: Sys, pf: Pf, ends: seq<Ends>, arenas: map<nat, Arena>, c: Class, w: Word)
    requires |ends| == DESC_CNT
    ensures View(s, pf, ends[c := Ends(w, ends[c].prev)], arenas) == View(s, pf, ends, arenas)[NextOf(HeadOf(c)) := w]
    ensures View(s, pf, ends[c := Ends(ends[c].next, w)], arenas) == View(s, pf, ends, arenas)[PrevOf(TailOf(c)) := w]
  {
  }

  // ----- several stores -----

  ghost predicate CellAt(s: Sys, pf: Pf, arenas: map<nat, Arena>, y: Frame, j: nat, cell: Cell)
  {
    Proper(arenas, cell) && InMemory(cell) && FrameAt(s, pf, CellPage(cell)) == y && CellIndex(cell) == j
  }

  /** m differs from the memory of s in such words only. */
  ghost predicate OnlyCells(s: Sys, pf: Pf, arenas: map<nat, Arena>, m: Memory)
  {
    forall y: Frame, j: nat {:trigger Entry(m, y, j)} ::
      j < 1024 && Entry(m, y, j) != Entry(s.m, y, j) ==>
        exists cell {:trigger CellAt(s, pf, arenas, y, j, cell)} :: CellAt(s, pf, arenas, y, j, cell)
  }

  /** r is s after stores to such words. */
  ghost predicate Wrote(s: Sys, r: Sys, pf: Pf, arenas: map<nat, Arena>)
  {
    r == s.(m := r.m) && Placed(r, pf, arenas) && SamePages(s, r, pf) && OnlyCells(s, pf, arenas, r.m)
  }

  lemma WroteNone(s: Sys, pf: Pf, arenas: map<nat, Arena>)
    requires Placed(s, pf, arenas)
    ensures Wrote(s, s, pf, arenas)
  {
  }

  lemma WroteOne(s: Sys, pf: Pf, arenas: map<nat, Arena>, cell: Cell, w: Word)
    requires Placed(s, pf, arenas) && Proper(arenas, cell) && InMemory(cell) && CellIndex(cell) < 1024
    requires var r := Stored(s, pf, CellPage(cell), CellIndex(cell), w); Placed(r, pf, arenas) && SamePages(s, r, pf)
    ensures Wrote(s, Stored(s, pf, CellPage(cell), CellIndex(cell), w), pf, arenas)
  {
    var f, i := FrameAt(s, pf, CellPage(cell)), CellIndex(cell);
    var m := Stored(s, pf, CellPage(cell), i, w).m;
    forall y: Frame, j: nat | j < 1024 && Entry(m, y, j) != Entry(s.m, y, j)
      ensures exists c {:trigger CellAt(s, pf, arenas, y, j, c)} :: CellAt(s, pf, arenas, y, j, c)
    {
      EntryWritten(s.m, f, i, w, y, j);
      assert CellAt(s, pf, arenas, y, j, cell);
    }
  }

  lemma WroteTwice(s: Sys, r: Sys, t: Sys, pf: Pf, arenas: map<nat, Arena>)
    requires Placed(s, pf, arenas) && Wrote(s, r, pf, arenas) && Wrote(r, t, pf, arenas)
    ensures Wrote(s, t, pf, arenas)
  {
    forall y: Frame, j: nat | j < 1024 && Entry(t.m, y, j) != Entry(s.m, y, j)
      ensures exists c {:trigger CellAt(s, pf, arenas, y, j, c)} :: CellAt(s, pf, arenas, y, j, c)
    {
      if Entry(r.m, y, j) == Entry(s.m, y, j) {
        var c :| CellAt(r, pf, arenas, y, j, c);
        CellFits(arenas, c);
        assert PlacedAt(s, pf, arenas, CellPage(c));
        assert CellAt(s, pf, arenas, y, j, c);
      }
    }
    forall j: nat | LiveAt(s, pf, j) ensures LiveAt(t, pf, j) && FrameAt(t, pf, j) == FrameAt(s, pf, j) {
      assert LiveAt(r, pf, j);
    }
  }
}
