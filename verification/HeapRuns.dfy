/** Runs of sys_malloc and sys_free: what holds after any number of calls, when a call succeeds, and
    that a run which has freed everything leaves the machine as it found it. */
module HeapRuns {
  import opened Bitmaps
  import opened Paging
  import opened Frames
  import opened Pages
  import opened PageAlloc
  import opened PageData
  import opened PageRuns
  import opened Slabs
  import opened Heaps
  import opened HeapData

  // ----- when a call succeeds -----

  /** Pages sys_malloc must take: none if a block of the right size is free. */
  function PagesNeeded(h: Heap, size: nat): nat
    requires |h.slab.free| == DESC_CNT && size > 0
  {
    if size > 1024 then PagesFor(size) else if h.slab.free[ClassOf(size)] != [] then 0 else 1
  }

  /** An allocation succeeds exactly when the size is in range and either a block is free or the page
      allocator can map the pages. */
  lemma MallocGivenIff(h: Heap, pf: Pf, poolSize: nat, size: nat)
    requires HeapInv(h, pf)
    ensures SysMalloc(h, pf, poolSize, size).Given? <==>
              0 < size < poolSize &&
              (PagesNeeded(h, size) == 0 || exists k: nat :: CanMalloc(h.sys, pf, PagesNeeded(h, size), k))
  {
    if 0 < size < poolSize && PagesNeeded(h, size) > 0 {
      var n := PagesNeeded(h, size);
      var a := MallocPage(h.sys, pf, n);
      forall k: nat ensures CanMalloc(h.sys, pf, n, k) <==> a.Got? && a.k == k { MallocGotIff(h.sys, pf, n, k); }
      assert a.Got? ==> CanMalloc(h.sys, pf, n, a.k);
    }
  }

  /** NULL means a size out of range or no run of free pages long enough; anything else that goes
      wrong stops in an ASSERT. */
  lemma MallocNilIff(h: Heap, pf: Pf, poolSize: nat, size: nat)
    requires HeapInv(h, pf)
    ensures var b := VBits(h.sys, pf);
            SysMalloc(h, pf, poolSize, size).Nil? <==>
              !(0 < size < poolSize) ||
              (0 < PagesNeeded(h, size) < 3840 && !AllSet(b.v[..8 * b.len]) &&
               !HasRun(Window(b.v, b.len, PagesNeeded(h, size)), PagesNeeded(h, size)))
  {
    if 0 < size < poolSize && PagesNeeded(h, size) > 0 { MallocNullIff(h.sys, pf, PagesNeeded(h, size)); }
  }

  // ----- steps -----

  datatype Call =
    | Malloc(size: nat)
    | Free(p: Ptr)
    | Fill(p: Ptr, j: nat, w: Word)     // the program stores a word in an allocation
    | Links(m: Memory)                  // headers and list links take any values
    | Scribble(p: Ptr, m: Memory)       // so do the links of a block about to be freed
    | Others(op: Op)                    // page operations of other heaps and of the kernel

  /** Others leave this heap's pages alone. */
  ghost predicate Foreign(h: Heap, pf: Pf, op: Op)
  {
    match op
    case Release(q, k, cnt) => q == pf ==> forall l: nat {:trigger l in h.slab.arenas} ::
                                 l in h.slab.arenas ==> k + cnt <= l || l + Span(h.slab.arenas[l]) <= k
    case Data(f, _, _) => forall k: nat, j: nat {:trigger InArena(h.slab, k, j)} ::
                            InArena(h.slab, k, j) ==> FrameAt(h.sys, pf, j) != f
    case _ => true
  }

  ghost predicate Allowed(h: Heap, pf: Pf, call: Call)
    requires HeapInv(h, pf)
  {
    match call
    case Malloc(_) => true
    case Free(p) => p in h.slab.live
    case Fill(p, j, _) => p in h.slab.live && j < WordsOf(h.slab.live[p])
    case Links(m) => OnlyMeta(h, pf, m)
    case Scribble(p, m) => p in h.slab.live && Scribbled(h, pf, p, m)
    case Others(op) => Enabled(h.sys, op) && Foreign(h, pf, op)
  }

  function After(h: Heap, o: Outcome): Ran<Heap>
  {
    match o
    case Stops => Panic
    case Nil => Done(h)
    case Given(r, _) => Done(r)
  }

  function WithSys(h: Heap, s: Ran<Sys>): Ran<Heap>
  {
    match s
    case Panic => Panic
    case Done(r) => Done(Heap(r, h.slab))
  }

  ghost function Step(h: Heap, pf: Pf, poolSize: nat, call: Call): Ran<Heap>
    requires HeapInv(h, pf) && Allowed(h, pf, call)
  {
    match call
    case Malloc(size) => After(h, SysMalloc(h, pf, poolSize, size))
    case Free(p) => Done(SysFree(h, pf, p))
    case Fill(p, j, w) => Done(Filled(h, pf, p, j, w))
    case Links(m) => Done(Heap(h.sys.(m := m), h.slab))
    case Scribble(_, m) => Done(Heap(h.sys.(m := m), h.slab))
    case Others(op) => WithSys(h, Next(h.sys, op))
  }

  // ----- other heaps' pages -----

  /** One page of an arena, before and after. */
  ghost predicate StaysAt(s: Sys, r: Sys, pf: Pf, j: nat)
  {
    LiveAt(r, pf, j) && FrameAt(r, pf, j) == FrameAt(s, pf, j) &&
    forall w: nat {:trigger Entry(r.m, FrameAt(s, pf, j), w)} ::
      w < 1024 ==> Entry(r.m, FrameAt(s, pf, j), w) == Entry(s.m, FrameAt(s, pf, j), w)
  }

  lemma KeptStays(s: Sys, r: Sys, pf: Pf, j: nat)
    requires Core(s) && Core(r) && LiveAt(s, pf, j) && DataKept(s, r)
    requires var f := FrameAt(s, pf, j); f in r.own && r.own[f] == OwnerAt(pf, j) && f !in r.uv
    ensures StaysAt(s, r, pf, j)
  {
    FrameOwned(s, pf, j);
    LiveStays(s, r, pf, j);
    assert KeptAt(s, r, FrameAt(s, pf, j));
  }

  lemma OthersAllocate(s: Sys, op: Op, pf: Pf, j: nat)
    requires Inv(s) && Enabled(s, op) && op.Allocate? && Next(s, op).Done? && LiveAt(s, pf, j)
    ensures StaysAt(s, Next(s, op).value, pf, j)
  {
    var a := GetPages(s, op.pf, op.cnt);
    FrameOwned(s, pf, j);
    if a.Got? {
      GetPagesKeeps(s, op.pf, op.cnt, a.s, a.k);
      GetPagesData(s, op.pf, op.cnt, a.s, a.k);
      KeptStays(s, a.s, pf, j);
    }
  }

  lemma OthersPlace(s: Sys, op: Op, pf: Pf, j: nat)
    requires Inv(s) && Enabled(s, op) && op.Place? && Next(s, op).Done? && LiveAt(s, pf, j)
    ensures StaysAt(s, Next(s, op).value, pf, j)
  {
    var r := Next(s, op).value;
    GetAPageKeeps(s, op.pf, op.pf.User?, op.k, r);
    GetAPageData(s, op.pf, op.pf.User?, op.k, r);
    FrameOwned(s, pf, j);
    KeptStays(s, r, pf, j);
  }

  lemma OthersRelease(s: Sys, op: Op, pf: Pf, j: nat)
    requires Inv(s) && Enabled(s, op) && op.Release? && LiveAt(s, pf, j)
    requires op.pf == pf ==> j < op.k || op.k + op.cnt <= j
    ensures StaysAt(s, Next(s, op).value, pf, j)
  {
    var r := Next(s, op).value;
    MfreeKeeps(s, op.pf, op.k, op.cnt);
    MfreePageData(s, op.pf, op.k, op.cnt);
    FrameOwned(s, pf, j);
    assert OwnShrunkAt(s, r, op.pf, op.k, op.cnt, FrameAt(s, pf, j));
    KeptStays(s, r, pf, j);
  }

  lemma OthersData(s: Sys, op: Op, pf: Pf, j: nat)
    requires Inv(s) && Enabled(s, op) && op.Data? && LiveAt(s, pf, j) && FrameAt(s, pf, j) != op.f
    ensures StaysAt(s, Next(s, op).value, pf, j)
  {
    var r := Next(s, op).value;
    DataKeeps(s, op.f, op.j, op.w);
    FrameOwned(s, pf, j);
    LiveStays(s, r, pf, j);
    forall w: nat | w < 1024 ensures Entry(r.m, FrameAt(s, pf, j), w) == Entry(s.m, FrameAt(s, pf, j), w) {
      EntryWritten(s.m, op.f, op.j, op.w, FrameAt(s, pf, j), w);
    }
  }

  lemma OthersCreate(s: Sys, op: Op, pf: Pf, j: nat)
    requires Inv(s) && Enabled(s, op) && op.NewProcess? && Next(s, op).Done? && LiveAt(s, pf, j)
    ensures StaysAt(s, Next(s, op).value, pf, j)
  {
    CreateKeeps(s, op.cur, op.bits);
    var a, t := CreatePageDir(s, op.cur, op.bits), GetPages(s, Kernel, 1);
    FrameOwned(s, pf, j);
    if a.Got? {
      GetPagesKeeps(s, Kernel, 1, t.s, t.k);
      GetPagesData(s, Kernel, 1, t.s, t.k);
      KeptStays(s, t.s, pf, j);
      NewPage(s, op.cur, op.bits, t.s, t.k);
      var p := FrameAt(t.s, Kernel, t.k);
      assert MappedAt(s, t.s, Kernel, t.k, 1, KHeap(t.k)) && Backed(t.s, KHeap(t.k));
      LiveStays(t.s, a.s, pf, j);
      forall w: nat | w < 1024 ensures Entry(a.s.m, FrameAt(s, pf, j), w) == Entry(t.s.m, FrameAt(s, pf, j), w) {
        DirImageEntry(t.s.m, op.cur, p, FrameAt(s, pf, j), w);
      }
    }
  }

  lemma OthersStay(h: Heap, pf: Pf, op: Op, k: nat, j: nat)
    requires HeapInv(h, pf) && Enabled(h.sys, op) && Foreign(h, pf, op) && Next(h.sys, op).Done?
    requires InArena(h.slab, k, j)
    ensures LiveAt(h.sys, pf, j) && StaysAt(h.sys, Next(h.sys, op).value, pf, j)
  {
    ArenaLive(h, pf, k);
    assert LiveAt(h.sys, pf, j);
    match op
    case Allocate(_, _) => OthersAllocate(h.sys, op, pf, j);
    case Release(_, _, _) => OthersRelease(h.sys, op, pf, j);
    case Place(_, _) => OthersPlace(h.sys, op, pf, j);
    case NewProcess(_, _) => OthersCreate(h.sys, op, pf, j);
    case Data(_, _, _) => OthersData(h.sys, op, pf, j);
  }

  lemma OthersShape(s: Sys, op: Op, pf: Pf)
    requires Inv(s) && Enabled(s, op) && Next(s, op).Done? && Usable(s, pf)
    ensures var r := Next(s, op).value; Inv(r) && Usable(r, pf) && VBits(r, pf).len == VBits(s, pf).len
  {
    StepKeeps(s, op);
    match op
    case Allocate(q, cnt) => var a := GetPages(s, q, cnt); if a.Got? { GetPagesKeeps(s, q, cnt, a.s, a.k); }
    case Release(q, k, cnt) => MfreeKeeps(s, q, k, cnt);
    case Place(q, k) => GetAPageKeeps(s, q, q.User?, k, Next(s, op).value);
    case NewProcess(cur, bits) => CreateKeeps(s, cur, bits);
    case Data(_, _, _) =>
  }

  lemma OthersKeep(h: Heap, pf: Pf, op: Op)
    requires HeapInv(h, pf) && Enabled(h.sys, op) && Foreign(h, pf, op) && Next(h.sys, op).Done?
    ensures HeapInv(Heap(Next(h.sys, op).value, h.slab), pf)
  {
    var r := Next(h.sys, op).value;
    OthersShape(h.sys, op, pf);
    forall k: nat ensures RunOk(r, pf, h.slab, k) {
      assert RunOk(h.sys, pf, h.slab, k);
      if k in h.slab.arenas {
        forall j: nat | k <= j < k + Span(h.slab.arenas[k]) ensures LiveAt(r, pf, j) {
          assert InArena(h.slab, k, j);
          OthersStay(h, pf, op, k, j);
        }
      }
    }
  }

  lemma OthersPreserve(h: Heap, pf: Pf, op: Op, q: Ptr, j: nat)
    requires HeapInv(h, pf) && Enabled(h.sys, op) && Foreign(h, pf, op) && Next(h.sys, op).Done?
    requires q in h.slab.live && j < WordsOf(h.slab.live[q])
    ensures WordAt(Next(h.sys, op).value, pf, q, j) == WordAt(h.sys, pf, q, j)
  {
    LiveWord(h, pf, q, j);
    OthersStay(h, pf, op, q.page, PageAt(q, j));
  }

  // ----- every run -----

  lemma StepOk(h: Heap, pf: Pf, poolSize: nat, call: Call)
    requires HeapInv(h, pf) && Allowed(h, pf, call) && Step(h, pf, poolSize, call).Done?
    ensures HeapInv(Step(h, pf, poolSize, call).value, pf)
  {
    match call
    case Malloc(size) => if SysMalloc(h, pf, poolSize, size).Given? { SysMallocKeeps(h, pf, poolSize, size); }
    case Free(p) => SysFreeKeeps(h, pf, p);
    case Fill(p, j, w) => FillKeeps(h, pf, p, j, w);
    case Links(m) => MetaKeeps(h, pf, m);
    case Scribble(p, m) => ScribbleKeeps(h, pf, p, m);
    case Others(op) => OthersKeep(h, pf, op);
  }

  ghost predicate HeapRun(h: Heap, pf: Pf, poolSize: nat, calls: seq<Call>, r: Heap)
    requires HeapInv(h, pf)
    decreases calls
  {
    if calls == [] then r == h
    else Allowed(h, pf, calls[0]) && Step(h, pf, poolSize, calls[0]).Done? &&
         (StepOk(h, pf, poolSize, calls[0]);
          HeapRun(Step(h, pf, poolSize, calls[0]).value, pf, poolSize, calls[1..], r))
  }

  /** In every state a run reaches: arenas count their free blocks and none is idle, free lists hold
      blocks of live arenas of their class and no block twice, every block is free or handed out. */
  lemma {:induction false} HeapRunKeeps(h: Heap, pf: Pf, poolSize: nat, calls: seq<Call>, r: Heap)
    requires HeapInv(h, pf) && HeapRun(h, pf, poolSize, calls, r)
    ensures HeapInv(r, pf)
    decreases calls
  {
    if calls != [] {
      StepOk(h, pf, poolSize, calls[0]);
      HeapRunKeeps(Step(h, pf, poolSize, calls[0]).value, pf, poolSize, calls[1..], r);
    }
  }

  /** And in every such state an arena's counter is the number of its blocks on its list and below
      blocks_per_arena, and allocations overlap neither each other nor a free block. */
  lemma HeapRunSafe(h: Heap, pf: Pf, poolSize: nat, calls: seq<Call>, r: Heap)
    requires HeapInv(h, pf) && HeapRun(h, pf, poolSize, calls, r)
    ensures |r.slab.free| == DESC_CNT
    ensures forall k :: k in r.slab.arenas && r.slab.arenas[k].Small? ==>
              var a := r.slab.arenas[k]; a.cnt == |OnPage(r.slab.free[a.cls], k)| && a.cnt < PerArena(a.cls)
    ensures forall p, q :: p in r.slab.live && q in r.slab.live && p != q ==>
              Start(p) + r.slab.live[p] <= Start(q) || Start(q) + r.slab.live[q] <= Start(p)
    ensures forall p, c: Class, b :: p in r.slab.live && b in r.slab.free[c] ==>
              Start(p) + r.slab.live[p] <= Start(b) || Start(b) + BlockSize(c) <= Start(p)
  {
    HeapRunKeeps(h, pf, poolSize, calls, r);
    forall k: nat | k in r.slab.arenas && r.slab.arenas[k].Small?
      ensures var a := r.slab.arenas[k]; a.cnt == |OnPage(r.slab.free[a.cls], k)| && a.cnt < PerArena(a.cls)
    {
      assert ArenaOk(r.slab, k) && BusyAt(r.slab, k);
    }
    forall p, q | p in r.slab.live && q in r.slab.live && p != q
      ensures Start(p) + r.slab.live[p] <= Start(q) || Start(q) + r.slab.live[q] <= Start(p)
    {
      LiveDisjoint(r.slab, p, q);
    }
    forall p, c: Class, b | p in r.slab.live && b in r.slab.free[c]
      ensures Start(p) + r.slab.live[p] <= Start(b) || Start(b) + BlockSize(c) <= Start(p)
    {
      LiveOffLists(r.slab, p, c, b);
    }
  }

  /** The call neither frees q nor begins to, nor stores in its word j. */
  predicate Leaves(call: Call, q: Ptr, j: nat)
  {
    call != Free(q) && (call.Fill? ==> call.p != q || call.j != j) && (call.Scribble? ==> call.p != q)
  }

  lemma StepLeaves(h: Heap, pf: Pf, poolSize: nat, call: Call, q: Ptr, j: nat)
    requires HeapInv(h, pf) && Allowed(h, pf, call) && Step(h, pf, poolSize, call).Done? && Leaves(call, q, j)
    requires q in h.slab.live && j < WordsOf(h.slab.live[q])
    ensures var r := Step(h, pf, poolSize, call).value;
            q in r.slab.live && r.slab.live[q] == h.slab.live[q] && WordAt(r.sys, pf, q, j) == WordAt(h.sys, pf, q, j)
  {
    match call
    case Malloc(size) =>
      if SysMalloc(h, pf, poolSize, size).Given? {
        MallocZeroes(h, pf, poolSize, size, j);
        MallocPreserves(h, pf, poolSize, size, q, j);
      }
    case Free(p) => FreePreserves(h, pf, p, q, j);
    case Fill(p, i, w) => FillPreserves(h, pf, p, i, w, q, j);
    case Links(m) => MetaPreserves(h, pf, m, q, j);
    case Scribble(p, m) => ScribblePreserves(h, pf, p, m, q, j);
    case Others(op) => OthersPreserve(h, pf, op, q, j);
  }

  /** An allocation lives, keeps its size and keeps every word its owner does not overwrite, through
      any run that does not free it. */
  lemma {:induction false} HeapRunPreserves(h: Heap, pf: Pf, poolSize: nat, calls: seq<Call>, r: Heap, q: Ptr, j: nat)
    requires HeapInv(h, pf) && HeapRun(h, pf, poolSize, calls, r)
    requires q in h.slab.live && j < WordsOf(h.slab.live[q])
    requires forall i :: 0 <= i < |calls| ==> Leaves(calls[i], q, j)
    ensures q in r.slab.live && r.slab.live[q] == h.slab.live[q] && WordAt(r.sys, pf, q, j) == WordAt(h.sys, pf, q, j)
    decreases calls
  {
    if calls != [] {
      StepOk(h, pf, poolSize, calls[0]);
      StepLeaves(h, pf, poolSize, calls[0], q, j);
      HeapRunPreserves(Step(h, pf, poolSize, calls[0]).value, pf, poolSize, calls[1..], r, q, j);
    }
  }

  // ----- conservation -----

  ghost predicate ArenaPage(sl: Slab, j: nat)
  {
    exists k: nat {:trigger InArena(sl, k, j)} :: InArena(sl, k, j)
  }

  /** The pages of a heap's arenas. */
  ghost predicate ArenaOwner(sl: Slab, pf: Pf, q: Owner)
  {
    match q
    case KHeap(b) => pf.Kernel? && ArenaPage(sl, b)
    case UTable(_, _) => false
    case UPage(d, vp) => pf == User(d) && vp >= USER_VP && ArenaPage(sl, vp - USER_VP)
  }

  /** r is s plus the heap's pages, and page tables of its process. */
  ghost predicate PlusAt(s: Sys, r: Heap, pf: Pf, q: Owner)
  {
    if q.UTable? then (Active(s, q) ==> Active(r.sys, q)) && (Active(r.sys, q) && !Active(s, q) ==> pf == User(q.dir))
    else (Active(r.sys, q) <==> Active(s, q) || ArenaOwner(r.slab, pf, q)) &&
         (ArenaOwner(r.slab, pf, q) ==> !Active(s, q))
  }

  ghost predicate Plus(s: Sys, r: Heap, pf: Pf)
  {
    SameTails(s, r.sys) && Extends(s, r.sys) && r.sys.uv.Keys == s.uv.Keys &&
    forall q: Owner {:trigger PlusAt(s, r, pf, q)} :: PlusAt(s, r, pf, q)
  }

  // ----- what a call of the heap's own does to pages -----

  predicate OwnCall(call: Call)
  {
    !call.Others?
  }

  ghost predicate SpanAt(sl: Slab, t: Slab, k: nat, n: nat, l: nat)
  {
    (l in t.arenas <==> l == k || l in sl.arenas) &&
    (l in t.arenas ==> Span(t.arenas[l]) == if l == k then n else Span(sl.arenas[l]))
  }

  /** Besides those of sl, t has an arena of n pages at k. */
  ghost predicate MoreSpans(sl: Slab, t: Slab, k: nat, n: nat)
  {
    k !in sl.arenas && forall l: nat {:trigger SpanAt(sl, t, k, n, l)} :: SpanAt(sl, t, k, n, l)
  }

  ghost predicate SameSpans(sl: Slab, t: Slab)
  {
    forall l: nat {:trigger l in t.arenas} {:trigger l in sl.arenas} ::
      (l in t.arenas <==> l in sl.arenas) && (l in t.arenas ==> Span(t.arenas[l]) == Span(sl.arenas[l]))
  }

  /** No page comes or goes. */
  ghost predicate Stays(h: Heap, r: Heap)
  {
    r.sys.own == h.sys.own && SameSpans(h.slab, r.slab) &&
    forall q {:trigger Active(r.sys, q)} :: Active(r.sys, q) <==> Active(h.sys, q)
  }

  /** The pages of a new arena are mapped. */
  ghost predicate Grows(h: Heap, pf: Pf, r: Heap, k: nat, n: nat)
  {
    Extends(h.sys, r.sys) && Mapped(h.sys, r.sys, pf, k, n) && MoreSpans(h.slab, r.slab, k, n)
  }

  /** The pages of an arena are given back. */
  ghost predicate Shrinks(h: Heap, pf: Pf, r: Heap, k: nat)
  {
    k in h.slab.arenas && Freed(h.sys, r.sys, pf, k, Span(h.slab.arenas[k])) &&
    r.slab.arenas == h.slab.arenas - {k} && forall l: nat {:trigger ApartAt(h.slab, k, l)} :: ApartAt(h.slab, k, l)
  }

  ghost predicate Moves(h: Heap, pf: Pf, r: Heap)
  {
    SameTails(h.sys, r.sys) && r.sys.uv.Keys == h.sys.uv.Keys &&
    (Stays(h, r) || (exists k: nat, n: nat {:trigger Grows(h, pf, r, k, n)} :: Grows(h, pf, r, k, n)) ||
     exists k: nat {:trigger Shrinks(h, pf, r, k)} :: Shrinks(h, pf, r, k))
  }

  lemma LargeMoves(h: Heap, pf: Pf, size: nat)
    requires HeapInv(h, pf) && size > 0 && MallocLarge(h, pf, size).Given?
    ensures Moves(h, pf, MallocLarge(h, pf, size).h)
  {
    var n := PagesFor(size);
    var a := GetPages(h.sys, pf, n);
    var r := MallocLarge(h, pf, size).h;
    NewRunFresh(h, pf, n, a.s, a.k);
    AddLargeKeeps(h.slab, a.k, n, size);
    GetPagesKeeps(h.sys, pf, n, a.s, a.k);
    forall l: nat ensures SpanAt(h.slab, r.slab, a.k, n, l) { }
    assert Grows(h, pf, r, a.k, n);
  }

  lemma GiveStays(h: Heap, pf: Pf, c: Class, size: nat)
    requires Ready(h, pf, c)
    ensures var r := GiveHead(h, pf, c, size).h; Stays(h, r) && r.sys == h.sys.(m := r.sys.m)
  {
    HeadLive(h, pf, c);
    HeadCounts(h.slab, c);
    ZeroBlockKeeps(h.sys, pf, h.slab.free[c][0], c);
  }

  lemma CarvedGrows(h: Heap, pf: Pf, c: Class, s: Sys, k: nat)
    requires HeapInv(h, pf) && h.slab.free[c] == [] && GetPages(h.sys, pf, 1) == Got(s, k)
    ensures SameTails(h.sys, s) && s.uv.Keys == h.sys.uv.Keys && Grows(h, pf, Heap(s, Carve(h.slab, k, c)), k, 1)
  {
    var t := Carve(h.slab, k, c);
    NewRunFresh(h, pf, 1, s, k);
    CarveKeeps(h.slab, k, c);
    GetPagesKeeps(h.sys, pf, 1, s, k);
    forall l: nat ensures SpanAt(h.slab, t, k, 1, l) { }
  }

  lemma GrowsStays(h: Heap, pf: Pf, g: Heap, r: Heap, k: nat, n: nat)
    requires Grows(h, pf, g, k, n) && Stays(g, r)
    ensures Grows(h, pf, r, k, n)
  {
    forall q ensures MappedAt(h.sys, r.sys, pf, k, n, q) {
      assert MappedAt(h.sys, g.sys, pf, k, n, q) && (Active(r.sys, q) <==> Active(g.sys, q));
    }
    forall l: nat ensures SpanAt(h.slab, r.slab, k, n, l) { assert SpanAt(h.slab, g.slab, k, n, l); }
  }

  lemma SmallMoves(h: Heap, pf: Pf, size: nat)
    requires HeapInv(h, pf) && 0 < size <= 1024 && MallocSmall(h, pf, size).Given?
    ensures Moves(h, pf, MallocSmall(h, pf, size).h)
  {
    var c, r := ClassOf(size), MallocSmall(h, pf, size).h;
    if h.slab.free[c] != [] {
      BusyAll(h.slab, h.slab.free[c][0].page);
      GiveStays(h, pf, c, size);
    } else {
      var a := GetPages(h.sys, pf, 1);
      var g := Heap(a.s, Carve(h.slab, a.k, c));
      CarvedReady(h, pf, c, a.s, a.k);
      CarvedGrows(h, pf, c, a.s, a.k);
      GiveStays(g, pf, c, size);
      GrowsStays(h, pf, g, r, a.k, 1);
    }
  }

  lemma FreeMoves(h: Heap, pf: Pf, p: Ptr)
    requires HeapInv(h, pf) && p in h.slab.live
    ensures Moves(h, pf, SysFree(h, pf, p))
  {
    var r := SysFree(h, pf, p);
    FreeSpans(h, pf, p);
    if r.sys == h.sys && SameSpans(h.slab, r.slab) {
      assert Stays(h, r);
    } else {
      GivenBackShrinks(h, pf, r, p.page);
    }
  }

  lemma GivenBackShrinks(h: Heap, pf: Pf, r: Heap, k: nat)
    requires HeapInv(h, pf) && k in h.slab.arenas && Live(h.sys, pf, k, Span(h.slab.arenas[k]))
    requires k + Span(h.slab.arenas[k]) <= |VBits(h.sys, pf).v| && r.slab.arenas == h.slab.arenas - {k}
    requires r.sys == MfreePage(h.sys, pf, k, Span(h.slab.arenas[k]))
    ensures Shrinks(h, pf, r, k) && SameTails(h.sys, r.sys) && r.sys.uv.Keys == h.sys.uv.Keys
  {
    MfreeShape(h.sys, pf, k, Span(h.slab.arenas[k]));
    forall l: nat ensures ApartAt(h.slab, k, l) { }
  }

  lemma FreeSpans(h: Heap, pf: Pf, p: Ptr)
    requires HeapInv(h, pf) && p in h.slab.live
    ensures p.page in h.slab.arenas && Live(h.sys, pf, p.page, Span(h.slab.arenas[p.page]))
    ensures p.page + Span(h.slab.arenas[p.page]) <= |VBits(h.sys, pf).v|
    ensures var r := SysFree(h, pf, p);
            (r.sys == h.sys && SameSpans(h.slab, r.slab)) ||
            (r.sys == MfreePage(h.sys, pf, p.page, Span(h.slab.arenas[p.page])) &&
             r.slab.arenas == h.slab.arenas - {p.page})
  {
    assert LiveOk(h.slab, p);
    ArenaLive(h, pf, p.page);
  }

  /** Stores of data map nothing. */
  lemma SameMapped(h: Heap, pf: Pf, m: Memory, call: Call, poolSize: nat)
    requires HeapInv(h, pf) && Allowed(h, pf, call) && (call.Fill? || call.Links? || call.Scribble?)
    requires Step(h, pf, poolSize, call) == Done(Heap(h.sys.(m := m), h.slab))
    ensures SameTails(h.sys, h.sys.(m := m))
    ensures forall q {:trigger Active(h.sys.(m := m), q)} :: Active(h.sys.(m := m), q) <==> Active(h.sys, q)
  {
    forall y: Frame, w: nat | w < 1024 && !Plain(h.sys, y) ensures Entry(m, y, w) == Entry(h.sys.m, y, w) {
      match call
      case Fill(p, j, v) =>
        LiveWord(h, pf, p, j);
        FrameOwned(h.sys, pf, PageAt(p, j));
        EntryWritten(h.sys.m, FrameAt(h.sys, pf, PageAt(p, j)), IndexAt(p, j), v, y, w);
      case Links(_) => MetaPlain(h, pf, m, y, w);
      case Scribble(p, _) => ScribblePlain(h, pf, p, m);
    }
    PlainKeeps(h.sys, m);
  }

  lemma StepMoves(h: Heap, pf: Pf, poolSize: nat, call: Call)
    requires HeapInv(h, pf) && Allowed(h, pf, call) && OwnCall(call) && Step(h, pf, poolSize, call).Done?
    ensures Moves(h, pf, Step(h, pf, poolSize, call).value)
  {
    var r := Step(h, pf, poolSize, call).value;
    match call
    case Malloc(size) =>
      if SysMalloc(h, pf, poolSize, size).Given? {
        if size > 1024 { LargeMoves(h, pf, size); } else { SmallMoves(h, pf, size); }
      }
    case Free(p) => FreeMoves(h, pf, p);
    case Fill(_, _, _) => SameMapped(h, pf, r.sys.m, call, poolSize);
    case Links(m) => SameMapped(h, pf, m, call, poolSize);
    case Scribble(_, m) => SameMapped(h, pf, m, call, poolSize);
  }

  // ----- the arenas' pages meanwhile -----

  lemma ArenaStays(sl: Slab, t: Slab, pf: Pf, q: Owner)
    requires SameSpans(sl, t)
    ensures ArenaOwner(t, pf, q) <==> ArenaOwner(sl, pf, q)
  {
    forall k: nat, j: nat ensures InArena(t, k, j) <==> InArena(sl, k, j) { }
    forall j: nat ensures ArenaPage(t, j) <==> ArenaPage(sl, j) { }
  }

  lemma ArenaGrown(sl: Slab, t: Slab, pf: Pf, k: nat, n: nat, q: Owner)
    requires MoreSpans(sl, t, k, n)
    ensures ArenaOwner(t, pf, q) <==> ArenaOwner(sl, pf, q) || InRun(q, pf, k, n)
  {
    if q.KHeap? { PageGrown(sl, t, k, n, q.b); }
    if q.UPage? && q.vp >= USER_VP { PageGrown(sl, t, k, n, q.vp - USER_VP); }
  }

  lemma PageGrown(sl: Slab, t: Slab, k: nat, n: nat, j: nat)
    requires MoreSpans(sl, t, k, n)
    ensures ArenaPage(t, j) <==> ArenaPage(sl, j) || k <= j < k + n
  {
    assert SpanAt(sl, t, k, n, k);
    if k <= j < k + n { assert InArena(t, k, j); }
    if ArenaPage(sl, j) {
      var l: nat :| InArena(sl, l, j);
      assert SpanAt(sl, t, k, n, l) && InArena(t, l, j);
    }
    if ArenaPage(t, j) {
      var l: nat :| InArena(t, l, j);
      assert SpanAt(sl, t, k, n, l) && (l != k ==> InArena(sl, l, j));
    }
  }

  lemma ArenaShrunk(sl: Slab, t: Slab, pf: Pf, k: nat, n: nat, q: Owner)
    requires k in sl.arenas && Span(sl.arenas[k]) == n && t.arenas == sl.arenas - {k}
    requires forall l: nat {:trigger ApartAt(sl, k, l)} :: ApartAt(sl, k, l)
    ensures ArenaOwner(t, pf, q) <==> ArenaOwner(sl, pf, q) && !InRun(q, pf, k, n)
    ensures InRun(q, pf, k, n) ==> ArenaOwner(sl, pf, q)
  {
    if q.KHeap? { PageShrunk(sl, t, k, n, q.b); }
    if q.UPage? && q.vp >= USER_VP { PageShrunk(sl, t, k, n, q.vp - USER_VP); }
  }

  lemma PageShrunk(sl: Slab, t: Slab, k: nat, n: nat, j: nat)
    requires k in sl.arenas && Span(sl.arenas[k]) == n && t.arenas == sl.arenas - {k}
    requires forall l: nat {:trigger ApartAt(sl, k, l)} :: ApartAt(sl, k, l)
    ensures ArenaPage(t, j) <==> ArenaPage(sl, j) && !(k <= j < k + n)
    ensures k <= j < k + n ==> ArenaPage(sl, j)
  {
    if k <= j < k + n { assert InArena(sl, k, j); }
    if ArenaPage(t, j) {
      var l: nat :| InArena(t, l, j);
      assert InArena(sl, l, j) && ApartAt(sl, k, l);
    }
    if ArenaPage(sl, j) && !(k <= j < k + n) {
      var l: nat :| InArena(sl, l, j);
      assert InArena(t, l, j);
    }
  }

  // ----- calls of the heap's own conserve -----

  lemma PlusMoves(s: Sys, h: Heap, pf: Pf, r: Heap)
    requires Plus(s, h, pf) && Core(s) && Moves(h, pf, r)
    ensures Plus(s, r, pf)
  {
    if Stays(h, r) {
      forall q: Owner ensures PlusAt(s, r, pf, q) {
        assert PlusAt(s, h, pf, q);
        ArenaStays(h.slab, r.slab, pf, q);
      }
    } else if k: nat, n: nat :| Grows(h, pf, r, k, n) {
      forall q: Owner ensures PlusAt(s, r, pf, q) {
        assert PlusAt(s, h, pf, q) && MappedAt(h.sys, r.sys, pf, k, n, q);
        ArenaGrown(h.slab, r.slab, pf, k, n, q);
      }
    } else {
      var k: nat :| Shrinks(h, pf, r, k);
      PlusShrunk(s, h, pf, r, k, Span(h.slab.arenas[k]));
    }
  }

  lemma PlusShrunk(s: Sys, h: Heap, pf: Pf, r: Heap, k: nat, n: nat)
    requires Plus(s, h, pf) && Core(s) && SameTails(h.sys, r.sys) && r.sys.uv.Keys == h.sys.uv.Keys
    requires Shrinks(h, pf, r, k) && Span(h.slab.arenas[k]) == n
    ensures Plus(s, r, pf)
  {
    forall q: Owner ensures PlusAt(s, r, pf, q) {
      assert PlusAt(s, h, pf, q) && ShrunkAt(h.sys, r.sys, pf, k, n, q);
      ArenaShrunk(h.slab, r.slab, pf, k, n, q);
    }
    forall f | f in s.own ensures f in r.sys.own && r.sys.own[f] == s.own[f] {
      assert OwnedOk(s, f) && PlusAt(s, h, pf, s.own[f]) && OwnShrunkAt(h.sys, r.sys, pf, k, n, f);
      ArenaShrunk(h.slab, r.slab, pf, k, n, s.own[f]);
    }
  }

  lemma {:induction false} HeapRunPlus(s: Sys, h: Heap, pf: Pf, poolSize: nat, calls: seq<Call>, r: Heap)
    requires Plus(s, h, pf) && Core(s) && HeapInv(h, pf) && HeapRun(h, pf, poolSize, calls, r)
    requires forall i :: 0 <= i < |calls| ==> OwnCall(calls[i])
    ensures Plus(s, r, pf)
    decreases calls
  {
    if calls != [] {
      var g := Step(h, pf, poolSize, calls[0]).value;
      StepOk(h, pf, poolSize, calls[0]);
      StepMoves(h, pf, poolSize, calls[0]);
      PlusMoves(s, h, pf, g);
      HeapRunPlus(s, g, pf, poolSize, calls[1..], r);
    }
  }

  lemma PlusNone(h: Heap, pf: Pf)
    requires HeapInv(h, pf) && h.slab.arenas == map[]
    ensures Plus(h.sys, h, pf)
  {
    forall q: Owner ensures PlusAt(h.sys, h, pf, q) { }
  }

  /** Nothing handed out at the end: no arena is left, all seven lists are empty, every frame has the
      owner it had at the start, and new frames are page tables of the heap's process. */
  lemma HeapRunConserves(h: Heap, pf: Pf, poolSize: nat, calls: seq<Call>, r: Heap)
    requires HeapInv(h, pf) && h.slab.arenas == map[] && HeapRun(h, pf, poolSize, calls, r)
    requires forall i :: 0 <= i < |calls| ==> OwnCall(calls[i])
    requires r.slab.live == map[]
    ensures r.slab.arenas == map[] && |r.slab.free| == DESC_CNT && forall c: Class :: r.slab.free[c] == []
    ensures Inv(r.sys) && Extends(h.sys, r.sys) && r.sys.up == h.sys.up
    ensures forall f :: f in r.sys.own && f !in h.sys.own ==> r.sys.own[f].UTable? && pf == User(r.sys.own[f].dir)
    ensures forall q: Owner :: !q.UTable? ==> (Active(r.sys, q) <==> Active(h.sys, q))
  {
    PlusNone(h, pf);
    HeapRunKeeps(h, pf, poolSize, calls, r);
    HeapRunPlus(h.sys, h, pf, poolSize, calls, r);
    NothingLive(r.slab);
    forall q: Owner ensures !q.UTable? ==> (Active(r.sys, q) <==> Active(h.sys, q)) { assert PlusAt(h.sys, r, pf, q); }
    Conserved(h.sys, r.sys);
    forall f | f in r.sys.own && f !in h.sys.own ensures r.sys.own[f].UTable? && pf == User(r.sys.own[f].dir) {
      OldOwner(h.sys, r.sys, f);
      assert OwnedOk(r.sys, f) && PlusAt(h.sys, r, pf, r.sys.own[f]);
    }
    BackToUserBits(h.sys, r.sys);
  }

  /** For the kernel the machine's three bitmaps are then what they were; for a process its virtual
      bitmap and the user pool's are, and the kernel pool's differs by page tables of the process. */
  lemma BitmapsRestored(h: Heap, pf: Pf, poolSize: nat, calls: seq<Call>, r: Heap)
    requires HeapInv(h, pf) && h.slab.arenas == map[] && HeapRun(h, pf, poolSize, calls, r)
    requires forall i :: 0 <= i < |calls| ==> OwnCall(calls[i])
    requires r.slab.live == map[]
    ensures Inv(r.sys) && r.sys.up == h.sys.up && r.sys.kv.len == h.sys.kv.len && r.sys.uv.Keys == h.sys.uv.Keys
    ensures forall b :: 0 <= b < 8 * h.sys.kv.len ==> (r.sys.kv.v[b] <==> h.sys.kv.v[b])
    ensures forall d, k :: d in h.sys.uv && 0 <= k < 8 * USER_BYTES ==> (r.sys.uv[d].v[k] <==> h.sys.uv[d].v[k])
    ensures |r.sys.kp.v| == |h.sys.kp.v| && r.sys.kp.len == h.sys.kp.len
    ensures forall j :: 0 <= j < |h.sys.kp.v| && r.sys.kp.v[j] != h.sys.kp.v[j] ==>
              r.sys.kp.v[j] && POOL0 + j in r.sys.own &&
              r.sys.own[POOL0 + j].UTable? && pf == User(r.sys.own[POOL0 + j].dir)
    ensures pf.Kernel? ==> r.sys.own == h.sys.own && r.sys.kp == h.sys.kp
  {
    PlusNone(h, pf);
    HeapRunKeeps(h, pf, poolSize, calls, r);
    HeapRunPlus(h.sys, h, pf, poolSize, calls, r);
    HeapRunConserves(h, pf, poolSize, calls, r);
    SameBitsActive(h.sys, r.sys);
    TableBits(h.sys, r.sys, pf);
    if pf.Kernel? {
      assert r.sys.own == h.sys.own;
      SameOwnersSameBits(h.sys, r.sys);
    }
  }

  /** The kernel pool's bits that are new are those of new page tables. */
  lemma TableBits(s: Sys, r: Sys, pf: Pf)
    requires Core(s) && Core(r) && SameTails(s, r) && Extends(s, r)
    requires forall f :: f in r.own && f !in s.own ==> r.own[f].UTable? && pf == User(r.own[f].dir)
    ensures forall j :: 0 <= j < |s.kp.v| && r.kp.v[j] != s.kp.v[j] ==>
              r.kp.v[j] && POOL0 + j in r.own && r.own[POOL0 + j].UTable? && pf == User(r.own[POOL0 + j].dir)
  {
    forall j | 0 <= j < |s.kp.v| && r.kp.v[j] != s.kp.v[j]
      ensures r.kp.v[j] && POOL0 + j in r.own && POOL0 + j !in s.own
    {
      assert j < 8 * s.kp.len;
      assert (s.kp.v[j] <==> POOL0 + j in s.own) && (r.kp.v[j] <==> POOL0 + j in r.own);
    }
  }

  lemma SameBitsActive(s: Sys, r: Sys)
    requires Inv(s) && Inv(r) && r.kv.len == s.kv.len && r.uv.Keys == s.uv.Keys
    requires forall q: Owner {:trigger Active(r, q)} :: !q.UTable? ==> (Active(r, q) <==> Active(s, q))
    ensures forall b :: 0 <= b < 8 * s.kv.len ==> (r.kv.v[b] <==> s.kv.v[b])
    ensures forall d, k :: d in s.uv && 0 <= k < 8 * USER_BYTES ==> (r.uv[d].v[k] <==> s.uv[d].v[k])
  {
    forall b | 0 <= b < 8 * s.kv.len ensures r.kv.v[b] <==> s.kv.v[b] {
      assert Active(r, KHeap(b)) <==> Active(s, KHeap(b));
    }
    forall d, k | d in s.uv && 0 <= k < 8 * USER_BYTES ensures r.uv[d].v[k] <==> s.uv[d].v[k] {
      assert Active(r, UPage(d, USER_VP + k)) <==> Active(s, UPage(d, USER_VP + k));
    }
  }

  // ----- conservation among other heaps -----

  /** Where a page is: in a frame, or nowhere. */
  datatype Where = Unmapped | InFrame(f: Frame)

  /** Where page q is, if it is not one of the heap's own. */
  ghost function Rest(h: Heap, pf: Pf, q: Owner): Where
  {
    if Active(h.sys, q) && !ArenaOwner(h.slab, pf, q) then InFrame(FrameOf(EntryOf(h.sys, q))) else Unmapped
  }

  lemma RestStays(h: Heap, pf: Pf, r: Heap, q: Owner)
    requires Core(h.sys) && Core(r.sys) && Stays(h, r)
    ensures Rest(r, pf, q) == Rest(h, pf, q)
  {
    ArenaStays(h.slab, r.slab, pf, q);
    if Active(h.sys, q) { TranslationsKept(h.sys, r.sys, q); }
    assert Active(r.sys, q) <==> Active(h.sys, q);
  }

  lemma RestGrows(h: Heap, pf: Pf, r: Heap, k: nat, n: nat, q: Owner)
    requires Core(h.sys) && Core(r.sys) && Grows(h, pf, r, k, n) && !q.UTable?
    ensures Rest(r, pf, q) == Rest(h, pf, q)
  {
    ArenaGrown(h.slab, r.slab, pf, k, n, q);
    assert MappedAt(h.sys, r.sys, pf, k, n, q);
    if Active(h.sys, q) { TranslationsKept(h.sys, r.sys, q); }
  }

  lemma RestShrinks(h: Heap, pf: Pf, r: Heap, k: nat, q: Owner)
    requires Core(h.sys) && Core(r.sys) && Shrinks(h, pf, r, k)
    ensures Rest(r, pf, q) == Rest(h, pf, q)
  {
    var n := Span(h.slab.arenas[k]);
    ArenaShrunk(h.slab, r.slab, pf, k, n, q);
    assert ShrunkAt(h.sys, r.sys, pf, k, n, q);
    if Active(r.sys, q) {
      var f := FrameOf(EntryOf(h.sys, q));
      assert Backed(h.sys, q) && OwnShrunkAt(h.sys, r.sys, pf, k, n, f) && OwnedOk(r.sys, f);
    }
  }

  /** A call of the heap's own moves no page but pages of its own. */
  lemma OwnCallSpares(h: Heap, pf: Pf, poolSize: nat, call: Call, q: Owner)
    requires HeapInv(h, pf) && Allowed(h, pf, call) && OwnCall(call) && Step(h, pf, poolSize, call).Done?
    requires !q.UTable?
    ensures Rest(Step(h, pf, poolSize, call).value, pf, q) == Rest(h, pf, q)
  {
    var r := Step(h, pf, poolSize, call).value;
    StepOk(h, pf, poolSize, call);
    StepMoves(h, pf, poolSize, call);
    if Stays(h, r) {
      RestStays(h, pf, r, q);
    } else if k: nat, n: nat :| Grows(h, pf, r, k, n) {
      RestGrows(h, pf, r, k, n, q);
    } else {
      var k: nat :| Shrinks(h, pf, r, k);
      RestShrinks(h, pf, r, k, q);
    }
  }

  /** Where page q would be after the run if of all its calls only those of others had touched it. */
  ghost function OthersOnly(h: Heap, pf: Pf, poolSize: nat, calls: seq<Call>, r: Heap, q: Owner, at: Where): Where
    requires HeapInv(h, pf) && HeapRun(h, pf, poolSize, calls, r)
    decreases calls
  {
    if calls == [] then at
    else
      StepOk(h, pf, poolSize, calls[0]);
      var g := Step(h, pf, poolSize, calls[0]).value;
      OthersOnly(g, pf, poolSize, calls[1..], r, q, if OwnCall(calls[0]) then at else Rest(g, pf, q))
  }

  lemma {:induction false} RunSparesOthers(h: Heap, pf: Pf, poolSize: nat, calls: seq<Call>, r: Heap, q: Owner)
    requires HeapInv(h, pf) && HeapRun(h, pf, poolSize, calls, r) && !q.UTable?
    ensures Rest(r, pf, q) == OthersOnly(h, pf, poolSize, calls, r, q, Rest(h, pf, q))
    decreases calls
  {
    if calls != [] {
      StepOk(h, pf, poolSize, calls[0]);
      if OwnCall(calls[0]) { OwnCallSpares(h, pf, poolSize, calls[0], q); }
      RunSparesOthers(Step(h, pf, poolSize, calls[0]).value, pf, poolSize, calls[1..], r, q);
    }
  }

  /** With page operations of other heaps in between, a run that has freed everything it allocated has
      no arena left, and every page is mapped, and to the frame, that the others alone have left it. */
  lemma HeapRunNet(h: Heap, pf: Pf, poolSize: nat, calls: seq<Call>, r: Heap, q: Owner)
    requires HeapInv(h, pf) && h.slab.arenas == map[] && HeapRun(h, pf, poolSize, calls, r)
    requires r.slab.live == map[] && !q.UTable?
    ensures r.slab.arenas == map[] && |r.slab.free| == DESC_CNT && forall c: Class :: r.slab.free[c] == []
    ensures var before := if Active(h.sys, q) then InFrame(FrameOf(EntryOf(h.sys, q))) else Unmapped;
            var after := if Active(r.sys, q) then InFrame(FrameOf(EntryOf(r.sys, q))) else Unmapped;
            after == OthersOnly(h, pf, poolSize, calls, r, q, before)
  {
    HeapRunKeeps(h, pf, poolSize, calls, r);
    NothingLive(r.slab);
    RunSparesOthers(h, pf, poolSize, calls, r, q);
  }
}
