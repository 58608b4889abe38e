/** What holds in every state a machine can reach by allocating, freeing, creating processes and
    writing to its pages, from the memory mem_pool_init leaves. */
module PageRuns {
  import opened Paging
  import opened Frames
  import opened Pages
  import opened PageAlloc

  datatype Op =
    | Allocate(pf: Pf, cnt: nat)                   // get_kernel_pages, get_user_pages
    | Release(pf: Pf, k: nat, cnt: nat)            // mfree_page
    | Place(pf: Pf, k: nat)                        // get_a_page
    | NewProcess(cur: Frame, bits: Bits)           // create_page_dir with the process's bitmap
    | Data(f: Frame, j: nat, w: Word)              // a program's store into a page it has

  /** What callers owe: free what is allocated, write what is theirs. */
  ghost predicate Enabled(s: Sys, op: Op)
  {
    match op
    case Allocate(pf, cnt) => Usable(s, pf)
    case Release(pf, k, cnt) => Usable(s, pf) && k + cnt <= |VBits(s, pf).v| && Live(s, pf, k, cnt)
    case Place(pf, k) => Usable(s, pf) && k < 8 * VBits(s, pf).len
    case NewProcess(cur, bits) => IsDir(s, cur) && FreshUserBits(bits)
    case Data(f, j, w) => f in s.own && Plain(s, f) && j < 1024
  }

  function Outcome(s: Sys, a: Alloc): Ran<Sys>
  {
    match a
    case Crash => Panic
    case Null => Done(s)
    case Got(r, _) => Done(r)
  }

  ghost function Next(s: Sys, op: Op): Ran<Sys>
    requires Core(s) && Enabled(s, op)
  {
    match op
    case Allocate(pf, cnt) => Outcome(s, GetPages(s, pf, cnt))
    case Release(pf, k, cnt) => Done(MfreePage(s, pf, k, cnt))
    case Place(pf, k) => GetAPage(s, pf, pf.User?, k)
    case NewProcess(cur, bits) => Outcome(s, CreatePageDir(s, cur, bits))
    case Data(f, j, w) => Done(s.(m := s.m[f * 1024 + j := w]))
  }

  lemma DataKeeps(s: Sys, f: Frame, j: nat, w: Word)
    requires Inv(s) && Enabled(s, Data(f, j, w))
    ensures var r := s.(m := s.m[f * 1024 + j := w]);
            Inv(r) && forall q {:trigger Active(r, q)} :: Active(r, q) <==> Active(s, q)
  {
    var m := s.m[f * 1024 + j := w];
    forall y: Frame, i: nat | i < 1024 && !Plain(s, y) ensures Entry(m, y, i) == Entry(s.m, y, i) {
      EntryWritten(s.m, f, j, w, y, i);
    }
    PlainKeeps(s, m);
    SameVirtual(s, s.(m := m));
  }

  lemma StepKeeps(s: Sys, op: Op)
    requires Inv(s) && Enabled(s, op) && Next(s, op).Done?
    ensures Inv(Next(s, op).value)
  {
    match op
    case Allocate(pf, cnt) =>
      var a := GetPages(s, pf, cnt);
      if a.Got? { GetPagesKeeps(s, pf, cnt, a.s, a.k); }
    case Release(pf, k, cnt) => MfreeKeeps(s, pf, k, cnt);
    case Place(pf, k) => GetAPageKeeps(s, pf, pf.User?, k, Next(s, op).value);
    case NewProcess(cur, bits) => CreateKeeps(s, cur, bits);
    case Data(f, j, w) => DataKeeps(s, f, j, w);
  }

  /** r is where the operations lead from s, every one of them getting through. */
  ghost predicate Runs(s: Sys, ops: seq<Op>, r: Sys)
    requires Inv(s)
    decreases ops
  {
    if ops == [] then r == s
    else Enabled(s, ops[0]) && Next(s, ops[0]).Done? &&
         (StepKeeps(s, ops[0]);
          Runs(Next(s, ops[0]).value, ops[1..], r))
  }

  /** In every reachable state set pool bits, owners, page-table entries and virtual bits agree. */
  lemma {:induction false} RunKeeps(s: Sys, ops: seq<Op>, r: Sys)
    requires Inv(s) && Runs(s, ops, r)
    ensures Inv(r)
    decreases ops
  {
    if ops != [] {
      StepKeeps(s, ops[0]);
      RunKeeps(Next(s, ops[0]).value, ops[1..], r);
    }
  }

  /** And in every reachable state every directory, however old, translates the kernel half alike. */
  lemma KernelHalfShared(s: Sys, ops: seq<Op>, r: Sys, d: Frame, e: Frame, vp: Page)
    requires Inv(s) && Runs(s, ops, r) && IsDir(r, d) && IsDir(r, e) && KERNEL_VP <= vp < 1023 * 1024
    ensures WalkPage(r.m, d, vp) == WalkPage(r.m, e, vp) && HasTable(r.m, d, vp)
  {
    RunKeeps(s, ops, r);
    KernelShared(r, d, vp);
    KernelShared(r, e, vp);
  }

  // ----- conservation -----

  /** The operation gives back no page that was there in s0. */
  ghost predicate Spares(s0: Sys, op: Op)
  {
    op.Release? ==> forall q {:trigger InRun(q, op.pf, op.k, op.cnt)} ::
                      InRun(q, op.pf, op.k, op.cnt) ==> !Active(s0, q)
  }

  lemma ReleaseSpares(s0: Sys, s: Sys, op: Op)
    requires Inv(s0) && Inv(s) && Enabled(s, op) && op.Release? && SameTails(s0, s) && Extends(s0, s) && Spares(s0, op)
    ensures SameTails(s0, Next(s, op).value) && Extends(s0, Next(s, op).value)
  {
    var r := Next(s, op).value;
    MfreeKeeps(s, op.pf, op.k, op.cnt);
    forall f | f in s0.own ensures f in r.own && r.own[f] == s0.own[f] {
      assert OwnedOk(s0, f) && !InRun(s0.own[f], op.pf, op.k, op.cnt);
      assert OwnShrunkAt(s, r, op.pf, op.k, op.cnt, f);
    }
  }

  lemma Grown(s: Sys, op: Op)
    requires Inv(s) && Enabled(s, op) && Next(s, op).Done? && !op.Release?
    ensures SameTails(s, Next(s, op).value) && Extends(s, Next(s, op).value)
  {
    match op
    case Allocate(pf, cnt) =>
      var a := GetPages(s, pf, cnt);
      if a.Got? { GetPagesKeeps(s, pf, cnt, a.s, a.k); }
    case Place(pf, k) => GetAPageKeeps(s, pf, pf.User?, k, Next(s, op).value);
    case NewProcess(cur, bits) => CreateKeeps(s, cur, bits);
    case Data(f, j, w) =>
  }

  lemma StepSpares(s0: Sys, s: Sys, op: Op)
    requires Inv(s0) && Inv(s) && Enabled(s, op) && Next(s, op).Done?
    requires SameTails(s0, s) && Extends(s0, s) && Spares(s0, op)
    ensures SameTails(s0, Next(s, op).value) && Extends(s0, Next(s, op).value)
  {
    if op.Release? { ReleaseSpares(s0, s, op); } else { Grown(s, op); }
  }

  lemma {:induction false} RunSpares(s0: Sys, s: Sys, ops: seq<Op>, r: Sys)
    requires Inv(s0) && Inv(s) && Runs(s, ops, r) && SameTails(s0, s) && Extends(s0, s)
    requires forall i :: 0 <= i < |ops| ==> Spares(s0, ops[i])
    ensures SameTails(s0, r) && Extends(s0, r)
    decreases ops
  {
    if ops != [] {
      StepKeeps(s, ops[0]);
      StepSpares(s0, s, ops[0]);
      RunSpares(s0, Next(s, ops[0]).value, ops[1..], r);
    }
  }

  /** Whatever a run did in between, once the mapped pages are again those it started with (and it
      never gave one of those back), each frame has the owner it had, the user pool's bitmap is what
      it was, and the kernel's differs by page tables of processes only. */
  lemma RunConserves(s: Sys, ops: seq<Op>, r: Sys)
    requires Inv(s) && Runs(s, ops, r) && forall i :: 0 <= i < |ops| ==> Spares(s, ops[i])
    requires forall q: Owner {:trigger Active(r, q)} :: !q.UTable? && Active(r, q) ==> Active(s, q)
    ensures Extends(s, r) && r.up == s.up
    ensures forall f :: f in r.own && f !in s.own ==> r.own[f].UTable?
    ensures (forall f :: f in r.own && f !in s.own ==> !r.own[f].UTable?) ==> r.own == s.own && r.kp == s.kp
  {
    RunKeeps(s, ops, r);
    RunSpares(s, s, ops, r);
    Conserved(s, r);
    BackToUserBits(s, r);
    if forall f :: f in r.own && f !in s.own ==> !r.own[f].UTable? {
      assert r.own == s.own;
      SameOwnersSameBits(s, r);
    }
  }

  /** Kernel threads only. */
  predicate KernelOp(op: Op)
  {
    match op
    case Allocate(pf, _) => pf.Kernel?
    case Release(pf, _, _) => pf.Kernel?
    case Place(pf, _) => pf.Kernel?
    case NewProcess(_, _) => true
    case Data(_, _, _) => true
  }

  lemma KernelStepTables(s: Sys, op: Op, q: Owner)
    requires Inv(s) && Enabled(s, op) && Next(s, op).Done? && KernelOp(op) && q.UTable?
    ensures Active(Next(s, op).value, q) ==> Active(s, q)
  {
    var r := Next(s, op).value;
    match op
    case Allocate(pf, cnt) =>
      var a := GetPages(s, pf, cnt);
      if a.Got? { GetPagesKeeps(s, pf, cnt, a.s, a.k); assert MappedAt(s, r, pf, a.k, cnt, q); }
    case Release(pf, k, cnt) => MfreeKeeps(s, pf, k, cnt); assert ShrunkAt(s, r, pf, k, cnt, q);
    case Place(pf, k) => GetAPageKeeps(s, pf, pf.User?, k, r); assert MappedAt(s, r, pf, k, 1, q);
    case NewProcess(cur, bits) =>
      CreateKeeps(s, cur, bits);
      var a := CreatePageDir(s, cur, bits);
      if a.Got? { assert MappedAt(s, r, Kernel, a.k, 1, q); }
    case Data(f, j, w) => DataKeeps(s, f, j, w);
  }

  lemma {:induction false} KernelRunTables(s: Sys, ops: seq<Op>, r: Sys, q: Owner)
    requires Inv(s) && Runs(s, ops, r) && q.UTable? && forall i :: 0 <= i < |ops| ==> KernelOp(ops[i])
    ensures Active(r, q) ==> Active(s, q)
    decreases ops
  {
    if ops != [] {
      StepKeeps(s, ops[0]);
      KernelRunTables(Next(s, ops[0]).value, ops[1..], r, q);
      KernelStepTables(s, ops[0], q);
    }
  }

  /** A kernel run that has freed all it took leaves both physical bitmaps, every bit of the kernel's
      virtual bitmap and all owners exactly as it found them. */
  lemma KernelRunConserves(s: Sys, ops: seq<Op>, r: Sys)
    requires Inv(s) && Runs(s, ops, r)
    requires forall i :: 0 <= i < |ops| ==> Spares(s, ops[i]) && KernelOp(ops[i])
    requires forall q: Owner {:trigger Active(r, q)} :: !q.UTable? && Active(r, q) ==> Active(s, q)
    ensures Inv(r) && r.own == s.own && r.kp == s.kp && r.up == s.up && r.kv.len == s.kv.len
    ensures forall b :: 0 <= b < 8 * s.kv.len ==> (r.kv.v[b] <==> s.kv.v[b])
  {
    RunKeeps(s, ops, r);
    RunSpares(s, s, ops, r);
    forall f | f in r.own && f !in s.own ensures !r.own[f].UTable? {
      assert OwnedOk(r, f);
      if r.own[f].UTable? { KernelRunTables(s, ops, r, r.own[f]); }
      OldOwner(s, r, f);
    }
    RunConserves(s, ops, r);
    SameHeapBits(s, r);
  }

  lemma SameHeapBits(s: Sys, r: Sys)
    requires Inv(s) && Inv(r) && Extends(s, r) && r.kv.len == s.kv.len
    requires forall q: Owner {:trigger Active(r, q)} :: !q.UTable? && Active(r, q) ==> Active(s, q)
    ensures forall b :: 0 <= b < 8 * s.kv.len ==> (r.kv.v[b] <==> s.kv.v[b])
  {
    forall b | 0 <= b < 8 * s.kv.len ensures r.kv.v[b] <==> s.kv.v[b] {
      if Active(s, KHeap(b)) { TranslationsKept(s, r, KHeap(b)); }
    }
  }
}
