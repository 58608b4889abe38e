/** The page allocator of kernel/memory.c: malloc_page, mfree_page, and what every call keeps.
    Module MemoryManager proves the code against these functions. */
module PageAlloc {
  import opened Bitmaps
  import opened Paging
  import opened Frames
  import opened Pages
  import opened PageCounts

  function Indices(k: nat, cnt: nat): seq<nat>
  {
    seq(cnt, i requires 0 <= i < cnt => k + i)
  }

  /** malloc_page's loop, over the pages still to map. */
  function MapPages(s: Sys, pf: Pf, ks: seq<nat>): Ran<Sys>
    decreases |ks|
  {
    if ks == [] then Done(s)
    else if !(Geometry(s) && Usable(s, pf) && ks[0] <= 8 * VBits(s, pf).len) then Panic
    else
      match MapPage(s, pf, ks[0])
      case Panic => Panic
      case Done(t) => MapPages(t, pf, ks[1..])
  }

  /** malloc_page's loop over a run gets through exactly when the pools hold what the run costs.
      Then it keeps everything and maps exactly the pages of the run. */
  ghost function MapRun(s: Sys, pf: Pf, k: nat, cnt: nat): (r: Ran<Sys>)
    requires Core(s) && Usable(s, pf) && k + cnt <= 8 * VBits(s, pf).len + 1
    ensures r == MapPages(s, pf, Indices(k, cnt))
    ensures r.Done? ==> Core(r.value) && Grew(s, r.value, pf, k, cnt)
    ensures Open(s, pf, k, cnt) ==> (r.Done? <==> Affordable(s, pf, k, cnt))
    decreases cnt
  {
    if cnt == 0 then
      GrewNone(s, pf, k);
      Done(s)
    else
      assert Indices(k, cnt)[0] == k;
      match MapPage(s, pf, k)
      case Panic =>
        RunStops(s, pf, k, cnt);
        Panic
      case Done(t) =>
        var next: nat, rest: nat := k + 1, cnt - 1;
        assert Indices(k, cnt)[1..] == Indices(next, rest);
        RunGoesOn(s, pf, k, cnt, t, next, rest);
        var r := MapRun(t, pf, next, rest);
        if r.Panic? then Panic
        else
          GrewThen(s, t, r.value, pf, k, next, rest, cnt);
          r
  }

  // ----- malloc_page -----

  /** A call stops in an ASSERT, returns NULL having changed nothing, or maps the run from page k. */
  datatype Alloc = Crash | Null | Got(s: Sys, k: nat)

  ghost function MallocPage(s: Sys, pf: Pf, cnt: nat): Alloc
    requires Core(s) && Usable(s, pf)
  {
    if !(0 < cnt < 3840) then Crash
    else
      var b := VBits(s, pf);
      match ScanOf(b.v, b.len, cnt)
      case Panicked => Crash
      case NoRun => Null
      case At(k) =>
        ScanOfAt(b.v, b.len, cnt, k);
        SetVKeeps(s, pf, k, cnt, true);
        if pf.User? && !((USER_VP + k) * PG_SIZE < 0xc000_0000 - PG_SIZE) then Crash
        else
          match MapRun(SetV(s, pf, k, cnt, true), pf, k, cnt)
          case Panic => Crash
          case Done(r) => Got(r, k)
  }

  /** Virtual bits decide no mapping. */
  lemma SetVKeeps(s: Sys, pf: Pf, k: nat, cnt: nat, value: bool)
    requires Core(s) && Usable(s, pf) && k + cnt <= |VBits(s, pf).v|
    ensures var r := SetV(s, pf, k, cnt, value);
            Core(r) && SamePools(s, r) && r.kv.len == s.kv.len && Usable(r, pf) &&
            forall q {:trigger Active(r, q)} :: Active(r, q) <==> Active(s, q)
  {
    var r := SetV(s, pf, k, cnt, value);
    assert Geometry(r) && r.uv.Keys == s.uv.Keys;
    forall q ensures SameEntry(s, r, q) { SameWords(s, r, q); }
    forall q ensures Active(r, q) <==> Active(s, q) { assert SameEntry(s, r, q); }
    OwnersKept(s, r);
    forall d | IsDir(r, d) ensures DirOk(r.m, d) { assert DirOk(s.m, d); }
  }

  /** The virtual bits follow the pages. */
  lemma MappedBits(s: Sys, r: Sys, pf: Pf, k: nat, cnt: nat)
    requires Geometry(s) && VirtualOk(s) && Usable(s, pf) && k + cnt <= 8 * VBits(s, pf).len + 1
    requires Geometry(r) && Mapped(s, r, pf, k, cnt)
    requires var t := SetV(s, pf, k, cnt, true); r.uv == t.uv && r.kv == t.kv
    ensures VirtualOk(r)
  {
    forall b | 0 <= b <= 8 * r.kv.len ensures r.kv.v[b] == (InRun(KHeap(b), pf, k, cnt) || s.kv.v[b]) { }
    forall b | 0 <= b <= 8 * r.kv.len && Active(r, KHeap(b)) ensures r.kv.v[b] {
      assert MappedAt(s, r, pf, k, cnt, KHeap(b));
    }
    forall b | 0 <= b < 8 * r.kv.len && r.kv.v[b] ensures Active(r, KHeap(b)) {
      assert MappedAt(s, r, pf, k, cnt, KHeap(b));
    }
    forall d, j | d in r.uv && 0 <= j < 8 * USER_BYTES
      ensures r.uv[d].v[j] <==> Active(r, UPage(d, USER_VP + j))
    {
      assert MappedAt(s, r, pf, k, cnt, UPage(d, USER_VP + j));
      assert r.uv[d].v[j] == (InRun(UPage(d, USER_VP + j), pf, k, cnt) || s.uv[d].v[j]);
    }
  }

  lemma RunThroughBits(s: Sys, t: Sys, r: Sys, pf: Pf, k: nat, cnt: nat)
    requires Mapped(t, r, pf, k, cnt) && forall q {:trigger Active(t, q)} :: Active(t, q) <==> Active(s, q)
    ensures Mapped(s, r, pf, k, cnt)
  {
    forall q ensures MappedAt(s, r, pf, k, cnt, q) {
      assert MappedAt(t, r, pf, k, cnt, q) && (Active(t, q) <==> Active(s, q));
    }
  }

  /** A successful call maps the lowest run of free pages, page for page and nothing else, gives each
      a frame nobody had, and keeps the bitmaps, the owners and the tables in step. */
  lemma MallocKeeps(s: Sys, pf: Pf, cnt: nat, r: Sys, k: nat)
    requires Inv(s) && Usable(s, pf) && MallocPage(s, pf, cnt) == Got(r, k)
    ensures Inv(r) && SameTails(s, r) && Extends(s, r) && Mapped(s, r, pf, k, cnt)
    ensures 0 < cnt < 3840 && FirstFit(Window(VBits(s, pf).v, VBits(s, pf).len, cnt), cnt, k)
    ensures k + cnt <= 8 * VBits(s, pf).len + 1 && (pf.User? ==> k + cnt <= 8 * USER_BYTES)
    ensures var t := SetV(s, pf, k, cnt, true); r.uv == t.uv && r.kv == t.kv
  {
    var b := VBits(s, pf);
    ScanOfAt(b.v, b.len, cnt, k);
    var t := SetV(s, pf, k, cnt, true);
    SetVKeeps(s, pf, k, cnt, true);
    RunThroughBits(s, t, r, pf, k, cnt);
    MappedBits(s, r, pf, k, cnt);
    if pf.User? { RunInside(s, pf, k, cnt, r); }
  }

  lemma ClearRunFresh(s: Sys, pf: Pf, k: nat, cnt: nat)
    requires Inv(s) && Usable(s, pf) && k + cnt <= 8 * VBits(s, pf).len + 1
    requires forall i :: k <= i < k + cnt ==> !VBits(s, pf).v[i]
    ensures Fresh(SetV(s, pf, k, cnt, true), pf, k, cnt)
  {
    var t := SetV(s, pf, k, cnt, true);
    SetVKeeps(s, pf, k, cnt, true);
    forall q: Owner | InRun(q, pf, k, cnt) ensures !Active(t, q) {
      assert Active(t, q) <==> Active(s, q);
      if pf.Kernel? { assert !s.kv.v[q.b]; }
      else if Typed(s, q) { assert q.vp == USER_VP + (q.vp - USER_VP) && !s.uv[pf.dir].v[q.vp - USER_VP]; }
    }
  }

  /** What malloc_page needs to return page k: k starts the lowest run of free pages, the run ends
      inside the process's half, short of its last page but one, and the pools can pay for it. */
  ghost predicate CanMalloc(s: Sys, pf: Pf, cnt: nat, k: nat)
    requires Geometry(s) && Usable(s, pf)
  {
    0 < cnt < 3840 && FirstFit(Window(VBits(s, pf).v, VBits(s, pf).len, cnt), cnt, k) &&
    (pf.User? ==> k + cnt <= 8 * USER_BYTES && USER_VP + k < KERNEL_VP - 1) && Affordable(s, pf, k, cnt)
  }

  /** A process's run that reaches the kernel half stops at its first page there. */
  lemma RunInside(s: Sys, pf: Pf, k: nat, cnt: nat, r: Sys)
    requires Core(s) && Usable(s, pf) && k + cnt <= 8 * VBits(s, pf).len + 1
    requires Geometry(r) && Mapped(s, r, pf, k, cnt) && pf.User?
    ensures k + cnt <= 8 * USER_BYTES || cnt == 0
  {
    var past := UPage(pf.dir, KERNEL_VP);
    assert !Active(r, past) && MappedAt(s, r, pf, k, cnt, past);
  }

  lemma RunAtIff(s: Sys, pf: Pf, k: nat, cnt: nat)
    requires Inv(s) && Usable(s, pf) && 0 < cnt && k + cnt <= 8 * VBits(s, pf).len + 1
    requires forall i :: k <= i < k + cnt ==> !VBits(s, pf).v[i]
    ensures Core(SetV(s, pf, k, cnt, true)) && Usable(SetV(s, pf, k, cnt, true), pf)
    ensures MapRun(SetV(s, pf, k, cnt, true), pf, k, cnt).Done? <==>
              (pf.User? ==> k + cnt <= 8 * USER_BYTES) && Affordable(s, pf, k, cnt)
  {
    ClearRunFresh(s, pf, k, cnt);
    SetVKeeps(s, pf, k, cnt, true);
    var t := SetV(s, pf, k, cnt, true);
    var run := MapRun(t, pf, k, cnt);
    if run.Done? && pf.User? { RunInside(t, pf, k, cnt, run.value); }
  }

  lemma MallocGotIff(s: Sys, pf: Pf, cnt: nat, k: nat)
    requires Inv(s) && Usable(s, pf)
    ensures (MallocPage(s, pf, cnt).Got? && MallocPage(s, pf, cnt).k == k) <==> CanMalloc(s, pf, cnt, k)
  {
    var b := VBits(s, pf);
    if 0 < cnt < 3840 {
      FirstFitFound(b.v, b.len, cnt, k);
      if ScanOf(b.v, b.len, cnt) == Scan.At(k) {
        ScanOfAt(b.v, b.len, cnt, k);
        RunAtIff(s, pf, k, cnt);
      }
    }
  }

  /** NULL means exactly that no run is free; running out of frames is a failed ASSERT instead. */
  lemma MallocNullIff(s: Sys, pf: Pf, cnt: nat)
    requires Inv(s) && Usable(s, pf)
    ensures var b := VBits(s, pf);
            MallocPage(s, pf, cnt).Null? <==>
              0 < cnt < 3840 && !AllSet(b.v[..8 * b.len]) && !HasRun(Window(b.v, b.len, cnt), cnt)
  {
    if 0 < cnt < 3840 { ScanDetermined(VBits(s, pf).v, VBits(s, pf).len, cnt, NoRun); }
  }

  /** No frame changes hands, so no page that was mapped translates differently. */
  lemma TranslationsKept(s: Sys, r: Sys, o: Owner)
    requires Core(s) && Core(r) && Extends(s, r) && Active(s, o)
    ensures Active(r, o) && FrameOf(EntryOf(r, o)) == FrameOf(EntryOf(s, o))
  {
    assert Backed(s, o);
    assert OwnedOk(r, FrameOf(EntryOf(s, o)));
  }

  // ----- mfree_page -----

  /** What a caller may free: mapped pages, none of them a directory in use. */
  ghost predicate LiveAt(s: Sys, pf: Pf, j: nat)
  {
    var o := OwnerAt(pf, j);
    Active(s, o) && FrameOf(EntryOf(s, o)) !in s.uv
  }

  ghost predicate Live(s: Sys, pf: Pf, k: nat, cnt: nat)
  {
    forall j: nat {:trigger LiveAt(s, pf, j)} :: k <= j < k + cnt ==> LiveAt(s, pf, j)
  }

  ghost predicate ShrunkAt(s: Sys, r: Sys, pf: Pf, k: nat, cnt: nat, q: Owner)
  {
    Active(r, q) <==> Active(s, q) && !InRun(q, pf, k, cnt)
  }

  ghost predicate OwnShrunkAt(s: Sys, r: Sys, pf: Pf, k: nat, cnt: nat, f: Frame)
  {
    (f in r.own <==> f in s.own && !InRun(s.own[f], pf, k, cnt)) && (f in r.own ==> r.own[f] == s.own[f])
  }

  /** r is s without the pages of the run. */
  ghost predicate Shrunk(s: Sys, r: Sys, pf: Pf, k: nat, cnt: nat)
  {
    SameTails(s, r) && r.uv == s.uv && r.kv == s.kv &&
    (forall q {:trigger ShrunkAt(s, r, pf, k, cnt, q)} :: ShrunkAt(s, r, pf, k, cnt, q)) &&
    (forall f {:trigger OwnShrunkAt(s, r, pf, k, cnt, f)} :: OwnShrunkAt(s, r, pf, k, cnt, f))
  }

  /** One turn of mfree_page's loop: pfree and page_table_pte_remove. */
  ghost function UnmapPage(s: Sys, pf: Pf, k: nat): Sys
    requires Core(s) && LiveAt(s, pf, k)
  {
    FreedPool(s, OwnerAt(pf, k));
    UnmapOwner(s, OwnerAt(pf, k))
  }

  lemma UnmapPageKeeps(s: Sys, pf: Pf, k: nat, r: Sys)
    requires Core(s) && LiveAt(s, pf, k) && r == UnmapPage(s, pf, k)
    ensures Core(r) && Shrunk(s, r, pf, k, 1)
  {
    var o := OwnerAt(pf, k);
    FreedPool(s, o);
    UnmapKeeps(s, o);
    forall q ensures ShrunkAt(s, r, pf, k, 1, q) { assert Active(r, q) <==> Active(s, q) && q != o; }
    assert Backed(s, o);
    forall f ensures OwnShrunkAt(s, r, pf, k, 1, f) {
      if f in s.own { assert OwnedOk(s, f); }
    }
  }

  lemma LiveAfter(s: Sys, r: Sys, pf: Pf, k: nat, next: nat, rest: nat)
    requires Core(s) && Core(r) && Shrunk(s, r, pf, k, 1) && next == k + 1
    requires Live(s, pf, k, rest + 1)
    ensures Live(r, pf, next, rest)
  {
    forall j: nat | next <= j < next + rest ensures LiveAt(r, pf, j) {
      var o := OwnerAt(pf, j);
      assert LiveAt(s, pf, j) && ShrunkAt(s, r, pf, k, 1, o);
      assert Backed(s, o) && Backed(r, o);
      var f := FrameOf(EntryOf(r, o));
      assert OwnShrunkAt(s, r, pf, k, 1, f) && OwnedOk(s, f);
    }
  }

  lemma ShrunkThen(s: Sys, t: Sys, r: Sys, pf: Pf, k: nat, next: nat, rest: nat, cnt: nat)
    requires Shrunk(s, t, pf, k, 1) && Shrunk(t, r, pf, next, rest) && next == k + 1 && cnt == rest + 1
    ensures Shrunk(s, r, pf, k, cnt)
  {
    forall q ensures ShrunkAt(s, r, pf, k, cnt, q) {
      assert ShrunkAt(s, t, pf, k, 1, q) && ShrunkAt(t, r, pf, next, rest, q);
    }
    forall f ensures OwnShrunkAt(s, r, pf, k, cnt, f) {
      assert OwnShrunkAt(s, t, pf, k, 1, f) && OwnShrunkAt(t, r, pf, next, rest, f);
    }
  }

  lemma ShrunkNone(s: Sys, pf: Pf, k: nat)
    requires Core(s)
    ensures Shrunk(s, s, pf, k, 0)
  {
    forall q ensures ShrunkAt(s, s, pf, k, 0, q) { }
    forall f ensures OwnShrunkAt(s, s, pf, k, 0, f) { }
  }

  /** mfree_page's loop, over the pages still to free. */
  ghost function UnmapPages(s: Sys, pf: Pf, ks: seq<nat>): Sys
    decreases |ks|
  {
    if ks == [] || !Core(s) || !LiveAt(s, pf, ks[0]) then s
    else UnmapPages(UnmapPage(s, pf, ks[0]), pf, ks[1..])
  }

  /** mfree_page's loop over a run of live pages keeps everything and unmaps exactly them. */
  ghost function UnmapRun(s: Sys, pf: Pf, k: nat, cnt: nat): (r: Sys)
    requires Core(s) && Live(s, pf, k, cnt)
    ensures r == UnmapPages(s, pf, Indices(k, cnt))
    ensures Core(r) && Shrunk(s, r, pf, k, cnt)
    decreases cnt
  {
    if cnt == 0 then
      ShrunkNone(s, pf, k);
      s
    else
      assert LiveAt(s, pf, k) && Indices(k, cnt)[0] == k;
      var t := UnmapPage(s, pf, k);
      var next: nat, rest: nat := k + 1, cnt - 1;
      assert Indices(k, cnt)[1..] == Indices(next, rest);
      UnmapPageKeeps(s, pf, k, t);
      LiveAfter(s, t, pf, k, next, rest);
      var r := UnmapRun(t, pf, next, rest);
      ShrunkThen(s, t, r, pf, k, next, rest, cnt);
      r
  }

  ghost function MfreePage(s: Sys, pf: Pf, k: nat, cnt: nat): Sys
    requires Core(s) && Usable(s, pf) && Live(s, pf, k, cnt) && k + cnt <= |VBits(s, pf).v|
  {
    SetV(UnmapRun(s, pf, k, cnt), pf, k, cnt, false)
  }

  lemma ShrunkBits(s: Sys, r: Sys, pf: Pf, k: nat, cnt: nat)
    requires Geometry(s) && VirtualOk(s) && Usable(s, pf) && k + cnt <= |VBits(s, pf).v|
    requires Geometry(r) && forall q {:trigger ShrunkAt(s, r, pf, k, cnt, q)} :: ShrunkAt(s, r, pf, k, cnt, q)
    requires var t := SetV(s, pf, k, cnt, false); r.uv == t.uv && r.kv == t.kv
    ensures VirtualOk(r)
  {
    forall b | 0 <= b <= 8 * r.kv.len ensures r.kv.v[b] == (!InRun(KHeap(b), pf, k, cnt) && s.kv.v[b]) { }
    forall b | 0 <= b <= 8 * r.kv.len && Active(r, KHeap(b)) ensures r.kv.v[b] {
      assert ShrunkAt(s, r, pf, k, cnt, KHeap(b));
    }
    forall b | 0 <= b < 8 * r.kv.len && r.kv.v[b] ensures Active(r, KHeap(b)) {
      assert ShrunkAt(s, r, pf, k, cnt, KHeap(b));
    }
    forall d, j | d in r.uv && 0 <= j < 8 * USER_BYTES
      ensures r.uv[d].v[j] <==> Active(r, UPage(d, USER_VP + j))
    {
      assert ShrunkAt(s, r, pf, k, cnt, UPage(d, USER_VP + j));
      assert r.uv[d].v[j] == (!InRun(UPage(d, USER_VP + j), pf, k, cnt) && s.uv[d].v[j]);
    }
  }

  /** What mfree_page removes, and no more: pages, owners, frames. */
  ghost predicate Freed(s: Sys, r: Sys, pf: Pf, k: nat, cnt: nat)
  {
    SameTails(s, r) &&
    (forall q {:trigger ShrunkAt(s, r, pf, k, cnt, q)} :: ShrunkAt(s, r, pf, k, cnt, q)) &&
    (forall f {:trigger OwnShrunkAt(s, r, pf, k, cnt, f)} :: OwnShrunkAt(s, r, pf, k, cnt, f))
  }

  /** Freeing live pages keeps everything, unmaps exactly them and gives exactly their frames back. */
  lemma MfreeKeeps(s: Sys, pf: Pf, k: nat, cnt: nat)
    requires Inv(s) && Usable(s, pf) && Live(s, pf, k, cnt) && k + cnt <= |VBits(s, pf).v|
    ensures var r := MfreePage(s, pf, k, cnt);
            Inv(r) && Freed(s, r, pf, k, cnt) &&
            r.uv == SetV(s, pf, k, cnt, false).uv && r.kv == SetV(s, pf, k, cnt, false).kv
  {
    var t := UnmapRun(s, pf, k, cnt);
    var r := MfreePage(s, pf, k, cnt);
    SetVKeeps(t, pf, k, cnt, false);
    forall q ensures ShrunkAt(s, r, pf, k, cnt, q) {
      assert ShrunkAt(s, t, pf, k, cnt, q) && (Active(r, q) <==> Active(t, q));
    }
    forall f ensures OwnShrunkAt(s, r, pf, k, cnt, f) { assert OwnShrunkAt(s, t, pf, k, cnt, f); }
    ShrunkBits(s, r, pf, k, cnt);
  }

  // ----- conservation -----

  /** Two good states in which the same frames have owners have the same physical bitmaps. */
  lemma SameOwnersSameBits(s: Sys, r: Sys)
    requires Core(s) && Core(r) && SameTails(s, r) && r.own.Keys == s.own.Keys
    ensures r.kp == s.kp && r.up == s.up
  {
    forall j | 0 <= j < |s.kp.v| ensures r.kp.v[j] == s.kp.v[j] {
      if j < 8 * s.kp.len { assert s.kp.v[j] <==> POOL0 + j in s.own; }
    }
    forall j | 0 <= j < |s.up.v| ensures r.up.v[j] == s.up.v[j] {
      if j < 8 * s.up.len { assert s.up.v[j] <==> s.uStart + j in s.own; }
    }
  }

  lemma OldOwner(s: Sys, r: Sys, f: Frame)
    requires Core(s) && Core(r) && Extends(s, r) && f in r.own
    ensures Active(s, r.own[f]) ==> f in s.own && s.own[f] == r.own[f]
  {
    assert OwnedOk(r, f);
    if Active(s, r.own[f]) {
      TranslationsKept(s, r, r.own[f]);
      assert Backed(s, r.own[f]);
    }
  }

  /** If no frame of s changed hands and the pages mapped are those of s again, then every frame has
      the owner it had in s, and only page tables can have come on top. */
  lemma Conserved(s: Sys, r: Sys)
    requires Core(s) && Core(r) && Extends(s, r)
    requires forall q: Owner {:trigger Active(r, q)} :: !q.UTable? && Active(r, q) ==> Active(s, q)
    ensures forall f :: f in r.own && !r.own[f].UTable? ==> f in s.own && s.own[f] == r.own[f]
  {
    forall f | f in r.own && !r.own[f].UTable? ensures f in s.own && s.own[f] == r.own[f] {
      assert OwnedOk(r, f) && Active(r, r.own[f]);
      OldOwner(s, r, f);
    }
  }

  lemma UndoOwners(s: Sys, r: Sys, u: Sys, pf: Pf, k: nat, cnt: nat)
    requires Core(s) && Core(u) && Extends(s, r) && Mapped(s, r, pf, k, cnt) && Freed(r, u, pf, k, cnt)
    requires SameTails(s, r)
    ensures SameTails(s, u) && Extends(s, u) && u.up == s.up
    ensures forall f :: f in u.own && f !in s.own ==> u.own[f].UTable? && pf == User(u.own[f].dir)
    ensures pf.Kernel? ==> u.own == s.own && u.kp == s.kp
  {
    ExtendsBack(s, r, u, pf, k, cnt);
    BackToOwners(s, r, u, pf, k, cnt);
    BackToUserBits(s, u);
    if pf.Kernel? {
      assert u.own == s.own;
      SameOwnersSameBits(s, u);
    }
  }

  lemma BitsBack(s: Sys, r: Sys, u: Sys, pf: Pf, k: nat, cnt: nat)
    requires Usable(s, pf) && k + cnt <= |VBits(s, pf).v|
    requires forall i :: k <= i < k + cnt ==> !VBits(s, pf).v[i]
    requires var t := SetV(s, pf, k, cnt, true); r.uv == t.uv && r.kv == t.kv
    requires var t := SetV(r, pf, k, cnt, false); u.uv == t.uv && u.kv == t.kv
    ensures Usable(u, pf) && VBits(u, pf) == VBits(s, pf)
  {
    var v := VBits(s, pf).v;
    assert FillRun(FillRun(v, k, cnt, true), k, cnt, false) == v;
  }

  /** What malloc_page returned may be freed. */
  lemma LiveMalloc(s: Sys, pf: Pf, cnt: nat, r: Sys, k: nat)
    requires Inv(s) && Usable(s, pf) && MallocPage(s, pf, cnt) == Got(r, k)
    ensures Inv(r) && Usable(r, pf) && k + cnt <= |VBits(r, pf).v| && Live(r, pf, k, cnt)
  {
    MallocKeeps(s, pf, cnt, r, k);
    LiveNew(s, r, pf, k, cnt);
  }

  /** mfree_page undoes malloc_page: both physical bitmaps, the virtual bitmap and the owners are
      what they were, but for the page tables a process was given on the way, which stay. */
  lemma FreeUndoesMalloc(s: Sys, pf: Pf, cnt: nat, r: Sys, k: nat)
    requires Inv(s) && Usable(s, pf) && MallocPage(s, pf, cnt) == Got(r, k)
    ensures Inv(r) && Usable(r, pf) && k + cnt <= |VBits(r, pf).v| && Live(r, pf, k, cnt)
    ensures var u := MfreePage(r, pf, k, cnt);
            Inv(u) && Extends(s, u) && Usable(u, pf) && VBits(u, pf) == VBits(s, pf) && u.up == s.up &&
            (forall f :: f in u.own && f !in s.own ==> u.own[f].UTable? && pf == User(u.own[f].dir)) &&
            (pf.Kernel? ==> u.kp == s.kp && u.own == s.own)
  {
    LiveMalloc(s, pf, cnt, r, k);
    MallocKeeps(s, pf, cnt, r, k);
    ScanOfAt(VBits(s, pf).v, VBits(s, pf).len, cnt, k);
    MfreeKeeps(r, pf, k, cnt);
    var u := MfreePage(r, pf, k, cnt);
    UndoOwners(s, r, u, pf, k, cnt);
    BitsBack(s, r, u, pf, k, cnt);
  }

  lemma LiveNew(s: Sys, r: Sys, pf: Pf, k: nat, cnt: nat)
    requires Core(s) && Core(r) && Extends(s, r) && Mapped(s, r, pf, k, cnt) && r.uv.Keys == s.uv.Keys
    ensures Live(r, pf, k, cnt)
  {
    forall j: nat | k <= j < k + cnt ensures LiveAt(r, pf, j) {
      var o := OwnerAt(pf, j);
      assert MappedAt(s, r, pf, k, cnt, o) && InRun(o, pf, k, cnt);
      var f := FrameOf(EntryOf(r, o));
      assert Backed(r, o);
      DirOwner(s, f);
    }
  }

  lemma ExtendsBack(s: Sys, r: Sys, u: Sys, pf: Pf, k: nat, cnt: nat)
    requires Core(s) && Extends(s, r) && Mapped(s, r, pf, k, cnt) && Freed(r, u, pf, k, cnt)
    ensures Extends(s, u)
  {
    forall f | f in s.own ensures f in u.own && u.own[f] == s.own[f] {
      assert OwnedOk(s, f) && MappedAt(s, r, pf, k, cnt, s.own[f]);
      assert OwnShrunkAt(r, u, pf, k, cnt, f);
    }
  }

  lemma BackToOwners(s: Sys, r: Sys, u: Sys, pf: Pf, k: nat, cnt: nat)
    requires Core(s) && Core(u) && Extends(s, u) && Mapped(s, r, pf, k, cnt) && Freed(r, u, pf, k, cnt)
    ensures forall f :: f in u.own && f !in s.own ==> u.own[f].UTable? && pf == User(u.own[f].dir)
  {
    forall q: Owner | !q.UTable? && Active(u, q) ensures Active(s, q) {
      assert ShrunkAt(r, u, pf, k, cnt, q) && MappedAt(s, r, pf, k, cnt, q);
    }
    Conserved(s, u);
    forall f | f in u.own && f !in s.own ensures u.own[f].UTable? && pf == User(u.own[f].dir) {
      var q := u.own[f];
      assert OwnedOk(u, f);
      assert ShrunkAt(r, u, pf, k, cnt, q) && MappedAt(s, r, pf, k, cnt, q);
      OldOwner(s, u, f);
    }
  }

  lemma BackToUserBits(s: Sys, u: Sys)
    requires Core(s) && Core(u) && SameTails(s, u) && Extends(s, u)
    requires forall f :: f in u.own && f !in s.own ==> u.own[f].UTable?
    ensures u.up == s.up
  {
    forall j | 0 <= j < |s.up.v| ensures u.up.v[j] == s.up.v[j] {
      if j < 8 * s.up.len {
        var f: Frame := s.uStart + j;
        assert s.up.v[j] <==> f in s.own;
        assert u.up.v[j] <==> f in u.own;
        if f in u.own { assert OwnedOk(u, f); }
      }
    }
  }

  // ----- get_kernel_pages, get_a_page, create_page_dir -----

  predicate InRunFrame(s: Sys, pf: Pf, k: nat, cnt: nat, f: Frame)
  {
    f in s.own && InRun(s.own[f], pf, k, cnt)
  }

  /** memset over a run of pages, frame by frame. */
  function ZeroRun(s: Sys, pf: Pf, k: nat, cnt: nat): Sys
  {
    s.(m := seq(WORDS, i requires 0 <= i < WORDS => if InRunFrame(s, pf, k, cnt, i / 1024) then 0 else s.m[i]))
  }

  lemma ZeroRunEntry(s: Sys, pf: Pf, k: nat, cnt: nat, y: Frame, j: nat)
    requires j < 1024
    ensures Entry(ZeroRun(s, pf, k, cnt).m, y, j) == if InRunFrame(s, pf, k, cnt, y) then 0 else Entry(s.m, y, j)
  {
    assert (y * 1024 + j) / 1024 == y;
  }

  lemma ZeroRunKeeps(s: Sys, pf: Pf, k: nat, cnt: nat)
    requires Inv(s) && Live(s, pf, k, cnt)
    ensures var r := ZeroRun(s, pf, k, cnt);
            Inv(r) && forall q {:trigger Active(r, q)} :: Active(r, q) <==> Active(s, q)
  {
    var r := ZeroRun(s, pf, k, cnt);
    forall y: Frame, j: nat | j < 1024 && !Plain(s, y) ensures Entry(r.m, y, j) == Entry(s.m, y, j) {
      ZeroRunEntry(s, pf, k, cnt, y, j);
      RunFramePlain(s, pf, k, cnt, y);
    }
    PlainKeeps(s, r.m);
    SameVirtual(s, r);
  }

  lemma RunFramePlain(s: Sys, pf: Pf, k: nat, cnt: nat, f: Frame)
    requires Core(s) && Live(s, pf, k, cnt)
    ensures InRunFrame(s, pf, k, cnt, f) ==> Plain(s, f)
  {
    if InRunFrame(s, pf, k, cnt, f) {
      assert OwnedOk(s, f);
      var j: nat := if pf.Kernel? then s.own[f].b else s.own[f].vp - USER_VP;
      assert LiveAt(s, pf, j);
    }
  }

  lemma SameVirtual(s: Sys, r: Sys)
    requires Geometry(s) && Geometry(r) && VirtualOk(s) && r.kv == s.kv && r.uv == s.uv
    requires forall q {:trigger Active(r, q)} :: Active(r, q) <==> Active(s, q)
    ensures VirtualOk(r)
  {
  }

  /** get_kernel_pages, get_user_pages. */
  ghost function GetPages(s: Sys, pf: Pf, cnt: nat): Alloc
    requires Core(s) && Usable(s, pf)
  {
    match MallocPage(s, pf, cnt)
    case Crash => Crash
    case Null => Null
    case Got(r, k) => Got(ZeroRun(r, pf, k, cnt), k)
  }

  /** Owners and pages as malloc_page leaves them, and every word of the new pages zero. */
  lemma GetPagesKeeps(s: Sys, pf: Pf, cnt: nat, r: Sys, k: nat)
    requires Inv(s) && Usable(s, pf) && GetPages(s, pf, cnt) == Got(r, k)
    ensures Inv(r) && SameTails(s, r) && Extends(s, r) && Mapped(s, r, pf, k, cnt) && r.uv.Keys == s.uv.Keys
    ensures Live(r, pf, k, cnt)
    ensures forall f: Frame :: InRunFrame(r, pf, k, cnt, f) ==> ZeroWords(r.m, f)
  {
    var t := MallocPage(s, pf, cnt).s;
    MallocKeeps(s, pf, cnt, t, k);
    LiveNew(s, t, pf, k, cnt);
    ZeroRunKeeps(t, pf, k, cnt);
    forall q ensures MappedAt(s, r, pf, k, cnt, q) {
      assert MappedAt(s, t, pf, k, cnt, q) && (Active(r, q) <==> Active(t, q));
    }
    LiveNew(s, r, pf, k, cnt);
    forall f: Frame, j: nat | InRunFrame(r, pf, k, cnt, f) && j < 1024 ensures Entry(r.m, f, j) == 0 {
      ZeroRunEntry(t, pf, k, cnt, f, j);
    }
  }

  /** The running process's own page, or a kernel thread's, at a given address; user is the flag it
      asks with, and a flag that is not its own kind is a PANIC. */
  ghost function GetAPage(s: Sys, pf: Pf, user: bool, k: nat): Ran<Sys>
    requires Core(s) && Usable(s, pf) && k < 8 * VBits(s, pf).len
  {
    if user != pf.User? || k == 0 then Panic
    else
      SetVKeeps(s, pf, k, 1, true);
      MapPage(SetV(s, pf, k, 1, true), pf, k)
  }

  lemma GetAPageKeeps(s: Sys, pf: Pf, user: bool, k: nat, r: Sys)
    requires Inv(s) && Usable(s, pf) && k < 8 * VBits(s, pf).len && GetAPage(s, pf, user, k) == Done(r)
    ensures Inv(r) && SameTails(s, r) && Extends(s, r) && Mapped(s, r, pf, k, 1)
  {
    var t := SetV(s, pf, k, 1, true);
    SetVKeeps(s, pf, k, 1, true);
    MapPageGrows(t, pf, k, r);
    RunThroughBits(s, t, r, pf, k, 1);
    MappedBits(s, r, pf, k, 1);
  }

  /** page_table_add's ASSERT: the entry must not be present. */
  lemma MappedPanics(s: Sys, pf: Pf, k: nat)
    requires Core(s) && Usable(s, pf) && k < 8 * VBits(s, pf).len && Active(s, OwnerAt(pf, k))
    ensures MapPage(s, pf, k).Panic?
  {
    if WithTable(s, pf, k).Done? {
      WithTableKeeps(s, pf, k);
      assert MappedAt(s, WithTable(s, pf, k).value, pf, k, 0, OwnerAt(pf, k));
    }
  }

  /** It gets through exactly when the flag is the thread's own kind, the page is not the first of the
      space and has nothing mapped, and the pools have a frame for it and, if need be, one for its table. */
  lemma GetAPageIff(s: Sys, pf: Pf, user: bool, k: nat)
    requires Inv(s) && Usable(s, pf) && k < 8 * VBits(s, pf).len
    ensures GetAPage(s, pf, user, k).Done? <==>
              user == pf.User? && k > 0 && !VBits(s, pf).v[k] && PoolFree(s, pf) > 0 &&
              (NeedsTable(s, pf, k) ==> KFree(s) > 0)
  {
    if k > 0 {
      var t := SetV(s, pf, k, 1, true);
      SetVKeeps(s, pf, k, 1, true);
      var o := OwnerAt(pf, k);
      assert Active(t, o) <==> Active(s, o);
      assert Active(s, o) <==> VBits(s, pf).v[k];
      if Active(t, o) { MappedPanics(t, pf, k); } else { MapPageIff(t, pf, k); }
    }
  }

  /** The words create_page_dir writes into the zeroed page p. */
  function DirImage(m: Memory, cur: Frame, p: Frame): Memory
  {
    seq(WORDS, i requires 0 <= i < WORDS =>
      if i / 1024 != p || i % 1024 < 768 then m[i]
      else if i % 1024 == 1023 then Pte(p)
      else Entry(m, cur, i % 1024))
  }

  lemma DirImageEntry(m: Memory, cur: Frame, p: Frame, y: Frame, j: nat)
    requires j < 1024
    ensures Entry(DirImage(m, cur, p), y, j)
            == if y != p || j < 768 then Entry(m, y, j) else if j == 1023 then Pte(p) else Entry(m, cur, j)
  {
    assert (y * 1024 + j) / 1024 == y && (y * 1024 + j) % 1024 == j;
  }

  lemma DirImageKeeps(s: Sys, cur: Frame, p: Frame)
    requires Inv(s) && IsDir(s, cur) && Plain(s, p)
    ensures var r := s.(m := DirImage(s.m, cur, p));
            Inv(r) && (forall q {:trigger Active(r, q)} :: Active(r, q) <==> Active(s, q)) &&
            (ZeroWords(s.m, p) ==> NewDirWords(r.m, cur, p))
  {
    var m := DirImage(s.m, cur, p);
    forall y: Frame, j: nat | j < 1024 && !Plain(s, y) ensures Entry(m, y, j) == Entry(s.m, y, j) {
      DirImageEntry(s.m, cur, p, y, j);
    }
    PlainKeeps(s, m);
    SameVirtual(s, s.(m := m));
    forall j: nat | j < 1024
      ensures Entry(m, p, j) == if j < 768 then Entry(s.m, p, j) else if j == 1023 then Pte(p) else Entry(s.m, cur, j)
      ensures Entry(m, cur, j) == Entry(s.m, cur, j)
    {
      DirImageEntry(s.m, cur, p, p, j);
      DirImageEntry(s.m, cur, p, cur, j);
      if cur in s.uv { DirOwner(s, cur); }
    }
  }

  /** A page for the directory, its words, and the process's virtual bitmap beside it. */
  ghost function CreatePageDir(s: Sys, cur: Frame, bits: Bits): Alloc
    requires Core(s)
  {
    match GetPages(s, Kernel, 1)
    case Crash => Crash
    case Null => Null
    case Got(r, k) =>
      var o := KHeap(k);
      if !Active(r, o) then Crash
      else
        var p := FrameOf(EntryOf(r, o));
        Got(AddDir(r.(m := DirImage(r.m, cur, p)), p, bits), k)
  }

  /** A kernel page is there, or the search for it stops in its ASSERT. */
  lemma OneKernelPage(s: Sys)
    requires Inv(s)
    ensures !GetPages(s, Kernel, 1).Null?
  {
    MallocNullIff(s, Kernel, 1);
    OneBitFound(s.kv.v, s.kv.len);
  }

  /** A new process's directory maps the kernel half as every other, nothing of its own, and takes
      one kernel page; it is never NULL. */
  lemma CreateKeeps(s: Sys, cur: Frame, bits: Bits)
    requires Inv(s) && IsDir(s, cur) && FreshUserBits(bits)
    ensures !CreatePageDir(s, cur, bits).Null?
    ensures CreatePageDir(s, cur, bits).Got? ==>
              var r, k := CreatePageDir(s, cur, bits).s, CreatePageDir(s, cur, bits).k;
              Inv(r) && SameTails(s, r) && Extends(s, r) && Mapped(s, r, Kernel, k, 1) &&
              FrameOf(EntryOf(r, KHeap(k))) !in s.uv && r.uv == s.uv[FrameOf(EntryOf(r, KHeap(k))) := bits]
  {
    OneKernelPage(s);
    if GetPages(s, Kernel, 1).Got? {
      NewPage(s, cur, bits, GetPages(s, Kernel, 1).s, GetPages(s, Kernel, 1).k);
    }
  }

  lemma NewPage(s: Sys, cur: Frame, bits: Bits, t: Sys, k: nat)
    requires Inv(s) && IsDir(s, cur) && FreshUserBits(bits) && GetPages(s, Kernel, 1) == Got(t, k)
    ensures Active(t, KHeap(k)) && var p := FrameOf(EntryOf(t, KHeap(k)));
            var r := AddDir(t.(m := DirImage(t.m, cur, p)), p, bits);
            Inv(r) && SameTails(s, r) && Extends(s, r) && Mapped(s, r, Kernel, k, 1) && p !in s.uv &&
            Active(r, KHeap(k)) && FrameOf(EntryOf(r, KHeap(k))) == p
  {
    GetPagesKeeps(s, Kernel, 1, t, k);
    assert LiveAt(t, Kernel, k);
    var p := FrameOf(EntryOf(t, KHeap(k)));
    assert Backed(t, KHeap(k)) && OwnedOk(t, p);
    assert InRunFrame(t, Kernel, k, 1, p);
    DirImageKeeps(t, cur, p);
    var u := t.(m := DirImage(t.m, cur, p));
    DirKeeps(u, cur, p, bits);
    var r := AddDir(u, p, bits);
    NewVirtual(u, p, bits);
    forall q ensures MappedAt(s, r, Kernel, k, 1, q) {
      assert MappedAt(s, t, Kernel, k, 1, q) && (Active(u, q) <==> Active(t, q)) && (Active(r, q) <==> Active(u, q));
    }
    assert Backed(r, KHeap(k)) && OwnedOk(r, p);
  }

  lemma NewVirtual(s: Sys, p: Frame, bits: Bits)
    requires Inv(s) && p !in s.uv && FreshUserBits(bits) && Geometry(AddDir(s, p, bits))
    requires forall q {:trigger Active(AddDir(s, p, bits), q)} :: Active(AddDir(s, p, bits), q) <==> Active(s, q)
    ensures VirtualOk(AddDir(s, p, bits))
  {
  }
}
