/** Exactly when a page allocation succeeds: counting free frames and missing page tables. */
module PageCounts {
  import opened Bitmaps
  import opened Paging
  import opened Frames
  import opened Pages

  function FreeCount(v: seq<bool>, n: nat): nat
    requires n <= |v|
  {
    if n == 0 then 0 else FreeCount(v, n - 1) + (if v[n - 1] then 0 else 1)
  }

  lemma {:induction false} FreeNone(v: seq<bool>, n: nat)
    requires n <= |v|
    ensures FreeCount(v, n) == 0 <==> AllSet(v[..n])
  {
    if n > 0 {
      FreeNone(v, n - 1);
      assert v[..n] == v[..n - 1] + [v[n - 1]];
      assert AllSet(v[..n]) ==> AllSet(v[..n - 1]) && v[n - 1] by {
        assert forall i :: 0 <= i < n - 1 ==> v[..n][i] == v[..n - 1][i];
        assert v[..n][n - 1] == v[n - 1];
      }
    }
  }

  lemma {:induction false} FreeTaken(v: seq<bool>, n: nat, i: nat)
    requires i < |v| && n <= |v| && !v[i]
    ensures FreeCount(v[i := true], n) == FreeCount(v, n) - (if i < n then 1 else 0)
  {
    if n > 0 { FreeTaken(v, n - 1, i); }
  }

  function KFree(s: Sys): nat
    requires Geometry(s)
  {
    FreeCount(s.kp.v, 8 * s.kp.len)
  }

  function UFree(s: Sys): nat
    requires Geometry(s)
  {
    FreeCount(s.up.v, 8 * s.up.len)
  }

  function PoolFree(s: Sys, pf: Pf): nat
    requires Geometry(s)
  {
    if pf.Kernel? then KFree(s) else UFree(s)
  }

  lemma TakeIff(s: Sys, pf: Pf)
    requires Geometry(s)
    ensures TakeFrame(s, pf).Done? <==> PoolFree(s, pf) > 0
  {
    var b := if pf.Kernel? then s.kp else s.up;
    OneBitFound(b.v, b.len);
    FreeNone(b.v, 8 * b.len);
  }

  lemma SetPoolCounts(s: Sys, f: Frame)
    requires Core(s) && f !in s.own && (InKernelPool(s, f) || InUserPool(s, f))
    ensures var r := SetPool(s, f, true);
            KFree(r) == KFree(s) - (if InKernelPool(s, f) then 1 else 0) &&
            UFree(r) == UFree(s) - (if InUserPool(s, f) then 1 else 0)
  {
    if InKernelPool(s, f) {
      assert !s.kp.v[f - POOL0];
      FreeTaken(s.kp.v, 8 * s.kp.len, f - POOL0);
    } else {
      assert !s.up.v[f - s.uStart];
      FreeTaken(s.up.v, 8 * s.up.len, f - s.uStart);
    }
  }

  function Spent(yes: bool): nat
  {
    if yes then 1 else 0
  }

  lemma TableCounts(s: Sys, pf: Pf, k: nat)
    requires Core(s) && Usable(s, pf) && k <= 8 * VBits(s, pf).len
    ensures WithTable(s, pf, k).Done? <==> !NeedsTable(s, pf, k) || KFree(s) > 0
    ensures WithTable(s, pf, k).Done? ==>
              KFree(WithTable(s, pf, k).value) == KFree(s) - Spent(NeedsTable(s, pf, k)) &&
              UFree(WithTable(s, pf, k).value) == UFree(s)
  {
    TakeIff(s, Kernel);
    if NeedsTable(s, pf, k) && TakeFrame(s, Kernel).Done? {
      FrameFree(s, Kernel);
      SetPoolCounts(s, TakeFrame(s, Kernel).value);
    }
  }

  /** One page is mapped exactly when its pool has a frame and, for a process that lacks the table,
      the kernel pool has one for it; it then costs exactly those. */
  lemma MapPageIff(s: Sys, pf: Pf, k: nat)
    requires Core(s) && Usable(s, pf) && k <= 8 * VBits(s, pf).len
    requires !Active(s, OwnerAt(pf, k)) && (pf.User? ==> USER_VP + k < KERNEL_VP)
    ensures MapPage(s, pf, k).Done? <==> PoolFree(s, pf) > 0 && (NeedsTable(s, pf, k) ==> KFree(s) > 0)
    ensures MapPage(s, pf, k).Done? ==>
              KFree(MapPage(s, pf, k).value) == KFree(s) - Spent(pf.Kernel? || NeedsTable(s, pf, k)) &&
              UFree(MapPage(s, pf, k).value) == UFree(s) - Spent(pf.User?)
  {
    TakeIff(s, pf);
    TableCounts(s, pf, k);
    if TakeFrame(s, pf).Done? && WithTable(s, pf, k).Done? {
      WithTableKeeps(s, pf, k);
      FrameStaysFree(s, pf, k);
      var t := WithTable(s, pf, k).value;
      assert MappedAt(s, t, pf, k, 0, OwnerAt(pf, k));
      SetPoolCounts(t, TakeFrame(s, pf).value);
    }
  }

  // ----- runs of pages -----

  /** Directory entries lo to hi that name no table yet. */
  function Missing(m: Memory, d: Frame, lo: nat, hi: nat): nat
    requires hi <= 768
    decreases hi - lo
  {
    if lo >= hi then 0 else Spent(!Present(Entry(m, d, lo))) + Missing(m, d, lo + 1, hi)
  }

  lemma {:induction false} MissingAlike(m: Memory, r: Memory, d: Frame, lo: nat, hi: nat)
    requires hi <= 768
    requires forall i: nat :: lo <= i < hi ==> (Present(Entry(r, d, i)) <==> Present(Entry(m, d, i)))
    ensures Missing(r, d, lo, hi) == Missing(m, d, lo, hi)
    decreases hi - lo
  {
    if lo < hi { MissingAlike(m, r, d, lo + 1, hi); }
  }

  /** Mapping page k gives the process the table of that page and no other. */
  lemma TablesAfter(s: Sys, d: Frame, k: nat, r: Sys)
    requires Core(s) && d in s.uv && k < 8 * USER_BYTES && MapPage(s, User(d), k) == Done(r)
    ensures forall i: nat :: i < 768 ==>
              (Present(Entry(r.m, d, i)) <==> Present(Entry(s.m, d, i)) || i == (USER_VP + k) / 1024)
  {
    var pf, vp := User(d), USER_VP + k;
    var f, t, o := TakeFrame(s, pf).value, WithTable(s, pf, k).value, OwnerAt(pf, k);
    WithTableKeeps(s, pf, k);
    forall i: nat | i < 768
      ensures Present(Entry(r.m, d, i)) <==> Present(Entry(s.m, d, i)) || i == vp / 1024
    {
      TableAfter(s, d, k, i);
      EntriesDiffer(t, o, UTable(d, i));
      EntryWritten(t.m, Home(t, o), Idx(o), Pte(f), d, i);
    }
  }

  lemma TableAfter(s: Sys, d: Frame, k: nat, i: nat)
    requires Core(s) && d in s.uv && k < 8 * USER_BYTES && WithTable(s, User(d), k).Done? && i < 768
    ensures var t := WithTable(s, User(d), k).value;
            Present(Entry(t.m, d, i)) <==> Present(Entry(s.m, d, i)) || i == (USER_VP + k) / 1024
  {
    if NeedsTable(s, User(d), k) {
      var f := TakeFrame(s, Kernel).value;
      FrameFree(s, Kernel);
      ZeroOnly(s.m, f);
      EntryWritten(ZeroFrame(s.m, f), d, (USER_VP + k) / 1024, Pte(f), d, i);
      DirOwner(s, d);
    }
  }

  /** Page tables a run of a process still needs. */
  function Lacking(s: Sys, d: Frame, k: nat, cnt: nat): nat
    requires k + cnt <= 8 * USER_BYTES
  {
    if cnt == 0 then 0 else Missing(s.m, d, (USER_VP + k) / 1024, (USER_VP + k + cnt - 1) / 1024 + 1)
  }

  lemma LackingNext(s: Sys, d: Frame, k: nat, cnt: nat, r: Sys, next: nat, rest: nat)
    requires Core(s) && d in s.uv && k + cnt <= 8 * USER_BYTES && MapPage(s, User(d), k) == Done(r)
    requires next == k + 1 && cnt == rest + 1
    ensures Lacking(s, d, k, cnt) == Lacking(r, d, next, rest) + Spent(NeedsTable(s, User(d), k))
  {
    TablesAfter(s, d, k, r);
    var lo, hi := (USER_VP + k) / 1024, (USER_VP + k + cnt - 1) / 1024 + 1;
    MissingAlike(s.m, r.m, d, lo + 1, hi);
    MissingFirst(r.m, d, lo, hi);
    MissingFirst(s.m, d, lo, hi);
    assert (USER_VP + next + rest - 1) / 1024 + 1 == hi;
    assert (USER_VP + next) / 1024 == lo || (USER_VP + next) / 1024 == lo + 1;
  }

  lemma MissingFirst(m: Memory, d: Frame, lo: nat, hi: nat)
    requires lo < hi <= 768
    ensures Missing(m, d, lo, hi) == Spent(!Present(Entry(m, d, lo))) + Missing(m, d, lo + 1, hi)
  {
  }

  ghost predicate Fresh(s: Sys, pf: Pf, k: nat, cnt: nat)
  {
    forall q: Owner {:trigger InRun(q, pf, k, cnt)} :: InRun(q, pf, k, cnt) ==> !Active(s, q)
  }

  lemma FreshNext(s: Sys, pf: Pf, k: nat, cnt: nat, r: Sys, next: nat, rest: nat)
    requires Fresh(s, pf, k, cnt) && Mapped(s, r, pf, k, 1) && next == k + 1 && cnt == rest + 1
    ensures Fresh(r, pf, next, rest)
  {
    forall q: Owner | InRun(q, pf, next, rest) ensures !Active(r, q) {
      assert InRun(q, pf, k, cnt) && MappedAt(s, r, pf, k, 1, q);
    }
  }

  /** What a run costs: a frame of its pool for each page and a kernel frame for each table. */
  predicate Affordable(s: Sys, pf: Pf, k: nat, cnt: nat)
    requires Geometry(s) && Usable(s, pf) && (pf.User? ==> k + cnt <= 8 * USER_BYTES)
  {
    match pf
    case Kernel => cnt <= KFree(s)
    case User(d) => cnt <= UFree(s) && Lacking(s, d, k, cnt) <= KFree(s)
  }

  lemma AffordableNext(s: Sys, pf: Pf, k: nat, cnt: nat, r: Sys, next: nat, rest: nat)
    requires Core(s) && Usable(s, pf) && k <= 8 * VBits(s, pf).len && (pf.User? ==> k + cnt <= 8 * USER_BYTES)
    requires !Active(s, OwnerAt(pf, k)) && MapPage(s, pf, k) == Done(r) && next == k + 1 && cnt == rest + 1
    ensures Affordable(s, pf, k, cnt) <==> Affordable(r, pf, next, rest)
  {
    MapPageIff(s, pf, k);
    if pf.User? { LackingNext(s, pf.dir, k, cnt, r, next, rest); }
  }

  lemma UnaffordableNow(s: Sys, pf: Pf, k: nat, cnt: nat)
    requires Core(s) && Usable(s, pf) && k <= 8 * VBits(s, pf).len && (pf.User? ==> k + cnt <= 8 * USER_BYTES)
    requires !Active(s, OwnerAt(pf, k)) && MapPage(s, pf, k).Panic? && cnt > 0
    ensures !Affordable(s, pf, k, cnt)
  {
    MapPageIff(s, pf, k);
    if pf.User? { assert NeedsTable(s, pf, k) ==> Lacking(s, pf.dir, k, cnt) >= 1; }
  }

  ghost predicate Open(s: Sys, pf: Pf, k: nat, cnt: nat)
  {
    Fresh(s, pf, k, cnt) && (pf.User? ==> k + cnt <= 8 * USER_BYTES)
  }

  lemma RunStops(s: Sys, pf: Pf, k: nat, cnt: nat)
    requires Core(s) && Usable(s, pf) && k <= 8 * VBits(s, pf).len
    requires MapPage(s, pf, k).Panic? && cnt > 0
    ensures Open(s, pf, k, cnt) ==> !Affordable(s, pf, k, cnt)
  {
    assert InRun(OwnerAt(pf, k), pf, k, cnt);
    if Open(s, pf, k, cnt) { UnaffordableNow(s, pf, k, cnt); }
  }

  lemma RunGoesOn(s: Sys, pf: Pf, k: nat, cnt: nat, r: Sys, next: nat, rest: nat)
    requires Core(s) && Usable(s, pf) && k <= 8 * VBits(s, pf).len
    requires MapPage(s, pf, k) == Done(r) && next == k + 1 && cnt == rest + 1
    ensures Core(r) && Grew(s, r, pf, k, 1)
    ensures Open(s, pf, k, cnt) ==>
              Open(r, pf, next, rest) && (Affordable(s, pf, k, cnt) <==> Affordable(r, pf, next, rest))
  {
    MapPageGrows(s, pf, k, r);
    assert InRun(OwnerAt(pf, k), pf, k, cnt);
    if Open(s, pf, k, cnt) {
      FreshNext(s, pf, k, cnt, r, next, rest);
      AffordableNext(s, pf, k, cnt, r, next, rest);
    }
  }
}
