/** The page allocator of kernel/memory.c one page at a time, as functions on module Frames' state. */
module Pages {
  import opened Bitmaps
  import opened Paging
  import opened Frames

  /** What a call can do instead of returning: stop in an ASSERT. */
  datatype Ran<T> = Panic | Done(value: T)

  /** The pool flag, and for PF_USER the directory of the running process. */
  datatype Pf = Kernel | User(dir: Frame)

  predicate Usable(s: Sys, pf: Pf)
  {
    pf.User? ==> pf.dir in s.uv
  }

  function VBits(s: Sys, pf: Pf): Bits
    requires Usable(s, pf)
  {
    if pf.Kernel? then s.kv else s.uv[pf.dir]
  }

  function OwnerAt(pf: Pf, k: nat): Owner
  {
    if pf.Kernel? then KHeap(k) else UPage(pf.dir, USER_VP + k)
  }

  predicate InRun(q: Owner, pf: Pf, k: nat, cnt: nat)
  {
    match q
    case KHeap(b) => pf.Kernel? && k <= b < k + cnt
    case UTable(d, i) => false
    case UPage(d, vp) => pf == User(d) && USER_VP + k <= vp < USER_VP + k + cnt
  }

  /** The virtual bits of a run, all written alike. */
  function SetV(s: Sys, pf: Pf, k: nat, cnt: nat, value: bool): (r: Sys)
    requires Usable(s, pf) && k + cnt <= |VBits(s, pf).v|
  {
    var b := VBits(s, pf);
    var b' := Bits(FillRun(b.v, k, cnt, value), b.len);
    if pf.Kernel? then s.(kv := b') else s.(uv := s.uv[pf.dir := b'])
  }

  // ----- palloc, page_table_add -----

  /** The lowest free frame of a pool; its ASSERT fails when there is none. */
  function TakeFrom(b: Bits, start: nat): (r: Ran<Frame>)
    requires 8 * b.len < |b.v| && start + 8 * b.len <= FRAMES
    ensures r.Done? ==> start <= r.value < start + 8 * b.len && !b.v[r.value - start]
  {
    var i := LowestClear(b.v, 8 * b.len, 0);
    if i < 0 then Panic else Done(start + i)
  }

  function TakeFrame(s: Sys, pf: Pf): (r: Ran<Frame>)
    requires Geometry(s)
    ensures r.Done? ==> if pf.Kernel? then InKernelPool(s, r.value) else InUserPool(s, r.value)
  {
    if pf.Kernel? then TakeFrom(s.kp, POOL0) else TakeFrom(s.up, s.uStart)
  }

  predicate NeedsTable(s: Sys, pf: Pf, k: nat)
    requires Usable(s, pf) && k <= 8 * VBits(s, pf).len && Geometry(s)
  {
    pf.User? && USER_VP + k < KERNEL_VP && !HasTable(s.m, pf.dir, USER_VP + k)
  }

  /** The second branch of page_table_add first takes a frame for the table. */
  function WithTable(s: Sys, pf: Pf, k: nat): (r: Ran<Sys>)
    requires Geometry(s) && Usable(s, pf) && k <= 8 * VBits(s, pf).len
    ensures r.Done? ==> SamePools(s, r.value) && r.value.uv == s.uv && r.value.kv == s.kv
  {
    if !NeedsTable(s, pf, k) then Done(s)
    else
      match TakeFrame(s, Kernel)
      case Panic => Panic
      case Done(t) => Done(LinkTable(s.(m := ZeroFrame(s.m, t)), pf.dir, (USER_VP + k) / 1024, t))
  }

  /** One turn of malloc_page's loop. A page past the user half finds the kernel's own entry. */
  function MapPage(s: Sys, pf: Pf, k: nat): (r: Ran<Sys>)
    requires Geometry(s) && Usable(s, pf) && k <= 8 * VBits(s, pf).len
    ensures r.Done? ==> SamePools(s, r.value) && r.value.uv == s.uv && r.value.kv == s.kv
  {
    match TakeFrame(s, pf)
    case Panic => Panic
    case Done(f) =>
      match WithTable(s, pf, k)
      case Panic => Panic
      case Done(t) =>
        var o := OwnerAt(pf, k);
        if !Typed(t, o) || Active(t, o) then Panic else Done(MapOwner(t, o, f))
  }

  // ----- what mapping keeps -----

  /** Same heap geometry, same bits after the end of each pool's bitmap. */
  ghost predicate SameTails(s: Sys, r: Sys)
  {
    SamePools(s, r) && |r.kp.v| == |s.kp.v| && |r.up.v| == |s.up.v| && r.kv.len == s.kv.len &&
    (forall j :: 8 * s.kp.len <= j < |s.kp.v| ==> r.kp.v[j] == s.kp.v[j]) &&
    (forall j :: 8 * s.up.len <= j < |s.up.v| ==> r.up.v[j] == s.up.v[j])
  }

  /** Owners stay owners: no frame in use changes hands. */
  ghost predicate Extends(s: Sys, r: Sys)
  {
    forall f :: f in s.own ==> f in r.own && r.own[f] == s.own[f]
  }

  /** r has exactly the pages of s and those of the run, which s did not have; tables only came,
      and for the running process only. */
  predicate MappedAt(s: Sys, r: Sys, pf: Pf, k: nat, cnt: nat, q: Owner)
  {
    if q.UTable? then (Active(s, q) ==> Active(r, q)) && (Active(r, q) && !Active(s, q) ==> pf == User(q.dir))
    else (Active(r, q) <==> Active(s, q) || InRun(q, pf, k, cnt)) && (InRun(q, pf, k, cnt) ==> !Active(s, q))
  }

  ghost predicate Mapped(s: Sys, r: Sys, pf: Pf, k: nat, cnt: nat)
  {
    forall q {:trigger MappedAt(s, r, pf, k, cnt, q)} :: MappedAt(s, r, pf, k, cnt, q)
  }

  lemma FrameFree(s: Sys, pf: Pf)
    requires Core(s) && TakeFrame(s, pf).Done?
    ensures TakeFrame(s, pf).value !in s.own
  {
    var b := if pf.Kernel? then s.kp else s.up;
    OneBitFound(b.v, b.len);
  }

  lemma WithTableKeeps(s: Sys, pf: Pf, k: nat)
    requires Core(s) && Usable(s, pf) && k <= 8 * VBits(s, pf).len && WithTable(s, pf, k).Done?
    ensures var r := WithTable(s, pf, k).value;
            Core(r) && SameTails(s, r) && Extends(s, r) && Mapped(s, r, pf, k, 0) &&
            (pf.User? ==> r.up == s.up) && (!NeedsTable(s, pf, k) ==> r == s) &&
            (USER_VP + k < KERNEL_VP || pf.Kernel? ==> Typed(r, OwnerAt(pf, k)))
  {
    if NeedsTable(s, pf, k) {
      var t := TakeFrame(s, Kernel).value;
      FrameFree(s, Kernel);
      var z := s.(m := ZeroFrame(s.m, t));
      ZeroOnly(s.m, t);
      PlainKeeps(s, z.m);
      var d, i := pf.dir, (USER_VP + k) / 1024;
      assert Entry(z.m, d, i) == Entry(s.m, d, i);
      LinkKeeps(z, d, i, t);
      var r := LinkTable(z, d, i, t);
      EntryWritten(z.m, d, i, Pte(t), d, i);
      forall q ensures MappedAt(s, r, pf, k, 0, q) { assert Active(r, q) <==> Active(z, q) || q == UTable(d, i); }
    } else {
      forall q ensures MappedAt(s, s, pf, k, 0, q) { }
    }
  }

  lemma ZeroOnly(m: Memory, t: Frame)
    ensures forall y: Frame, j: nat {:trigger Entry(ZeroFrame(m, t), y, j)} ::
              j < 1024 ==> Entry(ZeroFrame(m, t), y, j) == if y == t then 0 else Entry(m, y, j)
  {
    forall y: Frame, j: nat | j < 1024
      ensures Entry(ZeroFrame(m, t), y, j) == if y == t then 0 else Entry(m, y, j)
    {
      assert (y * 1024 + j) / 1024 == y;
    }
  }

  /** The frame palloc took is still free once the table is there. */
  lemma FrameStaysFree(s: Sys, pf: Pf, k: nat)
    requires Core(s) && Usable(s, pf) && k <= 8 * VBits(s, pf).len
    requires TakeFrame(s, pf).Done? && WithTable(s, pf, k).Done?
    ensures TakeFrame(s, pf).value !in WithTable(s, pf, k).value.own
  {
    var f := TakeFrame(s, pf).value;
    FrameFree(s, pf);
    WithTableKeeps(s, pf, k);
    if pf.User? { UserBit(s, f); UserBit(WithTable(s, pf, k).value, f); }
  }

  lemma MapOnto(s: Sys, t: Sys, pf: Pf, k: nat, f: Frame)
    requires Core(t) && SameTails(s, t) && Extends(s, t) && Mapped(s, t, pf, k, 0) && f !in t.own
    requires var o := OwnerAt(pf, k); Typed(t, o) && !Active(t, o) && InPool(t, f, o)
    ensures var r := MapOwner(t, OwnerAt(pf, k), f);
            Core(r) && SameTails(s, r) && Extends(s, r) && Mapped(s, r, pf, k, 1)
  {
    var o := OwnerAt(pf, k);
    var r := MapOwner(t, o, f);
    MapKeeps(t, o, f);
    forall q ensures MappedAt(s, r, pf, k, 1, q) {
      assert MappedAt(s, t, pf, k, 0, q);
      assert Active(r, q) <==> Active(t, q) || q == o;
    }
  }

  lemma MapPageKeeps(s: Sys, pf: Pf, k: nat)
    requires Core(s) && Usable(s, pf) && k <= 8 * VBits(s, pf).len && MapPage(s, pf, k).Done?
    ensures var r := MapPage(s, pf, k).value;
            Core(r) && SameTails(s, r) && Extends(s, r) && Mapped(s, r, pf, k, 1)
  {
    FrameStaysFree(s, pf, k);
    WithTableKeeps(s, pf, k);
    MapOnto(s, WithTable(s, pf, k).value, pf, k, TakeFrame(s, pf).value);
  }

  lemma DirOwner(s: Sys, f: Frame)
    requires Core(s)
    ensures f in s.uv ==> f in s.own && Active(s, s.own[f])
  {
    if f in s.uv { assert OwnedOk(s, f); }
  }

  lemma UserBit(s: Sys, f: Frame)
    requires Core(s) && InUserPool(s, f)
    ensures s.up.v[f - s.uStart] <==> f in s.own
  {
    assert s.up.v[f - s.uStart] <==> s.uStart + (f - s.uStart) in s.own;
  }

  ghost predicate Grew(s: Sys, r: Sys, pf: Pf, k: nat, cnt: nat)
  {
    SameTails(s, r) && Extends(s, r) && Mapped(s, r, pf, k, cnt) && r.uv == s.uv && r.kv == s.kv
  }

  lemma GrewThen(s: Sys, t: Sys, r: Sys, pf: Pf, k: nat, next: nat, cnt: nat, all: nat)
    requires Grew(s, t, pf, k, 1) && Grew(t, r, pf, next, cnt) && next == k + 1 && all == cnt + 1
    ensures Grew(s, r, pf, k, all)
  {
    forall q ensures MappedAt(s, r, pf, k, all, q) {
      assert MappedAt(s, t, pf, k, 1, q) && MappedAt(t, r, pf, next, cnt, q);
    }
  }

  lemma GrewNone(s: Sys, pf: Pf, k: nat)
    requires Core(s)
    ensures Grew(s, s, pf, k, 0)
  {
    forall q ensures MappedAt(s, s, pf, k, 0, q) { }
  }

  lemma MapPageGrows(s: Sys, pf: Pf, k: nat, t: Sys)
    requires Core(s) && Usable(s, pf) && k <= 8 * VBits(s, pf).len && MapPage(s, pf, k) == Done(t)
    ensures Core(t) && Grew(s, t, pf, k, 1)
  {
    MapPageKeeps(s, pf, k);
  }
}
