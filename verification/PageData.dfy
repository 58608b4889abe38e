/** What the page allocator leaves alone: the contents of every page that stays mapped. */
module PageData {
  import opened Paging
  import opened Frames
  import opened Pages
  import opened PageAlloc

  /** A frame of data keeps its words as long as it keeps its owner. */
  ghost predicate KeptAt(s: Sys, r: Sys, f: Frame)
  {
    f in s.own && f in r.own && Plain(s, f) ==>
      forall j: nat {:trigger Entry(r.m, f, j)} :: j < 1024 ==> Entry(r.m, f, j) == Entry(s.m, f, j)
  }

  ghost predicate DataKept(s: Sys, r: Sys)
  {
    forall f: Frame {:trigger KeptAt(s, r, f)} :: KeptAt(s, r, f)
  }

  /** Entries are kept in directories and tables, never in a frame of data. */
  lemma WriteAtData(s: Sys, o: Owner, w: Word, f: Frame, j: nat)
    requires Core(s) && Typed(s, o) && Plain(s, f) && j < 1024
    ensures Entry(WriteAt(s, o, w).m, f, j) == Entry(s.m, f, j)
  {
    HomeOwned(s, o);
    EntryWritten(s.m, Home(s, o), Idx(o), w, f, j);
  }

  lemma WithTableData(s: Sys, pf: Pf, k: nat, r: Sys)
    requires Core(s) && Usable(s, pf) && k <= 8 * VBits(s, pf).len && WithTable(s, pf, k) == Done(r)
    ensures DataKept(s, r)
  {
    forall f: Frame ensures KeptAt(s, r, f) {
      if f in s.own && Plain(s, f) && NeedsTable(s, pf, k) {
        var t := TakeFrame(s, Kernel).value;
        FrameFree(s, Kernel);
        ZeroOnly(s.m, t);
        forall j: nat | j < 1024 ensures Entry(r.m, f, j) == Entry(s.m, f, j) {
          EntryWritten(ZeroFrame(s.m, t), pf.dir, (USER_VP + k) / 1024, Pte(t), f, j);
        }
      }
    }
  }

  lemma MapOwnerData(t: Sys, o: Owner, f: Frame)
    requires Core(t) && Typed(t, o) && InPool(t, f, o)
    ensures DataKept(t, MapOwner(t, o, f))
  {
    var r := MapOwner(t, o, f);
    forall g: Frame ensures KeptAt(t, r, g) {
      if Plain(t, g) {
        forall j: nat | j < 1024 ensures Entry(r.m, g, j) == Entry(t.m, g, j) { WriteAtData(t, o, Pte(f), g, j); }
      }
    }
  }

  lemma KeptThen(s: Sys, t: Sys, r: Sys)
    requires DataKept(s, t) && DataKept(t, r) && t.uv.Keys == s.uv.Keys
    requires forall f :: f in s.own && f in r.own ==> f in t.own && t.own[f] == s.own[f]
    ensures DataKept(s, r)
  {
    forall f: Frame ensures KeptAt(s, r, f) {
      assert KeptAt(s, t, f) && KeptAt(t, r, f);
      if f in s.own && f in r.own && Plain(s, f) {
        forall j: nat | j < 1024 ensures Entry(r.m, f, j) == Entry(s.m, f, j) {
          assert Entry(t.m, f, j) == Entry(s.m, f, j);
        }
      }
    }
  }

  lemma MapPageData(s: Sys, pf: Pf, k: nat, r: Sys)
    requires Core(s) && Usable(s, pf) && k <= 8 * VBits(s, pf).len && MapPage(s, pf, k) == Done(r)
    ensures DataKept(s, r)
  {
    WithTableKeeps(s, pf, k);
    var t := WithTable(s, pf, k).value;
    WithTableData(s, pf, k, t);
    MapOwnerData(t, OwnerAt(pf, k), TakeFrame(s, pf).value);
    KeptThen(s, t, r);
  }

  lemma {:induction false} MapPagesData(s: Sys, pf: Pf, ks: seq<nat>, r: Sys)
    requires Core(s) && MapPages(s, pf, ks) == Done(r)
    ensures Extends(s, r) && DataKept(s, r)
    decreases |ks|
  {
    if ks != [] {
      var t := MapPage(s, pf, ks[0]).value;
      MapPageGrows(s, pf, ks[0], t);
      MapPageData(s, pf, ks[0], t);
      MapPagesData(t, pf, ks[1..], r);
      KeptThen(s, t, r);
    }
  }

  /** malloc_page and its memset write no page that was there before. */
  lemma GetPagesData(s: Sys, pf: Pf, cnt: nat, r: Sys, k: nat)
    requires Inv(s) && Usable(s, pf) && GetPages(s, pf, cnt) == Got(r, k)
    ensures DataKept(s, r)
  {
    var t := MallocPage(s, pf, cnt).s;
    MallocKeeps(s, pf, cnt, t, k);
    MallocPageData(s, pf, cnt, t, k);
    forall f: Frame ensures KeptAt(s, r, f) {
      assert KeptAt(s, t, f);
      if f in s.own && Plain(s, f) {
        assert OwnedOk(s, f) && MappedAt(s, t, pf, k, cnt, s.own[f]);
        forall j: nat | j < 1024 ensures Entry(r.m, f, j) == Entry(s.m, f, j) { ZeroRunEntry(t, pf, k, cnt, f, j); }
      }
    }
  }

  lemma MallocPageData(s: Sys, pf: Pf, cnt: nat, r: Sys, k: nat)
    requires Inv(s) && Usable(s, pf) && MallocPage(s, pf, cnt) == Got(r, k)
    requires k + cnt <= 8 * VBits(s, pf).len + 1
    ensures DataKept(s, r)
  {
    var t := SetV(s, pf, k, cnt, true);
    SetVKeeps(s, pf, k, cnt, true);
    MapPagesData(t, pf, Indices(k, cnt), r);
    forall f: Frame ensures KeptAt(s, r, f) { assert KeptAt(t, r, f); }
  }

  /** Nor does get_a_page. */
  lemma GetAPageData(s: Sys, pf: Pf, user: bool, k: nat, r: Sys)
    requires Inv(s) && Usable(s, pf) && k < 8 * VBits(s, pf).len && GetAPage(s, pf, user, k) == Done(r)
    ensures DataKept(s, r)
  {
    var t := SetV(s, pf, k, 1, true);
    SetVKeeps(s, pf, k, 1, true);
    MapPageData(t, pf, k, r);
    forall f: Frame ensures KeptAt(s, r, f) { assert KeptAt(t, r, f); }
  }

  lemma UnmapPageData(s: Sys, pf: Pf, k: nat, r: Sys)
    requires Core(s) && LiveAt(s, pf, k) && r == UnmapPage(s, pf, k)
    ensures DataKept(s, r)
  {
    var o := OwnerAt(pf, k);
    FreedPool(s, o);
    forall g: Frame ensures KeptAt(s, r, g) {
      if Plain(s, g) {
        forall j: nat | j < 1024 ensures Entry(r.m, g, j) == Entry(s.m, g, j) {
          WriteAtData(s, o, Dropped(EntryOf(s, o)), g, j);
        }
      }
    }
  }

  lemma {:induction false} UnmapPagesData(s: Sys, pf: Pf, ks: seq<nat>)
    requires Core(s)
    ensures DataKept(s, UnmapPages(s, pf, ks))
    ensures forall f :: f in UnmapPages(s, pf, ks).own ==> f in s.own && UnmapPages(s, pf, ks).own[f] == s.own[f]
    decreases |ks|
  {
    if ks != [] && LiveAt(s, pf, ks[0]) {
      var t := UnmapPage(s, pf, ks[0]);
      UnmapPageKeeps(s, pf, ks[0], t);
      UnmapPageData(s, pf, ks[0], t);
      UnmapPagesData(t, pf, ks[1..]);
      var r := UnmapPages(t, pf, ks[1..]);
      forall f | f in r.own ensures f in s.own && r.own[f] == s.own[f] {
        assert OwnShrunkAt(s, t, pf, ks[0], 1, f);
      }
      KeptThen(s, t, r);
    }
  }

  /** mfree_page writes no page that stays. */
  lemma MfreePageData(s: Sys, pf: Pf, k: nat, cnt: nat)
    requires Core(s) && Usable(s, pf) && Live(s, pf, k, cnt) && k + cnt <= |VBits(s, pf).v|
    ensures DataKept(s, MfreePage(s, pf, k, cnt))
  {
    var t, r := UnmapRun(s, pf, k, cnt), MfreePage(s, pf, k, cnt);
    UnmapPagesData(s, pf, Indices(k, cnt));
    forall f: Frame ensures KeptAt(s, r, f) { assert KeptAt(s, t, f); }
  }
}
