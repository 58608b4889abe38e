/** What user programs may do with the pages they were given: the processor's check of a write in
    user mode (section 4.6 of the Intel SDM Volume 3A), on the words of both levels. */
module PageRights {
  import opened Paging
  import opened Frames
  import opened Pages
  import opened PageAlloc
  import opened PageRuns

  /** A process may write to each of its pages. */
  lemma PageWritable(s: Sys, d: Frame, vp: Page)
    requires Core(s) && Active(s, UPage(d, vp))
    ensures UserMayWrite(s.m, d, vp)
  {
    var table := UTable(d, vp / 1024);
    assert Active(s, table) && Backed(s, table) && Backed(s, UPage(d, vp));
  }

  /** And to no other page of its half: there the walk faults. */
  lemma UserHalf(s: Sys, d: Frame, k: nat)
    requires Inv(s) && d in s.uv && k < 8 * USER_BYTES
    ensures UserMayWrite(s.m, d, USER_VP + k) <==> s.uv[d].v[k]
    ensures WalkPage(s.m, d, USER_VP + k).Fault? <==> !s.uv[d].v[k]
  {
    assert s.uv[d].v[k] <==> Active(s, UPage(d, USER_VP + k));
    if s.uv[d].v[k] { PageWritable(s, d, USER_VP + k); }
  }

  lemma MappedWritable(s: Sys, r: Sys, d: Frame, k: nat, cnt: nat, vp: Page)
    requires Core(r) && Mapped(s, r, User(d), k, cnt) && USER_VP + k <= vp < USER_VP + k + cnt
    ensures UserMayWrite(r.m, d, vp)
  {
    assert MappedAt(s, r, User(d), k, cnt, UPage(d, vp)) && InRun(UPage(d, vp), User(d), k, cnt);
    PageWritable(r, d, vp);
  }

  /** A process may write to every page malloc_page has mapped for it, */
  lemma MallocWritable(s: Sys, d: Frame, cnt: nat, r: Sys, k: nat, vp: Page)
    requires Inv(s) && d in s.uv && MallocPage(s, User(d), cnt) == Got(r, k) && USER_VP + k <= vp < USER_VP + k + cnt
    ensures UserMayWrite(r.m, d, vp)
  {
    MallocKeeps(s, User(d), cnt, r, k);
    MappedWritable(s, r, d, k, cnt, vp);
  }

  /** every page get_user_pages has, */
  lemma GetPagesWritable(s: Sys, d: Frame, cnt: nat, r: Sys, k: nat, vp: Page)
    requires Inv(s) && d in s.uv && GetPages(s, User(d), cnt) == Got(r, k) && USER_VP + k <= vp < USER_VP + k + cnt
    ensures UserMayWrite(r.m, d, vp)
  {
    GetPagesKeeps(s, User(d), cnt, r, k);
    MappedWritable(s, r, d, k, cnt, vp);
  }

  /** the page get_a_page has, */
  lemma GetAPageWritable(s: Sys, d: Frame, user: bool, k: nat, r: Sys)
    requires Inv(s) && d in s.uv && k < 8 * USER_BYTES && GetAPage(s, User(d), user, k) == Done(r)
    ensures UserMayWrite(r.m, d, USER_VP + k)
  {
    GetAPageKeeps(s, User(d), user, k, r);
    MappedWritable(s, r, d, k, 1, USER_VP + k);
  }

  /** and, in every state a run reaches, to exactly the pages whose bits are set. */
  lemma RunRights(s: Sys, ops: seq<Op>, r: Sys, d: Frame, k: nat)
    requires Inv(s) && Runs(s, ops, r) && d in r.uv && k < 8 * USER_BYTES
    ensures Geometry(r) && (UserMayWrite(r.m, d, USER_VP + k) <==> r.uv[d].v[k])
    ensures WalkPage(r.m, d, USER_VP + k).Fault? <==> !r.uv[d].v[k]
  {
    RunKeeps(s, ops, r);
    UserHalf(r, d, k);
  }
}
