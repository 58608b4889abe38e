/** The free lists and arena headers of sys_malloc as words in memory: each free block holds its
    links, each arena's first page its header, and the sentinels of the seven lists lie in the array
    of descriptors. What the words say is what module Slabs says. */
module HeapLinks {
  import opened Lists
  import opened Slabs

  /** Where the descriptors are, and the address of page index 0 of the heap's address space. */
  datatype Env = Env(base: nat, start: nat)

  datatype Node = Blk(p: Ptr) | HeadOf(c: Class) | TailOf(c: Class)

  /** A word the allocator keeps for itself: a link of a node, or word i of an arena's header. */
  datatype Cell = NextOf(n: Node) | PrevOf(n: Node) | Hdr(k: nat, i: nat)

  /** What those words hold. */
  type Store = imap<Cell, int>

  const DESC_SIZE := 24      // sizeof(struct mem_block_desc): two words and two list nodes

  function DescAddr(env: Env, c: Class): nat
  {
    env.base + DESC_SIZE * c
  }

  function PtrAddr(env: Env, p: Ptr): nat
  {
    env.start + PAGE * p.page + p.off
  }

  function Addr(env: Env, n: Node): nat
  {
    match n
    case Blk(p) => PtrAddr(env, p)
    case HeadOf(c) => DescAddr(env, c) + 8
    case TailOf(c) => DescAddr(env, c) + 16
  }

  // ----- one list -----

  predicate LinkAt(env: Env, st: Store, nodes: seq<Node>, i: nat)
    requires i + 1 < |nodes|
  {
    NextOf(nodes[i]) in st && PrevOf(nodes[i + 1]) in st &&
    st[NextOf(nodes[i])] == Addr(env, nodes[i + 1]) && st[PrevOf(nodes[i + 1])] == Addr(env, nodes[i])
  }

  /** Each node's next is the following one, whose prev is the node. */
  ghost predicate Chain(env: Env, st: Store, nodes: seq<Node>)
  {
    forall i: nat {:trigger LinkAt(env, st, nodes, i)} :: i + 1 < |nodes| ==> LinkAt(env, st, nodes, i)
  }

  function Blks(list: seq<Ptr>): seq<Node>
  {
    seq(|list|, i requires 0 <= i < |list| => Blk(list[i]))
  }

  function Nodes(c: Class, list: seq<Ptr>): (nodes: seq<Node>)
    ensures |nodes| == |list| + 2
  {
    [HeadOf(c)] + Blks(list) + [TailOf(c)]
  }

  lemma NodesAt(c: Class, list: seq<Ptr>)
    ensures var nodes := Nodes(c, list);
            nodes[0] == HeadOf(c) && nodes[|list| + 1] == TailOf(c) &&
            forall i :: 0 <= i < |list| ==> nodes[i + 1] == Blk(list[i])
    ensures forall n :: n in Nodes(c, list) <==> n == HeadOf(c) || n == TailOf(c) || (n.Blk? && n.p in list)
    ensures Distinct(list) ==> Distinct(Nodes(c, list))
  {
    var nodes := Nodes(c, list);
    forall i | 0 <= i < |list| ensures nodes[i + 1] == Blk(list[i]) { }
    forall n ensures n in nodes <==> n == HeadOf(c) || n == TailOf(c) || (n.Blk? && n.p in list) {
      if n == HeadOf(c) { assert nodes[0] == n; }
      if n == TailOf(c) { assert nodes[|list| + 1] == n; }
      if n.Blk? && n.p in list {
        var i :| 0 <= i < |list| && list[i] == n.p;
        assert nodes[i + 1] == n;
      }
    }
  }

  /** The four stores of list_insert_before, between neighbours a and b. */
  function Inserted(env: Env, st: Store, a: Node, e: Node, b: Node): Store
  {
    st[NextOf(a) := Addr(env, e)][PrevOf(e) := Addr(env, a)][NextOf(e) := Addr(env, b)][PrevOf(b) := Addr(env, e)]
  }

  /** The two stores of list_remove. */
  function Unlinked(env: Env, st: Store, a: Node, b: Node): Store
  {
    st[NextOf(a) := Addr(env, b)][PrevOf(b) := Addr(env, a)]
  }

  lemma ChainInsert(env: Env, st: Store, nodes: seq<Node>, k: nat, e: Node)
    requires Chain(env, st, nodes) && Distinct(nodes) && k + 1 < |nodes| && e !in nodes
    ensures Chain(env, Inserted(env, st, nodes[k], e, nodes[k + 1]), InsertAt(nodes, k + 1, e))
  {
    var r, t := Inserted(env, st, nodes[k], e, nodes[k + 1]), InsertAt(nodes, k + 1, e);
    forall i: nat | i + 1 < |t| ensures LinkAt(env, r, t, i) {
      if i < k {
        assert LinkAt(env, st, nodes, i) && t[i] == nodes[i] && t[i + 1] == nodes[i + 1];
      } else if i > k + 1 {
        var j := i - 1;
        assert LinkAt(env, st, nodes, j) && t[i] == nodes[j] && t[i + 1] == nodes[j + 1];
      } else {
        assert LinkAt(env, st, nodes, k) && t[k] == nodes[k] && t[k + 1] == e && t[k + 2] == nodes[k + 1];
      }
    }
  }

  lemma ChainRemove(env: Env, st: Store, nodes: seq<Node>, k: nat)
    requires Chain(env, st, nodes) && Distinct(nodes) && k + 2 < |nodes|
    ensures Chain(env, Unlinked(env, st, nodes[k], nodes[k + 2]), RemoveAt(nodes, k + 1))
  {
    var r, t := Unlinked(env, st, nodes[k], nodes[k + 2]), RemoveAt(nodes, k + 1);
    forall i: nat | i + 1 < |t| ensures LinkAt(env, r, t, i) {
      if i < k {
        assert LinkAt(env, st, nodes, i) && t[i] == nodes[i] && t[i + 1] == nodes[i + 1];
      } else if i > k {
        var j := i + 1;
        assert LinkAt(env, st, nodes, j) && t[i] == nodes[j] && t[i + 1] == nodes[j + 1];
      } else {
        var j := k + 1;
        assert LinkAt(env, st, nodes, k) && LinkAt(env, st, nodes, j);
        assert t[k] == nodes[k] && t[k + 1] == nodes[k + 2];
      }
    }
  }

  /** A list's own words. */
  predicate LinkCell(nodes: seq<Node>, cell: Cell)
  {
    !cell.Hdr? && cell.n in nodes
  }

  /** r holds what st holds in every word of those nodes. */
  ghost predicate Agree(st: Store, r: Store, nodes: seq<Node>)
  {
    forall cell {:trigger cell in st} :: cell in st && LinkCell(nodes, cell) ==> cell in r && r[cell] == st[cell]
  }

  lemma ChainAgrees(env: Env, st: Store, r: Store, nodes: seq<Node>)
    requires Chain(env, st, nodes) && Agree(st, r, nodes)
    ensures Chain(env, r, nodes)
  {
    forall i: nat | i + 1 < |nodes| ensures LinkAt(env, r, nodes, i) { assert LinkAt(env, st, nodes, i); }
  }

  // ----- the seven lists and the headers -----

  predicate HeaderOk(env: Env, st: Store, arenas: map<nat, Arena>, k: nat)
  {
    k in arenas ==>
      Hdr(k, 0) in st && Hdr(k, 1) in st && Hdr(k, 2) in st &&
      match arenas[k]
      case Small(c, cnt) => st[Hdr(k, 0)] == DescAddr(env, c) && st[Hdr(k, 1)] == cnt && st[Hdr(k, 2)] == 0
      case Large(n) => st[Hdr(k, 0)] == 0 && st[Hdr(k, 1)] == n && st[Hdr(k, 2)] == 1
  }

  ghost predicate Headers(env: Env, st: Store, arenas: map<nat, Arena>)
  {
    forall k: nat {:trigger HeaderOk(env, st, arenas, k)} :: HeaderOk(env, st, arenas, k)
  }

  ghost predicate ListOk(env: Env, st: Store, free: seq<seq<Ptr>>, c: Class)
    requires |free| == DESC_CNT
  {
    Distinct(free[c]) && Chain(env, st, Nodes(c, free[c]))
  }

  predicate OnOne(free: seq<seq<Ptr>>, c: Class, d: Class, b: Ptr)
    requires |free| == DESC_CNT
  {
    b in free[c] && b in free[d] ==> c == d
  }

  /** Following the links from each head gives that class's free blocks in order, and back. */
  ghost predicate Linked(env: Env, st: Store, free: seq<seq<Ptr>>)
  {
    |free| == DESC_CNT && (forall c: Class {:trigger ListOk(env, st, free, c)} :: ListOk(env, st, free, c)) &&
    forall c: Class, d: Class, b: Ptr {:trigger OnOne(free, c, d, b)} :: OnOne(free, c, d, b)
  }

  /** list_append's stores: before the tail. */
  function Appended(env: Env, st: Store, c: Class, list: seq<Ptr>, b: Ptr): Store
  {
    Inserted(env, st, Nodes(c, list)[|list|], Blk(b), TailOf(c))
  }

  lemma NodesInsert(c: Class, list: seq<Ptr>, b: Ptr)
    ensures InsertAt(Nodes(c, list), |list| + 1, Blk(b)) == Nodes(c, list + [b])
  {
    assert Blks(list + [b]) == Blks(list) + [Blk(b)];
    assert Nodes(c, list)[..|list| + 1] == [HeadOf(c)] + Blks(list);
  }

  lemma NodesRemove(c: Class, list: seq<Ptr>, i: nat)
    requires i < |list|
    ensures RemoveAt(Nodes(c, list), i + 1) == Nodes(c, RemoveAt(list, i))
  {
    assert Blks(RemoveAt(list, i)) == Blks(list)[..i] + Blks(list)[i + 1..];
    assert Nodes(c, list)[..i + 1] == [HeadOf(c)] + Blks(list)[..i];
    assert Nodes(c, list)[i + 2..] == Blks(list)[i + 1..] + [TailOf(c)];
  }

  lemma AppendLink(env: Env, st: Store, c: Class, list: seq<Ptr>, b: Ptr)
    requires Distinct(list) && Chain(env, st, Nodes(c, list)) && b !in list
    ensures Chain(env, Appended(env, st, c, list, b), Nodes(c, list + [b])) && Distinct(list + [b])
  {
    NodesAt(c, list);
    ChainInsert(env, st, Nodes(c, list), |list|, Blk(b));
    NodesInsert(c, list, b);
    AppendDistinct(list, [b]);
  }

  lemma AppendLinks(env: Env, st: Store, free: seq<seq<Ptr>>, c: Class, b: Ptr)
    requires Linked(env, st, free) && forall d: Class :: b !in free[d]
    ensures Linked(env, Appended(env, st, c, free[c], b), free[c := free[c] + [b]])
  {
    var list := free[c];
    var r, t := Appended(env, st, c, list, b), free[c := list + [b]];
    assert ListOk(env, st, free, c);
    AppendLink(env, st, c, list, b);
    forall d: Class ensures ListOk(env, r, t, d) {
      if d != c {
        assert ListOk(env, st, free, d);
        OtherAppend(env, st, free, c, d, b);
      }
    }
    forall d: Class, f: Class, x: Ptr ensures OnOne(t, d, f, x) { assert OnOne(free, d, f, x); }
  }

  lemma InsertedAgrees(env: Env, st: Store, a: Node, e: Node, b: Node, nodes: seq<Node>)
    requires a !in nodes && e !in nodes && b !in nodes
    ensures Agree(st, Inserted(env, st, a, e, b), nodes)
  {
  }

  lemma UnlinkedAgrees(env: Env, st: Store, a: Node, b: Node, nodes: seq<Node>)
    requires a !in nodes && b !in nodes
    ensures Agree(st, Unlinked(env, st, a, b), nodes)
  {
  }

  /** Two lists share no node. */
  lemma ListsApart(env: Env, st: Store, free: seq<seq<Ptr>>, c: Class, d: Class, n: Node)
    requires Linked(env, st, free) && c != d && n in Nodes(c, free[c])
    ensures n !in Nodes(d, free[d])
  {
    NodesAt(c, free[c]);
    NodesAt(d, free[d]);
    if n.Blk? { assert OnOne(free, c, d, n.p); }
  }

  lemma OtherAppend(env: Env, st: Store, free: seq<seq<Ptr>>, c: Class, d: Class, b: Ptr)
    requires Linked(env, st, free) && b !in free[d] && c != d
    ensures Chain(env, Appended(env, st, c, free[c], b), Nodes(d, free[d]))
  {
    var a := Nodes(c, free[c])[|free[c]|];
    assert ListOk(env, st, free, d);
    NodesAt(d, free[d]);
    ListsApart(env, st, free, c, d, a);
    InsertedAgrees(env, st, a, Blk(b), TailOf(c), Nodes(d, free[d]));
    ChainAgrees(env, st, Appended(env, st, c, free[c], b), Nodes(d, free[d]));
  }

  /** list_remove's stores, for the block at place i of its list. */
  function Removed(env: Env, st: Store, c: Class, list: seq<Ptr>, i: nat): Store
    requires i < |list|
  {
    Unlinked(env, st, Nodes(c, list)[i], Nodes(c, list)[i + 2])
  }

  lemma RemoveLinks(env: Env, st: Store, free: seq<seq<Ptr>>, c: Class, i: nat)
    requires Linked(env, st, free) && i < |free[c]|
    ensures Linked(env, Removed(env, st, c, free[c], i), free[c := RemoveAt(free[c], i)])
  {
    var list := free[c];
    var r, t := Removed(env, st, c, list, i), free[c := RemoveAt(list, i)];
    assert ListOk(env, st, free, c);
    RemoveLink(env, st, c, list, i);
    RemoveMembers(list, i);
    forall d: Class ensures ListOk(env, r, t, d) {
      if d != c {
        assert ListOk(env, st, free, d);
        OtherRemove(env, st, free, c, d, i);
      }
    }
    forall d: Class, f: Class, x: Ptr ensures OnOne(t, d, f, x) { assert OnOne(free, d, f, x); }
  }

  lemma RemoveMembers<T>(list: seq<T>, i: nat)
    requires Distinct(list) && i < |list|
    ensures Distinct(RemoveAt(list, i)) && forall x :: x in RemoveAt(list, i) <==> x in list && x != list[i]
  {
    RemoveAtWithout(list, i);
    WithoutMembers(list, {list[i]});
  }

  lemma RemoveLink(env: Env, st: Store, c: Class, list: seq<Ptr>, i: nat)
    requires Distinct(list) && Chain(env, st, Nodes(c, list)) && i < |list|
    ensures Chain(env, Removed(env, st, c, list, i), Nodes(c, RemoveAt(list, i)))
  {
    NodesAt(c, list);
    ChainRemove(env, st, Nodes(c, list), i);
    NodesRemove(c, list, i);
  }

  lemma OtherRemove(env: Env, st: Store, free: seq<seq<Ptr>>, c: Class, d: Class, i: nat)
    requires Linked(env, st, free) && c != d && i < |free[c]|
    ensures Chain(env, Removed(env, st, c, free[c], i), Nodes(d, free[d]))
  {
    var a, b := Nodes(c, free[c])[i], Nodes(c, free[c])[i + 2];
    assert ListOk(env, st, free, d);
    ListsApart(env, st, free, c, d, a);
    ListsApart(env, st, free, c, d, b);
    UnlinkedAgrees(env, st, a, b, Nodes(d, free[d]));
    ChainAgrees(env, st, Removed(env, st, c, free[c], i), Nodes(d, free[d]));
  }

  /** The words in use: links of listed blocks and of the sentinels. */
  predicate Used(free: seq<seq<Ptr>>, cell: Cell)
    requires |free| == DESC_CNT
  {
    !cell.Hdr? && (cell.n.Blk? ==> exists c: Class :: cell.n.p in free[c])
  }

  lemma LinkedAgrees(env: Env, st: Store, r: Store, free: seq<seq<Ptr>>)
    requires Linked(env, st, free)
    requires forall cell {:trigger cell in st} :: cell in st && Used(free, cell) ==> cell in r && r[cell] == st[cell]
    ensures Linked(env, r, free)
  {
    forall c: Class ensures ListOk(env, r, free, c) {
      assert ListOk(env, st, free, c);
      NodesAt(c, free[c]);
      ChainAgrees(env, st, r, Nodes(c, free[c]));
    }
  }
}
