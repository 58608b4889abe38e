/** Intrusive doubly linked lists with two sentinels (lib/kernel/list.c), refined to
    sequences of nodes on a heap that other lists share. */
module Lists {

  class Elem {
    var prev: Elem?
    var next: Elem?
    constructor () { prev, next := null, null; }
  }

  predicate Distinct<T(==)>(s: seq<T>)
  {
    forall i, j :: 0 <= i < j < |s| ==> s[i] != s[j]
  }

  function InsertAt<T>(s: seq<T>, k: nat, x: T): seq<T>
    requires k <= |s|
  {
    s[..k] + [x] + s[k..]
  }

  function RemoveAt<T>(s: seq<T>, k: nat): seq<T>
    requires k < |s|
  {
    s[..k] + s[k + 1..]
  }

  /** The elements of s that are not in out, in their old order. */
  function Without<T(==)>(s: seq<T>, out: set<T>): seq<T>
  {
    if s == [] then []
    else
      var rest := Without(s[1..], out);
      if s[0] in out then rest else [s[0]] + rest
  }

  lemma {:induction false} WithoutMembers<T>(s: seq<T>, out: set<T>)
    ensures forall x :: x in Without(s, out) <==> x in s && x !in out
    ensures Distinct(s) ==> Distinct(Without(s, out))
  {
    if s != [] { WithoutMembers(s[1..], out); }
  }

  lemma {:induction false} RemoveAtWithout<T>(s: seq<T>, k: nat)
    requires Distinct(s) && k < |s|
    ensures RemoveAt(s, k) == Without(s, {s[k]})
  {
    if k == 0 {
      WithoutNone(s[1..], {s[0]});
      assert RemoveAt(s, 0) == s[1..];
    } else {
      RemoveAtWithout(s[1..], k - 1);
      assert RemoveAt(s, k) == [s[0]] + RemoveAt(s[1..], k - 1);
    }
  }

  lemma {:induction false} WithoutNone<T>(s: seq<T>, out: set<T>)
    requires forall x :: x in s ==> x !in out
    ensures Without(s, out) == s
  {
    if s != [] { WithoutNone(s[1..], out); }
  }

  /** Removing one set and then another is removing their union. */
  lemma {:induction false} WithoutTwice<T>(s: seq<T>, a: set<T>, b: set<T>)
    ensures Without(Without(s, a), b) == Without(s, a + b)
  {
    if s != [] { WithoutTwice(s[1..], a, b); }
  }

  /** Order is kept: Without splits over concatenation, so two survivors keep their relative place. */
  lemma {:induction false} WithoutConcat<T>(s: seq<T>, t: seq<T>, out: set<T>)
    ensures Without(s + t, out) == Without(s, out) + Without(t, out)
  {
    if s == [] {
      assert s + t == t;
    } else {
      WithoutConcat(s[1..], t, out);
      assert (s + t)[1..] == s[1..] + t && (s + t)[0] == s[0];
      var a, b := Without(s[1..], out), Without(t, out);
      assert ([s[0]] + a) + b == [s[0]] + (a + b);
    }
  }

  class List {
    const head: Elem
    const tail: Elem
    ghost var nodes: seq<Elem>   // head, the elements in order, tail

    ghost predicate Valid()
      reads this, nodes
    {
      2 <= |nodes| && nodes[0] == head && nodes[|nodes| - 1] == tail && Distinct(nodes) &&
      (forall i {:trigger nodes[i].next} :: 0 <= i < |nodes| - 1 ==> nodes[i].next == nodes[i + 1]) &&
      (forall i {:trigger nodes[i].prev} :: 0 < i < |nodes| ==> nodes[i].prev == nodes[i - 1])
    }

    ghost function Node(i: nat): Elem
      requires i < |nodes|
      reads this
    {
      nodes[i]
    }

    /** The list's meaning: its elements, without the sentinels. */
    ghost function Elems(): seq<Elem>
      requires 2 <= |nodes|
      reads this
    {
      nodes[1..|nodes| - 1]
    }

    /** list_init */
    constructor ()
      ensures Valid() && Elems() == [] && fresh(nodes)
    {
      var h := new Elem();
      var t := new Elem();
      h.prev, h.next := null, t;
      t.prev, t.next := h, null;
      head, tail := h, t;
      nodes := [h, t];
    }

    method Push(elem: Elem)
      requires Valid() && elem !in nodes
      modifies this`nodes, Node(0)`next, Node(1)`prev, elem
      ensures Valid() && Elems() == [elem] + old(Elems())
      ensures nodes == InsertAt(old(nodes), 1, elem)
    {
      assert nodes[0].next == nodes[1];
      InsertBefore(this, head.next, elem, 0);
      InsertInside(old(nodes), 0, elem);
    }

    method Append(elem: Elem)
      requires Valid() && elem !in nodes
      modifies this`nodes, Node(|nodes| - 2)`next, Node(|nodes| - 1)`prev, elem
      ensures Valid() && Elems() == old(Elems()) + [elem]
      ensures nodes == InsertAt(old(nodes), |old(nodes)| - 1, elem)
    {
      InsertBefore(this, tail, elem, |nodes| - 2);
      InsertInside(old(nodes), |old(nodes)| - 2, elem);
    }

    method Empty() returns (r: bool)
      requires Valid()
      ensures r <==> Elems() == []
    {
      r := head.next == tail;
      assert nodes[0].next == nodes[1];
      assert |nodes| > 2 ==> nodes[1] != nodes[|nodes| - 1];
    }

    method Pop() returns (elem: Elem)
      requires Valid() && Elems() != []
      modifies this`nodes, Node(0)`next, Node(2)`prev
      ensures Valid() && elem == old(Elems())[0] && Elems() == old(Elems())[1..]
      ensures nodes == RemoveAt(old(nodes), 1)
    {
      assert nodes[0].next == nodes[1];
      elem := head.next;
      Remove(this, elem, 0);
    }

    method Find(obj: Elem) returns (found: bool)
      requires Valid()
      ensures obj != head && obj != tail ==> (found <==> obj in Elems())
    {
      assert nodes[0].next == nodes[1];
      var elem := head.next;
      ghost var i := 1;
      while elem != tail
        invariant 1 <= i < |nodes| && elem == nodes[i]
        invariant obj !in nodes[1..i]
        decreases |nodes| - i
      {
        if elem == obj {
          assert elem == Elems()[i - 1];
          return true;
        }
        assert nodes[i].next == nodes[i + 1];
        elem := elem.next;
        i := i + 1;
      }
      assert i == |nodes| - 1;
      found := false;
    }

    /** list_traversal with a callback that only looks at its element. */
    method Traversal(func: Elem -> bool) returns (r: Elem?)
      requires Valid()
      ensures r == null ==> forall e :: e in Elems() ==> !func(e)
      ensures r != null ==> exists k :: 0 <= k < |Elems()| && r == Elems()[k] && func(r)
                                        && forall j :: 0 <= j < k ==> !func(Elems()[j])
    {
      assert nodes[0].next == nodes[1];
      var elem := head.next;
      var empty := Empty();
      if empty {
        return null;
      }
      ghost var i := 1;
      while elem != tail
        invariant 1 <= i < |nodes| && elem == nodes[i]
        invariant forall j :: 1 <= j < i ==> !func(nodes[j])
        decreases |nodes| - i
      {
        if func(elem) {
          assert elem == Elems()[i - 1];
          return elem;
        }
        assert nodes[i].next == nodes[i + 1];
        elem := elem.next;
        i := i + 1;
      }
      r := null;
    }

    method Len() returns (length: nat)
      requires Valid()
      ensures length == |Elems()|
    {
      assert nodes[0].next == nodes[1];
      var elem := head.next;
      length := 0;
      while elem != tail
        invariant length + 1 < |nodes| && elem == nodes[length + 1]
        decreases |nodes| - length
      {
        assert nodes[length + 1].next == nodes[length + 2];
        length := length + 1;
        elem := elem.next;
      }
    }
  }

  /** list_insert_before: only two links of the list and the new node are written. */
  method InsertBefore(ghost plist: List, before: Elem, elem: Elem, ghost k: nat)
    requires plist.Valid() && elem !in plist.nodes && k + 1 < |plist.nodes| && before == plist.nodes[k + 1]
    modifies plist`nodes, plist.Node(k)`next, plist.Node(k + 1)`prev, elem
    ensures plist.Valid() && plist.nodes == InsertAt(old(plist.nodes), k + 1, elem)
  {
    ghost var c := plist.nodes;
    assert c[k + 1].prev == c[k];
    before.prev.next := elem;
    elem.prev := before.prev;
    elem.next := before;
    before.prev := elem;
    plist.nodes := InsertAt(plist.nodes, k + 1, elem);
    InsertKeepsDistinct(c, k + 1, elem);
  }

  lemma InsertInside<T>(s: seq<T>, k: nat, x: T)
    requires k + 2 <= |s|
    ensures InsertAt(s, k + 1, x)[1..|s|] == InsertAt(s[1..|s| - 1], k, x)
    ensures k == 0 ==> InsertAt(s[1..|s| - 1], k, x) == [x] + s[1..|s| - 1]
    ensures k + 2 == |s| ==> InsertAt(s[1..|s| - 1], k, x) == s[1..|s| - 1] + [x]
  {
  }

  lemma InsertKeepsDistinct<T>(s: seq<T>, k: nat, x: T)
    requires Distinct(s) && k <= |s| && x !in s
    ensures Distinct(InsertAt(s, k, x))
  {
  }

  /** list_remove: the removed node keeps its own stale links. */
  method Remove(ghost plist: List, pelem: Elem, ghost k: nat)
    requires plist.Valid() && k + 2 < |plist.nodes| && pelem == plist.nodes[k + 1]
    modifies plist`nodes, plist.Node(k)`next, plist.Node(k + 2)`prev
    ensures plist.Valid() && plist.nodes == RemoveAt(old(plist.nodes), k + 1)
    ensures pelem.prev == old(pelem.prev) && pelem.next == old(pelem.next)
  {
    ghost var c := plist.nodes;
    assert c[k + 1].prev == c[k] && c[k + 1].next == c[k + 2];
    pelem.prev.next := pelem.next;
    pelem.next.prev := pelem.prev;
    plist.nodes := RemoveAt(plist.nodes, k + 1);
  }

  /** Two lists that share no node and no sentinel. */
  ghost predicate Apart(a: List, b: List)
    reads a, b
  {
    a != b && forall x :: x in a.nodes ==> x !in b.nodes
  }

  /** The list work of sema_up and thread_unblock: the first waiter moves to the front of the
      ready list; both lists stay lists and stay apart. */
  method MoveFirst(waiters: List, ready: List) returns (elem: Elem)
    requires waiters.Valid() && ready.Valid() && Apart(waiters, ready) && waiters.Elems() != []
    modifies waiters, ready, waiters.nodes, ready.nodes
    ensures waiters.Valid() && ready.Valid() && Apart(waiters, ready)
    ensures elem == old(waiters.Elems())[0]
    ensures waiters.Elems() == old(waiters.Elems())[1..]
    ensures ready.Elems() == [elem] + old(ready.Elems())
  {
    ghost var w, r := waiters.nodes, ready.nodes;
    assert w[0] in w && w[1] in w && w[2] in w;
    elem := waiters.Pop();
    assert elem == w[1] && forall x :: x in waiters.nodes ==> x in w && x != elem;
    assert ready.Valid();
    assert r[0] in r && r[1] in r;
    ready.Push(elem);
    assert forall x :: x in ready.nodes ==> x in r || x == elem;
  }

  /** The loop of sys_free that takes every block of a finished arena off its free list. */
  method RemoveAll(plist: List, blocks: seq<Elem>)
    requires plist.Valid() && Distinct(blocks)
    requires forall i :: 0 <= i < |blocks| ==> blocks[i] in plist.Elems()
    modifies plist, plist.nodes
    ensures plist.Valid()
    ensures plist.Elems() == Without(old(plist.Elems()), Taken(blocks, |blocks|))
  {
    ghost var before := plist.Elems();
    WithoutNone(before, Taken(blocks, 0));
    var idx := 0;
    while idx < |blocks|
      invariant 0 <= idx <= |blocks|
      invariant plist.Valid() && forall i :: 0 <= i < |plist.nodes| ==> plist.nodes[i] in old(plist.nodes)
      invariant plist.Elems() == Without(before, Taken(blocks, idx))
    {
      TakenStep(before, blocks, idx);
      RemoveFound(plist, blocks[idx]);
      idx := idx + 1;
    }
  }

  function Taken<T(==)>(blocks: seq<T>, n: nat): set<T>
    requires n <= |blocks|
  {
    set b | b in blocks[..n]
  }

  lemma TakenStep<T>(before: seq<T>, blocks: seq<T>, n: nat)
    requires Distinct(blocks) && n < |blocks| && blocks[n] in before
    ensures blocks[n] in Without(before, Taken(blocks, n))
    ensures Without(Without(before, Taken(blocks, n)), {blocks[n]}) == Without(before, Taken(blocks, n + 1))
  {
    WithoutMembers(before, Taken(blocks, n));
    WithoutTwice(before, Taken(blocks, n), {blocks[n]});
    assert Taken(blocks, n) + {blocks[n]} == Taken(blocks, n + 1);
  }

  /** One round of that loop: the ASSERT that the block is on the list, then its removal. */
  method RemoveFound(plist: List, b: Elem)
    requires plist.Valid() && b in plist.Elems()
    modifies plist, plist.nodes
    ensures plist.Valid() && plist.Elems() == Without(old(plist.Elems()), {b})
    ensures forall i :: 0 <= i < |plist.nodes| ==> plist.nodes[i] in old(plist.nodes)
  {
    ghost var k := RemovableAt(plist, b);
    var found := plist.Find(b);
    assert found;
    RemoveAtWithout(plist.Elems(), k);
    Remove(plist, b, k);
  }

  lemma RemovableAt(plist: List, b: Elem) returns (k: nat)
    requires plist.Valid() && b in plist.Elems()
    ensures k < |plist.Elems()| && b == plist.Elems()[k] && b != plist.head && b != plist.tail
    ensures RemoveAt(plist.Elems(), k) == RemoveAt(plist.nodes, k + 1)[1..|plist.nodes| - 2]
    ensures Distinct(plist.Elems())
  {
    k :| 0 <= k < |plist.Elems()| && plist.Elems()[k] == b;
    assert plist.nodes[k + 1] == b;
    forall i, j | 0 <= i < j < |plist.Elems()| ensures plist.Elems()[i] != plist.Elems()[j] {
      assert plist.nodes[i + 1] != plist.nodes[j + 1];
    }
  }
}
