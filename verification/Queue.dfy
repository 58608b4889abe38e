/** The ready list and the waiters lists as they are linked: each thread has one general_tag, and the
    lists are made of tags, so a thread can be on one of them at most. Contents are thread numbers. */
module ThreadQueues {
  import opened Lists

  twostate lemma ListKept(l: List)
    requires old(l.Valid()) && l.nodes == old(l.nodes)
    requires forall k :: 0 <= k < |l.nodes| ==> l.nodes[k].next == old(l.nodes[k].next)
    requires forall k :: 0 <= k < |l.nodes| ==> l.nodes[k].prev == old(l.nodes[k].prev)
    ensures l.Valid()
  {
  }

  class Queues {
    const lists: seq<List>
    var tags: map<nat, Elem>       // &thread->general_tag
    var entry: map<Elem, nat>      // elem2entry
    ghost var repr: set<object>

    ghost predicate Linked(i: nat)
      requires i < |lists|
      reads this, repr
    {
      lists[i] in repr && (forall e :: e in lists[i].nodes ==> e in repr) && lists[i].Valid() &&
      (forall e :: e in lists[i].nodes ==> e in entry || e == lists[i].head || e == lists[i].tail) &&
      lists[i].head !in entry && lists[i].tail !in entry
    }

    ghost predicate Separate(i: nat, j: nat)
      requires i < |lists| && j < |lists|
      reads this, repr
    {
      lists[i] in repr && lists[j] in repr && Apart(lists[i], lists[j])
    }

    ghost predicate Valid()
      reads this, repr
    {
      this in repr && (forall e :: e in entry ==> e in repr) &&
      (forall t :: t in tags ==> tags[t] in entry && entry[tags[t]] == t) &&
      (forall e :: e in entry ==> entry[e] in tags && tags[entry[e]] == e) &&
      (forall i {:trigger Linked(i)} :: 0 <= i < |lists| ==> Linked(i)) &&
      (forall i, j {:trigger Separate(i, j)} :: 0 <= i < j < |lists| ==> Separate(i, j))
    }

    /** The threads on list i, in order. */
    ghost function Of(i: nat): (q: seq<nat>)
      requires Valid() && i < |lists|
      reads this, repr
      ensures |q| == |lists[i].nodes| - 2
      ensures forall k :: 0 <= k < |q| ==> lists[i].nodes[k + 1] in entry && q[k] == entry[lists[i].nodes[k + 1]]
    {
      assert Linked(i);
      var n := lists[i].nodes;
      assert forall k {:trigger n[k]} :: 0 < k < |n| - 1 ==> n[k] in n && n[k] != n[0] && n[k] != n[|n| - 1];
      seq(|n| - 2, k requires 0 <= k < |n| - 2 && n[k + 1] in entry reads this => entry[n[k + 1]])
    }

    /** A thread on no queue has its tag in no list. */
    lemma TagAbsent(t: nat, i: nat)
      requires Valid() && i < |lists| && t in tags && t !in Of(i)
      ensures tags[t] !in lists[i].nodes
    {
      assert Linked(i);
      var n := lists[i].nodes;
      forall k | 0 <= k < |n| ensures n[k] != tags[t] {
        assert n[k] in n;
        assert 0 < k < |n| - 1 ==> Of(i)[k - 1] == entry[n[k]];
      }
    }

    /** list_append. */
    method Append(i: nat, t: nat)
      requires Valid() && i < |lists| && t in tags && forall j :: 0 <= j < |lists| ==> t !in Of(j)
      modifies repr
      ensures tags == old(tags) && repr == old(repr)
      ensures Valid() && Of(i) == old(Of(i)) + [t]
      ensures forall j :: 0 <= j < |lists| && j != i ==> Of(j) == old(Of(j))
    {
      forall j | 0 <= j < |lists| ensures tags[t] !in lists[j].nodes && Linked(j) { TagAbsent(t, j); }
      forall j | 0 <= j < |lists| && j != i
        ensures lists[j] != lists[i] && forall x :: x in lists[j].nodes ==> x !in lists[i].nodes
      {
        assert if j < i then Separate(j, i) else Separate(i, j);
      }
      ghost var n := lists[i].nodes;
      var e := tags[t];
      assert n[|n| - 2] in n && n[|n| - 1] in n;
      lists[i].Append(e);
      assert lists[i].nodes == InsertAt(n, |n| - 1, e);
      forall x | x in lists[i].nodes ensures x in n || x == e { }
      forall j | 0 <= j < |lists| ensures Linked(j) {
        if j != i {
          forall k | 0 <= k < |lists[j].nodes| ensures lists[j].nodes[k] !in n && lists[j].nodes[k] != e {
            assert lists[j].nodes[k] in lists[j].nodes;
          }
          assert old(Linked(j));
          ListKept(lists[j]);
        }
      }
      forall j, k | 0 <= j < k < |lists| ensures Separate(j, k) {
        assert Linked(j) && Linked(k) && old(Separate(j, k));
      }
    }

    /** list_push. */
    method Push(i: nat, t: nat)
      requires Valid() && i < |lists| && t in tags && forall j :: 0 <= j < |lists| ==> t !in Of(j)
      modifies repr
      ensures tags == old(tags) && repr == old(repr)
      ensures Valid() && Of(i) == [t] + old(Of(i))
      ensures forall j :: 0 <= j < |lists| && j != i ==> Of(j) == old(Of(j))
    {
      forall j | 0 <= j < |lists| ensures tags[t] !in lists[j].nodes && Linked(j) { TagAbsent(t, j); }
      forall j | 0 <= j < |lists| && j != i
        ensures lists[j] != lists[i] && forall x :: x in lists[j].nodes ==> x !in lists[i].nodes
      {
        assert if j < i then Separate(j, i) else Separate(i, j);
      }
      ghost var n := lists[i].nodes;
      var e := tags[t];
      assert n[0] in n && n[1] in n;
      lists[i].Push(e);
      assert lists[i].nodes == InsertAt(n, 1, e);
      forall x | x in lists[i].nodes ensures x in n || x == e { }
      forall j | 0 <= j < |lists| ensures Linked(j) {
        if j != i {
          forall k | 0 <= k < |lists[j].nodes| ensures lists[j].nodes[k] !in n && lists[j].nodes[k] != e {
            assert lists[j].nodes[k] in lists[j].nodes;
          }
          assert old(Linked(j));
          ListKept(lists[j]);
        }
      }
      forall j, k | 0 <= j < k < |lists| ensures Separate(j, k) {
        assert Linked(j) && Linked(k) && old(Separate(j, k));
      }
    }

    /** list_pop and elem2entry. */
    method Pop(i: nat) returns (t: nat)
      requires Valid() && i < |lists| && Of(i) != []
      modifies repr
      ensures tags == old(tags) && repr == old(repr)
      ensures Valid() && t in tags && t == old(Of(i))[0] && Of(i) == old(Of(i))[1..]
      ensures forall j :: 0 <= j < |lists| && j != i ==> Of(j) == old(Of(j))
    {
      forall j | 0 <= j < |lists| ensures Linked(j) { }
      assert Linked(i);
      ghost var n := lists[i].nodes;
      assert n[0] in n && n[1] in n && n[2] in n;
      assert n[1] in entry;
      forall j | 0 <= j < |lists| && j != i
        ensures lists[j] != lists[i] && forall x :: x in lists[j].nodes ==> x !in lists[i].nodes
      {
        assert if j < i then Separate(j, i) else Separate(i, j);
      }
      assert Of(i)[0] == entry[n[1]];
      var e := lists[i].Pop();
      assert lists[i].nodes == RemoveAt(n, 1) && e == n[1];
      forall x | x in lists[i].nodes ensures x in n { }
      forall j | 0 <= j < |lists| ensures Linked(j) {
        if j != i {
          forall k | 0 <= k < |lists[j].nodes| ensures lists[j].nodes[k] !in n && lists[j].nodes[k] != e {
            assert lists[j].nodes[k] in lists[j].nodes;
          }
          assert old(Linked(j));
          ListKept(lists[j]);
        }
      }
      forall j, k | 0 <= j < k < |lists| ensures Separate(j, k) {
        assert Linked(j) && Linked(k) && old(Separate(j, k));
      }
      t := entry[e];
    }

    /** list_empty. */
    method Empty(i: nat) returns (r: bool)
      requires Valid() && i < |lists|
      ensures r <==> Of(i) == []
    {
      assert Linked(i);
      r := lists[i].Empty();
    }

    /** elem_find. */
    method Find(i: nat, t: nat) returns (r: bool)
      requires Valid() && i < |lists| && t in tags
      ensures r <==> t in Of(i)
    {
      assert Linked(i);
      OnQueue(i, t);
      assert tags[t] in entry && tags[t] != lists[i].head && tags[t] != lists[i].tail;
      r := lists[i].Find(tags[t]);
    }

    /** A thread is on a queue exactly when its tag is in the list. */
    lemma OnQueue(i: nat, t: nat)
      requires Valid() && i < |lists| && t in tags
      ensures Linked(i) && (tags[t] in lists[i].Elems() <==> t in Of(i))
    {
      assert Linked(i);
      var q, es := Of(i), lists[i].Elems();
      assert |q| == |es|;
      forall k | 0 <= k < |q| ensures q[k] == t <==> es[k] == tags[t] {
        assert es[k] == lists[i].nodes[k + 1] && q[k] == entry[es[k]];
      }
    }

    /** A new thread's tag, on no list. */
    method AddThread(t: nat)
      requires Valid() && t !in tags
      modifies repr
      ensures Valid() && tags.Keys == old(tags.Keys) + {t} && fresh(repr - old(repr))
      ensures forall u :: u in old(tags) ==> tags[u] == old(tags[u])
      ensures forall j :: 0 <= j < |lists| ==> Of(j) == old(Of(j)) && t !in Of(j)
    {
      forall j | 0 <= j < |lists| ensures Linked(j) { }
      var e := new Elem();
      tags := tags[t := e];
      entry := entry[e := t];
      repr := repr + {e};
      forall j | 0 <= j < |lists| ensures Linked(j) {
        assert old(Linked(j));
        ListKept(lists[j]);
        assert lists[j].nodes[0] in lists[j].nodes && lists[j].nodes[|lists[j].nodes| - 1] in lists[j].nodes;
      }
      forall j, k | 0 <= j < k < |lists| ensures Separate(j, k) {
        assert Linked(j) && Linked(k) && old(Separate(j, k));
      }
      assert Valid();
      forall j | 0 <= j < |lists| ensures Of(j) == old(Of(j)) && t !in Of(j) {
        assert old(Linked(j));
        forall k | 0 <= k < |Of(j)| ensures Of(j)[k] == old(Of(j))[k] != t {
          assert lists[j].nodes[k + 1] in old(entry);
        }
      }
    }

    /** Empty lists, no threads. */
    constructor (n: nat)
      ensures Valid() && |lists| == n && tags == map[] && forall j :: 0 <= j < n ==> Of(j) == []
      ensures fresh(repr)
    {
      var ls: seq<List> := [];
      ghost var made: set<object> := {};
      for i := 0 to n
        invariant |ls| == i && fresh(made)
        invariant forall j :: 0 <= j < i ==>
                    ls[j] in made && (forall x :: x in ls[j].nodes ==> x in made) && ls[j].Valid() && |ls[j].nodes| == 2
        invariant forall j, k :: 0 <= j < k < i ==> Apart(ls[j], ls[k])
      {
        var l := new List();
        ls := ls + [l];
        made := made + {l} + (set x | x in l.nodes);
      }
      lists, tags, entry := ls, map[], map[];
      repr := {this} + made;
      new;
      forall j | 0 <= j < |lists| ensures Linked(j) { }
      forall j, k | 0 <= j < k < |lists| ensures Separate(j, k) { }
    }
  }
}
