/** lib/kernel/list.c: the intrusive doubly linked list between two sentinels, as a sequence. */
module List {

  class Elem {
    var prev: Elem?
    var next: Elem?
    constructor () {}
  }

  /** No element of the list twice. */
  ghost predicate Distinct(s: seq<Elem>) {
    forall i, j :: 0 <= i < j < |s| ==> s[i] != s[j]
  }

  lemma Apart(s: seq<Elem>, i: nat, j: nat)
    requires Distinct(s) && i < |s| && j < |s| && i != j
    ensures s[i] != s[j]
  {
  }

  lemma SameIndex(s: seq<Elem>, i: nat, j: nat)
    requires Distinct(s) && i < |s| && j < |s| && s[i] == s[j]
    ensures i == j
  {
  }

  /** Neighbours in the sequence point to each other. */
  ghost predicate Linked(s: seq<Elem>)
    reads s
  {
    && (forall i :: 0 <= i < |s| - 1 ==> s[i].next == s[i + 1])
    && (forall i :: 0 < i < |s| ==> s[i].prev == s[i - 1])
  }

  /** An element linked in between s[k] and s[k + 1]. */
  lemma LinkedWith(s: seq<Elem>, now: seq<Elem>, k: nat, elem: Elem)
    requires Distinct(s) && elem !in s && k + 1 < |s| && now == s[..k + 1] + [elem] + s[k + 1..]
    requires forall i {:trigger s[i].next} :: 0 <= i < |s| - 1 ==> s[i].next == if i == k then elem else s[i + 1]
    requires forall i {:trigger s[i].prev} :: 0 < i < |s| ==> s[i].prev == if i == k + 1 then elem else s[i - 1]
    requires elem.prev == s[k] && elem.next == s[k + 1]
    ensures Distinct(now) && Linked(now)
  {
    assert forall i :: 0 <= i < |now| ==> now[i] == if i <= k then s[i] else if i == k + 1 then elem else s[i - 1];
  }

  /** The neighbours of s[k] linked to each other. */
  lemma LinkedWithout(s: seq<Elem>, now: seq<Elem>, k: nat)
    requires Distinct(s) && 0 < k < |s| - 1 && now == s[..k] + s[k + 1..]
    requires forall i {:trigger s[i].next} :: 0 <= i < |s| - 1 ==>
              s[i].next == if i == k - 1 then s[k + 1] else s[i + 1]
    requires forall i {:trigger s[i].prev} :: 0 < i < |s| ==> s[i].prev == if i == k + 1 then s[k - 1] else s[i - 1]
    ensures Distinct(now) && Linked(now)
  {
    assert forall i :: 0 <= i < |now| ==> now[i] == if i < k then s[i] else s[i + 1];
    forall i | 0 <= i < |now| - 1 ensures now[i].next == now[i + 1] {
      assert i >= k ==> s[i + 1].next == s[i + 2];
    }
    forall i | 0 < i < |now| ensures now[i].prev == now[i - 1] {
      assert i > k ==> s[i + 1].prev == s[i];
    }
  }

  /** list_insert_before: the element between was[k] and was[k + 1]. */
  method ListInsertBefore(before: Elem, elem: Elem, ghost was: seq<Elem>, ghost k: nat)
    requires Distinct(was) && Linked(was) && k + 1 < |was| && before == was[k + 1] && elem !in was
    modifies before, before.prev, elem
    ensures forall i :: 0 <= i < |was| ==> was[i].next == if i == k then elem else old(was[i].next)
    ensures forall i :: 0 <= i < |was| ==> was[i].prev == if i == k + 1 then elem else old(was[i].prev)
    ensures elem.prev == was[k] && elem.next == was[k + 1]
  {
    assert before.prev == was[k];
    Apart(was, k, k + 1);
    elem.prev := before.prev;
    before.prev.next := elem;
    elem.next := before;
    before.prev := elem;
    forall i | 0 <= i < |was|
      ensures was[i].next == if i == k then elem else old(was[i].next)
      ensures was[i].prev == if i == k + 1 then elem else old(was[i].prev)
    {
      if i != k { Apart(was, i, k); }
      if i != k + 1 { Apart(was, i, k + 1); }
      assert was[i] in was;
    }
  }

  /** list_remove of was[k]; its own links stay as they are. */
  method ListRemove(elem: Elem, ghost was: seq<Elem>, ghost k: nat)
    requires Distinct(was) && Linked(was) && 0 < k < |was| - 1 && elem == was[k]
    modifies elem.prev, elem.next
    ensures forall i :: 0 <= i < |was| ==> was[i].next == if i == k - 1 then was[k + 1] else old(was[i].next)
    ensures forall i :: 0 <= i < |was| ==> was[i].prev == if i == k + 1 then was[k - 1] else old(was[i].prev)
  {
    assert elem.prev == was[k - 1] && elem.next == was[k + 1];
    Apart(was, k - 1, k);
    Apart(was, k, k + 1);
    Apart(was, k - 1, k + 1);
    elem.prev.next := elem.next;
    elem.next.prev := elem.prev;
    forall i | 0 <= i < |was|
      ensures was[i].next == if i == k - 1 then was[k + 1] else old(was[i].next)
      ensures was[i].prev == if i == k + 1 then was[k - 1] else old(was[i].prev)
    {
      if i != k - 1 { Apart(was, i, k - 1); }
      if i != k + 1 { Apart(was, i, k + 1); }
    }
  }

  /** struct list; `elems` are the elements from the first to the last. */
  class LinkedList {
    const head: Elem
    const tail: Elem
    ghost var elems: seq<Elem>

    ghost function All(): (s: seq<Elem>)
      reads this
      ensures |s| == |elems| + 2 && s[0] == head && s[|elems| + 1] == tail
      ensures forall i :: 0 <= i < |elems| ==> s[i + 1] == elems[i]
    {
      [head] + elems + [tail]
    }

    ghost predicate Valid()
      reads this, All()
    {
      Distinct(All()) && Linked(All())
    }

    /** list_init. */
    constructor ()
      ensures Valid() && elems == [] && fresh(head) && fresh(tail)
    {
      head := new Elem();
      tail := new Elem();
      elems := [];
      new;
      head.prev, head.next := null, tail;
      tail.prev, tail.next := head, null;
    }

    method InsertBefore(before: Elem, elem: Elem, ghost k: nat)
      requires Valid() && k <= |elems| && before == All()[k + 1] && elem !in All()
      modifies this, before, before.prev, elem
      ensures Valid() && elems == old(elems)[..k] + [elem] + old(elems)[k..]
    {
      ghost var was := All();
      ListInsertBefore(before, elem, was, k);
      elems := elems[..k] + [elem] + elems[k..];
      LinkedWith(was, All(), k, elem);
    }

    /** list_push. */
    method Push(elem: Elem)
      requires Valid() && elem !in All()
      modifies this, All(), elem
      ensures Valid() && elems == [elem] + old(elems)
    {
      assert head.next == All()[1] && All()[1].prev == All()[0];
      InsertBefore(head.next, elem, 0);
    }

    /** list_append. */
    method Append(elem: Elem)
      requires Valid() && elem !in All()
      modifies this, All(), elem
      ensures Valid() && elems == old(elems) + [elem]
    {
      assert tail.prev == All()[|elems|];
      InsertBefore(tail, elem, |elems|);
    }

    /** list_remove of the element at index k. */
    method Remove(elem: Elem, ghost k: nat)
      requires Valid() && k < |elems| && elem == elems[k]
      modifies this, All()
      ensures Valid() && elems == old(elems)[..k] + old(elems)[k + 1..]
    {
      ghost var was := All();
      assert elem == was[k + 1] && elem.prev == was[k] && elem.next == was[k + 2];
      ListRemove(elem, was, k + 1);
      elems := elems[..k] + elems[k + 1..];
      LinkedWithout(was, All(), k + 1);
    }

    /** list_pop of a list that is not empty. */
    method Pop() returns (elem: Elem)
      requires Valid() && elems != []
      modifies this, All()
      ensures Valid() && elem == old(elems)[0] && elems == old(elems)[1..]
    {
      assert head.next == All()[1] == elems[0];
      elem := head.next;
      Remove(elem, 0);
    }

    /** list_empty. */
    method IsEmpty() returns (empty: bool)
      requires Valid()
      ensures empty <==> elems == []
    {
      assert head.next == All()[1];
      empty := head.next == tail;
      assert elems != [] ==> All()[1] != All()[|elems| + 1];
    }

    /** elem_find. */
    method ElemFind(obj: Elem) returns (found: bool)
      requires Valid()
      ensures found <==> obj in elems
    {
      ghost var k := 0;
      assert head.next == All()[1];
      var p: Elem := head.next;
      while p != tail
        invariant k <= |elems| && p == All()[k + 1] && forall j :: 0 <= j < k ==> elems[j] != obj
        decreases |elems| - k
      {
        if p == obj { return true; }
        assert p.next == All()[k + 2];
        p := p.next;
        k := k + 1;
      }
      SameIndex(All(), k + 1, |elems| + 1);
      return false;
    }

    /** list_len. */
    method Len() returns (length: nat)
      requires Valid()
      ensures length == |elems|
    {
      assert head.next == All()[1];
      var p: Elem := head.next;
      length := 0;
      while p != tail
        invariant length <= |elems| && p == All()[length + 1]
        decreases |elems| - length
      {
        assert p.next == All()[length + 2];
        length := length + 1;
        p := p.next;
      }
      SameIndex(All(), length + 1, |elems| + 1);
    }
  }
}
