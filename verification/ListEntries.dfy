/** Intrusive circular doubly linked lists: the LIST_ENTRY links that the class
    extension embeds in its file contexts, socket contexts and list heads.

    A list is described by its ring: the sequence of links met by following `flink`
    from the head once around.  `record` is what CONTAINING_RECORD computes from the
    address of a link. */
module ListEntries {

  class ListEntry<T> {
    const record: T
    var flink: ListEntry<T>
    var blink: ListEntry<T>

    /** InitializeListHead at creation: the link is alone in its ring. */
    constructor (record: T)
      ensures this.record == record
      ensures Ring([this])
    {
      this.record := record;
      flink, blink := this, this;
    }
  }

  function After(i: nat, n: nat): (j: nat)
    requires i < n
    ensures j < n
  {
    if i + 1 == n then 0 else i + 1
  }

  ghost predicate Distinct<T>(r: seq<ListEntry<T>>) {
    forall i, j :: 0 <= i < j < |r| ==> r[i] != r[j]
  }

  ghost predicate Ring<T>(r: seq<ListEntry<T>>)
    reads set e | e in r
  {
    && r != []
    && Distinct(r)
    && (forall i {:trigger r[i].flink} :: 0 <= i < |r| ==> r[i].flink == r[After(i, |r|)])
    && (forall i {:trigger r[After(i, |r|)]} :: 0 <= i < |r| ==> r[After(i, |r|)].blink == r[i])
  }

  /** A link points to itself exactly when it is alone, so IsListEmpty answers
      membership when asked of an entry and emptiness when asked of a head. */
  method IsListEmpty<T>(e: ListEntry<T>, ghost r: seq<ListEntry<T>>) returns (empty: bool)
    requires Ring(r) && e in r
    ensures empty <==> r == [e]
  {
    empty := e.flink == e;
    ghost var k :| 0 <= k < |r| && r[k] == e;
    assert r[k].flink == r[After(k, |r|)];
  }

  method InitializeListHead<T>(e: ListEntry<T>)
    modifies e
    ensures Ring([e])
  {
    e.flink, e.blink := e, e;
  }

  method InsertHeadList<T>(head: ListEntry<T>, e: ListEntry<T>, ghost r: seq<ListEntry<T>>)
    requires Ring(r) && r[0] == head && e !in r
    modifies r, e
    ensures Ring([head, e] + r[1..])
  {
    var first := head.flink;
    assert first == r[After(0, |r|)];
    e.flink := first;
    e.blink := head;
    first.blink := e;
    head.flink := e;
    ghost var r' := [head, e] + r[1..];
    InsertedDistinct(r, 0, e);
    assert r' == r[..1] + [e] + r[1..];
    forall i | 0 <= i < |r'|
      ensures r'[i].flink == r'[After(i, |r'|)] && r'[After(i, |r'|)].blink == r'[i]
    {
      if i >= 2 { assert r'[i] == r[i - 1] && old(r[i - 1].flink) == r[After(i - 1, |r|)]; }
    }
  }

  method InsertTailList<T>(head: ListEntry<T>, e: ListEntry<T>, ghost r: seq<ListEntry<T>>)
    requires Ring(r) && r[0] == head && e !in r
    modifies r, e
    ensures Ring(r + [e])
  {
    var last := head.blink;
    assert r[After(|r| - 1, |r|)] == head;
    e.flink := head;
    e.blink := last;
    last.flink := e;
    head.blink := e;
    ghost var r' := r + [e];
    forall i | 0 <= i < |r'|
      ensures r'[i].flink == r'[After(i, |r'|)] && r'[After(i, |r'|)].blink == r'[i]
    {
      if i + 1 < |r| { assert old(r[i].flink) == r[After(i, |r|)]; }
    }
  }

  /** RemoveEntryList needs neither the head nor the position; both are ghost here.
      The removed link keeps its stale pointers. */
  method RemoveEntryList<T>(e: ListEntry<T>, ghost r: seq<ListEntry<T>>, ghost k: nat)
    requires Ring(r) && 0 < k < |r| && r[k] == e
    modifies r
    ensures Ring(r[..k] + r[k + 1..])
  {
    var next, prev := e.flink, e.blink;
    assert prev == r[k - 1] by { assert r[After(k - 1, |r|)] == r[k]; }
    prev.flink := next;
    next.blink := prev;
    ghost var r' := r[..k] + r[k + 1..];
    forall i | 0 <= i < |r'|
      ensures r'[i].flink == r'[After(i, |r'|)] && r'[After(i, |r'|)].blink == r'[i]
    {
      var m := if i < k then i else i + 1;
      assert r'[i] == r[m];
      assert old(r[m].flink) == r[After(m, |r|)] && old(r[After(m, |r|)].blink) == r[m];
    }
  }

  method RemoveHeadList<T>(head: ListEntry<T>, ghost r: seq<ListEntry<T>>) returns (e: ListEntry<T>)
    requires Ring(r) && |r| > 1 && r[0] == head
    modifies r
    ensures e == r[1]
    ensures Ring([head] + r[2..])
  {
    e := head.flink;
    RemoveEntryList(e, r, 1);
    assert r[..1] + r[2..] == [head] + r[2..];
  }

  lemma InsertedDistinct<T>(r: seq<ListEntry<T>>, k: nat, e: ListEntry<T>)
    requires Distinct(r) && k < |r| && e !in r
    ensures Distinct(r[..k + 1] + [e] + r[k + 1..])
  {
  }

  lemma RemovedElements<T>(r: seq<ListEntry<T>>, k: nat)
    requires Distinct(r) && k < |r|
    ensures forall x :: x in r[..k] + r[k + 1..] <==> x in r && x != r[k]
  {
    forall x | x in r && x != r[k]
      ensures x in r[..k] + r[k + 1..]
    {
      var i :| 0 <= i < |r| && r[i] == x;
      if i < k { assert r[..k][i] == x; } else { assert r[k + 1..][i - k - 1] == x; }
    }
  }

  /** A list head with the ring it starts.  `items` are the records the list holds, in
      list order; it is what a traversal from the head meets. */
  class EntryList<T> {
    const head: ListEntry<T>
    ghost var ring: seq<ListEntry<T>>
    ghost var items: seq<T>

    ghost predicate Valid()
      reads this, set e | e in ring
    {
      && Ring(ring) && ring[0] == head
      && |ring| == |items| + 1
      && forall i :: 0 <= i < |items| ==> items[i] == ring[i + 1].record
    }

    constructor (headRecord: T)
      ensures Valid() && items == [] && ring == [head] && fresh(head)
    {
      head := new ListEntry<T>(headRecord);
      items := [];
      new;
      ring := [head];
    }

    /** Where a traversal goes from position `i` (0 is the head): the next record, and
        from the last record back to the head. */
    lemma Follow(i: nat)
      requires Valid() && i <= |items|
      ensures |ring| == |items| + 1 && ring[0] == head
      ensures ring[i].flink == ring[if i == |items| then 0 else i + 1]
      ensures i < |items| ==> ring[i + 1] != head && ring[i + 1].record == items[i]
    {
      assert ring[i].flink == ring[After(i, |ring|)];
    }

    method IsEmpty() returns (empty: bool)
      requires Valid()
      ensures empty <==> items == []
    {
      empty := IsListEmpty(head, ring);
    }

    method PushFront(e: ListEntry<T>)
      requires Valid() && e !in ring
      modifies this, ring, e
      ensures Valid()
      ensures items == [e.record] + old(items)
      ensures forall x :: x in ring <==> x in old(ring) || x == e
    {
      InsertHeadList(head, e, ring);
      assert ring == [head] + ring[1..];
      ring, items := [head, e] + ring[1..], [e.record] + items;
    }

    method PushBack(e: ListEntry<T>)
      requires Valid() && e !in ring
      modifies this, ring, e
      ensures Valid()
      ensures items == old(items) + [e.record]
      ensures forall x :: x in ring <==> x in old(ring) || x == e
    {
      InsertTailList(head, e, ring);
      ring, items := ring + [e], items + [e.record];
    }

    /** RemoveHeadList of a list that is not empty. */
    method PopFront() returns (e: ListEntry<T>)
      requires Valid() && items != []
      modifies this, ring
      ensures Valid() && e in old(ring) && e != head && e.record == old(items)[0]
      ensures items == old(items)[1..]
      ensures forall x :: x in ring <==> x in old(ring) && x != e
    {
      e := RemoveHeadList(head, ring);
      RemovedElements(ring, 1);
      assert ring[..1] + ring[2..] == [head] + ring[2..];
      ring, items := [head] + ring[2..], items[1..];
    }

    /** RemoveEntryList; `k` is the position of the record, found by nobody at run time. */
    method Remove(e: ListEntry<T>, ghost k: nat)
      requires Valid() && k < |items| && ring[k + 1] == e
      modifies this, ring
      ensures Valid()
      ensures items == old(items)[..k] + old(items)[k + 1..]
      ensures forall x :: x in ring <==> x in old(ring) && x != e
    {
      RemoveEntryList(e, ring, k + 1);
      RemovedElements(ring, k + 1);
      ring, items := ring[..k + 1] + ring[k + 2..], items[..k] + items[k + 1..];
    }
  }
}
