/** The circular doubly linked list under every table of the stack: a head and its elements, linked
    through `next` and `prev` (libdoipstack/ne_doip_util.c). */
module RingList {

  class Elem {
    var prev: Elem?
    var next: Elem?

    constructor ()
      ensures prev == null && next == null
    {
      prev, next := null, null;
    }
  }

  function After(k: nat, n: nat): (i: nat)
    requires k < n
    ensures i < n && Before(i, n) == k
  {
    if k + 1 == n then 0 else k + 1
  }

  function Before(k: nat, n: nat): (i: nat)
    requires k < n
    ensures i < n
  {
    if k == 0 then n - 1 else k - 1
  }

  ghost predicate Distinct(r: seq<Elem>) {
    forall i, j :: 0 <= i < j < |r| ==> r[i] != r[j]
  }

  /** r is a ring, from its head on: each element's neighbours are its neighbours in r. */
  ghost predicate Ring(r: seq<Elem>)
    reads r
  {
    && r != [] && Distinct(r)
    && (forall i :: 0 <= i < |r| ==> r[i].next == r[After(i, |r|)])
    && (forall i :: 0 <= i < |r| ==> r[i].prev == r[Before(i, |r|)])
  }

  method Init(list: Elem)
    modifies list
    ensures Ring([list])
  {
    list.prev := list;
    list.next := list;
  }

  ghost function Inserted(r: seq<Elem>, k: nat, e: Elem): seq<Elem>
    requires k < |r|
  {
    r[..k + 1] + [e] + r[k + 1..]
  }

  /** Link elm in behind list, which is element k of the ring. */
  method Insert(list: Elem, elm: Elem, ghost r: seq<Elem>, ghost k: nat)
    requires Ring(r) && k < |r| && list == r[k] && elm !in r
    modifies r, elm
    ensures Ring(Inserted(r, k, elm))
  {
    ghost var n := |r|;
    elm.prev := list;
    elm.next := list.next;
    list.next := elm;
    elm.next.prev := elm;
    assert forall i :: 0 <= i < n ==> r[i].next == if i == k then elm else r[After(i, n)];
    assert forall i :: 0 <= i < n ==> r[i].prev == if i == After(k, n) then elm else r[Before(i, n)];
    InsertedDistinct(r, k, elm);
    InsertedRing(r, k, elm);
  }

  lemma InsertedDistinct(r: seq<Elem>, k: nat, e: Elem)
    requires Distinct(r) && k < |r| && e !in r
    ensures Distinct(Inserted(r, k, e))
  {
    var u := Inserted(r, k, e);
    assert forall i :: 0 <= i < |u| ==> u[i] == if i <= k then r[i] else if i == k + 1 then e else r[i - 1];
  }

  /** The links that insertion leaves behind are those of the longer ring. */
  lemma InsertedRing(r: seq<Elem>, k: nat, e: Elem)
    requires k < |r| && Distinct(Inserted(r, k, e))
    requires e.next == r[After(k, |r|)] && e.prev == r[k]
    requires forall i :: 0 <= i < |r| ==> r[i].next == if i == k then e else r[After(i, |r|)]
    requires forall i :: 0 <= i < |r| ==> r[i].prev == if i == After(k, |r|) then e else r[Before(i, |r|)]
    ensures Ring(Inserted(r, k, e))
  {
    hide Inserted;
    var n, u := |r|, Inserted(r, k, e);
    InsertedAt(r, k, e, 0);
    forall i | 0 <= i < n + 1
      ensures u[i].next == u[After(i, n + 1)] && u[i].prev == u[Before(i, n + 1)]
    {
      InsertedAt(r, k, e, i);
      InsertedAt(r, k, e, After(i, n + 1));
      InsertedAt(r, k, e, Before(i, n + 1));
    }
  }

  lemma InsertedAt(r: seq<Elem>, k: nat, e: Elem, i: nat)
    requires k < |r| && i <= |r|
    ensures |Inserted(r, k, e)| == |r| + 1
    ensures Inserted(r, k, e)[i] == if i <= k then r[i] else if i == k + 1 then e else r[i - 1]
  {
  }

  method Unlink(elm: Elem)
    requires elm.prev != null && elm.next != null && elm.prev != elm && elm.next != elm
    modifies elm, elm.prev`next, elm.next`prev
    ensures old(elm.prev).next == old(elm.next) && old(elm.next).prev == old(elm.prev)
    ensures elm.next == null && elm.prev == null
  {
    elm.prev.next := elm.next;
    elm.next.prev := elm.prev;
    elm.next := null;
    elm.prev := null;
  }

  ghost function Removed(r: seq<Elem>, k: nat): seq<Elem>
    requires k < |r|
  {
    r[..k] + r[k + 1..]
  }

  /** Unlink element k, which is not the head. */
  method Remove(elm: Elem, ghost r: seq<Elem>, ghost k: nat)
    requires Ring(r) && 0 < k < |r| && elm == r[k]
    modifies r
    ensures Ring(Removed(r, k)) && elm.next == null && elm.prev == null
  {
    ghost var n := |r|;
    assert elm.prev == r[k - 1] && elm.next == r[After(k, n)];
    Unlink(elm);
    forall i {:trigger r[i].next} | 0 <= i < n && i != k - 1 && i != k ensures r[i].next == r[After(i, n)] {
    }
    forall i {:trigger r[i].prev} | 0 <= i < n && i != After(k, n) && i != k ensures r[i].prev == r[Before(i, n)] {
    }
    RemovedRing(r, k);
  }

  /** The links that removal leaves behind are those of the shorter ring. */
  lemma RemovedRing(r: seq<Elem>, k: nat)
    requires 0 < k < |r| && Distinct(r)
    requires forall i :: 0 <= i < |r| && i != k ==>
      r[i].next == r[if i == k - 1 then After(k, |r|) else After(i, |r|)]
    requires forall i :: 0 <= i < |r| && i != k ==>
      r[i].prev == r[if i == After(k, |r|) then k - 1 else Before(i, |r|)]
    ensures Ring(Removed(r, k))
  {
    var n, u := |r|, Removed(r, k);
    assert forall i :: 0 <= i < |u| ==> u[i] == r[if i < k then i else i + 1];
    forall i | 0 <= i < n - 1
      ensures u[i].next == u[After(i, n - 1)] && u[i].prev == u[Before(i, n - 1)]
    {
    }
  }

  /** The number of elements, returned in eight bits. */
  method Length(list: Elem, ghost r: seq<Elem>) returns (length: int)
    requires Ring(r) && list == r[0]
    ensures length == (|r| - 1) % 256
  {
    var count := 0;
    var e := list.next;
    while e != list
      invariant 0 <= count < |r| && e == r[After(count, |r|)]
      decreases |r| - count
    {
      e := e.next;
      count := count + 1;
    }
    length := count % 256;
  }

  /** The four links that splicing changes. */
  method Relink(list: Elem, other: Elem)
    requires other.next != null && other.prev != null && list.next != null
    requires other != list && other.prev != list && other.next != other && other.next != list.next
    requires list.next != other && other.prev != other
    modifies list`next, list.next`prev, other.next`prev, other.prev`next
    ensures list.next == old(other.next) && old(other.prev).next == old(list.next)
    ensures old(other.next).prev == list && old(list.next).prev == old(other.prev)
  {
    other.next.prev := list;
    other.prev.next := list.next;
    list.next.prev := other.prev;
    list.next := other.next;
  }

  /** Splice the elements of another ring in behind the head; the other head keeps stale links. */
  method InsertList(list: Elem, other: Elem, ghost r: seq<Elem>, ghost o: seq<Elem>)
    requires Ring(r) && Ring(o) && list == r[0] && other == o[0]
    requires forall x :: x in r ==> x !in o
    modifies r, o
    ensures Ring(Spliced(r, o))
  {
    if other.next == other {
      assert |o| == 1;
      assert Spliced(r, o) == r;
      return;
    }
    SplicedDistinct(r, o);
    Splice(list, other, r, o);
    SplicedRing(r, o);
  }

  /** What splicing does to the links of both rings. */
  method Splice(list: Elem, other: Elem, ghost r: seq<Elem>, ghost o: seq<Elem>)
    requires Ring(r) && Ring(o) && list == r[0] && other == o[0] && |o| > 1
    requires forall x :: x in r ==> x !in o
    modifies r, o
    ensures forall i {:trigger r[i].next} :: 0 <= i < |r| ==> r[i].next == if i == 0 then o[1] else r[After(i, |r|)]
    ensures forall i {:trigger r[i].prev} :: 0 <= i < |r| ==>
      r[i].prev == if i == After(0, |r|) then o[|o| - 1] else r[Before(i, |r|)]
    ensures forall i {:trigger o[i].next} :: 1 <= i < |o| ==>
      o[i].next == if i == |o| - 1 then r[After(0, |r|)] else o[i + 1]
    ensures forall i {:trigger o[i].prev} :: 1 <= i < |o| ==> o[i].prev == if i == 1 then r[0] else o[i - 1]
  {
    ghost var n, m := |r|, |o|;
    assert forall i :: 0 <= i < m ==> o[i] in o;
    assert forall i :: 0 <= i < n ==> r[i] in r && r[i] !in o;
    assert other.next == o[1] && other.prev == o[m - 1] && list.next == r[After(0, n)];
    Relink(list, other);
  }

  ghost function Spliced(r: seq<Elem>, o: seq<Elem>): seq<Elem>
    requires r != [] && o != []
  {
    [r[0]] + o[1..] + r[1..]
  }

  lemma SplicedDistinct(r: seq<Elem>, o: seq<Elem>)
    requires r != [] && o != [] && Distinct(r) && Distinct(o) && forall x :: x in r ==> x !in o
    ensures Distinct(Spliced(r, o))
  {
    var m, u := |o|, Spliced(r, o);
    assert forall i :: 0 <= i < |u| ==> u[i] == if i == 0 then r[0] else if i < m then o[i] else r[i - m + 1];
    forall i, j | 0 <= i < j < |u| ensures u[i] != u[j] {
      assert i != 0 && i < m ==> o[i] in o;
      assert j < m ==> o[j] in o;
    }
  }

  lemma SplicedAt(r: seq<Elem>, o: seq<Elem>, i: nat)
    requires r != [] && o != [] && i < |r| + |o| - 1
    ensures |Spliced(r, o)| == |r| + |o| - 1
    ensures Spliced(r, o)[i] == if i == 0 then r[0] else if i < |o| then o[i] else r[i - |o| + 1]
  {
  }

  /** The links that splicing leaves behind are those of the joint ring. */
  lemma SplicedRing(r: seq<Elem>, o: seq<Elem>)
    requires r != [] && |o| > 1 && Distinct(Spliced(r, o))
    requires forall i {:trigger r[i].next} :: 0 <= i < |r| ==> r[i].next == if i == 0 then o[1] else r[After(i, |r|)]
    requires forall i {:trigger r[i].prev} :: 0 <= i < |r| ==> r[i].prev == if i == After(0, |r|) then o[|o| - 1] else r[Before(i, |r|)]
    requires forall i {:trigger o[i].next} :: 1 <= i < |o| ==> o[i].next == if i == |o| - 1 then r[After(0, |r|)] else o[i + 1]
    requires forall i {:trigger o[i].prev} :: 1 <= i < |o| ==> o[i].prev == if i == 1 then r[0] else o[i - 1]
    ensures Ring(Spliced(r, o))
  {
    hide Spliced;
    var n, m, u := |r|, |o|, Spliced(r, o);
    SplicedAt(r, o, 0);
    forall i | 0 <= i < n + m - 1
      ensures u[i].next == u[After(i, n + m - 1)] && u[i].prev == u[Before(i, n + m - 1)]
    {
      SplicedAt(r, o, i);
      SplicedAt(r, o, After(i, n + m - 1));
      SplicedAt(r, o, Before(i, n + m - 1));
      if i == 0 {
        assert r[0].next == o[1];
        assert r[0].prev == if n == 1 then o[m - 1] else r[n - 1];
      } else if i < m {
        assert o[i].next == if i == m - 1 then r[After(0, n)] else o[i + 1];
        assert o[i].prev == if i == 1 then r[0] else o[i - 1];
      } else {
        var k := i - m + 1;
        assert r[k].next == if k == n - 1 then r[0] else r[k + 1];
        assert r[k].prev == if k == 1 then o[m - 1] else r[k - 1];
      }
    }
  }
}
