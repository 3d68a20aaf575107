/** The doubly linked list under the cache: a ring of heap nodes through a root that holds no value. */
module LinkedList {
  import opened Wrappers

  class Element<T> {
    var next: Element?<T>
    var prev: Element?<T>
    var value: Option<T>

    constructor ()
      ensures next == null && prev == null && value == None
    {
      next, prev, value := null, null, None;
    }
  }

  /** The nodes form a ring in this order. */
  ghost predicate Ring<T>(ring: seq<Element<T>>)
    reads ring
  {
    && ring != []
    && (forall i, j :: 0 <= i < j < |ring| ==> ring[i] != ring[j])
    && (forall i :: 0 <= i < |ring| - 1 ==> ring[i].next == ring[i + 1])
    && (forall i :: 0 < i < |ring| ==> ring[i].prev == ring[i - 1])
    && ring[|ring| - 1].next == ring[0]
    && ring[0].prev == ring[|ring| - 1]
  }

  class List<T> {
    var root: Element<T>
    var len: nat
    ghost var ring: seq<Element<T>>   // the root, then the nodes in order

    ghost predicate Valid()
      reads this, ring
    {
      && Ring(ring) && ring[0] == root && len == |ring| - 1
      && (forall i {:trigger ring[i].value} :: 0 < i < |ring| ==> ring[i].value.Some?)
    }

    constructor ()
      ensures Valid() && |ring| == 1 && fresh(ring[0])
    {
      root := new Element();
      len := 0;
      new;
      root.next := root;
      root.prev := root;
      ring := [root];
    }

    /** Init: the list forgets its nodes. */
    method Init()
      requires Valid()
      modifies this`len, this`ring, root
      ensures Valid() && root == old(root) && ring == [root]
    {
      root.next := root;
      root.prev := root;
      len := 0;
      ring := [root];
    }

    /** Back: the last node, or null. */
    method Back() returns (e: Element?<T>)
      requires Valid()
      ensures |ring| == 1 ==> e == null
      ensures |ring| > 1 ==> e == ring[|ring| - 1]
    {
      if len == 0 {
        return null;
      }
      e := root.prev;
    }

    /** Remove: the node leaves the ring and keeps its value. */
    method Remove(e: Element<T>, ghost p: nat)
      requires Valid() && 0 < p < |ring| && ring[p] == e
      modifies this`len, this`ring, ring
      ensures Valid() && root == old(root)
      ensures ring == old(ring)[..p] + old(ring)[p + 1..]
      ensures forall x :: x in old(ring) ==> x.value == old(x.value)
    {
      Unlink(ring, e, p);
      len := len - 1;
      ring := ring[..p] + ring[p + 1..];
    }

    /** PushFront: a new node with this value. */
    method PushFront(v: T) returns (e: Element<T>)
      requires Valid()
      modifies this`len, this`ring, ring
      ensures Valid() && root == old(root) && fresh(e)
      ensures ring == [root, e] + old(ring)[1..] && e.value == Some(v)
      ensures forall x :: x in old(ring) ==> x.value == old(x.value)
    {
      e := new Element();
      e.value := Some(v);
      LinkAfter(ring, root, e);
      len := len + 1;
      ring := [root, e] + ring[1..];
    }

    /** MoveToFront: the node is unlinked and linked again after the root, unless it is there already. */
    method MoveToFront(e: Element<T>, ghost p: nat)
      requires Valid() && 0 < p < |ring| && ring[p] == e
      modifies this`ring, ring
      ensures Valid() && root == old(root)
      ensures ring == [root, e] + (old(ring)[1..p] + old(ring)[p + 1..])
      ensures forall x :: x in old(ring) ==> x.value == old(x.value)
    {
      if root.next == e {
        assert ring[0].next == ring[1];
        assert ring == [root, e] + (ring[1..p] + ring[p + 1..]);
        return;
      }
      Relink(ring, root, e, p);
      ring := [root, e] + (ring[1..p] + ring[p + 1..]);
    }
  }

  /** e.prev.next = e.next; e.next.prev = e.prev */
  method Unlink<T>(ghost ring: seq<Element<T>>, e: Element<T>, ghost p: nat)
    requires Ring(ring) && 0 < p < |ring| && ring[p] == e
    modifies ring
    ensures Ring(ring[..p] + ring[p + 1..])
    ensures forall x :: x in ring ==> x.value == old(x.value)
  {
    ghost var n := |ring|;
    var before, after := e.prev, e.next;
    assert before == ring[p - 1];
    assert after == if p + 1 < n then ring[p + 1] else ring[0];
    before.next := after;
    after.prev := before;
    e.next := null;
    e.prev := null;
    ghost var rest := ring[..p] + ring[p + 1..];
    assert rest[0] == ring[0];
    assert rest[n - 2] == if p + 1 < n then ring[n - 1] else ring[p - 1];
    assert forall i :: 0 <= i < n - 1 ==> rest[i] == ring[if i < p then i else i + 1];
  }

  /** move(e, root) */
  method Relink<T>(ghost ring: seq<Element<T>>, root: Element<T>, e: Element<T>, ghost p: nat)
    requires Ring(ring) && ring[0] == root && 0 < p < |ring| && ring[p] == e
    modifies ring
    ensures Ring([root, e] + (ring[1..p] + ring[p + 1..]))
    ensures forall x :: x in ring ==> x.value == old(x.value)
  {
    Unlink(ring, e, p);
    ghost var rest := ring[..p] + ring[p + 1..];
    assert rest[1..] == ring[1..p] + ring[p + 1..];
    assert forall x :: x in rest ==> x in ring;
    LinkAfter(rest, root, e);
  }

  /** insert(e, root) */
  method LinkAfter<T>(ghost ring: seq<Element<T>>, root: Element<T>, e: Element<T>)
    requires Ring(ring) && ring[0] == root && e !in ring
    modifies ring, e
    ensures Ring([root, e] + ring[1..])
    ensures forall x :: x in ring ==> x.value == old(x.value)
    ensures e.value == old(e.value)
  {
    ghost var n := |ring|;
    var after := root.next;
    assert after == if n > 1 then ring[1] else ring[0];
    e.prev := root;
    e.next := after;
    root.next := e;
    after.prev := e;
    ghost var r := [root, e] + ring[1..];
    assert forall i :: 2 <= i < n + 1 ==> r[i] == ring[i - 1];
    assert r[n] == if n > 1 then ring[n - 1] else e;
  }
}
