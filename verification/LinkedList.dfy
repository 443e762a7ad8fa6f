/** The doubly linked ring with a sentinel that the cache keeps its recency order in
    (Go's container/list, as used by internal/cache/lru.go). */
module LinkedList {
  import opened Wrappers

  /** A list node. `value` is None only in the sentinel. */
  class Element<T> {
    var next: Element?<T>
    var prev: Element?<T>
    var value: Option<T>

    constructor (value: Option<T>)
      ensures this.value == value
    {
      this.value := value;
      next, prev := null, null;
    }
  }

  ghost function DropAt<T>(s: seq<T>, i: nat): seq<T>
    requires i < |s|
  {
    s[..i] + s[i + 1..]
  }

  ghost predicate Distinct<T>(s: seq<T>) {
    forall i, j :: 0 <= i < j < |s| ==> s[i] != s[j]
  }

  lemma {:induction false} DropDistinct<T>(s: seq<T>, i: nat)
    requires i < |s|
    ensures |DropAt(s, i)| == |s| - 1
    ensures Distinct(s) ==> Distinct(DropAt(s, i)) && s[i] !in DropAt(s, i)
    ensures forall x :: x in DropAt(s, i) ==> x in s
    ensures forall j :: 0 <= j < |s| - 1 ==> DropAt(s, i)[j] == s[if j < i then j else j + 1]
  {
  }

  lemma {:induction false} DistinctPush<T>(s: seq<T>, x: T)
    requires Distinct(s) && x !in s
    ensures Distinct([x] + s)
  {
  }

  lemma {:induction false} DropFirst<T>(s: seq<T>)
    requires s != []
    ensures [s[0]] + DropAt(s, 0) == s
  {
  }

  lemma {:induction false} DropUpdated<T>(s: seq<T>, i: nat, v: T)
    requires i < |s|
    ensures DropAt(s[i := v], i) == DropAt(s, i)
  {
  }

  lemma {:induction false} DropBefore<T>(s: seq<T>, j: nat, rest: seq<T>)
    requires 0 < j <= |s|
    ensures DropAt(s[..j] + rest, j - 1) == s[..j - 1] + rest
    ensures s[..j] + rest == s[..j - 1] + ([s[j - 1]] + rest)
  {
  }

  /** The node at position `i` of the ring; positions 0 and |nodes|+1 are both the sentinel. */
  ghost function At<T>(root: Element<T>, nodes: seq<Element<T>>, i: int): Element<T> {
    if 0 < i <= |nodes| then nodes[i - 1] else root
  }

  /** Neighbouring ring positions point at each other. */
  ghost predicate Linked<T>(root: Element<T>, nodes: seq<Element<T>>)
    reads root, nodes
  {
    && (forall i :: 0 <= i <= |nodes| ==> At(root, nodes, i).next == At(root, nodes, i + 1))
    && (forall i :: 1 <= i <= |nodes| + 1 ==> At(root, nodes, i).prev == At(root, nodes, i - 1))
  }

  /** The ring after the pointer surgery that bypasses position `i + 1`. */
  ghost predicate Bypassed<T>(root: Element<T>, nodes: seq<Element<T>>, i: nat)
    reads root, nodes
  {
    && (forall k :: 0 <= k <= |nodes| && k != i + 1 ==>
          At(root, nodes, k).next == At(root, nodes, if k == i then i + 2 else k + 1))
    && (forall k :: 1 <= k <= |nodes| + 1 && k != i + 1 ==>
          At(root, nodes, k).prev == At(root, nodes, if k == i + 2 then i else k - 1))
  }

  lemma {:induction false} BypassedIsLinked<T>(root: Element<T>, nodes: seq<Element<T>>, i: nat)
    requires i < |nodes| && Bypassed(root, nodes, i)
    ensures Linked(root, DropAt(nodes, i))
  {
    var left := DropAt(nodes, i);
    assert forall j :: 0 <= j <= |left| + 1 ==> At(root, left, j) == At(root, nodes, if j <= i then j else j + 1);
  }

  class List<T> {
    const root: Element<T>
    var len: nat
    ghost var elems: seq<Element<T>>  // the nodes, front first
    ghost var values: seq<T>          // what they store
    ghost var Repr: set<Element<T>>   // the sentinel and every node ever linked in

    ghost predicate Valid()
      reads this, Repr
    {
      && root in Repr
      && (forall i :: 0 <= i < |elems| ==> elems[i] in Repr)
      && len == |elems| == |values|
      && root !in elems
      && Distinct(elems)
      && (forall i :: 0 <= i < |elems| ==> elems[i].value == Some(values[i]))
      && Linked(root, elems)
    }

    lemma {:induction false} Front()
      requires Valid() && elems != []
      ensures root.next == elems[0]
    {
      assert At(root, elems, 0).next == At(root, elems, 1);
    }

    constructor ()
      ensures Valid() && fresh(Repr) && elems == [] && values == []
    {
      var r := new Element<T>(None);
      root := r;
      len := 0;
      elems, values := [], [];
      new;
      Repr := {root};
      root.next, root.prev := root, root;
    }

    method PushFront(v: T) returns (e: Element<T>)
      requires Valid()
      modifies this, Repr
      ensures Valid() && fresh(e) && Repr == old(Repr) + {e}
      ensures elems == [e] + old(elems) && values == [v] + old(values)
    {
      e := new Element<T>(Some(v));
      LinkFront(e);
    }

    /** Links the loose node `e` in just after the sentinel. */
    method LinkFront(e: Element<T>)
      requires Valid() && e != root && e !in elems && e.value.Some?
      modifies `len, `elems, `values, `Repr, Repr`next, Repr`prev, e`next, e`prev
      ensures Valid() && Repr == old(Repr) + {e}
      ensures elems == [e] + old(elems) && values == [e.value.value] + old(values)
    {
      Splice(e);
      DistinctPush(elems, e);
      hide Linked, Distinct;
      len := len + 1;
      elems, values, Repr := [e] + elems, [e.value.value] + values, Repr + {e};
    }

    /** The pointer surgery of LinkFront. */
    method Splice(e: Element<T>)
      requires Valid() && e != root && e !in elems
      modifies Repr`next, Repr`prev, e`next, e`prev
      ensures Linked(root, [e] + elems)
    {
      ghost var ring := [e] + elems;
      assert At(root, elems, 0).next == At(root, elems, 1);
      e.prev := root;
      e.next := root.next;
      e.prev.next := e;
      e.next.prev := e;
      assert forall i :: 2 <= i <= |ring| + 1 ==> At(root, ring, i) == At(root, elems, i - 1);
    }

    /** Unlinks `e`, which stands at position `i`. */
    method Remove(e: Element<T>, ghost i: nat)
      requires Valid() && i < |elems| && elems[i] == e
      modifies `len, `elems, `values, Repr`next, Repr`prev
      ensures Valid() && Repr == old(Repr)
      ensures elems == DropAt(old(elems), i) && values == DropAt(old(values), i) && e !in elems
    {
      DropDistinct(elems, i);
      Bypass(e, i);
      BypassedIsLinked(root, elems, i);
      hide Linked, Bypassed, Distinct;
      len := len - 1;
      elems, values := DropAt(elems, i), DropAt(values, i);
    }

    /** The pointer surgery of Remove. */
    method Bypass(e: Element<T>, ghost i: nat)
      requires Valid() && i < |elems| && elems[i] == e
      modifies Repr`next, Repr`prev
      ensures Bypassed(root, elems, i)
    {
      assert At(root, elems, i + 1) == e && e.prev == At(root, elems, i) && e.next == At(root, elems, i + 2);
      e.prev.next := e.next;
      e.next.prev := e.prev;
      e.next, e.prev := null, null;
    }

    method MoveToFront(e: Element<T>, ghost i: nat)
      requires Valid() && i < |elems| && elems[i] == e
      modifies `len, `elems, `values, `Repr, Repr`next, Repr`prev
      ensures Valid() && Repr == old(Repr)
      ensures elems == [e] + DropAt(old(elems), i) && values == [old(values)[i]] + DropAt(old(values), i)
    {
      Front();
      if root.next == e {
        assert i == 0;
        DropFirst(elems);
        DropFirst(values);
        return;
      }
      hide Linked, Distinct;
      Remove(e, i);
      LinkFront(e);
    }

    /** Overwrites the value of the node at position `i` in place. */
    method Store(e: Element<T>, v: T, ghost i: nat)
      requires Valid() && i < |elems| && elems[i] == e
      modifies `values, e`value
      ensures Valid() && values == old(values)[i := v]
    {
      e.value := Some(v);
      values := values[i := v];
    }

    method Back() returns (e: Element?<T>)
      requires Valid()
      ensures elems == [] ==> e == null
      ensures elems != [] ==> e == elems[|elems| - 1]
    {
      if len == 0 {
        return null;
      }
      assert At(root, elems, |elems| + 1) == root && At(root, elems, |elems|) == elems[|elems| - 1];
      return root.prev;
    }

    method Prev(e: Element<T>, ghost i: nat) returns (p: Element?<T>)
      requires Valid() && i < |elems| && elems[i] == e
      ensures i == 0 ==> p == null
      ensures i > 0 ==> p == elems[i - 1]
    {
      assert At(root, elems, i + 1) == e && e.prev == At(root, elems, i);
      p := if e.prev != root then e.prev else null;
    }
  }
}
