/** The bounded cache with per-entry expiry: a key map and a linked recency list that must
    agree. Each operation is proved equal to the matching operation of module LruSpec. */
module Lru {
  import opened Wrappers
  import opened LruSpec
  import opened LinkedList

  /** Map and list are in bijection: the node at position `i` is the one its key maps to,
      and every key of the map has a node. */
  ghost predicate Agree<K, V>(items: map<K, Element<Entry<K, V>>>, elems: seq<Element<Entry<K, V>>>, s: seq<Entry<K, V>>) {
    && |elems| == |s|
    && (forall i :: 0 <= i < |s| ==> s[i].key in items && items[s[i].key] == elems[i])
    && items.Keys == Keys(s)
  }

  lemma {:induction false} AgreeFacts<K, V>(items: map<K, Element<Entry<K, V>>>, elems: seq<Element<Entry<K, V>>>, s: seq<Entry<K, V>>, k: K)
    requires Agree(items, elems, s) && Distinct(elems)
    ensures DistinctKeys(s)
    ensures k in items <==> HasKey(s, k)
    ensures k !in items ==> Find(s, k) == None && Without(s, k) == s
    ensures k in items ==> exists i: nat :: i < |s| && elems[i] == items[k] && s[i].key == k &&
                                            Find(s, k) == Some(s[i]) && Without(s, k) == DropAt(s, i)
  {
    assert k in items <==> k in Keys(s);
    if k in items {
      var i :| 0 <= i < |s| && s[i].key == k;
      WithoutAt(s, i);
    } else {
      WithoutAbsent(s, k);
    }
  }

  lemma {:induction false} AgreeDrop<K, V>(items: map<K, Element<Entry<K, V>>>, elems: seq<Element<Entry<K, V>>>, s: seq<Entry<K, V>>, i: nat)
    requires Agree(items, elems, s) && Distinct(elems) && i < |s|
    ensures Agree(items - {s[i].key}, DropAt(elems, i), DropAt(s, i))
  {
    var t, left := DropAt(s, i), DropAt(elems, i);
    assert forall j :: 0 <= j < |t| ==> t[j] == s[if j < i then j else j + 1] && left[j] == elems[if j < i then j else j + 1];
    assert Keys(s) == Keys(t) + {s[i].key} by {
      forall j | 0 <= j < |s| && j != i
        ensures s[j].key in Keys(t)
      {
        assert s[j] == t[if j < i then j else j - 1];
      }
    }
  }

  lemma {:induction false} AgreePush<K, V>(items: map<K, Element<Entry<K, V>>>, elems: seq<Element<Entry<K, V>>>, s: seq<Entry<K, V>>,
                        el: Element<Entry<K, V>>, e: Entry<K, V>)
    requires Agree(items, elems, s) && e.key !in items
    ensures Agree(items[e.key := el], [el] + elems, [e] + s)
  {
    var t := [e] + s;
    assert forall i :: 1 <= i < |t| ==> t[i] == s[i - 1];
    forall k
      ensures k in Keys(t) <==> k in Keys(s) || k == e.key
    {
      if k in Keys(s) {
        var j :| 0 <= j < |s| && s[j].key == k;
        assert t[j + 1].key == k;
      }
      assert t[0].key == e.key;
    }
  }

  /** Moving a node to the front, its value replaced by one with the same key. */
  lemma {:induction false} AgreeMove<K, V>(items: map<K, Element<Entry<K, V>>>, elems: seq<Element<Entry<K, V>>>, s: seq<Entry<K, V>>,
                        i: nat, e: Entry<K, V>)
    requires Agree(items, elems, s) && Distinct(elems) && i < |s| && e.key == s[i].key
    ensures Agree(items, [elems[i]] + DropAt(elems, i), [e] + DropAt(s, i))
  {
    AgreeDrop(items, elems, s, i);
    AgreePush(items - {e.key}, DropAt(elems, i), DropAt(s, i), elems[i], e);
    assert (items - {e.key})[e.key := elems[i]] == items;
  }

  class LRU<K(==), V> {
    const cap: nat
    const list: List<Entry<K, V>>
    var items: map<K, Element<Entry<K, V>>>

    ghost predicate Valid()
      reads this, list, list.Repr
    {
      && cap > 0
      && list.Valid()
      && |list.elems| <= cap
      && Agree(items, list.elems, list.values)
    }

    /** The abstract value: the entries, most recently used first. */
    ghost function Contents(): seq<Entry<K, V>>
      reads list
    {
      list.values
    }

    constructor (capacity: nat)
      requires capacity > 0
      ensures Valid() && cap == capacity && Contents() == [] && fresh(list) && fresh(list.Repr)
    {
      cap := capacity;
      list := new List<Entry<K, V>>();
      items := map[];
    }

    method Set(key: K, value: V, ttl: int, now: int)
      requires Valid()
      modifies this, list, list.Repr
      ensures Valid() && fresh(list.Repr - old(list.Repr))
      ensures Contents() == AfterSet(cap, old(Contents()), Entry(key, value, ExpiryFor(now, ttl)))
    {
      var e := Entry(key, value, if ttl > 0 then Some(now + ttl) else None);
      AgreeFacts(items, list.elems, Contents(), key);
      if key in items {
        Promote(items[key], e);
        return;
      }
      if list.len >= cap {
        EvictOldest();
      }
      Insert(e);
    }

    method Get(key: K, now: int) returns (r: Option<V>)
      requires Valid()
      modifies this, list, list.Repr
      ensures Valid() && list.Repr == old(list.Repr)
      ensures r == GetResult(old(Contents()), key, now)
      ensures Contents() == AfterGet(old(Contents()), key, now)
    {
      AgreeFacts(items, list.elems, Contents(), key);
      if key !in items {
        return None;
      }
      var el := items[key];
      ghost var i: nat :| i < |list.elems| && list.elems[i] == el && Without(Contents(), key) == DropAt(Contents(), i);
      var e := el.value.value;
      if e.expiry.Some? && now > e.expiry.value {
        Drop(el, i);
        return None;
      }
      Promote(el, e);
      r := Some(e.value);
    }

    /** `c.list.PushFront(e); c.items[key] = el` for a key that has no node. */
    method Insert(e: Entry<K, V>)
      requires Valid() && !HasKey(Contents(), e.key) && |Contents()| < cap
      modifies this, list, list.Repr
      ensures Valid() && fresh(list.Repr - old(list.Repr))
      ensures Contents() == [e] + old(Contents())
    {
      AgreeFacts(items, list.elems, list.values, e.key);
      ghost var nodes, s := list.elems, list.values;
      var el := list.PushFront(e);
      AgreePush(items, nodes, s, el, e);
      items := items[e.key := el];
    }

    /** Stores `e` in the node that already carries its key and moves that node to the front. */
    method Promote(el: Element<Entry<K, V>>, e: Entry<K, V>)
      requires Valid() && e.key in items && items[e.key] == el
      modifies list, list.Repr
      ensures Valid() && list.Repr == old(list.Repr)
      ensures Contents() == [e] + Without(old(Contents()), e.key)
    {
      ghost var s := Contents();
      AgreeFacts(items, list.elems, s, e.key);
      ghost var i: nat :| i < |s| && list.elems[i] == el && s[i].key == e.key && Without(s, e.key) == DropAt(s, i);
      AgreeMove(items, list.elems, s, i, e);
      DropUpdated(s, i, e);
      list.Store(el, e, i);
      list.MoveToFront(el, i);
    }

    method Len() returns (n: nat)
      requires Valid()
      ensures n == |Contents()|
    {
      n := list.len;
    }

    /** Walks the list from the back and unlinks every expired entry. */
    method Purge(now: int)
      requires Valid()
      modifies this, list, list.Repr
      ensures Valid() && list.Repr == old(list.Repr)
      ensures Contents() == Live(old(Contents()), now)
    {
      hide Linked, Agree, Distinct, DropAt;
      ghost var s := Contents();
      ghost var j := |s|;
      var el := list.Back();
      while el != null
        invariant Valid() && list.Repr == old(list.Repr)
        invariant 0 <= j <= |s| && j <= |list.elems|
        invariant el == if j == 0 then null else list.elems[j - 1]
        invariant Contents() == s[..j] + LiveFrom(s, j, now)
        decreases j
      {
        DropBefore(s, j, LiveFrom(s, j, now));
        assert Contents()[j - 1] == s[j - 1];
        el := Sweep(el, now, j - 1);
        j := j - 1;
      }
    }

    /** One round of Purge's loop: drops the node at position `i` if it expired, and steps back. */
    method Sweep(el: Element<Entry<K, V>>, now: int, ghost i: nat) returns (next: Element?<Entry<K, V>>)
      requires Valid() && i < |list.elems| && list.elems[i] == el
      modifies this, list, list.Repr
      ensures Valid() && list.Repr == old(list.Repr) && i <= |list.elems|
      ensures next == if i == 0 then null else list.elems[i - 1]
      ensures Contents() == if Expired(old(Contents())[i], now) then DropAt(old(Contents()), i) else old(Contents())
    {
      next := list.Prev(el, i);
      var e := el.value.value;
      if e.expiry.Some? && now > e.expiry.value {
        Drop(el, i);
      }
    }

    /** Drops the least recently used entry, if there is one. */
    method EvictOldest()
      requires Valid()
      modifies this, list, list.Repr
      ensures Valid() && list.Repr == old(list.Repr)
      ensures var s := old(Contents()); Contents() == if s == [] then s else s[..|s| - 1]
    {
      var oldest := list.Back();
      if oldest == null {
        return;
      }
      Drop(oldest, |list.elems| - 1);
    }

    /** `delete(c.items, e.key); c.list.Remove(el)`, for the node at position `i`. */
    method Drop(el: Element<Entry<K, V>>, ghost i: nat)
      requires Valid() && i < |list.elems| && list.elems[i] == el
      modifies this, list, list.Repr
      ensures Valid()
      ensures list.elems == DropAt(old(list.elems), i) && list.Repr == old(list.Repr)
      ensures Contents() == DropAt(old(Contents()), i)
    {
      AgreeDrop(items, list.elems, list.values, i);
      items := items - {el.value.value.key};
      list.Remove(el, i);
    }
  }
}
