/** The abstract cache: a sequence of entries, most recently used first, and what each
    operation of the LRU cache does to it. */
module LruSpec {
  import opened Wrappers

  /** Times are integers in nanoseconds; `None` is the zero time, which means "never expires". */
  datatype Entry<K, V> = Entry(key: K, value: V, expiry: Option<int>)

  predicate Expired<K, V>(e: Entry<K, V>, now: int) {
    e.expiry.Some? && now > e.expiry.value
  }

  /** The expiry that a call of Set at time `now` stores. */
  function ExpiryFor(now: int, ttl: int): Option<int> {
    if ttl > 0 then Some(now + ttl) else None
  }

  ghost predicate DistinctKeys<K, V>(s: seq<Entry<K, V>>) {
    forall i, j :: 0 <= i < j < |s| ==> s[i].key != s[j].key
  }

  ghost predicate HasKey<K, V>(s: seq<Entry<K, V>>, k: K) {
    exists i :: 0 <= i < |s| && s[i].key == k
  }

  ghost function Keys<K, V>(s: seq<Entry<K, V>>): set<K> {
    set i | 0 <= i < |s| :: s[i].key
  }

  /** The entries whose key is not `k`, in order. */
  ghost function Without<K, V>(s: seq<Entry<K, V>>, k: K): seq<Entry<K, V>> {
    if s == [] then [] else (if s[0].key == k then [] else [s[0]]) + Without(s[1..], k)
  }

  ghost function Find<K, V>(s: seq<Entry<K, V>>, k: K): Option<Entry<K, V>> {
    if s == [] then None else if s[0].key == k then Some(s[0]) else Find(s[1..], k)
  }

  /** The entries at or after position `j` that have not expired at `now`, in order. */
  ghost function LiveFrom<K, V>(s: seq<Entry<K, V>>, j: nat, now: int): seq<Entry<K, V>>
    decreases |s| - j
  {
    if j >= |s| then []
    else if Expired(s[j], now) then LiveFrom(s, j + 1, now)
    else [s[j]] + LiveFrom(s, j + 1, now)
  }

  ghost function Live<K, V>(s: seq<Entry<K, V>>, now: int): seq<Entry<K, V>> {
    LiveFrom(s, 0, now)
  }

  ghost function AfterSet<K, V>(cap: nat, s: seq<Entry<K, V>>, e: Entry<K, V>): seq<Entry<K, V>> {
    if Find(s, e.key).Some? then [e] + Without(s, e.key)
    else if |s| >= cap && |s| > 0 then [e] + s[..|s| - 1]
    else [e] + s
  }

  ghost function AfterGet<K, V>(s: seq<Entry<K, V>>, k: K, now: int): seq<Entry<K, V>> {
    match Find(s, k)
    case None => s
    case Some(e) => if Expired(e, now) then Without(s, k) else [e] + Without(s, k)
  }

  ghost function GetResult<K, V>(s: seq<Entry<K, V>>, k: K, now: int): Option<V> {
    match Find(s, k)
    case None => None
    case Some(e) => if Expired(e, now) then None else Some(e.value)
  }

  // ----- position-wise reading of Without, Find and Live

  /** Removing the one entry that carries `k` is removing position `i`. */
  lemma {:induction false} WithoutAt<K, V>(s: seq<Entry<K, V>>, i: nat)
    requires DistinctKeys(s) && i < |s|
    ensures Without(s, s[i].key) == s[..i] + s[i + 1..]
    ensures Find(s, s[i].key) == Some(s[i])
  {
    if i == 0 {
      WithoutAbsent(s[1..], s[0].key);
      assert s[..0] + s[1..] == s[1..];
    } else {
      assert s[1..][i - 1] == s[i] && s[0].key != s[i].key;
      WithoutAt(s[1..], i - 1);
      assert s[..i] + s[i + 1..] == [s[0]] + (s[1..][..i - 1] + s[1..][i..]);
    }
  }

  lemma {:induction false} WithoutAbsent<K, V>(s: seq<Entry<K, V>>, k: K)
    requires !HasKey(s, k)
    ensures Without(s, k) == s && Find(s, k) == None
  {
    if s != [] {
      assert s[0].key != k;
      assert forall i :: 0 <= i < |s[1..]| ==> s[1..][i] == s[i + 1];
      WithoutAbsent(s[1..], k);
    }
  }

  /** `Find` succeeds exactly on the keys that occur, and returns an entry of the sequence. */
  lemma {:induction false} FindIff<K, V>(s: seq<Entry<K, V>>, k: K)
    ensures Find(s, k).Some? <==> HasKey(s, k)
    ensures Find(s, k).Some? ==> Find(s, k).value in s && Find(s, k).value.key == k
  {
    if s != [] {
      FindIff(s[1..], k);
      assert forall i :: 0 <= i < |s[1..]| ==> s[1..][i] == s[i + 1];
      if HasKey(s, k) && s[0].key != k {
        var i :| 0 <= i < |s| && s[i].key == k;
        assert s[1..][i - 1].key == k;
      }
    }
  }

  /** Purging keeps exactly the live entries: nothing expired stays, nothing live goes. */
  lemma {:induction false} LiveExact<K, V>(s: seq<Entry<K, V>>, j: nat, now: int, e: Entry<K, V>)
    requires j <= |s|
    ensures e in LiveFrom(s, j, now) <==> e in s[j..] && !Expired(e, now)
    decreases |s| - j
  {
    if j < |s| {
      LiveExact(s, j + 1, now, e);
      assert s[j..] == [s[j]] + s[j + 1..];
    }
  }
}
