/** Whole runs of the cache: what a sequence of operations keeps, and which entries survive it. */
module LruRuns {
  import opened Wrappers
  import opened LruSpec

  datatype Op<K, V> =
    | SetOp(entry: Entry<K, V>, setAt: int)
    | GetOp(key: K, getAt: int)
    | PurgeOp(purgeAt: int)
  {
    /** The key an operation touches; a purge touches none. */
    ghost function Touches(): set<K> {
      match this
      case SetOp(e, _) => {e.key}
      case GetOp(k, _) => {k}
      case PurgeOp(_) => {}
    }

    function Time(): int {
      match this
      case SetOp(_, t) => t
      case GetOp(_, t) => t
      case PurgeOp(t) => t
    }
  }

  ghost function Step<K, V>(cap: nat, s: seq<Entry<K, V>>, op: Op<K, V>): seq<Entry<K, V>> {
    match op
    case SetOp(e, _) => AfterSet(cap, s, e)
    case GetOp(k, t) => AfterGet(s, k, t)
    case PurgeOp(t) => Live(s, t)
  }

  ghost function Run<K, V>(cap: nat, s: seq<Entry<K, V>>, ops: seq<Op<K, V>>): seq<Entry<K, V>>
    decreases |ops|
  {
    if ops == [] then s else Run(cap, Step(cap, s, ops[0]), ops[1..])
  }

  ghost function TouchedBy<K, V>(ops: seq<Op<K, V>>): set<K> {
    if ops == [] then {} else ops[0].Touches() + TouchedBy(ops[1..])
  }

  ghost predicate WellFormed<K, V>(cap: nat, s: seq<Entry<K, V>>) {
    cap > 0 && |s| <= cap && DistinctKeys(s)
  }

  // ----- Without and Live on concatenations

  lemma {:induction false} WithoutConcat<K, V>(a: seq<Entry<K, V>>, b: seq<Entry<K, V>>, k: K)
    ensures Without(a + b, k) == Without(a, k) + Without(b, k)
  {
    if a == [] {
      assert a + b == b;
    } else {
      assert (a + b)[1..] == a[1..] + b;
      WithoutConcat(a[1..], b, k);
    }
  }

  lemma {:induction false} LiveShift<K, V>(a: seq<Entry<K, V>>, b: seq<Entry<K, V>>, j: nat, now: int)
    requires j <= |b|
    ensures LiveFrom(a + b, |a| + j, now) == LiveFrom(b, j, now)
    decreases |b| - j
  {
    if j < |b| {
      LiveShift(a, b, j + 1, now);
    }
  }

  lemma {:induction false} LiveConcat<K, V>(a: seq<Entry<K, V>>, b: seq<Entry<K, V>>, j: nat, now: int)
    requires j <= |a|
    ensures LiveFrom(a + b, j, now) == LiveFrom(a, j, now) + Live(b, now)
    decreases |a| - j
  {
    if j < |a| {
      LiveConcat(a, b, j + 1, now);
    } else {
      LiveShift(a, b, 0, now);
    }
  }

  lemma {:induction false} WithoutExact<K, V>(s: seq<Entry<K, V>>, k: K, x: Entry<K, V>)
    ensures x in Without(s, k) <==> x in s && x.key != k
  {
    if s != [] {
      WithoutExact(s[1..], k, x);
      assert s == [s[0]] + s[1..];
    }
  }

  lemma {:induction false} WithoutKeeps<K, V>(s: seq<Entry<K, V>>, k: K)
    requires DistinctKeys(s)
    ensures DistinctKeys(Without(s, k)) && !HasKey(Without(s, k), k)
    ensures |Without(s, k)| + (if HasKey(s, k) then 1 else 0) == |s|
  {
    if HasKey(s, k) {
      var i: nat :| i < |s| && s[i].key == k;
      WithoutAt(s, i);
    } else {
      WithoutAbsent(s, k);
    }
  }

  lemma {:induction false} LiveKeeps<K, V>(s: seq<Entry<K, V>>, j: nat, now: int)
    requires DistinctKeys(s) && j <= |s|
    ensures DistinctKeys(LiveFrom(s, j, now)) && |LiveFrom(s, j, now)| <= |s| - j
    decreases |s| - j
  {
    if j < |s| {
      LiveKeeps(s, j + 1, now);
      var rest := LiveFrom(s, j + 1, now);
      forall i | 0 <= i < |rest|
        ensures rest[i].key != s[j].key
      {
        LiveExact(s, j + 1, now, rest[i]);
      }
    }
  }

  /** What every operation keeps: at most `cap` entries, no key twice. */
  lemma {:induction false} StepKeeps<K, V>(cap: nat, s: seq<Entry<K, V>>, op: Op<K, V>)
    requires WellFormed(cap, s)
    ensures WellFormed(cap, Step(cap, s, op))
  {
    match op
    case SetOp(e, _) =>
      FindIff(s, e.key);
      WithoutKeeps(s, e.key);
    case GetOp(k, _) =>
      FindIff(s, k);
      WithoutKeeps(s, k);
    case PurgeOp(t) =>
      LiveKeeps(s, 0, t);
  }

  lemma {:induction false} KeyCount<K, V>(s: seq<Entry<K, V>>)
    requires DistinctKeys(s)
    ensures |Keys(s)| == |s|
  {
    if s != [] {
      var t := s[..|s| - 1];
      KeyCount(t);
      assert Keys(s) == Keys(t) + {s[|s| - 1].key};
      assert s[|s| - 1].key !in Keys(t);
    }
  }

  // ----- survival

  /** `e` is cached, and every entry more recent than it carries a key of `others`. */
  ghost predicate Guarded<K, V>(s: seq<Entry<K, V>>, e: Entry<K, V>, others: set<K>) {
    exists i: nat :: i < |s| && Behind(s, e, others, s[..i], s[i + 1..])
  }

  ghost predicate Behind<K, V>(s: seq<Entry<K, V>>, e: Entry<K, V>, others: set<K>, a: seq<Entry<K, V>>, b: seq<Entry<K, V>>) {
    s == a + [e] + b && forall x :: x in a ==> x.key in others
  }

  lemma {:induction false} Guard<K, V>(s: seq<Entry<K, V>>, e: Entry<K, V>, others: set<K>, a: seq<Entry<K, V>>, b: seq<Entry<K, V>>)
    requires Behind(s, e, others, a, b)
    ensures Guarded(s, e, others)
  {
    assert s[..|a|] == a && s[|a| + 1..] == b;
  }

  lemma {:induction false} GuardedHas<K, V>(s: seq<Entry<K, V>>, e: Entry<K, V>, others: set<K>)
    requires DistinctKeys(s) && Guarded(s, e, others)
    ensures Find(s, e.key) == Some(e) && e in s
  {
    var i: nat :| i < |s| && Behind(s, e, others, s[..i], s[i + 1..]);
    var a, b := s[..i], s[i + 1..];
    assert s[|a|] == e;
    WithoutAt(s, |a|);
  }

  lemma {:induction false} GuardPush<K, V>(s: seq<Entry<K, V>>, e: Entry<K, V>, others: set<K>, f: Entry<K, V>)
    requires Guarded(s, e, others)
    ensures Guarded([f] + s, e, others + {f.key})
  {
    var i: nat :| i < |s| && Behind(s, e, others, s[..i], s[i + 1..]);
    var a, b := s[..i], s[i + 1..];
    assert [f] + s == ([f] + a) + [e] + b;
    Guard([f] + s, e, others + {f.key}, [f] + a, b);
  }

  lemma {:induction false} GuardWithout<K, V>(s: seq<Entry<K, V>>, e: Entry<K, V>, others: set<K>, k: K)
    requires Guarded(s, e, others) && k != e.key
    ensures Guarded(Without(s, k), e, others)
  {
    var i: nat :| i < |s| && Behind(s, e, others, s[..i], s[i + 1..]);
    var a, b := s[..i], s[i + 1..];
    WithoutConcat(a + [e], b, k);
    WithoutConcat(a, [e], k);
    WithoutAbsent([e], k);
    forall x | x in Without(a, k)
      ensures x in a
    {
      WithoutExact(a, k, x);
    }
    Guard(Without(s, k), e, others, Without(a, k), Without(b, k));
  }

  lemma {:induction false} GuardWiden<K, V>(s: seq<Entry<K, V>>, e: Entry<K, V>, others: set<K>, more: set<K>)
    requires Guarded(s, e, others) && others <= more
    ensures Guarded(s, e, more)
  {
    var i: nat :| i < |s| && Behind(s, e, others, s[..i], s[i + 1..]);
    Guard(s, e, more, s[..i], s[i + 1..]);
  }

  lemma {:induction false} SurvivesGet<K, V>(s: seq<Entry<K, V>>, e: Entry<K, V>, others: set<K>, k: K, now: int)
    requires DistinctKeys(s) && Guarded(s, e, others) && !Expired(e, now)
    ensures Guarded(AfterGet(s, k, now), e, others + ({k} - {e.key}))
  {
    GuardedHas(s, e, others);
    if k == e.key {
      assert AfterGet(s, k, now) == [] + [e] + Without(s, k);
      Guard(AfterGet(s, k, now), e, others + ({k} - {e.key}), [], Without(s, k));
    } else {
      FindIff(s, k);
      GuardWithout(s, e, others, k);
      GuardWiden(s, e, others, others + {k});
      GuardWiden(Without(s, k), e, others, others + {k});
      assert {k} - {e.key} == {k};
      if Find(s, k).Some? {
        GuardPush(Without(s, k), e, others, Find(s, k).value);
      }
    }
  }

  lemma {:induction false} SurvivesPurge<K, V>(s: seq<Entry<K, V>>, e: Entry<K, V>, others: set<K>, now: int)
    requires Guarded(s, e, others) && !Expired(e, now)
    ensures Guarded(Live(s, now), e, others)
  {
    var i: nat :| i < |s| && Behind(s, e, others, s[..i], s[i + 1..]);
    var a, b := s[..i], s[i + 1..];
    LiveConcat(a, [e] + b, 0, now);
    LiveConcat([e], b, 0, now);
    assert s == a + ([e] + b);
    assert LiveFrom([e], 0, now) == [e] by { assert LiveFrom([e], 1, now) == []; }
    forall x | x in Live(a, now)
      ensures x in a
    {
      LiveExact(a, 0, now, x);
    }
    assert Live(s, now) == Live(a, now) + [e] + Live(b, now);
    Guard(Live(s, now), e, others, Live(a, now), Live(b, now));
  }

  lemma {:induction false} SurvivesSet<K, V>(cap: nat, s: seq<Entry<K, V>>, e: Entry<K, V>, others: set<K>, f: Entry<K, V>)
    requires WellFormed(cap, s) && Guarded(s, e, others) && f.key != e.key
    requires |others + {f.key}| < cap
    ensures Guarded(AfterSet(cap, s, f), e, others + {f.key})
  {
    FindIff(s, f.key);
    if Find(s, f.key).Some? {
      GuardWithout(s, e, others, f.key);
      GuardPush(Without(s, f.key), e, others, f);
    } else if |s| >= cap {
      var i: nat :| i < |s| && Behind(s, e, others, s[..i], s[i + 1..]);
      var a, b, t := s[..i], s[i + 1..], s[..|s| - 1];
      if b == [] {
        NotLast(cap, s, e, others, a, f.key);
      }
      assert t == a + [e] + b[..|b| - 1];
      Guard(t, e, others, a, b[..|b| - 1]);
      GuardPush(t, e, others, f);
    } else {
      GuardPush(s, e, others, f);
    }
  }

  /** One operation that is not a Set of e's own key and that comes before e expires. */
  lemma {:induction false} SurvivesStep<K, V>(cap: nat, s: seq<Entry<K, V>>, e: Entry<K, V>, others: set<K>, op: Op<K, V>)
    requires WellFormed(cap, s) && Guarded(s, e, others)
    requires !Expired(e, op.Time())
    requires op.SetOp? ==> op.entry.key != e.key
    requires |others + (op.Touches() - {e.key})| < cap
    ensures Guarded(Step(cap, s, op), e, others + (op.Touches() - {e.key}))
  {
    match op
    case GetOp(k, t) => SurvivesGet(s, e, others, k, t);
    case PurgeOp(t) =>
      SurvivesPurge(s, e, others, t);
      assert others + ({} - {e.key}) == others;
    case SetOp(f, _) =>
      assert {f.key} - {e.key} == {f.key};
      SurvivesSet(cap, s, e, others, f);
  }

  /** In a full cache the last entry has cap - 1 other keys in front of it; a new key makes cap. */
  lemma {:induction false} NotLast<K, V>(cap: nat, s: seq<Entry<K, V>>, e: Entry<K, V>, others: set<K>, a: seq<Entry<K, V>>, k: K)
    requires DistinctKeys(s) && s == a + [e] && |s| == cap && !HasKey(s, k)
    requires forall x :: x in a ==> x.key in others
    ensures |others + {k}| >= cap
  {
    assert forall i :: 0 <= i < |a| ==> a[i] == s[i];
    KeyCount(a);
    assert Keys(a) <= others - {k};
    SubsetSize(Keys(a), others - {k});
    assert others + {k} == (others - {k}) + {k};
  }

  lemma {:induction false} SubsetSize<K>(a: set<K>, b: set<K>)
    requires a <= b
    ensures |a| <= |b|
  {
    assert b == a + (b - a);
  }

  /** An entry that has just been stored outlives every run that stays within its lifetime, does
      not overwrite it, and touches fewer than `cap` distinct other keys. */
  lemma {:induction false} Survives<K, V>(cap: nat, s: seq<Entry<K, V>>, e: Entry<K, V>, others: set<K>, ops: seq<Op<K, V>>)
    requires WellFormed(cap, s) && Guarded(s, e, others) && e.key !in others
    requires forall op :: op in ops ==> !Expired(e, op.Time()) && (op.SetOp? ==> op.entry.key != e.key)
    requires |others + (TouchedBy(ops) - {e.key})| < cap
    ensures WellFormed(cap, Run(cap, s, ops))
    ensures Guarded(Run(cap, s, ops), e, others + (TouchedBy(ops) - {e.key}))
    decreases |ops|
  {
    if ops != [] {
      var op := ops[0];
      var others' := others + (op.Touches() - {e.key});
      assert others' + (TouchedBy(ops[1..]) - {e.key}) == others + (TouchedBy(ops) - {e.key});
      SubsetSize(others', others + (TouchedBy(ops) - {e.key}));
      SurvivesStep(cap, s, e, others, op);
      StepKeeps(cap, s, op);
      Survives(cap, Step(cap, s, op), e, others', ops[1..]);
    } else {
      assert others + (TouchedBy(ops) - {e.key}) == others;
    }
  }

  // ----- what a lookup finds

  /** A value that was stored is found until its time to live is over, and then not any more, as long as fewer than `cap`
      other keys are touched and the key is not set again. A time to live of zero or less never ends. */
  lemma {:induction false} StoredIsFound<K, V>(cap: nat, s: seq<Entry<K, V>>, k: K, v: V, ttl: int, setAt: int, ops: seq<Op<K, V>>, now: int)
    requires WellFormed(cap, s)
    requires forall op :: op in ops ==> (ttl > 0 ==> op.Time() <= setAt + ttl) && (op.SetOp? ==> op.entry.key != k)
    requires |TouchedBy(ops) - {k}| < cap
    ensures GetResult(Run(cap, AfterSet(cap, s, Entry(k, v, ExpiryFor(setAt, ttl))), ops), k, now)
            == if ttl > 0 && now > setAt + ttl then None else Some(v)
  {
    var e := Entry(k, v, ExpiryFor(setAt, ttl));
    StepKeeps(cap, s, SetOp(e, setAt));
    FrontIsFound(cap, AfterSet(cap, s, e), e, ops, now);
  }

  /** A value that was looked up is found again just as long as if it had been stored at that moment, up to its expiry. */
  lemma {:induction false} LookedUpIsFound<K, V>(cap: nat, s: seq<Entry<K, V>>, e: Entry<K, V>, getAt: int, ops: seq<Op<K, V>>, now: int)
    requires WellFormed(cap, s) && Find(s, e.key) == Some(e) && (e.expiry.Some? ==> getAt <= e.expiry.value)
    requires forall op :: op in ops ==> (e.expiry.Some? ==> op.Time() <= e.expiry.value) && (op.SetOp? ==> op.entry.key != e.key)
    requires |TouchedBy(ops) - {e.key}| < cap
    ensures GetResult(s, e.key, getAt) == Some(e.value)
    ensures GetResult(Run(cap, AfterGet(s, e.key, getAt), ops), e.key, now)
            == if e.expiry.Some? && now > e.expiry.value then None else Some(e.value)
  {
    StepKeeps(cap, s, GetOp(e.key, getAt));
    FrontIsFound(cap, AfterGet(s, e.key, getAt), e, ops, now);
  }

  /** A lookup drops an entry that has expired, and no other entry, ever. */
  lemma {:induction false} LookupDropsExpired<K, V>(cap: nat, s: seq<Entry<K, V>>, k: K, now: int, x: Entry<K, V>)
    requires WellFormed(cap, s)
    ensures x in AfterGet(s, k, now) <==> x in s && !(x.key == k && x.expiry.Some? && now > x.expiry.value)
  {
    FindIff(s, k);
    WithoutExact(s, k, x);
    if HasKey(s, k) {
      var i: nat :| i < |s| && s[i].key == k;
      WithoutAt(s, i);
    }
  }

  lemma {:induction false} FrontIsFound<K, V>(cap: nat, s: seq<Entry<K, V>>, e: Entry<K, V>, ops: seq<Op<K, V>>, now: int)
    requires WellFormed(cap, s) && s != [] && s[0] == e
    requires forall op :: op in ops ==> (e.expiry.Some? ==> op.Time() <= e.expiry.value) && (op.SetOp? ==> op.entry.key != e.key)
    requires |TouchedBy(ops) - {e.key}| < cap
    ensures GetResult(Run(cap, s, ops), e.key, now) == if e.expiry.Some? && now > e.expiry.value then None else Some(e.value)
  {
    assert s == [] + [e] + s[1..];
    Guard(s, e, {}, [], s[1..]);
    assert {} + (TouchedBy(ops) - {e.key}) == TouchedBy(ops) - {e.key};
    Survives(cap, s, e, {}, ops);
    GuardedHas(Run(cap, s, ops), e, TouchedBy(ops) - {e.key});
  }

  /** The first `n` entries have keys of `done`. */
  ghost predicate InFront<K, V>(s: seq<Entry<K, V>>, n: nat, done: set<K>) {
    n <= |s| && forall i :: 0 <= i < n ==> s[i].key in done
  }

  lemma {:induction false} WithoutBehind<K, V>(s: seq<Entry<K, V>>, n: nat, done: set<K>, k: K)
    requires InFront(s, n, done) && k !in done
    ensures InFront(Without(s, k), n, done)
  {
    var a, b := s[..n], s[n..];
    assert s == a + b;
    WithoutConcat(a, b, k);
    WithoutAbsent(a, k);
  }

  lemma {:induction false} SetsPushBack<K, V>(cap: nat, s: seq<Entry<K, V>>, n: nat, done: set<K>, ops: seq<Op<K, V>>)
    requires WellFormed(cap, s) && InFront(s, n, done) && n + |ops| <= cap
    requires forall i :: 0 <= i < |ops| ==> ops[i].SetOp? && ops[i].entry.key !in done
    requires forall i, j :: 0 <= i < j < |ops| ==> ops[i].SetOp? && ops[j].SetOp? && ops[i].entry.key != ops[j].entry.key
    ensures WellFormed(cap, Run(cap, s, ops)) && InFront(Run(cap, s, ops), n + |ops|, done + TouchedBy(ops))
    decreases |ops|
  {
    if ops == [] {
      assert done + TouchedBy(ops) == done;
    } else {
      var op, k := ops[0], ops[0].entry.key;
      StepKeeps(cap, s, op);
      FindIff(s, k);
      WithoutBehind(s, n, done, k);
      var t := Step(cap, s, op);
      assert InFront(t, n + 1, done + {k});
      forall i | 0 <= i < |ops| - 1
        ensures ops[1..][i].SetOp? && ops[1..][i].entry.key !in done + {k}
      {
        assert ops[1..][i] == ops[i + 1];
      }
      SetsPushBack(cap, t, n + 1, done + {k}, ops[1..]);
      assert done + {k} + TouchedBy(ops[1..]) == done + TouchedBy(ops);
    }
  }

  /** After `cap` other keys have been stored nothing is left of a key. */
  lemma {:induction false} OthersEvict<K, V>(cap: nat, s: seq<Entry<K, V>>, k: K, ops: seq<Op<K, V>>, now: int)
    requires WellFormed(cap, s) && |ops| == cap && k !in TouchedBy(ops) && forall i :: 0 <= i < |ops| ==> ops[i].SetOp?
    requires forall i, j :: 0 <= i < j < |ops| ==> ops[i].SetOp? && ops[j].SetOp? && ops[i].entry.key != ops[j].entry.key
    ensures GetResult(Run(cap, s, ops), k, now) == None
  {
    SetsPushBack(cap, s, 0, {}, ops);
    var t := Run(cap, s, ops);
    assert {} + TouchedBy(ops) == TouchedBy(ops);
    FindIff(t, k);
  }
}
