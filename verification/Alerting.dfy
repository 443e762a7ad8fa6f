/** Alert selection: deduplication through the cache, then rate limiting
    (internal/alerting/alerting.go, lines 164-222). The calls here are made one after the other; AlertRaces has
    overlapping ones. */
module Alerting {
  import opened Wrappers
  import opened LruSpec
  import opened LruRuns
  import Lru
  import RateLimiter

  const NS_PER_SECOND: int := 1_000_000_000
  const DEDUP_CAPACITY: nat := 10_000

  /** A configured window of zero or fewer seconds means 300 seconds. */
  function Window(windowSec: int): int {
    if windowSec * NS_PER_SECOND <= 0 then 300 * NS_PER_SECOND else windowSec * NS_PER_SECOND
  }

  /** One call of shouldFire. The clock is read inside Get, for the stored value, and inside Set. */
  datatype Call<K> = Call(key: K, getAt: int, valueAt: int, setAt: int, windowSec: int) {
    function Stored(): Entry<K, int> {
      Entry(key, valueAt, ExpiryFor(setAt, Window(windowSec)))
    }
  }

  ghost predicate Fires<K>(s: seq<Entry<K, int>>, c: Call<K>) {
    GetResult(s, c.key, c.getAt).None?
  }

  ghost function AfterCall<K>(cap: nat, s: seq<Entry<K, int>>, c: Call<K>): seq<Entry<K, int>> {
    var t := AfterGet(s, c.key, c.getAt);
    if Fires(s, c) then AfterSet(cap, t, c.Stored()) else t
  }

  ghost function AfterCalls<K>(cap: nat, s: seq<Entry<K, int>>, calls: seq<Call<K>>): seq<Entry<K, int>>
    decreases |calls|
  {
    if calls == [] then s else AfterCalls(cap, AfterCall(cap, s, calls[0]), calls[1..])
  }

  ghost function KeysOf<K>(calls: seq<Call<K>>): set<K> {
    set i | 0 <= i < |calls| :: calls[i].key
  }

  method ShouldFire<K(==)>(cache: Lru.LRU<K, int>, c: Call<K>) returns (fire: bool)
    requires cache.Valid()
    modifies cache, cache.list, cache.list.Repr
    ensures cache.Valid() && fresh(cache.list.Repr - old(cache.list.Repr))
    ensures fire == Fires(old(cache.Contents()), c)
    ensures cache.Contents() == AfterCall(cache.cap, old(cache.Contents()), c)
  {
    var window := c.windowSec * NS_PER_SECOND;
    if window <= 0 {
      window := 300 * NS_PER_SECOND;
    }
    var hit := cache.Get(c.key, c.getAt);
    if hit.Some? {
      return false;
    }
    cache.Set(c.key, c.valueAt, window, c.setAt);
    return true;
  }

  // ----- the deduplication guarantee

  lemma {:induction false} CallKeeps<K>(cap: nat, s: seq<Entry<K, int>>, c: Call<K>)
    requires WellFormed(cap, s)
    ensures WellFormed(cap, AfterCall(cap, s, c))
  {
    StepKeeps(cap, s, GetOp(c.key, c.getAt));
    StepKeeps(cap, AfterGet(s, c.key, c.getAt), SetOp(c.Stored(), c.setAt));
  }

  /** A live entry survives one call, and a call for its own key finds it. */
  lemma {:induction false} CallSpares<K>(cap: nat, s: seq<Entry<K, int>>, e: Entry<K, int>, others: set<K>, c: Call<K>)
    requires WellFormed(cap, s) && Guarded(s, e, others) && e.key !in others
    requires !Expired(e, c.getAt)
    requires |others + ({c.key} - {e.key})| < cap
    ensures c.key == e.key ==> !Fires(s, c)
    ensures Guarded(AfterCall(cap, s, c), e, others + ({c.key} - {e.key}))
  {
    GuardedHas(s, e, others);
    SurvivesGet(s, e, others, c.key, c.getAt);
    StepKeeps(cap, s, GetOp(c.key, c.getAt));
    if Fires(s, c) {
      var more := others + ({c.key} - {e.key});
      assert more + {c.key} == more;
      SurvivesSet(cap, AfterGet(s, c.key, c.getAt), e, more, c.Stored());
    }
  }

  lemma {:induction false} CallsSpare<K>(cap: nat, s: seq<Entry<K, int>>, e: Entry<K, int>, others: set<K>, calls: seq<Call<K>>)
    requires WellFormed(cap, s) && Guarded(s, e, others) && e.key !in others
    requires forall i :: 0 <= i < |calls| ==> !Expired(e, calls[i].getAt)
    requires |others + (KeysOf(calls) - {e.key})| < cap
    ensures WellFormed(cap, AfterCalls(cap, s, calls))
    ensures Guarded(AfterCalls(cap, s, calls), e, others + (KeysOf(calls) - {e.key}))
    decreases |calls|
  {
    if calls == [] {
      assert others + (KeysOf(calls) - {e.key}) == others;
    } else {
      hide Guarded, WellFormed, AfterCall, Fires;
      var c, more := calls[0], others + ({calls[0].key} - {e.key});
      assert KeysOf(calls) == {c.key} + KeysOf(calls[1..]) by { KeysOfTail(calls); }
      assert more + (KeysOf(calls[1..]) - {e.key}) == others + (KeysOf(calls) - {e.key});
      SubsetSize(more, others + (KeysOf(calls) - {e.key}));
      CallSpares(cap, s, e, others, c);
      CallKeeps(cap, s, c);
      CallsSpare(cap, AfterCall(cap, s, c), e, more, calls[1..]);
    }
  }

  lemma {:induction false} KeysOfTail<K>(calls: seq<Call<K>>)
    requires calls != []
    ensures KeysOf(calls) == {calls[0].key} + KeysOf(calls[1..])
  {
    assert forall i :: 1 <= i < |calls| ==> calls[i] == calls[1..][i - 1];
  }

  lemma {:induction false} FiresAgain<K>(cap: nat, s: seq<Entry<K, int>>, first: Call<K>, between: seq<Call<K>>, last: Call<K>)
    requires WellFormed(cap, s) && Fires(s, first) && last.key == first.key
    requires Fires(AfterCalls(cap, AfterCall(cap, s, first), between), last)
    requires forall i :: 0 <= i < |between| ==> between[i].getAt <= last.getAt
    ensures last.getAt > first.setAt + Window(first.windowSec) || |KeysOf(between) - {first.key}| >= cap
  {
    if last.getAt <= first.setAt + Window(first.windowSec) && |KeysOf(between) - {first.key}| < cap {
      var e, t := first.Stored(), AfterCall(cap, s, first);
      CallKeeps(cap, s, first);
      var rest := t[1..];
      assert t == [] + [e] + rest;
      Guard(t, e, {}, [], rest);
      assert {} + (KeysOf(between) - {e.key}) == KeysOf(between) - {e.key};
      CallsSpare(cap, t, e, {}, between);
      GuardedHas(AfterCalls(cap, t, between), e, KeysOf(between) - {e.key});
      assert false;
    }
  }

  /** Two alerts for one key: if both `first` and `last` fire, then the window of the first has
      passed, or at least `cap` distinct other keys were looked up in between. */
  lemma {:induction false} DedupGuarantee<K>(cap: nat, s: seq<Entry<K, int>>, first: Call<K>, between: seq<Call<K>>, last: Call<K>)
    requires WellFormed(cap, s) && Fires(s, first) && last.key == first.key
    requires Fires(AfterCalls(cap, AfterCall(cap, s, first), between), last)
    requires forall i :: 0 <= i < |between| ==> between[i].getAt <= last.getAt
    ensures || last.getAt > first.setAt + (if first.windowSec > 0 then first.windowSec else 300) * 1_000_000_000
            || |KeysOf(between) - {first.key}| >= cap
  {
    hide Fires, AfterCall, AfterCalls, KeysOf, WellFormed;
    FiresAgain(cap, s, first, between, last);
  }

  // ----- no alert is suppressed for longer than its window

  /** Any entry cached for `k` is `e`. */
  ghost predicate OnlyEntry<K>(s: seq<Entry<K, int>>, k: K, e: Entry<K, int>) {
    Find(s, k).Some? ==> Find(s, k).value == e
  }

  lemma {:induction false} FindWithout<K>(s: seq<Entry<K, int>>, k: K, gone: K)
    ensures Find(Without(s, gone), k) == if k == gone then None else Find(s, k)
  {
    if s != [] {
      FindWithout(s[1..], k, gone);
      var rest := Without(s[1..], gone);
      assert ([s[0]] + rest)[1..] == rest && [] + rest == rest;
    }
  }

  lemma {:induction false} FindPrefix<K>(s: seq<Entry<K, int>>, k: K)
    requires s != []
    ensures Find(s[..|s| - 1], k) == None || Find(s[..|s| - 1], k) == Find(s, k)
  {
    if |s| > 1 && s[0].key != k {
      FindPrefix(s[1..], k);
      assert s[..|s| - 1][1..] == s[1..][..|s| - 2];
    }
  }

  lemma {:induction false} FindPush<K>(s: seq<Entry<K, int>>, f: Entry<K, int>, k: K)
    ensures Find([f] + s, k) == if f.key == k then Some(f) else Find(s, k)
  {
    assert ([f] + s)[1..] == s;
  }

  /** A call that does not fire for `k` cannot put a different entry under `k`. */
  lemma {:induction false} CallKeepsOnly<K>(cap: nat, s: seq<Entry<K, int>>, k: K, e: Entry<K, int>, c: Call<K>)
    requires cap > 0 && OnlyEntry(s, k, e) && (Fires(s, c) ==> c.key != k)
    ensures OnlyEntry(AfterCall(cap, s, c), k, e)
  {
    var t := AfterGet(s, c.key, c.getAt);
    FindIff(s, c.key);
    FindWithout(s, k, c.key);
    if Find(s, c.key).Some? {
      FindPush(Without(s, c.key), Find(s, c.key).value, k);
    }
    assert OnlyEntry(t, k, e);
    if Fires(s, c) {
      FindWithout(t, k, c.key);
      FindPush(Without(t, c.key), c.Stored(), k);
      FindPush(t, c.Stored(), k);
      if t != [] {
        FindPrefix(t, k);
        FindPush(t[..|t| - 1], c.Stored(), k);
      }
    }
  }

  /** The calls of the run that fire, as indices. */
  ghost predicate FiresAt<K>(cap: nat, s: seq<Entry<K, int>>, calls: seq<Call<K>>, i: nat)
    requires i < |calls|
  {
    Fires(AfterCalls(cap, s, calls[..i]), calls[i])
  }

  lemma {:induction false} CallsKeepOnly<K>(cap: nat, s: seq<Entry<K, int>>, k: K, e: Entry<K, int>, calls: seq<Call<K>>)
    requires cap > 0 && OnlyEntry(s, k, e)
    requires forall i :: 0 <= i < |calls| && FiresAt(cap, s, calls, i) ==> calls[i].key != k
    ensures OnlyEntry(AfterCalls(cap, s, calls), k, e)
    decreases |calls|
  {
    if calls != [] {
      var rest, t := calls[1..], AfterCall(cap, s, calls[0]);
      assert calls[..0] == [];
      assert FiresAt(cap, s, calls, 0) == Fires(s, calls[0]);
      CallKeepsOnly(cap, s, k, e, calls[0]);
      forall i | 0 <= i < |rest| && FiresAt(cap, t, rest, i)
        ensures rest[i].key != k
      {
        assert calls[..i + 1][1..] == rest[..i];
        assert FiresAt(cap, s, calls, i + 1);
      }
      CallsKeepOnly(cap, t, k, e, rest);
    }
  }

  /** Once the window of the last alert for a key has passed, the next call for that key fires,
      whatever other calls (refused ones for the same key included) were made in between. */
  lemma {:induction false} SuppressionEnds<K>(cap: nat, s: seq<Entry<K, int>>, first: Call<K>, between: seq<Call<K>>, last: Call<K>)
    requires cap > 0 && Fires(s, first) && last.key == first.key
    requires forall i :: 0 <= i < |between| && FiresAt(cap, AfterCall(cap, s, first), between, i) ==> between[i].key != first.key
    requires last.getAt > first.setAt + (if first.windowSec > 0 then first.windowSec else 300) * 1_000_000_000
    ensures Fires(AfterCalls(cap, AfterCall(cap, s, first), between), last)
  {
    var t, e := AfterCall(cap, s, first), first.Stored();
    FindPush(t[1..], e, first.key);
    assert t == [e] + t[1..];
    CallsKeepOnly(cap, t, first.key, e, between);
  }

  // ----- the selection loop of Fire

  /** A flow as Fire sees it: its score and dedup key, with the clock readings of the calls made
      for it (nanoseconds for the cache, seconds for the limiter). */
  datatype Flow<K> = Flow(score: real, call: Call<K>, allowAt: real)

  /** Why a flow does or does not raise an alert. */
  datatype Verdict = BelowThreshold | Duplicate | RateLimited | Alert

  ghost function VerdictOf<K>(s: seq<Entry<K, int>>, b: RateLimiter.Bucket, threshold: real, f: Flow<K>): Verdict {
    if f.score < threshold then BelowThreshold
    else if !Fires(s, f.call) then Duplicate
    else if !RateLimiter.Allowed(b, f.allowAt) then RateLimited
    else Alert
  }

  ghost function CacheAfter<K>(cap: nat, s: seq<Entry<K, int>>, threshold: real, f: Flow<K>): seq<Entry<K, int>> {
    if f.score < threshold then s else AfterCall(cap, s, f.call)
  }

  ghost function BucketAfter<K>(s: seq<Entry<K, int>>, b: RateLimiter.Bucket, threshold: real, f: Flow<K>): RateLimiter.Bucket {
    if f.score < threshold || !Fires(s, f.call) then b else RateLimiter.AfterAllow(b, f.allowAt)
  }

  /** The verdicts on a batch, in order. */
  ghost function Verdicts<K>(cap: nat, s: seq<Entry<K, int>>, b: RateLimiter.Bucket, threshold: real, flows: seq<Flow<K>>): seq<Verdict>
    decreases |flows|
  {
    if flows == [] then []
    else [VerdictOf(s, b, threshold, flows[0])]
         + Verdicts(cap, CacheAfter(cap, s, threshold, flows[0]), BucketAfter(s, b, threshold, flows[0]), threshold, flows[1..])
  }

  /** The flows whose verdict is Alert. */
  ghost function Alerted<K>(flows: seq<Flow<K>>, verdicts: seq<Verdict>): seq<Flow<K>>
    requires |flows| == |verdicts|
  {
    if flows == [] then []
    else (if verdicts[0] == Alert then [flows[0]] else []) + Alerted(flows[1..], verdicts[1..])
  }

  ghost function CacheAfterAll<K>(cap: nat, s: seq<Entry<K, int>>, threshold: real, flows: seq<Flow<K>>): seq<Entry<K, int>>
    decreases |flows|
  {
    if flows == [] then s else CacheAfterAll(cap, CacheAfter(cap, s, threshold, flows[0]), threshold, flows[1..])
  }

  ghost function BucketAfterAll<K>(cap: nat, s: seq<Entry<K, int>>, b: RateLimiter.Bucket, threshold: real, flows: seq<Flow<K>>): RateLimiter.Bucket
    decreases |flows|
  {
    if flows == [] then b
    else BucketAfterAll(cap, CacheAfter(cap, s, threshold, flows[0]), BucketAfter(s, b, threshold, flows[0]), threshold, flows[1..])
  }

  /** Flows below the threshold and duplicates leave the limiter as it was. */
  lemma {:induction false} UnaskedLimiter<K>(s: seq<Entry<K, int>>, b: RateLimiter.Bucket, threshold: real, f: Flow<K>)
    requires f.score < threshold || GetResult(s, f.call.key, f.call.getAt).Some?
    ensures BucketAfter(s, b, threshold, f) == b && VerdictOf(s, b, threshold, f) != Alert
  {
  }

  lemma {:induction false} VerdictCount<K>(cap: nat, s: seq<Entry<K, int>>, b: RateLimiter.Bucket, threshold: real, flows: seq<Flow<K>>)
    ensures |Verdicts(cap, s, b, threshold, flows)| == |flows|
    decreases |flows|
  {
    if flows != [] {
      VerdictCount(cap, CacheAfter(cap, s, threshold, flows[0]), BucketAfter(s, b, threshold, flows[0]), threshold, flows[1..]);
    }
  }

  lemma {:induction false} FirstVerdict<K>(cap: nat, s: seq<Entry<K, int>>, b: RateLimiter.Bucket, threshold: real, flows: seq<Flow<K>>)
    requires flows != []
    ensures var v := VerdictOf(s, b, threshold, flows[0]);
            var s', b' := CacheAfter(cap, s, threshold, flows[0]), BucketAfter(s, b, threshold, flows[0]);
            var rest := Verdicts(cap, s', b', threshold, flows[1..]);
            && |rest| == |flows[1..]| && |Verdicts(cap, s, b, threshold, flows)| == |flows|
            && Alerted(flows, Verdicts(cap, s, b, threshold, flows)) == (if v == Alert then [flows[0]] else []) + Alerted(flows[1..], rest)
            && CacheAfterAll(cap, s, threshold, flows) == CacheAfterAll(cap, s', threshold, flows[1..])
            && BucketAfterAll(cap, s, b, threshold, flows) == BucketAfterAll(cap, s', b', threshold, flows[1..])
  {
    hide VerdictOf, CacheAfter, BucketAfter;
    var v := VerdictOf(s, b, threshold, flows[0]);
    var s', b' := CacheAfter(cap, s, threshold, flows[0]), BucketAfter(s, b, threshold, flows[0]);
    VerdictCount(cap, s', b', threshold, flows[1..]);
    var rest := Verdicts(cap, s', b', threshold, flows[1..]);
    assert Verdicts(cap, s, b, threshold, flows) == [v] + rest && ([v] + rest)[1..] == rest;
  }

  lemma {:induction false} NoVerdicts<K>(cap: nat, s: seq<Entry<K, int>>, b: RateLimiter.Bucket, threshold: real)
    ensures Alerted<K>([], Verdicts(cap, s, b, threshold, [])) == []
    ensures CacheAfterAll(cap, s, threshold, []) == s && BucketAfterAll(cap, s, b, threshold, []) == b
  {
  }

  /** What Fire reads from the configuration; the environment may have replaced the URL. */
  datatype Config = Config(webhookURL: string, enabled: bool, threshold: real, maxPerMinute: int)

  /** The limiter for a configured rate: the present one, or a full one where the rate has changed. */
  ghost function LimiterFor(b: RateLimiter.Bucket, maxPerMinute: int, now: real): RateLimiter.Bucket {
    if b.max == maxPerMinute then b else RateLimiter.Bucket(maxPerMinute, maxPerMinute, now)
  }

  /** One call of Fire, `valid` saying that the URL is, and `now` when a new limiter is made for it. */
  datatype FireCall<K> = FireCall(cfg: Config, valid: bool, now: real, flows: seq<Flow<K>>)

  /** The cache, the limiter, and how many alerts have been fired. */
  datatype AlertState<K> = AlertState(cache: seq<Entry<K, int>>, bucket: RateLimiter.Bucket, fired: nat)

  ghost predicate Acts<K>(call: FireCall<K>) {
    call.cfg.webhookURL != "" && call.cfg.enabled && call.valid
  }

  /** The flows that a call alerts on. */
  ghost function FiredBy<K>(cap: nat, st: AlertState<K>, call: FireCall<K>): seq<Flow<K>> {
    if !Acts(call) then []
    else
      var bucket := LimiterFor(st.bucket, call.cfg.maxPerMinute, call.now);
      VerdictCount(cap, st.cache, bucket, call.cfg.threshold, call.flows);
      Alerted(call.flows, Verdicts(cap, st.cache, bucket, call.cfg.threshold, call.flows))
  }

  ghost function AfterFire<K>(cap: nat, st: AlertState<K>, call: FireCall<K>): AlertState<K> {
    if !Acts(call) then st
    else
      AlertState(CacheAfterAll(cap, st.cache, call.cfg.threshold, call.flows),
                 BucketAfterAll(cap, st.cache, LimiterFor(st.bucket, call.cfg.maxPerMinute, call.now), call.cfg.threshold, call.flows),
                 st.fired + |FiredBy(cap, st, call)|)
  }

  class Alerter<K(==)> {
    const cache: Lru.LRU<K, int>
    var limiter: RateLimiter.Limiter
    var lastMax: int
    var firedCount: nat

    ghost predicate Valid()
      reads this, cache, cache.list, cache.list.Repr, limiter
    {
      cache.Valid() && lastMax == limiter.max
    }

    ghost function State(): AlertState<K>
      reads this, cache, cache.list, limiter
    {
      AlertState(cache.Contents(), limiter.State(), firedCount)
    }

    constructor (maxPerMinute: int, now: real)
      ensures Valid() && cache.Contents() == [] && cache.cap == 10_000 && firedCount == 0
      ensures limiter.State() == RateLimiter.Bucket(maxPerMinute, maxPerMinute, now)
      ensures fresh(cache) && fresh(cache.list) && fresh(cache.list.Repr) && fresh(limiter)
    {
      cache := new Lru.LRU<K, int>(DEDUP_CAPACITY);
      limiter := new RateLimiter.Limiter(maxPerMinute, now);
      lastMax := maxPerMinute;
      firedCount := 0;
    }

    /** getRateLimiter. */
    method GetRateLimiter(maxPerMinute: int, now: real)
      requires Valid()
      modifies `limiter, `lastMax
      ensures Valid() && (limiter == old(limiter) || fresh(limiter))
      ensures limiter.State() == LimiterFor(old(limiter.State()), maxPerMinute, now)
    {
      if lastMax != maxPerMinute {
        limiter := new RateLimiter.Limiter(maxPerMinute, now);
        lastMax := maxPerMinute;
      }
    }

    /** The tests that Fire's loop makes on one flow. */
    method Consider(f: Flow<K>, threshold: real) returns (v: Verdict)
      requires Valid()
      modifies cache, cache.list, cache.list.Repr, limiter
      ensures Valid() && fresh(cache.list.Repr - old(cache.list.Repr))
      ensures v == VerdictOf(old(cache.Contents()), old(limiter.State()), threshold, f)
      ensures cache.Contents() == CacheAfter(cache.cap, old(cache.Contents()), threshold, f)
      ensures limiter.State() == BucketAfter(old(cache.Contents()), old(limiter.State()), threshold, f)
    {
      if f.score < threshold {
        return BelowThreshold;
      }
      var fire := ShouldFire(cache, f.call);
      if !fire {
        return Duplicate;
      }
      var ok := limiter.Allow(f.allowAt);
      return if ok then Alert else RateLimited;
    }

    /** Fire: nothing where alerting is off or the URL is not valid, else the alerts of the batch. */
    method Fire(cfg: Config, validURL: string -> bool, now: real, flows: seq<Flow<K>>) returns (fired: seq<Flow<K>>)
      requires Valid()
      modifies this, cache, cache.list, cache.list.Repr, limiter
      ensures Valid()
      ensures var call := FireCall(cfg, validURL(cfg.webhookURL), now, flows);
              && fired == FiredBy(cache.cap, old(State()), call) && State() == AfterFire(cache.cap, old(State()), call)
    {
      hide Verdicts, Alerted, CacheAfterAll, BucketAfterAll, LimiterFor;
      if cfg.webhookURL == "" || !cfg.enabled {
        return [];
      }
      if !validURL(cfg.webhookURL) {
        return [];
      }
      GetRateLimiter(cfg.maxPerMinute, now);
      fired := FireAll(flows, cfg.threshold);
    }

    /** Fire's loop. Returns the flows that were alerted on. */
    method FireAll(flows: seq<Flow<K>>, threshold: real) returns (fired: seq<Flow<K>>)
      requires Valid()
      modifies `firedCount, cache, cache.list, cache.list.Repr, limiter
      ensures Valid()
      ensures |Verdicts(cache.cap, old(cache.Contents()), old(limiter.State()), threshold, flows)| == |flows|
      ensures fired == Alerted(flows, Verdicts(cache.cap, old(cache.Contents()), old(limiter.State()), threshold, flows))
      ensures cache.Contents() == CacheAfterAll(cache.cap, old(cache.Contents()), threshold, flows)
      ensures limiter.State() == BucketAfterAll(cache.cap, old(cache.Contents()), old(limiter.State()), threshold, flows)
      ensures firedCount == old(firedCount) + |fired|
    {
      hide Verdicts, Alerted, CacheAfterAll, BucketAfterAll, VerdictOf, CacheAfter, BucketAfter, cache.Valid;
      ghost var cap, s0, b0 := cache.cap, cache.Contents(), limiter.State();
      fired := [];
      VerdictCount(cap, s0, b0, threshold, flows);
      assert flows[0..] == flows;
      for i := 0 to |flows|
        invariant Valid() && fresh(cache.list.Repr - old(cache.list.Repr))
        invariant firedCount == old(firedCount) + |fired|
        invariant |Verdicts(cap, cache.Contents(), limiter.State(), threshold, flows[i..])| == |flows| - i
        invariant Alerted(flows, Verdicts(cap, s0, b0, threshold, flows))
                  == fired + Alerted(flows[i..], Verdicts(cap, cache.Contents(), limiter.State(), threshold, flows[i..]))
        invariant CacheAfterAll(cap, s0, threshold, flows) == CacheAfterAll(cap, cache.Contents(), threshold, flows[i..])
        invariant BucketAfterAll(cap, s0, b0, threshold, flows) == BucketAfterAll(cap, cache.Contents(), limiter.State(), threshold, flows[i..])
      {
        FirstVerdict(cap, cache.Contents(), limiter.State(), threshold, flows[i..]);
        assert flows[i..][0] == flows[i] && flows[i..][1..] == flows[i + 1..];
        var v := Consider(flows[i], threshold);
        if v == Alert {
          firedCount := firedCount + 1;
          fired := fired + [flows[i]];
        }
      }
      NoVerdicts(cap, cache.Contents(), limiter.State(), threshold);
    }
  }

  /** An alert dropped by the rate limiter still occupies its dedup slot: until its window has
      passed, an immediately following flow with the same key is discarded as a duplicate. */
  lemma {:induction false} RateLimitedAlertIsSuppressed<K>(cap: nat, s: seq<Entry<K, int>>, b: RateLimiter.Bucket, threshold: real, f: Flow<K>, g: Flow<K>)
    requires WellFormed(cap, s) && VerdictOf(s, b, threshold, f) == RateLimited
    requires g.call.key == f.call.key && g.score >= threshold
    ensures VerdictOf(CacheAfter(cap, s, threshold, f), BucketAfter(s, b, threshold, f), threshold, g) == Duplicate
            <==> g.call.getAt <= f.call.setAt + (if f.call.windowSec > 0 then f.call.windowSec else 300) * 1_000_000_000
  {
    var t := AfterCall(cap, s, f.call);
    assert t == [f.call.Stored()] + t[1..];
    FindPush(t[1..], f.call.Stored(), f.call.key);
  }
}
