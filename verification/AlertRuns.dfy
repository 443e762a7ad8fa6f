/** Sequences of Fire calls: how many alerts they send (internal/alerting/alerting.go, lines 38-104, 182-222). */
module AlertRuns {
  import opened Wrappers
  import opened LruSpec
  import opened LruRuns
  import opened Alerting
  import opened RateLimiter

  // ----- one batch and its limiter

  ghost function TimesOf<K>(flows: seq<Flow<K>>): (ts: seq<real>)
    ensures |ts| == |flows|
  {
    if flows == [] then [] else [flows[0].allowAt] + TimesOf(flows[1..])
  }

  /** The times at which a batch asks the limiter: those of its flows that are neither below the threshold nor duplicates. */
  ghost function AskTimes<K>(cap: nat, s: seq<Entry<K, int>>, threshold: real, flows: seq<Flow<K>>): seq<real>
    decreases |flows|
  {
    if flows == [] then []
    else (if flows[0].score >= threshold && Fires(s, flows[0].call) then [flows[0].allowAt] else [])
         + AskTimes(cap, CacheAfter(cap, s, threshold, flows[0]), threshold, flows[1..])
  }

  lemma {:induction false} FirstAsk<K>(cap: nat, s: seq<Entry<K, int>>, b: Bucket, threshold: real, flows: seq<Flow<K>>)
    requires flows != []
    ensures var f := flows[0];
            var asks := f.score >= threshold && Fires(s, f.call);
            && BucketAfter(s, b, threshold, f) == (if asks then AfterAllow(b, f.allowAt) else b)
            && (VerdictOf(s, b, threshold, f) == Alert <==> asks && Allowed(b, f.allowAt))
            && AskTimes(cap, s, threshold, flows) == (if asks then [f.allowAt] else []) + AskTimes(cap, CacheAfter(cap, s, threshold, f), threshold, flows[1..])
  {
    hide Allowed, AfterAllow, Fires;
  }

  /** The alerts of a batch are the grants of the limiter to those that ask it. */
  lemma {:induction false} BatchAsks<K>(cap: nat, s: seq<Entry<K, int>>, b: Bucket, threshold: real, flows: seq<Flow<K>>)
    ensures |Verdicts(cap, s, b, threshold, flows)| == |flows|
    ensures var asks := AskTimes(cap, s, threshold, flows);
            && TimesOf(Alerted(flows, Verdicts(cap, s, b, threshold, flows))) == GrantTimes(b, asks)
            && BucketAfterAll(cap, s, b, threshold, flows) == RunAllow(b, asks)
    decreases |flows|
  {
    if flows != [] {
      var f := flows[0];
      var s', b' := CacheAfter(cap, s, threshold, f), BucketAfter(s, b, threshold, f);
      FirstVerdict(cap, s, b, threshold, flows);
      FirstAsk(cap, s, b, threshold, flows);
      BatchAsks(cap, s', b', threshold, flows[1..]);
      var rest := AskTimes(cap, s', threshold, flows[1..]);
      var alerted := Alerted(flows[1..], Verdicts(cap, s', b', threshold, flows[1..]));
      assert BucketAfterAll(cap, s, b, threshold, flows) == BucketAfterAll(cap, s', b', threshold, flows[1..]);
      assert ([f] + alerted)[1..] == alerted && [] + alerted == alerted;
      assert ([f.allowAt] + rest)[1..] == rest && [] + rest == rest;
      hide Verdicts, Alerted, VerdictOf, CacheAfter, BucketAfter, Allowed, AfterAllow, Fires, AskTimes, BucketAfterAll;
    }
  }

  lemma {:induction false} OneMore(at: real, t: real, times: seq<real>)
    requires at <= t && NonDecreasing(t, times) && t <= LastOf(t, times)
    ensures NonDecreasing(at, [t] + times) && LastOf(at, [t] + times) == LastOf(t, times)
    ensures NonDecreasing(at, times) && at <= LastOf(at, times) <= LastOf(t, times)
  {
    assert ([t] + times)[1..] == times;
  }

  lemma {:induction false} AsksInOrder<K>(cap: nat, s: seq<Entry<K, int>>, threshold: real, flows: seq<Flow<K>>, at: real)
    requires NonDecreasing(at, TimesOf(flows))
    ensures NonDecreasing(at, AskTimes(cap, s, threshold, flows))
    ensures at <= LastOf(at, AskTimes(cap, s, threshold, flows)) <= LastOf(at, TimesOf(flows))
    decreases |flows|
  {
    if flows != [] {
      var t, s' := flows[0].allowAt, CacheAfter(cap, s, threshold, flows[0]);
      var rest := AskTimes(cap, s', threshold, flows[1..]);
      assert TimesOf(flows) == [t] + TimesOf(flows[1..]) && TimesOf(flows)[1..] == TimesOf(flows[1..]);
      assert AskTimes(cap, s, threshold, flows) == [t] + rest || AskTimes(cap, s, threshold, flows) == [] + rest;
      assert [] + rest == rest && at <= t && NonDecreasing(t, TimesOf(flows[1..]));
      hide CacheAfter, Fires, AskTimes, TimesOf, NonDecreasing, LastOf;
      AsksInOrder(cap, s', threshold, flows[1..], t);
      OneMore(at, t, rest);
      OneMore(at, t, TimesOf(flows[1..]));
    }
  }

  lemma {:induction false} Later(at: real, t: real, times: seq<real>)
    requires at <= t && NonDecreasing(t, times)
    ensures NonDecreasing(at, times)
  {
  }

  // ----- sequences of calls

  ghost function FiredByAll<K>(cap: nat, st: AlertState<K>, calls: seq<FireCall<K>>): seq<Flow<K>>
    decreases |calls|
  {
    if calls == [] then [] else FiredBy(cap, st, calls[0]) + FiredByAll(cap, AfterFire(cap, st, calls[0]), calls[1..])
  }

  ghost function AfterFires<K>(cap: nat, st: AlertState<K>, calls: seq<FireCall<K>>): AlertState<K>
    decreases |calls|
  {
    if calls == [] then st else AfterFires(cap, AfterFire(cap, st, calls[0]), calls[1..])
  }

  /** The times of all flows of the calls that are not cut short. */
  ghost function AllTimes<K>(calls: seq<FireCall<K>>): seq<real> {
    if calls == [] then [] else (if Acts(calls[0]) then TimesOf(calls[0].flows) else []) + AllTimes(calls[1..])
  }

  ghost predicate OneRate<K>(calls: seq<FireCall<K>>, max: int) {
    forall i :: 0 <= i < |calls| && Acts(calls[i]) ==> calls[i].cfg.maxPerMinute == max
  }

  ghost function AsksOfAll<K>(cap: nat, st: AlertState<K>, calls: seq<FireCall<K>>): seq<real>
    decreases |calls|
  {
    if calls == [] then []
    else (if Acts(calls[0]) then AskTimes(cap, st.cache, calls[0].cfg.threshold, calls[0].flows) else [])
         + AsksOfAll(cap, AfterFire(cap, st, calls[0]), calls[1..])
  }

  lemma {:induction false} TimesConcat<K>(a: seq<Flow<K>>, b: seq<Flow<K>>)
    ensures TimesOf(a + b) == TimesOf(a) + TimesOf(b)
  {
    if a == [] {
      assert a + b == b;
    } else {
      assert (a + b)[1..] == a[1..] + b;
      TimesConcat(a[1..], b);
    }
  }

  lemma {:induction false} GrantsConcat(b: Bucket, x: seq<real>, y: seq<real>)
    ensures RunAllow(b, x + y) == RunAllow(RunAllow(b, x), y)
    ensures GrantTimes(b, x + y) == GrantTimes(b, x) + GrantTimes(RunAllow(b, x), y)
    decreases |x|
  {
    if x == [] {
      assert x + y == y;
    } else {
      hide Allowed, AfterAllow;
      assert (x + y)[1..] == x[1..] + y;
      GrantsConcat(AfterAllow(b, x[0]), x[1..], y);
    }
  }

  lemma {:induction false} OneCall<K>(cap: nat, st: AlertState<K>, call: FireCall<K>)
    requires Acts(call) ==> call.cfg.maxPerMinute == st.bucket.max
    ensures var asks := if Acts(call) then AskTimes(cap, st.cache, call.cfg.threshold, call.flows) else [];
            && TimesOf(FiredBy(cap, st, call)) == GrantTimes(st.bucket, asks)
            && AfterFire(cap, st, call).bucket == RunAllow(st.bucket, asks)
  {
    if Acts(call) {
      BatchAsks(cap, st.cache, st.bucket, call.cfg.threshold, call.flows);
    }
    hide Acts, AskTimes, Verdicts, Alerted, BucketAfterAll, CacheAfterAll;
  }

  lemma {:induction false} RunKeepsMax(b: Bucket, times: seq<real>)
    ensures RunAllow(b, times).max == b.max
    decreases |times|
  {
    if times != [] {
      RunKeepsMax(AfterAllow(b, times[0]), times[1..]);
    }
  }

  /** The alerts of a sequence of calls with one rate are the grants of one limiter. */
  lemma {:induction false} CallsAsk<K>(cap: nat, st: AlertState<K>, calls: seq<FireCall<K>>)
    requires OneRate(calls, st.bucket.max)
    ensures TimesOf(FiredByAll(cap, st, calls)) == GrantTimes(st.bucket, AsksOfAll(cap, st, calls))
    ensures AfterFires(cap, st, calls).fired == st.fired + |FiredByAll(cap, st, calls)|
    decreases |calls|
  {
    if calls != [] {
      var call, next := calls[0], AfterFire(cap, st, calls[0]);
      var asks := if Acts(call) then AskTimes(cap, st.cache, call.cfg.threshold, call.flows) else [];
      assert next.fired == st.fired + |FiredBy(cap, st, call)|;
      OneCall(cap, st, call);
      RunKeepsMax(st.bucket, asks);
      assert forall i :: 0 <= i < |calls| - 1 ==> calls[1..][i] == calls[i + 1];
      hide FiredBy, AfterFire, Acts, AskTimes, RunAllow, GrantTimes;
      CallsAsk(cap, next, calls[1..]);
      TimesConcat(FiredBy(cap, st, call), FiredByAll(cap, next, calls[1..]));
      GrantsConcat(st.bucket, asks, AsksOfAll(cap, next, calls[1..]));
    }
  }

  lemma {:induction false} OrderConcat(at: real, x: seq<real>, y: seq<real>)
    ensures NonDecreasing(at, x + y) <==> NonDecreasing(at, x) && NonDecreasing(LastOf(at, x), y)
    ensures LastOf(at, x + y) == LastOf(LastOf(at, x), y)
    decreases |x|
  {
    if x == [] {
      assert x + y == y;
    } else {
      assert (x + y)[1..] == x[1..] + y;
      OrderConcat(x[0], x[1..], y);
      assert LastOf(x[0], x[1..]) == LastOf(at, x);
    }
  }

  lemma {:induction false} AllAsksInOrder<K>(cap: nat, st: AlertState<K>, calls: seq<FireCall<K>>, at: real, seen: real)
    requires at <= seen && NonDecreasing(seen, AllTimes(calls))
    ensures NonDecreasing(at, AsksOfAll(cap, st, calls))
    ensures at <= LastOf(at, AsksOfAll(cap, st, calls)) <= LastOf(seen, AllTimes(calls))
    decreases |calls|
  {
    if calls != [] {
      hide AfterFire, AskTimes, Acts;
      var call, next := calls[0], AfterFire(cap, st, calls[0]);
      var times := if Acts(call) then TimesOf(call.flows) else [];
      var asks := if Acts(call) then AskTimes(cap, st.cache, call.cfg.threshold, call.flows) else [];
      OrderConcat(seen, times, AllTimes(calls[1..]));
      if Acts(call) {
        AsksInOrder(cap, st.cache, call.cfg.threshold, call.flows, seen);
      }
      Later(at, seen, asks);
      assert LastOf(at, asks) <= LastOf(seen, times);
      AllAsksInOrder(cap, next, calls[1..], LastOf(at, asks), LastOf(seen, times));
      OrderConcat(at, asks, AsksOfAll(cap, next, calls[1..]));
      hide NonDecreasing;
    } else {
      assert AllTimes(calls) == [] && AsksOfAll(cap, st, calls) == [];
    }
  }

  lemma {:induction false} AllWithin(b: Bucket, times: seq<real>, from: real, to: real)
    requires NonDecreasing(from, times) && LastOf(from, times) <= to
    ensures Within(GrantTimes(b, times), from, to) == |GrantTimes(b, times)|
  {
    WithinIsPrefix(b, from, times, from, to);
    AllUpTo(from, times, to);
  }

  lemma {:induction false} AllUpTo(at: real, times: seq<real>, to: real)
    requires NonDecreasing(at, times) && LastOf(at, times) <= to
    ensures UpTo(times, to) == times
    decreases |times|
  {
    if times != [] {
      assert LastOf(times[0], times[1..]) == LastOf(at, times);
      LastIsLatest(times[0], times[1..]);
      AllUpTo(times[0], times[1..], to);
      assert [times[0]] + times[1..] == times;
    }
  }

  lemma {:induction false} LastIsLatest(at: real, times: seq<real>)
    requires NonDecreasing(at, times)
    ensures at <= LastOf(at, times)
    decreases |times|
  {
    if times != [] {
      LastIsLatest(times[0], times[1..]);
      assert LastOf(times[0], times[1..]) == LastOf(at, times);
    }
  }

  /** However the flows come in batches, and whatever the thresholds and the duplicates among them: with one positive rate
      and times that do not decrease, fewer than max + 1 + max*span/60 flows are alerted on in any `span` seconds, and the
      counter has risen by the number of alerts. */
  lemma {:induction false} RateLimitHolds<K>(cap: nat, st: AlertState<K>, calls: seq<FireCall<K>>, at: real, t: real, span: real)
    requires st.bucket.Valid() && OneRate(calls, st.bucket.max) && st.bucket.lastRefill <= at && span >= 0.0
    requires NonDecreasing(at, AllTimes(calls))
    ensures var max, fired := st.bucket.max, FiredByAll(cap, st, calls);
            Within(TimesOf(fired), t, t + span) as real < max as real + 1.0 + max as real * span / 60.0
    ensures AfterFires(cap, st, calls).fired == st.fired + |FiredByAll(cap, st, calls)|
  {
    hide GrantTimes, Within, TimesOf, FiredByAll, AfterFires, NonDecreasing, AllTimes, AsksOfAll, OneRate;
    CallsAsk(cap, st, calls);
    AllAsksInOrder(cap, st, calls, at, at);
    GrantsInAnyWindow(st.bucket, at, AsksOfAll(cap, st, calls), t, span);
  }

  /** If all flows come within `span` seconds, this bounds the rise of the counter. */
  lemma {:induction false} CounterIsBounded<K>(cap: nat, st: AlertState<K>, calls: seq<FireCall<K>>, at: real, span: real)
    requires st.bucket.Valid() && OneRate(calls, st.bucket.max) && st.bucket.lastRefill <= at && span >= 0.0
    requires NonDecreasing(at, AllTimes(calls)) && LastOf(at, AllTimes(calls)) <= at + span
    ensures (AfterFires(cap, st, calls).fired - st.fired) as real < st.bucket.max as real + 1.0 + st.bucket.max as real * span / 60.0
  {
    hide GrantTimes, Within, TimesOf, FiredByAll, AfterFires, NonDecreasing, AllTimes, AsksOfAll, LastOf, OneRate;
    RateLimitHolds(cap, st, calls, at, at, span);
    CallsAsk(cap, st, calls);
    AllAsksInOrder(cap, st, calls, at, at);
    AllWithin(st.bucket, AsksOfAll(cap, st, calls), at, at + span);
  }

  // ----- what is alerted

  lemma {:induction false} NothingWithoutConsent<K>(cap: nat, st: AlertState<K>, call: FireCall<K>)
    requires call.cfg.webhookURL == "" || !call.cfg.enabled || !call.valid
    ensures FiredBy(cap, st, call) == [] && AfterFire(cap, st, call) == st
  {
  }

  /** The flows at or above the threshold. */
  ghost function AtLeast<K>(flows: seq<Flow<K>>, threshold: real): seq<Flow<K>> {
    if flows == [] then [] else (if flows[0].score >= threshold then [flows[0]] else []) + AtLeast(flows[1..], threshold)
  }

  lemma {:induction false} NoneAfterGet<K>(s: seq<Entry<K, int>>, key: K, now: int, k: K)
    requires Find(s, k) == None && key != k
    ensures Find(AfterGet(s, key, now), k) == None
  {
    hide Find, Without;
    FindIff(s, key);
    FindWithout(s, k, key);
    if Find(s, key).Some? {
      FindPush(Without(s, key), Find(s, key).value, k);
    }
  }

  lemma {:induction false} NoneAfterSet<K>(cap: nat, s: seq<Entry<K, int>>, e: Entry<K, int>, k: K)
    requires Find(s, k) == None && e.key != k
    ensures Find(AfterSet(cap, s, e), k) == None
  {
    hide Find, Without;
    FindWithout(s, k, e.key);
    FindPush(Without(s, e.key), e, k);
    FindPush(s, e, k);
    if s != [] {
      FindPrefix(s, k);
      FindPush(s[..|s| - 1], e, k);
    }
  }

  lemma {:induction false} OnlyItsKey<K>(cap: nat, s: seq<Entry<K, int>>, c: Call<K>, k: K)
    requires !HasKey(s, k) && c.key != k
    ensures !HasKey(AfterCall(cap, s, c), k)
  {
    hide HasKey, Find, AfterGet, AfterSet;
    FindIff(s, k);
    FindIff(AfterCall(cap, s, c), k);
    NoneAfterGet(s, c.key, c.getAt, k);
    NoneAfterSet(cap, AfterGet(s, c.key, c.getAt), c.Stored(), k);
  }

  ghost predicate AllNew<K>(s: seq<Entry<K, int>>, flows: seq<Flow<K>>) {
    && (forall i :: 0 <= i < |flows| ==> !HasKey(s, flows[i].call.key))
    && (forall i, j :: 0 <= i < j < |flows| ==> flows[i].call.key != flows[j].call.key)
  }

  lemma {:induction false} NewStaysNew<K>(cap: nat, s: seq<Entry<K, int>>, threshold: real, flows: seq<Flow<K>>)
    requires flows != [] && AllNew(s, flows)
    ensures Fires(s, flows[0].call) && AllNew(CacheAfter(cap, s, threshold, flows[0]), flows[1..])
  {
    FindIff(s, flows[0].call.key);
    forall i | 0 <= i < |flows| - 1
      ensures !HasKey(CacheAfter(cap, s, threshold, flows[0]), flows[1..][i].call.key)
    {
      assert flows[1..][i] == flows[i + 1];
      OnlyItsKey(cap, s, flows[0].call, flows[i + 1].call.key);
    }
    hide AfterCall;
  }

  lemma {:induction false} NewFlowsAsk<K>(cap: nat, s: seq<Entry<K, int>>, threshold: real, flows: seq<Flow<K>>)
    requires AllNew(s, flows)
    ensures AskTimes(cap, s, threshold, flows) == TimesOf(AtLeast(flows, threshold))
    decreases |flows|
  {
    if flows != [] {
      NewStaysNew(cap, s, threshold, flows);
      NewFlowsAsk(cap, CacheAfter(cap, s, threshold, flows[0]), threshold, flows[1..]);
      var rest := AtLeast(flows[1..], threshold);
      assert ([flows[0]] + rest)[1..] == rest && [] + rest == rest;
    }
  }

  lemma {:induction false} AllGrantedIsAllAlerted<K>(cap: nat, s: seq<Entry<K, int>>, b: Bucket, threshold: real, flows: seq<Flow<K>>)
    requires AllNew(s, flows) && |Verdicts(cap, s, b, threshold, flows)| == |flows|
    requires GrantTimes(b, AskTimes(cap, s, threshold, flows)) == AskTimes(cap, s, threshold, flows)
    ensures Alerted(flows, Verdicts(cap, s, b, threshold, flows)) == AtLeast(flows, threshold)
    decreases |flows|
  {
    if flows != [] {
      var f := flows[0];
      var s', b' := CacheAfter(cap, s, threshold, f), BucketAfter(s, b, threshold, f);
      NewStaysNew(cap, s, threshold, flows);
      FirstVerdict(cap, s, b, threshold, flows);
      FirstAsk(cap, s, b, threshold, flows);
      var rest := AskTimes(cap, s', threshold, flows[1..]);
      assert ([f.allowAt] + rest)[1..] == rest && [] + rest == rest;
      if f.score >= threshold {
        GrantCount(b', rest);
        assert Allowed(b, f.allowAt) && GrantTimes(b', rest) == rest;
      }
      hide Verdicts, Alerted, VerdictOf, CacheAfter, BucketAfter, Allowed, AfterAllow, Fires, AllNew;
      AllGrantedIsAllAlerted(cap, s', b', threshold, flows[1..]);
    }
  }

  lemma {:induction false} GrantCount(b: Bucket, times: seq<real>)
    ensures |GrantTimes(b, times)| <= |times|
    decreases |times|
  {
    if times != [] {
      GrantCount(AfterAllow(b, times[0]), times[1..]);
    }
  }

  /** The limiter of a call has room for `n` alerts: it is unlimited, or has that many tokens, as many as the rate if the rate
      has changed. */
  ghost predicate RoomFor<K>(st: AlertState<K>, call: FireCall<K>, n: nat) {
    var max := call.cfg.maxPerMinute;
    max == 0 || (max > 0 && n <= if st.bucket.max == max then st.bucket.tokens else max)
  }

  /** As long as the limiter has room, a call alerts on all of its new flows that reach the threshold. */
  lemma {:induction false} NewFlowsAreAlerted<K>(cap: nat, st: AlertState<K>, call: FireCall<K>, at: real)
    requires call.cfg.webhookURL != "" && call.cfg.enabled && call.valid
    requires AllNew(st.cache, call.flows) && RoomFor(st, call, |AtLeast(call.flows, call.cfg.threshold)|)
    requires NonDecreasing(at, TimesOf(call.flows)) && call.now <= at && st.bucket.lastRefill <= at
    requires st.bucket.max > 0 ==> st.bucket.Valid()
    ensures FiredBy(cap, st, call) == AtLeast(call.flows, call.cfg.threshold)
  {
    var bucket := LimiterFor(st.bucket, call.cfg.maxPerMinute, call.now);
    var asks := AskTimes(cap, st.cache, call.cfg.threshold, call.flows);
    NewFlowsAsk(cap, st.cache, call.cfg.threshold, call.flows);
    AsksInOrder(cap, st.cache, call.cfg.threshold, call.flows, at);
    if bucket.max == 0 {
      ZeroAndBelow(bucket, asks);
    } else {
      TokensAreGranted(bucket, at, asks);
    }
    VerdictCount(cap, st.cache, bucket, call.cfg.threshold, call.flows);
    AllGrantedIsAllAlerted(cap, st.cache, bucket, call.cfg.threshold, call.flows);
  }
}
