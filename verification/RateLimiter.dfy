/** The token bucket that limits webhook posts (internal/alerting/alerting.go, lines 38-80).
    Times are seconds as reals; floating-point rounding is not modelled. */
module RateLimiter {

  datatype Bucket = Bucket(tokens: int, max: int, lastRefill: real) {
    ghost predicate Valid() {
      max > 0 && 0 <= tokens <= max
    }

    /** The tokens in hand plus what has accrued since the last refill, fractions included. */
    ghost function Potential(now: real): real {
      tokens as real + Earned(max, now) - Earned(max, lastRefill)
    }
  }

  /** What a limiter of `max` posts a minute earns in `seconds` seconds. */
  function Earned(max: int, seconds: real): real {
    max as real * seconds / 60.0
  }

  /** Go's float64-to-int conversion: truncation towards zero. */
  function Truncate(x: real): int {
    if x >= 0.0 then x.Floor else -((-x).Floor)
  }

  /** Whole tokens earned in `elapsed` seconds. */
  function WholeTokens(max: int, elapsed: real): int {
    Truncate(Earned(max, elapsed))
  }

  ghost function Refilled(b: Bucket, now: real): Bucket {
    var elapsed := now - b.lastRefill;
    if elapsed >= 60.0 then b.(tokens := b.max, lastRefill := now)
    else if elapsed > 0.0 && WholeTokens(b.max, elapsed) > 0 then
      var t := b.tokens + WholeTokens(b.max, elapsed);
      b.(tokens := if t > b.max then b.max else t, lastRefill := now)
    else b
  }

  ghost function Allowed(b: Bucket, now: real): bool {
    b.max == 0 || Refilled(b, now).tokens > 0
  }

  ghost function AfterAllow(b: Bucket, now: real): Bucket {
    if b.max == 0 then b
    else if Allowed(b, now) then Refilled(b, now).(tokens := Refilled(b, now).tokens - 1)
    else Refilled(b, now)
  }

  class Limiter {
    var tokens: int
    const max: int
    var lastRefill: real

    ghost function State(): Bucket
      reads this
    {
      Bucket(tokens, max, lastRefill)
    }

    constructor (maxPerMinute: int, now: real)
      ensures State() == Bucket(maxPerMinute, maxPerMinute, now)
    {
      tokens, max, lastRefill := maxPerMinute, maxPerMinute, now;
    }

    method Allow(now: real) returns (ok: bool)
      modifies this
      ensures ok == Allowed(old(State()), now)
      ensures State() == AfterAllow(old(State()), now)
    {
      hide WholeTokens;
      if max == 0 {
        return true;
      }
      var elapsed := now - lastRefill;
      if elapsed >= 60.0 {
        tokens := max;
        lastRefill := now;
      } else if elapsed > 0.0 {
        var add := WholeTokens(max, elapsed);
        if add > 0 {
          tokens := tokens + add;
          if tokens > max {
            tokens := max;
          }
          lastRefill := now;
        }
      }
      if tokens <= 0 {
        return false;
      }
      tokens := tokens - 1;
      return true;
    }
  }

  // ----- one call

  /** What accrues between `s` and `t == s + d`. */
  lemma {:induction false} Accrues(max: int, s: real, t: real, d: real)
    requires max > 0 && t == s + d
    ensures Earned(max, d) == Earned(max, t) - Earned(max, s)
    ensures d >= 60.0 ==> Earned(max, t) - Earned(max, s) >= max as real
    ensures d >= 0.0 ==> Earned(max, s) <= Earned(max, t)
  {
    var m := max as real;
    assert m * t == m * s + m * d;
    if d >= 60.0 {
      Scale(m, 60.0, d);
    }
    if d >= 0.0 {
      Scale(m, 0.0, d);
    }
  }

  lemma {:induction false} Scale(r: real, x: real, y: real)
    requires r >= 0.0 && x <= y
    ensures r * x <= r * y
  {
  }

  /** Every call keeps the tokens within [0, max] and leaves less than one token's worth of time
      unaccounted; apart from the token it grants it never raises the potential. */
  lemma {:induction false} AllowStep(b: Bucket, now: real)
    requires b.Valid() && b.lastRefill <= now
    ensures var b' := AfterAllow(b, now);
            && b'.Valid() && b'.max == b.max && b.lastRefill <= b'.lastRefill <= now
            && b'.Potential(now) <= b.Potential(now) - (if Allowed(b, now) then 1.0 else 0.0)
            && b'.Potential(now) < b'.tokens as real + 1.0
            && (Allowed(b, now) ==> b'.tokens < b.max)
  {
    hide Earned, WholeTokens;
    var elapsed := now - b.lastRefill;
    Accrues(b.max, b.lastRefill, now, elapsed);
    Accrues(b.max, now, now, 0.0);
    WholeTokensTruncate(b.max, elapsed);
  }

  lemma {:induction false} WholeTokensTruncate(max: int, elapsed: real)
    requires Earned(max, elapsed) >= 0.0
    ensures WholeTokens(max, elapsed) as real <= Earned(max, elapsed) < WholeTokens(max, elapsed) as real + 1.0
  {
    hide Earned;
  }

  // ----- runs

  ghost predicate NonDecreasing(from: real, times: seq<real>)
    decreases |times|
  {
    times == [] || (from <= times[0] && NonDecreasing(times[0], times[1..]))
  }

  ghost function RunAllow(b: Bucket, times: seq<real>): Bucket
    decreases |times|
  {
    if times == [] then b else RunAllow(AfterAllow(b, times[0]), times[1..])
  }

  ghost function Grants(b: Bucket, times: seq<real>): nat
    decreases |times|
  {
    if times == [] then 0
    else (if Allowed(b, times[0]) then 1 else 0) + Grants(AfterAllow(b, times[0]), times[1..])
  }

  ghost function LastOf(from: real, times: seq<real>): real {
    if times == [] then from else times[|times| - 1]
  }

  lemma {:induction false} RunKeeps(b: Bucket, from: real, times: seq<real>)
    requires b.Valid() && b.lastRefill <= from && NonDecreasing(from, times)
    ensures RunAllow(b, times).Valid() && RunAllow(b, times).max == b.max
    ensures RunAllow(b, times).lastRefill <= LastOf(from, times) && from <= LastOf(from, times)
    decreases |times|
  {
    if times != [] {
      AllowStep(b, times[0]);
      RunKeeps(AfterAllow(b, times[0]), times[0], times[1..]);
    }
  }

  /** Grants are paid for by potential: what a run grants, plus what is left, was there or accrued. */
  lemma {:induction false} PotentialPays(b: Bucket, from: real, times: seq<real>)
    requires b.Valid() && b.lastRefill <= from && NonDecreasing(from, times)
    ensures Grants(b, times) as real + RunAllow(b, times).Potential(LastOf(from, times))
            <= b.Potential(LastOf(from, times))
    decreases |times|
  {
    if times != [] {
      hide Earned;
      var t, b' := times[0], AfterAllow(b, times[0]);
      AllowStep(b, t);
      PotentialPays(b', t, times[1..]);
      assert LastOf(t, times[1..]) == LastOf(from, times);
    }
  }

  lemma {:induction false} PotentialNonNegative(b: Bucket, now: real)
    requires b.Valid() && b.lastRefill <= now
    ensures b.Potential(now) >= 0.0
  {
    Accrues(b.max, b.lastRefill, now, now - b.lastRefill);
  }

  lemma {:induction false} GrantsWithin(b: Bucket, from: real, times: seq<real>, span: real)
    requires b.Valid() && b.lastRefill <= from && NonDecreasing(from, times) && LastOf(from, times) <= from + span
    ensures Grants(b, times) as real <= b.Potential(from) + Earned(b.max, span)
  {
    hide Earned;
    PotentialPays(b, from, times);
    RunKeeps(b, from, times);
    PotentialNonNegative(RunAllow(b, times), LastOf(from, times));
    Accrues(b.max, LastOf(from, times), from + span, from + span - LastOf(from, times));
    Accrues(b.max, from, from + span, span);
  }

  /** Within `span` seconds of its creation at `start` a limiter grants at most max + max*span/60. */
  lemma {:induction false} GrantsSinceCreation(max: int, start: real, times: seq<real>, span: real)
    requires max > 0 && NonDecreasing(start, times) && LastOf(start, times) <= start + span
    ensures Grants(Bucket(max, max, start), times) as real <= max as real + Earned(max, span)
  {
    hide Earned;
    GrantsWithin(Bucket(max, max, start), start, times, span);
  }

  /** In any window of `span` seconds, however long the limiter idled before, fewer than
      max + 1 + max*span/60 calls are granted. */
  lemma {:induction false} GrantsInWindow(b: Bucket, times: seq<real>, span: real)
    requires b.Valid() && times != [] && b.lastRefill <= times[0]
    requires NonDecreasing(times[0], times) && LastOf(times[0], times) <= times[0] + span
    ensures Grants(b, times) as real < b.max as real + 1.0 + Earned(b.max, span)
  {
    hide Earned;
    AllowStep(b, times[0]);
    GrantsWithin(AfterAllow(b, times[0]), times[0], times[1..], span);
  }

  // ----- grants in a window of time

  /** The times of the calls that are granted. */
  ghost function GrantTimes(b: Bucket, times: seq<real>): (granted: seq<real>)
    ensures |granted| == Grants(b, times)
    decreases |times|
  {
    if times == [] then []
    else (if Allowed(b, times[0]) then [times[0]] else []) + GrantTimes(AfterAllow(b, times[0]), times[1..])
  }

  /** How many of the times lie between `from` and `to`. */
  ghost function Within(times: seq<real>, from: real, to: real): nat {
    if times == [] then 0 else (if from <= times[0] <= to then 1 else 0) + Within(times[1..], from, to)
  }

  lemma {:induction false} WithinConcat(a: seq<real>, c: seq<real>, from: real, to: real)
    ensures Within(a + c, from, to) == Within(a, from, to) + Within(c, from, to)
  {
    if a == [] {
      assert a + c == c;
    } else {
      assert (a + c)[1..] == a[1..] + c;
      WithinConcat(a[1..], c, from, to);
    }
  }

  /** The times up to `to`, of times in order. */
  ghost function UpTo(times: seq<real>, to: real): (p: seq<real>)
    ensures forall i :: 0 <= i < |p| ==> p[i] <= to
  {
    if times == [] || times[0] > to then [] else [times[0]] + UpTo(times[1..], to)
  }

  lemma {:induction false} LaterIsOutside(b: Bucket, at: real, times: seq<real>, from: real, to: real)
    requires NonDecreasing(at, times) && at > to
    ensures Within(GrantTimes(b, times), from, to) == 0
    decreases |times|
  {
    if times != [] {
      LaterIsOutside(AfterAllow(b, times[0]), times[0], times[1..], from, to);
      WithinConcat(if Allowed(b, times[0]) then [times[0]] else [], GrantTimes(AfterAllow(b, times[0]), times[1..]), from, to);
    }
  }

  lemma {:induction false} WithinIsPrefix(b: Bucket, at: real, times: seq<real>, from: real, to: real)
    requires NonDecreasing(at, times) && from <= at
    ensures Within(GrantTimes(b, times), from, to) == Grants(b, UpTo(times, to))
    ensures NonDecreasing(at, UpTo(times, to))
    decreases |times|
  {
    if times != [] {
      hide Allowed, AfterAllow;
      var t, b' := times[0], AfterAllow(b, times[0]);
      var head := if Allowed(b, t) then [t] else [];
      WithinConcat(head, GrantTimes(b', times[1..]), from, to);
      assert head != [] ==> Within(head, from, to) == (if t <= to then 1 else 0) + Within(head[1..], from, to) && head[1..] == [];
      if t <= to {
        WithinIsPrefix(b', t, times[1..], from, to);
        var rest := UpTo(times[1..], to);
        assert ([t] + rest)[1..] == rest && UpTo(times, to) == [t] + rest;
      } else {
        LaterIsOutside(b', t, times[1..], from, to);
      }
    }
  }

  lemma {:induction false} EarnedIsPositive(max: int, span: real)
    requires max > 0 && span >= 0.0
    ensures Earned(max, span) >= 0.0
  {
    Scale(max as real, 0.0, span);
  }

  lemma {:induction false} WithinFromStart(b: Bucket, times: seq<real>, t: real, span: real)
    requires b.Valid() && times != [] && b.lastRefill <= times[0] && NonDecreasing(times[0], times) && span >= 0.0 && t <= times[0]
    ensures Within(GrantTimes(b, times), t, t + span) as real < b.max as real + 1.0 + Earned(b.max, span)
  {
    hide Allowed, AfterAllow, Within, GrantTimes, Earned;
    var p := UpTo(times, t + span);
    WithinIsPrefix(b, times[0], times, t, t + span);
    EarnedIsPositive(b.max, span);
    if p != [] {
      GrantsInWindow(b, p, span);
    }
  }

  lemma {:induction false} WithinFromLater(b: Bucket, at: real, times: seq<real>, t: real, span: real)
    requires b.Valid() && b.lastRefill <= at && NonDecreasing(at, times) && span >= 0.0
    ensures Within(GrantTimes(b, times), t, t + span) as real < b.max as real + 1.0 + Earned(b.max, span)
    decreases |times|
  {
    hide Allowed, AfterAllow, Earned;
    EarnedIsPositive(b.max, span);
    if times != [] {
      if times[0] < t {
        var b' := AfterAllow(b, times[0]);
        AllowStep(b, times[0]);
        var head := if Allowed(b, times[0]) then [times[0]] else [];
        WithinFromLater(b', times[0], times[1..], t, span);
        WithinConcat(head, GrantTimes(b', times[1..]), t, t + span);
        assert head != [] ==> head[1..] == [];
      } else {
        WithinFromStart(b, times, t, span);
      }
    }
  }

  /** Of the calls of a run with non-decreasing times, fewer than max + 1 + max*span/60 are granted between `t` and
      `t + span`, wherever these lie. */
  lemma {:induction false} GrantsInAnyWindow(b: Bucket, at: real, times: seq<real>, t: real, span: real)
    requires b.Valid() && b.lastRefill <= at && NonDecreasing(at, times) && span >= 0.0
    ensures Within(GrantTimes(b, times), t, t + span) as real < b.max as real + 1.0 + b.max as real * span / 60.0
  {
    WithinFromLater(b, at, times, t, span);
    hide Within, GrantTimes;
  }

  /** A limiter grants at least as many calls as it has tokens, whenever they are made. */
  lemma {:induction false} TokensAreGranted(b: Bucket, at: real, times: seq<real>)
    requires b.Valid() && b.lastRefill <= at && NonDecreasing(at, times) && |times| <= b.tokens
    ensures GrantTimes(b, times) == times
    decreases |times|
  {
    if times != [] {
      var b' := AfterAllow(b, times[0]);
      AllowStep(b, times[0]);
      assert b'.tokens >= b.tokens - 1 && Allowed(b, times[0]) by { TokensStay(b, times[0]); }
      hide Allowed, AfterAllow;
      TokensAreGranted(b', times[0], times[1..]);
      assert [times[0]] + times[1..] == times;
    }
  }

  lemma {:induction false} TokensStay(b: Bucket, now: real)
    requires b.Valid() && b.tokens > 0
    ensures Allowed(b, now) && AfterAllow(b, now).tokens >= b.tokens - 1
  {
    hide WholeTokens;
  }

  /** A limiter of 0 is unlimited, and a negative one never grants anything. */
  lemma {:induction false} ZeroAndBelow(b: Bucket, times: seq<real>)
    requires b.max == 0 || (b.max < 0 && b.tokens <= 0)
    ensures b.max == 0 ==> GrantTimes(b, times) == times && RunAllow(b, times) == b
    ensures b.max < 0 ==> GrantTimes(b, times) == []
    decreases |times|
  {
    if times != [] {
      var b' := AfterAllow(b, times[0]);
      hide WholeTokens;
      assert b'.max == b.max && (b.max < 0 ==> b'.tokens <= 0);
      ZeroAndBelow(b', times[1..]);
      assert b.max == 0 ==> [times[0]] + times[1..] == times;
    }
  }

  // ----- liveness

  /** A refused call leaves the limiter exactly as it found it. */
  lemma {:induction false} RefusalChangesNothing(b: Bucket, now: real)
    requires b.Valid() && !Allowed(b, now)
    ensures AfterAllow(b, now) == b
  {
  }

  lemma {:induction false} GrantedAfterWait(b: Bucket, now: real)
    requires b.Valid() && b.max as real * (now - b.lastRefill) >= 60.0
    ensures Allowed(b, now)
  {
    var elapsed := now - b.lastRefill;
    if elapsed <= 0.0 {
      Scale(b.max as real, elapsed, 0.0);
    }
    assert b.max as real * elapsed / 60.0 >= 1.0;
  }

  /** Polling cannot starve a caller: after any number of refused calls, the first call made at
      least 60/max seconds after the last refill is granted. */
  lemma {:induction false} PollingCannotStarve(b: Bucket, polls: seq<real>, now: real)
    requires b.Valid() && Grants(b, polls) == 0
    requires b.max as real * (now - b.lastRefill) >= 60.0
    ensures RunAllow(b, polls) == b && Allowed(RunAllow(b, polls), now)
    decreases |polls|
  {
    if polls == [] {
      GrantedAfterWait(b, now);
    } else {
      RefusalChangesNothing(b, polls[0]);
      PollingCannotStarve(b, polls[1..], now);
    }
  }
}
