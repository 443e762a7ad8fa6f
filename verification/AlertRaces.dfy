/** Overlapping callers of shouldFire (internal/alerting/alerting.go, lines 164-177): the lookup and the store are
    separate critical sections of the cache, interleaved in any order. */
module AlertRaces {
  import opened Wrappers
  import opened LruSpec
  import opened LruRuns
  import opened Alerting

  /** Where a caller stands: before its lookup, after a lookup that found nothing, or done. */
  datatype Phase = Ready | Missed | Fired | Quiet

  /** The cache and the callers, one call each. */
  datatype State<K> = State(cache: seq<Entry<K, int>>, phases: seq<Phase>)

  ghost function Start<K>(s: seq<Entry<K, int>>, n: nat): State<K> {
    State(s, seq(n, _ => Ready))
  }

  /** The next critical section of caller `i`. */
  ghost function Step<K>(cap: nat, calls: seq<Call<K>>, s: State<K>, i: nat): (t: State<K>)
    ensures |t.phases| == |s.phases|
  {
    if i >= |calls| || i >= |s.phases| then s
    else match s.phases[i]
         case Ready =>
           State(AfterGet(s.cache, calls[i].key, calls[i].getAt),
                 s.phases[i := if Fires(s.cache, calls[i]) then Missed else Quiet])
         case Missed => State(AfterSet(cap, s.cache, calls[i].Stored()), s.phases[i := Fired])
         case Fired => s
         case Quiet => s
  }

  /** Any interleaving of the callers. */
  ghost function Run<K>(cap: nat, calls: seq<Call<K>>, s: State<K>, turns: seq<nat>): (t: State<K>)
    ensures |t.phases| == |s.phases|
  {
    if turns == [] then s
    else Step(cap, calls, Run(cap, calls, s, turns[..|turns| - 1]), turns[|turns| - 1])
  }

  lemma {:induction false} RunSnoc<K>(cap: nat, calls: seq<Call<K>>, s: State<K>, turns: seq<nat>, last: nat)
    ensures Run(cap, calls, s, turns + [last]) == Step(cap, calls, Run(cap, calls, s, turns), last)
  {
    assert (turns + [last])[..|turns|] == turns;
  }

  // ----- phases only move forward

  lemma {:induction false} PhasesMoveOn<K>(cap: nat, calls: seq<Call<K>>, s: State<K>, before: seq<nat>, after: seq<nat>, i: nat)
    requires i < |s.phases|
    ensures var p, q := Run(cap, calls, s, before).phases[i], Run(cap, calls, s, before + after).phases[i];
            (p.Missed? ==> q.Missed? || q.Fired?) && (p.Fired? ==> q.Fired?) && (p.Quiet? ==> q.Quiet?)
    decreases |after|
  {
    if after == [] {
      assert before + after == before;
    } else {
      var front, last := after[..|after| - 1], after[|after| - 1];
      PhasesMoveOn(cap, calls, s, before, front, i);
      assert before + after == before + front + [last];
      RunSnoc(cap, calls, s, before + front, last);
      hide Run, AfterGet, AfterSet, Fires;
    }
  }

  lemma {:induction false} StaysReady<K>(cap: nat, calls: seq<Call<K>>, s: State<K>, turns: seq<nat>, i: nat)
    requires i < |s.phases| && s.phases[i].Ready? && |s.phases| == |calls|
    ensures Run(cap, calls, s, turns).phases[i].Ready? <==> i !in turns
  {
    if turns != [] {
      var front, last := turns[..|turns| - 1], turns[|turns| - 1];
      StaysReady(cap, calls, s, front, i);
      assert turns == front + [last];
      hide AfterGet, AfterSet, Fires;
    }
  }

  // ----- what the cache holds for one key

  /** The calls for `k` are all made within the windows of each other. */
  ghost predicate Close<K>(calls: seq<Call<K>>, k: K) {
    forall c, d :: 0 <= c < |calls| && 0 <= d < |calls| && calls[c].key == k && calls[d].key == k
      ==> !Expired(calls[d].Stored(), calls[c].getAt)
  }

  /** No call for `k` finds a live entry. */
  ghost predicate Absent<K>(s: seq<Entry<K, int>>, calls: seq<Call<K>>, k: K) {
    Find(s, k).Some? ==> forall c :: 0 <= c < |calls| && calls[c].key == k ==> Expired(Find(s, k).value, calls[c].getAt)
  }

  ghost function Others<K>(calls: seq<Call<K>>, k: K): set<K> {
    KeysOf(calls) - {k}
  }

  ghost predicate StoredBy<K>(calls: seq<Call<K>>, s: State<K>, k: K, d: nat) {
    d < |calls| && d < |s.phases| && calls[d].key == k && s.phases[d].Fired?
  }

  ghost predicate NoneStored<K>(calls: seq<Call<K>>, s: State<K>, k: K) {
    forall d: nat :: !StoredBy(calls, s, k, d)
  }

  ghost predicate Holds<K>(calls: seq<Call<K>>, s: State<K>, k: K, d: nat) {
    StoredBy(calls, s, k, d) && Guarded(s.cache, calls[d].Stored(), Others(calls, k))
  }

  /** Before the first store for `k` no call for it has been answered from the cache; after it, the entry of one of the
      stores is safe in the cache. */
  ghost predicate Inv<K>(cap: nat, calls: seq<Call<K>>, s: State<K>, k: K) {
    && WellFormed(cap, s.cache) && |s.phases| == |calls|
    && (NoneStored(calls, s, k) ==> Absent(s.cache, calls, k) && forall c :: 0 <= c < |calls| && calls[c].key == k ==> !s.phases[c].Quiet?)
    && (!NoneStored(calls, s, k) ==> exists d :: Holds(calls, s, k, d))
  }

  lemma {:induction false} KeyIsOther<K>(calls: seq<Call<K>>, k: K, i: nat)
    requires i < |calls| && calls[i].key != k
    ensures calls[i].key in Others(calls, k) && Others(calls, k) + {calls[i].key} == Others(calls, k)
  {
  }

  /** A lookup leaves what the cache holds for another key. */
  lemma {:induction false} OtherLookup<K>(s: seq<Entry<K, int>>, k: K, other: K, now: int)
    requires k != other
    ensures Find(AfterGet(s, other, now), k) == Find(s, k)
  {
    FindIff(s, other);
    FindWithout(s, k, other);
    if Find(s, other).Some? {
      FindPush(Without(s, other), Find(s, other).value, k);
    }
  }

  lemma {:induction false} OtherLookupSpares<K>(s: seq<Entry<K, int>>, e: Entry<K, int>, others: set<K>, other: K, now: int)
    requires DistinctKeys(s) && Guarded(s, e, others) && other != e.key && other in others
    ensures Guarded(AfterGet(s, other, now), e, others)
  {
    FindIff(s, other);
    GuardWithout(s, e, others, other);
    if Find(s, other).Some? {
      GuardPush(Without(s, other), e, others, Find(s, other).value);
      assert others + {other} == others;
    }
    hide Guarded;
  }

  /** A store leaves nothing new for another key. */
  lemma {:induction false} OtherStore<K>(cap: nat, s: seq<Entry<K, int>>, k: K, e: Entry<K, int>)
    requires k != e.key
    ensures Find(AfterSet(cap, s, e), k).Some? ==> Find(AfterSet(cap, s, e), k) == Find(s, k)
  {
    FindWithout(s, k, e.key);
    FindPush(Without(s, e.key), e, k);
    FindPush(s, e, k);
    if s != [] {
      FindPrefix(s, k);
      FindPush(s[..|s| - 1], e, k);
    }
  }

  lemma {:induction false} OwnStore<K>(cap: nat, s: seq<Entry<K, int>>, e: Entry<K, int>, others: set<K>)
    ensures Guarded(AfterSet(cap, s, e), e, others)
  {
    var t := AfterSet(cap, s, e);
    assert t == [] + [e] + t[1..];
    Guard(t, e, others, [], t[1..]);
  }

  lemma {:induction false} CacheStaysWellFormed<K>(cap: nat, calls: seq<Call<K>>, s: State<K>, i: nat)
    requires WellFormed(cap, s.cache)
    ensures WellFormed(cap, Step(cap, calls, s, i).cache)
  {
    if i < |calls| && i < |s.phases| {
      StepKeeps(cap, s.cache, GetOp(calls[i].key, calls[i].getAt));
      StepKeeps(cap, s.cache, SetOp(calls[i].Stored(), calls[i].setAt));
      hide AfterGet, AfterSet, WellFormed, Fires;
    }
  }

  /** A lookup for `k` finds a live entry exactly if some call for `k` has stored one. */
  lemma {:induction false} LookupDecides<K>(cap: nat, calls: seq<Call<K>>, s: State<K>, k: K, i: nat)
    requires Inv(cap, calls, s, k) && Close(calls, k) && i < |calls| && calls[i].key == k
    ensures Fires(s.cache, calls[i]) <==> NoneStored(calls, s, k)
  {
    hide Guarded, StoredBy, Find, WellFormed;
    if !NoneStored(calls, s, k) {
      var d: nat :| Holds(calls, s, k, d);
      assert StoredBy(calls, s, k, d);
      StoredIsCall(calls, s, k, d);
      EntryIsFound(cap, s.cache, calls[d].Stored(), Others(calls, k));
    }
  }

  lemma {:induction false} StoredIsCall<K>(calls: seq<Call<K>>, s: State<K>, k: K, d: nat)
    requires StoredBy(calls, s, k, d)
    ensures d < |calls| && calls[d].key == k && calls[d].Stored().key == k
  {
  }

  lemma {:induction false} EntryIsFound<K>(cap: nat, s: seq<Entry<K, int>>, e: Entry<K, int>, others: set<K>)
    requires WellFormed(cap, s) && Guarded(s, e, others)
    ensures Find(s, e.key) == Some(e)
  {
    GuardedHas(s, e, others);
  }

  /** What one step does to the entry of a store for `k`. */
  lemma {:induction false} EntryStays<K>(cap: nat, calls: seq<Call<K>>, s: State<K>, k: K, d: nat, i: nat)
    requires Inv(cap, calls, s, k) && Close(calls, k) && |Others(calls, k)| < cap && Holds(calls, s, k, d)
    ensures exists e :: Holds(calls, Step(cap, calls, s, i), k, e)
  {
    var t, others, e := Step(cap, calls, s, i), Others(calls, k), calls[d].Stored();
    if i < |calls| {
      if calls[i].key != k {
        KeyIsOther(calls, k, i);
        OtherLookupSpares(s.cache, e, others, calls[i].key, calls[i].getAt);
        SurvivesSet(cap, s.cache, e, others, calls[i].Stored());
        hide Guarded, AfterGet, AfterSet, Others, WellFormed, Fires;
        assert Holds(calls, t, k, d);
      } else if s.phases[i].Missed? {
        OwnStore(cap, s.cache, calls[i].Stored(), others);
        hide Guarded, AfterGet, AfterSet, Others, WellFormed, Fires;
        assert Holds(calls, t, k, i);
      } else {
        SurvivesGet(s.cache, e, others, k, calls[i].getAt);
        hide Guarded, AfterGet, AfterSet, WellFormed, Fires;
        assert others + ({k} - {e.key}) == others;
        assert Holds(calls, t, k, d);
      }
    } else {
      assert Holds(calls, t, k, d);
    }
  }

  /** While no call for `k` has stored, no call for it finds anything. */
  lemma {:induction false} AbsenceStays<K>(cap: nat, calls: seq<Call<K>>, s: State<K>, k: K, i: nat)
    requires Inv(cap, calls, s, k) && Close(calls, k) && NoneStored(calls, s, k)
    ensures var t := Step(cap, calls, s, i);
            if i < |calls| && calls[i].key == k && s.phases[i].Missed? then Holds(calls, t, k, i)
            else Absent(t.cache, calls, k) && forall c :: 0 <= c < |calls| && calls[c].key == k ==> !t.phases[c].Quiet?
  {
    if i < |calls| {
      assert !StoredBy(calls, s, k, i);
      if calls[i].key != k {
        OtherLookup(s.cache, k, calls[i].key, calls[i].getAt);
        OtherStore(cap, s.cache, k, calls[i].Stored());
        hide AfterGet, AfterSet, Find, WellFormed, Fires, Guarded;
      } else if s.phases[i].Missed? {
        OwnStore(cap, s.cache, calls[i].Stored(), Others(calls, k));
        hide Guarded, AfterGet, AfterSet, Others, WellFormed, Fires;
      } else {
        LookupDecides(cap, calls, s, k, i);
        FindWithout(s.cache, k, k);
        hide Guarded, WellFormed, Find;
      }
    }
  }

  lemma {:induction false} StepKeepsInv<K>(cap: nat, calls: seq<Call<K>>, s: State<K>, k: K, i: nat)
    requires Inv(cap, calls, s, k) && Close(calls, k) && |Others(calls, k)| < cap
    ensures Inv(cap, calls, Step(cap, calls, s, i), k)
  {
    CacheStaysWellFormed(cap, calls, s, i);
    if NoneStored(calls, s, k) {
      AbsenceStays(cap, calls, s, k, i);
      NewStores(cap, calls, s, k, i);
    } else {
      var d :| Holds(calls, s, k, d);
      EntryStays(cap, calls, s, k, d, i);
    }
    hide Step, Guarded, WellFormed, Absent, StoredBy, Others;
  }

  /** Only a store of a call for `k` ends the absence. */
  lemma {:induction false} NewStores<K>(cap: nat, calls: seq<Call<K>>, s: State<K>, k: K, i: nat)
    requires NoneStored(calls, s, k) && |s.phases| == |calls|
    ensures !NoneStored(calls, Step(cap, calls, s, i), k) ==> i < |calls| && calls[i].key == k && s.phases[i].Missed?
  {
    hide AfterGet, AfterSet, Fires;
    var t := Step(cap, calls, s, i);
    if !NoneStored(calls, t, k) {
      var d: nat :| StoredBy(calls, t, k, d);
      assert !StoredBy(calls, s, k, d);
    }
  }

  lemma {:induction false} RunKeepsInv<K>(cap: nat, calls: seq<Call<K>>, s: seq<Entry<K, int>>, turns: seq<nat>, k: K)
    requires WellFormed(cap, s) && Absent(s, calls, k) && Close(calls, k) && |Others(calls, k)| < cap
    ensures Inv(cap, calls, Run(cap, calls, Start(s, |calls|), turns), k)
  {
    hide Step, Others, Close, Absent, WellFormed;
    if turns != [] {
      hide Inv, Start;
      RunKeepsInv(cap, calls, s, turns[..|turns| - 1], k);
      StepKeepsInv(cap, calls, Run(cap, calls, Start(s, |calls|), turns[..|turns| - 1]), k, turns[|turns| - 1]);
    }
  }

  // ----- who fires

  ghost predicate Done<K>(s: State<K>, i: nat) {
    i < |s.phases| && (s.phases[i].Fired? || s.phases[i].Quiet?)
  }

  /** Any number of overlapping callers for one key, all within the window, with fewer than `cap` other keys about: a
      caller fires exactly if its lookup precedes every store for the key. */
  lemma {:induction false} FiresIffNoneStored<K>(cap: nat, calls: seq<Call<K>>, s: seq<Entry<K, int>>, pre: seq<nat>, c: nat, post: seq<nat>)
    requires c < |calls| && c !in pre && Done(Run(cap, calls, Start(s, |calls|), pre + [c] + post), c)
    requires WellFormed(cap, s) && Absent(s, calls, calls[c].key) && Close(calls, calls[c].key)
    requires |Others(calls, calls[c].key)| < cap
    ensures Run(cap, calls, Start(s, |calls|), pre + [c] + post).phases[c].Fired?
       <==> NoneStored(calls, Run(cap, calls, Start(s, |calls|), pre), calls[c].key)
  {
    var start, k := Start(s, |calls|), calls[c].key;
    var t := Run(cap, calls, start, pre);
    RunKeepsInv(cap, calls, s, pre, k);
    StaysReady(cap, calls, start, pre, c);
    LookupDecides(cap, calls, t, k, c);
    RunSnoc(cap, calls, start, pre, c);
    PhasesMoveOn(cap, calls, start, pre + [c], post, c);
    hide Run, Inv, NoneStored, Absent, Close, Others, AfterGet, AfterSet, Fires;
  }

  ghost predicate OnlyCallers<K>(calls: seq<Call<K>>, a: nat, b: nat) {
    && a < |calls| && b < |calls| && a != b && calls[a].key == calls[b].key
    && forall d :: 0 <= d < |calls| && calls[d].key == calls[a].key ==> d == a || d == b
  }

  /** Two callers for one key, the first lookup by `a`: both fire exactly if `b` looks the key up before `a` has stored
      it. Otherwise only `a` fires. */
  lemma {:induction false} BothFireIff<K>(cap: nat, calls: seq<Call<K>>, s: seq<Entry<K, int>>, a: nat, b: nat, pre: seq<nat>, post: seq<nat>)
    requires OnlyCallers(calls, a, b) && a in pre && b !in pre
    requires Done(Run(cap, calls, Start(s, |calls|), pre + [b] + post), a)
    requires Done(Run(cap, calls, Start(s, |calls|), pre + [b] + post), b)
    requires WellFormed(cap, s) && Absent(s, calls, calls[a].key) && Close(calls, calls[a].key)
    requires |Others(calls, calls[a].key)| < cap
    ensures var p, q := Run(cap, calls, Start(s, |calls|), pre).phases, Run(cap, calls, Start(s, |calls|), pre + [b] + post).phases;
            q[a].Fired? && (q[b].Fired? <==> p[a].Missed?)
  {
    var start, k := Start(s, |calls|), calls[a].key;
    var t := Run(cap, calls, start, pre);
    RunKeepsInv(cap, calls, s, pre, k);
    FiresIffNoneStored(cap, calls, s, pre, b, post);
    StaysReady(cap, calls, start, pre, a);
    StaysReady(cap, calls, start, pre, b);
    FirstIsNotQuiet(cap, calls, t, a, b);
    assert pre + [b] + post == pre + ([b] + post);
    PhasesMoveOn(cap, calls, start, pre, [b] + post, a);
    hide Run, Inv, NoneStored, Absent, Close, Others;
  }

  lemma {:induction false} FirstIsNotQuiet<K>(cap: nat, calls: seq<Call<K>>, s: State<K>, a: nat, b: nat)
    requires OnlyCallers(calls, a, b) && Inv(cap, calls, s, calls[a].key) && s.phases[b].Ready?
    ensures !s.phases[a].Quiet? && (NoneStored(calls, s, calls[a].key) <==> !s.phases[a].Fired?)
  {
    hide WellFormed, Absent, Holds;
    if s.phases[a].Fired? {
      assert StoredBy(calls, s, calls[a].key, a);
    }
  }

  lemma {:induction false} StartIsQuiet<K>(cap: nat, calls: seq<Call<K>>, s: seq<Entry<K, int>>, k: K)
    requires WellFormed(cap, s) && Absent(s, calls, k)
    ensures Inv(cap, calls, Start(s, |calls|), k) && NoneStored(calls, Start(s, |calls|), k)
  {
  }

  /** The step of a caller that is ready, or has missed. */
  lemma {:induction false} NextPhase<K>(cap: nat, calls: seq<Call<K>>, s: State<K>, k: K, i: nat)
    requires Inv(cap, calls, s, k) && Close(calls, k) && |Others(calls, k)| < cap && i < |calls| && calls[i].key == k
    ensures var t := Step(cap, calls, s, i);
            && Inv(cap, calls, t, k)
            && (s.phases[i].Missed? ==> t.phases == s.phases[i := Fired])
            && (s.phases[i].Ready? && NoneStored(calls, s, k) ==> t.phases == s.phases[i := Missed] && NoneStored(calls, t, k))
  {
    LookupDecides(cap, calls, s, k, i);
    StepKeepsInv(cap, calls, s, k, i);
    if NoneStored(calls, s, k) {
      NewStores(cap, calls, s, k, i);
    }
    hide Inv, Close, Others, NoneStored, AfterGet, AfterSet, Fires;
  }

  /** An interleaving that alerts twice: both look the key up, then both store. */
  lemma {:induction false} InterleavedCallersBothFire<K>(cap: nat, calls: seq<Call<K>>, s: seq<Entry<K, int>>, a: nat, b: nat)
    requires OnlyCallers(calls, a, b)
    requires WellFormed(cap, s) && Absent(s, calls, calls[a].key) && Close(calls, calls[a].key)
    requires |Others(calls, calls[a].key)| < cap
    ensures var q := Run(cap, calls, Start(s, |calls|), [a, b, a, b]).phases; q[a].Fired? && q[b].Fired?
  {
    var k := calls[a].key;
    var s0 := Start(s, |calls|);
    var s1 := Step(cap, calls, s0, a);
    var s2 := Step(cap, calls, s1, b);
    var s3 := Step(cap, calls, s2, a);
    StartIsQuiet(cap, calls, s, k);
    FourTurns(cap, calls, s0, a, b);
    hide Run, Step, Inv, Close, Absent, Others, NoneStored;
    NextPhase(cap, calls, s0, k, a);
    NextPhase(cap, calls, s1, k, b);
    NextPhase(cap, calls, s2, k, a);
    NextPhase(cap, calls, s3, k, b);
  }

  lemma {:induction false} FourTurns<K>(cap: nat, calls: seq<Call<K>>, s: State<K>, a: nat, b: nat)
    ensures Run(cap, calls, s, [a, b, a, b]) == Step(cap, calls, Step(cap, calls, Step(cap, calls, Step(cap, calls, s, a), b), a), b)
  {
    hide Step;
    assert [a, b, a, b][..3] == [a, b, a] && [a, b, a][..2] == [a, b] && [a, b][..1] == [a];
    assert Run(cap, calls, s, [a]) == Step(cap, calls, s, a);
    assert Run(cap, calls, s, [a, b]) == Step(cap, calls, Run(cap, calls, s, [a]), b);
    assert Run(cap, calls, s, [a, b, a]) == Step(cap, calls, Run(cap, calls, s, [a, b]), a);
  }
}
