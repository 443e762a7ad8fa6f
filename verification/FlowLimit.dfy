/** The flow limit under concurrent writers (internal/aggregate/aggregate.go, lines 226-278): a check of an atomic
    counter and a later insertion into a concurrent map, interleaved in any order by any number of writers. */
module FlowLimit {
  /** A flow key; only equality matters here. */
  type Key = nat

  /** Where a writer stands inside Add. */
  datatype Writer =
    | Idle
    /** Load found nothing. */
    | Missed(key: Key)
    /** The count was below the limit. */
    | Passed(key: Key)
    /** LoadOrStore stored a new flow; the count is not yet incremented. */
    | Stored(key: Key)
    /** The writer has a flow state and will put its packet into it. */
    | Holding(key: Key)

  datatype State = State(
    flows: set<Key>,
    count: int,
    writers: seq<Writer>,
    started: multiset<Key>,
    absorbed: multiset<Key>,
    dropped: multiset<Key>)

  function Init(n: nat): State {
    State({}, 0, seq(n, _ => Idle), multiset{}, multiset{}, multiset{})
  }

  /** The next atomic operation of writer `i`. An idle writer begins to add a packet of flow `key`. */
  function Step(s: State, max: int, i: nat, key: Key): (t: State)
    ensures |t.writers| == |s.writers| && s.flows <= t.flows
  {
    if i >= |s.writers| then s
    else match s.writers[i]
         case Idle =>
           s.(writers := s.writers[i := if key in s.flows then Holding(key) else Missed(key)], started := s.started + multiset{key})
         case Missed(k) =>
           if s.count >= max then s.(writers := s.writers[i := Idle], dropped := s.dropped + multiset{k})
           else s.(writers := s.writers[i := Passed(k)])
         case Passed(k) =>
           if k in s.flows then s.(writers := s.writers[i := Holding(k)])
           else s.(flows := s.flows + {k}, writers := s.writers[i := Stored(k)])
         case Stored(k) =>
           s.(count := s.count + 1, writers := s.writers[i := Holding(k)])
         case Holding(k) =>
           s.(absorbed := s.absorbed + multiset{k}, writers := s.writers[i := Idle])
  }

  datatype Turn = Turn(writer: nat, key: Key)

  /** Any interleaving of the writers. */
  ghost function Run(s: State, max: int, turns: seq<Turn>): (t: State)
    ensures |t.writers| == |s.writers|
  {
    if turns == [] then s
    else var last := turns[|turns| - 1]; Step(Run(s, max, turns[..|turns| - 1]), max, last.writer, last.key)
  }

  lemma {:induction false} RunSnoc(s: State, max: int, turns: seq<Turn>, last: Turn)
    ensures Run(s, max, turns + [last]) == Step(Run(s, max, turns), max, last.writer, last.key)
  {
    hide Step;
    assert (turns + [last])[..|turns|] == turns;
  }

  // ----- tallies over the writers

  ghost function Passing(ws: seq<Writer>): nat {
    if ws == [] then 0 else (if ws[0].Passed? then 1 else 0) + Passing(ws[1..])
  }

  ghost function Pending(ws: seq<Writer>): nat {
    if ws == [] then 0 else (if ws[0].Stored? then 1 else 0) + Pending(ws[1..])
  }

  ghost function Carries(w: Writer, k: Key): nat {
    if !w.Idle? && w.key == k then 1 else 0
  }

  /** How many writers are working on a packet of flow `k`. */
  ghost function InFlight(ws: seq<Writer>, k: Key): nat {
    if ws == [] then 0 else Carries(ws[0], k) + InFlight(ws[1..], k)
  }

  lemma {:induction false} Tallies(ws: seq<Writer>, i: nat, w: Writer)
    requires i < |ws|
    ensures Passing(ws[i := w]) == Passing(ws) - (if ws[i].Passed? then 1 else 0) + (if w.Passed? then 1 else 0)
    ensures Pending(ws[i := w]) == Pending(ws) - (if ws[i].Stored? then 1 else 0) + (if w.Stored? then 1 else 0)
  {
    if i == 0 {
      assert ws[i := w][1..] == ws[1..];
    } else {
      assert ws[i := w][1..] == ws[1..][i - 1 := w];
      Tallies(ws[1..], i - 1, w);
    }
  }

  lemma {:induction false} InFlightTally(ws: seq<Writer>, i: nat, w: Writer, k: Key)
    requires i < |ws|
    ensures InFlight(ws[i := w], k) == InFlight(ws, k) - Carries(ws[i], k) + Carries(w, k)
  {
    hide Carries;
    if i == 0 {
      assert ws[i := w][1..] == ws[1..];
    } else {
      assert ws[i := w][1..] == ws[1..][i - 1 := w];
      InFlightTally(ws[1..], i - 1, w, k);
    }
  }

  lemma {:induction false} TalliesBounded(ws: seq<Writer>)
    ensures Passing(ws) + Pending(ws) <= |ws|
  {
    if ws != [] {
      TalliesBounded(ws[1..]);
    }
  }

  lemma {:induction false} AllIdle(ws: seq<Writer>, k: Key)
    requires forall i :: 0 <= i < |ws| ==> ws[i].Idle?
    ensures Passing(ws) == 0 && Pending(ws) == 0 && InFlight(ws, k) == 0
  {
    if ws != [] {
      AllIdle(ws[1..], k);
    }
  }

  // ----- safety

  /** The most flows that may ever be tracked: each writer but one can overrun the limit by one flow. */
  function Bound(max: int, writers: nat): nat {
    if max <= 0 then 0 else max + writers - 1
  }

  ghost predicate Limited(s: State, max: int) {
    && 0 <= s.count == |s.flows| - Pending(s.writers)
    && |s.flows| + Passing(s.writers) <= Bound(max, |s.writers|)
    && (s.dropped != multiset{} ==> |s.flows| >= max)
  }

  /** Every packet of flow `k` is absorbed, dropped or under way. */
  ghost predicate Conserved(s: State, k: Key) {
    s.started[k] == s.absorbed[k] + s.dropped[k] + InFlight(s.writers, k)
  }

  /** Whoever has a flow state has a tracked flow. */
  ghost predicate Known(s: State) {
    && (forall k :: k in s.absorbed ==> k in s.flows)
    && (forall i :: 0 <= i < |s.writers| && (s.writers[i].Stored? || s.writers[i].Holding?) ==> s.writers[i].key in s.flows)
  }

  ghost predicate Inv(s: State, max: int, k: Key) {
    Limited(s, max) && Conserved(s, k) && Known(s)
  }

  lemma {:induction false} StepKeepsKnown(s: State, max: int, i: nat, key: Key)
    requires Known(s)
    ensures Known(Step(s, max, i, key))
  {
  }

  lemma {:induction false} StepKeepsLimited(s: State, max: int, i: nat, key: Key)
    requires Limited(s, max)
    ensures Limited(Step(s, max, i, key), max)
  {
    hide Passing, Pending;
    if i < |s.writers| {
      var t := Step(s, max, i, key);
      Tallies(s.writers, i, t.writers[i]);
      TalliesBounded(t.writers);
      assert t.writers == s.writers[i := t.writers[i]];
    }
  }

  lemma {:induction false} StepKeepsConserved(s: State, max: int, i: nat, key: Key, k: Key)
    requires Conserved(s, k)
    ensures Conserved(Step(s, max, i, key), k)
  {
    hide InFlight;
    if i < |s.writers| {
      var t := Step(s, max, i, key);
      InFlightTally(s.writers, i, t.writers[i], k);
      assert t.writers == s.writers[i := t.writers[i]];
    }
  }

  lemma {:induction false} RunKeepsInv(n: nat, max: int, turns: seq<Turn>, k: Key)
    ensures Inv(Run(Init(n), max, turns), max, k)
  {
    hide Limited, Conserved, Known, Step;
    if turns == [] {
      InitInv(n, max, k);
    } else {
      var front, last := turns[..|turns| - 1], turns[|turns| - 1];
      var s := Run(Init(n), max, front);
      RunKeepsInv(n, max, front, k);
      StepKeepsLimited(s, max, last.writer, last.key);
      StepKeepsConserved(s, max, last.writer, last.key, k);
      StepKeepsKnown(s, max, last.writer, last.key);
    }
  }

  lemma {:induction false} InitInv(n: nat, max: int, k: Key)
    ensures Limited(Init(n), max) && Conserved(Init(n), k) && Known(Init(n))
  {
    AllIdle(Init(n).writers, k);
  }

  /** In every reachable state: at most max + writers - 1 flows, a count that lags the flows by exactly the writers
      that have stored but not yet counted, no drop while fewer than max flows are tracked, and every packet of
      every flow absorbed, dropped or under way. */
  lemma {:induction false} LimitHolds(n: nat, max: int, turns: seq<Turn>)
    ensures var t := Run(Init(n), max, turns);
            && |t.flows| <= Bound(max, n)
            && t.count == |t.flows| - Pending(t.writers)
            && (t.dropped != multiset{} ==> |t.flows| >= max)
            && (forall k :: k in t.absorbed ==> k in t.flows)
            && (forall k: Key :: t.started[k] == t.absorbed[k] + t.dropped[k] + InFlight(t.writers, k))
  {
    var t := Run(Init(n), max, turns);
    hide Run;
    forall k: Key
      ensures Inv(t, max, k)
    {
      RunKeepsInv(n, max, turns, k);
    }
    assert Inv(t, max, 0);
    forall k: Key
      ensures t.started[k] == t.absorbed[k] + t.dropped[k] + InFlight(t.writers, k)
    {
      assert Inv(t, max, k);
    }
  }

  /** When all writers are done, the count is the number of flows and no packet is unaccounted for. */
  lemma {:induction false} QuietIsExact(n: nat, max: int, turns: seq<Turn>)
    requires forall i :: 0 <= i < n ==> Run(Init(n), max, turns).writers[i].Idle?
    ensures var t := Run(Init(n), max, turns);
            t.count == |t.flows| && t.started == t.absorbed + t.dropped && |t.started| == |t.absorbed| + |t.dropped|
  {
    var t := Run(Init(n), max, turns);
    LimitHolds(n, max, turns);
    hide Run;
    forall k: Key
      ensures t.started[k] == (t.absorbed + t.dropped)[k]
    {
      AllIdle(t.writers, k);
    }
    AllIdle(t.writers, 0);
    assert t.started == t.absorbed + t.dropped;
  }

  // ----- one packet at a time

  /** A packet that no other writer disturbs: as in module Aggregator, it is absorbed if its flow is tracked or there
      is room, and dropped otherwise. */
  ghost function Alone(s: State, max: int, k: Key): State {
    if k in s.flows || |s.flows| < max then
      s.(flows := s.flows + {k}, count := if k in s.flows then s.count else s.count + 1,
         started := s.started + multiset{k}, absorbed := s.absorbed + multiset{k})
    else s.(started := s.started + multiset{k}, dropped := s.dropped + multiset{k})
  }

  lemma {:induction false} TwoSteps(s: State, max: int, i: nat, k: Key)
    requires i < |s.writers| && s.writers[i].Idle? && s.count == |s.flows| && (k in s.flows || |s.flows| >= max)
    ensures Step(Step(s, max, i, k), max, i, k) == Alone(s, max, k)
  {
    var t := Step(Step(s, max, i, k), max, i, k);
    assert t.writers == s.writers;
    assert k in s.flows ==> s.flows + {k} == s.flows;
  }

  lemma {:induction false} FiveSteps(s: State, max: int, i: nat, k: Key)
    requires i < |s.writers| && s.writers[i].Idle? && s.count == |s.flows| && k !in s.flows && |s.flows| < max
    ensures var s2 := Step(Step(s, max, i, k), max, i, k); Step(Step(Step(s2, max, i, k), max, i, k), max, i, k) == Alone(s, max, k)
  {
    var s2 := Step(Step(s, max, i, k), max, i, k);
    assert s2 == s.(writers := s.writers[i := Passed(k)], started := s.started + multiset{k});
    var s4 := Step(Step(s2, max, i, k), max, i, k);
    assert s4 == s2.(flows := s.flows + {k}, count := s.count + 1, writers := s.writers[i := Holding(k)]);
    assert s.writers[i := Idle] == s.writers;
  }

  /** The undisturbed Add takes two or five atomic operations. */
  lemma {:induction false} AddAlone(s: State, max: int, i: nat, k: Key) returns (turns: seq<Turn>)
    requires i < |s.writers| && s.writers[i].Idle? && s.count == |s.flows|
    ensures Run(s, max, turns) == Alone(s, max, k)
  {
    var turn := Turn(i, k);
    assert Run(s, max, []) == s;
    hide Run, Step, Alone;
    RunTwice(s, max, [], i, k);
    turns := [] + [turn] + [turn];
    if k in s.flows || |s.flows| >= max {
      TwoSteps(s, max, i, k);
    } else {
      FiveSteps(s, max, i, k);
      RunTwice(s, max, turns, i, k);
      RunSnoc(s, max, turns + [turn] + [turn], turn);
      turns := turns + [turn] + [turn] + [turn];
    }
  }

  // ----- the bound is attained

  /** `n` flows with the keys below `n`, all counted. */
  ghost predicate Filled(s: State, n: nat) {
    s.count == n && |s.flows| == n && (forall k :: k in s.flows ==> k < n)
  }

  /** The first `j` writers have passed the check, each with a new key; the others are idle. */
  ghost predicate Poised(s: State, n: nat, j: nat) {
    Filled(s, n) && forall i :: 0 <= i < |s.writers| ==> s.writers[i] == if i < j then Passed(n + i) else Idle
  }

  /** The first `j` of the poised writers have stored their flows. */
  ghost predicate Overrun(s: State, n: nat, j: nat) {
    && |s.flows| == n + j && (forall k :: k in s.flows ==> k < n + j)
    && forall i :: j <= i < |s.writers| ==> s.writers[i] == Passed(n + i)
  }

  /** One writer stores a flow, counts it and is done, in three steps after its check. */
  lemma {:induction false} FinishFlow(s: State, max: int, n: nat)
    requires 0 < |s.writers| && Poised(s, n, 1)
    ensures Poised(Step(Step(Step(s, max, 0, n), max, 0, n), max, 0, n), n + 1, 0)
  {
    var s1 := Step(s, max, 0, n);
    var s2 := Step(s1, max, 0, n);
    assert s1 == s.(flows := s.flows + {n}, writers := s.writers[0 := Stored(n)]);
    assert s2 == s1.(count := n + 1, writers := s1.writers[0 := Holding(n)]);
  }

  lemma {:induction false} OneMorePoised(s: State, max: int, n: nat, j: nat)
    requires n < max && j < |s.writers| && Poised(s, n, j)
    ensures Poised(Step(Step(s, max, j, n + j), max, j, n + j), n, j + 1)
  {
    var s1 := Step(s, max, j, n + j);
    assert s1 == s.(writers := s.writers[j := Missed(n + j)], started := s.started + multiset{n + j});
  }

  lemma {:induction false} OneMoreOverrun(s: State, max: int, n: nat, j: nat)
    requires j < |s.writers| && Overrun(s, n, j)
    ensures Overrun(Step(s, max, j, 0), n, j + 1)
  {
  }

  lemma {:induction false} RunTwice(s: State, max: int, turns: seq<Turn>, w: nat, k: Key)
    ensures Run(s, max, turns + [Turn(w, k)] + [Turn(w, k)]) == Step(Step(Run(s, max, turns), max, w, k), max, w, k)
  {
    hide Step, Run;
    RunSnoc(s, max, turns, Turn(w, k));
    RunSnoc(s, max, turns + [Turn(w, k)], Turn(w, k));
  }

  lemma {:induction false} OneMoreFlow(w: nat, max: int, n: nat, turns: seq<Turn>) returns (more: seq<Turn>)
    requires 0 < w && n < max && Poised(Run(Init(w), max, turns), n, 0)
    ensures Poised(Run(Init(w), max, more), n + 1, 0)
  {
    var turn, init := Turn(0, n), Init(w);
    hide Step, Run, Poised, Init;
    var two := turns + [turn] + [turn];
    var four := two + [turn] + [turn];
    RunTwice(init, max, turns, 0, n);
    RunTwice(init, max, two, 0, n);
    RunSnoc(init, max, four, turn);
    OneMorePoised(Run(init, max, turns), max, n, 0);
    FinishFlow(Run(init, max, two), max, n);
    more := four + [turn];
  }

  lemma {:induction false} FillUp(w: nat, max: int, n: nat) returns (turns: seq<Turn>)
    requires 0 < w && n <= max
    ensures Poised(Run(Init(w), max, turns), n, 0)
  {
    if n == 0 {
      turns := [];
    } else {
      hide Run, Poised;
      turns := FillUp(w, max, n - 1);
      turns := OneMoreFlow(w, max, n - 1, turns);
    }
  }

  lemma {:induction false} PassAll(w: nat, max: int, n: nat, j: nat) returns (turns: seq<Turn>)
    requires 0 < w && n < max && j <= w
    ensures Poised(Run(Init(w), max, turns), n, j)
  {
    hide Run, Poised, Step;
    if j == 0 {
      turns := FillUp(w, max, n);
    } else {
      turns := PassAll(w, max, n, j - 1);
      OneMorePoised(Run(Init(w), max, turns), max, n, j - 1);
      RunTwice(Init(w), max, turns, j - 1, n + j - 1);
      turns := turns + [Turn(j - 1, n + j - 1)] + [Turn(j - 1, n + j - 1)];
    }
  }

  lemma {:induction false} StoreAll(w: nat, max: int, n: nat, j: nat) returns (turns: seq<Turn>)
    requires 0 < w && n < max && j <= w
    ensures Overrun(Run(Init(w), max, turns), n, j)
  {
    if j == 0 {
      hide Run;
      turns := PassAll(w, max, n, w);
    } else {
      hide Run, Overrun, Step;
      turns := StoreAll(w, max, n, j - 1);
      OneMoreOverrun(Run(Init(w), max, turns), max, n, j - 1);
      RunSnoc(Init(w), max, turns, Turn(j - 1, 0));
      turns := turns + [Turn(j - 1, 0)];
    }
  }

  /** The bound is sharp: for every limit and every number of writers some interleaving reaches it. */
  lemma {:induction false} BoundIsAttained(w: nat, max: int) returns (turns: seq<Turn>)
    requires 0 < w && 0 < max
    ensures |Run(Init(w), max, turns).flows| == Bound(max, w)
  {
    hide Run;
    turns := StoreAll(w, max, max - 1, w);
  }

  // ----- dropped packets of tracked flows

  /** No flow has its packets both counted and dropped. */
  ghost predicate AllOrNothing(s: State) {
    forall k :: k in s.dropped ==> k !in s.flows
  }

  /** The next operation drops a packet whose flow is already tracked. */
  ghost predicate DropsTracked(s: State, max: int, turn: Turn) {
    exists k :: k in s.flows && Step(s, max, turn.writer, turn.key).dropped[k] > s.dropped[k]
  }

  ghost predicate AlwaysAllOrNothing(n: nat, max: int) {
    forall turns: seq<Turn> :: AllOrNothing(Run(Init(n), max, turns))
  }

  ghost predicate NeverDropsTracked(n: nat, max: int) {
    forall turns: seq<Turn>, turn: Turn :: !DropsTracked(Run(Init(n), max, turns), max, turn)
  }

  /** What holds with a single writer: nothing changes between its lookup, its check and its store. */
  ghost predicate Solo(s: State, max: int) {
    && |s.writers| <= 1 && AllOrNothing(s)
    && (s.dropped != multiset{} ==> |s.flows| >= max)
    && s.count == |s.flows| - (if |s.writers| == 1 && s.writers[0].Stored? then 1 else 0)
    && (|s.writers| == 1 && (s.writers[0].Missed? || s.writers[0].Passed?) ==> s.writers[0].key !in s.flows)
    && (|s.writers| == 1 && s.writers[0].Passed? ==> |s.flows| < max)
  }

  lemma {:induction false} StepKeepsSolo(s: State, max: int, i: nat, key: Key)
    requires Solo(s, max)
    ensures Solo(Step(s, max, i, key), max)
  {
  }

  lemma {:induction false} RunKeepsSolo(n: nat, max: int, turns: seq<Turn>)
    requires n <= 1
    ensures Solo(Run(Init(n), max, turns), max)
  {
    if turns != [] {
      hide Solo, Step;
      var front, last := turns[..|turns| - 1], turns[|turns| - 1];
      RunKeepsSolo(n, max, front);
      StepKeepsSolo(Run(Init(n), max, front), max, last.writer, last.key);
    }
  }

  lemma {:induction false} NoSharedKey(n: nat, max: int, turns: seq<Turn>)
    requires n <= 1 || max <= 0
    ensures AllOrNothing(Run(Init(n), max, turns))
  {
    hide Run;
    if n <= 1 {
      RunKeepsSolo(n, max, turns);
    } else {
      LimitHolds(n, max, turns);
    }
  }

  /** Another writer takes the last place for a flow between this writer's lookup of the flow and its check. */
  lemma {:induction false} LateCheck(s: State, max: int, k: Key)
    requires |s.writers| >= 2 && s.writers[0].Idle? && s.writers[1].Idle?
    requires s.count == max - 1 && k !in s.flows
    ensures var s1 := Step(s, max, 1, k);
            var s2 := Step(Step(s1, max, 0, k), max, 0, k);
            var s3 := Step(Step(s2, max, 0, k), max, 0, k);
            k in s3.flows && Step(s3, max, 1, k).dropped[k] > s3.dropped[k] && Step(s3, max, 1, k).flows == s3.flows
  {
    var s1 := Step(s, max, 1, k);
    assert s1 == s.(writers := s.writers[1 := Missed(k)], started := s.started + multiset{k});
    var s2 := Step(Step(s1, max, 0, k), max, 0, k);
    assert s2 == s1.(writers := s1.writers[0 := Passed(k)], started := s1.started + multiset{k});
    var s3 := Step(Step(s2, max, 0, k), max, 0, k);
    assert s3 == s2.(flows := s2.flows + {k}, count := max, writers := s2.writers[0 := Holding(k)]);
  }

  /** With two writers or more and any positive limit, some interleaving drops a packet of a flow that is tracked by
      then: its writer looked the flow up too early. */
  lemma {:induction false} DropOfTrackedFlow(n: nat, max: int) returns (turns: seq<Turn>, turn: Turn)
    requires n >= 2 && max > 0
    ensures DropsTracked(Run(Init(n), max, turns), max, turn)
    ensures !AllOrNothing(Run(Init(n), max, turns + [turn]))
  {
    hide Run, Step, Init;
    var k: Key, init := max, Init(n);
    var full := FillUp(n, max, max - 1);
    assert |Run(init, max, full).writers| == n by { SizeOfInit(n); }
    LateCheck(Run(init, max, full), max, k);
    turn := Turn(1, k);
    RunSnoc(init, max, full, turn);
    var two := full + [turn];
    RunTwice(init, max, two, 0, k);
    var four := two + [Turn(0, k)] + [Turn(0, k)];
    RunTwice(init, max, four, 0, k);
    turns := four + [Turn(0, k)] + [Turn(0, k)];
    RunSnoc(init, max, turns, turn);
  }

  lemma {:induction false} SizeOfInit(n: nat)
    ensures |Init(n).writers| == n
  {
  }

  /** Packets of tracked flows are always counted, and no flow has packets both counted and dropped, exactly if there is
      at most one writer or no room for any flow. */
  lemma {:induction false} TrackedFlowsAreCountedIff(n: nat, max: int)
    ensures AlwaysAllOrNothing(n, max) <==> n <= 1 || max <= 0
    ensures NeverDropsTracked(n, max) <==> n <= 1 || max <= 0
  {
    hide Run, Init;
    if n <= 1 || max <= 0 {
      forall turns: seq<Turn>
        ensures AllOrNothing(Run(Init(n), max, turns))
      {
        NoSharedKey(n, max, turns);
      }
      forall turns: seq<Turn>, turn: Turn
        ensures !DropsTracked(Run(Init(n), max, turns), max, turn)
      {
        NoSharedKey(n, max, turns + [turn]);
        RunSnoc(Init(n), max, turns, turn);
        DropShares(Run(Init(n), max, turns), max, turn);
      }
    } else {
      hide DropsTracked, AllOrNothing;
      var turns, turn := DropOfTrackedFlow(n, max);
    }
  }

  /** Flows stay tracked, so dropping a packet of a tracked flow leaves a flow both counted and dropped. */
  lemma {:induction false} DropShares(s: State, max: int, turn: Turn)
    ensures DropsTracked(s, max, turn) ==> !AllOrNothing(Step(s, max, turn.writer, turn.key))
  {
    hide Step;
    if DropsTracked(s, max, turn) {
      var k :| k in s.flows && Step(s, max, turn.writer, turn.key).dropped[k] > s.dropped[k];
    }
  }
}
