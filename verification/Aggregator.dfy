/** The flow table: which flows are tracked, which packets are dropped (internal/aggregate/aggregate.go, lines
    226-278, 349-363), one packet at a time. FlowLimit has the concurrent table. */
module Aggregator {
  import opened FlowStats
  import opened ObjectMaps
  import opened Sequences
  import opened Wrappers

  datatype Table = Table(flows: map<FlowKey, Stats>, dropped: nat)

  const EMPTY: Table := Table(map[], 0)

  function StatsOf(flows: map<FlowKey, Stats>, k: FlowKey): Stats {
    if k in flows then flows[k] else FRESH
  }

  function Added(t: Table, max: int, p: Packet): Table {
    if p.key in t.flows || |t.flows| < max then t.(flows := t.flows[p.key := Absorb(StatsOf(t.flows, p.key), p)])
    else t.(dropped := t.dropped + 1)
  }

  /** The table after a sequence of packets. */
  ghost function AddAll(ps: seq<Packet>, max: int): Table {
    if ps == [] then EMPTY else Added(AddAll(ps[..|ps| - 1], max), max, ps[|ps| - 1])
  }

  // ----- the aggregator object

  class Aggregator {
    const maxFlows: int
    var flows: map<FlowKey, FlowState>
    var flowCount: int
    var droppedFlows: nat
    var limitLogged: bool
    /** The flow objects and their values. */
    ghost var Repr: set<FlowState>
    ghost var values: map<FlowKey, Stats>

    ghost predicate Valid()
      reads this, Repr
    {
      && Shape(flows, values, Repr) && flowCount == |flows|
      && (forall k :: k in flows && flows[k] in Repr && k in values ==> flows[k].Value() == values[k])
    }

    ghost function Value(): Table
      reads this
    {
      Table(values, droppedFlows)
    }

    constructor (maxFlows: int)
      ensures Valid() && Value() == EMPTY && this.maxFlows == maxFlows && Repr == {}
    {
      this.maxFlows := maxFlows;
      flows, flowCount, droppedFlows, limitLogged, values := map[], 0, 0, false, map[];
      Repr := {};
    }

    /** Add. */
    method Add(pkt: Packet)
      requires Valid()
      modifies this, Repr
      ensures Valid() && fresh(Repr - old(Repr))
      ensures Value() == Added(old(Value()), maxFlows, pkt)
    {
      hide FlowState.Value, Absorb, Shape;
      ShapeFacts(flows, values, Repr);
      var known, fs := FlowFor(pkt.key);
      if known {
        Update(pkt, fs);
      }
    }

    /** The locked part of Add, on the flow that flowFor returned. */
    method Update(pkt: Packet, fs: FlowState)
      requires Valid() && pkt.key in flows && fs == flows[pkt.key] && pkt.key in values
      modifies `values, Repr
      ensures Valid()
      ensures values == old(values)[pkt.key := Absorb(old(values)[pkt.key], pkt)]
    {
      hide FlowState.Value, Absorb, Shape;
      ShapeFacts(flows, values, Repr);
      ShapeUpdate(flows, values, Repr, pkt.key, Absorb(values[pkt.key], pkt));
      fs.AddPacket(pkt);
      values := values[pkt.key := Absorb(values[pkt.key], pkt)];
    }

    /** flowFor: the flow's state, created below the limit; `known` is false where it returns nil. */
    method FlowFor(key: FlowKey) returns (known: bool, fs: FlowState)
      requires Valid()
      modifies this
      ensures Valid() && fresh(Repr - old(Repr))
      ensures known == (key in old(flows) || |old(flows)| < maxFlows)
      ensures known ==> key in flows && fs == flows[key] && values == old(values)[key := StatsOf(old(values), key)]
      ensures !known ==> values == old(values)
      ensures droppedFlows == old(droppedFlows) + if known then 0 else 1
    {
      hide FlowState.Value, Absorb, Shape;
      ShapeFacts(flows, values, Repr);
      if key in flows {
        return true, flows[key];
      }
      if flowCount >= maxFlows {
        droppedFlows := droppedFlows + 1;
        limitLogged := true;
        fs := new FlowState();
        return false, fs;
      }
      fs := Insert(key);
      known := true;
    }

    method Insert(key: FlowKey) returns (fs: FlowState)
      requires Valid() && key !in flows
      modifies `flows, `flowCount, `Repr, `values
      ensures Valid() && fresh(Repr - old(Repr))
      ensures key in flows && fs == flows[key] && values == old(values)[key := FRESH]
    {
      hide FlowState.Value, Absorb, Shape;
      fs := new FlowState();
      ShapeInsert(flows, values, Repr, key, fs, FRESH);
      flows := flows[key := fs];
      values := values[key := FRESH];
      Repr := Repr + {fs};
      flowCount := flowCount + 1;
    }
  }

  // ----- which flows are tracked

  /** The keys in the order of their first packets. */
  ghost function Keys(ps: seq<Packet>): seq<FlowKey> {
    if ps == [] then []
    else
      var before := Keys(ps[..|ps| - 1]);
      if ps[|ps| - 1].key in before then before else before + [ps[|ps| - 1].key]
  }

  ghost function Tracked(ps: seq<Packet>, max: int): seq<FlowKey> {
    var keys := Keys(ps);
    if max <= 0 then [] else if |keys| <= max then keys else keys[..max]
  }

  ghost predicate Distinct(keys: seq<FlowKey>) {
    forall i, j :: 0 <= i < j < |keys| ==> keys[i] != keys[j]
  }

  lemma {:induction false} KeysSnoc(ps: seq<Packet>, p: Packet)
    ensures Keys(ps + [p]) == if p.key in Keys(ps) then Keys(ps) else Keys(ps) + [p.key]
  {
    assert (ps + [p])[..|ps|] == ps;
  }

  lemma {:induction false} KeysAreDistinct(ps: seq<Packet>)
    ensures Distinct(Keys(ps))
  {
    if ps != [] {
      KeysAreDistinct(ps[..|ps| - 1]);
    }
  }

  /** The packets of one flow. */
  ghost function Of(k: FlowKey, ps: seq<Packet>): seq<Packet> {
    if ps == [] then [] else Of(k, ps[..|ps| - 1]) + if ps[|ps| - 1].key == k then [ps[|ps| - 1]] else []
  }

  lemma {:induction false} OfSnoc(k: FlowKey, ps: seq<Packet>, p: Packet)
    ensures Of(k, ps + [p]) == if p.key == k then Of(k, ps) + [p] else Of(k, ps)
  {
    assert (ps + [p])[..|ps|] == ps;
    assert Of(k, ps) + [] == Of(k, ps);
  }

  lemma {:induction false} KeysHave(ps: seq<Packet>, k: FlowKey)
    ensures k in Keys(ps) <==> Of(k, ps) != []
  {
    if ps != [] {
      var front, p := ps[..|ps| - 1], ps[|ps| - 1];
      assert ps == front + [p];
      KeysSnoc(front, p);
      OfSnoc(k, front, p);
      KeysHave(front, k);
      hide Keys, Of;
    }
  }

  /** How many packets belong to none of the given flows. */
  ghost function Outside(ps: seq<Packet>, keys: seq<FlowKey>): nat {
    if ps == [] then 0 else Outside(ps[..|ps| - 1], keys) + if ps[|ps| - 1].key in keys then 0 else 1
  }

  lemma {:induction false} OutsideSnoc(ps: seq<Packet>, p: Packet, keys: seq<FlowKey>)
    ensures Outside(ps + [p], keys) == Outside(ps, keys) + if p.key in keys then 0 else 1
  {
    assert (ps + [p])[..|ps|] == ps;
  }

  /** A flow without packets does not matter to the others. */
  lemma {:induction false} OutsideNewKey(ps: seq<Packet>, keys: seq<FlowKey>, k: FlowKey)
    requires Of(k, ps) == []
    ensures Outside(ps, keys + [k]) == Outside(ps, keys)
  {
    if ps != [] {
      OutsideNewKey(ps[..|ps| - 1], keys, k);
    }
  }

  ghost function SetOf(keys: seq<FlowKey>): set<FlowKey> {
    set k | k in keys
  }

  lemma {:induction false} SetOfDistinct(keys: seq<FlowKey>)
    requires Distinct(keys)
    ensures |SetOf(keys)| == |keys|
  {
    if keys != [] {
      var front, k := keys[..|keys| - 1], keys[|keys| - 1];
      SetOfDistinct(front);
      assert keys == front + [k];
      assert SetOf(keys) == SetOf(front) + {k};
      assert k !in SetOf(front);
    }
  }

  /** The table is exact: the tracked flows are the first `max` that occur, each holds the fold of all its packets,
      and the packets of the others are counted as dropped. */
  ghost predicate Exact(t: Table, ps: seq<Packet>, max: int) {
    && t.flows.Keys == SetOf(Tracked(ps, max))
    && (forall k :: k in t.flows ==> t.flows[k] == Fold(Of(k, ps)))
    && t.dropped == Outside(ps, Tracked(ps, max))
  }

  /** How the tracked flows change with one more packet. */
  lemma {:induction false} TrackedStep(ps: seq<Packet>, p: Packet, max: int)
    ensures var before, after := Tracked(ps, max), Tracked(ps + [p], max);
            && |SetOf(before)| == |before|
            && (p.key in before ==> after == before)
            && (p.key !in before && |before| >= max ==> after == before)
            && (p.key !in before && |before| < max ==> after == before + [p.key] && Of(p.key, ps) == [])
  {
    KeysSnoc(ps, p);
    KeysAreDistinct(ps);
    KeysHave(ps, p.key);
    hide Keys, Of, SetOf;
    SetOfDistinct(Tracked(ps, max));
  }

  lemma {:induction false} FoldOfStep(k: FlowKey, ps: seq<Packet>, p: Packet)
    ensures Fold(Of(k, ps + [p])) == if p.key == k then Absorb(Fold(Of(k, ps)), p) else Fold(Of(k, ps))
  {
    hide Fold, Absorb, Of;
    OfSnoc(k, ps, p);
    FoldSnoc(Of(k, ps), p);
  }

  lemma {:induction false} ExactStep(t: Table, ps: seq<Packet>, p: Packet, max: int)
    requires Exact(t, ps, max)
    ensures Exact(Added(t, max, p), ps + [p], max)
  {
    hide Fold, Absorb, Of, Tracked, Outside;
    var before := Tracked(ps, max);
    TrackedStep(ps, p, max);
    OutsideSnoc(ps, p, before);
    OutsideSnoc(ps, p, before + [p.key]);
    forall k: FlowKey
      ensures Fold(Of(k, ps + [p])) == if p.key == k then Absorb(Fold(Of(k, ps)), p) else Fold(Of(k, ps))
    {
      FoldOfStep(k, ps, p);
    }
    NothingFolded();
    if p.key !in before && |before| < max {
      OutsideNewKey(ps, before, p.key);
    }
  }

  lemma {:induction false} TableIsExact(ps: seq<Packet>, max: int)
    ensures Exact(AddAll(ps, max), ps, max)
  {
    hide Exact, Added;
    if ps == [] {
      NothingAdded(max);
    } else {
      var front, p := ps[..|ps| - 1], ps[|ps| - 1];
      TableIsExact(front, max);
      ExactStep(AddAll(front, max), front, p, max);
      assert ps == front + [p];
    }
  }

  lemma {:induction false} NothingAdded(max: int)
    ensures Exact(EMPTY, [], max)
  {
  }

  // ----- conservation

  /** The number of packets of the given flows. */
  ghost function Inside(keys: seq<FlowKey>, ps: seq<Packet>): nat {
    if keys == [] then 0 else |Of(keys[0], ps)| + Inside(keys[1..], ps)
  }

  lemma {:induction false} InsideSnoc(keys: seq<FlowKey>, ps: seq<Packet>, p: Packet)
    requires Distinct(keys)
    ensures Inside(keys, ps + [p]) == Inside(keys, ps) + if p.key in keys then 1 else 0
  {
    if keys != [] {
      hide Of;
      OfSnoc(keys[0], ps, p);
      InsideSnoc(keys[1..], ps, p);
      assert keys == [keys[0]] + keys[1..];
      assert keys[0] !in keys[1..];
    }
  }

  lemma {:induction false} InsideNothing(keys: seq<FlowKey>)
    ensures Inside(keys, []) == 0
  {
    if keys != [] {
      InsideNothing(keys[1..]);
    }
  }

  lemma {:induction false} InsideAndOutside(keys: seq<FlowKey>, ps: seq<Packet>)
    requires Distinct(keys)
    ensures Inside(keys, ps) + Outside(ps, keys) == |ps|
  {
    if ps == [] {
      InsideNothing(keys);
    } else {
      var front, p := ps[..|ps| - 1], ps[|ps| - 1];
      hide Inside;
      assert ps == front + [p];
      InsideSnoc(keys, front, p);
      InsideAndOutside(keys, front);
    }
  }

  /** Every packet is absorbed by exactly one tracked flow, or dropped. */
  lemma {:induction false} PacketsAreConserved(ps: seq<Packet>, max: int)
    ensures Inside(Tracked(ps, max), ps) + AddAll(ps, max).dropped == |ps|
  {
    hide Inside, Outside, Keys;
    TableIsExact(ps, max);
    KeysAreDistinct(ps);
    InsideAndOutside(Tracked(ps, max), ps);
  }

  // ----- below the limit

  /** Below the limit nothing is dropped and every flow has all of its packets. */
  lemma {:induction false} BelowTheLimit(ps: seq<Packet>, max: int, k: FlowKey)
    requires |Keys(ps)| <= max
    ensures AddAll(ps, max).dropped == 0
    ensures StatsOf(AddAll(ps, max).flows, k) == Fold(Of(k, ps))
    ensures k in AddAll(ps, max).flows <==> Of(k, ps) != []
  {
    hide Fold, Keys, AddAll, Of;
    NothingFolded();
    TableIsExact(ps, max);
    KeysHave(ps, k);
    NoneOutside(ps);
  }

  lemma {:induction false} NoneOutside(ps: seq<Packet>)
    ensures Outside(ps, Keys(ps)) == 0
  {
    if ps != [] {
      var front, p := ps[..|ps| - 1], ps[|ps| - 1];
      NoneOutside(front);
      assert ps == front + [p];
      KeysSnoc(front, p);
      OutsideSnoc(front, p, Keys(ps));
      if p.key !in Keys(front) {
        KeysHave(front, p.key);
        OutsideNewKey(front, Keys(front), p.key);
      }
      hide Outside, Keys;
    }
  }

  lemma {:induction false} OfMultiset(k: FlowKey, ps: seq<Packet>, p: Packet)
    ensures multiset(Of(k, ps))[p] == if p.key == k then multiset(ps)[p] else 0
  {
    if ps != [] {
      var front, last := ps[..|ps| - 1], ps[|ps| - 1];
      assert ps == front + [last];
      OfSnoc(k, front, last);
      OfMultiset(k, front, p);
      hide Of;
    }
  }

  lemma {:induction false} SamePacketsPerFlow(ps: seq<Packet>, qs: seq<Packet>, k: FlowKey)
    requires multiset(ps) == multiset(qs)
    ensures multiset(Of(k, ps)) == multiset(Of(k, qs))
  {
    hide Of;
    forall p: Packet
      ensures multiset(Of(k, ps))[p] == multiset(Of(k, qs))[p]
    {
      OfMultiset(k, ps, p);
      OfMultiset(k, qs, p);
    }
  }

  lemma {:induction false} FewerKeys(ps: seq<Packet>, qs: seq<Packet>)
    requires forall k :: k in Keys(ps) ==> k in Keys(qs)
    ensures |Keys(ps)| <= |Keys(qs)|
  {
    KeysAreDistinct(ps);
    KeysAreDistinct(qs);
    hide Keys;
    SetOfDistinct(Keys(ps));
    SetOfDistinct(Keys(qs));
    var a, b := SetOf(Keys(ps)), SetOf(Keys(qs));
    assert b == a + (b - a);
  }

  lemma {:induction false} PermutedKeys(ps: seq<Packet>, qs: seq<Packet>)
    requires multiset(ps) == multiset(qs)
    ensures |Keys(qs)| <= |Keys(ps)|
  {
    hide Keys, Of;
    forall k | k in Keys(qs)
      ensures k in Keys(ps)
    {
      SamePacketsPerFlow(ps, qs, k);
      KeysHave(ps, k);
      KeysHave(qs, k);
      assert |multiset(Of(k, ps))| == |Of(k, ps)| && |multiset(Of(k, qs))| == |Of(k, qs)|;
    }
    FewerKeys(qs, ps);
  }

  lemma {:induction false} RealKeys(ps: seq<Packet>)
    ensures |Keys(Real(ps))| <= |Keys(ps)|
  {
    hide Keys, Of, Real;
    forall k | k in Keys(Real(ps))
      ensures k in Keys(ps)
    {
      OfReal(k, ps);
      KeysHave(ps, k);
      KeysHave(Real(ps), k);
      NothingReal();
    }
    FewerKeys(Real(ps), ps);
  }

  lemma {:induction false} NothingReal()
    ensures Real([]) == []
  {
  }

  /** Below the limit, permuting all packets of a window leaves every flow's counts, last time, names, flags and DNS
      answers unchanged, and the same flows exist. */
  lemma {:induction false} PermutationIsInvisible(ps: seq<Packet>, qs: seq<Packet>, max: int, k: FlowKey)
    requires multiset(ps) == multiset(qs) && |Keys(ps)| <= max
    ensures CoreOf(StatsOf(AddAll(ps, max).flows, k)) == CoreOf(StatsOf(AddAll(qs, max).flows, k))
    ensures k in AddAll(ps, max).flows <==> k in AddAll(qs, max).flows
  {
    hide CoreOf, Fold, Of, AddAll, Keys;
    PermutedKeys(ps, qs);
    BelowTheLimit(ps, max, k);
    BelowTheLimit(qs, max, k);
    SamePacketsPerFlow(ps, qs, k);
    OrderIsIrrelevant(Of(k, ps), Of(k, qs));
    assert |multiset(Of(k, ps))| == |Of(k, ps)| && |multiset(Of(k, qs))| == |Of(k, qs)|;
  }

  lemma {:induction false} OfReal(k: FlowKey, ps: seq<Packet>)
    ensures Of(k, Real(ps)) == Real(Of(k, ps))
  {
    if ps != [] {
      hide Of, Real;
      var front, p := ps[..|ps| - 1], ps[|ps| - 1];
      OfReal(k, front);
      assert ps == front + [p];
      OfSnoc(k, front, p);
      OfSnoc(k, Real(front), p);
      RealSnoc(front, p);
      RealSnoc(Of(k, front), p);
    }
  }

  /** Below the limit, deleting the synthetic events leaves every flow's counts and timing unchanged. */
  lemma {:induction false} EnrichmentIsInvisible(ps: seq<Packet>, max: int, k: FlowKey)
    requires |Keys(ps)| <= max
    ensures StatsOf(AddAll(Real(ps), max).flows, k).counters == StatsOf(AddAll(ps, max).flows, k).counters
  {
    hide Fold, Of, Real, AddAll, Keys;
    RealKeys(ps);
    BelowTheLimit(ps, max, k);
    BelowTheLimit(Real(ps), max, k);
    OfReal(k, ps);
    EnrichmentIsNotCounted(Of(k, ps));
  }

  /** Whether a packet is synthetic matters to a flow's counters only where it decides about the place of the flow: with
      and without the synthetic events the counters agree exactly if the flow has no real packets, or has a place in both
      tables, or in neither. */
  lemma {:induction false} EnrichmentIsInvisibleIff(ps: seq<Packet>, max: int, k: FlowKey)
    ensures StatsOf(AddAll(Real(ps), max).flows, k).counters == StatsOf(AddAll(ps, max).flows, k).counters
       <==> (Real(Of(k, ps)) != [] ==> (k in Tracked(ps, max) <==> k in Tracked(Real(ps), max)))
  {
    CountersInTable(ps, max, k);
    CountersInTable(Real(ps), max, k);
    OfReal(k, ps);
    EnrichmentIsNotCounted(Of(k, ps));
    RealPacketsCount(Of(k, ps));
    hide *;
  }

  lemma {:induction false} CountersInTable(ps: seq<Packet>, max: int, k: FlowKey)
    ensures StatsOf(AddAll(ps, max).flows, k).counters
         == if k in Tracked(ps, max) then Fold(Of(k, ps)).counters else FRESH.counters
  {
    hide Fold, Of, AddAll, Tracked;
    TableIsExact(ps, max);
  }

  /** Real packets leave a trace in the counters, synthetic ones do not. */
  lemma {:induction false} RealPacketsCount(ps: seq<Packet>)
    ensures Fold(ps).counters == FRESH.counters <==> Real(ps) == []
  {
    hide Fold, Real;
    CountersAreExact(ps);
    EnrichmentIsNotCounted(ps);
    NothingFolded();
  }

  /** The i-th of many flows: one for every pair of ports. */
  function PortPair(i: nat): FlowKey {
    FlowKey("10.0.0.1", "10.0.0.2", i % 65536, i / 65536, "TCP", "eth0")
  }

  function PacketAt(i: nat, synthetic: bool): Packet {
    Packet(PortPair(i), 60, 1 + i, synthetic, "", "", "", "", "", Flags(false, false, false, false, false), false, 0, false,
           Http("", "", "", ""), None)
  }

  /** One synthetic event, then n real packets, all of different flows. */
  ghost function Crowd(n: nat): (ps: seq<Packet>)
    ensures |ps| == n + 1 && forall i :: 0 <= i <= n ==> ps[i] == PacketAt(i, i == 0)
  {
    if n == 0 then [PacketAt(0, true)] else Crowd(n - 1) + [PacketAt(n, false)]
  }

  ghost function KeySeq(ps: seq<Packet>): (keys: seq<FlowKey>)
    ensures |keys| == |ps| && forall i :: 0 <= i < |ps| ==> keys[i] == ps[i].key
  {
    seq(|ps|, i requires 0 <= i < |ps| => ps[i].key)
  }

  lemma {:induction false} KeysOfDistinct(ps: seq<Packet>)
    requires Distinct(KeySeq(ps))
    ensures Keys(ps) == KeySeq(ps)
  {
    if ps != [] {
      var front, p := ps[..|ps| - 1], ps[|ps| - 1];
      assert KeySeq(ps) == KeySeq(front) + [p.key];
      assert forall i :: 0 <= i < |front| ==> KeySeq(front)[i] == KeySeq(ps)[i];
      KeysOfDistinct(front);
      assert p.key !in KeySeq(front);
    }
  }

  lemma {:induction false} RealCrowd(n: nat)
    ensures Real(Crowd(n)) == Crowd(n)[1..]
  {
    if n == 0 {
      assert Crowd(0) == [] + [PacketAt(0, true)];
      RealSnoc([], PacketAt(0, true));
      NothingReal();
    } else {
      RealCrowd(n - 1);
      RealSnoc(Crowd(n - 1), PacketAt(n, false));
      hide Real;
      assert Crowd(n)[1..] == Crowd(n - 1)[1..] + [PacketAt(n, false)];
    }
  }

  lemma {:induction false} CrowdIsDistinct(n: nat)
    ensures Keys(Crowd(n)) == KeySeq(Crowd(n)) && Keys(Crowd(n)[1..]) == KeySeq(Crowd(n))[1..]
  {
    hide Keys;
    forall i, j | 0 <= i < j <= n
      ensures PortPair(i) != PortPair(j)
    {
      assert i == 65536 * (i / 65536) + i % 65536 && j == 65536 * (j / 65536) + j % 65536;
    }
    KeysOfDistinct(Crowd(n));
    KeysOfDistinct(Crowd(n)[1..]);
    assert KeySeq(Crowd(n)[1..]) == KeySeq(Crowd(n))[1..];
  }

  /** At the limit, whatever it is, a synthetic event can use up the last place: a flow is then dropped that has its
      place and its packet counted without the event. */
  lemma {:induction false} EnrichmentCanDisplaceAFlow(max: nat)
    requires max > 0
    ensures var ps, k := Crowd(max), PortPair(max);
            && |Real(ps)| == max && k in AddAll(Real(ps), max).flows && k !in AddAll(ps, max).flows
            && StatsOf(AddAll(Real(ps), max).flows, k).counters != StatsOf(AddAll(ps, max).flows, k).counters
  {
    var ps, k := Crowd(max), PortPair(max);
    RealCrowd(max);
    CrowdIsDistinct(max);
    TableIsExact(ps, max);
    TableIsExact(Real(ps), max);
    EnrichmentIsInvisibleIff(ps, max, k);
    RealOfLast(ps, k);
    LastOfCrowd(max);
    hide Fold, Of, AddAll, Keys, Real, Crowd, Added, StatsOf;
    assert KeySeq(ps)[max] == k && KeySeq(ps)[1..][max - 1] == k;
  }

  lemma {:induction false} LastOfCrowd(n: nat)
    requires n > 0
    ensures Crowd(n)[n] == PacketAt(n, false) && Distinct(KeySeq(Crowd(n)))
  {
    KeysAreDistinct(Crowd(n));
    CrowdIsDistinct(n);
  }

  /** A flow with a real packet at the end has a real packet. */
  lemma {:induction false} RealOfLast(ps: seq<Packet>, k: FlowKey)
    ensures ps != [] && ps[|ps| - 1].key == k && !ps[|ps| - 1].enrichmentOnly ==> Real(Of(k, ps)) != []
  {
    hide Of, Real;
    if ps != [] {
      var front, p := ps[..|ps| - 1], ps[|ps| - 1];
      assert ps == front + [p];
      OfSnoc(k, front, p);
      RealSnoc(Of(k, front), p);
    }
  }

  // ----- the first time of a flow

  /** firstSeen of a flow in the table. */
  ghost function FirstSeen(ps: seq<Packet>, max: int, k: FlowKey): nat {
    StatsOf(AddAll(ps, max).flows, k).counters.firstSeen
  }

  /** The times of a flow's real packets, in the order of their arrival. */
  ghost function RealTimes(ps: seq<Packet>, k: FlowKey): seq<nat> {
    Times(Real(Of(k, ps)))
  }

  lemma {:induction false} FirstSeenInTable(ps: seq<Packet>, max: int, k: FlowKey)
    requires |Keys(ps)| <= max
    ensures FirstSeen(ps, max, k) == FirstTime(RealTimes(ps, k))
  {
    hide Fold, Of, AddAll, Keys, Real, FirstTime, StatsOf;
    BelowTheLimit(ps, max, k);
    FirstSeenIsFirstTime(Of(k, ps));
  }

  lemma {:induction false} RealMultiset(ps: seq<Packet>, p: Packet)
    ensures multiset(Real(ps))[p] == if p.enrichmentOnly then 0 else multiset(ps)[p]
  {
    if ps != [] {
      var front, last := ps[..|ps| - 1], ps[|ps| - 1];
      assert ps == front + [last];
      RealSnoc(front, last);
      RealMultiset(front, p);
      hide Real;
    }
  }

  lemma {:induction false} SameTimesOfSamePackets(ps: seq<Packet>, qs: seq<Packet>)
    requires multiset(ps) == multiset(qs)
    ensures multiset(Times(ps)) == multiset(Times(qs))
    decreases |ps|
  {
    hide Times;
    assert |multiset(ps)| == |ps| && |multiset(qs)| == |qs|;
    if ps == [] {
      assert ps == qs;
    } else {
      var front, p := ps[..|ps| - 1], ps[|ps| - 1];
      assert ps == front + [p];
      var x, y := TakeOut(qs, p);
      SameTimesOfSamePackets(front, x + y);
      TimesSnoc(front, p);
      TimesOfParts(x, p, y);
    }
  }

  lemma {:induction false} TimesOfParts(x: seq<Packet>, p: Packet, y: seq<Packet>)
    ensures multiset(Times(x + [p] + y)) == multiset(Times(x + y)) + multiset{p.timestamp}
  {
    assert Times(x + [p] + y) == Times(x) + [p.timestamp] + Times(y);
    assert Times(x + y) == Times(x) + Times(y);
  }

  /** Permuting the packets of a window permutes the times of every flow. */
  lemma {:induction false} PermutedTimes(ps: seq<Packet>, qs: seq<Packet>, k: FlowKey)
    requires multiset(ps) == multiset(qs)
    ensures multiset(RealTimes(ps, k)) == multiset(RealTimes(qs, k))
  {
    hide Of, Real, Times;
    SamePacketsPerFlow(ps, qs, k);
    forall p: Packet
      ensures multiset(Real(Of(k, ps)))[p] == multiset(Real(Of(k, qs)))[p]
    {
      RealMultiset(Of(k, ps), p);
      RealMultiset(Of(k, qs), p);
    }
    SameTimesOfSamePackets(Real(Of(k, ps)), Real(Of(k, qs)));
  }

  /** A packet of the flow can be made the last one of the window. */
  lemma {:induction false} PutPacketLast(ps: seq<Packet>, k: FlowKey, t: nat) returns (qs: seq<Packet>)
    requires t in RealTimes(ps, k)
    ensures multiset(qs) == multiset(ps)
    ensures RealTimes(qs, k) != [] && RealTimes(qs, k)[|RealTimes(qs, k)| - 1] == t
  {
    hide RealTimes;
    var p := PacketOf(ps, k, t);
    var x, y := TakeOut(ps, p);
    qs := x + y + [p];
    LastTime(x + y, k, p);
  }

  lemma {:induction false} PacketOf(ps: seq<Packet>, k: FlowKey, t: nat) returns (p: Packet)
    requires t in RealTimes(ps, k)
    ensures p in multiset(ps) && p.key == k && !p.enrichmentOnly && p.timestamp == t
  {
    hide Of, Real;
    var i :| 0 <= i < |RealTimes(ps, k)| && RealTimes(ps, k)[i] == t;
    p := Real(Of(k, ps))[i];
    assert p in multiset(Real(Of(k, ps)));
    RealMultiset(Of(k, ps), p);
    OfMultiset(k, ps, p);
  }

  lemma {:induction false} LastTime(ps: seq<Packet>, k: FlowKey, p: Packet)
    requires p.key == k && !p.enrichmentOnly
    ensures RealTimes(ps + [p], k) == RealTimes(ps, k) + [p.timestamp]
  {
    hide Of, Real, Times;
    OfSnoc(k, ps, p);
    RealSnoc(Of(k, ps), p);
    TimesSnoc(Real(Of(k, ps)), p);
  }

  ghost predicate FirstSeenIsStable(ps: seq<Packet>, max: int, k: FlowKey) {
    forall qs: seq<Packet> :: multiset(qs) == multiset(ps) ==> FirstSeen(qs, max, k) == FirstSeen(ps, max, k)
  }

  /** Below the limit, firstSeen of a flow is the same for every order of the packets of the window exactly if none of the
      flow's real packets has the zero time, or all have it. */
  lemma {:induction false} FirstSeenIsStableIff(ps: seq<Packet>, max: int, k: FlowKey)
    requires |Keys(ps)| <= max
    ensures FirstSeenIsStable(ps, max, k) <==> 0 !in RealTimes(ps, k) || AllZero(RealTimes(ps, k))
  {
    hide Keys, FirstSeen, RealTimes, FirstTime;
    var ts := RealTimes(ps, k);
    FirstSeenInTable(ps, max, k);
    if 0 !in ts || AllZero(ts) {
      forall qs: seq<Packet> | multiset(qs) == multiset(ps)
        ensures FirstSeen(qs, max, k) == FirstSeen(ps, max, k)
      {
        PermutedKeys(ps, qs);
        FirstSeenInTable(qs, max, k);
        PermutedTimes(ps, qs, k);
        SameTimes(RealTimes(qs, k), ts);
      }
    } else {
      var i :| 0 <= i < |ts| && ts[i] != 0;
      var qs := FirstSeenAfter(ps, max, k, 0);
      var rs := FirstSeenAfter(ps, max, k, ts[i]);
      assert FirstSeen(qs, max, k) != FirstSeen(rs, max, k);
    }
  }

  /** In some order firstSeen is zero, in some order it is not: the time of the last packet decides. */
  lemma {:induction false} FirstSeenAfter(ps: seq<Packet>, max: int, k: FlowKey, t: nat) returns (qs: seq<Packet>)
    requires |Keys(ps)| <= max && t in RealTimes(ps, k)
    ensures multiset(qs) == multiset(ps) && (FirstSeen(qs, max, k) == 0 <==> t == 0)
  {
    hide Keys, FirstSeen, RealTimes, FirstTime;
    qs := PutPacketLast(ps, k, t);
    PermutedKeys(ps, qs);
    FirstSeenInTable(qs, max, k);
    var us := RealTimes(qs, k);
    assert us == us[..|us| - 1] + [t];
    FirstTimeAtEnd(us[..|us| - 1], t);
  }
}
