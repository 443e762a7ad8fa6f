/** The baseline database: keys, byte statistics per key, destinations per process
    (internal/baseline/baseline.go, lines 63-80, 98-147, 158-219, 245-270). Folding a process name to lower case is
    the parameter `lower`. */
module Baseline {
  import opened Sequences
  import opened Wire
  import opened Decimal
  import opened ObjectMaps
  import opened Welford

  const MAX_DESTS: nat := 2000
  const MIN_DEST_OBS: nat := 5

  // ----- keys

  ghost function Reversed(s: string): (r: string)
    ensures |r| == |s|
  {
    if s == "" then "" else Reversed(s[1..]) + [s[0]]
  }

  lemma {:induction false} ReversedAt(s: string, k: nat)
    requires k < |s|
    ensures Reversed(s)[k] == s[|s| - 1 - k]
  {
    if k < |s| - 1 {
      ReversedAt(s[1..], k);
    }
  }

  lemma {:induction false} ReversedSnoc(s: string, c: char)
    ensures Reversed(s + [c]) == [c] + Reversed(s)
  {
    if s != "" {
      assert (s + [c])[1..] == s[1..] + [c];
      ReversedSnoc(s[1..], c);
    } else {
      assert (s + [c])[1..] == "";
    }
  }

  /** The swap loop of portStr. */
  method ReversePrefix(b: array<char>, n: nat)
    requires n <= b.Length
    modifies b
    ensures b[..n] == Reversed(old(b[..n]))
  {
    ghost var was := b[..n];
    var i, j := 0, n - 1;
    while i < j
      invariant 0 <= i <= n && j == n - 1 - i && i <= j + 2
      invariant forall k :: 0 <= k < i && k < n ==> b[k] == was[n - 1 - k] && b[n - 1 - k] == was[k]
      invariant forall k :: i <= k < n - i ==> b[k] == was[k]
    {
      b[i], b[j] := b[j], b[i];
      i, j := i + 1, j - 1;
    }
    forall k | 0 <= k < n
      ensures b[k] == Reversed(was)[k]
    {
      ReversedAt(was, k);
    }
  }

  /** The decimal numeral of a port whose higher digits are still to be written. */
  function Rest(n: nat): string {
    if n == 0 then "" else Itoa(n)
  }

  lemma {:induction false} RestStep(n: nat)
    requires n > 0
    ensures Rest(n) == Rest(n / 10) + [Digit(n % 10)]
  {
  }

  /** portStr: the digits from the last to the first in a buffer of five, then turned around. */
  method PortStr(p: Word) returns (s: string)
    ensures s == Itoa(p)
  {
    hide Itoa, Digit;
    var b := new char[5](_ => '0');
    var n := 0;
    if p == 0 {
      s := Itoa(0);
      return;
    }
    var tmp: nat := p;
    assert Rest(p) == Rest(tmp) + Reversed("");
    while tmp > 0
      invariant n <= 5
      invariant n == 0 ==> tmp <= 65535
      invariant n == 1 ==> tmp <= 6553
      invariant n == 2 ==> tmp <= 655
      invariant n == 3 ==> tmp <= 65
      invariant n == 4 ==> tmp <= 6
      invariant n == 5 ==> tmp == 0
      invariant Rest(p) == Rest(tmp) + Reversed(b[..n])
    {
      RestStep(tmp);
      ReversedSnoc(b[..n], Digit(tmp % 10));
      Regroup(Rest(tmp / 10), [Digit(tmp % 10)], Reversed(b[..n]));
      ghost var before := b[..n];
      b[n] := Digit(tmp % 10);
      assert b[..n + 1] == before + [Digit(tmp % 10)];
      n := n + 1;
      tmp := tmp / 10;
    }
    assert "" + Reversed(b[..n]) == Reversed(b[..n]);
    ReversePrefix(b, n);
    s := b[..n];
  }

  function KeyFor(lower: string -> string, name: string, port: Word): string {
    lower(name) + ":" + Itoa(port)
  }

  method MakeKey(lower: string -> string, name: string, port: Word) returns (key: string)
    ensures key == KeyFor(lower, name, port)
  {
    var digits := PortStr(port);
    key := lower(name) + ":" + digits;
  }

  /** Two keys are equal only for the same folded name and the same port, even if names contain colons. */
  lemma {:induction false} KeysAreInjective(lower: string -> string, a: string, p: Word, b: string, q: Word)
    requires KeyFor(lower, a, p) == KeyFor(lower, b, q)
    ensures lower(a) == lower(b) && p == q
  {
    hide Itoa;
    ItoaDigits(p);
    ItoaDigits(q);
    SplitAtLast(lower(a), Itoa(p), lower(b), Itoa(q), ':');
    ItoaInjective(p, q);
  }

  // ----- destinations

  datatype Dests = Dests(seen: set<string>, count: nat)

  const NO_DESTS: Dests := Dests({}, 0)

  function Visited(d: Dests, ip: string): Dests {
    Dests(if ip !in d.seen && |d.seen| < MAX_DESTS then d.seen + {ip} else d.seen, d.count + 1)
  }

  /** A process after contacting these destinations. */
  ghost function VisitAll(ips: seq<string>): Dests {
    if ips == [] then NO_DESTS else Visited(VisitAll(ips[..|ips| - 1]), ips[|ips| - 1])
  }

  ghost function SetOf(ips: seq<string>): set<string> {
    set ip | ip in ips
  }

  /** What precedes the first occurrence of `ip`. */
  ghost function Before(ips: seq<string>, ip: string): (p: seq<string>)
    ensures p <= ips && ip !in p
  {
    if ips == [] || ips[0] == ip then []
    else
      var p := Before(ips[1..], ip);
      assert [ips[0]] + p <= ips;
      [ips[0]] + p
  }

  lemma {:induction false} BeforeSnoc(ips: seq<string>, x: string, ip: string)
    ensures Before(ips + [x], ip) == if ip in ips || ip == x then Before(ips, ip) else Before(ips, ip) + [x]
    ensures ip !in ips ==> Before(ips, ip) == ips
  {
    if ips == [] {
      assert ([] + [x])[1..] == [];
    } else {
      assert (ips + [x])[1..] == ips[1..] + [x];
      BeforeSnoc(ips[1..], x, ip);
    }
  }

  lemma {:induction false} SetSnoc(ips: seq<string>, x: string)
    ensures SetOf(ips + [x]) == SetOf(ips) + {x}
  {
  }

  lemma {:induction false} SetGrows(a: seq<string>, b: seq<string>)
    requires a <= b
    ensures |SetOf(a)| <= |SetOf(b)|
  {
    assert forall ip :: ip in a ==> ip in b;
    assert SetOf(b) == SetOf(a) + (SetOf(b) - SetOf(a));
  }

  function Least(a: nat, b: nat): nat {
    if a < b then a else b
  }

  /** `ip` was among the first 2000 different destinations. */
  ghost predicate Early(ips: seq<string>, ip: string) {
    ip in ips && |SetOf(Before(ips, ip))| < MAX_DESTS
  }

  /** The remembered destinations are exactly the early ones. */
  ghost predicate Remembers(d: Dests, ips: seq<string>) {
    && d.count == |ips|
    && (forall ip :: ip in d.seen <==> Early(ips, ip))
    && |d.seen| == Least(|SetOf(ips)|, MAX_DESTS)
  }

  lemma {:induction false} EarlySnoc(ips: seq<string>, x: string, ip: string)
    ensures Early(ips + [x], ip) <==> Early(ips, ip) || (ip == x && x !in ips && |SetOf(ips)| < MAX_DESTS)
  {
    hide SetOf, Before;
    BeforeSnoc(ips, x, ip);
    var all := ips + [x];
    assert ip in all <==> ip in ips || ip == x;
  }

  lemma {:induction false} NotEarly(ips: seq<string>, ip: string)
    requires ip in ips && !Early(ips, ip)
    ensures |SetOf(ips)| >= MAX_DESTS
  {
    hide SetOf, Before;
    SetGrows(Before(ips, ip), ips);
  }

  lemma {:induction false} SetSizeSnoc(ips: seq<string>, x: string)
    ensures |SetOf(ips + [x])| == |SetOf(ips)| + if x in ips then 0 else 1
  {
    SetSnoc(ips, x);
    if x in ips {
      assert SetOf(ips) + {x} == SetOf(ips);
    }
  }

  lemma {:induction false} VisitStep(d: Dests, ips: seq<string>, x: string)
    requires Remembers(d, ips)
    ensures Remembers(Visited(d, x), ips + [x])
  {
    hide SetOf, Early;
    SetSizeSnoc(ips, x);
    forall ip
      ensures Early(ips + [x], ip) <==> Early(ips, ip) || (ip == x && x !in ips && |SetOf(ips)| < MAX_DESTS)
    {
      EarlySnoc(ips, x, ip);
    }
    EarlyOccurs(ips, x);
    if x in ips && !Early(ips, x) {
      NotEarly(ips, x);
    }
  }

  lemma {:induction false} EarlyOccurs(ips: seq<string>, ip: string)
    ensures Early(ips, ip) ==> ip in ips
  {
  }

  lemma {:induction false} VisitsAreRemembered(ips: seq<string>)
    ensures Remembers(VisitAll(ips), ips)
  {
    hide Remembers, Visited, SetOf, Early;
    if ips == [] {
      NothingRemembered();
    } else {
      var front, x := ips[..|ips| - 1], ips[|ips| - 1];
      assert VisitAll(ips) == Visited(VisitAll(front), x) && ips == front + [x];
      VisitsAreRemembered(front);
      hide VisitAll;
      VisitStep(VisitAll(front), front, x);
    }
  }

  lemma {:induction false} NothingRemembered()
    ensures Remembers(NO_DESTS, [])
  {
    assert SetOf([]) == {};
  }

  /** The verdict of IsNewDestination for a process that has contacted `ips`. */
  function NewDest(d: Dests, ip: string): (bool, bool) {
    if d.count < MIN_DEST_OBS then (false, false) else (ip !in d.seen, true)
  }

  /** After five contacts the verdict is "new" exactly for a destination that never occurred, or first occurred after
      2000 different ones; the latter stays new however often it is contacted. */
  lemma {:induction false} NewIsExact(ips: seq<string>, ip: string)
    ensures NewDest(VisitAll(ips), ip).1 <==> |ips| >= 5
    ensures NewDest(VisitAll(ips), ip).0 <==> |ips| >= 5 && (ip !in ips || |SetOf(Before(ips, ip))| >= 2000)
  {
    hide VisitAll, Before, SetOf;
    VisitsAreRemembered(ips);
  }

  /** With at most 2000 different destinations the verdict is right. */
  lemma {:induction false} NewIsRight(ips: seq<string>, ip: string)
    requires |SetOf(ips)| <= 2000 && |ips| >= 5
    ensures NewDest(VisitAll(ips), ip).1 && (NewDest(VisitAll(ips), ip).0 <==> ip !in ips)
  {
    hide VisitAll, Before;
    NewIsExact(ips, ip);
    if ip in ips {
      var p := Before(ips, ip);
      assert SetOf(p) + {ip} <= SetOf(ips);
      assert SetOf(ips) == SetOf(p) + {ip} + (SetOf(ips) - SetOf(p) - {ip});
    }
  }

  // ----- the store

  /** The value of an entry: its statistics and when it was last observed; 0 is the zero time. */
  datatype Seen = Seen(stats: Stats, lastSeen: int)

  const UNSEEN: Seen := Seen(NOTHING, 0)

  ghost function SeenOf(e: Entry): Seen
    reads e
  {
    Seen(e.Value(), e.lastSeen)
  }

  lemma {:induction false} Unseen(e: Entry)
    requires e.Value() == NOTHING && e.lastSeen == 0
    ensures SeenOf(e) == UNSEEN
  {
  }

  method Stamp(e: Entry, x: real, now: int)
    modifies e
    ensures SeenOf(e) == Seen(Observed(old(SeenOf(e)).stats, x), now)
  {
    hide Observed;
    e.Observe(x);
    e.lastSeen := now;
  }

  function StatsOf(values: map<string, Seen>, key: string): Stats {
    if key in values then values[key].stats else NOTHING
  }

  function DestsOf(dests: map<string, Dests>, name: string): Dests {
    if name in dests then dests[name] else NO_DESTS
  }

  class Store {
    const lower: string -> string
    var entries: map<string, Entry>
    var dests: map<string, Dests>
    ghost var Repr: set<Entry>
    /** The values of the entry objects. */
    ghost var values: map<string, Seen>

    ghost predicate Valid()
      reads this, Repr
    {
      && Shape(entries, values, Repr)
      && (forall k :: k in entries && entries[k] in Repr && k in values ==> SeenOf(entries[k]) == values[k])
    }

    constructor (lower: string -> string)
      ensures Valid() && values == map[] && dests == map[] && this.lower == lower && Repr == {}
    {
      this.lower := lower;
      entries, dests, Repr, values := map[], map[], {}, map[];
    }

    /** Observe. */
    method Observe(name: string, port: Word, bytes: real, now: int)
      requires Valid()
      modifies this, Repr
      ensures Valid() && fresh(Repr - old(Repr)) && dests == old(dests)
      ensures var key := KeyFor(lower, name, port);
              values == if name == "" then old(values) else old(values)[key := Seen(Observed(StatsOf(old(values), key), bytes), now)]
    {
      hide SeenOf, Observed, Shape, KeyFor;
      if name == "" {
        return;
      }
      ShapeFacts(entries, values, Repr);
      var key := MakeKey(lower, name, port);
      if key !in entries {
        Insert(key);
      }
      Update(key, bytes, now);
    }

    method Insert(key: string)
      requires Valid() && key !in entries
      modifies `entries, `Repr, `values
      ensures Valid() && fresh(Repr - old(Repr)) && key in entries && values == old(values)[key := UNSEEN]
    {
      hide SeenOf, Shape;
      var e := new Entry();
      assert SeenOf(e) == UNSEEN by { Unseen(e); }
      ShapeInsert(entries, values, Repr, key, e, UNSEEN);
      entries := entries[key := e];
      values := values[key := UNSEEN];
      Repr := Repr + {e};
    }

    method Update(key: string, x: real, now: int)
      requires Valid() && key in entries
      modifies `values, Repr
      ensures Valid() && values == old(values)[key := Seen(Observed(StatsOf(old(values), key), x), now)]
    {
      hide SeenOf, Observed, Shape;
      var e := entries[key];
      ShapeUpdate(entries, values, Repr, key, Seen(Observed(StatsOf(values, key), x), now));
      ShapeFacts(entries, values, Repr);
      Stamp(e, x, now);
      values := values[key := Seen(Observed(StatsOf(values, key), x), now)];
    }

    /** AnomalyMultiplier; the square root is a parameter. */
    method AnomalyMultiplier(name: string, port: Word, bytes: real, sqrt: real -> real) returns (m: real)
      requires Valid()
      ensures m == if name == "" then 1.0 else Multiplier(StatsOf(values, KeyFor(lower, name, port)), sqrt, bytes)
    {
      hide Shape, KeyFor, StdDev, ZScore;
      if name == "" {
        return 1.0;
      }
      ShapeFacts(entries, values, Repr);
      var key := MakeKey(lower, name, port);
      if key !in entries || entries[key].n < MIN_OBSERVATIONS {
        return 1.0;
      }
      var e := entries[key];
      assert SeenOf(e) == values[key];
      var z := e.ZScoreOf(bytes, sqrt);
      if z < 0.0 {
        z := -z;
      }
      m := if z >= 3.0 then 1.8 else if z >= 2.0 then 1.3 else if z >= 1.0 then 1.0 else 0.7;
    }

    /** ObserveDest. */
    method ObserveDest(name: string, ip: string)
      modifies `dests
      ensures dests == if name == "" || ip == "" then old(dests)
                       else old(dests)[lower(name) := Visited(DestsOf(old(dests), lower(name)), ip)]
    {
      if name == "" || ip == "" {
        return;
      }
      var proc := lower(name);
      var de := NO_DESTS;
      if proc in dests {
        de := dests[proc];
      }
      de := de.(count := de.count + 1);
      if ip !in de.seen && |de.seen| < MAX_DESTS {
        de := de.(seen := de.seen + {ip});
      }
      dests := dests[proc := de];
    }

    /** IsNewDestination. */
    method IsNewDestination(name: string, ip: string) returns (isNew: bool, confident: bool)
      ensures (isNew, confident) == if name == "" || ip == "" then (false, false) else NewDest(DestsOf(dests, lower(name)), ip)
    {
      if name == "" || ip == "" {
        return false, false;
      }
      var proc := lower(name);
      if proc !in dests || dests[proc].count < MIN_DEST_OBS {
        return false, false;
      }
      isNew, confident := ip !in dests[proc].seen, true;
    }
  }
}
