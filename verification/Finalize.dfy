/** The passes over all flows of a window: score, scan bonus, upload bonus, sort (internal/aggregate/aggregate.go,
    lines 604-690, 1297-1308). An item is a flow after the enrichment passes; what the detectors, the baseline and
    the clean-signal texts say about it is part of the item. */
module Finalize {
  import opened Sequences
  import opened Wrappers
  import opened Decimal
  import opened FlowStats
  import opened Scoring

  datatype Item = Item(key: FlowKey, byteCount: nat, signals: seq<Signal>, multiplier: Points, clean: seq<string>)

  datatype Record = Record(key: FlowKey, byteCount: nat, score: real, reasons: seq<string>, techniques: seq<string>,
                           clean: seq<string>, risk: Risk)

  /** `tag` maps reasons to techniques, `uploadReason` formats the bytes sent and received. */
  datatype Config = Config(confirmedDests: int, possibleDests: int, asymmetricDisabled: bool, ratio: real,
                           tag: seq<string> -> seq<string>, uploadReason: (nat, nat) -> string)

  // ----- what each pass does to a record

  ghost function Scored(c: Config, item: Item): Record {
    var s := ScoreOf(item.signals, item.multiplier);
    var reasons := Reasons(item.signals);
    Record(item.key, item.byteCount, s, reasons, c.tag(reasons), if s >= 2.0 then [] else item.clean, RiskLabel(s))
  }

  function Boosted(c: Config, r: Record, bonus: real, reason: string): Record {
    var score := Min(10.0, r.score + bonus);
    var reasons := r.reasons + [reason];
    r.(score := score, reasons := reasons, techniques := c.tag(reasons), risk := RiskLabel(score))
  }

  /** The destinations that a source contacts. */
  ghost function Dests(rs: seq<Record>, src: string): set<string> {
    set i | 0 <= i < |rs| && rs[i].key.srcIP == src :: rs[i].key.dstIP
  }

  function Scanned(c: Config, r: Record, n: nat): Record {
    if n >= c.confirmedDests then Boosted(c, r, 3.0, "scan pattern: " + Itoa(n) + " unique destinations from same source")
    else if n >= c.possibleDests then Boosted(c, r, 1.5, "possible scan: " + Itoa(n) + " unique destinations from same source")
    else r
  }

  /** Conversion to an integer truncates toward zero. */
  function Trunc(x: real): int {
    if x >= 0.0 then x.Floor else -((-x).Floor)
  }

  predicate Uploads(up: nat, down: nat, ratio: real) {
    down > 0 && up > Trunc(down as real * ratio)
  }

  function Reverse(k: FlowKey): FlowKey {
    FlowKey(k.dstIP, k.srcIP, k.dstPort, k.srcPort, k.proto, k.iface)
  }

  /** The last record of a flow. */
  ghost function LastOf(rs: seq<Record>, k: FlowKey): (i: Option<nat>)
    ensures i.Some? ==> i.value < |rs| && rs[i.value].key == k
  {
    if rs == [] then None
    else if rs[|rs| - 1].key == k then Some(|rs| - 1)
    else LastOf(rs[..|rs| - 1], k)
  }

  ghost function UploadChecked(c: Config, r: Record, rs: seq<Record>): Record {
    match LastOf(rs, Reverse(r.key))
    case None => r
    case Some(j) => if Uploads(r.byteCount, rs[j].byteCount, c.ratio) then Boosted(c, r, 2.0, c.uploadReason(r.byteCount, rs[j].byteCount)) else r
  }

  ghost function ScoredAll(c: Config, items: seq<Item>): (rs: seq<Record>)
    ensures |rs| == |items| && forall i :: 0 <= i < |items| ==> rs[i] == Scored(c, items[i])
  {
    seq(|items|, i requires 0 <= i < |items| => Scored(c, items[i]))
  }

  ghost function ScannedAll(c: Config, rs: seq<Record>): (ts: seq<Record>)
    ensures |ts| == |rs| && forall i :: 0 <= i < |rs| ==> ts[i] == Scanned(c, rs[i], |Dests(rs, rs[i].key.srcIP)|)
  {
    seq(|rs|, i requires 0 <= i < |rs| => Scanned(c, rs[i], |Dests(rs, rs[i].key.srcIP)|))
  }

  ghost function CheckedAll(c: Config, rs: seq<Record>): (ts: seq<Record>)
    ensures |ts| == |rs| && forall i :: 0 <= i < |rs| ==> ts[i] == if c.asymmetricDisabled then rs[i] else UploadChecked(c, rs[i], rs)
  {
    seq(|rs|, i requires 0 <= i < |rs| => if c.asymmetricDisabled then rs[i] else UploadChecked(c, rs[i], rs))
  }

  ghost function FinalRecords(c: Config, items: seq<Item>): seq<Record> {
    CheckedAll(c, ScannedAll(c, ScoredAll(c, items)))
  }

  // ----- the passes

  const BLANK: Record := Record(FlowKey("", "", 0, 0, "", ""), 0, 0.0, [], [], [], LOW)

  /** Pass 3. */
  method ScorePass(c: Config, items: seq<Item>) returns (records: array<Record>)
    ensures fresh(records) && records[..] == ScoredAll(c, items)
  {
    hide ScoreOf, Reasons, RiskLabel;
    records := new Record[|items|](_ => BLANK);
    for i := 0 to |items|
      invariant forall k :: 0 <= k < i ==> records[k] == Scored(c, items[k])
    {
      var it := items[i];
      var score, reasons := Score(it.signals, it.multiplier);
      records[i] := Record(it.key, it.byteCount, score, reasons, c.tag(reasons), if score >= 2.0 then [] else it.clean, RiskLabel(score));
    }
  }

  function Found(m: map<string, set<string>>, src: string): set<string> {
    if src in m then m[src] else {}
  }

  lemma {:induction false} DestsSnoc(rs: seq<Record>, r: Record, src: string)
    ensures Dests(rs + [r], src) == if r.key.srcIP == src then Dests(rs, src) + {r.key.dstIP} else Dests(rs, src)
  {
    var all := rs + [r];
    assert forall i :: 0 <= i < |rs| ==> all[i] == rs[i];
    assert all[|rs|] == r;
  }

  method DestsBySource(records: array<Record>) returns (m: map<string, set<string>>)
    ensures forall src :: Found(m, src) == Dests(records[..], src)
  {
    hide Dests;
    ghost var rs := records[..];
    m := map[];
    NoDests();
    for i := 0 to records.Length
      invariant forall src :: Found(m, src) == Dests(rs[..i], src)
    {
      var r := records[i];
      var after := m[r.key.srcIP := Found(m, r.key.srcIP) + {r.key.dstIP}];
      assert rs[..i + 1] == rs[..i] + [r];
      forall src
        ensures Found(after, src) == Dests(rs[..i + 1], src)
      {
        DestsSnoc(rs[..i], r, src);
      }
      m := after;
    }
    assert rs[..records.Length] == rs;
  }

  lemma {:induction false} NoDests()
    ensures forall src :: Dests([], src) == {}
  {
  }

  /** Pass 4, in place. */
  method ScanPass(c: Config, records: array<Record>)
    modifies records
    ensures records[..] == ScannedAll(c, old(records[..]))
  {
    hide Dests, Boosted, Itoa;
    ghost var before := records[..];
    var dstsBySrc := DestsBySource(records);
    for i := 0 to records.Length
      invariant forall k :: 0 <= k < i ==> records[k] == Scanned(c, before[k], |Dests(before, before[k].key.srcIP)|)
      invariant forall k :: i <= k < records.Length ==> records[k] == before[k]
    {
      var n := |Found(dstsBySrc, records[i].key.srcIP)|;
      assert n == |Dests(before, before[i].key.srcIP)|;
      var bonus: real := 0.0;
      var reason := "";
      if n >= c.confirmedDests {
        bonus := 3.0;
        reason := "scan pattern: " + Itoa(n) + " unique destinations from same source";
      } else if n >= c.possibleDests {
        bonus := 1.5;
        reason := "possible scan: " + Itoa(n) + " unique destinations from same source";
      }
      if bonus > 0.0 {
        records[i] := Boosted(c, records[i], bonus, reason);
      }
    }
  }

  lemma {:induction false} LastOfSnoc(rs: seq<Record>, r: Record, k: FlowKey)
    ensures LastOf(rs + [r], k) == if r.key == k then Some(|rs|) else LastOf(rs, k)
  {
    assert (rs + [r])[..|rs|] == rs;
  }

  method IndexByKey(records: array<Record>) returns (byKey: map<FlowKey, nat>)
    ensures forall k :: LastOf(records[..], k) == if k in byKey then Some(byKey[k]) else None
  {
    hide LastOf;
    byKey := map[];
    NoneLast();
    for i := 0 to records.Length
      invariant forall k :: LastOf(records[..i], k) == if k in byKey then Some(byKey[k]) else None
    {
      assert records[..i + 1] == records[..i] + [records[i]];
      forall k
        ensures LastOf(records[..i + 1], k) == if records[i].key == k then Some(i) else LastOf(records[..i], k)
      {
        LastOfSnoc(records[..i], records[i], k);
      }
      byKey := byKey[records[i].key := i];
    }
    assert records[..records.Length] == records[..];
  }

  lemma {:induction false} NoneLast()
    ensures forall k :: LastOf([], k) == None
  {
  }

  lemma {:induction false} CheckedKeepsKey(c: Config, r: Record, rs: seq<Record>)
    ensures UploadChecked(c, r, rs).key == r.key && UploadChecked(c, r, rs).byteCount == r.byteCount
  {
    hide LastOf, Uploads;
  }

  /** Pass 5, in place. It changes no key and no byte count, so it does not matter which records it has reached. */
  method UploadPass(c: Config, records: array<Record>)
    modifies records
    ensures records[..] == CheckedAll(c, old(records[..]))
  {
    hide LastOf, UploadChecked;
    if c.asymmetricDisabled {
      return;
    }
    ghost var before := records[..];
    var byKey := IndexByKey(records);
    for i := 0 to records.Length
      invariant forall k :: 0 <= k < i ==> records[k] == UploadChecked(c, before[k], before)
      invariant forall k :: i <= k < records.Length ==> records[k] == before[k]
      invariant forall k :: 0 <= k < records.Length ==> records[k].byteCount == before[k].byteCount
    {
      CheckedKeepsKey(c, before[i], before);
      var r := UploadStep(c, records, records[i], byKey, before);
      records[i] := r;
    }
  }

  /** One round of pass 5. */
  method UploadStep(c: Config, records: array<Record>, r: Record, byKey: map<FlowKey, nat>, ghost before: seq<Record>) returns (after: Record)
    requires records.Length == |before|
    requires forall k :: 0 <= k < records.Length ==> records[k].byteCount == before[k].byteCount
    requires forall k :: LastOf(before, k) == if k in byKey then Some(byKey[k]) else None
    ensures after == UploadChecked(c, r, before)
  {
    hide LastOf, Uploads, Boosted;
    after := r;
    var revKey := Reverse(r.key);
    assert LastOf(before, revKey) == if revKey in byKey then Some(byKey[revKey]) else None;
    if revKey in byKey {
      var downBytes := records[byKey[revKey]].byteCount;
      if Uploads(r.byteCount, downBytes, c.ratio) {
        after := Boosted(c, r, 2.0, c.uploadReason(r.byteCount, downBytes));
      }
    }
  }

  // ----- sorting

  ghost predicate Descending(rs: seq<Record>) {
    forall i, j :: 0 <= i < j < |rs| ==> rs[i].score >= rs[j].score
  }

  lemma {:induction false} InsertedInOrder(rs: seq<Record>, j: nat, r: Record)
    requires Descending(rs) && j <= |rs|
    requires (j > 0 ==> rs[j - 1].score >= r.score) && (j < |rs| ==> r.score >= rs[j].score)
    ensures Descending(rs[..j] + [r] + rs[j..])
  {
    var s := rs[..j] + [r] + rs[j..];
    forall x, y | 0 <= x < y < |s|
      ensures s[x].score >= s[y].score
    {
      assert x < j ==> s[x] == rs[x];
      assert x > j ==> s[x] == rs[x - 1];
      assert y < j ==> s[y] == rs[y];
      assert y > j ==> s[y] == rs[y - 1];
    }
  }

  method InsertByScore(rs: seq<Record>, r: Record) returns (sorted: seq<Record>)
    requires Descending(rs)
    ensures Descending(sorted) && multiset(sorted) == multiset(rs) + multiset{r}
  {
    var j := 0;
    while j < |rs| && rs[j].score > r.score
      invariant j <= |rs| && (j > 0 ==> rs[j - 1].score >= r.score)
    {
      j := j + 1;
    }
    InsertedInOrder(rs, j, r);
    InsertedMultiset(rs, j, r);
    sorted := rs[..j] + [r] + rs[j..];
  }

  /** sort.Slice by score; the order of records with equal scores is unspecified. */
  method SortByScore(records: array<Record>) returns (sorted: seq<Record>)
    ensures Descending(sorted) && multiset(sorted) == multiset(records[..])
  {
    hide Descending;
    sorted := [];
    assert Descending([]) by {
      NothingDescends();
    }
    for i := 0 to records.Length
      invariant Descending(sorted) && multiset(sorted) == multiset(records[..i])
    {
      assert records[..i + 1] == records[..i] + [records[i]];
      sorted := InsertByScore(sorted, records[i]);
    }
    assert records[..records.Length] == records[..];
  }

  lemma {:induction false} NothingDescends()
    ensures Descending([])
  {
  }

  /** The scored part of Finalize: the records of all items, highest score first. */
  method Finalize(c: Config, items: seq<Item>) returns (out: seq<Record>)
    ensures multiset(out) == multiset(FinalRecords(c, items)) && Descending(out)
    ensures forall r :: r in out ==> Sound(c, r)
  {
    hide ScoredAll, ScannedAll, CheckedAll, Sound, Descending;
    var records := ScorePass(c, items);
    ScanPass(c, records);
    UploadPass(c, records);
    out := SortByScore(records);
    FinalRecordsAreSound(c, items);
    assert forall r :: r in out ==> r in multiset(out);
  }

  // ----- what holds of every record

  /** The score is in range; risk tier and techniques belong to the final score and reasons. */
  ghost predicate Sound(c: Config, r: Record) {
    0.0 <= r.score <= 10.0 && r.risk == RiskLabel(r.score) && r.techniques == c.tag(r.reasons)
  }

  lemma {:induction false} BoostedIsSound(c: Config, r: Record, bonus: Points, reason: string)
    requires Sound(c, r)
    ensures Sound(c, Boosted(c, r, bonus, reason)) && Extends(r, Boosted(c, r, bonus, reason), bonus)
  {
  }

  /** A record after a pass that can add some points. */
  ghost predicate Extends(before: Record, after: Record, points: real) {
    && after.key == before.key && before.score <= after.score <= before.score + points
    && Rank(after.risk) >= Rank(before.risk) && before.reasons <= after.reasons
  }

  lemma {:induction false} ScoredIsSound(c: Config, item: Item)
    ensures Sound(c, Scored(c, item))
  {
    ScoreInRange(item.signals, item.multiplier);
    hide ScoreOf;
  }

  lemma {:induction false} ScannedIsSound(c: Config, r: Record, n: nat)
    requires Sound(c, r)
    ensures Sound(c, Scanned(c, r, n)) && Extends(r, Scanned(c, r, n), 3.0)
  {
    BoostedIsSound(c, r, 3.0, "scan pattern: " + Itoa(n) + " unique destinations from same source");
    BoostedIsSound(c, r, 1.5, "possible scan: " + Itoa(n) + " unique destinations from same source");
    hide Itoa, Boosted, Sound;
  }

  lemma {:induction false} CheckedIsSound(c: Config, r: Record, rs: seq<Record>)
    requires Sound(c, r)
    ensures Sound(c, UploadChecked(c, r, rs)) && Extends(r, UploadChecked(c, r, rs), 2.0)
  {
    hide LastOf, Uploads;
    var j := LastOf(rs, Reverse(r.key));
    if j.Some? {
      BoostedIsSound(c, r, 2.0, c.uploadReason(r.byteCount, rs[j.value].byteCount));
    }
    hide Boosted, Sound;
  }

  lemma {:induction false} ExtendsTwice(a: Record, b: Record, d: Record, p: real, q: real)
    requires Extends(a, b, p) && Extends(b, d, q)
    ensures Extends(a, d, p + q)
  {
  }

  /** The three stages of one record. */
  lemma {:induction false} Stages(c: Config, items: seq<Item>, i: nat)
    requires i < |items|
    ensures var a := ScoredAll(c, items);
            var b := ScannedAll(c, a);
            var d := FinalRecords(c, items);
            && |d| == |items| && Sound(c, a[i]) && Sound(c, b[i]) && Sound(c, d[i])
            && Extends(a[i], b[i], 3.0) && Extends(b[i], d[i], 2.0)
  {
    var a := ScoredAll(c, items);
    var b := ScannedAll(c, a);
    ScoredIsSound(c, items[i]);
    hide Scored, Sound, Scanned, UploadChecked, Dests;
    ScannedIsSound(c, a[i], |Dests(a, a[i].key.srcIP)|);
    CheckedIsSound(c, b[i], b);
    assert Extends(b[i], b[i], 2.0);
    hide Extends;
  }

  lemma {:induction false} FinalRecordsAreSound(c: Config, items: seq<Item>)
    ensures forall r :: r in FinalRecords(c, items) ==> Sound(c, r)
  {
    hide Scored, Sound, Scanned, UploadChecked, Extends;
    var d := FinalRecords(c, items);
    forall i | 0 <= i < |d|
      ensures Sound(c, d[i])
    {
      Stages(c, items, i);
    }
  }

  /** The bonuses only add: no record loses score, rank or reasons on its way through the passes. */
  lemma {:induction false} BonusesOnlyAdd(c: Config, items: seq<Item>, i: nat)
    requires i < |items|
    ensures |FinalRecords(c, items)| == |items| && Extends(ScoredAll(c, items)[i], FinalRecords(c, items)[i], 5.0)
  {
    hide Scored, Sound, Scanned, UploadChecked, Extends;
    Stages(c, items, i);
    ExtendsTwice(ScoredAll(c, items)[i], ScannedAll(c, ScoredAll(c, items))[i], FinalRecords(c, items)[i], 3.0, 2.0);
  }

  lemma {:induction false} TruncOfMultiple(d: nat, ratio: real)
    requires ratio >= 1.0
    ensures Trunc(d as real * ratio) >= d
  {
    assert d as real * ratio >= d as real;
  }

  /** Two opposite transfers never both count as uploads exactly if the ratio is at least one. */
  lemma {:induction false} NeverBothIff(ratio: real)
    ensures (forall u: nat, d: nat :: !(Uploads(u, d, ratio) && Uploads(d, u, ratio))) <==> ratio >= 1.0
  {
    if ratio >= 1.0 {
      forall u: nat, d: nat
        ensures !(Uploads(u, d, ratio) && Uploads(d, u, ratio))
      {
        TruncOfMultiple(u, ratio);
        TruncOfMultiple(d, ratio);
      }
    } else {
      assert 1 as real * ratio == ratio && Trunc(ratio) < 1;
      assert Uploads(1, 1, ratio);
    }
  }

  ghost predicate DistinctKeys(rs: seq<Record>) {
    forall i, j :: 0 <= i < j < |rs| ==> rs[i].key != rs[j].key
  }

  lemma {:induction false} LastIsOnly(rs: seq<Record>, i: nat)
    requires DistinctKeys(rs) && i < |rs|
    ensures LastOf(rs, rs[i].key) == Some(i)
  {
    if i < |rs| - 1 {
      LastIsOnly(rs[..|rs| - 1], i);
    }
  }

  /** With a ratio of at least one, a flow and its reverse never both get the upload bonus. */
  lemma {:induction false} ReverseFlowsNeverBoth(c: Config, rs: seq<Record>, i: nat, j: nat)
    requires DistinctKeys(rs) && i < |rs| && j < |rs| && rs[j].key == Reverse(rs[i].key) && c.ratio >= 1.0
    ensures CheckedAll(c, rs)[i] == rs[i] || CheckedAll(c, rs)[j] == rs[j]
  {
    LastIsOnly(rs, i);
    LastIsOnly(rs, j);
    assert Reverse(rs[j].key) == rs[i].key;
    NeverBothIff(c.ratio);
    hide LastOf, Uploads, Boosted;
    assert !(Uploads(rs[i].byteCount, rs[j].byteCount, c.ratio) && Uploads(rs[j].byteCount, rs[i].byteCount, c.ratio));
  }

  // ----- the final score, and clean signals that outlive it

  function ScanBonus(c: Config, n: nat): Points {
    if n >= c.confirmedDests then 3.0 else if n >= c.possibleDests then 1.5 else 0.0
  }

  ghost function UploadBonus(c: Config, r: Record, rs: seq<Record>): Points {
    match LastOf(rs, Reverse(r.key))
    case None => 0.0
    case Some(j) => if !c.asymmetricDisabled && Uploads(r.byteCount, rs[j].byteCount, c.ratio) then 2.0 else 0.0
  }

  /** The points that the passes after the scoring add to record i: for the number of destinations of its source, and for
      the bytes of the flow in the opposite direction. */
  ghost function Bonus(c: Config, rs: seq<Record>, i: nat): Points
    requires i < |rs|
  {
    ScanBonus(c, |Dests(rs, rs[i].key.srcIP)|) + UploadBonus(c, rs[i], rs)
  }

  ghost predicate SameFlows(rs: seq<Record>, ts: seq<Record>) {
    |rs| == |ts| && forall i :: 0 <= i < |rs| ==> rs[i].key == ts[i].key && rs[i].byteCount == ts[i].byteCount
  }

  lemma {:induction false} SameLast(rs: seq<Record>, ts: seq<Record>, k: FlowKey)
    requires SameFlows(rs, ts)
    ensures LastOf(rs, k) == LastOf(ts, k)
  {
    if rs != [] {
      SameLast(rs[..|rs| - 1], ts[..|ts| - 1], k);
    }
  }

  lemma {:induction false} ScannedAdds(c: Config, r: Record, n: nat)
    requires r.score <= 10.0
    ensures var t := Scanned(c, r, n);
            && t.score == Min(10.0, r.score + ScanBonus(c, n))
            && t.key == r.key && t.byteCount == r.byteCount && t.clean == r.clean
  {
    hide Itoa, RiskLabel;
  }

  lemma {:induction false} CheckedAdds(c: Config, r: Record, rs: seq<Record>)
    requires r.score <= 10.0
    ensures var t := if c.asymmetricDisabled then r else UploadChecked(c, r, rs);
            t.score == Min(10.0, r.score + UploadBonus(c, r, rs)) && t.clean == r.clean
  {
    hide LastOf, Uploads, RiskLabel;
  }

  lemma {:induction false} SameBonus(c: Config, r: Record, rs: seq<Record>, t: Record, ts: seq<Record>)
    requires SameFlows(rs, ts) && r.key == t.key && r.byteCount == t.byteCount
    ensures UploadBonus(c, r, rs) == UploadBonus(c, t, ts)
  {
    SameLast(rs, ts, Reverse(r.key));
    hide LastOf, Uploads;
  }

  lemma {:induction false} CappedTwice(x: real, a: Points, b: Points)
    ensures Min(10.0, Min(10.0, x + a) + b) == Min(10.0, x + (a + b))
  {
  }

  lemma {:induction false} ScanKeepsFlows(c: Config, rs: seq<Record>)
    ensures SameFlows(rs, ScannedAll(c, rs))
  {
    hide Dests, Itoa, RiskLabel;
  }

  lemma {:induction false} TwoBonuses(c: Config, rs: seq<Record>, i: nat)
    requires i < |rs| && rs[i].score <= 10.0
    ensures var after := CheckedAll(c, ScannedAll(c, rs))[i];
            after.score == Min(10.0, rs[i].score + Bonus(c, rs, i)) && after.clean == rs[i].clean
  {
    var ts, n := ScannedAll(c, rs), |Dests(rs, rs[i].key.srcIP)|;
    ScanKeepsFlows(c, rs);
    ScannedAdds(c, rs[i], n);
    hide Scanned, UploadChecked, Dests, UploadBonus, ScanBonus, SameFlows;
    CheckedAdds(c, ts[i], ts);
    SameBonus(c, rs[i], rs, ts[i], ts);
    CappedTwice(rs[i].score, ScanBonus(c, n), UploadBonus(c, rs[i], rs));
    hide Min;
  }

  /** The final score of a record is its own score and its bonuses, at most 10; its clean signals stay as they were. */
  lemma {:induction false} FinalScore(c: Config, items: seq<Item>, i: nat)
    requires i < |items|
    ensures var rs, after := ScoredAll(c, items), FinalRecords(c, items)[i];
            && after.score == Min(10.0, rs[i].score + Bonus(c, rs, i))
            && after.clean == rs[i].clean && after.risk == RiskLabel(after.score)
  {
    Stages(c, items, i);
    hide Scored, ScannedAll, CheckedAll, Extends, RiskLabel, Min, Bonus;
    TwoBonuses(c, ScoredAll(c, items), i);
  }

  /** With distinct flows, and a ratio that is not negative, the final record in numbers: 3 points more if the source contacts
      at least `confirmedDests` destinations, else 1.5 if at least `possibleDests`; 2 points more if the flow in the opposite
      direction, with addresses and ports exchanged, has bytes, and this one more than `ratio` times as many. */
  lemma {:induction false} FinalScoreInNumbers(c: Config, items: seq<Item>, i: nat)
    requires i < |items| && c.ratio >= 0.0
    requires forall x, y :: 0 <= x < y < |items| ==> items[x].key != items[y].key
    ensures var own := ScoreOf(items[i].signals, items[i].multiplier);
            var dests := |set j | 0 <= j < |items| && items[j].key.srcIP == items[i].key.srcIP :: items[j].key.dstIP|;
            var scan := if dests >= c.confirmedDests then 3.0 else if dests >= c.possibleDests then 1.5 else 0.0;
            var upload := if !c.asymmetricDisabled && Exceeds(c.ratio, items, i) then 2.0 else 0.0;
            var sum := own + scan + upload;
            var r := FinalRecords(c, items)[i];
            && r.score == (if sum <= 10.0 then sum else 10.0)
            && (r.risk == CRITICAL <==> r.score >= 7.0) && (r.risk == HIGH <==> 5.0 <= r.score < 7.0)
            && (r.risk == MEDIUM <==> 2.0 <= r.score < 5.0) && (r.risk == LOW <==> r.score < 2.0)
            && r.clean == (if own >= 2.0 then [] else items[i].clean)
  {
    var rs := ScoredAll(c, items);
    FinalScore(c, items, i);
    TierIff(FinalRecords(c, items)[i].score);
    SameDests(c, items, items[i].key.srcIP);
    UploadInNumbers(c, items, i);
    hide FinalRecords, ScoreOf, Reasons, Dests, RiskLabel, UploadBonus, Exceeds;
  }

  lemma {:induction false} SameDests(c: Config, items: seq<Item>, src: string)
    ensures Dests(ScoredAll(c, items), src) == set j | 0 <= j < |items| && items[j].key.srcIP == src :: items[j].key.dstIP
  {
    hide ScoreOf, Reasons, RiskLabel;
    var rs := ScoredAll(c, items);
    assert forall j :: 0 <= j < |items| ==> rs[j].key == items[j].key;
  }

  /** The flow in the opposite direction of flow i has bytes, and flow i more than `ratio` times as many. */
  ghost predicate Exceeds(ratio: real, items: seq<Item>, i: nat)
    requires i < |items|
  {
    exists j :: && 0 <= j < |items| && Opposite(items[i].key, items[j].key)
                && Asymmetric(ratio, items[i].byteCount, items[j].byteCount)
  }

  /** There are bytes in the opposite direction, and more than `ratio` times as many in this one. */
  ghost predicate Asymmetric(ratio: real, up: nat, down: nat) {
    down > 0 && up as real > ratio * down as real
  }

  predicate Opposite(a: FlowKey, b: FlowKey) {
    && b.srcIP == a.dstIP && b.dstIP == a.srcIP && b.srcPort == a.dstPort && b.dstPort == a.srcPort
    && b.proto == a.proto && b.iface == a.iface
  }

  lemma {:induction false} UploadsInNumbers(up: nat, down: nat, ratio: real)
    requires ratio >= 0.0
    ensures Uploads(up, down, ratio) <==> Asymmetric(ratio, up, down)
  {
    var x := down as real * ratio;
    assert x >= 0.0 && x == ratio * down as real;
  }

  /** The records of the items, in their order. */
  ghost predicate RecordsOf(rs: seq<Record>, items: seq<Item>) {
    |rs| == |items| && forall j :: 0 <= j < |items| ==> rs[j].key == items[j].key && rs[j].byteCount == items[j].byteCount
  }

  lemma {:induction false} OppositeIff(a: FlowKey, b: FlowKey)
    ensures Opposite(a, b) <==> b == Reverse(a)
  {
  }

  /** The one flow in the opposite direction decides. */
  lemma {:induction false} ExceedsIff(ratio: real, items: seq<Item>, rs: seq<Record>, i: nat)
    requires i < |items| && ratio >= 0.0 && RecordsOf(rs, items) && DistinctKeys(rs)
    ensures var back := LastOf(rs, Reverse(items[i].key));
            Exceeds(ratio, items, i) <==> back.Some? && Uploads(items[i].byteCount, rs[back.value].byteCount, ratio)
  {
    hide Uploads, LastOf, Opposite, Reverse, Asymmetric;
    var back := Reverse(items[i].key);
    LastIfAny(rs, back);
    if j :| 0 <= j < |items| && Opposite(items[i].key, items[j].key) && Asymmetric(ratio, items[i].byteCount, items[j].byteCount) {
      OppositeIff(items[i].key, items[j].key);
      LastIsOnly(rs, j);
      UploadsInNumbers(items[i].byteCount, items[j].byteCount, ratio);
    }
    var last := LastOf(rs, back);
    if last.Some? {
      OppositeIff(items[i].key, items[last.value].key);
      UploadsInNumbers(items[i].byteCount, items[last.value].byteCount, ratio);
    }
  }

  lemma {:induction false} UploadInNumbers(c: Config, items: seq<Item>, i: nat)
    requires i < |items| && c.ratio >= 0.0
    requires forall x, y :: 0 <= x < y < |items| ==> items[x].key != items[y].key
    ensures UploadBonus(c, ScoredAll(c, items)[i], ScoredAll(c, items))
            == if !c.asymmetricDisabled && Exceeds(c.ratio, items, i) then 2.0 else 0.0
  {
    hide ScoredAll, Uploads, Exceeds, LastOf, Reverse;
    var rs := ScoredAll(c, items);
    SameFlowsAsItems(c, items);
    assert DistinctKeys(rs);
    ExceedsIff(c.ratio, items, rs, i);
  }

  lemma {:induction false} SameFlowsAsItems(c: Config, items: seq<Item>)
    ensures RecordsOf(ScoredAll(c, items), items)
  {
    hide ScoreOf, Reasons, RiskLabel;
  }

  lemma {:induction false} LastIfAny(rs: seq<Record>, k: FlowKey)
    ensures LastOf(rs, k).None? ==> forall j :: 0 <= j < |rs| ==> rs[j].key != k
  {
    if rs != [] && rs[|rs| - 1].key != k {
      LastIfAny(rs[..|rs| - 1], k);
      assert forall j :: 0 <= j < |rs| - 1 ==> rs[..|rs| - 1][j] == rs[j];
    }
  }

  /** The reason that the scan bonus adds, if there is one. */
  function ScanReasons(c: Config, n: nat): seq<string> {
    if n >= c.confirmedDests then ["scan pattern: " + Itoa(n) + " unique destinations from same source"]
    else if n >= c.possibleDests then ["possible scan: " + Itoa(n) + " unique destinations from same source"]
    else []
  }

  lemma {:induction false} ScannedReasons(c: Config, r: Record, n: nat)
    ensures Scanned(c, r, n).reasons == r.reasons + ScanReasons(c, n)
  {
    hide Itoa, RiskLabel;
  }

  lemma {:induction false} CheckedReasons(c: Config, r: Record, rs: seq<Record>, j: nat)
    requires LastOf(rs, Reverse(r.key)) == Some(j)
    ensures UploadChecked(c, r, rs).reasons
            == r.reasons + if Uploads(r.byteCount, rs[j].byteCount, c.ratio) then [c.uploadReason(r.byteCount, rs[j].byteCount)] else []
  {
    hide LastOf, Uploads, RiskLabel, Reverse;
  }

  lemma {:induction false} TwoReasons(c: Config, rs: seq<Record>, i: nat, j: nat)
    requires i < |rs| && j < |rs| && DistinctKeys(rs) && rs[j].key == Reverse(rs[i].key)
    ensures CheckedAll(c, ScannedAll(c, rs))[i].reasons
            == rs[i].reasons + ScanReasons(c, |Dests(rs, rs[i].key.srcIP)|)
               + if !c.asymmetricDisabled && Uploads(rs[i].byteCount, rs[j].byteCount, c.ratio) then [c.uploadReason(rs[i].byteCount, rs[j].byteCount)]
                 else []
  {
    hide Scanned, UploadChecked, Dests, Uploads, ScanReasons, Reverse;
    var ts := ScannedAll(c, rs);
    ScanKeepsFlows(c, rs);
    ScannedReasons(c, rs[i], |Dests(rs, rs[i].key.srcIP)|);
    assert DistinctKeys(ts) && ts[j].key == rs[j].key;
    LastIsOnly(ts, j);
    hide LastOf;
    CheckedReasons(c, ts[i], ts, j);
  }

  /** The final reasons of a flow are those of its signals that found room, then the one of the scan bonus, then, if the
      opposite flow is asymmetric enough, the one of the upload bonus; the techniques are those of these reasons. */
  lemma {:induction false} FinalReasons(c: Config, items: seq<Item>, i: nat, j: nat)
    requires i < |items| && j < |items| && Opposite(items[i].key, items[j].key) && c.ratio >= 0.0
    requires forall x, y :: 0 <= x < y < |items| ==> items[x].key != items[y].key
    ensures var r, up, down := FinalRecords(c, items)[i], items[i].byteCount, items[j].byteCount;
            var uploads := !c.asymmetricDisabled && Asymmetric(c.ratio, up, down);
            && r.reasons == Reasons(items[i].signals) + ScanReasons(c, |Dests(ScoredAll(c, items), items[i].key.srcIP)|)
                            + (if uploads then [c.uploadReason(up, down)] else [])
            && r.techniques == c.tag(r.reasons)
  {
    hide *;
    OppositeRecords(c, items, i, j);
    FinalIs(c, items);
    FinalTechniques(c, items, i);
    TwoReasons(c, ScoredAll(c, items), i, j);
    UploadsInNumbers(items[i].byteCount, items[j].byteCount, c.ratio);
  }

  /** The records of two opposite flows after the scoring. */
  lemma {:induction false} OppositeRecords(c: Config, items: seq<Item>, i: nat, j: nat)
    requires i < |items| && j < |items| && Opposite(items[i].key, items[j].key)
    requires forall x, y :: 0 <= x < y < |items| ==> items[x].key != items[y].key
    ensures var rs := ScoredAll(c, items);
            && |rs| == |items| && DistinctKeys(rs) && rs[j].key == Reverse(rs[i].key)
            && rs[i].key == items[i].key && rs[i].byteCount == items[i].byteCount && rs[j].byteCount == items[j].byteCount
            && rs[i].reasons == Reasons(items[i].signals)
  {
    SameFlowsAsItems(c, items);
    OwnReasons(c, items, i);
    OppositeIff(items[i].key, items[j].key);
    hide ScoredAll, Reasons, Opposite, Reverse;
  }

  lemma {:induction false} FinalIs(c: Config, items: seq<Item>)
    ensures |FinalRecords(c, items)| == |items|
    ensures FinalRecords(c, items) == CheckedAll(c, ScannedAll(c, ScoredAll(c, items)))
  {
  }

  lemma {:induction false} OwnReasons(c: Config, items: seq<Item>, i: nat)
    requires i < |items|
    ensures ScoredAll(c, items)[i].reasons == Reasons(items[i].signals)
  {
    hide ScoreOf, Reasons, RiskLabel;
  }

  lemma {:induction false} FinalTechniques(c: Config, items: seq<Item>, i: nat)
    requires i < |items|
    ensures |FinalRecords(c, items)| == |items| && FinalRecords(c, items)[i].techniques == c.tag(FinalRecords(c, items)[i].reasons)
  {
    hide Extends, ScannedAll, CheckedAll, RiskLabel;
    Stages(c, items, i);
  }

  /** Clean signals are written before the bonuses, and no bonus takes them back: a flow above the LOW tier still carries
      them exactly if it had some, scored less than 2 by itself, and the bonuses lift it to 2 or more. */
  lemma {:induction false} CleanSignalsCanBeStale(c: Config, items: seq<Item>, i: nat)
    requires i < |items|
    ensures var rs, after := ScoredAll(c, items), FinalRecords(c, items)[i];
            after.clean != [] && after.risk != LOW
            <==> items[i].clean != [] && rs[i].score < 2.0 <= rs[i].score + Bonus(c, rs, i)
  {
    FinalScore(c, items, i);
    hide FinalRecords, Bonus, ScoreOf, Reasons;
  }

  /** So do all flows without a signal of a source that contacts enough destinations. */
  lemma {:induction false} CleanScanner(c: Config, items: seq<Item>, i: nat)
    requires i < |items| && items[i].signals == [] && items[i].clean != []
    requires |Dests(ScoredAll(c, items), items[i].key.srcIP)| >= c.confirmedDests
    ensures var r := FinalRecords(c, items)[i]; r.risk != LOW && r.clean == items[i].clean && r.score >= 3.0
  {
    var rs := ScoredAll(c, items);
    FinalScore(c, items, i);
    CleanSignalsCanBeStale(c, items, i);
    NoSignalsNoScore(items[i].multiplier);
    hide FinalRecords, ScoreOf, Reasons, Dests, UploadBonus;
  }

  /** One source, n destinations, nothing suspicious about any of the flows. */
  ghost function Sweep(n: nat): (items: seq<Item>)
    ensures |items| == n && forall i :: 0 <= i < n ==> items[i] == Visit(i)
  {
    seq(n, i requires 0 <= i < n => Visit(i))
  }

  function Address(i: nat): string {
    "fd00::" + Itoa(i)
  }

  function Visit(i: nat): Item {
    Item(FlowKey("fd00::a", Address(i), 50000, 443, "TCP", "eth0"), 60, [], 1.0, ["no suspicious signals"])
  }

  lemma {:induction false} AddressesDiffer(i: nat, j: nat)
    requires i != j
    ensures Address(i) != Address(j)
  {
    if Address(i) == Address(j) {
      assert Address(i)[6..] == Itoa(i) && Address(j)[6..] == Itoa(j);
      ItoaInjective(i, j);
    }
  }

  lemma {:induction false} OneMoreVisit(c: Config, n: nat)
    ensures ScoredAll(c, Sweep(n + 1)) == ScoredAll(c, Sweep(n)) + [Scored(c, Visit(n))]
    ensures Scored(c, Visit(n)).key.srcIP == "fd00::a" && Scored(c, Visit(n)).key.dstIP == Address(n)
  {
    hide Address, ScoreOf, Reasons, RiskLabel;
  }

  lemma {:induction false} NotVisitedYet(c: Config, n: nat)
    ensures Address(n) !in Dests(ScoredAll(c, Sweep(n)), "fd00::a")
  {
    hide Address, ScoreOf, Reasons, RiskLabel;
    var rs := ScoredAll(c, Sweep(n));
    forall i: nat | i < n
      ensures rs[i].key.dstIP != Address(n)
    {
      assert rs[i] == Scored(c, Visit(i));
      AddressesDiffer(i, n);
    }
  }

  lemma {:induction false} SweepDests(c: Config, n: nat)
    ensures |Dests(ScoredAll(c, Sweep(n)), "fd00::a")| == n
  {
    if n == 0 {
      assert ScoredAll(c, Sweep(0)) == [];
      NoDests();
      hide *;
    } else {
      SweepDests(c, n - 1);
      OneMoreVisit(c, n - 1);
      NotVisitedYet(c, n - 1);
      DestsSnoc(ScoredAll(c, Sweep(n - 1)), Scored(c, Visit(n - 1)), "fd00::a");
      hide *;
    }
  }

  /** For every threshold some sweep is confirmed as a scan, with all of its flows still called clean. */
  lemma {:induction false} CleanSweep(c: Config, i: nat)
    requires i < c.confirmedDests
    ensures var r := FinalRecords(c, Sweep(c.confirmedDests))[i]; r.risk != LOW && r.clean == ["no suspicious signals"] && r.score >= 3.0
  {
    hide FinalRecords, Dests, ScoredAll;
    SweepDests(c, c.confirmedDests);
    CleanScanner(c, Sweep(c.confirmedDests), i);
  }
}
