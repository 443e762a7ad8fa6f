/** Filtering and counting of the final records (internal/aggregate/filter.go). */
module FlowFilter {
  import opened Scoring
  import opened Finalize

  datatype Options = Options(minScore: real, topN: int)

  /** Records are left out below the minimum; a minimum of zero or less leaves out none. */
  predicate Passes(o: Options, r: Record) {
    o.minScore <= 0.0 || r.score >= o.minScore
  }

  ghost function Filter(o: Options, rs: seq<Record>): seq<Record> {
    if rs == [] then [] else (if Passes(o, rs[0]) then [rs[0]] else []) + Filter(o, rs[1..])
  }

  /** The records before the first one that does not pass. */
  ghost function Prefix(o: Options, rs: seq<Record>): (p: seq<Record>)
    ensures p <= rs && (forall r :: r in p ==> Passes(o, r))
    ensures |p| < |rs| ==> !Passes(o, rs[|p|])
  {
    if rs == [] || !Passes(o, rs[0]) then []
    else
      var p := Prefix(o, rs[1..]);
      assert [rs[0]] + p <= rs;
      [rs[0]] + p
  }

  ghost function Top(o: Options, rs: seq<Record>): seq<Record> {
    if o.topN > 0 && |rs| > o.topN then rs[..o.topN] else rs
  }

  /** Apply. */
  method Apply(o: Options, flows: seq<Record>) returns (out: seq<Record>)
    ensures out == Top(o, Prefix(o, flows))
  {
    hide Prefix;
    if o.minScore <= 0.0 && o.topN <= 0 {
      PrefixIs(o, flows, |flows|);
      return flows;
    }
    out := [];
    var i := 0;
    while i < |flows|
      invariant i <= |flows| && out == flows[..i] && forall k :: 0 <= k < i ==> Passes(o, flows[k])
    {
      var flow := flows[i];
      if o.minScore > 0.0 && flow.score < o.minScore {
        break;
      }
      out := out + [flow];
      i := i + 1;
    }
    PrefixIs(o, flows, i);
    if o.topN > 0 && |out| > o.topN {
      out := out[..o.topN];
    }
  }

  lemma {:induction false} PrefixIs(o: Options, rs: seq<Record>, n: nat)
    requires n <= |rs| && (forall k :: 0 <= k < n ==> Passes(o, rs[k]))
    requires n < |rs| ==> !Passes(o, rs[n])
    ensures Prefix(o, rs) == rs[..n]
  {
    if n > 0 {
      assert forall k :: 0 <= k < |rs| - 1 ==> rs[1..][k] == rs[k + 1];
      PrefixIs(o, rs[1..], n - 1);
      assert [rs[0]] + rs[1..][..n - 1] == rs[..n];
    }
  }

  /** Every record that passes comes before every record that does not. */
  ghost predicate PassingFirst(o: Options, rs: seq<Record>) {
    forall i, j :: 0 <= i < j < |rs| && Passes(o, rs[j]) ==> Passes(o, rs[i])
  }

  lemma {:induction false} FilterNone(o: Options, rs: seq<Record>)
    ensures Filter(o, rs) == [] <==> forall i :: 0 <= i < |rs| ==> !Passes(o, rs[i])
  {
    if rs != [] {
      FilterNone(o, rs[1..]);
      assert forall i :: 1 <= i < |rs| ==> rs[i] == rs[1..][i - 1];
    }
  }

  /** Stopping at the first record that fails equals filtering exactly if the passing records come first. */
  lemma {:induction false} BreakIsFilterIff(o: Options, rs: seq<Record>)
    ensures Prefix(o, rs) == Filter(o, rs) <==> PassingFirst(o, rs)
  {
    if rs != [] {
      if Passes(o, rs[0]) {
        BreakIsFilterIff(o, rs[1..]);
        assert Prefix(o, rs) == [rs[0]] + Prefix(o, rs[1..]) && Filter(o, rs) == [rs[0]] + Filter(o, rs[1..]);
        assert Prefix(o, rs)[1..] == Prefix(o, rs[1..]) && Filter(o, rs)[1..] == Filter(o, rs[1..]);
        PassingFirstTail(o, rs);
      } else {
        FilterNone(o, rs);
        assert [] + Filter(o, rs[1..]) == Filter(o, rs[1..]);
        assert PassingFirst(o, rs) <==> forall i :: 0 <= i < |rs| ==> !Passes(o, rs[i]);
      }
    }
  }

  lemma {:induction false} PassingFirstTail(o: Options, rs: seq<Record>)
    requires rs != [] && Passes(o, rs[0])
    ensures PassingFirst(o, rs) <==> PassingFirst(o, rs[1..])
  {
    var t := rs[1..];
    assert forall i :: 0 <= i < |t| ==> t[i] == rs[i + 1];
    if PassingFirst(o, t) {
      forall i, j | 0 <= i < j < |rs| && Passes(o, rs[j])
        ensures Passes(o, rs[i])
      {
        assert i > 0 ==> t[i - 1] == rs[i] && t[j - 1] == rs[j];
      }
    }
  }

  /** On the sorted output of Finalize the early stop is a plain filter followed by a cut. */
  lemma {:induction false} SortedFilter(o: Options, rs: seq<Record>)
    requires Descending(rs)
    ensures Top(o, Prefix(o, rs)) == Top(o, Filter(o, rs))
  {
    assert PassingFirst(o, rs);
    BreakIsFilterIff(o, rs);
  }

  /** Nothing better is hidden: what Apply leaves out of sorted records scores no more than anything it keeps, and
      where it keeps fewer than topN, everything left out is below the minimum. */
  lemma {:induction false} NothingBetterIsHidden(o: Options, rs: seq<Record>, kept: nat, hidden: nat)
    requires Descending(rs)
    requires var n := |Top(o, Prefix(o, rs))|; kept < n <= hidden < |rs|
    ensures var out := Top(o, Prefix(o, rs));
            && out <= rs && rs[hidden].score <= out[kept].score
            && (o.topN <= 0 || |out| < o.topN ==> !Passes(o, rs[hidden]))
  {
    var p := Prefix(o, rs);
    if |p| < |rs| {
      assert !Passes(o, rs[|p|]);
      assert hidden > |p| ==> rs[|p|].score >= rs[hidden].score;
    }
  }

  /** Of sorted records exactly those are returned that are not below the minimum and among the first topN, where these are
      positive. */
  lemma {:induction false} ReturnedIff(o: Options, rs: seq<Record>)
    requires Descending(rs)
    ensures var out := Top(o, Prefix(o, rs));
            && out <= rs
            && forall i :: 0 <= i < |rs| ==>
                 (i < |out| <==> (o.minScore <= 0.0 || rs[i].score >= o.minScore) && (o.topN <= 0 || i < o.topN))
  {
    var p := Prefix(o, rs);
    assert forall i :: 0 <= i < |p| ==> Passes(o, p[i]);
    if |p| < |rs| {
      assert !Passes(o, rs[|p|]);
      assert forall i :: |p| < i < |rs| ==> rs[|p|].score >= rs[i].score;
    }
  }

  // ----- summary

  datatype Summary = Summary(critical: nat, high: nat, medium: nat, low: nat)

  /** How many records lie in a tier. */
  ghost function CountOf(rs: seq<Record>, risk: Risk): nat {
    if rs == [] then 0 else CountOf(rs[..|rs| - 1], risk) + if rs[|rs| - 1].risk == risk then 1 else 0
  }

  lemma {:induction false} CountSnoc(rs: seq<Record>, r: Record, risk: Risk)
    ensures CountOf(rs + [r], risk) == CountOf(rs, risk) + if r.risk == risk then 1 else 0
  {
    assert (rs + [r])[..|rs|] == rs;
  }

  ghost predicate Counts(s: Summary, rs: seq<Record>) {
    && s.critical == CountOf(rs, CRITICAL) && s.high == CountOf(rs, HIGH)
    && s.medium == CountOf(rs, MEDIUM) && s.low == CountOf(rs, LOW)
    && s.critical + s.high + s.medium + s.low == |rs|
  }

  /** Summarise: every record is counted in its tier, and in no other. */
  method Summarise(flows: seq<Record>) returns (s: Summary)
    ensures Counts(s, flows)
  {
    hide CountOf, Counts;
    s := Summary(0, 0, 0, 0);
    NothingCounts();
    for i := 0 to |flows|
      invariant Counts(s, flows[..i])
    {
      var f := flows[i];
      assert flows[..i + 1] == flows[..i] + [f];
      CountsStep(s, flows[..i], f);
      match f.risk
      case CRITICAL => s := s.(critical := s.critical + 1);
      case HIGH => s := s.(high := s.high + 1);
      case MEDIUM => s := s.(medium := s.medium + 1);
      case LOW => s := s.(low := s.low + 1);
    }
    assert flows[..|flows|] == flows;
  }

  lemma {:induction false} CountsStep(s: Summary, rs: seq<Record>, r: Record)
    requires Counts(s, rs)
    ensures r.risk == CRITICAL ==> Counts(s.(critical := s.critical + 1), rs + [r])
    ensures r.risk == HIGH ==> Counts(s.(high := s.high + 1), rs + [r])
    ensures r.risk == MEDIUM ==> Counts(s.(medium := s.medium + 1), rs + [r])
    ensures r.risk == LOW ==> Counts(s.(low := s.low + 1), rs + [r])
  {
    hide CountOf;
    CountSnoc(rs, r, CRITICAL);
    CountSnoc(rs, r, HIGH);
    CountSnoc(rs, r, MEDIUM);
    CountSnoc(rs, r, LOW);
  }

  lemma {:induction false} NothingCounts()
    ensures Counts(Summary(0, 0, 0, 0), [])
  {
  }

  /** The critical ones of sorted, sound records come first, and Summarise's count says how many they are. */
  lemma {:induction false} CriticalComeFirst(c: Config, rs: seq<Record>)
    requires Descending(rs) && forall i :: 0 <= i < |rs| ==> Sound(c, rs[i])
    ensures CountOf(rs, CRITICAL) <= |rs|
    ensures forall i :: 0 <= i < |rs| ==> (rs[i].risk == CRITICAL <==> i < CountOf(rs, CRITICAL))
  {
    if rs != [] {
      var front, last := rs[..|rs| - 1], rs[|rs| - 1];
      assert forall i :: 0 <= i < |front| ==> front[i] == rs[i];
      CriticalComeFirst(c, front);
      assert rs == front + [last];
      CountSnoc(front, last, CRITICAL);
      assert Sound(c, last);
      if front != [] {
        var n := |front| - 1;
        assert Sound(c, front[n]) && rs[n].score >= rs[|front|].score;
        assert front[n].risk == CRITICAL <==> n < CountOf(front, CRITICAL);
      }
      hide CountOf;
    }
  }
}
