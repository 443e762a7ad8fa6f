/** Accumulation of a flow's score in capped buckets (internal/aggregate/aggregate.go, lines 845-895, 930-936,
    1234-1242, 1296-1308). A detector is an arbitrary signal: a bucket, points and a reason. */
module Scoring {
  import opened Sequences

  /** Points are never negative: every detector adds a positive constant. */
  type Points = p: real | p >= 0.0

  datatype Bucket = C2 | TLS | Behavioral | DNS | Process | Network

  datatype Signal = Signal(bucket: Bucket, points: Points, reason: string)

  function Cap(b: Bucket): Points {
    match b
    case C2 => 6.0
    case TLS => 3.5
    case Behavioral => 4.0
    case DNS => 3.0
    case Process => 3.5
    case Network => 5.0
  }

  function Min(a: real, b: real): real {
    if a <= b then a else b
  }

  function Scaled(raw: real, multiplier: Points): real {
    raw * multiplier
  }

  // ----- what the score should be

  /** The points of all signals for one bucket. */
  ghost function Sum(signals: seq<Signal>, b: Bucket): (s: Points) {
    if signals == [] then 0.0
    else Sum(signals[..|signals| - 1], b) + if signals[|signals| - 1].bucket == b then signals[|signals| - 1].points else 0.0
  }

  ghost function Level(signals: seq<Signal>, b: Bucket): real {
    Min(Cap(b), Sum(signals, b))
  }

  ghost function Raw(signals: seq<Signal>): real {
    Min(10.0, Level(signals, C2) + Level(signals, TLS) + Level(signals, Behavioral)
              + Level(signals, DNS) + Level(signals, Process) + Level(signals, Network))
  }

  /** The score of a flow: the capped sums, scaled by the anomaly multiplier, at most 10. */
  ghost function ScoreOf(signals: seq<Signal>, multiplier: Points): real {
    Min(10.0, Scaled(Raw(signals), multiplier))
  }

  /** The reasons that are kept: those of the signals that found room in their bucket. */
  ghost function Reasons(signals: seq<Signal>): seq<string> {
    if signals == [] then []
    else
      var front, last := signals[..|signals| - 1], signals[|signals| - 1];
      Reasons(front) + if Sum(front, last.bucket) < Cap(last.bucket) then [last.reason] else []
  }

  // ----- the buckets

  class ScoreBucket {
    const cap: real
    var total: real

    constructor (cap: real)
      ensures this.cap == cap && total == 0.0
    {
      this.cap, total := cap, 0.0;
    }

    /** add: false where the bucket is full already. */
    method Add(pts: Points) returns (added: bool)
      requires total <= cap
      modifies this
      ensures total == Min(cap, old(total) + pts) && added == (old(total) < cap)
    {
      var remaining := cap - total;
      if remaining <= 0.0 {
        return false;
      }
      var room: real := pts;
      if room > remaining {
        room := remaining;
      }
      total := total + room;
      added := true;
    }
  }

  class ScoreMap {
    const c2: ScoreBucket
    const tls: ScoreBucket
    const behavioral: ScoreBucket
    const dns: ScoreBucket
    const process: ScoreBucket
    const network: ScoreBucket

    /** The buckets hold the levels of the signals so far. */
    ghost predicate Holds(signals: seq<Signal>)
      reads Buckets()
    {
      && Caps() && c2.total == Level(signals, C2) && tls.total == Level(signals, TLS)
      && behavioral.total == Level(signals, Behavioral) && dns.total == Level(signals, DNS)
      && process.total == Level(signals, Process) && network.total == Level(signals, Network)
    }

    ghost function Buckets(): set<ScoreBucket> {
      {c2, tls, behavioral, dns, process, network}
    }

    ghost predicate Caps() {
      && |Buckets()| == 6
      && c2.cap == Cap(C2) && tls.cap == Cap(TLS) && behavioral.cap == Cap(Behavioral)
      && dns.cap == Cap(DNS) && process.cap == Cap(Process) && network.cap == Cap(Network)
    }

    constructor ()
      ensures Holds([]) && fresh(Buckets())
    {
      c2 := new ScoreBucket(6.0);
      tls := new ScoreBucket(3.5);
      behavioral := new ScoreBucket(4.0);
      dns := new ScoreBucket(3.0);
      process := new ScoreBucket(3.5);
      network := new ScoreBucket(5.0);
    }

    function Of(b: Bucket): ScoreBucket {
      match b
      case C2 => c2
      case TLS => tls
      case Behavioral => behavioral
      case DNS => dns
      case Process => process
      case Network => network
    }

    /** addTo on the bucket of a signal. */
    method AddTo(ghost before: seq<Signal>, s: Signal) returns (added: bool)
      requires Holds(before)
      modifies Buckets()
      ensures Holds(before + [s])
      ensures added == (Sum(before, s.bucket) < Cap(s.bucket))
    {
      LevelsSnoc(before, s);
      var bucket := Of(s.bucket);
      added := bucket.Add(s.points);
    }

    method Total() returns (sum: real)
      ensures forall signals :: Holds(signals) ==> sum == Raw(signals)
    {
      sum := c2.total + tls.total + behavioral.total + dns.total + process.total + network.total;
      if sum > 10.0 {
        sum := 10.0;
      }
    }
  }

  /** score, with the detectors' outcome and the baseline's multiplier as arguments. */
  method Score(signals: seq<Signal>, multiplier: Points) returns (total: real, reasons: seq<string>)
    ensures total == ScoreOf(signals, multiplier) && reasons == Reasons(signals)
  {
    hide Raw, Scaled;
    var sm := new ScoreMap();
    reasons := [];
    for i := 0 to |signals|
      invariant sm.Holds(signals[..i]) && reasons == Reasons(signals[..i])
      invariant fresh(sm.Buckets())
    {
      var s := signals[i];
      assert signals[..i + 1] == signals[..i] + [s];
      ReasonsSnoc(signals[..i], s);
      var added := sm.AddTo(signals[..i], s);
      if added {
        reasons := reasons + [s.reason];
      }
    }
    assert signals[..|signals|] == signals;
    var raw := sm.Total();
    total := Min(10.0, Scaled(raw, multiplier));
  }

  lemma {:induction false} SumSnoc(signals: seq<Signal>, s: Signal, b: Bucket)
    ensures Sum(signals + [s], b) == Sum(signals, b) + if s.bucket == b then s.points else 0.0
  {
    assert (signals + [s])[..|signals|] == signals;
  }

  lemma {:induction false} LevelsSnoc(signals: seq<Signal>, s: Signal)
    ensures forall b :: Level(signals + [s], b) == if s.bucket == b then Min(Cap(b), Level(signals, b) + s.points) else Level(signals, b)
  {
    forall b
      ensures Level(signals + [s], b) == if s.bucket == b then Min(Cap(b), Level(signals, b) + s.points) else Level(signals, b)
    {
      SumSnoc(signals, s, b);
    }
  }

  lemma {:induction false} ReasonsSnoc(signals: seq<Signal>, s: Signal)
    ensures Reasons(signals + [s]) == if Sum(signals, s.bucket) < Cap(s.bucket) then Reasons(signals) + [s.reason] else Reasons(signals)
  {
    assert (signals + [s])[..|signals|] == signals;
    assert Reasons(signals) + [] == Reasons(signals);
  }

  // ----- order and monotonicity

  lemma {:induction false} SumConcat(a: seq<Signal>, c: seq<Signal>, b: Bucket)
    ensures Sum(a + c, b) == Sum(a, b) + Sum(c, b)
  {
    if c == [] {
      assert a + c == a;
    } else {
      var front, last := c[..|c| - 1], c[|c| - 1];
      assert c == front + [last] && a + c == a + front + [last];
      SumConcat(a, front, b);
      SumSnoc(a + front, last, b);
      SumSnoc(front, last, b);
    }
  }

  lemma {:induction false} SumPermutes(a: seq<Signal>, c: seq<Signal>, b: Bucket)
    requires multiset(a) == multiset(c)
    ensures Sum(a, b) == Sum(c, b)
    decreases |a|
  {
    assert |multiset(a)| == |a| && |multiset(c)| == |c|;
    if a != [] {
      hide Sum;
      var front, last := a[..|a| - 1], a[|a| - 1];
      assert a == front + [last];
      var x, y := TakeOut(c, last);
      SumPermutes(front, x + y, b);
      SumSnoc(front, last, b);
      SumConcat(x, y, b);
      SumConcat(x + [last], y, b);
      SumSnoc(x, last, b);
    }
  }

  lemma {:induction false} RawOfLevels(a: seq<Signal>, c: seq<Signal>)
    requires forall b :: Level(a, b) <= Level(c, b)
    ensures Raw(a) <= Raw(c)
  {
    hide Level;
  }

  /** The score does not depend on the order in which the detectors run. */
  lemma {:induction false} ScoreIsOrderFree(a: seq<Signal>, c: seq<Signal>, multiplier: Points)
    requires multiset(a) == multiset(c)
    ensures ScoreOf(a, multiplier) == ScoreOf(c, multiplier)
  {
    forall b
      ensures Level(a, b) == Level(c, b)
    {
      SumPermutes(a, c, b);
    }
    hide Level, Scaled, Raw;
    RawOfLevels(a, c);
    RawOfLevels(c, a);
  }

  /** The reasons do depend on it: a strong signal that comes first silences a weak one of its bucket. */
  lemma {:induction false} ReasonsNeedTheOrder(weak: string, strong: string)
    requires weak != strong
    ensures var w, s := Signal(DNS, 1.0, weak), Signal(DNS, 3.0, strong);
            Reasons([w, s]) == [weak, strong] && Reasons([s, w]) == [strong]
  {
    var w, s := Signal(DNS, 1.0, weak), Signal(DNS, 3.0, strong);
    assert [w, s][..1] == [w] && [s, w][..1] == [s] && [w][..0] == [] && [s][..0] == [];
    assert Sum([w], DNS) == 1.0 && Sum([s], DNS) == 3.0;
    assert Reasons([w]) == [weak] && Reasons([s]) == [strong];
  }

  /** A signal that comes after `before` has its reason kept. */
  ghost predicate Kept(before: seq<Signal>, s: Signal) {
    Reasons(before + [s]) == Reasons(before) + [s.reason]
  }

  /** The other signals can come partly before and partly after. */
  ghost predicate Around(before: seq<Signal>, after: seq<Signal>, others: seq<Signal>) {
    multiset(before + after) == multiset(others)
  }

  /** A signal's reason is kept in every order of the detectors exactly if all others together leave room in its bucket. */
  lemma {:induction false} AlwaysKeptIff(others: seq<Signal>, s: Signal)
    ensures (forall before, after :: Around(before, after, others) ==> Kept(before, s)) <==> Sum(others, s.bucket) < Cap(s.bucket)
  {
    hide Sum, Reasons;
    KeptIff(others, s);
    assert others + [] == others;
    assert Around(others, [], others);
    forall before, after | Around(before, after, others) && Sum(others, s.bucket) < Cap(s.bucket)
      ensures Kept(before, s)
    {
      KeptIff(before, s);
      SumPermutes(before + after, others, s.bucket);
      SumConcat(before, after, s.bucket);
    }
  }

  lemma {:induction false} KeptIff(before: seq<Signal>, s: Signal)
    ensures Kept(before, s) <==> Sum(before, s.bucket) < Cap(s.bucket)
  {
    ReasonsSnoc(before, s);
    hide Sum, Reasons;
    assert |Reasons(before) + [s.reason]| == |Reasons(before)| + 1;
  }

  lemma {:induction false} RawBounded(signals: seq<Signal>)
    ensures 0.0 <= Raw(signals) <= 10.0
  {
  }

  lemma {:induction false} ScaledMonotone(a: real, b: real, m: Points)
    requires a <= b
    ensures Scaled(a, m) <= Scaled(b, m) && Scaled(0.0, m) == 0.0
  {
    assert (b - a) * m >= 0.0;
  }

  lemma {:induction false} ScoreInRange(signals: seq<Signal>, multiplier: Points)
    ensures 0.0 <= ScoreOf(signals, multiplier) <= 10.0
  {
    RawBounded(signals);
    hide Raw, Scaled;
    ScaledMonotone(0.0, Raw(signals), multiplier);
  }

  /** One more signal never lowers the score. */
  lemma {:induction false} MoreSignalsMoreScore(signals: seq<Signal>, s: Signal, multiplier: Points)
    ensures ScoreOf(signals, multiplier) <= ScoreOf(signals + [s], multiplier)
  {
    LevelsSnoc(signals, s);
    assert forall b :: Level(signals, b) <= Level(signals + [s], b);
    hide Level, Scaled, Raw;
    RawOfLevels(signals, signals + [s]);
    ScaledMonotone(Raw(signals), Raw(signals + [s]), multiplier);
  }

  // ----- what the score is

  lemma {:induction false} NoSignalsNoScore(m: Points)
    ensures ScoreOf([], m) == 0.0
  {
    assert Raw([]) == 0.0;
  }

  /** The points of a signal that fit on top of `level` points in a bucket with room for `cap`. */
  function Fitting(points: real, level: real, cap: real): real {
    var room := if level >= cap then 0.0 else cap - level;
    if points <= room then points else room
  }

  lemma {:induction false} FittingFits(points: Points, sum: Points, cap: real)
    requires cap >= 0.0
    ensures Min(cap, Min(cap, sum) + points) == Min(cap, sum) + Fitting(points, sum, cap)
  {
  }

  lemma {:induction false} ScaledByOne(x: real)
    ensures Scaled(x, 1.0) == x
  {
  }

  lemma {:induction false} Unscaled(signals: seq<Signal>)
    ensures ScoreOf(signals, 1.0) == Raw(signals)
  {
    ScaledByOne(Raw(signals));
    hide Level, Scaled;
  }

  /** Raw as a number of the six levels. */
  lemma {:induction false} RawStep(a: seq<Signal>, c: seq<Signal>, b: Bucket, more: Points)
    requires Level(c, b) == Level(a, b) + more && forall x :: x != b ==> Level(c, x) == Level(a, x)
    ensures Raw(c) == if Raw(a) + more <= 10.0 then Raw(a) + more else 10.0
  {
    hide Level;
  }

  /** What one more signal adds: what fits into its bucket beside the points of the signals before it, the buckets having
      room for 6, 3.5, 4, 3, 3.5 and 5 points, and the whole for 10. */
  lemma {:induction false} EachSignalAdds(signals: seq<Signal>, s: Signal)
    ensures var cap := match s.bucket
                       case C2 => 6.0
                       case TLS => 3.5
                       case Behavioral => 4.0
                       case DNS => 3.0
                       case Process => 3.5
                       case Network => 5.0;
            var sum := ScoreOf(signals, 1.0) + Fitting(s.points, Sum(signals, s.bucket), cap);
            ScoreOf(signals + [s], 1.0) == if sum <= 10.0 then sum else 10.0
  {
    LevelsSnoc(signals, s);
    FittingFits(s.points, Sum(signals, s.bucket), Cap(s.bucket));
    var more := Fitting(s.points, Sum(signals, s.bucket), Cap(s.bucket));
    Unscaled(signals);
    Unscaled(signals + [s]);
    assert Level(signals + [s], s.bucket) == Level(signals, s.bucket) + more;
    hide Level, Raw, Scaled, ScoreOf;
    RawStep(signals, signals + [s], s.bucket, more);
  }

  /** The points of a bucket are the points of its signals. */
  lemma {:induction false} PointsAdd(signals: seq<Signal>, s: Signal, b: Bucket)
    ensures Sum([], b) == 0.0
    ensures Sum(signals + [s], b) == if s.bucket == b then Sum(signals, b) + s.points else Sum(signals, b)
  {
    SumSnoc(signals, s, b);
  }

  /** The anomaly multiplier scales the score, up to 10. */
  lemma {:induction false} MultiplierScales(signals: seq<Signal>, m: Points)
    ensures var scaled := m * ScoreOf(signals, 1.0); ScoreOf(signals, m) == if scaled <= 10.0 then scaled else 10.0
  {
    Unscaled(signals);
    hide Raw;
  }

  // ----- risk tiers

  datatype Risk = LOW | MEDIUM | HIGH | CRITICAL

  /** The lower limits of the tiers are 2, 5 and 7. */
  lemma {:induction false} TierIff(score: real)
    ensures RiskLabel(score) == LOW <==> score < 2.0
    ensures RiskLabel(score) == MEDIUM <==> 2.0 <= score < 5.0
    ensures RiskLabel(score) == HIGH <==> 5.0 <= score < 7.0
    ensures RiskLabel(score) == CRITICAL <==> 7.0 <= score
  {
  }

  function RiskLabel(score: real): Risk {
    if score >= 7.0 then CRITICAL else if score >= 5.0 then HIGH else if score >= 2.0 then MEDIUM else LOW
  }

  function Rank(r: Risk): nat {
    match r
    case LOW => 0
    case MEDIUM => 1
    case HIGH => 2
    case CRITICAL => 3
  }
}
