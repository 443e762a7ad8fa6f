/** Queries and recurrence counts over the hot file together with the rotated day files
    (internal/history/history.go, lines 239-310, 373-503). */
module HistoryQuery {
  import opened Wrappers
  import opened HistoryLines
  import opened HistoryIndex
  import opened SafeReplace
  import opened HistoryRotation
  import opened HistoryRotationSafety
  import opened HistoryRerun
  import opened HistoryRuns
  import opened HistoryPrune
  import FlowKeys

  /** A day file is skipped when the day in its name ended before the cutoff. */
  predicate Skipped(d: int, cutoff: int) {
    (d + 1) * DAY < cutoff
  }

  /** What the day files `ds` contribute to a query, in any order. */
  ghost function ScanDays(c: Codec, days: map<int, seq<Line>>, ds: set<int>, cutoff: int, filter: seq<Flow> -> seq<Flow>): multiset<Record>
    requires ds <= days.Keys
  {
    if exists d :: d in ds then
      var d :| d in ds;
      multiset(Scan(c, days[d], cutoff, filter)) + ScanDays(c, days, ds - {d}, cutoff, filter)
    else multiset{}
  }

  lemma {:induction false} ScanDaysRemove(c: Codec, days: map<int, seq<Line>>, ds: set<int>, d: int, cutoff: int, filter: seq<Flow> -> seq<Flow>)
    requires ds <= days.Keys && d in ds
    ensures ScanDays(c, days, ds, cutoff, filter)
            == multiset(Scan(c, days[d], cutoff, filter)) + ScanDays(c, days, ds - {d}, cutoff, filter)
  {
    var e :| e in ds && ScanDays(c, days, ds, cutoff, filter)
                        == multiset(Scan(c, days[e], cutoff, filter)) + ScanDays(c, days, ds - {e}, cutoff, filter);
    if e != d {
      ScanDaysRemove(c, days, ds - {e}, d, cutoff, filter);
      ScanDaysRemove(c, days, ds - {d}, e, cutoff, filter);
      assert ds - {e} - {d} == ds - {d} - {e};
    }
  }

  /** Skipping a file by its name never drops an entry at or after the cutoff. */
  lemma {:induction false} SkippedDayHasNothing(c: Codec, days: map<int, seq<Line>>, d: int, cutoff: int, filter: seq<Flow> -> seq<Flow>)
    requires DaysSorted(c, days) && d in days && Skipped(d, cutoff)
    ensures Scan(c, days[d], cutoff, filter) == []
    ensures forall k :: Matching(c, days[d], Window(cutoff, k)) == []
  {
    forall i | 0 <= i < |days[d]|
      ensures c.decode(days[d][i]).Some? && c.decode(days[d][i]).value.ts < cutoff
    {
      assert days[d][i] in days[d];
      EndOfDay(c.decode(days[d][i]).value.ts, d);
    }
    ScanOfOld(c, days[d], cutoff, filter);
    forall k
      ensures Matching(c, days[d], Window(cutoff, k)) == []
    {
      MatchingOfOld(c, days[d], cutoff, k);
    }
  }

  lemma {:induction false} EndOfDay(ts: int, d: int)
    requires ts / DAY == d
    ensures ts < (d + 1) * DAY
  {
  }

  // ----- recurrence

  /** The canonical key of a flow. Ports are printed in decimal; here the port itself is the field. */
  datatype Key = Key(srcIP: string, dstIP: string, dstPort: nat, proto: string)

  function KeyOf(f: Flow): Key {
    Key(f.srcIP, f.dstIP, f.dstPort, f.proto)
  }

  /** Two flows have the same key exactly if they agree in source, destination, port and protocol, which is when the strings
      agree that the program uses. */
  lemma {:induction false} KeysTellFlowsApart(f: Flow, g: Flow)
    requires '\0' !in f.srcIP && '\0' !in f.dstIP && '\0' !in g.srcIP && '\0' !in g.dstIP
    ensures KeyOf(f) == KeyOf(g) <==> f.srcIP == g.srcIP && f.dstIP == g.dstIP && f.dstPort == g.dstPort && f.proto == g.proto
    ensures KeyOf(f) == KeyOf(g)
            <==> FlowKeys.RecurrenceKey(f.srcIP, f.dstIP, f.dstPort, f.proto) == FlowKeys.RecurrenceKey(g.srcIP, g.dstIP, g.dstPort, g.proto)
  {
    hide FlowKeys.RecurrenceKey;
    if FlowKeys.RecurrenceKey(f.srcIP, f.dstIP, f.dstPort, f.proto) == FlowKeys.RecurrenceKey(g.srcIP, g.dstIP, g.dstPort, g.proto) {
      FlowKeys.RecurrenceKeyInjective(f.srcIP, f.dstIP, f.dstPort, f.proto, g.srcIP, g.dstIP, g.dstPort, g.proto);
    }
  }

  ghost predicate HasKey(flows: seq<Flow>, k: Key) {
    exists i :: 0 <= i < |flows| && KeyOf(flows[i]) == k
  }

  /** A line is a capture window since `since` that contains a flow with key `k`. */
  ghost predicate IsWindow(c: Codec, line: Line, since: int, k: Key) {
    match c.decode(line)
    case None => false
    case Some(r) => r.ts >= since && HasKey(r.flows, k)
  }

  /** What is looked for: the windows with a key, or the records with flows for a filter. */
  datatype Wanted = Window(since: int, key: Key) | Match(cutoff: int, filter: seq<Flow> -> seq<Flow>)

  ghost predicate Fits(c: Codec, line: Line, w: Wanted) {
    match w
    case Window(since, k) => IsWindow(c, line, since, k)
    case Match(cutoff, filter) => Hit(c, line, cutoff, filter) != []
  }

  ghost function Matching(c: Codec, lines: seq<Line>, w: Wanted): seq<Line> {
    if lines == [] then [] else (if Fits(c, lines[0], w) then [lines[0]] else []) + Matching(c, lines[1..], w)
  }

  ghost function MatchingDays(c: Codec, days: map<int, seq<Line>>, ds: set<int>, w: Wanted): multiset<Line>
    requires ds <= days.Keys
  {
    if exists d :: d in ds then
      var d :| d in ds;
      multiset(Matching(c, days[d], w)) + MatchingDays(c, days, ds - {d}, w)
    else multiset{}
  }

  /** How reading a file goes: it cannot be opened, breaks off after some lines, or comes to the end. */
  datatype Reading = Refused | Broken(n: nat) | Complete

  /** The lines that a reader gets. */
  function Delivered(r: Reading, lines: seq<Line>): seq<Line> {
    match r
    case Refused => []
    case Broken(n) => First(lines, n)
    case Complete => lines
  }

  /** How many lines can be read for a new index, and how reading goes for the hot file from the sought offset on, the
      directory of the day files, and each of these. */
  datatype Access = Access(index: nat, hot: Reading, dir: bool, day: int -> Reading)

  /** What can be read of the day files. */
  ghost function DaysRead(a: Access, days: map<int, seq<Line>>): map<int, seq<Line>> {
    map d | d in days && a.dir :: Delivered(a.day(d), days[d])
  }

  /** What can be read of the hot file from the sought offset on. */
  ghost function HotRead(r: Reading, lines: seq<Line>, index: seq<IndexEntry>, cutoff: int): seq<Line> {
    Delivered(r, SoughtFor(lines, index, cutoff))
  }

  /** Every stored line that fits, once for each place it is stored in. */
  ghost function Windows(c: Codec, st: State, w: Wanted): multiset<Line> {
    multiset(if st.hot.Some? then Matching(c, st.hot.value, w) else []) + MatchingDays(c, st.days, st.days.Keys, w)
  }

  /** Those of them that can be read. */
  ghost function ReadableWindows(c: Codec, st: State, access: Access, w: Wanted): multiset<Line> {
    multiset(if st.hot.Some? then Matching(c, st.hot.value, w) else []) + MatchingDays(c, DaysRead(access, st.days), DaysRead(access, st.days).Keys, w)
  }

  lemma {:induction false} AllReadable(c: Codec, st: State, access: Access, w: Wanted)
    requires access.dir && forall d :: d in st.days ==> access.day(d) == Complete
    ensures ReadableWindows(c, st, access, w) == Windows(c, st, w)
  {
    forall d | d in st.days
      ensures DaysRead(access, st.days)[d] == st.days[d]
    {
      assert access.day(d) == Complete;
    }
    assert DaysRead(access, st.days) == st.days;
  }

  lemma {:induction false} MatchingConcat(c: Codec, a: seq<Line>, b: seq<Line>, w: Wanted)
    ensures Matching(c, a + b, w) == Matching(c, a, w) + Matching(c, b, w)
  {
    if a == [] {
      assert a + b == b;
    } else {
      assert (a + b)[1..] == a[1..] + b;
      MatchingConcat(c, a[1..], b, w);
    }
  }

  lemma {:induction false} MatchingOfOld(c: Codec, lines: seq<Line>, since: int, k: Key)
    requires forall i :: 0 <= i < |lines| && c.decode(lines[i]).Some? ==> c.decode(lines[i]).value.ts < since
    ensures Matching(c, lines, Window(since, k)) == []
  {
    if lines != [] {
      MatchingOfOld(c, lines[1..], since, k);
    }
  }

  lemma {:induction false} MatchingHas(c: Codec, lines: seq<Line>, w: Wanted, line: Line)
    ensures line in Matching(c, lines, w) <==> line in lines && Fits(c, line, w)
  {
    if lines != [] {
      MatchingHas(c, lines[1..], w, line);
      assert lines == [lines[0]] + lines[1..];
    }
  }

  /** A line is counted for a key exactly if it has a record since the given time with a flow of these addresses, port and
      protocol. */
  lemma {:induction false} CountedIff(c: Codec, lines: seq<Line>, since: int, k: Key, line: Line)
    ensures line in Matching(c, lines, Window(since, k))
            <==> && line in lines && c.decode(line).Some? && c.decode(line).value.ts >= since
                 && exists f :: f in c.decode(line).value.flows
                                && f.srcIP == k.srcIP && f.dstIP == k.dstIP && f.dstPort == k.dstPort && f.proto == k.proto
  {
    MatchingHas(c, lines, Window(since, k), line);
    hide Matching;
    if line in lines && c.decode(line).Some? {
      var flows := c.decode(line).value.flows;
      if f :| f in flows && f.srcIP == k.srcIP && f.dstIP == k.dstIP && f.dstPort == k.dstPort && f.proto == k.proto {
        var i :| 0 <= i < |flows| && flows[i] == f;
        assert KeyOf(flows[i]) == k;
      }
    }
  }

  lemma {:induction false} MatchingDaysRemove(c: Codec, days: map<int, seq<Line>>, ds: set<int>, d: int, w: Wanted)
    requires ds <= days.Keys && d in ds
    ensures MatchingDays(c, days, ds, w) == multiset(Matching(c, days[d], w)) + MatchingDays(c, days, ds - {d}, w)
  {
    var e :| e in ds && MatchingDays(c, days, ds, w)
                        == multiset(Matching(c, days[e], w)) + MatchingDays(c, days, ds - {e}, w);
    if e != d {
      MatchingDaysRemove(c, days, ds - {e}, d, w);
      MatchingDaysRemove(c, days, ds - {d}, e, w);
      assert ds - {e} - {d} == ds - {d} - {e};
    }
  }

  /** Starting a recurrence scan at the sought offset loses nothing either. */
  lemma {:induction false} SeekKeepsMatching(c: Codec, lines: seq<Line>, index: seq<IndexEntry>, lo: nat, since: int, k: Key)
    requires AllClean(lines) && InOrder(c, lines) && IndexOfSome(c, lines, index)
    requires lo <= |index| && (lo > 0 ==> index[lo - 1].ts < since)
    ensures Matching(c, SplitLines(ReadAt(Render(lines), StartOffset(index, lo))), Window(since, k)) == Matching(c, lines, Window(since, k))
  {
    hide Render, SplitLines, ReadAt, StartOffset, AllClean, IndexOfSome, InOrder, Fits, Matching;
    var j := SeekFindsLine(c, lines, index, lo, since);
    var skipped, read := lines[..j], lines[j..];
    assert lines == skipped + read;
    MatchingOfOld(c, skipped, since, k);
    MatchingConcat(c, skipped, read, Window(since, k));
    assert [] + Matching(c, read, Window(since, k)) == Matching(c, read, Window(since, k));
  }

  // ----- when seeking drops no window, in whatever order the timestamps are

  /** The flows that contain the key. */
  ghost function WantsKey(k: Key): seq<Flow> -> bool {
    flows => HasKey(flows, k)
  }

  /** Whatever time is asked for, seeking in the hot file drops no window with key `k`. */
  ghost predicate CountsExact(c: Codec, lines: seq<Line>, index: seq<IndexEntry>, k: Key) {
    forall since: int :: |Matching(c, SoughtFor(lines, index, since), Window(since, k))| == |Matching(c, lines, Window(since, k))|
  }

  lemma {:induction false} MatchingEmptyIff(c: Codec, lines: seq<Line>, w: Wanted)
    ensures Matching(c, lines, w) == [] <==> forall i :: 0 <= i < |lines| ==> !Fits(c, lines[i], w)
  {
    if lines != [] {
      hide Fits;
      MatchingEmptyIff(c, lines[1..], w);
      assert forall i :: 1 <= i < |lines| ==> lines[i] == lines[1..][i - 1];
    }
  }

  lemma {:induction false} CountForIsExactIff(c: Codec, lines: seq<Line>, at: seq<nat>, since: int, k: Key)
    requires AllClean(lines) && Places(c, lines, at)
    ensures |Matching(c, SoughtFor(lines, IndexAt(c, lines, at), since), Window(since, k))| == |Matching(c, lines, Window(since, k))|
            <==> forall i :: 0 <= i < |lines| && Asked(c, lines[i], since, WantsKey(k)) ==> StartFor(c, lines, at, since) <= i
  {
    hide Matching, Sought, Places, AllClean, Bisect, StartLine, HasKey;
    var lo, w := Bisect(IndexAt(c, lines, at), 0, |at|, since), Window(since, k);
    var j := StartLine(at, lo);
    SoughtFromStartLine(c, lines, at, lo);
    assert lines == lines[..j] + lines[j..];
    MatchingConcat(c, lines[..j], lines[j..], w);
    MatchingEmptyIff(c, lines[..j], w);
    assert forall i :: 0 <= i < j ==> lines[..j][i] == lines[i];
    assert forall i :: 0 <= i < |lines| ==> (Fits(c, lines[i], w) <==> Asked(c, lines[i], since, WantsKey(k)));
    hide Fits, Asked;
  }

  /** The number of windows that is counted for a key in the hot file is right, for every time asked for, if and only if
      every window with that key is read by the count for its own time. */
  lemma {:induction false} CountsAreExactIff(c: Codec, lines: seq<Line>, at: seq<nat>, k: Key)
    requires AllClean(lines) && Places(c, lines, at)
    ensures CountsExact(c, lines, IndexAt(c, lines, at), k) <==> Reached(c, lines, at, WantsKey(k))
  {
    hide Matching, SoughtFor, Places, AllClean, StartFor, Asked, Reached, WantsKey;
    NoneSkippedIff(c, lines, at, WantsKey(k));
    var index := IndexAt(c, lines, at);
    forall since: int
      ensures |Matching(c, SoughtFor(lines, index, since), Window(since, k))| == |Matching(c, lines, Window(since, k))|
              <==> forall i :: 0 <= i < |lines| && Asked(c, lines[i], since, WantsKey(k)) ==> StartFor(c, lines, at, since) <= i
    {
      CountForIsExactIff(c, lines, at, since, k);
    }
  }

  /** So it is in every state that a run reaches. */
  lemma {:induction false} CountsInRunsAreExactIff(c: Codec, cfg: Config, st: State, events: seq<Event>, n: nat, k: Key) returns (at: seq<nat>)
    requires Sound(c, st) && TameRun(c, cfg, events) && Run(c, cfg, st, events).hot.Some?
    ensures var now := EnsureIndex(c, Run(c, cfg, st, events), n);
            && now.hot.Some? && Places(c, now.hot.value, at) && now.index == IndexAt(c, now.hot.value, at)
            && (CountsExact(c, now.hot.value, now.index, k) <==> Reached(c, now.hot.value, at, WantsKey(k)))
            && (Orderly(c, now.hot.value, at, WantsKey(k)) ==> CountsExact(c, now.hot.value, now.index, k))
  {
    at := PlacesInRun(c, cfg, st, events, n);
    var now := EnsureIndex(c, Run(c, cfg, st, events), n);
    hide Run, EnsureIndex, CountsExact, Reached, Orderly, Places, IndexAt, AllClean, WantsKey;
    CountsAreExactIff(c, now.hot.value, at, k);
    if Orderly(c, now.hot.value, at, WantsKey(k)) {
      OrderlyIsEnough(c, now.hot.value, at, WantsKey(k));
    }
  }

  // ----- when every window is counted once

  ghost function Distinct<T>(m: multiset<T>): set<T> {
    set x | x in m
  }

  /** A multiset is as large as its set of elements exactly when nothing occurs twice. */
  lemma {:induction false} CountsOnce<T>(m: multiset<T>)
    ensures |m| >= |Distinct(m)|
    ensures |m| == |Distinct(m)| <==> forall x :: x in m ==> m[x] == 1
    decreases |m|
  {
    if m != multiset{} {
      var x :| x in m;
      var rest := m - multiset{x};
      CountsOnce(rest);
      if m[x] == 1 {
        assert Distinct(m) == Distinct(rest) + {x} && x !in rest;
        assert forall y :: y in m && y != x ==> rest[y] == m[y];
        assert forall y :: y in rest ==> y in m && rest[y] == m[y];
      } else {
        assert Distinct(m) == Distinct(rest);
      }
    }
  }

  ghost predicate NoRepeats(lines: seq<Line>) {
    forall i, j :: 0 <= i < j < |lines| ==> lines[i] != lines[j]
  }

  ghost predicate DaysUnrepeated(days: map<int, seq<Line>>) {
    forall d :: NoRepeats(DayLines(days, d))
  }

  lemma {:induction false} NoRepeatsIff(lines: seq<Line>)
    ensures NoRepeats(lines) <==> forall x :: multiset(lines)[x] <= 1
  {
    if lines != [] {
      var front, last := lines[..|lines| - 1], lines[|lines| - 1];
      NoRepeatsIff(front);
      assert lines == front + [last];
      assert NoRepeats(lines) <==> NoRepeats(front) && last !in front;
      assert forall x :: multiset(lines)[x] == multiset(front)[x] + if x == last then 1 else 0;
      assert last in front <==> multiset(front)[last] > 0;
    }
  }

  /** A merge never stores a line twice in a day file. */
  lemma {:induction false} MergeKeepsUnrepeated(existing: seq<Line>, more: seq<Line>)
    requires NoRepeats(existing)
    ensures NoRepeats(Merge(existing, more))
  {
    if more != [] {
      MergeKeepsUnrepeated(existing, more[..|more| - 1]);
    }
  }

  lemma {:induction false} MergeDayKeepsUnrepeated(st: State, d: int, more: seq<Line>, o: Outcome)
    requires DaysUnrepeated(st.days)
    ensures DaysUnrepeated(MergeDay(st, d, more, o).days)
  {
    MergeKeepsUnrepeated(DayLines(st.days, d), more);
    var days := MergeDay(st, d, more, o).days;
    assert forall e :: DayLines(days, e) == DayLines(st.days, e) || DayLines(days, e) == [] || DayLines(days, e) == Merge(DayLines(st.days, d), more);
    hide Merge, DayLines, MergeDay;
  }

  lemma {:induction false} MergeDaysKeepUnrepeated(c: Codec, st: State, lines: seq<Line>, today: int, ds: seq<int>)
    requires DaysUnrepeated(st.days)
    ensures DaysUnrepeated(MergeDays(c, st, lines, today, ds).days)
  {
    if ds != [] {
      hide DaysUnrepeated;
      MergeDaysKeepUnrepeated(c, st, lines, today, ds[..|ds| - 1]);
      MergeDayKeepsUnrepeated(MergeDays(c, st, lines, today, ds[..|ds| - 1]), ds[|ds| - 1], Part(c, lines, today, Some(ds[|ds| - 1])), Installed);
    }
  }

  lemma {:induction false} PurgeKeepsUnrepeated(days: map<int, seq<Line>>, now: int, maxRotatedDays: int, stuck: set<int>)
    requires DaysUnrepeated(days)
    ensures DaysUnrepeated(Purged(days, now, maxRotatedDays, stuck))
  {
    var left := Purged(days, now, maxRotatedDays, stuck);
    assert forall d :: DayLines(left, d) == DayLines(days, d) || DayLines(left, d) == [];
  }

  /** Every course of a rotation keeps the day files free of repeated lines. */
  lemma {:induction false} RotationKeepsUnrepeated(c: Codec, st: State, now: int, maxRotatedDays: int, course: Course)
    requires DaysUnrepeated(st.days)
    ensures DaysUnrepeated(Rotate(c, st, now, maxRotatedDays, course).days)
  {
    if st.hot.Some? {
      var lines, today := st.hot.value, now / DAY;
      var ordered := OrderedDays(c, lines, today);
      hide DaysUnrepeated, MergeDay, MergeDays, Purged, Part, OrderedDays;
      MergeDaysKeepUnrepeated(c, st, lines, today, ordered);
      PurgeKeepsUnrepeated(MergeDays(c, st, lines, today, ordered).days, now, maxRotatedDays, course.stuck);
      if Aborts(course, ordered) {
        MergeDaysKeepUnrepeated(c, st, lines, today, ordered[..course.day]);
        MergeDayKeepsUnrepeated(MergeDays(c, st, lines, today, ordered[..course.day]), ordered[course.day],
                                Part(c, lines, today, Some(ordered[course.day])), course.dayOutcome);
      }
    }
  }

  /** The day that a line belongs to. */
  ghost function OwnDay(c: Codec, line: Line): Option<int> {
    match c.decode(line)
    case None => None
    case Some(r) => Some(r.ts / DAY)
  }

  ghost predicate InOwnDay(c: Codec, days: map<int, seq<Line>>, line: Line) {
    match OwnDay(c, line)
    case None => false
    case Some(d) => line in DayLines(days, d)
  }

  ghost function OwnLines(c: Codec, days: map<int, seq<Line>>, line: Line): seq<Line> {
    match OwnDay(c, line)
    case None => []
    case Some(d) => DayLines(days, d)
  }

  lemma {:induction false} ElsewhereNot(c: Codec, days: map<int, seq<Line>>, d: int, line: Line)
    requires DaysSorted(c, days) && d in days
    ensures line in days[d] ==> OwnDay(c, line) == Some(d)
  {
  }

  lemma {:induction false} MatchingDaysCount(c: Codec, days: map<int, seq<Line>>, ds: set<int>, w: Wanted, line: Line)
    requires DaysSorted(c, days) && ds <= days.Keys
    ensures MatchingDays(c, days, ds, w)[line]
            == match OwnDay(c, line)
               case None => 0
               case Some(d) => if d in ds then multiset(Matching(c, days[d], w))[line] else 0
    decreases ds
  {
    hide DaysSorted, Matching, OwnDay;
    if exists d :: d in ds {
      var d :| d in ds;
      MatchingDaysRemove(c, days, ds, d, w);
      MatchingDaysCount(c, days, ds - {d}, w, line);
      MatchingHas(c, days[d], w, line);
      ElsewhereNot(c, days, d, line);
      assert line in Matching(c, days[d], w) <==> line in multiset(Matching(c, days[d], w));
    } else {
      assert ds == {};
    }
  }

  /** How often a line is counted: in the hot file, and in the file of its own day. */
  lemma {:induction false} WindowCount(c: Codec, st: State, w: Wanted, line: Line)
    requires DaysSorted(c, st.days)
    ensures Windows(c, st, w)[line]
            == multiset(Matching(c, HotLines(st), w))[line] + multiset(Matching(c, OwnLines(c, st.days, line), w))[line]
  {
    MatchingDaysCount(c, st.days, st.days.Keys, w, line);
    assert Matching(c, [], w) == [];
    hide Matching, MatchingDays, DaysSorted;
  }

  /** The hot file and every day file hold a window with key `k` once at most, and none is in both places. */
  ghost predicate StoredOnce(c: Codec, st: State, w: Wanted) {
    && NoRepeats(Matching(c, HotLines(st), w))
    && (forall d :: NoRepeats(Matching(c, DayLines(st.days, d), w)))
    && (forall line :: line in HotLines(st) && Fits(c, line, w) ==> !InOwnDay(c, st.days, line))
  }

  lemma {:induction false} LineStoredOnce(c: Codec, st: State, w: Wanted, line: Line)
    requires DaysSorted(c, st.days) && StoredOnce(c, st, w)
    ensures Windows(c, st, w)[line] <= 1
  {
    hide Matching, Windows, DaysSorted, Fits;
    WindowCount(c, st, w, line);
    MatchingHas(c, HotLines(st), w, line);
    MatchingHas(c, OwnLines(c, st.days, line), w, line);
    NoRepeatsIff(Matching(c, HotLines(st), w));
    NoRepeatsIff(Matching(c, OwnLines(c, st.days, line), w));
    NothingRepeats(c, w);
    hide NoRepeats;
    assert line in multiset(Matching(c, HotLines(st), w)) <==> line in Matching(c, HotLines(st), w);
    assert line in multiset(Matching(c, OwnLines(c, st.days, line), w)) <==> line in Matching(c, OwnLines(c, st.days, line), w);
  }

  lemma {:induction false} NothingRepeats(c: Codec, w: Wanted)
    ensures NoRepeats(Matching(c, [], w))
  {
  }

  lemma {:induction false} Repeated(lines: seq<Line>) returns (x: Line)
    requires !NoRepeats(lines)
    ensures multiset(lines)[x] >= 2
  {
    NoRepeatsIff(lines);
    x :| multiset(lines)[x] > 1;
  }

  lemma {:induction false} StoredTwice(c: Codec, st: State, w: Wanted) returns (line: Line)
    requires DaysSorted(c, st.days) && !StoredOnce(c, st, w)
    ensures Windows(c, st, w)[line] >= 2
  {
    hide Matching, Windows, DaysSorted, Fits, NoRepeats;
    if !NoRepeats(Matching(c, HotLines(st), w)) {
      line := Repeated(Matching(c, HotLines(st), w));
      WindowCount(c, st, w, line);
    } else if d :| !NoRepeats(Matching(c, DayLines(st.days, d), w)) {
      line := Repeated(Matching(c, DayLines(st.days, d), w));
      NothingRepeats(c, w);
      assert line in Matching(c, DayLines(st.days, d), w);
      MatchingHas(c, DayLines(st.days, d), w, line);
      ElsewhereNot(c, st.days, d, line);
      WindowCount(c, st, w, line);
    } else {
      line :| line in HotLines(st) && Fits(c, line, w) && InOwnDay(c, st.days, line);
      WindowCount(c, st, w, line);
      MatchingHas(c, HotLines(st), w, line);
      MatchingHas(c, OwnLines(c, st.days, line), w, line);
    }
  }

  /** The recurrence count of a key is its number of distinct windows if and only if neither the hot file nor a day
      file repeats a window with that key, and none in the hot file lies in the file of its own day as well. */
  lemma {:induction false} RecurrenceIsExact(c: Codec, st: State, w: Wanted)
    requires DaysSorted(c, st.days)
    ensures |Windows(c, st, w)| >= |Distinct(Windows(c, st, w))|
    ensures |Windows(c, st, w)| == |Distinct(Windows(c, st, w))| <==> StoredOnce(c, st, w)
  {
    hide Windows, StoredOnce, DaysSorted, Distinct;
    CountsOnce(Windows(c, st, w));
    if StoredOnce(c, st, w) {
      forall line
        ensures Windows(c, st, w)[line] <= 1
      {
        LineStoredOnce(c, st, w, line);
      }
    } else {
      var line := StoredTwice(c, st, w);
    }
  }

  lemma {:induction false} MatchingUnrepeated(c: Codec, lines: seq<Line>, w: Wanted)
    requires NoRepeats(lines)
    ensures NoRepeats(Matching(c, lines, w))
  {
    if lines != [] {
      MatchingUnrepeated(c, lines[1..], w);
      MatchingHas(c, lines[1..], w, lines[0]);
      assert lines == [lines[0]] + lines[1..];
    }
  }

  /** Where no file repeats a line, which every rotation preserves for the day files, the count is right if and only if
      no window of the key is in the hot file and in its day's file. */
  lemma {:induction false} UnrepeatedCountIsExact(c: Codec, st: State, w: Wanted)
    requires DaysSorted(c, st.days) && NoRepeats(HotLines(st)) && DaysUnrepeated(st.days)
    ensures |Windows(c, st, w)| == |Distinct(Windows(c, st, w))|
            <==> forall line :: line in HotLines(st) && Fits(c, line, w) ==> !InOwnDay(c, st.days, line)
  {
    hide Windows, DaysSorted, Distinct, Fits, InOwnDay, Matching, NoRepeats;
    RecurrenceIsExact(c, st, w);
    MatchingUnrepeated(c, HotLines(st), w);
    forall d
      ensures NoRepeats(Matching(c, DayLines(st.days, d), w))
    {
      MatchingUnrepeated(c, DayLines(st.days, d), w);
    }
  }

  // ----- which lines a prune leaves in two places

  /** A line of the hot file that lies in the file of its own day as well. */
  ghost predicate Doubled(c: Codec, st: State, line: Line) {
    line in HotLines(st) && InOwnDay(c, st.days, line)
  }

  lemma {:induction false} OldDayIsOwn(c: Codec, line: Line, today: int)
    ensures OldDay(c, line, today).Some? ==> OldDay(c, line, today) == OwnDay(c, line)
  {
  }

  /** Whatever becomes of a pruneOld, afterwards exactly those lines are in both places that the prune left in the hot file
      and that their day file had, or got merged, unless it was displaced or deleted. */
  lemma {:induction false} PruneOldDoubles(c: Codec, cfg: Config, st: State, rotateAt: int, course: Course, pruneAt: int, o: Outcome, line: Line)
    requires PossibleCourse(c, st, rotateAt, course)
    ensures var own, goes := OwnDay(c, line), OldDay(c, line, rotateAt / DAY);
            Doubled(c, PruneOld(c, st, cfg, rotateAt, course, pruneAt, o), line)
            <==> && line in Left(c, cfg, HotBetween(c, cfg, st, rotateAt, course), pruneAt, o)
                 && own.Some?
                 && !Displaces(c, cfg, st, rotateAt, course, own.value) && !Deletes(c, cfg, st, rotateAt, course, own.value)
                 && (InOwnDay(c, st.days, line) || (goes.Some? && MergesDay(c, cfg, st, rotateAt, course, goes.value)))
  {
    var own := OwnDay(c, line);
    OldDayIsOwn(c, line, rotateAt / DAY);
    AfterPruneOld(c, cfg, st, rotateAt, course, pruneAt, o);
    HotShrinks(c, cfg, st, rotateAt, course, pruneAt, o, line);
    if own.Some? {
      RotatedDayHas(c, cfg, st, rotateAt, course, own.value, line);
    }
    hide PruneOld, Rotated, HotBetween, Left, OldDay, OwnDay, Displaces, Deletes, MergesDay, PossibleCourse;
  }

  /** After a rotation that stopped at a day file these are, of the lines that the prune left, those of the days that were
      merged before, and of that day if only its backup could not be removed. */
  lemma {:induction false} AbortedRotationDoubles(c: Codec, cfg: Config, st: State, rotateAt: int, course: Course, pruneAt: int, o: Outcome, line: Line)
    requires PossibleCourse(c, st, rotateAt, course) && Stops(c, cfg, st, rotateAt, course)
    ensures var ordered, goes := Ordered(c, st, rotateAt), OldDay(c, line, rotateAt / DAY);
            Doubled(c, PruneOld(c, st, cfg, rotateAt, course, pruneAt, o), line)
            <==> && line in Left(c, cfg, HotLines(st), pruneAt, o) && OwnDay(c, line).Some?
                 && if OwnDay(c, line).value == ordered[course.day] then
                      course.dayOutcome != Displaced && (InOwnDay(c, st.days, line) || (course.dayOutcome == InstalledBackupKept && goes.Some?))
                    else InOwnDay(c, st.days, line) || (goes.Some? && goes.value in ordered[..course.day])
  {
    PruneOldDoubles(c, cfg, st, rotateAt, course, pruneAt, o, line);
    OldDayIsOwn(c, line, rotateAt / DAY);
    OrderedDistinct(c, HotLines(st), rotateAt / DAY);
    hide PruneOld, Left, OldDay, OwnDay, PossibleCourse, OrderedDays, InOwnDay, Doubled;
  }

  /** After a rotation that merged all days but left the hot file as it was, all lines that it was to move. */
  lemma {:induction false} UnfinishedRotationDoubles(c: Codec, cfg: Config, st: State, rotateAt: int, course: Course, pruneAt: int, o: Outcome, line: Line)
    requires PossibleCourse(c, st, rotateAt, course) && Rewrites(c, cfg, st, rotateAt, course) && course.hotOutcome == Untouched
    ensures Doubled(c, PruneOld(c, st, cfg, rotateAt, course, pruneAt, o), line)
            <==> line in Left(c, cfg, HotLines(st), pruneAt, o) && (InOwnDay(c, st.days, line) || OldDay(c, line, rotateAt / DAY).Some?)
  {
    PruneOldDoubles(c, cfg, st, rotateAt, course, pruneAt, o, line);
    OldDayIsOwn(c, line, rotateAt / DAY);
    HotShrinks(c, cfg, st, rotateAt, course, pruneAt, o, line);
    var goes := OldDay(c, line, rotateAt / DAY);
    if goes.Some? && line in HotLines(st) {
      MovedIsOrdered(c, HotLines(st), rotateAt / DAY, goes.value, line);
    }
    hide PruneOld, Left, OldDay, PossibleCourse, OrderedDays, Doubled;
  }

  /** So a count can be too high: a rotation merges one line into its day file, cannot rewrite the hot file, and the prune
      cannot either. */
  lemma {:induction false} UnfinishedRotationRecounts(c: Codec, cfg: Config, line: Line, rotateAt: int, pruneAt: int, w: Wanted)
    requires cfg.compressRotated && OldDay(c, line, rotateAt / DAY).Some? && Fits(c, line, w)
    ensures var st, course := State(Some([line]), map[], [], []), Course(0, Installed, Untouched, {});
            var after := PruneOld(c, st, cfg, rotateAt, course, pruneAt, Untouched);
            PossibleCourse(c, st, rotateAt, course) && |Windows(c, after, w)| > |Distinct(Windows(c, after, w))|
  {
    var st, course := State(Some([line]), map[], [], []), Course(0, Installed, Untouched, {});
    var after := PruneOld(c, st, cfg, rotateAt, course, pruneAt, Untouched);
    OneLine(c, cfg, line, rotateAt / DAY);
    hide PruneOld, OldDay, OrderedDays, Windows, Fits, InOwnDay, DaysSorted, Distinct, Matching, NoRepeats;
    UnfinishedRotationDoubles(c, cfg, st, rotateAt, course, pruneAt, Untouched, line);
    assert line in HotLines(after) && InOwnDay(c, after.days, line);
    EmptyDaysStaySorted(c, cfg, st, rotateAt, course, pruneAt);
    RecurrenceIsExact(c, after, w);
  }

  lemma {:induction false} EmptyDaysStaySorted(c: Codec, cfg: Config, st: State, rotateAt: int, course: Course, pruneAt: int)
    requires st.days == map[]
    ensures DaysSorted(c, PruneOld(c, st, cfg, rotateAt, course, pruneAt, Untouched).days)
  {
    RotationKeepsDaysSorted(c, st, rotateAt, cfg.maxRotatedDays, course);
    AfterPruneOld(c, cfg, st, rotateAt, course, pruneAt, Untouched);
    hide PruneOld, Rotate;
  }

  /** After a rotation that ran to its end, only lines that stayed, and that a day file had before. */
  lemma {:induction false} FinishedRotationDoubles(c: Codec, cfg: Config, st: State, rotateAt: int, course: Course, pruneAt: int, o: Outcome, line: Line)
    requires PossibleCourse(c, st, rotateAt, course) && Rewrites(c, cfg, st, rotateAt, course) && course.hotOutcome == Installed
    ensures Doubled(c, PruneOld(c, st, cfg, rotateAt, course, pruneAt, o), line)
            <==> && line in Left(c, cfg, Part(c, HotLines(st), rotateAt / DAY, None), pruneAt, o) && InOwnDay(c, st.days, line)
                 && !Deletes(c, cfg, st, rotateAt, course, OwnDay(c, line).value)
  {
    PruneOldDoubles(c, cfg, st, rotateAt, course, pruneAt, o, line);
    HotShrinks(c, cfg, st, rotateAt, course, pruneAt, o, line);
    PartHas(c, HotLines(st), rotateAt / DAY, None, line);
    hide PruneOld, Left, OldDay, PossibleCourse, OrderedDays, Part, Doubled, Deletes;
  }

  // ----- what a query returns

  /** A line is in the hot file, or in a day file. */
  ghost predicate InFiles(hot: seq<Line>, days: map<int, seq<Line>>, line: Line) {
    line in hot || exists d :: d in days && line in days[d]
  }

  /** The record that a line has is at or after the cutoff, with flows for the filter, and `r` is what they are. */
  ghost predicate AnsweredBy(c: Codec, line: Line, cutoff: int, filter: seq<Flow> -> seq<Flow>, r: Record) {
    match c.decode(line)
    case None => false
    case Some(e) => e.ts >= cutoff && filter(e.flows) != [] && r == Record(e.ts, filter(e.flows))
  }

  lemma {:induction false} ScanHas(c: Codec, lines: seq<Line>, cutoff: int, filter: seq<Flow> -> seq<Flow>, r: Record)
    ensures r in Scan(c, lines, cutoff, filter) <==> exists line :: line in lines && AnsweredBy(c, line, cutoff, filter, r)
  {
    if lines != [] {
      ScanHas(c, lines[1..], cutoff, filter, r);
      assert r in Hit(c, lines[0], cutoff, filter) <==> AnsweredBy(c, lines[0], cutoff, filter, r);
      assert lines == [lines[0]] + lines[1..];
      hide Hit, AnsweredBy;
    }
  }

  lemma {:induction false} ScanDaysHas(c: Codec, days: map<int, seq<Line>>, ds: set<int>, cutoff: int, filter: seq<Flow> -> seq<Flow>, r: Record)
    requires ds <= days.Keys
    ensures r in ScanDays(c, days, ds, cutoff, filter)
            <==> exists d, line :: d in ds && line in days[d] && AnsweredBy(c, line, cutoff, filter, r)
    decreases ds
  {
    hide Scan, AnsweredBy;
    if exists d :: d in ds {
      var d :| d in ds;
      ScanDaysRemove(c, days, ds, d, cutoff, filter);
      ScanDaysHas(c, days, ds - {d}, cutoff, filter, r);
      ScanHas(c, days[d], cutoff, filter, r);
      assert r in multiset(Scan(c, days[d], cutoff, filter)) <==> r in Scan(c, days[d], cutoff, filter);
    } else {
      assert ds == {};
    }
  }

  /** A record is among the results exactly if some stored line has it: its time, and those of its flows that the filter
      keeps. */
  lemma {:induction false} ResultsHave(c: Codec, st: State, cutoff: int, filter: seq<Flow> -> seq<Flow>, r: Record)
    ensures r in Results(c, st, cutoff, filter)
            <==> exists line :: InFiles(HotLines(st), st.days, line) && AnsweredBy(c, line, cutoff, filter, r)
  {
    hide Scan, ScanDays, AnsweredBy, HotLines;
    ScanHas(c, HotLines(st), cutoff, filter, r);
    ScanDaysHas(c, st.days, st.days.Keys, cutoff, filter, r);
    assert r in multiset(Scan(c, HotLines(st), cutoff, filter)) <==> r in Scan(c, HotLines(st), cutoff, filter);
    if d, line :| d in st.days.Keys && line in st.days[d] && AnsweredBy(c, line, cutoff, filter, r) {
      assert InFiles(HotLines(st), st.days, line);
    }
  }

  /** The filter keeps exactly the flows with a property. */
  ghost predicate KeepsThose(filter: seq<Flow> -> seq<Flow>, p: Flow -> bool) {
    forall flows, f :: f in filter(flows) <==> f in flows && p(f)
  }

  /** Where the filter keeps the flows with a property, every returned flow has it, and every stored flow since the cutoff
      that has it is returned with its time. */
  lemma {:induction false} FlowsAreReturned(c: Codec, st: State, cutoff: int, filter: seq<Flow> -> seq<Flow>, p: Flow -> bool)
    requires KeepsThose(filter, p)
    ensures forall r :: r in Results(c, st, cutoff, filter) ==> r.ts >= cutoff && forall f :: f in r.flows ==> p(f)
    ensures forall line, f :: InFiles(HotLines(st), st.days, line) && c.decode(line).Some? && f in c.decode(line).value.flows
                              && c.decode(line).value.ts >= cutoff && p(f) ==>
              exists r :: r in Results(c, st, cutoff, filter) && r.ts == c.decode(line).value.ts && f in r.flows
  {
    hide Results, InFiles, HotLines;
    forall r | r in Results(c, st, cutoff, filter)
      ensures r.ts >= cutoff && forall f :: f in r.flows ==> p(f)
    {
      ResultsHave(c, st, cutoff, filter, r);
      var line :| InFiles(HotLines(st), st.days, line) && AnsweredBy(c, line, cutoff, filter, r);
      assert r.flows == filter(c.decode(line).value.flows);
    }
    forall line, f | && InFiles(HotLines(st), st.days, line) && c.decode(line).Some? && f in c.decode(line).value.flows
                     && c.decode(line).value.ts >= cutoff && p(f)
      ensures exists r :: r in Results(c, st, cutoff, filter) && r.ts == c.decode(line).value.ts && f in r.flows
    {
      var e := c.decode(line).value;
      var r := Record(e.ts, filter(e.flows));
      ResultsHave(c, st, cutoff, filter, r);
      assert f in filter(e.flows);
      assert AnsweredBy(c, line, cutoff, filter, r);
    }
  }

  /** A record that is appended is returned by a query for its time, with the flows that the filter keeps. Appends of no
      flows, and of lines over 64 mebibytes, change nothing. */
  lemma {:induction false} AppendedIsReturned(c: Codec, st: State, r: Record, line: Line, cutoff: int, filter: seq<Flow> -> seq<Flow>)
    requires RoundTrips(c, r) && c.encode(r) == Some(line)
    ensures r.flows == [] || |line| > 67_108_864 ==> forall io :: Append(c, st, r, io) == st
    ensures r.flows != [] && |line| <= 67_108_864 && r.ts >= cutoff && filter(r.flows) != [] ==>
              Record(r.ts, filter(r.flows)) in Results(c, Append(c, st, r, Written), cutoff, filter)
  {
    var after := Append(c, st, r, Written);
    if r.flows != [] && |line| <= 67_108_864 && r.ts >= cutoff && filter(r.flows) != [] {
      assert HotLines(after) == HotLines(st) + [line];
      assert InFiles(HotLines(after), after.days, line);
      hide Results, InFiles, Append;
      ResultsHave(c, after, cutoff, filter, Record(r.ts, filter(r.flows)));
      assert AnsweredBy(c, line, cutoff, filter, Record(r.ts, filter(r.flows)));
    }
  }

  // ----- when a query returns every record once

  /** What a query returns where all files can be read. */
  ghost function Results(c: Codec, st: State, cutoff: int, filter: seq<Flow> -> seq<Flow>): multiset<Record> {
    multiset(Scan(c, HotLines(st), cutoff, filter)) + ScanDays(c, st.days, st.days.Keys, cutoff, filter)
  }

  lemma {:induction false} ScanSize(c: Codec, lines: seq<Line>, cutoff: int, filter: seq<Flow> -> seq<Flow>)
    ensures |Scan(c, lines, cutoff, filter)| == |Matching(c, lines, Match(cutoff, filter))|
  {
    if lines != [] {
      ScanSize(c, lines[1..], cutoff, filter);
    }
  }

  lemma {:induction false} ScanDaysSize(c: Codec, days: map<int, seq<Line>>, ds: set<int>, cutoff: int, filter: seq<Flow> -> seq<Flow>)
    requires ds <= days.Keys
    ensures |ScanDays(c, days, ds, cutoff, filter)| == |MatchingDays(c, days, ds, Match(cutoff, filter))|
    decreases ds
  {
    hide Scan, Matching;
    if exists d :: d in ds {
      var d :| d in ds;
      ScanDaysRemove(c, days, ds, d, cutoff, filter);
      MatchingDaysRemove(c, days, ds, d, Match(cutoff, filter));
      ScanDaysSize(c, days, ds - {d}, cutoff, filter);
      ScanSize(c, days[d], cutoff, filter);
    } else {
      assert ds == {};
    }
  }

  /** A query returns one record for every distinct matching line if and only if neither the hot file nor a day file
      repeats a matching line, and none in the hot file lies in the file of its own day as well; otherwise it returns
      more. */
  lemma {:induction false} QueryReturnsOnceIff(c: Codec, st: State, cutoff: int, filter: seq<Flow> -> seq<Flow>)
    requires DaysSorted(c, st.days)
    ensures var lines := Windows(c, st, Match(cutoff, filter));
            && |Results(c, st, cutoff, filter)| >= |Distinct(lines)|
            && (|Results(c, st, cutoff, filter)| == |Distinct(lines)| <==> StoredOnce(c, st, Match(cutoff, filter)))
  {
    ScanSize(c, HotLines(st), cutoff, filter);
    ScanDaysSize(c, st.days, st.days.Keys, cutoff, filter);
    hide Scan, ScanDays, Matching, MatchingDays, DaysSorted, StoredOnce, Distinct;
    RecurrenceIsExact(c, st, Match(cutoff, filter));
    assert Matching(c, [], Match(cutoff, filter)) == [] by { NothingFits(c, Match(cutoff, filter)); }
  }

  lemma {:induction false} NothingFits(c: Codec, w: Wanted)
    ensures Matching(c, [], w) == []
  {
  }
}
