/** The history store: the methods of internal/history/history.go over the bytes of the hot file,
    the day files and the in-memory index, each proved to act as the matching step of the state
    machine. Clock readings, I/O failures and the codec are parameters. */
module HistoryStore {
  import opened Sequences
  import opened Wrappers
  import opened Wire
  import opened HistoryLines
  import opened HistoryIndex
  import opened SafeReplace
  import opened HistoryRotation
  import opened HistoryRotationSafety
  import opened HistoryRuns
  import opened HistoryQuery

  const PRUNE_EVERY: nat := 5

  ghost function CountOf(counts: map<Key, nat>, k: Key): nat {
    if k in counts then counts[k] else 0
  }

  ghost predicate SortedByTime(rs: seq<Record>) {
    forall i, j :: 0 <= i < j < |rs| ==> rs[i].ts <= rs[j].ts
  }

  /** sort.Slice by timestamp; the order of records with equal timestamps is unspecified. */
  method SortByTime(rs: seq<Record>) returns (sorted: seq<Record>)
    ensures SortedByTime(sorted) && multiset(sorted) == multiset(rs)
  {
    sorted := [];
    for i := 0 to |rs|
      invariant SortedByTime(sorted) && multiset(sorted) == multiset(rs[..i])
    {
      assert rs[..i + 1] == rs[..i] + [rs[i]];
      sorted := InsertByTime(sorted, rs[i]);
    }
    assert rs[..|rs|] == rs;
  }

  lemma {:induction false} InsertedInOrder(rs: seq<Record>, j: nat, r: Record)
    requires SortedByTime(rs) && j <= |rs|
    requires (j > 0 ==> rs[j - 1].ts <= r.ts) && (j < |rs| ==> r.ts <= rs[j].ts)
    ensures SortedByTime(rs[..j] + [r] + rs[j..])
  {
    var s := rs[..j] + [r] + rs[j..];
    forall x, y | 0 <= x < y < |s|
      ensures s[x].ts <= s[y].ts
    {
      assert x < j ==> s[x] == rs[x];
      assert x > j ==> s[x] == rs[x - 1];
      assert y < j ==> s[y] == rs[y];
      assert y > j ==> s[y] == rs[y - 1];
    }
  }

  method InsertByTime(rs: seq<Record>, r: Record) returns (sorted: seq<Record>)
    requires SortedByTime(rs)
    ensures SortedByTime(sorted) && multiset(sorted) == multiset(rs) + multiset{r}
  {
    var j := |rs|;
    while j > 0 && rs[j - 1].ts > r.ts
      invariant 0 <= j <= |rs|
      invariant forall k :: j <= k < |rs| ==> rs[k].ts > r.ts
    {
      j := j - 1;
    }
    InsertedInOrder(rs, j, r);
    InsertedMultiset(rs, j, r);
    sorted := rs[..j] + [r] + rs[j..];
  }

  /** Counts every key of one window once, however many of its flows carry it. */
  method AddEntryRecurrences(counts: map<Key, nat>, flows: seq<Flow>) returns (r: map<Key, nat>)
    ensures forall k :: CountOf(r, k) == CountOf(counts, k) + if HasKey(flows, k) then 1 else 0
  {
    r := counts;
    var seen: set<Key> := {};
    NoFlowsNoKeys();
    hide HasKey, KeyOf;
    for i := 0 to |flows|
      invariant forall k :: k in seen <==> HasKey(flows[..i], k)
      invariant forall k :: CountOf(r, k) == CountOf(counts, k) + if k in seen then 1 else 0
    {
      var k := KeyOf(flows[i]);
      HasKeySnoc(flows, i);
      if k !in seen {
        seen := seen + {k};
        r := r[k := (if k in r then r[k] else 0) + 1];
      }
    }
    assert flows[..|flows|] == flows;
  }

  lemma {:induction false} NoFlowsNoKeys()
    ensures forall k :: !HasKey([], k)
  {
  }

  lemma {:induction false} HasKeySnoc(flows: seq<Flow>, i: nat)
    requires i < |flows|
    ensures forall x :: HasKey(flows[..i + 1], x) <==> HasKey(flows[..i], x) || x == KeyOf(flows[i])
  {
    forall x
      ensures HasKey(flows[..i + 1], x) <==> HasKey(flows[..i], x) || x == KeyOf(flows[i])
    {
      if HasKey(flows[..i], x) {
        var j :| 0 <= j < i && KeyOf(flows[..i][j]) == x;
        assert KeyOf(flows[..i + 1][j]) == x;
      }
      assert flows[..i + 1][i] == flows[i];
    }
  }

  /** The lines of `more` that are not in the file yet, appended to it. */
  method MergeLines(existing: seq<Line>, more: seq<Line>) returns (all: seq<Line>)
    ensures all == Merge(existing, more)
  {
    all := existing;
    var seen := set line | line in existing;
    for i := 0 to |more|
      invariant all == Merge(existing, more[..i])
      invariant forall line :: line in seen <==> line in all
    {
      assert more[..i + 1][..i] == more[..i];
      if more[i] !in seen {
        seen := seen + {more[i]};
        all := all + [more[i]];
      }
    }
    assert more[..|more|] == more;
  }

  /** Drops lines from the front of `keep`, whose size is `bytes`, until they fit. */
  method DropOldest(keep: seq<Line>, bytes: int, maxBytes: int) returns (r: seq<Line>)
    requires bytes == Size(keep)
    ensures r == Trim(keep, maxBytes)
  {
    r := keep;
    var left := bytes;
    while maxBytes > 0 && left > maxBytes && |r| > 0
      invariant left == Size(r) && Trim(r, maxBytes) == Trim(keep, maxBytes)
    {
      left := left - (|r[0]| + 1);
      r := r[1..];
    }
  }

  /** The first index position whose timestamp is not before the cutoff, found by bisection. */
  method SearchIndex(index: seq<IndexEntry>, cutoff: int) returns (lo: nat)
    ensures lo == Bisect(index, 0, |index|, cutoff) && Answer(index, lo, cutoff)
  {
    lo := 0;
    var hi := |index|;
    while lo < hi
      invariant lo <= hi <= |index|
      invariant Bisect(index, lo, hi, cutoff) == Bisect(index, 0, |index|, cutoff)
    {
      var mid := (lo + hi) / 2;
      if index[mid].ts < cutoff {
        lo := mid + 1;
      } else {
        hi := mid;
      }
    }
    BisectAnswers(index, 0, |index|, cutoff);
  }

  lemma {:induction false} NothingMatches(c: Codec, since: int)
    ensures forall k :: Matching(c, [], Window(since, k)) == []
  {
  }

  /** What a store that satisfies the invariant has when its index is in place. */
  lemma {:induction false} InvSeeks(c: Codec, st: State, n: nat)
    requires Inv(c, st)
    ensures DaysSorted(c, st.days) && EnsureIndex(c, st, n).days == st.days && EnsureIndex(c, st, n).hot == st.hot
    ensures st.hot.Some? ==>
              AllClean(st.hot.value) && InOrder(c, st.hot.value) && IndexOfSome(c, st.hot.value, EnsureIndex(c, st, n).index)
  {
    EnsureKeepsSound(c, st, n);
  }

  lemma {:induction false} SeekKeepsWindows(c: Codec, lines: seq<Line>, index: seq<IndexEntry>, lo: nat, since: int)
    requires AllClean(lines) && InOrder(c, lines) && IndexOfSome(c, lines, index) && Answer(index, lo, since)
    ensures forall k :: Matching(c, Sought(lines, index, lo), Window(since, k)) == Matching(c, lines, Window(since, k))
  {
    forall k
      ensures Matching(c, Sought(lines, index, lo), Window(since, k)) == Matching(c, lines, Window(since, k))
    {
      SeekKeepsMatching(c, lines, index, lo, since, k);
    }
  }

  lemma {:induction false} SizeSnoc(lines: seq<Line>, line: Line)
    ensures Size(lines + [line]) == Size(lines) + |line| + 1
  {
    if lines == [] {
      assert [] + [line] == [line] && [line][1..] == [];
      assert Size([line]) == |line| + 1 + Size([]);
    } else {
      assert (lines + [line])[1..] == lines[1..] + [line];
      SizeSnoc(lines[1..], line);
    }
  }

  lemma {:induction false} FirstLine(lines: seq<Line>, k: nat)
    requires k < |lines| && AllClean(lines)
    ensures var data := Render(lines[k..]);
            data != [] && data[..LineEnd(data)] == lines[k] && AfterLine(data) == Render(lines[k + 1..])
  {
    assert lines[k..][1..] == lines[k + 1..];
    LineEndAt(lines[k], Render(lines[k + 1..]));
    var data := Render(lines[k..]);
    assert data == lines[k] + [NEWLINE] + Render(lines[k + 1..]);
  }

  /** What is left of a reading after one more line. */
  function Fewer(r: Reading): Reading {
    if r.Broken? && r.n > 0 then Broken(r.n - 1) else r
  }

  predicate Ended(r: Reading) {
    r == Refused || r == Broken(0)
  }

  lemma {:induction false} DeliveredStep(r: Reading, data: seq<Byte>)
    ensures data == [] || Ended(r) ==> Delivered(r, SplitLines(data)) == []
    ensures data != [] && !Ended(r) ==>
              && |AfterLine(data)| < |data|
              && Delivered(r, SplitLines(data)) == [data[..LineEnd(data)]] + Delivered(Fewer(r), SplitLines(AfterLine(data)))
  {
  }

  lemma {:induction false} ScanFirst(c: Codec, line: Line, rest: seq<Line>, cutoff: int, filter: seq<Flow> -> seq<Flow>)
    ensures Scan(c, [line] + rest, cutoff, filter) == Hit(c, line, cutoff, filter) + Scan(c, rest, cutoff, filter)
    ensures Scan(c, [], cutoff, filter) == []
  {
    assert ([line] + rest)[1..] == rest;
  }

  lemma {:induction false} MatchingFirst(c: Codec, line: Line, rest: seq<Line>, since: int)
    ensures forall k :: |Matching(c, [line] + rest, Window(since, k))| == (if IsWindow(c, line, since, k) then 1 else 0) + |Matching(c, rest, Window(since, k))|
    ensures forall k :: Matching(c, [], Window(since, k)) == []
  {
    assert ([line] + rest)[1..] == rest;
  }

  lemma {:induction false} IndexStep(c: Codec, lines: seq<Line>, k: nat, index: seq<IndexEntry>)
    requires k < |lines|
    ensures Offset(lines, k + 1) == Offset(lines, k) + |lines[k]| + 1
    ensures index + IndexFrom(c, lines, k)
            == match c.decode(lines[k])
               case None => index + IndexFrom(c, lines, k + 1)
               case Some(r) => index + [IndexEntry(r.ts, Offset(lines, k))] + IndexFrom(c, lines, k + 1)
  {
  }

  lemma {:induction false} StartOfFile(c: Codec, lines: seq<Line>)
    ensures lines[0..] == lines && Offset(lines, 0) == 0 && [] + IndexFrom(c, lines, 0) == IndexFrom(c, lines, 0)
  {
  }

  lemma {:induction false} EndOfFile(c: Codec, lines: seq<Line>, k: nat, index: seq<IndexEntry>)
    requires k <= |lines|
    ensures Render(lines[k..]) == [] <==> k == |lines|
    ensures k == |lines| ==> index + IndexFrom(c, lines, k) == index
  {
  }

  /** The result of splitting the hot file for a rotation. */
  ghost predicate Partitioned(c: Codec, lines: seq<Line>, today: int, stay: seq<Line>, perDay: map<int, seq<Line>>, ordered: seq<int>) {
    && stay == Part(c, lines, today, None)
    && ordered == OrderedDays(c, lines, today)
    && (forall d :: d in perDay <==> d in ordered)
    && (forall d :: DayLines(perDay, d) == Part(c, lines, today, Some(d)))
  }

  lemma {:induction false} PartitionKeeps(c: Codec, all: seq<Line>, k: nat, today: int, stay: seq<Line>, perDay: map<int, seq<Line>>, ordered: seq<int>)
    requires k < |all| && Partitioned(c, all[..k], today, stay, perDay, ordered) && OldDay(c, all[k], today) == None
    ensures Partitioned(c, all[..k + 1], today, stay + [all[k]], perDay, ordered)
  {
    PartStep(c, all, k, today, None);
    forall d
      ensures DayLines(perDay, d) == Part(c, all[..k + 1], today, Some(d))
    {
      PartStep(c, all, k, today, Some(d));
    }
  }

  lemma {:induction false} PartitionMoves(c: Codec, all: seq<Line>, k: nat, today: int, stay: seq<Line>, perDay: map<int, seq<Line>>, ordered: seq<int>, d: int)
    requires k < |all| && Partitioned(c, all[..k], today, stay, perDay, ordered) && OldDay(c, all[k], today) == Some(d)
    ensures Partitioned(c, all[..k + 1], today, stay, perDay[d := DayLines(perDay, d) + [all[k]]],
                        if d in perDay then ordered else ordered + [d])
  {
    PartStep(c, all, k, today, None);
    forall e
      ensures DayLines(perDay[d := DayLines(perDay, d) + [all[k]]], e) == Part(c, all[..k + 1], today, Some(e))
    {
      PartStep(c, all, k, today, Some(e));
    }
  }

  lemma {:induction false} NoDaysScan(c: Codec, days: map<int, seq<Line>>, cutoff: int, filter: seq<Flow> -> seq<Flow>)
    ensures ScanDays(c, days, {}, cutoff, filter) == multiset{}
  {
  }

  lemma {:induction false} NoDaysMatch(c: Codec, days: map<int, seq<Line>>, since: int)
    ensures forall k :: MatchingDays(c, days, {}, Window(since, k)) == multiset{}
  {
  }

  lemma {:induction false} DayMatches(c: Codec, days: map<int, seq<Line>>, ds: set<int>, d: int, since: int)
    requires ds <= days.Keys && d in ds
    ensures forall k :: |MatchingDays(c, days, ds, Window(since, k))|
                        == |Matching(c, days[d], Window(since, k))| + |MatchingDays(c, days, ds - {d}, Window(since, k))|
  {
    forall k
      ensures |MatchingDays(c, days, ds, Window(since, k))|
              == |Matching(c, days[d], Window(since, k))| + |MatchingDays(c, days, ds - {d}, Window(since, k))|
    {
      MatchingDaysRemove(c, days, ds, d, Window(since, k));
    }
  }

  lemma {:induction false} SkippedMatchesNothing(c: Codec, days: map<int, seq<Line>>, d: int, since: int)
    requires d in days && DaysSorted(c, days) && Skipped(d, since)
    ensures forall k :: Matching(c, days[d], Window(since, k)) == []
  {
    SkippedDayHasNothing(c, days, d, since, x => x);
  }

  lemma {:induction false} ReadDaysSorted(c: Codec, access: Access, days: map<int, seq<Line>>)
    requires DaysSorted(c, days)
    ensures DaysSorted(c, DaysRead(access, days))
  {
  }

  lemma {:induction false} NoFileNoIndex(c: Codec, st: State, n: nat)
    ensures st.hot.None? ==> EnsureIndex(c, st, n) == st
  {
  }

  lemma {:induction false} NoCounts()
    ensures forall k :: CountOf(map[], k) == 0
  {
  }

  lemma {:induction false} WholeDay(r: Reading, lines: seq<Line>)
    ensures r == Complete ==> Delivered(r, lines) == lines
  {
  }

  /** What a query returns, in terms of the lines that are stored. */
  lemma {:induction false} ReturnedHave(c: Codec, st: State, both: bool, cutoff: int, filter: seq<Flow> -> seq<Flow>, results: seq<Record>)
    requires both ==> multiset(results) == Results(c, st, cutoff, filter)
    requires !both ==> results == Scan(c, HotLines(st), cutoff, filter)
    ensures forall r :: r in results
                        <==> exists line :: InFiles(HotLines(st), if both then st.days else map[], line) && AnsweredBy(c, line, cutoff, filter, r)
  {
    hide Scan, Results, AnsweredBy, HotLines;
    forall r
      ensures r in results <==> exists line :: InFiles(HotLines(st), if both then st.days else map[], line) && AnsweredBy(c, line, cutoff, filter, r)
    {
      if both {
        ResultsHave(c, st, cutoff, filter, r);
        assert r in results <==> r in multiset(results);
      } else {
        ScanHas(c, HotLines(st), cutoff, filter, r);
        assert forall line :: InFiles(HotLines(st), map[], line) <==> line in HotLines(st);
      }
    }
  }

  lemma {:induction false} RefusedHasNothing(c: Codec, lines: seq<Line>, index: seq<IndexEntry>, cutoff: int, filter: seq<Flow> -> seq<Flow>)
    ensures Scan(c, HotRead(Refused, lines, index, cutoff), cutoff, filter) == []
  {
  }

  lemma {:induction false} HotReadIsExact(c: Codec, lines: seq<Line>, index: seq<IndexEntry>, cutoff: int, filter: seq<Flow> -> seq<Flow>)
    requires AllClean(lines) && InOrder(c, lines) && IndexOfSome(c, lines, index)
    ensures Scan(c, HotRead(Complete, lines, index, cutoff), cutoff, filter) == Scan(c, lines, cutoff, filter)
  {
    hide Scan, SplitLines, Render, InOrder, IndexOfSome, AllClean;
    BisectAnswers(index, 0, |index|, cutoff);
    hide Bisect;
    SeekIsExact(c, lines, index, Bisect(index, 0, |index|, cutoff), cutoff, filter);
  }

  class Store {
    const c: Codec
    const cfg: Config
    var file: Option<seq<Byte>>
    var days: map<int, seq<Line>>
    var index: seq<IndexEntry>
    var appendCount: nat
    ghost var lines: seq<Line>     // the lines of the hot file
    ghost var retained: seq<Line>  // the lines of backup files left behind

    ghost predicate Valid()
      reads this
    {
      && AllClean(lines)
      && (match file
          case None => lines == []
          case Some(data) => data == Render(lines))
    }

    ghost function Abs(): State
      reads this
    {
      State(if file.Some? then Some(lines) else None, days, retained, index)
    }

    constructor (c: Codec, cfg: Config)
      ensures Valid() && this.c == c && this.cfg == cfg
      ensures Abs() == State(None, map[], [], []) && appendCount == 0
    {
      this.c, this.cfg := c, cfg;
      file, days, index, appendCount := None, map[], [], 0;
      lines, retained := [], [];
    }

    /** Appends one record. `pruneDue` tells that the background prune is started. */
    method Append(r: Record, io: AppendIO) returns (ok: bool, pruneDue: bool)
      requires Valid() && RoundTrips(c, r)
      modifies this
      ensures Valid() && Abs() == HistoryRuns.Append(c, old(Abs()), r, io)
      ensures ok == (r.flows == [] || (LineToAppend(c, r).Some? && io == Written))
      ensures appendCount == old(appendCount) + if r.flows != [] && ok then 1 else 0
      ensures pruneDue == (r.flows != [] && ok && appendCount % 5 == 0)
    {
      pruneDue := false;
      if |r.flows| == 0 {
        return true, false;
      }
      var data := c.encode(r);
      if data.None? || |data.value| > MAX_LINE || io == Unopened {
        return false, false;
      }
      if file.None? {
        file := Some([]);
      }
      if io == Failed {
        return false, false;
      }
      var offset := |file.value|;
      RenderConcat(lines, [data.value]);
      OffsetIsLength(lines, |lines|);
      assert lines[..|lines|] == lines;
      assert Render([data.value]) == data.value + [NEWLINE] + Render([]);
      file := Some(file.value + data.value + [NEWLINE]);
      lines := lines + [data.value];
      if io == Unclosed {
        return false, false;
      }
      index := index + [IndexEntry(r.ts, offset)];
      appendCount := appendCount + 1;
      ok, pruneDue := true, appendCount % PRUNE_EVERY == 0;
    }

    /** A new process: the index and the append counter start empty. */
    method Restart()
      requires Valid()
      modifies `index, `appendCount
      ensures Valid() && Abs() == old(Abs()).(index := []) && appendCount == 0
    {
      index, appendCount := [], 0;
    }

    /** Rebuilds the index by reading the file, `n` lines of it at most if reading breaks off. */
    method BuildIndex(n: nat)
      requires Valid() && file.Some?
      modifies `index
      ensures Valid() && index == IndexFrom(c, First(lines, n), 0)
    {
      index := [];
      var rest, offset := file.value, 0;
      var k := 0;
      ghost var read := First(lines, n);
      StartOfFile(c, read);
      assert lines[0..] == lines;
      hide IndexFrom, Offset, Render, LineEnd, AfterLine, AllClean;
      while rest != [] && k < n
        invariant k <= |read| <= |lines| && rest == Render(lines[k..]) && offset == Offset(read, k)
        invariant index + IndexFrom(c, read, k) == IndexFrom(c, read, 0)
        decreases |read| - k
      {
        EndOfFile(c, lines, k, index);
        assert k < |read| && read[k] == lines[k];
        FirstLine(lines, k);
        IndexStep(c, read, k, index);
        var line;
        line, rest := NextLine(rest);
        var r := c.decode(line);
        if r.Some? {
          index := index + [IndexEntry(r.value.ts, offset)];
        }
        offset := offset + |line| + 1;
        k := k + 1;
      }
      EndOfFile(c, lines, k, index);
      EndOfFile(c, read, |read|, index);
    }

    /** Positions a reader for `cutoff`: rebuilds an empty index, bisects it, steps one entry back. */
    method SeekFor(cutoff: int, n: nat) returns (start: nat, ghost lo: nat)
      requires Valid() && file.Some?
      modifies `index
      ensures Valid() && Abs() == EnsureIndex(c, old(Abs()), n)
      ensures lo == Bisect(index, 0, |index|, cutoff) && Answer(index, lo, cutoff) && start == StartOffset(index, lo)
    {
      if |index| == 0 {
        BuildIndex(n);
      }
      var pos := SearchIndex(index, cutoff);
      start := if pos > 0 then index[pos - 1].offset else 0;
      lo := pos;
    }

    /** Scans bytes line by line for matching records, until reading breaks off. */
    method ScanData(data: seq<Byte>, cutoff: int, filter: seq<Flow> -> seq<Flow>, reading: Reading) returns (results: seq<Record>)
      ensures results == Scan(c, Delivered(reading, SplitLines(data)), cutoff, filter)
    {
      results := [];
      var rest, left := data, reading;
      while rest != [] && !Ended(left)
        invariant results + Scan(c, Delivered(left, SplitLines(rest)), cutoff, filter) == Scan(c, Delivered(reading, SplitLines(data)), cutoff, filter)
        decreases |rest|
      {
        var line, after := NextLine(rest);
        ghost var later := Delivered(Fewer(left), SplitLines(after));
        DeliveredStep(left, rest);
        ScanFirst(c, line, later, cutoff, filter);
        Regroup(results, Hit(c, line, cutoff, filter), Scan(c, later, cutoff, filter));
        hide *;
        var hit := ScanLine(line, cutoff, filter);
        results := results + hit;
        rest, left := after, Fewer(left);
      }
      DeliveredStep(left, rest);
      ScanFirst(c, [], [], cutoff, filter);
    }

    method ScanLine(line: Line, cutoff: int, filter: seq<Flow> -> seq<Flow>) returns (hit: seq<Record>)
      ensures hit == Hit(c, line, cutoff, filter)
    {
      var r := c.decode(line);
      if r.None? || r.value.ts < cutoff {
        return [];
      }
      var filtered := filter(r.value.flows);
      if |filtered| == 0 {
        return [];
      }
      hit := [r.value.(flows := filtered)];
    }

    /** Reads the day files whose day has not ended before the cutoff; stops at the first one that cannot be read to its
        end. */
    method QueryDays(cutoff: int, filter: seq<Flow> -> seq<Flow>, access: Access) returns (results: seq<Record>, ok: bool)
      ensures ok <==> access.dir && forall d :: d in days && !Skipped(d, cutoff) ==> access.day(d) == Complete
      ensures ok && DaysSorted(c, days) ==> multiset(results) == ScanDays(c, days, days.Keys, cutoff, filter)
    {
      hide Scan, ScanDays, DaysSorted, Delivered;
      results, ok := [], true;
      if !access.dir {
        return [], false;
      }
      var left := days.Keys;
      while exists d :: d in left
        invariant left <= days.Keys
        invariant forall d :: d in days && d !in left && !Skipped(d, cutoff) ==> access.day(d) == Complete
        invariant DaysSorted(c, days) ==>
                    multiset(results) + ScanDays(c, days, left, cutoff, filter) == ScanDays(c, days, days.Keys, cutoff, filter)
        decreases |left|
      {
        var d :| d in left;
        ScanDaysRemove(c, days, left, d, cutoff, filter);
        if Skipped(d, cutoff) {
          if DaysSorted(c, days) {
            SkippedDayHasNothing(c, days, d, cutoff, filter);
            assert multiset(Scan(c, days[d], cutoff, filter)) == multiset{};
          }
        } else {
          if access.day(d) == Refused {
            return results, false;
          }
          var found := ScanDay(Delivered(access.day(d), days[d]), cutoff, filter);
          results := results + found;
          if access.day(d) != Complete {
            return results, false;
          }
          WholeDay(access.day(d), days[d]);
        }
        left := left - {d};
      }
      NoDaysScan(c, days, cutoff, filter);
      assert left == {};
    }

    method ScanDay(file: seq<Line>, cutoff: int, filter: seq<Flow> -> seq<Flow>) returns (results: seq<Record>)
      ensures results == Scan(c, file, cutoff, filter)
    {
      results := [];
      for i := 0 to |file|
        invariant results + Scan(c, file[i..], cutoff, filter) == Scan(c, file, cutoff, filter)
      {
        assert file[i..][1..] == file[i + 1..];
        var hit := ScanLine(file[i], cutoff, filter);
        results := results + hit;
      }
    }

    /** The records at or after the cutoff whose flows pass the filter, of what is read of the hot file and of all day files:
        skipping day files loses nothing, and if the timestamps are in order the seek through the index does not either. `ok` is false where a file that is needed cannot be read to its end; then only
        what the hot file gave is returned. */
    method Query(cutoff: int, filter: seq<Flow> -> seq<Flow>, access: Access) returns (results: seq<Record>, ok: bool)
      requires Valid()
      modifies `index
      ensures Valid() && Abs() == if access.hot == Refused then old(Abs()) else EnsureIndex(c, old(Abs()), access.index)
      ensures ok <==> (file.Some? ==> access.hot == Complete)
                      && (cfg.compressRotated ==> access.dir && forall d :: d in days && !Skipped(d, cutoff) ==> access.day(d) == Complete)
      ensures file.Some? && !(ok && cfg.compressRotated) ==> results == Scan(c, HotRead(access.hot, lines, index, cutoff), cutoff, filter)
      ensures Inv(c, old(Abs())) && (file.Some? ==> access.hot == Complete) && !(ok && cfg.compressRotated) ==> results == Scan(c, lines, cutoff, filter)
      ensures ok && cfg.compressRotated ==>
                && SortedByTime(results)
                && (DaysSorted(c, days) ==>
                      multiset(results) == multiset(if file.Some? then Scan(c, HotRead(access.hot, lines, index, cutoff), cutoff, filter) else [])
                                           + ScanDays(c, days, days.Keys, cutoff, filter))
      ensures Inv(c, old(Abs())) && ok && cfg.compressRotated ==>
                multiset(results) == Results(c, Abs(), cutoff, filter)
      ensures Inv(c, old(Abs())) && ok ==>
                forall r :: r in results
                            <==> exists line :: InFiles(lines, if cfg.compressRotated then days else map[], line) && AnsweredBy(c, line, cutoff, filter, r)
    {
      hide AnsweredBy, InFiles;
      hide Inv, Scan, ScanDays, Sought, DaysSorted, EnsureIndex, Delivered, Bisect;
      results, ok := [], true;
      ghost var before := Abs();
      NoFileNoIndex(c, before, access.index);
      ScanFirst(c, [], [], cutoff, filter);
      if Inv(c, before) {
        InvSeeks(c, before, access.index);
      }
      if file.Some? {
        if access.hot == Refused {
          RefusedHasNothing(c, lines, index, cutoff, filter);
          return [], false;
        }
        results := QueryHot(cutoff, filter, access);
        if access.hot != Complete {
          return results, false;
        }
        if Inv(c, before) {
          HotReadIsExact(c, lines, index, cutoff, filter);
        }
      }
      if cfg.compressRotated {
        var compressed;
        compressed, ok := QueryDays(cutoff, filter, access);
        if ok {
          results := SortByTime(results + compressed);
        }
      }
      if Inv(c, before) && ok {
        ReturnedHave(c, Abs(), cfg.compressRotated, cutoff, filter, results);
      }
    }

    /** The part of Query that reads the hot file. */
    method QueryHot(cutoff: int, filter: seq<Flow> -> seq<Flow>, access: Access) returns (results: seq<Record>)
      requires Valid() && file.Some?
      modifies `index
      ensures Valid() && Abs() == EnsureIndex(c, old(Abs()), access.index)
      ensures results == Scan(c, HotRead(access.hot, lines, index, cutoff), cutoff, filter)
    {
      hide EnsureIndex, Scan, SplitLines, Render, Delivered, Bisect;
      var start, lo := SeekFor(cutoff, access.index);
      results := ScanData(if start <= |file.value| then file.value[start..] else [], cutoff, filter, access.hot);
    }

    /** In how many stored capture windows since `since` each flow key occurs. Day files are counted as far as they can be
        read, and so is the hot file; if that cannot be opened, nothing is counted. */
    method RecurrenceMap(since: int, access: Access) returns (counts: map<Key, nat>)
      requires Valid()
      modifies `index
      ensures Valid() && Abs() == if access.hot == Refused then old(Abs()) else EnsureIndex(c, old(Abs()), access.index)
      ensures file.Some? && access.hot == Refused ==> counts == map[]
      ensures DaysSorted(c, days) && file.Some? && access.hot != Refused ==>
                forall k :: CountOf(counts, k)
                            == |Matching(c, HotRead(access.hot, lines, index, since), Window(since, k))|
                               + if cfg.compressRotated then |MatchingDays(c, DaysRead(access, days), DaysRead(access, days).Keys, Window(since, k))| else 0
      ensures Inv(c, old(Abs())) && (file.Some? ==> access.hot == Complete) && !cfg.compressRotated ==>
                forall k :: CountOf(counts, k) == |Matching(c, lines, Window(since, k))|
      ensures Inv(c, old(Abs())) && (file.Some? ==> access.hot == Complete) && cfg.compressRotated ==>
                forall k :: CountOf(counts, k) == |ReadableWindows(c, Abs(), access, Window(since, k))|
    {
      hide Inv, EnsureIndex, Matching, MatchingDays, DaysSorted, DaysRead, HotRead;
      ghost var before := Abs();
      NoFileNoIndex(c, before, access.index);
      if file.Some? && access.hot == Refused {
        return map[];
      }
      counts := CountHot(since, access);
      if Inv(c, before) {
        InvSeeks(c, before, access.index);
        NothingMatches(c, since);
      }
      if cfg.compressRotated {
        counts := CountDays(counts, since, access);
      }
    }

    /** The part of RecurrenceMap that reads the hot file. */
    method CountHot(since: int, access: Access) returns (counts: map<Key, nat>)
      requires Valid()
      modifies `index
      ensures Valid() && Abs() == EnsureIndex(c, old(Abs()), access.index)
      ensures file.Some? ==> forall k :: CountOf(counts, k) == |Matching(c, HotRead(access.hot, lines, index, since), Window(since, k))|
      ensures file.None? ==> counts == map[]
      ensures Inv(c, old(Abs())) && access.hot == Complete ==> forall k :: CountOf(counts, k) == |Matching(c, lines, Window(since, k))|
    {
      hide Inv, Matching, EnsureIndex, SplitLines, Render, Delivered, Bisect;
      counts := map[];
      ghost var before := Abs();
      NothingMatches(c, since);
      NoFileNoIndex(c, before, access.index);
      if file.Some? {
        var start, lo := SeekFor(since, access.index);
        counts := CountData(if start <= |file.value| then file.value[start..] else [], since, access.hot);
        if Inv(c, before) && access.hot == Complete {
          InvSeeks(c, before, access.index);
          SeekKeepsWindows(c, lines, index, lo, since);
          WholeDay(access.hot, Sought(lines, index, lo));
        }
      }
    }

    method CountLine(counts: map<Key, nat>, line: Line, since: int) returns (r: map<Key, nat>)
      ensures forall k :: CountOf(r, k) == CountOf(counts, k) + if IsWindow(c, line, since, k) then 1 else 0
    {
      var e := c.decode(line);
      if e.None? || e.value.ts < since {
        return counts;
      }
      r := AddEntryRecurrences(counts, e.value.flows);
    }

    method CountData(data: seq<Byte>, since: int, reading: Reading) returns (counts: map<Key, nat>)
      ensures forall k :: CountOf(counts, k) == |Matching(c, Delivered(reading, SplitLines(data)), Window(since, k))|
    {
      hide Matching, Delivered, SplitLines, CountOf, IsWindow, LineEnd, AfterLine;
      counts := map[];
      NoCounts();
      var rest, left := data, reading;
      while rest != [] && !Ended(left)
        invariant forall k :: CountOf(counts, k) + |Matching(c, Delivered(left, SplitLines(rest)), Window(since, k))|
                              == |Matching(c, Delivered(reading, SplitLines(data)), Window(since, k))|
        decreases |rest|
      {
        var line, after := NextLine(rest);
        DeliveredStep(left, rest);
        MatchingFirst(c, line, Delivered(Fewer(left), SplitLines(after)), since);
        counts := CountLine(counts, line, since);
        rest, left := after, Fewer(left);
      }
      DeliveredStep(left, rest);
      NothingMatches(c, since);
    }

    method CountDay(before: map<Key, nat>, file: seq<Line>, since: int) returns (counts: map<Key, nat>)
      ensures forall k :: CountOf(counts, k) == CountOf(before, k) + |Matching(c, file, Window(since, k))|
    {
      hide Matching, CountOf, IsWindow;
      counts := before;
      assert file[0..] == file;
      for i := 0 to |file|
        invariant forall k :: CountOf(counts, k) + |Matching(c, file[i..], Window(since, k))| == CountOf(before, k) + |Matching(c, file, Window(since, k))|
      {
        assert file[i..] == [file[i]] + file[i + 1..];
        MatchingFirst(c, file[i], file[i + 1..], since);
        counts := CountLine(counts, file[i], since);
      }
      NothingMatches(c, since);
      assert file[|file|..] == [];
    }

    /** The part of RecurrenceMap that reads the day files. */
    method CountDays(before: map<Key, nat>, since: int, access: Access) returns (counts: map<Key, nat>)
      ensures DaysSorted(c, days) ==>
                forall k :: CountOf(counts, k) == CountOf(before, k) + |MatchingDays(c, DaysRead(access, days), DaysRead(access, days).Keys, Window(since, k))|
    {
      hide Matching, MatchingDays, DaysSorted, Delivered;
      counts := before;
      ghost var readable := DaysRead(access, days);
      NoDaysMatch(c, readable, since);
      if DaysSorted(c, days) {
        ReadDaysSorted(c, access, days);
      }
      if !access.dir {
        assert readable.Keys == {};
        return;
      }
      var left := days.Keys;
      assert readable.Keys == left;
      while exists d :: d in left
        invariant left <= days.Keys == readable.Keys
        invariant DaysSorted(c, days) ==>
                    forall k :: CountOf(counts, k) + |MatchingDays(c, readable, left, Window(since, k))|
                                == CountOf(before, k) + |MatchingDays(c, readable, readable.Keys, Window(since, k))|
        decreases |left|
      {
        var d :| d in left;
        DayMatches(c, readable, left, d, since);
        if Skipped(d, since) {
          if DaysSorted(c, days) {
            SkippedMatchesNothing(c, readable, d, since);
          }
        } else {
          counts := CountDay(counts, Delivered(access.day(d), days[d]), since);
        }
        left := left - {d};
      }
      assert left == {};
    }

    // ----- rotation and pruning

    /** Installs `next` as the hot file, the replacement ending in outcome `o`. */
    method RewriteHot(next: seq<Line>, o: Outcome) returns (ok: bool)
      requires Valid() && file.Some? && AllClean(next)
      modifies this
      ensures Valid() && ok == (o == Installed)
      ensures Abs() == ReplaceHot(old(Abs()), next, o) && appendCount == old(appendCount)
    {
      retained := retained + Kept(Some(lines), o);
      ok := o == Installed;
      match o
      case Installed =>
        var data := WriteLines(next);
        file, lines, index := Some(data), next, [];
      case InstalledBackupKept =>
        var data := WriteLines(next);
        file, lines := Some(data), next;
      case Untouched =>
      case Displaced => file, lines := None, [];
    }

    method WriteLines(next: seq<Line>) returns (data: seq<Byte>)
      ensures data == Render(next)
    {
      data := [];
      for i := 0 to |next|
        invariant data == Render(next[..i])
      {
        assert next[..i + 1] == next[..i] + [next[i]];
        RenderConcat(next[..i], [next[i]]);
        assert Render([next[i]]) == next[i] + [NEWLINE] + Render([]);
        data := data + next[i] + [NEWLINE];
      }
      assert next[..|next|] == next;
    }

    /** Merges lines into one day file, the replacement ending in outcome `o`. */
    method MergeIntoDay(d: int, more: seq<Line>, o: Outcome) returns (ok: bool)
      requires Valid()
      modifies `days, `retained
      ensures Valid() && ok == (o == Installed)
      ensures Abs() == MergeDay(old(Abs()), d, more, o)
    {
      var existing := if d in days then days[d] else [];
      var all := MergeLines(existing, more);
      retained := retained + Kept(DayFile(days, d), o);
      ok := o == Installed;
      match o
      case Installed | InstalledBackupKept => days := days[d := all];
      case Untouched => assert days == if d in days then days[d := days[d]] else days - {d};
      case Displaced => days := days - {d};
    }

    /** Splits the hot file into the lines that stay and the lines of each past day. */
    method Partition(data: seq<Byte>, today: int) returns (stay: seq<Line>, perDay: map<int, seq<Line>>, ordered: seq<int>)
      requires Valid() && file == Some(data)
      ensures Partitioned(c, lines, today, stay, perDay, ordered)
    {
      stay, perDay, ordered := [], map[], [];
      var rest := data;
      ghost var k := 0;
      assert lines[0..] == lines;
      while rest != []
        invariant k <= |lines| && rest == Render(lines[k..])
        invariant Partitioned(c, lines[..k], today, stay, perDay, ordered)
        decreases |rest|
      {
        assert k < |lines|;
        FirstLine(lines, k);
        var line;
        line, rest := NextLine(rest);
        stay, perDay, ordered := Distribute(lines, k, line, today, stay, perDay, ordered);
        k := k + 1;
      }
      assert lines[..|lines|] == lines && k == |lines|;
    }

    /** One round of Partition's loop, for line `k` of the file. */
    method Distribute(ghost all: seq<Line>, ghost k: nat, line: Line, today: int,
                      stay: seq<Line>, perDay: map<int, seq<Line>>, ordered: seq<int>)
      returns (stay': seq<Line>, perDay': map<int, seq<Line>>, ordered': seq<int>)
      requires k < |all| && line == all[k] && Partitioned(c, all[..k], today, stay, perDay, ordered)
      ensures Partitioned(c, all[..k + 1], today, stay', perDay', ordered')
    {
      stay', perDay', ordered' := stay, perDay, ordered;
      var r := c.decode(line);
      if r.Some? && r.value.ts != 0 && r.value.ts < today * DAY {
        var d := r.value.ts / DAY;
        if d !in perDay {
          ordered' := ordered + [d];
        }
        perDay' := perDay[d := (if d in perDay then perDay[d] else []) + [line]];
        PartitionMoves(c, all, k, today, stay, perDay, ordered, d);
      } else {
        stay' := stay + [line];
        PartitionKeeps(c, all, k, today, stay, perDay, ordered);
      }
    }

    /** Merges the days in order, until one fails. */
    method MergeAll(ghost all: seq<Line>, today: int, perDay: map<int, seq<Line>>, ordered: seq<int>, course: Course) returns (ok: bool)
      requires Valid()
      requires forall d :: d in ordered ==> d in perDay && perDay[d] == Part(c, all, today, Some(d))
      modifies `days, `retained
      ensures Valid() && ok == !Aborts(course, ordered)
      ensures Abs() == if ok then MergeDays(c, old(Abs()), all, today, ordered)
                       else MergeDay(MergeDays(c, old(Abs()), all, today, ordered[..course.day]), ordered[course.day],
                                     Part(c, all, today, Some(ordered[course.day])), course.dayOutcome)
    {
      hide MergeDay, Part;
      for i := 0 to |ordered|
        invariant Valid() && Abs() == MergeDays(c, old(Abs()), all, today, ordered[..i])
        invariant i > course.day ==> course.dayOutcome == Installed
      {
        assert ordered[..i + 1][..i] == ordered[..i];
        ok := MergeIntoDay(ordered[i], perDay[ordered[i]], if i == course.day then course.dayOutcome else Installed);
        if !ok {
          return;
        }
      }
      assert ordered[..|ordered|] == ordered;
      ok := true;
    }

    /** Moves the lines of past days into their day files; the course says where it is cut short. */
    method RotateOldEntries(now: int, course: Course)
      requires Valid()
      modifies this
      ensures Valid() && appendCount == old(appendCount)
      ensures Abs() == Rotate(c, old(Abs()), now, cfg.maxRotatedDays, course)
    {
      if file.None? {
        return;
      }
      var today := now / DAY;
      var stay, perDay, ordered := Partition(file.value, today);
      if |ordered| == 0 {
        return;
      }
      forall d | d in ordered
        ensures d in perDay && perDay[d] == Part(c, lines, today, Some(d))
      {
        assert perDay[d] == DayLines(perDay, d);
      }
      PartClean(c, lines, today);
      ghost var st := Abs();
      MergeDaysKeep(c, st, lines, today, ordered, []);
      hide Part, OrderedDays, MergeDays, MergeDay, Render;
      var ok := MergeAll(lines, today, perDay, ordered, course);
      if !ok {
        return;
      }
      ok := RewriteHot(stay, course.hotOutcome);
      if ok {
        PurgeDays(now, course.stuck);
      }
    }

    /** Deletes the day files that start before the purge cutoff, if there is one; those in `stuck` cannot be deleted. */
    method PurgeDays(now: int, stuck: set<int>)
      modifies `days
      ensures days == Purged(old(days), now, cfg.maxRotatedDays, stuck)
    {
      if cfg.maxRotatedDays > 0 {
        var purgeCutoff := now - cfg.maxRotatedDays * DAY;
        days := map d | d in days && (d * DAY >= purgeCutoff || d in stuck) :: days[d];
      }
    }

    /** The periodic prune: rotation, then the age limit, then the size limit. */
    method PruneOld(rotateAt: int, course: Course, pruneAt: int, o: Outcome)
      requires Valid()
      modifies this
      ensures Valid() && appendCount == old(appendCount)
      ensures Abs() == HistoryRuns.PruneOld(c, old(Abs()), cfg, rotateAt, course, pruneAt, o)
    {
      if cfg.compressRotated {
        RotateOldEntries(rotateAt, course);
      }
      hide Rotate;
      PruneHot(pruneAt, o);
    }

    method PruneHot(now: int, o: Outcome)
      requires Valid()
      modifies this
      ensures Valid() && appendCount == old(appendCount)
      ensures Abs() == Prune(c, old(Abs()), cfg, now, o)
    {
      if file.None? {
        return;
      }
      SizeIsLength(lines);
      var age := cfg.maxAgeHours;
      if |file.value| > cfg.maxSizeMB * MIB {
        age := cfg.pruneToHours;
      }
      var cutoff := now - age * HOUR;
      var keep, bytes := SelectKept(file.value, cutoff);
      KeptClean(c, lines, cutoff);
      TrimClean(keep, cfg.maxSizeMB * MIB);
      hide KeptLines, Trim, Size, Render;
      keep := DropOldest(keep, bytes, cfg.maxSizeMB * MIB);
      var ok := RewriteHot(keep, o);
    }

    method SelectKept(data: seq<Byte>, cutoff: int) returns (keep: seq<Line>, bytes: nat)
      requires Valid() && file == Some(data)
      ensures keep == KeptLines(c, lines, cutoff) && bytes == Size(keep)
    {
      keep, bytes := [], 0;
      var rest := data;
      ghost var k := 0;
      assert lines[0..] == lines;
      while rest != []
        invariant k <= |lines| && rest == Render(lines[k..])
        invariant keep == KeptLines(c, lines[..k], cutoff) && bytes == Size(keep)
        decreases |rest|
      {
        assert k < |lines|;
        FirstLine(lines, k);
        assert lines[..k + 1][..k] == lines[..k] && lines[..k + 1][k] == lines[k];
        var line;
        line, rest := NextLine(rest);
        var r := c.decode(line);
        if r.None? || r.value.ts > cutoff {
          SizeSnoc(keep, line);
          keep, bytes := keep + [line], bytes + |line| + 1;
        }
        k := k + 1;
      }
      assert lines[..|lines|] == lines && k == |lines|;
    }
  }

  lemma {:induction false} PartStep(c: Codec, lines: seq<Line>, k: nat, today: int, day: Option<int>)
    requires k < |lines|
    ensures Part(c, lines[..k + 1], today, day)
            == Part(c, lines[..k], today, day) + if OldDay(c, lines[k], today) == day then [lines[k]] else []
    ensures OrderedDays(c, lines[..k + 1], today)
            == match OldDay(c, lines[k], today)
               case None => OrderedDays(c, lines[..k], today)
               case Some(d) => if d in OrderedDays(c, lines[..k], today) then OrderedDays(c, lines[..k], today)
                               else OrderedDays(c, lines[..k], today) + [d]
  {
    assert lines[..k + 1][..k] == lines[..k] && lines[..k + 1][k] == lines[k];
  }

  lemma {:induction false} TrimClean(keep: seq<Line>, maxBytes: int)
    requires AllClean(keep)
    ensures AllClean(Trim(keep, maxBytes))
  {
    var d := TrimIsLongestSuffix(keep, maxBytes);
  }

  lemma {:induction false} PartClean(c: Codec, lines: seq<Line>, today: int)
    requires AllClean(lines)
    ensures AllClean(Part(c, lines, today, None))
  {
    var stay := Part(c, lines, today, None);
    forall i | 0 <= i < |stay|
      ensures Clean(stay[i])
    {
      PartHas(c, lines, today, None, stay[i]);
    }
  }

  lemma {:induction false} KeptClean(c: Codec, lines: seq<Line>, cutoff: int)
    requires AllClean(lines)
    ensures AllClean(KeptLines(c, lines, cutoff))
  {
    var keep := KeptLines(c, lines, cutoff);
    forall i | 0 <= i < |keep|
      ensures Clean(keep[i])
    {
      KeptHas(c, lines, cutoff, keep[i]);
    }
  }
}
