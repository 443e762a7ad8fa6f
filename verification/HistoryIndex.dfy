/** The offset index over the hot file and the queries that seek through it
    (internal/history/history.go, lines 83-237, 312-332). */
module HistoryIndex {
  import opened Wrappers
  import opened Wire
  import opened HistoryLines

  datatype Flow = Flow(srcIP: string, dstIP: string, dstPort: nat, proto: string)

  /** One history record: the flows of a capture window. Timestamps are nanoseconds since the
      zero time, so 0 is the zero time. */
  datatype Record = Record(ts: int, flows: seq<Flow>)

  /** The JSON codec, uninterpreted. */
  datatype Codec = Codec(decode: Line -> Option<Record>, encode: Record -> Option<Line>)

  /** What is assumed of the codec: a marshalled record is one line and unmarshals to itself. */
  ghost predicate RoundTrips(c: Codec, r: Record) {
    match c.encode(r)
    case None => true
    case Some(line) => Clean(line) && c.decode(line) == Some(r)
  }

  datatype IndexEntry = IndexEntry(ts: int, offset: nat)

  /** The index entries of the parseable lines at or after line `k`, with their true offsets. */
  ghost function IndexFrom(c: Codec, lines: seq<Line>, k: nat): seq<IndexEntry>
    requires k <= |lines|
    decreases |lines| - k
  {
    if k == |lines| then []
    else (match c.decode(lines[k])
          case None => []
          case Some(r) => [IndexEntry(r.ts, Offset(lines, k))]) + IndexFrom(c, lines, k + 1)
  }

  /** Positions of parseable lines, in file order. */
  ghost predicate Places(c: Codec, lines: seq<Line>, at: seq<nat>) {
    && (forall i :: 0 <= i < |at| ==> at[i] < |lines| && c.decode(lines[at[i]]).Some?)
    && (forall i, j :: 0 <= i < j < |at| ==> at[i] < at[j])
  }

  ghost function EntryOf(c: Codec, lines: seq<Line>, j: nat): IndexEntry
    requires j < |lines| && c.decode(lines[j]).Some?
  {
    IndexEntry(c.decode(lines[j]).value.ts, Offset(lines, j))
  }

  /** The index entries of the lines at the given places. */
  ghost function IndexAt(c: Codec, lines: seq<Line>, at: seq<nat>): (index: seq<IndexEntry>)
    requires Places(c, lines, at)
    ensures |index| == |at| && forall i :: 0 <= i < |at| ==> index[i] == EntryOf(c, lines, at[i])
  {
    seq(|at|, i requires 0 <= i < |at| => EntryOf(c, lines, at[i]))
  }

  /** The index lists some of the parseable lines, in file order, with their true offsets. */
  ghost predicate IndexOfSome(c: Codec, lines: seq<Line>, index: seq<IndexEntry>) {
    exists at: seq<nat> :: Places(c, lines, at) && index == IndexAt(c, lines, at)
  }

  /** The index lists exactly the parseable lines of some suffix of the file. */
  ghost predicate IndexOfSuffix(c: Codec, lines: seq<Line>, index: seq<IndexEntry>) {
    exists k: nat :: k <= |lines| && index == IndexFrom(c, lines, k)
  }

  /** Timestamps never decrease in file order. */
  ghost predicate InOrder(c: Codec, lines: seq<Line>) {
    forall i, j :: 0 <= i < j < |lines| && c.decode(lines[i]).Some? && c.decode(lines[j]).Some? ==>
      c.decode(lines[i]).value.ts <= c.decode(lines[j]).value.ts
  }

  /** What a line contributes to a query: its record with the flows the filter keeps, unless it is
      unparseable, before the cutoff, or left without flows. */
  ghost function Hit(c: Codec, line: Line, cutoff: int, filter: seq<Flow> -> seq<Flow>): seq<Record> {
    match c.decode(line)
    case None => []
    case Some(r) => if r.ts < cutoff || filter(r.flows) == [] then [] else [Record(r.ts, filter(r.flows))]
  }

  ghost function Scan(c: Codec, lines: seq<Line>, cutoff: int, filter: seq<Flow> -> seq<Flow>): seq<Record> {
    if lines == [] then [] else Hit(c, lines[0], cutoff, filter) + Scan(c, lines[1..], cutoff, filter)
  }

  // ----- the index

  lemma {:induction false} IndexSnoc(c: Codec, lines: seq<Line>, line: Line, k: nat)
    requires k <= |lines|
    ensures IndexFrom(c, lines + [line], k)
            == IndexFrom(c, lines, k) + (match c.decode(line)
                                         case None => []
                                         case Some(r) => [IndexEntry(r.ts, Offset(lines, |lines|))])
    decreases |lines| - k
  {
    OffsetPrefix(lines, [line], k);
    if k < |lines| {
      IndexSnoc(c, lines, line, k + 1);
    } else {
      assert IndexFrom(c, lines + [line], |lines| + 1) == [];
    }
  }

  /** The places of all parseable lines at or after line `k`. */
  ghost function PlacesFrom(c: Codec, lines: seq<Line>, k: nat): (at: seq<nat>)
    requires k <= |lines|
    ensures Places(c, lines, at) && forall i :: 0 <= i < |at| ==> k <= at[i]
    decreases |lines| - k
  {
    if k == |lines| then [] else (if c.decode(lines[k]).Some? then [k] else []) + PlacesFrom(c, lines, k + 1)
  }

  /** Rebuilding the index lists every parseable line: it is the index at all places. */
  lemma {:induction false} RebuiltIsAtAllPlaces(c: Codec, lines: seq<Line>, k: nat)
    requires k <= |lines|
    ensures IndexFrom(c, lines, k) == IndexAt(c, lines, PlacesFrom(c, lines, k))
    decreases |lines| - k
  {
    if k < |lines| {
      RebuiltIsAtAllPlaces(c, lines, k + 1);
      var at, rest := PlacesFrom(c, lines, k), PlacesFrom(c, lines, k + 1);
      assert at == (if c.decode(lines[k]).Some? then [k] else []) + rest;
      hide PlacesFrom, Places, Offset;
      if c.decode(lines[k]).Some? {
        assert IndexAt(c, lines, at) == [EntryOf(c, lines, k)] + IndexAt(c, lines, rest);
      } else {
        assert at == rest;
      }
    }
  }

  lemma {:induction false} EveryLineHasPlace(c: Codec, lines: seq<Line>, k: nat, j: nat)
    requires k <= j < |lines|
    ensures j in PlacesFrom(c, lines, k) <==> c.decode(lines[j]).Some?
    decreases j - k
  {
    if k < j {
      EveryLineHasPlace(c, lines, k + 1, j);
    }
  }

  lemma {:induction false} SuffixIsSome(c: Codec, lines: seq<Line>, index: seq<IndexEntry>)
    requires IndexOfSuffix(c, lines, index)
    ensures IndexOfSome(c, lines, index)
  {
    var k: nat :| k <= |lines| && index == IndexFrom(c, lines, k);
    RebuiltIsAtAllPlaces(c, lines, k);
  }

  /** Lines that are appended without index entries leave the index right. */
  lemma {:induction false} MoreLinesKeepIndex(c: Codec, lines: seq<Line>, more: seq<Line>, index: seq<IndexEntry>)
    requires IndexOfSome(c, lines, index)
    ensures IndexOfSome(c, lines + more, index)
  {
    var at: seq<nat> :| Places(c, lines, at) && index == IndexAt(c, lines, at);
    assert Places(c, lines + more, at);
    forall i | 0 <= i < |at|
      ensures IndexAt(c, lines + more, at)[i] == index[i]
    {
      OffsetPrefix(lines, more, at[i]);
    }
    assert IndexAt(c, lines + more, at) == index;
  }

  /** Appending a record extends the index by one entry at the old end of the file. */
  lemma {:induction false} AppendKeepsIndex(c: Codec, lines: seq<Line>, index: seq<IndexEntry>, line: Line, r: Record)
    requires IndexOfSome(c, lines, index) && c.decode(line) == Some(r)
    ensures IndexOfSome(c, lines + [line], index + [IndexEntry(r.ts, Offset(lines, |lines|))])
  {
    var all := lines + [line];
    MoreLinesKeepIndex(c, lines, [line], index);
    var at: seq<nat> :| Places(c, lines, at) && index == IndexAt(c, lines, at);
    OffsetPrefix(lines, [line], |lines|);
    assert Places(c, all, at + [|lines|]);
    forall i | 0 <= i < |at|
      ensures EntryOf(c, all, at[i]) == index[i]
    {
      OffsetPrefix(lines, [line], at[i]);
    }
    assert IndexAt(c, all, at + [|lines|]) == index + [IndexEntry(r.ts, Offset(lines, |lines|))];
  }

  /** An emptied index is the index of the empty suffix. */
  lemma {:induction false} EmptyIndex(c: Codec, lines: seq<Line>)
    ensures IndexOfSuffix(c, lines, []) && IndexOfSome(c, lines, [])
  {
    assert IndexFrom(c, lines, |lines|) == [];
    SuffixIsSome(c, lines, []);
  }

  // ----- when the index covers a suffix

  lemma {:induction false} OffsetsGrow(lines: seq<Line>, i: nat, j: nat)
    requires i <= j <= |lines|
    ensures Offset(lines, i) + (j - i) <= Offset(lines, j)
  {
    if i < j {
      OffsetsGrow(lines, i, j - 1);
    }
  }

  /** The entries of a suffix lie behind its start, and the last one is not before any parseable line of it. */
  lemma {:induction false} SuffixReaches(c: Codec, lines: seq<Line>, k: nat)
    requires k <= |lines|
    ensures var index := IndexFrom(c, lines, k);
            && (forall i :: 0 <= i < |index| ==> Offset(lines, k) <= index[i].offset < Offset(lines, |lines|))
            && (forall j :: k <= j < |lines| && c.decode(lines[j]).Some? ==> index != [] && Offset(lines, j) <= index[|index| - 1].offset)
    decreases |lines| - k
  {
    if k < |lines| {
      SuffixReaches(c, lines, k + 1);
      OffsetsGrow(lines, k, k + 1);
      OffsetsGrow(lines, k + 1, |lines|);
      var rest := IndexFrom(c, lines, k + 1);
      forall j | k <= j < |lines| && c.decode(lines[j]).Some?
        ensures IndexFrom(c, lines, k) != [] && Offset(lines, j) <= IndexFrom(c, lines, k)[|IndexFrom(c, lines, k)| - 1].offset
      {
        assert rest != [] ==> IndexFrom(c, lines, k)[|IndexFrom(c, lines, k)| - 1] == rest[|rest| - 1];
        assert rest != [] ==> rest[|rest| - 1].offset >= Offset(lines, k + 1);
      }
    }
  }

  lemma {:induction false} SuffixPasses(c: Codec, lines: seq<Line>, k: nat, n: nat, j: nat)
    requires k <= |lines| && n <= j < |lines| && c.decode(lines[j]).Some?
    ensures var index := IndexFrom(c, lines, k); index == [] || index[|index| - 1].offset >= Offset(lines, n)
  {
    SuffixReaches(c, lines, k);
    OffsetsGrow(lines, n, j);
    if k > j {
      OffsetsGrow(lines, n, k);
    }
    hide IndexFrom, Offset;
  }

  /** An index that lists some lines before line `n`, but none from there on although there are some, covers no suffix. */
  lemma {:induction false} GapIsNoSuffix(c: Codec, lines: seq<Line>, n: nat, j: nat, index: seq<IndexEntry>)
    requires n <= j < |lines| && c.decode(lines[j]).Some? && index != []
    requires forall i :: 0 <= i < |index| ==> index[i].offset < Offset(lines, n)
    ensures !IndexOfSuffix(c, lines, index)
  {
    forall k: nat | k <= |lines|
      ensures index != IndexFrom(c, lines, k)
    {
      SuffixPasses(c, lines, k, n, j);
      hide IndexFrom, Offset;
      assert index[|index| - 1].offset < Offset(lines, n);
    }
  }

  // ----- scanning from the sought offset

  lemma {:induction false} ScanConcat(c: Codec, a: seq<Line>, b: seq<Line>, cutoff: int, filter: seq<Flow> -> seq<Flow>)
    ensures Scan(c, a + b, cutoff, filter) == Scan(c, a, cutoff, filter) + Scan(c, b, cutoff, filter)
  {
    if a == [] {
      assert a + b == b;
    } else {
      assert (a + b)[1..] == a[1..] + b;
      ScanConcat(c, a[1..], b, cutoff, filter);
    }
  }

  lemma {:induction false} ScanOfOld(c: Codec, lines: seq<Line>, cutoff: int, filter: seq<Flow> -> seq<Flow>)
    requires forall i :: 0 <= i < |lines| && c.decode(lines[i]).Some? ==> c.decode(lines[i]).value.ts < cutoff
    ensures Scan(c, lines, cutoff, filter) == []
  {
    if lines != [] {
      ScanOfOld(c, lines[1..], cutoff, filter);
    }
  }

  /** Starting at line `j` loses nothing exactly when nothing before it matches. */
  lemma {:induction false} SkipIsExact(c: Codec, lines: seq<Line>, j: nat, cutoff: int, filter: seq<Flow> -> seq<Flow>)
    requires j <= |lines|
    ensures Scan(c, lines[j..], cutoff, filter) == Scan(c, lines, cutoff, filter)
            <==> Scan(c, lines[..j], cutoff, filter) == []
  {
    assert lines == lines[..j] + lines[j..];
    ScanConcat(c, lines[..j], lines[j..], cutoff, filter);
  }

  /** The start offset that a query computes from the position its binary search returns. */
  ghost function StartOffset(index: seq<IndexEntry>, lo: nat): nat
    requires lo <= |index|
  {
    if lo > 0 then index[lo - 1].offset else 0
  }

  /** Reading the file from byte `start`; past the end there is nothing to read. */
  ghost function ReadAt(data: seq<Byte>, start: nat): seq<Byte> {
    if start <= |data| then data[start..] else []
  }

  /** What the search is to find: the position of the first entry that is not before the cutoff. */
  ghost predicate Answer(index: seq<IndexEntry>, lo: nat, cutoff: int) {
    lo <= |index| && (lo > 0 ==> index[lo - 1].ts < cutoff) && (lo < |index| ==> index[lo].ts >= cutoff)
  }

  /** The bisection of `index[lo..hi]`. */
  function Bisect(index: seq<IndexEntry>, lo: nat, hi: nat, cutoff: int): (r: nat)
    requires lo <= hi <= |index|
    ensures lo <= r <= hi
    decreases hi - lo
  {
    if lo >= hi then lo
    else
      var mid := (lo + hi) / 2;
      if index[mid].ts < cutoff then Bisect(index, mid + 1, hi, cutoff) else Bisect(index, lo, mid, cutoff)
  }

  /** The bisection finds an answer, whether or not the index is sorted. */
  lemma {:induction false} BisectAnswers(index: seq<IndexEntry>, lo: nat, hi: nat, cutoff: int)
    requires lo <= hi <= |index|
    requires (lo > 0 ==> index[lo - 1].ts < cutoff) && (hi < |index| ==> index[hi].ts >= cutoff)
    ensures Answer(index, Bisect(index, lo, hi, cutoff), cutoff)
    decreases hi - lo
  {
    if lo < hi {
      var mid := (lo + hi) / 2;
      if index[mid].ts < cutoff {
        BisectAnswers(index, mid + 1, hi, cutoff);
      } else {
        BisectAnswers(index, lo, mid, cutoff);
      }
    }
  }

  /** The lines that a query reads after the search has returned `lo`. */
  ghost function Sought(lines: seq<Line>, index: seq<IndexEntry>, lo: nat): seq<Line>
    requires lo <= |index|
  {
    SplitLines(ReadAt(Render(lines), StartOffset(index, lo)))
  }

  /** The line at which a query starts to read. */
  ghost function StartLine(at: seq<nat>, lo: nat): nat
    requires lo <= |at|
  {
    if lo == 0 then 0 else at[lo - 1]
  }

  lemma {:induction false} SoughtFromStartLine(c: Codec, lines: seq<Line>, at: seq<nat>, lo: nat)
    requires AllClean(lines) && Places(c, lines, at) && lo <= |at|
    ensures StartLine(at, lo) <= |lines|
    ensures Sought(lines, IndexAt(c, lines, at), lo) == lines[StartLine(at, lo)..]
  {
    hide Render, SplitLines, Offset;
    if lo == 0 {
      SplitRender(lines);
      assert Render(lines)[0..] == Render(lines) && lines[0..] == lines;
    } else {
      ReadFrom(lines, at[lo - 1]);
    }
  }

  /** The sought offset is the start of some line `j`, and every parseable line before it is
      earlier than the cutoff. */
  lemma {:induction false} SeekFindsLine(c: Codec, lines: seq<Line>, index: seq<IndexEntry>, lo: nat, cutoff: int) returns (j: nat)
    requires AllClean(lines) && InOrder(c, lines) && IndexOfSome(c, lines, index)
    requires lo <= |index| && (lo > 0 ==> index[lo - 1].ts < cutoff)
    ensures j <= |lines| && SplitLines(ReadAt(Render(lines), StartOffset(index, lo))) == lines[j..]
    ensures forall i :: 0 <= i < j && c.decode(lines[i]).Some? ==> c.decode(lines[i]).value.ts < cutoff
  {
    var at: seq<nat> :| Places(c, lines, at) && index == IndexAt(c, lines, at);
    j := StartLine(at, lo);
    assert Sought(lines, index, lo) == SplitLines(ReadAt(Render(lines), StartOffset(index, lo)));
    StartLineIsOld(c, lines, at, lo, cutoff);
    hide *;
    SoughtFromStartLine(c, lines, at, lo);
  }

  lemma {:induction false} StartLineIsOld(c: Codec, lines: seq<Line>, at: seq<nat>, lo: nat, cutoff: int)
    requires InOrder(c, lines) && Places(c, lines, at) && lo <= |at|
    requires lo > 0 ==> IndexAt(c, lines, at)[lo - 1].ts < cutoff
    ensures forall i :: 0 <= i < StartLine(at, lo) && c.decode(lines[i]).Some? ==> c.decode(lines[i]).value.ts < cutoff
  {
    hide InOrder;
    if lo > 0 {
      OlderBefore(c, lines, at[lo - 1]);
    }
  }

  lemma {:induction false} OlderBefore(c: Codec, lines: seq<Line>, j: nat)
    requires InOrder(c, lines) && j < |lines| && c.decode(lines[j]).Some?
    ensures forall i :: 0 <= i < j && c.decode(lines[i]).Some? ==> c.decode(lines[i]).value.ts <= c.decode(lines[j]).value.ts
  {
  }

  /** Seeking to the entry before the binary search's answer and scanning on from there returns
      what a scan of the whole file returns. */
  lemma {:induction false} SeekIsExact(c: Codec, lines: seq<Line>, index: seq<IndexEntry>, lo: nat, cutoff: int, filter: seq<Flow> -> seq<Flow>)
    requires AllClean(lines) && InOrder(c, lines) && IndexOfSome(c, lines, index)
    requires lo <= |index| && (lo > 0 ==> index[lo - 1].ts < cutoff)
    ensures Scan(c, SplitLines(ReadAt(Render(lines), StartOffset(index, lo))), cutoff, filter)
            == Scan(c, lines, cutoff, filter)
  {
    var j := SeekFindsLine(c, lines, index, lo, cutoff);
    hide Render, SplitLines, ReadAt, IndexOfSome, InOrder;
    ScanOfOld(c, lines[..j], cutoff, filter);
    SkipIsExact(c, lines, j, cutoff, filter);
  }

  // ----- when seeking is exact

  /** The lines that a query for `cutoff` reads. */
  ghost function SoughtFor(lines: seq<Line>, index: seq<IndexEntry>, cutoff: int): seq<Line> {
    Sought(lines, index, Bisect(index, 0, |index|, cutoff))
  }

  /** Whatever cutoff is asked for, the query returns what a full scan returns. */
  ghost predicate QueriesExact(c: Codec, lines: seq<Line>, index: seq<IndexEntry>, filter: seq<Flow> -> seq<Flow>) {
    forall cutoff: int :: Scan(c, SoughtFor(lines, index, cutoff), cutoff, filter) == Scan(c, lines, cutoff, filter)
  }

  /** The line at which a query for `cutoff` starts to read. */
  ghost function StartFor(c: Codec, lines: seq<Line>, at: seq<nat>, cutoff: int): nat
    requires Places(c, lines, at)
  {
    StartLine(at, Bisect(IndexAt(c, lines, at), 0, |at|, cutoff))
  }

  /** A line has a record that is not before the cutoff and whose flows are wanted. */
  ghost predicate Asked(c: Codec, line: Line, cutoff: int, wanted: seq<Flow> -> bool) {
    match c.decode(line)
    case None => false
    case Some(r) => r.ts >= cutoff && wanted(r.flows)
  }

  /** A query for the time of a line with wanted flows starts to read at that line or before it. */
  ghost predicate Reached(c: Codec, lines: seq<Line>, at: seq<nat>, wanted: seq<Flow> -> bool)
    requires Places(c, lines, at)
  {
    forall i :: 0 <= i < |lines| && c.decode(lines[i]).Some? && wanted(c.decode(lines[i]).value.flows) ==>
      StartFor(c, lines, at, c.decode(lines[i]).value.ts) <= i
  }

  /** No query starts to read behind a line that it asks for. */
  ghost predicate NoneSkipped(c: Codec, lines: seq<Line>, at: seq<nat>, wanted: seq<Flow> -> bool)
    requires Places(c, lines, at)
  {
    forall cutoff: int, i :: 0 <= i < |lines| && Asked(c, lines[i], cutoff, wanted) ==> StartFor(c, lines, at, cutoff) <= i
  }

  /** The flows of which the filter keeps some. */
  ghost function Wants(filter: seq<Flow> -> seq<Flow>): seq<Flow> -> bool {
    flows => filter(flows) != []
  }

  /** A later cutoff never makes the bisection end earlier, on an unsorted index either. */
  lemma {:induction false} BisectIsMonotone(index: seq<IndexEntry>, lo: nat, hi: nat, a: int, b: int)
    requires lo <= hi <= |index| && a <= b
    ensures Bisect(index, lo, hi, a) <= Bisect(index, lo, hi, b)
    decreases hi - lo
  {
    if lo < hi {
      var mid := (lo + hi) / 2;
      if index[mid].ts < a {
        BisectIsMonotone(index, mid + 1, hi, a, b);
      } else if index[mid].ts >= b {
        BisectIsMonotone(index, lo, mid, a, b);
      }
    }
  }

  lemma {:induction false} StartIsMonotone(c: Codec, lines: seq<Line>, at: seq<nat>, a: int, b: int)
    requires Places(c, lines, at) && a <= b
    ensures StartFor(c, lines, at, a) <= StartFor(c, lines, at, b)
  {
    BisectIsMonotone(IndexAt(c, lines, at), 0, |at|, a, b);
    hide Bisect;
  }

  /** It is enough to look at the queries for the times of the lines themselves. */
  lemma {:induction false} NoneSkippedIff(c: Codec, lines: seq<Line>, at: seq<nat>, wanted: seq<Flow> -> bool)
    requires Places(c, lines, at)
    ensures NoneSkipped(c, lines, at, wanted) <==> Reached(c, lines, at, wanted)
  {
    hide StartFor, Places;
    if Reached(c, lines, at, wanted) {
      forall cutoff: int, i | 0 <= i < |lines| && Asked(c, lines[i], cutoff, wanted)
        ensures StartFor(c, lines, at, cutoff) <= i
      {
        StartIsMonotone(c, lines, at, cutoff, c.decode(lines[i]).value.ts);
      }
    } else {
      var i :| 0 <= i < |lines| && c.decode(lines[i]).Some? && wanted(c.decode(lines[i]).value.flows)
               && StartFor(c, lines, at, c.decode(lines[i]).value.ts) > i;
      assert Asked(c, lines[i], c.decode(lines[i]).value.ts, wanted);
    }
  }

  lemma {:induction false} ScanEmptyIff(c: Codec, lines: seq<Line>, cutoff: int, filter: seq<Flow> -> seq<Flow>)
    ensures Scan(c, lines, cutoff, filter) == [] <==> forall i :: 0 <= i < |lines| ==> Hit(c, lines[i], cutoff, filter) == []
  {
    if lines != [] {
      hide Hit;
      ScanEmptyIff(c, lines[1..], cutoff, filter);
      assert forall i :: 1 <= i < |lines| ==> lines[i] == lines[1..][i - 1];
    }
  }

  /** A query loses nothing exactly if no line before its start line matches. */
  lemma {:induction false} QueryIsExactIff(c: Codec, lines: seq<Line>, at: seq<nat>, lo: nat, cutoff: int, filter: seq<Flow> -> seq<Flow>)
    requires AllClean(lines) && Places(c, lines, at) && lo <= |at|
    ensures StartLine(at, lo) <= |lines|
    ensures Scan(c, Sought(lines, IndexAt(c, lines, at), lo), cutoff, filter) == Scan(c, lines, cutoff, filter)
            <==> forall i :: 0 <= i < StartLine(at, lo) ==> Hit(c, lines[i], cutoff, filter) == []
  {
    hide Scan, Hit, Sought, StartLine, Places;
    var j := StartLine(at, lo);
    SoughtFromStartLine(c, lines, at, lo);
    SkipIsExact(c, lines, j, cutoff, filter);
    ScanEmptyIff(c, lines[..j], cutoff, filter);
    assert forall i :: 0 <= i < j ==> lines[..j][i] == lines[i];
  }

  lemma {:induction false} QueryForIsExactIff(c: Codec, lines: seq<Line>, at: seq<nat>, cutoff: int, filter: seq<Flow> -> seq<Flow>)
    requires AllClean(lines) && Places(c, lines, at)
    ensures Scan(c, SoughtFor(lines, IndexAt(c, lines, at), cutoff), cutoff, filter) == Scan(c, lines, cutoff, filter)
            <==> forall i :: 0 <= i < |lines| && Asked(c, lines[i], cutoff, Wants(filter)) ==> StartFor(c, lines, at, cutoff) <= i
  {
    hide Scan, Sought, Places, AllClean, Bisect, StartLine;
    QueryIsExactIff(c, lines, at, Bisect(IndexAt(c, lines, at), 0, |at|, cutoff), cutoff, filter);
    assert forall i :: 0 <= i < |lines| ==> (Hit(c, lines[i], cutoff, filter) != [] <==> Asked(c, lines[i], cutoff, Wants(filter)));
    hide Hit, Asked;
  }

  /** All queries through an index of the lines at the places `at` are exact, whatever the order of the timestamps, if and
      only if every line with flows for the filter is read by the query for its own time. */
  lemma {:induction false} QueriesAreExactIff(c: Codec, lines: seq<Line>, at: seq<nat>, filter: seq<Flow> -> seq<Flow>)
    requires AllClean(lines) && Places(c, lines, at)
    ensures QueriesExact(c, lines, IndexAt(c, lines, at), filter) <==> Reached(c, lines, at, Wants(filter))
  {
    hide Scan, SoughtFor, Places, AllClean, StartFor, Asked, Reached, Wants;
    NoneSkippedIff(c, lines, at, Wants(filter));
    var index := IndexAt(c, lines, at);
    forall cutoff: int
      ensures Scan(c, SoughtFor(lines, index, cutoff), cutoff, filter) == Scan(c, lines, cutoff, filter)
              <==> forall i :: 0 <= i < |lines| && Asked(c, lines[i], cutoff, Wants(filter)) ==> StartFor(c, lines, at, cutoff) <= i
    {
      QueryForIsExactIff(c, lines, at, cutoff, filter);
    }
  }

  // ----- an order of the timestamps that is enough, and more than is needed

  /** Line `a` has wanted flows and a later time than line `b`. */
  ghost predicate Overtakes(c: Codec, a: Line, b: Line, wanted: seq<Flow> -> bool) {
    && c.decode(a).Some? && c.decode(b).Some?
    && wanted(c.decode(a).value.flows) && c.decode(a).value.ts > c.decode(b).value.ts
  }

  /** No line with wanted flows is followed by an indexed line with a smaller time. */
  ghost predicate Orderly(c: Codec, lines: seq<Line>, at: seq<nat>, wanted: seq<Flow> -> bool)
    requires Places(c, lines, at)
  {
    forall i, p :: 0 <= p < |at| && 0 <= i < at[p] ==> !Overtakes(c, lines[i], lines[at[p]], wanted)
  }

  lemma {:induction false} OrderlyIsEnough(c: Codec, lines: seq<Line>, at: seq<nat>, wanted: seq<Flow> -> bool)
    requires Places(c, lines, at) && Orderly(c, lines, at, wanted)
    ensures Reached(c, lines, at, wanted)
  {
    var index := IndexAt(c, lines, at);
    forall i | 0 <= i < |lines| && c.decode(lines[i]).Some? && wanted(c.decode(lines[i]).value.flows)
      ensures StartFor(c, lines, at, c.decode(lines[i]).value.ts) <= i
    {
      var ts := c.decode(lines[i]).value.ts;
      var lo := Bisect(index, 0, |index|, ts);
      BisectAnswers(index, 0, |index|, ts);
      hide Bisect;
      if lo > 0 {
        assert c.decode(lines[at[lo - 1]]).value.ts < ts;
        assert Overtakes(c, lines[i], lines[at[lo - 1]], wanted);
      }
    }
  }

  /** It is not needed: behind two lines with a late time the bisection never gets to an early third one. */
  lemma {:induction false} OrderIsNotNeeded(c: Codec, late: Line, early: Line, wanted: seq<Flow> -> bool)
    requires Overtakes(c, late, early, wanted)
    ensures var lines, at: seq<nat> := [late, late, early], [0, 1, 2];
            Places(c, lines, at) && !Orderly(c, lines, at, wanted) && Reached(c, lines, at, wanted)
  {
    var lines, at: seq<nat> := [late, late, early], [0, 1, 2];
    assert Overtakes(c, lines[0], lines[at[2]], wanted);
    var index := IndexAt(c, lines, at);
    assert index[0].ts == index[1].ts == c.decode(late).value.ts;
    forall cutoff: int | cutoff <= c.decode(late).value.ts
      ensures StartFor(c, lines, at, cutoff) == 0
    {
      assert Bisect(index, 0, 3, cutoff) == Bisect(index, 0, 1, cutoff) == 0;
    }
  }
}
