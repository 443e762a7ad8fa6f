/** The history store as a state machine: appends, index rebuilds, restarts and pruning
    (internal/history/history.go, lines 83-135, 312-332, 515-619). */
module HistoryRuns {
  import opened Wrappers
  import opened HistoryLines
  import opened HistoryIndex
  import opened SafeReplace
  import opened HistoryRotation
  import opened HistoryRotationSafety

  const HOUR: int := 3_600_000_000_000
  const MIB: int := 1024 * 1024
  const MAX_LINE: nat := 64 * 1024 * 1024

  datatype Config = Config(compressRotated: bool, maxAgeHours: int, maxSizeMB: int, pruneToHours: int, maxRotatedDays: int)

  // ----- pruning

  ghost predicate Keeps(c: Codec, line: Line, cutoff: int) {
    c.decode(line).Some? ==> c.decode(line).value.ts > cutoff
  }

  /** The undecodable or newer-than-cutoff lines, in file order. */
  ghost function KeptLines(c: Codec, lines: seq<Line>, cutoff: int): seq<Line> {
    if lines == [] then []
    else
      var last := lines[|lines| - 1];
      KeptLines(c, lines[..|lines| - 1], cutoff) + if Keeps(c, last, cutoff) then [last] else []
  }

  ghost function Size(lines: seq<Line>): nat {
    if lines == [] then 0 else |lines[0]| + 1 + Size(lines[1..])
  }

  lemma {:induction false} SizeIsLength(lines: seq<Line>)
    ensures Size(lines) == |Render(lines)|
  {
    if lines != [] {
      SizeIsLength(lines[1..]);
    }
  }

  /** Drops lines from the front while they take more than `maxBytes`; 0 or less means no limit. */
  ghost function Trim(keep: seq<Line>, maxBytes: int): seq<Line> {
    if maxBytes > 0 && Size(keep) > maxBytes && keep != [] then Trim(keep[1..], maxBytes) else keep
  }

  ghost function PruneCutoff(lines: seq<Line>, cfg: Config, now: int): int {
    now - (if Size(lines) > cfg.maxSizeMB * MIB then cfg.pruneToHours else cfg.maxAgeHours) * HOUR
  }

  /** The lines that a prune writes back. */
  ghost function Survivors(c: Codec, lines: seq<Line>, cfg: Config, now: int): seq<Line> {
    Trim(KeptLines(c, lines, PruneCutoff(lines, cfg, now)), cfg.maxSizeMB * MIB)
  }

  ghost function Prune(c: Codec, st: State, cfg: Config, now: int, o: Outcome): State {
    if st.hot.None? then st else ReplaceHot(st, Survivors(c, st.hot.value, cfg, now), o)
  }

  /** The whole of pruneOld: rotation first, when configured, and then pruning. */
  ghost function PruneOld(c: Codec, st: State, cfg: Config, rotateAt: int, course: Course, pruneAt: int, o: Outcome): State {
    Prune(c, if cfg.compressRotated then Rotate(c, st, rotateAt, cfg.maxRotatedDays, course) else st, cfg, pruneAt, o)
  }

  // ----- events

  /** Why an append is refused or how it fails, or the line that is written. */
  ghost function LineToAppend(c: Codec, r: Record): Option<Line> {
    if r.flows == [] then None
    else match c.encode(r)
         case None => None
         case Some(line) => if |line| > MAX_LINE then None else Some(line)
  }

  /** How the writing of a line goes: completely, completely but with an error when the file is closed, not at all in a
      file that has been opened, which creates it, or not at all because it cannot be opened. */
  datatype AppendIO = Written | Unclosed | Failed | Unopened

  predicate Writes(io: AppendIO) {
    io == Written || io == Unclosed
  }

  ghost function Append(c: Codec, st: State, r: Record, io: AppendIO): State {
    match LineToAppend(c, r)
    case None => st
    case Some(line) =>
      match io
      case Unopened => st
      case Failed => st.(hot := Some(HotLines(st)))
      case Unclosed => st.(hot := Some(HotLines(st) + [line]))
      case Written =>
        st.(hot := Some(HotLines(st) + [line]),
            index := st.index + [IndexEntry(r.ts, Offset(HotLines(st), |HotLines(st)|))])
  }

  /** The lines that a reader gets that breaks off after `n` lines. */
  function First(lines: seq<Line>, n: nat): seq<Line> {
    if n <= |lines| then lines[..n] else lines
  }

  /** What a query does to the index before it searches it: it rebuilds an empty one from the lines it can read. */
  ghost function EnsureIndex(c: Codec, st: State, n: nat): State {
    if st.hot.Some? && st.index == [] then st.(index := IndexFrom(c, First(st.hot.value, n), 0)) else st
  }

  datatype Event =
    | AppendEvent(record: Record, io: AppendIO)
    | QueryEvent(n: nat)
    | RestartEvent
    | PruneEvent(rotateAt: int, course: Course, pruneAt: int, outcome: Outcome)

  ghost function Step(c: Codec, cfg: Config, st: State, e: Event): State {
    match e
    case AppendEvent(r, io) => Append(c, st, r, io)
    case QueryEvent(n) => EnsureIndex(c, st, n)
    case RestartEvent => st.(index := [])
    case PruneEvent(rotateAt, course, pruneAt, o) => PruneOld(c, st, cfg, rotateAt, course, pruneAt, o)
  }

  ghost function Run(c: Codec, cfg: Config, st: State, events: seq<Event>): State
    decreases |events|
  {
    if events == [] then st else Run(c, cfg, Step(c, cfg, st, events[0]), events[1..])
  }

  // ----- the invariant

  /** The index lists some lines of the hot file, in order; without a file it is empty. */
  ghost predicate IndexSound(c: Codec, st: State) {
    match st.hot
    case None => st.index == []
    case Some(lines) => IndexOfSome(c, lines, st.index)
  }

  /** The files are sound, whatever the index lists. */
  ghost predicate FilesSound(c: Codec, st: State) {
    AllClean(HotLines(st)) && DaysSorted(c, st.days)
  }

  /** What every event keeps, whatever the order of the timestamps. */
  ghost predicate Sound(c: Codec, st: State) {
    IndexSound(c, st) && FilesSound(c, st)
  }

  ghost predicate Inv(c: Codec, st: State) {
    Sound(c, st) && InOrder(c, HotLines(st))
  }

  /** Replacements that leave the file untouched or report success. */
  ghost predicate CleanOutcome(o: Outcome) {
    o == Installed || o == Untouched
  }

  /** A course that fails at its first day never comes to the hot file. */
  ghost predicate ComesToHot(course: Course) {
    course.dayOutcome == Installed || course.day > 0
  }

  /** The failures of a prune that leave no stale index: none that changes the hot file without a report of success,
      unless a backup was kept by the rotation and the prune then replaces the file once more. */
  ghost predicate SafePrune(cfg: Config, course: Course, o: Outcome) {
    && CleanOutcome(o)
    && (cfg.compressRotated && ComesToHot(course) ==>
          CleanOutcome(course.hotOutcome) || (course.hotOutcome == InstalledBackupKept && o == Installed))
  }

  /** What is assumed of every event: the codec round-trips the records that are appended, and prunes leave no stale
      index. */
  ghost predicate Tame(c: Codec, cfg: Config, e: Event) {
    match e
    case AppendEvent(r, _) => RoundTrips(c, r)
    case QueryEvent(_) => true
    case RestartEvent => true
    case PruneEvent(_, course, _, o) => SafePrune(cfg, course, o)
  }

  ghost predicate TameRun(c: Codec, cfg: Config, events: seq<Event>) {
    forall i :: 0 <= i < |events| ==> Tame(c, cfg, events[i])
  }

  /** An append is stamped no earlier than the records already in the file. */
  ghost predicate Stamped(c: Codec, st: State, e: Event) {
    e.AppendEvent? ==>
      forall i :: 0 <= i < |HotLines(st)| && c.decode(HotLines(st)[i]).Some? ==> c.decode(HotLines(st)[i]).value.ts <= e.record.ts
  }

  ghost predicate Admissible(c: Codec, cfg: Config, st: State, e: Event) {
    Tame(c, cfg, e) && Stamped(c, st, e)
  }

  ghost predicate AdmissibleRun(c: Codec, cfg: Config, st: State, events: seq<Event>)
    decreases |events|
  {
    events == [] || (Admissible(c, cfg, st, events[0]) && AdmissibleRun(c, cfg, Step(c, cfg, st, events[0]), events[1..]))
  }

  // ----- pruning keeps the longest suffix that fits

  lemma {:induction false} KeptHas(c: Codec, lines: seq<Line>, cutoff: int, line: Line)
    ensures line in KeptLines(c, lines, cutoff) <==> line in lines && Keeps(c, line, cutoff)
  {
    if lines != [] {
      KeptHas(c, lines[..|lines| - 1], cutoff, line);
      assert lines == lines[..|lines| - 1] + [lines[|lines| - 1]];
    }
  }

  lemma {:induction false} SizeDrop(lines: seq<Line>, i: nat, j: nat)
    requires i <= j <= |lines|
    ensures Size(lines[i..]) >= Size(lines[j..])
    decreases j - i
  {
    if i < j {
      SizeDrop(lines, i + 1, j);
      assert lines[i..][1..] == lines[i + 1..];
    }
  }

  /** Trim returns the longest suffix that fits into `maxBytes` bytes. */
  lemma {:induction false} TrimIsLongestSuffix(keep: seq<Line>, maxBytes: int) returns (d: nat)
    ensures d <= |keep| && Trim(keep, maxBytes) == keep[d..]
    ensures maxBytes <= 0 ==> d == 0
    ensures maxBytes > 0 ==> Size(keep[d..]) <= maxBytes && forall e :: 0 <= e < d ==> Size(keep[e..]) > maxBytes
  {
    if maxBytes > 0 && Size(keep) > maxBytes && keep != [] {
      var d' := TrimIsLongestSuffix(keep[1..], maxBytes);
      d := d' + 1;
      assert keep[1..][d'..] == keep[d..];
      forall e | 0 <= e < d
        ensures Size(keep[e..]) > maxBytes
      {
        if e == 0 {
          assert keep[0..] == keep;
        } else {
          assert keep[1..][e - 1..] == keep[e..];
        }
      }
    } else {
      d := 0;
      assert keep[0..] == keep;
    }
  }

  /** What a successful prune leaves in the hot file: the longest suffix, by bytes, of the lines that
      are undecodable or newer than the cutoff. */
  lemma {:induction false} PruneKeepsLongestSuffix(c: Codec, st: State, cfg: Config, now: int) returns (d: nat)
    requires st.hot.Some? && cfg.maxSizeMB > 0
    ensures var keep := KeptLines(c, st.hot.value, PruneCutoff(st.hot.value, cfg, now));
            && d <= |keep| && Prune(c, st, cfg, now, Installed).hot == Some(keep[d..])
            && Size(keep[d..]) <= cfg.maxSizeMB * MIB
            && (forall e :: 0 <= e < d ==> Size(keep[e..]) > cfg.maxSizeMB * MIB)
    ensures Prune(c, st, cfg, now, Installed).index == []
  {
    d := TrimIsLongestSuffix(KeptLines(c, st.hot.value, PruneCutoff(st.hot.value, cfg, now)), cfg.maxSizeMB * MIB);
  }

  // ----- what every event keeps

  /** `part` is some of the lines, in file order. */
  ghost predicate Selection(part: seq<Line>, lines: seq<Line>) {
    exists at: seq<nat> :: SelectedBy(part, lines, at)
  }

  ghost predicate SelectedBy(part: seq<Line>, lines: seq<Line>, at: seq<nat>) {
    && |at| == |part|
    && (forall i :: 0 <= i < |at| ==> at[i] < |lines| && part[i] == lines[at[i]])
    && (forall i, j :: 0 <= i < j < |at| ==> at[i] < at[j])
  }

  lemma {:induction false} SelectNext(part: seq<Line>, lines: seq<Line>, last: Line)
    requires Selection(part, lines)
    ensures Selection(part, lines + [last]) && Selection(part + [last], lines + [last])
  {
    var at: seq<nat> :| SelectedBy(part, lines, at);
    assert SelectedBy(part, lines + [last], at);
    assert SelectedBy(part + [last], lines + [last], at + [|lines|]);
  }

  /** Clean and ordered lines stay so in every selection. */
  lemma {:induction false} SelectionKeeps(c: Codec, part: seq<Line>, lines: seq<Line>)
    requires Selection(part, lines)
    ensures AllClean(lines) ==> AllClean(part)
    ensures InOrder(c, lines) ==> InOrder(c, part)
  {
    var at: seq<nat> :| SelectedBy(part, lines, at);
  }

  lemma {:induction false} KeptIsSelection(c: Codec, lines: seq<Line>, cutoff: int)
    ensures Selection(KeptLines(c, lines, cutoff), lines)
  {
    if lines == [] {
      assert SelectedBy([], [], []);
    } else {
      var init, last := lines[..|lines| - 1], lines[|lines| - 1];
      KeptIsSelection(c, init, cutoff);
      assert lines == init + [last];
      SelectNext(KeptLines(c, init, cutoff), init, last);
      assert KeptLines(c, init, cutoff) + [] == KeptLines(c, init, cutoff);
      hide Selection;
    }
  }

  lemma {:induction false} PartIsSelection(c: Codec, lines: seq<Line>, today: int, day: Option<int>)
    ensures Selection(Part(c, lines, today, day), lines)
  {
    if lines == [] {
      assert SelectedBy([], [], []);
    } else {
      var init, last := lines[..|lines| - 1], lines[|lines| - 1];
      PartIsSelection(c, init, today, day);
      assert lines == init + [last];
      SelectNext(Part(c, init, today, day), init, last);
      assert Part(c, init, today, day) + [] == Part(c, init, today, day);
      hide Selection;
    }
  }

  lemma {:induction false} SuffixIsSelection(lines: seq<Line>, d: nat, whole: seq<Line>)
    requires d <= |lines| && Selection(lines, whole)
    ensures Selection(lines[d..], whole)
  {
    var at: seq<nat> :| SelectedBy(lines, whole, at);
    assert SelectedBy(lines[d..], whole, at[d..]);
  }

  lemma {:induction false} SelectionOfSelection(a: seq<Line>, b: seq<Line>, lines: seq<Line>)
    requires Selection(a, b) && Selection(b, lines)
    ensures Selection(a, lines)
  {
    var p: seq<nat> :| SelectedBy(a, b, p);
    var q: seq<nat> :| SelectedBy(b, lines, q);
    var at: seq<nat> := seq(|p|, i requires 0 <= i < |p| => q[p[i]]);
    assert SelectedBy(a, lines, at);
  }

  /** The hot file is as before, or a selection of its lines. */
  ghost predicate Shortened(before: State, after: State) {
    || after.hot == before.hot
    || (before.hot.Some? && after.hot.Some? && Selection(after.hot.value, before.hot.value))
  }

  /** The hot file and the index after an event that rewrites the file: as before, or a selection with no index. */
  ghost predicate Rewritten(before: State, after: State) {
    || (after.hot == before.hot && after.index == before.index)
    || (before.hot.Some? && after.hot.Some? && Selection(after.hot.value, before.hot.value) && after.index == [])
  }

  lemma {:induction false} WholeIsSelection(lines: seq<Line>)
    ensures Selection(lines, lines)
  {
    var at: seq<nat> := seq(|lines|, i requires 0 <= i < |lines| => i);
    assert SelectedBy(lines, lines, at);
  }

  lemma {:induction false} RewrittenTwice(a: State, b: State, d: State)
    requires Rewritten(a, b) && Rewritten(b, d)
    ensures Rewritten(a, d)
  {
    hide Selection;
    if a.hot.Some? && b.hot.Some? && d.hot.Some? && Selection(b.hot.value, a.hot.value) && Selection(d.hot.value, b.hot.value) {
      SelectionOfSelection(d.hot.value, b.hot.value, a.hot.value);
    }
  }

  lemma {:induction false} RewrittenKeeps(c: Codec, before: State, after: State)
    requires Sound(c, before) && Rewritten(before, after) && DaysSorted(c, after.days)
    ensures Sound(c, after)
    ensures InOrder(c, HotLines(before)) ==> InOrder(c, HotLines(after))
  {
    hide DaysSorted, IndexOfSome, AllClean, InOrder, Selection;
    if after.hot != before.hot || after.index != before.index {
      EmptyIndex(c, after.hot.value);
      SelectionKeeps(c, after.hot.value, before.hot.value);
    }
  }

  /** A rotation either leaves hot file and index alone or cuts the file down, and empties the index if it reports
      success. */
  lemma {:induction false} RotateShape(c: Codec, st: State, now: int, maxRotatedDays: int, course: Course)
    ensures var r := Rotate(c, st, now, maxRotatedDays, course);
            && (!ComesToHot(course) || CleanOutcome(course.hotOutcome) ==> Rewritten(st, r))
            && (course.hotOutcome != Displaced ==> Shortened(st, r))
            && (st.hot.None? ==> r == st)
  {
    if st.hot.Some? {
      var lines, today := st.hot.value, now / DAY;
      var ordered := OrderedDays(c, lines, today);
      PartIsSelection(c, lines, today, None);
      MergeDaysKeep(c, st, lines, today, ordered, []);
      if course.day < |ordered| {
        MergeDaysKeep(c, st, lines, today, ordered[..course.day], []);
      }
      hide MergeDays, Part, OrderedDays, Selection;
    }
  }

  lemma {:induction false} SurvivorsAreSelection(c: Codec, lines: seq<Line>, cfg: Config, now: int)
    ensures Selection(Survivors(c, lines, cfg, now), lines)
  {
    var cutoff := PruneCutoff(lines, cfg, now);
    var keep := KeptLines(c, lines, cutoff);
    KeptIsSelection(c, lines, cutoff);
    var d := TrimIsLongestSuffix(keep, cfg.maxSizeMB * MIB);
    SuffixIsSelection(keep, d, lines);
  }

  lemma {:induction false} PruneShape(c: Codec, st: State, cfg: Config, now: int, o: Outcome)
    ensures var r := Prune(c, st, cfg, now, o);
            && r.days == st.days
            && (CleanOutcome(o) ==> Rewritten(st, r))
            && (o == Installed && st.hot.Some? ==> r.hot.Some? && Selection(r.hot.value, st.hot.value) && r.index == [])
  {
    if st.hot.Some? {
      SurvivorsAreSelection(c, st.hot.value, cfg, now);
      hide Survivors, Selection;
    }
  }

  lemma {:induction false} PruneOldShape(c: Codec, st: State, cfg: Config, rotateAt: int, course: Course, pruneAt: int, o: Outcome)
    requires SafePrune(cfg, course, o)
    ensures Rewritten(st, PruneOld(c, st, cfg, rotateAt, course, pruneAt, o))
  {
    var rotated := if cfg.compressRotated then Rotate(c, st, rotateAt, cfg.maxRotatedDays, course) else st;
    RotateShape(c, st, rotateAt, cfg.maxRotatedDays, course);
    PruneShape(c, rotated, cfg, pruneAt, o);
    hide Rotate, Prune, Selection;
    if Rewritten(st, rotated) {
      RewrittenTwice(st, rotated, Prune(c, rotated, cfg, pruneAt, o));
    } else {
      assert Shortened(st, rotated) && o == Installed && st.hot.Some? && rotated.hot.Some?;
      WholeIsSelection(st.hot.value);
      SelectionOfSelection(Prune(c, rotated, cfg, pruneAt, o).hot.value, rotated.hot.value, st.hot.value);
    }
  }

  lemma {:induction false} InOrderSnoc(c: Codec, lines: seq<Line>, line: Line)
    requires InOrder(c, lines)
    requires c.decode(line).Some? ==> forall i :: 0 <= i < |lines| && c.decode(lines[i]).Some? ==> c.decode(lines[i]).value.ts <= c.decode(line).value.ts
    ensures InOrder(c, lines + [line])
  {
  }

  lemma {:induction false} AppendKeepsSound(c: Codec, st: State, r: Record, io: AppendIO)
    requires Sound(c, st) && RoundTrips(c, r)
    ensures Sound(c, Append(c, st, r, io))
  {
    hide IndexOfSome, Offset, DaysSorted, LineToAppend;
    EmptyIndex(c, HotLines(st));
    match LineToAppend(c, r)
    case None =>
    case Some(line) =>
      EncodedLine(c, r);
      if Writes(io) {
        AppendKeepsIndex(c, HotLines(st), st.index, line, r);
        MoreLinesKeepIndex(c, HotLines(st), [line], st.index);
      }
  }

  lemma {:induction false} EncodedLine(c: Codec, r: Record)
    requires RoundTrips(c, r) && LineToAppend(c, r).Some?
    ensures Clean(LineToAppend(c, r).value) && c.decode(LineToAppend(c, r).value) == Some(r)
  {
  }

  lemma {:induction false} EnsureKeepsSound(c: Codec, st: State, n: nat)
    requires Sound(c, st)
    ensures Sound(c, EnsureIndex(c, st, n))
  {
    if st.hot.Some? && st.index == [] {
      var lines := st.hot.value;
      var read := First(lines, n);
      SuffixIsSome(c, read, IndexFrom(c, read, 0));
      MoreLinesKeepIndex(c, read, lines[|read|..], IndexFrom(c, read, 0));
      assert read + lines[|read|..] == lines;
    }
  }

  lemma {:induction false} PruneOldKeeps(c: Codec, st: State, cfg: Config, rotateAt: int, course: Course, pruneAt: int, o: Outcome)
    requires Sound(c, st) && SafePrune(cfg, course, o)
    ensures var after := PruneOld(c, st, cfg, rotateAt, course, pruneAt, o);
            Sound(c, after) && (InOrder(c, HotLines(st)) ==> InOrder(c, HotLines(after)))
  {
    RotationKeepsDaysSorted(c, st, rotateAt, cfg.maxRotatedDays, course);
    PruneShape(c, if cfg.compressRotated then Rotate(c, st, rotateAt, cfg.maxRotatedDays, course) else st, cfg, pruneAt, o);
    PruneOldShape(c, st, cfg, rotateAt, course, pruneAt, o);
    hide Rotate, Prune, InOrder, DaysSorted;
    RewrittenKeeps(c, st, PruneOld(c, st, cfg, rotateAt, course, pruneAt, o));
  }

  /** Every event keeps the index right, also when timestamps go back and when an append is written but reports an
      error. */
  lemma {:induction false} StepKeepsSound(c: Codec, cfg: Config, st: State, e: Event)
    requires Sound(c, st) && Tame(c, cfg, e)
    ensures Sound(c, Step(c, cfg, st, e))
  {
    match e
    case AppendEvent(r, io) => AppendKeepsSound(c, st, r, io);
    case QueryEvent(n) => EnsureKeepsSound(c, st, n);
    case RestartEvent => EmptyIndex(c, HotLines(st));
    case PruneEvent(rotateAt, course, pruneAt, o) => PruneOldKeeps(c, st, cfg, rotateAt, course, pruneAt, o);
  }

  /** Every admissible event keeps the invariant. */
  lemma {:induction false} StepKeepsInv(c: Codec, cfg: Config, st: State, e: Event)
    requires Inv(c, st) && Admissible(c, cfg, st, e)
    ensures Inv(c, Step(c, cfg, st, e))
  {
    StepKeepsSound(c, cfg, st, e);
    hide Sound, SafePrune;
    match e
    case AppendEvent(r, io) =>
      var line := LineToAppend(c, r);
      if line.Some? && Writes(io) {
        InOrderSnoc(c, HotLines(st), line.value);
      }
    case QueryEvent(n) =>
    case RestartEvent =>
    case PruneEvent(rotateAt, course, pruneAt, o) => PruneOldKeeps(c, st, cfg, rotateAt, course, pruneAt, o);
  }

  lemma {:induction false} RunKeepsSound(c: Codec, cfg: Config, st: State, events: seq<Event>)
    requires Sound(c, st) && TameRun(c, cfg, events)
    ensures Sound(c, Run(c, cfg, st, events))
    decreases |events|
  {
    if events != [] {
      hide Sound, Step, Tame;
      StepKeepsSound(c, cfg, st, events[0]);
      assert forall i :: 0 <= i < |events| - 1 ==> events[1..][i] == events[i + 1];
      RunKeepsSound(c, cfg, Step(c, cfg, st, events[0]), events[1..]);
    }
  }

  lemma {:induction false} RunKeepsInv(c: Codec, cfg: Config, st: State, events: seq<Event>)
    requires Inv(c, st) && AdmissibleRun(c, cfg, st, events)
    ensures Inv(c, Run(c, cfg, st, events))
    decreases |events|
  {
    if events != [] {
      hide Inv, Step, Admissible;
      StepKeepsInv(c, cfg, st, events[0]);
      RunKeepsInv(c, cfg, Step(c, cfg, st, events[0]), events[1..]);
    }
  }

  /** In every state that a run reaches, a query that seeks through the index returns exactly what
      a scan of the whole hot file returns. `lo` is any answer the binary search can give, `n` how many
      lines could be read for the index. */
  lemma {:induction false} QueryIsExactInEveryRun(c: Codec, cfg: Config, st: State, events: seq<Event>, n: nat, lo: nat, cutoff: int, filter: seq<Flow> -> seq<Flow>)
    requires Inv(c, st) && AdmissibleRun(c, cfg, st, events)
    requires var now := EnsureIndex(c, Run(c, cfg, st, events), n);
             && now.hot.Some? && lo <= |now.index| && (lo > 0 ==> now.index[lo - 1].ts < cutoff)
    ensures var now := EnsureIndex(c, Run(c, cfg, st, events), n);
            Scan(c, SplitLines(ReadAt(Render(now.hot.value), StartOffset(now.index, lo))), cutoff, filter)
            == Scan(c, now.hot.value, cutoff, filter)
  {
    RunKeepsInv(c, cfg, st, events);
    var reached := Run(c, cfg, st, events);
    EnsureKeepsSound(c, reached, n);
    hide Run, IndexOfSome, InOrder;
    SeekIsExact(c, reached.hot.value, EnsureIndex(c, reached, n).index, lo, cutoff, filter);
  }

  /** Without an assumption on timestamps: in every state that a run reaches the index lists the lines at some places
      `at`, and the queries are exact if and only if every line with flows for the filter is read by the query for its own
      time, as it is where no such line is followed by an indexed line with a smaller time. */
  lemma {:induction false} QueriesInRunsAreExactIff(c: Codec, cfg: Config, st: State, events: seq<Event>, n: nat, filter: seq<Flow> -> seq<Flow>) returns (at: seq<nat>)
    requires Sound(c, st) && TameRun(c, cfg, events) && Run(c, cfg, st, events).hot.Some?
    ensures var now := EnsureIndex(c, Run(c, cfg, st, events), n);
            && now.hot.Some? && Places(c, now.hot.value, at) && now.index == IndexAt(c, now.hot.value, at)
            && (QueriesExact(c, now.hot.value, now.index, filter) <==> Reached(c, now.hot.value, at, Wants(filter)))
            && (Orderly(c, now.hot.value, at, Wants(filter)) ==> QueriesExact(c, now.hot.value, now.index, filter))
  {
    at := PlacesInRun(c, cfg, st, events, n);
    var now := EnsureIndex(c, Run(c, cfg, st, events), n);
    hide Run, EnsureIndex, QueriesExact, Reached, Orderly, Places, IndexAt, AllClean, Wants;
    QueriesAreExactIff(c, now.hot.value, at, filter);
    if Orderly(c, now.hot.value, at, Wants(filter)) {
      OrderlyIsEnough(c, now.hot.value, at, Wants(filter));
    }
  }

  /** In every state that a run reaches the index lists the lines at some places. */
  lemma {:induction false} PlacesInRun(c: Codec, cfg: Config, st: State, events: seq<Event>, n: nat) returns (at: seq<nat>)
    requires Sound(c, st) && TameRun(c, cfg, events) && Run(c, cfg, st, events).hot.Some?
    ensures var now := EnsureIndex(c, Run(c, cfg, st, events), n);
            now.hot.Some? && AllClean(now.hot.value) && Places(c, now.hot.value, at) && now.index == IndexAt(c, now.hot.value, at)
  {
    RunKeepsSound(c, cfg, st, events);
    EnsureKeepsSound(c, Run(c, cfg, st, events), n);
    var now := EnsureIndex(c, Run(c, cfg, st, events), n);
    hide Run, Places, IndexAt;
    assert IndexOfSome(c, now.hot.value, now.index);
    at :| Places(c, now.hot.value, at) && now.index == IndexAt(c, now.hot.value, at);
  }

  /** It happens: of two records that are appended in the wrong order of their timestamps, a query for the later one
      returns nothing. */
  lemma {:induction false} OutOfOrderLosesEntries(c: Codec, cfg: Config, late: Record, early: Record)
    requires RoundTrips(c, late) && RoundTrips(c, early) && early.ts < late.ts
    requires LineToAppend(c, late).Some? && LineToAppend(c, early).Some?
    ensures var now := Run(c, cfg, EMPTY, [AppendEvent(late, Written), AppendEvent(early, Written)]);
            && now.hot.Some? && Bisect(now.index, 0, |now.index|, late.ts) == 2 <= |now.index|
            && Scan(c, Sought(now.hot.value, now.index, 2), late.ts, flows => flows) == []
            && Scan(c, now.hot.value, late.ts, flows => flows) == [late]
  {
    var l, e := LineToAppend(c, late).value, LineToAppend(c, early).value;
    var first, second := AppendEvent(late, Written), AppendEvent(early, Written);
    var lines, at: seq<nat> := [l, e], [0, 1];
    var st1 := Step(c, cfg, EMPTY, first);
    assert Offset([], 0) == 0 && [] + [l] == [l] && [] + [IndexEntry(late.ts, 0)] == [IndexEntry(late.ts, 0)];
    assert st1 == State(Some([l]), map[], [], [IndexEntry(late.ts, 0)]);
    var now := Step(c, cfg, st1, second);
    assert [l] + [e] == lines;
    assert now == State(Some(lines), map[], [], [IndexEntry(late.ts, 0), IndexEntry(early.ts, Offset([l], 1))]);
    TwoEvents(c, cfg, EMPTY, first, second);
    TwoLines(c, l, e);
    assert StartLine(at, 2) == 1;
    hide Run, Step, LineToAppend, Append, StartLine, Scan, Sought, Offset;
    SoughtFromStartLine(c, lines, at, 2);
    TwoScans(c, l, e, late.ts);
  }

  const EMPTY: State := State(None, map[], [], [])

  lemma {:induction false} TwoEvents(c: Codec, cfg: Config, st: State, a: Event, b: Event)
    ensures Run(c, cfg, st, [a, b]) == Step(c, cfg, Step(c, cfg, st, a), b)
  {
    hide Step;
    assert [a, b][1..] == [b] && [b][1..] == [];
    assert Run(c, cfg, Step(c, cfg, st, a), [b]) == Run(c, cfg, Step(c, cfg, Step(c, cfg, st, a), b), []);
  }

  lemma {:induction false} TwoLines(c: Codec, a: Line, b: Line)
    requires c.decode(a).Some? && c.decode(b).Some?
    ensures Places(c, [a, b], [0, 1])
    ensures IndexAt(c, [a, b], [0, 1]) == [IndexEntry(c.decode(a).value.ts, 0), IndexEntry(c.decode(b).value.ts, Offset([a], 1))]
  {
    var lines := [a, b];
    assert Offset(lines, 0) == 0 && Offset(lines, 1) == Offset([a], 1);
  }

  lemma {:induction false} TwoScans(c: Codec, a: Line, b: Line, cutoff: int)
    requires c.decode(a).Some? && c.decode(a).value.flows != [] && c.decode(a).value.ts >= cutoff
    requires c.decode(b).Some? && c.decode(b).value.ts < cutoff
    ensures Scan(c, [a, b][1..], cutoff, flows => flows) == [] && Scan(c, [a, b], cutoff, flows => flows) == [c.decode(a).value]
  {
    assert [a, b][1..] == [b] && [b][1..] == [];
  }

  // ----- when the index stays an index of a suffix

  ghost predicate SuffixSound(c: Codec, st: State) {
    match st.hot
    case None => st.index == []
    case Some(lines) => IndexOfSuffix(c, lines, st.index)
  }

  ghost predicate AnyParseable(c: Codec, lines: seq<Line>) {
    exists i :: 0 <= i < |lines| && c.decode(lines[i]).Some?
  }

  /** The events that leave a gap behind the index: a line is written, but an error on closing the file keeps it out of
      an index that lists others, or the lines for a new index are read in part only. */
  ghost predicate LeavesGap(c: Codec, st: State, e: Event) {
    match e
    case AppendEvent(r, io) => io == Unclosed && LineToAppend(c, r).Some? && st.index != []
    case QueryEvent(n) => st.hot.Some? && st.index == [] && n < |st.hot.value|
                          && AnyParseable(c, st.hot.value[..n]) && AnyParseable(c, st.hot.value[n..])
    case RestartEvent => false
    case PruneEvent(_, _, _, _) => false
  }

  /** An index of a suffix stays one exactly under the events that leave no gap. */
  lemma {:induction false} SuffixSurvivesIff(c: Codec, cfg: Config, st: State, e: Event)
    requires SuffixSound(c, st) && Tame(c, cfg, e)
    ensures SuffixSound(c, Step(c, cfg, st, e)) <==> !LeavesGap(c, st, e)
  {
    hide IndexOfSuffix, SafePrune;
    EmptyIndex(c, HotLines(Step(c, cfg, st, e)));
    match e
    case AppendEvent(r, io) => AppendedSuffix(c, st, r, io);
    case QueryEvent(n) => EnsuredSuffix(c, st, n);
    case RestartEvent => EmptyIndex(c, HotLines(st));
    case PruneEvent(rotateAt, course, pruneAt, o) =>
      PruneOldShape(c, st, cfg, rotateAt, course, pruneAt, o);
      hide PruneOld, Selection;
  }

  lemma {:induction false} AppendedSuffix(c: Codec, st: State, r: Record, io: AppendIO)
    requires SuffixSound(c, st) && RoundTrips(c, r)
    ensures SuffixSound(c, Append(c, st, r, io)) <==> !(io == Unclosed && LineToAppend(c, r).Some? && st.index != [])
  {
    EmptyIndex(c, []);
    var line := LineToAppend(c, r);
    if line.Some? && Writes(io) {
      var lines, all := HotLines(st), HotLines(st) + [line.value];
      EmptyIndex(c, lines);
      EmptyIndex(c, all);
      var k: nat :| k <= |lines| && st.index == IndexFrom(c, lines, k);
      IndexSnoc(c, lines, line.value, k);
      OffsetPrefix(lines, [line.value], |lines|);
      SuffixReaches(c, lines, k);
      hide IndexFrom, Offset;
      if io == Unclosed && st.index != [] {
        GapIsNoSuffix(c, all, |lines|, |lines|, st.index);
      }
    }
  }

  lemma {:induction false} EnsuredSuffix(c: Codec, st: State, n: nat)
    requires SuffixSound(c, st)
    ensures SuffixSound(c, EnsureIndex(c, st, n)) <==> !LeavesGap(c, st, QueryEvent(n))
  {
    if st.hot.Some? && st.index == [] {
      var lines := st.hot.value;
      if n < |lines| {
        EmptyIndex(c, lines);
        PrefixIndex(c, lines, n);
        hide IndexFrom;
      } else {
        assert First(lines, n) == lines;
      }
    }
  }

  /** The index of the first `n` lines, as an index of the whole file. */
  lemma {:induction false} PrefixIndex(c: Codec, lines: seq<Line>, n: nat)
    requires n < |lines|
    ensures var index := IndexFrom(c, lines[..n], 0);
            && (index == [] <==> !AnyParseable(c, lines[..n]))
            && (AnyParseable(c, lines[..n]) && AnyParseable(c, lines[n..]) ==> !IndexOfSuffix(c, lines, index))
            && (!AnyParseable(c, lines[n..]) ==> IndexOfSuffix(c, lines, index))
  {
    var front, rest := lines[..n], lines[n..];
    var index := IndexFrom(c, front, 0);
    assert front + rest == lines;
    SuffixReaches(c, front, 0);
    OffsetPrefix(front, rest, n);
    NoneParseable(c, front, 0);
    if AnyParseable(c, front) && AnyParseable(c, rest) {
      var i :| 0 <= i < |rest| && c.decode(rest[i]).Some?;
      assert lines[n + i] == rest[i];
      GapIsNoSuffix(c, lines, n, n + i, index);
    } else if !AnyParseable(c, rest) {
      IndexWithoutRest(c, front, rest, 0);
      assert index == IndexFrom(c, lines, 0);
    }
  }

  lemma {:induction false} NoneParseable(c: Codec, lines: seq<Line>, k: nat)
    requires k <= |lines|
    ensures IndexFrom(c, lines, k) == [] <==> forall i :: k <= i < |lines| ==> c.decode(lines[i]).None?
    decreases |lines| - k
  {
    if k < |lines| {
      NoneParseable(c, lines, k + 1);
    }
  }

  lemma {:induction false} IndexWithoutRest(c: Codec, front: seq<Line>, rest: seq<Line>, k: nat)
    requires !AnyParseable(c, rest) && k <= |front|
    ensures IndexFrom(c, front + rest, k) == IndexFrom(c, front, k)
    decreases |front| - k
  {
    if k < |front| {
      IndexWithoutRest(c, front, rest, k + 1);
      OffsetPrefix(front, rest, k);
    } else {
      assert forall i :: |front| <= i < |front + rest| ==> (front + rest)[i] == rest[i - |front|];
      NoneParseable(c, front + rest, |front|);
    }
  }

  /** It happens: one record is appended, and then another one whose line is written before closing the file fails. */
  lemma {:induction false} UnclosedAppendLeavesGap(c: Codec, cfg: Config, st: State, r: Record)
    requires RoundTrips(c, r) && LineToAppend(c, r).Some? && SuffixSound(c, st)
    ensures var once := Step(c, cfg, st, AppendEvent(r, Written));
            SuffixSound(c, once) && !SuffixSound(c, Step(c, cfg, once, AppendEvent(r, Unclosed)))
  {
    var once := Step(c, cfg, st, AppendEvent(r, Written));
    SuffixSurvivesIff(c, cfg, st, AppendEvent(r, Written));
    assert once.index != [];
    hide Step, SuffixSound, LineToAppend;
    SuffixSurvivesIff(c, cfg, once, AppendEvent(r, Unclosed));
  }

  // ----- when the index survives a replacement

  /** The outcomes under which replacing the hot file keeps the index sound, whatever the file held
      and whatever replaces it, are exactly the clean ones. The other two return an error although
      the file has changed, and the stale index stays. */
  lemma {:induction false} IndexSurvivesExactly(c: Codec, o: Outcome, line: Line)
    requires c.decode(line).Some?
    ensures CleanOutcome(o)
            <==> forall st: State, next: seq<Line> :: IndexSound(c, st) && Possible(o, st.hot.Some?) ==> IndexSound(c, ReplaceHot(st, next, o))
  {
    forall st: State, next: seq<Line> | CleanOutcome(o) && IndexSound(c, st) && Possible(o, st.hot.Some?)
      ensures IndexSound(c, ReplaceHot(st, next, o))
    {
      EmptyIndex(c, next);
    }
    if !CleanOutcome(o) {
      var st := Indexed(c, line);
      IndexedIsSound(c, line);
      assert IndexSound(c, st) && Possible(o, st.hot.Some?);
      assert !IndexSound(c, ReplaceHot(st, [], o));
    }
  }

  /** A file with one line, which the index lists. */
  ghost function Indexed(c: Codec, line: Line): State
    requires c.decode(line).Some?
  {
    State(Some([line]), map[], [], [IndexEntry(c.decode(line).value.ts, 0)])
  }

  lemma {:induction false} IndexedIsSound(c: Codec, line: Line)
    requires c.decode(line).Some?
    ensures IndexSound(c, Indexed(c, line)) && (Clean(line) ==> Sound(c, Indexed(c, line)))
    ensures !IndexOfSome(c, [], Indexed(c, line).index)
  {
    assert Places(c, [line], [0]) && IndexAt(c, [line], [0]) == Indexed(c, line).index;
    forall at: seq<nat> | at != []
      ensures !Places(c, [], at)
    {
      assert at[0] >= 0;
    }
  }

  lemma {:induction false} NothingSurvives(c: Codec, cfg: Config, now: int)
    ensures Survivors(c, [], cfg, now) == []
  {
  }

  lemma {:induction false} OneDoesNotSurvive(c: Codec, line: Line, cfg: Config, now: int)
    requires !Keeps(c, line, PruneCutoff([line], cfg, now))
    ensures Survivors(c, [line], cfg, now) == []
  {
    var cutoff := PruneCutoff([line], cfg, now);
    assert [line][..0] == [];
    assert KeptLines(c, [line], cutoff) == KeptLines(c, [], cutoff) + [];
  }

  /** The courses and outcomes under which a whole prune keeps the index sound, whatever the files held, are exactly the
      safe ones. `gone` is a line that rotates, `stays` one that does not but that the prune drops. */
  lemma {:induction false} PruneKeepsIndexExactly(c: Codec, cfg: Config, rotateAt: int, course: Course, pruneAt: int, o: Outcome, gone: Line, stays: Line)
    requires Clean(gone) && OldDay(c, gone, rotateAt / DAY).Some?
    requires Clean(stays) && c.decode(stays).Some? && OldDay(c, stays, rotateAt / DAY).None?
    requires !Keeps(c, stays, PruneCutoff([stays], cfg, pruneAt))
    ensures SafePrune(cfg, course, o)
            <==> forall st: State :: Sound(c, st) && PossibleCourse(c, st, rotateAt, course) ==> IndexSound(c, PruneOld(c, st, cfg, rotateAt, course, pruneAt, o))
  {
    hide PruneOld, PossibleCourse;
    forall st: State | SafePrune(cfg, course, o) && Sound(c, st) && PossibleCourse(c, st, rotateAt, course)
      ensures IndexSound(c, PruneOld(c, st, cfg, rotateAt, course, pruneAt, o))
    {
      PruneOldKeeps(c, st, cfg, rotateAt, course, pruneAt, o);
    }
    if !SafePrune(cfg, course, o) {
      IndexedIsSound(c, gone);
      IndexedIsSound(c, stays);
      hide IndexSound, Sound;
      if CleanOutcome(o) {
        StaleAfterRotation(c, cfg, rotateAt, course, pruneAt, o, gone);
      } else {
        StaleAfterPrune(c, cfg, rotateAt, course, pruneAt, o, stays);
      }
    }
  }

  lemma {:induction false} StaleAfterPrune(c: Codec, cfg: Config, rotateAt: int, course: Course, pruneAt: int, o: Outcome, stays: Line)
    requires c.decode(stays).Some? && OldDay(c, stays, rotateAt / DAY).None? && !CleanOutcome(o)
    requires !Keeps(c, stays, PruneCutoff([stays], cfg, pruneAt))
    ensures PossibleCourse(c, Indexed(c, stays), rotateAt, course)
    ensures !IndexSound(c, PruneOld(c, Indexed(c, stays), cfg, rotateAt, course, pruneAt, o))
  {
    assert [stays][..0] == [];
    assert OrderedDays(c, [stays], rotateAt / DAY) == [];
    IndexedIsSound(c, stays);
    OneDoesNotSurvive(c, stays, cfg, pruneAt);
    hide Survivors, OrderedDays, IndexOfSome, OldDay;
  }

  lemma {:induction false} StaleAfterRotation(c: Codec, cfg: Config, rotateAt: int, course: Course, pruneAt: int, o: Outcome, line: Line)
    requires c.decode(line).Some? && OldDay(c, line, rotateAt / DAY).Some?
    requires cfg.compressRotated && ComesToHot(course) && CleanOutcome(o) && !CleanOutcome(course.hotOutcome)
    requires course.hotOutcome == InstalledBackupKept ==> o == Untouched
    ensures PossibleCourse(c, Indexed(c, line), rotateAt, course)
    ensures !IndexSound(c, PruneOld(c, Indexed(c, line), cfg, rotateAt, course, pruneAt, o))
  {
    var st, today := Indexed(c, line), rotateAt / DAY;
    var d := OldDay(c, line, today).value;
    OneLineParts(c, line, today);
    MergeDaysKeep(c, st, [line], today, [d], []);
    IndexedIsSound(c, line);
    NothingSurvives(c, cfg, pruneAt);
    hide Survivors, OrderedDays, IndexOfSome, OldDay, MergeDays, Part;
  }

  lemma {:induction false} OneLineParts(c: Codec, line: Line, today: int)
    requires OldDay(c, line, today).Some?
    ensures OrderedDays(c, [line], today) == [OldDay(c, line, today).value] && Part(c, [line], today, None) == []
  {
    hide OldDay;
    assert [line][..0] == [];
  }
}
