/** Moving old lines of the hot file into per-day files, with every point at which the rotation
    can be cut short (internal/history/history.go, lines 625-854). */
module HistoryRotation {
  import opened Wrappers
  import opened HistoryLines
  import opened HistoryIndex
  import opened SafeReplace

  const DAY: int := 86_400_000_000_000

  /** Files of the history directory and the in-memory index. `retained` holds the lines of the
      backup files that failed replacements leave behind. */
  datatype State = State(hot: Option<seq<Line>>, days: map<int, seq<Line>>, retained: seq<Line>, index: seq<IndexEntry>)

  /** The day file that a line moves to when today is day number `today`; None if it stays. */
  ghost function OldDay(c: Codec, line: Line, today: int): Option<int> {
    match c.decode(line)
    case None => None
    case Some(r) => if r.ts != 0 && r.ts < today * DAY then Some(r.ts / DAY) else None
  }

  /** The lines that go to `day` (None: that stay in the hot file), in file order. */
  ghost function Part(c: Codec, lines: seq<Line>, today: int, day: Option<int>): seq<Line> {
    if lines == [] then []
    else
      var last := lines[|lines| - 1];
      Part(c, lines[..|lines| - 1], today, day) + if OldDay(c, last, today) == day then [last] else []
  }

  /** The days that have lines to move, in order of first appearance. */
  ghost function OrderedDays(c: Codec, lines: seq<Line>, today: int): seq<int> {
    if lines == [] then []
    else
      var before := OrderedDays(c, lines[..|lines| - 1], today);
      match OldDay(c, lines[|lines| - 1], today)
      case None => before
      case Some(d) => if d in before then before else before + [d]
  }

  /** The existing lines followed by the new ones that are not there yet. */
  ghost function Merge(existing: seq<Line>, more: seq<Line>): seq<Line> {
    if more == [] then existing
    else
      var m := Merge(existing, more[..|more| - 1]);
      var last := more[|more| - 1];
      if last in m then m else m + [last]
  }

  ghost function HotLines(st: State): seq<Line> {
    if st.hot.Some? then st.hot.value else []
  }

  ghost function DayLines(days: map<int, seq<Line>>, d: int): seq<Line> {
    if d in days then days[d] else []
  }

  ghost function DayFile(days: map<int, seq<Line>>, d: int): Option<seq<Line>> {
    if d in days then Some(days[d]) else None
  }

  /** Merging `more` into one day file, the file replacement ending in outcome `o`. */
  ghost function MergeDay(st: State, d: int, more: seq<Line>, o: Outcome): State {
    var prev := DayFile(st.days, d);
    var file := Content(prev, Merge(DayLines(st.days, d), more), o);
    st.(days := if file.Some? then st.days[d := file.value] else st.days - {d},
        retained := st.retained + Kept(prev, o))
  }

  ghost function MergeDays(c: Codec, st: State, lines: seq<Line>, today: int, ds: seq<int>): State {
    if ds == [] then st
    else
      var d := ds[|ds| - 1];
      MergeDay(MergeDays(c, st, lines, today, ds[..|ds| - 1]), d, Part(c, lines, today, Some(d)), Installed)
  }

  /** How far a rotation gets: the merge of day number `day` ends in `dayOutcome` (Installed: no
      failure there), and the rewrite of the hot file, if reached, in `hotOutcome`; the deletion of
      the day files in `stuck`, if it comes to that, fails. */
  datatype Course = Course(day: nat, dayOutcome: Outcome, hotOutcome: Outcome, stuck: set<int>)

  const UNDISTURBED: Course := Course(0, Installed, Installed, {})

  /** A day file that starts before the purge cutoff; there is none if deletion is switched off. */
  predicate Outdated(d: int, now: int, maxRotatedDays: int) {
    maxRotatedDays > 0 && d * DAY < now - maxRotatedDays * DAY
  }

  ghost function Purged(days: map<int, seq<Line>>, now: int, maxRotatedDays: int, stuck: set<int>): map<int, seq<Line>> {
    if maxRotatedDays > 0 then map d | d in days && (!Outdated(d, now, maxRotatedDays) || d in stuck) :: days[d] else days
  }

  /** Replacing the hot file; the index is dropped only when the replacement reports success. */
  ghost function ReplaceHot(st: State, next: seq<Line>, o: Outcome): State {
    st.(hot := Content(st.hot, next, o), retained := st.retained + Kept(st.hot, o),
        index := if o == Installed then [] else st.index)
  }

  ghost function FinishHot(st: State, hot: seq<Line>, now: int, maxRotatedDays: int, o: Outcome, stuck: set<int>): State {
    var done := ReplaceHot(st, hot, o);
    if o == Installed then done.(days := Purged(st.days, now, maxRotatedDays, stuck)) else done
  }

  ghost predicate Aborts(course: Course, ordered: seq<int>) {
    course.day < |ordered| && course.dayOutcome != Installed
  }

  ghost function Rotate(c: Codec, st: State, now: int, maxRotatedDays: int, course: Course): State {
    if st.hot.None? then st
    else
      var lines, today := st.hot.value, now / DAY;
      var ordered := OrderedDays(c, lines, today);
      if ordered == [] then st
      else if Aborts(course, ordered) then
        MergeDay(MergeDays(c, st, lines, today, ordered[..course.day]), ordered[course.day],
                 Part(c, lines, today, Some(ordered[course.day])), course.dayOutcome)
      else
        FinishHot(MergeDays(c, st, lines, today, ordered), Part(c, lines, today, None), now, maxRotatedDays, course.hotOutcome, course.stuck)
  }

  // ----- partition and merge

  lemma {:induction false} PartHas(c: Codec, lines: seq<Line>, today: int, day: Option<int>, line: Line)
    ensures line in Part(c, lines, today, day) <==> line in lines && OldDay(c, line, today) == day
  {
    if lines != [] {
      PartHas(c, lines[..|lines| - 1], today, day, line);
      assert lines == lines[..|lines| - 1] + [lines[|lines| - 1]];
    }
  }

  lemma {:induction false} OrderedHas(c: Codec, lines: seq<Line>, today: int, d: int)
    ensures d in OrderedDays(c, lines, today) <==> Part(c, lines, today, Some(d)) != []
  {
    if lines != [] {
      OrderedHas(c, lines[..|lines| - 1], today, d);
    }
  }

  lemma {:induction false} OrderedDistinct(c: Codec, lines: seq<Line>, today: int)
    ensures forall i, j :: 0 <= i < j < |OrderedDays(c, lines, today)| ==>
              OrderedDays(c, lines, today)[i] != OrderedDays(c, lines, today)[j]
  {
    if lines != [] {
      OrderedDistinct(c, lines[..|lines| - 1], today);
    }
  }

  lemma {:induction false} MergeHas(existing: seq<Line>, more: seq<Line>, line: Line)
    ensures line in Merge(existing, more) <==> line in existing || line in more
  {
    if more != [] {
      MergeHas(existing, more[..|more| - 1], line);
      assert more == more[..|more| - 1] + [more[|more| - 1]];
    }
  }

  lemma {:induction false} MergeConcat(existing: seq<Line>, a: seq<Line>, b: seq<Line>)
    ensures Merge(existing, a + b) == Merge(Merge(existing, a), b)
  {
    if b == [] {
      assert a + b == a;
    } else {
      assert (a + b)[..|a + b| - 1] == a + b[..|b| - 1];
      MergeConcat(existing, a, b[..|b| - 1]);
    }
  }

  lemma {:induction false} MergeKnown(existing: seq<Line>, more: seq<Line>)
    requires forall i :: 0 <= i < |more| ==> more[i] in existing
    ensures Merge(existing, more) == existing
  {
    if more != [] {
      MergeKnown(existing, more[..|more| - 1]);
    }
  }

  /** A merge that is repeated, with further lines at the end, is as good as one merge. */
  lemma {:induction false} MergeAgain(existing: seq<Line>, a: seq<Line>, b: seq<Line>)
    ensures Merge(Merge(existing, a), a + b) == Merge(existing, a + b)
  {
    var m := Merge(existing, a);
    forall i | 0 <= i < |a|
      ensures a[i] in m
    {
      MergeHas(existing, a, a[i]);
    }
    MergeKnown(m, a);
    MergeConcat(m, a, b);
    MergeConcat(existing, a, b);
  }

  /** What rotates out at an earlier time, from a shorter file, is a prefix of what rotates out later. */
  lemma {:induction false} PartGrows(c: Codec, lines: seq<Line>, more: seq<Line>, today: int, later: int, d: int)
    requires today <= later
    ensures exists rest :: Part(c, lines + more, later, Some(d)) == Part(c, lines, today, Some(d)) + rest
  {
    if more != [] {
      var all := lines + more;
      assert all[..|all| - 1] == lines + more[..|more| - 1];
      PartGrows(c, lines, more[..|more| - 1], today, later, d);
      var rest :| Part(c, all[..|all| - 1], later, Some(d)) == Part(c, lines, today, Some(d)) + rest;
      var tail := if OldDay(c, all[|all| - 1], later) == Some(d) then [all[|all| - 1]] else [];
      assert Part(c, all, later, Some(d)) == Part(c, lines, today, Some(d)) + (rest + tail);
    } else {
      assert lines + more == lines;
      if d < today {
        PartSame(c, lines, today, later, d);
        assert Part(c, lines, later, Some(d)) == Part(c, lines, today, Some(d)) + [];
      } else {
        PartEmpty(c, lines, today, d);
        assert Part(c, lines, later, Some(d)) == [] + Part(c, lines, later, Some(d));
      }
    }
  }

  lemma {:induction false} DayBefore(ts: int, today: int)
    ensures ts < today * DAY <==> ts / DAY < today
  {
  }

  lemma {:induction false} PartSame(c: Codec, lines: seq<Line>, today: int, later: int, d: int)
    requires d < today <= later
    ensures Part(c, lines, later, Some(d)) == Part(c, lines, today, Some(d))
  {
    if lines != [] {
      PartSame(c, lines[..|lines| - 1], today, later, d);
      var r := c.decode(lines[|lines| - 1]);
      if r.Some? {
        DayBefore(r.value.ts, today);
        DayBefore(r.value.ts, later);
      }
    }
  }

  lemma {:induction false} PartEmpty(c: Codec, lines: seq<Line>, today: int, d: int)
    requires d >= today
    ensures Part(c, lines, today, Some(d)) == []
  {
    if lines != [] {
      PartEmpty(c, lines[..|lines| - 1], today, d);
      var r := c.decode(lines[|lines| - 1]);
      if r.Some? {
        DayBefore(r.value.ts, today);
      }
    }
  }
}
