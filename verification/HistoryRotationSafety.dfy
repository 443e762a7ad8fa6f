/** Rotation loses nothing, whichever step it stops at, and keeps the day files sorted
    (internal/history/history.go, lines 625-854). */
module HistoryRotationSafety {
  import opened Wrappers
  import opened HistoryLines
  import opened HistoryIndex
  import opened SafeReplace
  import opened HistoryRotation

  /** A line is somewhere on disk: in the hot file, in a day file, or in a retained backup. */
  ghost predicate Stored(st: State, line: Line) {
    || (st.hot.Some? && line in st.hot.value)
    || (exists d :: d in st.days && line in st.days[d])
    || line in st.retained
  }

  ghost predicate InHotOrDays(st: State, line: Line) {
    || (st.hot.Some? && line in st.hot.value)
    || (exists d :: d in st.days && line in st.days[d])
  }

  /** Every line of a day file is parseable and belongs to that day. */
  ghost predicate DaysSorted(c: Codec, days: map<int, seq<Line>>) {
    forall d, line :: d in days && line in days[d] ==>
      c.decode(line).Some? && c.decode(line).value.ts != 0 && c.decode(line).value.ts / DAY == d
  }

  // ----- conservation

  /** One merge, whatever becomes of it, loses no line; what it was to add is still in `more`. */
  lemma {:induction false} MergeDayKeeps(st: State, d: int, more: seq<Line>, o: Outcome, line: Line)
    requires Possible(o, d in st.days)
    ensures Stored(st, line) ==> Stored(MergeDay(st, d, more, o), line)
    ensures Stored(MergeDay(st, d, more, o), line) ==> Stored(st, line) || line in more
    ensures o != Displaced ==> InHotOrDays(st, line) ==> InHotOrDays(MergeDay(st, d, more, o), line)
    ensures o == Installed ==> MergeDay(st, d, more, o).retained == st.retained
    ensures MergeDay(st, d, more, o).hot == st.hot && MergeDay(st, d, more, o).index == st.index
  {
    var st' := MergeDay(st, d, more, o);
    MergeHas(DayLines(st.days, d), more, line);
    if e :| e in st.days && line in st.days[e] {
      assert e != d ==> e in st'.days && st'.days[e] == st.days[e];
      assert e == d && o != Displaced ==> d in st'.days && line in st'.days[d];
    }
  }

  lemma {:induction false} MergeDaysKeep(c: Codec, st: State, lines: seq<Line>, today: int, ds: seq<int>, line: Line)
    ensures var st' := MergeDays(c, st, lines, today, ds);
            && (Stored(st, line) ==> Stored(st', line))
            && (Stored(st', line) ==> Stored(st, line) || line in lines)
            && (InHotOrDays(st, line) ==> InHotOrDays(st', line))
            && st'.hot == st.hot && st'.index == st.index && st'.retained == st.retained
  {
    if ds != [] {
      var d, before := ds[|ds| - 1], MergeDays(c, st, lines, today, ds[..|ds| - 1]);
      MergeDaysKeep(c, st, lines, today, ds[..|ds| - 1], line);
      MergeDayKeeps(before, d, Part(c, lines, today, Some(d)), Installed, line);
      PartHas(c, lines, today, Some(d), line);
    }
  }

  lemma {:induction false} MergeDayAt(st: State, x: int, more: seq<Line>, o: Outcome, d: int)
    requires o != Displaced
    ensures var days := MergeDay(st, x, more, o).days;
            && (d in days <==> d in st.days || (d == x && o != Untouched))
            && DayLines(days, d) == if d == x && o != Untouched then Merge(DayLines(st.days, x), more) else DayLines(st.days, d)
  {
  }

  /** After the merges of `ds` every line that rotates to one of these days is in its day file. */
  lemma {:induction false} MergeDaysAt(c: Codec, st: State, lines: seq<Line>, today: int, ds: seq<int>, d: int)
    requires forall i, j :: 0 <= i < j < |ds| ==> ds[i] != ds[j]
    ensures var days := MergeDays(c, st, lines, today, ds).days;
            && (d in days <==> d in st.days || d in ds)
            && DayLines(days, d) == if d in ds then Merge(DayLines(st.days, d), Part(c, lines, today, Some(d))) else DayLines(st.days, d)
  {
    if ds != [] {
      var init, last := ds[..|ds| - 1], ds[|ds| - 1];
      hide MergeDay, Merge, Part, DayLines;
      assert ds == init + [last] && last !in init;
      MergeDaysAt(c, st, lines, today, init, d);
      MergeDayAt(MergeDays(c, st, lines, today, init), last, Part(c, lines, today, Some(last)), Installed, d);
    }
  }

  /** The course of a rotation can only fail as replacements can: a file that does not exist
      cannot be displaced. */
  ghost predicate PossibleCourse(c: Codec, st: State, now: int, course: Course) {
    st.hot.Some? ==>
      var ordered := OrderedDays(c, st.hot.value, now / DAY);
      course.day < |ordered| ==> Possible(course.dayOutcome, ordered[course.day] in st.days)
  }

  /** Without the deletion of outdated day files, no course of a rotation loses or invents a line. */
  lemma {:induction false} RotationConserves(c: Codec, st: State, now: int, course: Course, line: Line)
    requires PossibleCourse(c, st, now, course)
    ensures Stored(Rotate(c, st, now, 0, course), line) <==> Stored(st, line)
  {
    if st.hot.Some? {
      var lines, today := st.hot.value, now / DAY;
      var ordered := OrderedDays(c, lines, today);
      if ordered != [] {
        if Aborts(course, ordered) {
          AbortKeeps(c, st, now, course, line);
        } else {
          MergeDaysKeep(c, st, lines, today, ordered, line);
          FinishKeeps(c, st, now, course.hotOutcome, course.stuck, line);
        }
      }
    }
  }

  lemma {:induction false} AbortKeeps(c: Codec, st: State, now: int, course: Course, line: Line)
    requires PossibleCourse(c, st, now, course) && st.hot.Some?
    requires Aborts(course, OrderedDays(c, st.hot.value, now / DAY))
    ensures Stored(Rotate(c, st, now, 0, course), line) <==> Stored(st, line)
    ensures course.dayOutcome != Displaced ==> InHotOrDays(st, line) ==> InHotOrDays(Rotate(c, st, now, 0, course), line)
    ensures Rotate(c, st, now, 0, course).hot == st.hot
  {
    var lines, today := st.hot.value, now / DAY;
    var ordered := OrderedDays(c, lines, today);
    var d, done := ordered[course.day], ordered[..course.day];
    MergeDaysKeep(c, st, lines, today, done, line);
    OrderedDistinct(c, lines, today);
    MergeDaysAt(c, st, lines, today, done, d);
    MergeDayKeeps(MergeDays(c, st, lines, today, done), d, Part(c, lines, today, Some(d)), course.dayOutcome, line);
    PartHas(c, lines, today, Some(d), line);
  }

  /** Once all days are merged, the hot file may be cut down to the lines that stay. */
  lemma {:induction false} FinishKeeps(c: Codec, st: State, now: int, o: Outcome, stuck: set<int>, line: Line)
    requires st.hot.Some?
    ensures var lines, today := st.hot.value, now / DAY;
            var merged := MergeDays(c, st, lines, today, OrderedDays(c, lines, today));
            Stored(merged, line) <==> Stored(FinishHot(merged, Part(c, lines, today, None), now, 0, o, stuck), line)
  {
    var lines, today := st.hot.value, now / DAY;
    var ordered := OrderedDays(c, lines, today);
    var merged := MergeDays(c, st, lines, today, ordered);
    MergeDaysKeep(c, st, lines, today, ordered, line);
    PartHas(c, lines, today, None, line);
    if line in lines && OldDay(c, line, today).Some? {
      var d := OldDay(c, line, today).value;
      PartHas(c, lines, today, Some(d), line);
      OrderedHas(c, lines, today, d);
      OrderedDistinct(c, lines, today);
      MergeDaysAt(c, st, lines, today, ordered, d);
      MergeHas(DayLines(st.days, d), Part(c, lines, today, Some(d)), line);
      assert line in merged.days[d];
    }
  }

  // ----- what a rotation establishes

  lemma {:induction false} MergeDaysSorted(c: Codec, st: State, lines: seq<Line>, today: int, ds: seq<int>)
    requires DaysSorted(c, st.days)
    ensures DaysSorted(c, MergeDays(c, st, lines, today, ds).days)
  {
    if ds != [] {
      var d, before := ds[|ds| - 1], MergeDays(c, st, lines, today, ds[..|ds| - 1]);
      MergeDaysSorted(c, st, lines, today, ds[..|ds| - 1]);
      MergeDaySorted(c, before, lines, today, d, Installed);
    }
  }

  lemma {:induction false} MergeDaySorted(c: Codec, st: State, lines: seq<Line>, today: int, d: int, o: Outcome)
    requires DaysSorted(c, st.days)
    ensures DaysSorted(c, MergeDay(st, d, Part(c, lines, today, Some(d)), o).days)
  {
    var more := Part(c, lines, today, Some(d));
    var days := MergeDay(st, d, more, o).days;
    forall e, line | e in days && line in days[e]
      ensures c.decode(line).Some? && c.decode(line).value.ts != 0 && c.decode(line).value.ts / DAY == e
    {
      if e == d {
        MergeHas(DayLines(st.days, d), more, line);
        PartHas(c, lines, today, Some(d), line);
      }
    }
  }

  /** Every course of a rotation keeps the day files sorted by day. */
  lemma {:induction false} RotationKeepsDaysSorted(c: Codec, st: State, now: int, maxRotatedDays: int, course: Course)
    requires DaysSorted(c, st.days)
    ensures DaysSorted(c, Rotate(c, st, now, maxRotatedDays, course).days)
  {
    if st.hot.Some? {
      var lines, today := st.hot.value, now / DAY;
      var ordered := OrderedDays(c, lines, today);
      MergeDaysSorted(c, st, lines, today, ordered);
      if course.day < |ordered| {
        MergeDaysSorted(c, st, lines, today, ordered[..course.day]);
        MergeDaySorted(c, MergeDays(c, st, lines, today, ordered[..course.day]), lines, today, ordered[course.day], course.dayOutcome);
      }
    }
  }

  lemma {:induction false} NothingToMove(c: Codec, lines: seq<Line>, today: int, line: Line)
    requires OrderedDays(c, lines, today) == [] && line in lines
    ensures OldDay(c, line, today) == None
  {
    if OldDay(c, line, today).Some? {
      PartHas(c, lines, today, OldDay(c, line, today), line);
      OrderedHas(c, lines, today, OldDay(c, line, today).value);
    }
  }

  /** After an undisturbed rotation the hot file holds exactly its former lines that are undecodable,
      stamped with the zero time, or not from before today. */
  lemma {:induction false} HotHoldsOnlyToday(c: Codec, st: State, now: int, maxRotatedDays: int, line: Line)
    requires st.hot.Some?
    ensures Rotate(c, st, now, maxRotatedDays, UNDISTURBED).hot.Some?
    ensures line in Rotate(c, st, now, maxRotatedDays, UNDISTURBED).hot.value
            <==> line in st.hot.value && (var r := c.decode(line); r.None? || r.value.ts == 0 || r.value.ts / DAY >= now / DAY)
  {
    var lines, today := st.hot.value, now / DAY;
    MergeDaysKeep(c, st, lines, today, OrderedDays(c, lines, today), line);
    PartHas(c, lines, today, None, line);
    if c.decode(line).Some? {
      DayBefore(c.decode(line).value.ts, today);
    }
    if OrderedDays(c, lines, today) == [] && line in lines {
      NothingToMove(c, lines, today, line);
    }
  }
}
