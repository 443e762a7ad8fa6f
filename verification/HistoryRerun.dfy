/** Where every line is after a rotation, cut short or not, the deletion of outdated day files, and what follows a
    rotation that displaced the hot file (internal/history/history.go, lines 621-761). */
module HistoryRerun {
  import opened Wrappers
  import opened HistoryLines
  import opened HistoryIndex
  import opened SafeReplace
  import opened HistoryRotation
  import opened HistoryRotationSafety

  // ----- the files after a rotation

  /** The day files after a rotation without deletion: what was merged. */
  lemma {:induction false} RotatedDays(c: Codec, st: State, now: int, course: Course)
    requires st.hot.Some?
    ensures var lines, today := st.hot.value, now / DAY;
            var ordered := OrderedDays(c, lines, today);
            Rotate(c, st, now, 0, course).days
            == if Aborts(course, ordered) then
                 MergeDay(MergeDays(c, st, lines, today, ordered[..course.day]), ordered[course.day],
                          Part(c, lines, today, Some(ordered[course.day])), course.dayOutcome).days
               else MergeDays(c, st, lines, today, ordered).days
  {
  }

  /** The day files a rotation leaves behind that merges all days, before any deletion. */
  lemma {:induction false} MergedDays(c: Codec, st: State, now: int, course: Course, d: int)
    requires st.hot.Some? && !Aborts(course, OrderedDays(c, st.hot.value, now / DAY))
    ensures var lines, today := st.hot.value, now / DAY;
            var days := Rotate(c, st, now, 0, course).days;
            && DayLines(days, d) == Merge(DayLines(st.days, d), Part(c, lines, today, Some(d)))
            && (d in days <==> d in st.days || Part(c, lines, today, Some(d)) != [])
  {
    var lines, today := st.hot.value, now / DAY;
    RotatedDays(c, st, now, course);
    OrderedDistinct(c, lines, today);
    OrderedHas(c, lines, today, d);
    MergeDaysAt(c, st, lines, today, OrderedDays(c, lines, today), d);
    hide Rotate, MergeDays, Part, DayLines, OrderedDays;
  }

  /** The day files an interrupted rotation leaves behind: some days merged, the others as they were. */
  lemma {:induction false} InterruptedDays(c: Codec, st: State, now: int, course: Course, d: int)
    requires st.hot.Some? && course.dayOutcome != Displaced
    requires PossibleCourse(c, st, now, course)
    ensures var lines, today := st.hot.value, now / DAY;
            var days := Rotate(c, st, now, 0, course).days;
            && (DayLines(days, d) == DayLines(st.days, d) || DayLines(days, d) == Merge(DayLines(st.days, d), Part(c, lines, today, Some(d))))
            && (d in st.days ==> d in days)
            && (d in days ==> d in st.days || Part(c, lines, today, Some(d)) != [])
  {
    var lines, today := st.hot.value, now / DAY;
    var ordered := OrderedDays(c, lines, today);
    RotatedDays(c, st, now, course);
    OrderedDistinct(c, lines, today);
    OrderedHas(c, lines, today, d);
    hide Rotate, MergeDays, Part, OrderedDays, Merge;
    if Aborts(course, ordered) {
      var done, x := ordered[..course.day], ordered[course.day];
      MergeDaysAt(c, st, lines, today, done, d);
      MergeDayAt(MergeDays(c, st, lines, today, done), x, Part(c, lines, today, Some(x)), course.dayOutcome, d);
      assert x !in done && (d in done ==> d in ordered);
      hide MergeDay, DayLines, PossibleCourse;
    } else {
      MergeDaysAt(c, st, lines, today, ordered, d);
    }
  }

  lemma {:induction false} SameFiles(a: map<int, seq<Line>>, b: map<int, seq<Line>>)
    requires forall d :: DayFile(a, d) == DayFile(b, d)
    ensures a == b
  {
    forall d
      ensures d in a <==> d in b
      ensures d in a ==> a[d] == b[d]
    {
      assert DayFile(a, d) == DayFile(b, d);
    }
  }

  /** The rotation rewrites the hot file with success. */
  ghost predicate Finishes(c: Codec, st: State, now: int, course: Course) {
    && st.hot.Some? && OrderedDays(c, st.hot.value, now / DAY) != []
    && !Aborts(course, OrderedDays(c, st.hot.value, now / DAY)) && course.hotOutcome == Installed
  }

  /** The deletion of outdated day files is the last step of a rotation that had something to move and met no failure. */
  lemma {:induction false} PurgeLast(c: Codec, st: State, now: int, maxRotatedDays: int, course: Course)
    ensures var full, plain := Rotate(c, st, now, maxRotatedDays, course), Rotate(c, st, now, 0, course);
            && full.hot == plain.hot && full.retained == plain.retained
            && full.days == if Finishes(c, st, now, course) then Purged(plain.days, now, maxRotatedDays, course.stuck) else plain.days
  {
  }

  // ----- which lines are where

  /** `line` is one of `lines` and rotates to day `d`. */
  ghost predicate Moved(c: Codec, lines: seq<Line>, today: int, d: int, line: Line) {
    line in lines && OldDay(c, line, today) == Some(d)
  }

  /** The rotation of `lines` has something to move. */
  ghost predicate Moves(c: Codec, lines: seq<Line>, today: int) {
    OrderedDays(c, lines, today) != []
  }

  lemma {:induction false} MovedIsOrdered(c: Codec, lines: seq<Line>, today: int, d: int, line: Line)
    requires Moved(c, lines, today, d, line)
    ensures d in OrderedDays(c, lines, today) && Moves(c, lines, today)
  {
    PartHas(c, lines, today, Some(d), line);
    OrderedHas(c, lines, today, d);
  }

  lemma {:induction false} OrderedIsMoved(c: Codec, lines: seq<Line>, today: int, d: int) returns (line: Line)
    requires d in OrderedDays(c, lines, today)
    ensures Moved(c, lines, today, d, line) && d < today
  {
    OrderedHas(c, lines, today, d);
    line := Part(c, lines, today, Some(d))[0];
    PartHas(c, lines, today, Some(d), line);
    OldDayIsPast(c, line, today);
  }

  lemma {:induction false} OldDayIsPast(c: Codec, line: Line, today: int)
    ensures OldDay(c, line, today).Some? ==> OldDay(c, line, today).value < today
  {
    if c.decode(line).Some? {
      DayBefore(c.decode(line).value.ts, today);
    }
  }

  /** A line that is old today is old later, and of the same day; one that gets old later is not from before today. */
  lemma {:induction false} OldDayLater(c: Codec, line: Line, today: int, later: int)
    requires today <= later
    ensures OldDay(c, line, today).Some? ==> OldDay(c, line, later) == OldDay(c, line, today)
    ensures OldDay(c, line, today).None? && OldDay(c, line, later).Some? ==> OldDay(c, line, later).value >= today
  {
    if c.decode(line).Some? {
      DayBefore(c.decode(line).value.ts, today);
      DayBefore(c.decode(line).value.ts, later);
    }
  }

  /** What has something to move has so later, with more lines behind it. */
  lemma {:induction false} MovesLater(c: Codec, lines: seq<Line>, more: seq<Line>, today: int, later: int)
    requires today <= later && Moves(c, lines, today)
    ensures Moves(c, lines + more, later)
  {
    var d := OrderedDays(c, lines, today)[0];
    var line := OrderedIsMoved(c, lines, today, d);
    OldDayLater(c, line, today, later);
    MovedIsOrdered(c, lines + more, later, d, line);
  }

  /** Where a line is after a rotation that met no failure before the deletion. */
  lemma {:induction false} RotatedHas(c: Codec, st: State, now: int, maxRotatedDays: int, course: Course, d: int, line: Line)
    requires st.hot.Some? ==> !Aborts(course, OrderedDays(c, st.hot.value, now / DAY))
    requires course.hotOutcome == Installed
    ensures var r := Rotate(c, st, now, maxRotatedDays, course);
            && (line in HotLines(r) <==> line in HotLines(st) && OldDay(c, line, now / DAY) == None)
            && (line in DayLines(r.days, d) <==>
                  && (line in DayLines(st.days, d) || Moved(c, HotLines(st), now / DAY, d, line))
                  && !(Moves(c, HotLines(st), now / DAY) && Outdated(d, now, maxRotatedDays) && d !in course.stuck))
  {
    if st.hot.Some? {
      var lines, today := st.hot.value, now / DAY;
      HotHas(c, st, now, maxRotatedDays, course, line);
      MergedDays(c, st, now, course, d);
      MergeHas(DayLines(st.days, d), Part(c, lines, today, Some(d)), line);
      PartHas(c, lines, today, Some(d), line);
      PurgeLast(c, st, now, maxRotatedDays, course);
      if Moved(c, lines, today, d, line) {
        MovedIsOrdered(c, lines, today, d, line);
      }
      hide Rotate, Merge, Part, OrderedDays, OldDay;
    } else {
      NothingMoves(c, now / DAY);
    }
  }

  lemma {:induction false} HotHas(c: Codec, st: State, now: int, maxRotatedDays: int, course: Course, line: Line)
    requires st.hot.Some? && !Aborts(course, OrderedDays(c, st.hot.value, now / DAY)) && course.hotOutcome == Installed
    ensures line in HotLines(Rotate(c, st, now, maxRotatedDays, course)) <==> line in st.hot.value && OldDay(c, line, now / DAY) == None
  {
    var lines, today := st.hot.value, now / DAY;
    MergeDaysKeep(c, st, lines, today, OrderedDays(c, lines, today), line);
    PartHas(c, lines, today, None, line);
    if OrderedDays(c, lines, today) == [] && line in lines {
      NothingToMove(c, lines, today, line);
    }
    hide MergeDays, Part, OrderedDays, OldDay;
  }

  lemma {:induction false} MergeDayHas(st: State, x: int, more: seq<Line>, o: Outcome, d: int, line: Line)
    requires Possible(o, x in st.days)
    ensures line in DayLines(MergeDay(st, x, more, o).days, d)
            <==> if d != x then line in DayLines(st.days, d)
                 else o != Displaced && (line in DayLines(st.days, x) || (o != Untouched && line in more))
  {
    MergeHas(DayLines(st.days, x), more, line);
    hide Merge;
  }

  /** Where a line is after a rotation that was aborted at a day file. */
  lemma {:induction false} AbortedHas(c: Codec, st: State, now: int, maxRotatedDays: int, course: Course, d: int, line: Line)
    requires st.hot.Some? && PossibleCourse(c, st, now, course) && Aborts(course, OrderedDays(c, st.hot.value, now / DAY))
    ensures var ordered := OrderedDays(c, st.hot.value, now / DAY);
            var r := Rotate(c, st, now, maxRotatedDays, course);
            && r.hot == st.hot
            && (line in DayLines(r.days, d) <==>
                  if d != ordered[course.day] then
                    line in DayLines(st.days, d) || (d in ordered[..course.day] && Moved(c, st.hot.value, now / DAY, d, line))
                  else
                    course.dayOutcome != Displaced
                    && (line in DayLines(st.days, d) || (course.dayOutcome != Untouched && Moved(c, st.hot.value, now / DAY, d, line))))
  {
    var lines, today := st.hot.value, now / DAY;
    var ordered := OrderedDays(c, lines, today);
    var x, done := ordered[course.day], ordered[..course.day];
    var merged := MergeDays(c, st, lines, today, done);
    OrderedDistinct(c, lines, today);
    assert x !in done;
    MergeDaysAt(c, st, lines, today, done, d);
    MergeDaysAt(c, st, lines, today, done, x);
    MergeDaysKeep(c, st, lines, today, done, line);
    hide MergeDays, OrderedDays, Part, Merge, OldDay, DayLines;
    MergeDayHas(merged, x, Part(c, lines, today, Some(x)), course.dayOutcome, d, line);
    MergeHas(DayLines(st.days, d), Part(c, lines, today, Some(d)), line);
    PartHas(c, lines, today, Some(d), line);
    PartHas(c, lines, today, Some(x), line);
  }

  /** Where a line is after a rotation that has merged all days, but whose hot rewrite did not report success. */
  lemma {:induction false} MergedHas(c: Codec, st: State, now: int, maxRotatedDays: int, course: Course, d: int, line: Line)
    requires st.hot.Some? && course.hotOutcome != Installed
    requires Moves(c, st.hot.value, now / DAY) && !Aborts(course, OrderedDays(c, st.hot.value, now / DAY))
    ensures var r := Rotate(c, st, now, maxRotatedDays, course);
            && (line in DayLines(r.days, d) <==> line in DayLines(st.days, d) || Moved(c, st.hot.value, now / DAY, d, line))
            && r.hot == Content(st.hot, Part(c, st.hot.value, now / DAY, None), course.hotOutcome)
  {
    var lines, today := st.hot.value, now / DAY;
    var ordered := OrderedDays(c, lines, today);
    OrderedDistinct(c, lines, today);
    OrderedHas(c, lines, today, d);
    MergeDaysAt(c, st, lines, today, ordered, d);
    MergeDaysKeep(c, st, lines, today, ordered, line);
    MergeHas(DayLines(st.days, d), Part(c, lines, today, Some(d)), line);
    PartHas(c, lines, today, Some(d), line);
    hide MergeDays, Merge, DayLines, Part, OldDay;
  }

  // ----- deletion

  /** With deletion switched on, a rotation that runs to its end drops exactly the lines that are, or go, only into
      day files that start more than `maxRotatedDays` days ago and can be deleted. */
  lemma {:induction false} PurgeLosesOnlyOldDays(c: Codec, st: State, now: int, maxRotatedDays: int, course: Course, line: Line)
    requires Finishes(c, st, now, course)
    ensures Stored(Rotate(c, st, now, maxRotatedDays, course), line)
            <==> || line in st.retained
                 || (line in st.hot.value && (match OldDay(c, line, now / DAY)
                                              case None => true
                                              case Some(d) => !(maxRotatedDays > 0 && d * DAY < now - maxRotatedDays * DAY) || d in course.stuck))
                 || exists d :: && line in DayLines(st.days, d)
                                && (!(maxRotatedDays > 0 && d * DAY < now - maxRotatedDays * DAY) || d in course.stuck)
  {
    var r := Rotate(c, st, now, maxRotatedDays, course);
    MergeDaysKeep(c, st, st.hot.value, now / DAY, OrderedDays(c, st.hot.value, now / DAY), line);
    assert r.retained == st.retained;
    assert forall d :: Outdated(d, now, maxRotatedDays) == (maxRotatedDays > 0 && d * DAY < now - maxRotatedDays * DAY);
    hide Rotate, OldDay, Outdated, MergeDays;
    forall d
      ensures line in DayLines(r.days, d)
              <==> (line in DayLines(st.days, d) || Moved(c, st.hot.value, now / DAY, d, line)) && (!Outdated(d, now, maxRotatedDays) || d in course.stuck)
    {
      RotatedHas(c, st, now, maxRotatedDays, course, d, line);
    }
    RotatedHas(c, st, now, maxRotatedDays, course, 0, line);
    StoredHas(r, line);
    if line in st.hot.value && OldDay(c, line, now / DAY).Some? {
      assert Moved(c, st.hot.value, now / DAY, OldDay(c, line, now / DAY).value, line);
    }
  }

  lemma {:induction false} StoredHas(st: State, line: Line)
    ensures Stored(st, line) <==> line in HotLines(st) || line in st.retained || exists d :: line in DayLines(st.days, d)
  {
    if d :| line in DayLines(st.days, d) {
      assert d in st.days;
    }
    forall d | d in st.days && line in st.days[d]
      ensures line in DayLines(st.days, d)
    {
    }
  }

  // ----- after a displaced hot file

  /** The hot file after further appends; nothing creates it as long as nothing is appended. */
  ghost function Grown(st: State, more: seq<Line>): State {
    if more == [] then st else st.(hot := Some(HotLines(st) + more))
  }

  /** Further appends, and then a rotation without failures. */
  ghost function Next(c: Codec, st: State, more: seq<Line>, later: int, maxRotatedDays: int): State {
    Rotate(c, Grown(st, more), later, maxRotatedDays, UNDISTURBED)
  }

  lemma {:induction false} NextHas(c: Codec, st: State, more: seq<Line>, later: int, maxRotatedDays: int, d: int, line: Line)
    ensures var r, all := Next(c, st, more, later, maxRotatedDays), HotLines(st) + more;
            && (line in HotLines(r) <==> line in all && OldDay(c, line, later / DAY) == None)
            && (line in DayLines(r.days, d) <==>
                  && (line in DayLines(st.days, d) || Moved(c, all, later / DAY, d, line))
                  && !(Moves(c, all, later / DAY) && Outdated(d, later, maxRotatedDays)))
  {
    assert HotLines(st) + [] == HotLines(st);
    assert HotLines(Grown(st, more)) == HotLines(st) + more;
    hide Rotate, OldDay, Outdated, Moves, DayLines;
    RotatedHas(c, Grown(st, more), later, maxRotatedDays, UNDISTURBED, d, line);
  }

  /** The states agree on whether `line` is in the hot file and in the file of day `d`. */
  ghost predicate SameAt(a: State, b: State, d: int, line: Line) {
    && (line in HotLines(a) <==> line in HotLines(b))
    && (line in DayLines(a.days, d) <==> line in DayLines(b.days, d))
  }

  /** The same lines in the hot file and in every day file. */
  ghost predicate SameLines(a: State, b: State) {
    forall d, line :: SameAt(a, b, d, line)
  }

  /** A day file that starts before the purge cutoff has a line. */
  ghost predicate SomethingOutdated(st: State, now: int, maxRotatedDays: int) {
    exists d, line :: Outdated(d, now, maxRotatedDays) && line in DayLines(st.days, d)
  }

  /** A line that stayed in the hot file is where it should be after the hot file was displaced: it is appended again,
      or it is in its day file already, or that file is due for deletion. */
  ghost predicate Recovered(c: Codec, st: State, more: seq<Line>, later: int, maxRotatedDays: int, line: Line) {
    line in more || (match OldDay(c, line, later / DAY)
                     case None => false
                     case Some(d) => Outdated(d, later, maxRotatedDays) || line in DayLines(st.days, d))
  }

  /** What the files hold after the next rotation where the hot file was displaced. */
  lemma {:induction false} DisplacedHotSame(c: Codec, st: State, now: int, course: Course, more: seq<Line>, later: int, maxRotatedDays: int, d: int, line: Line)
    requires st.hot.Some? && now / DAY <= later / DAY && course.hotOutcome == Displaced
    requires Moves(c, st.hot.value, now / DAY) && !Aborts(course, OrderedDays(c, st.hot.value, now / DAY))
    ensures var stopped := Rotate(c, st, now, maxRotatedDays, course);
            var goes := OldDay(c, line, later / DAY);
            var stays := line in st.hot.value && OldDay(c, line, now / DAY) == None;
            SameAt(Next(c, stopped, more, later, maxRotatedDays), Next(c, st, more, later, maxRotatedDays), d, line)
            <==> && (stays && goes == None ==> line in more)
                 && if Outdated(d, later, maxRotatedDays) then Moves(c, more, later / DAY) || line !in DayLines(stopped.days, d)
                    else stays && goes == Some(d) ==> line in more || line in DayLines(st.days, d)
  {
    var lines, today, tomorrow := st.hot.value, now / DAY, later / DAY;
    var stopped := Rotate(c, st, now, maxRotatedDays, course);
    MergedHas(c, st, now, maxRotatedDays, course, d, line);
    assert HotLines(stopped) == [] && [] + more == more;
    hide Rotate, Next, OldDay, OrderedDays, DayLines, Outdated, Moves, Part;
    MovesLater(c, lines, more, today, tomorrow);
    OldDayLater(c, line, today, tomorrow);
    NextHas(c, stopped, more, later, maxRotatedDays, d, line);
    NextHas(c, st, more, later, maxRotatedDays, d, line);
    if Moved(c, more, tomorrow, d, line) {
      MovedIsOrdered(c, more, tomorrow, d, line);
    }
  }

  lemma {:induction false} DisplacedHotIsGone(c: Codec, st: State, now: int, course: Course, more: seq<Line>, later: int, maxRotatedDays: int)
    requires st.hot.Some? && course.hotOutcome == Displaced
    requires Moves(c, st.hot.value, now / DAY) && !Aborts(course, OrderedDays(c, st.hot.value, now / DAY))
    ensures var stopped := Rotate(c, st, now, maxRotatedDays, course);
            stopped.hot == None && Next(c, stopped, [], later, maxRotatedDays) == stopped
  {
    MergedHas(c, st, now, maxRotatedDays, course, 0, []);
  }

  /** A rotation that displaced the hot file into a backup loses today's lines for the store: the next rotation
      completes it if and only if every line that was to stay is recovered otherwise, and the next one has something
      to move or there is nothing to delete. Without further appends there is no hot file for it at all. */
  lemma {:induction false} RerunAfterDisplacedHot(c: Codec, st: State, now: int, course: Course, more: seq<Line>, later: int, maxRotatedDays: int)
    requires st.hot.Some? && now / DAY <= later / DAY && course.hotOutcome == Displaced
    requires Moves(c, st.hot.value, now / DAY) && !Aborts(course, OrderedDays(c, st.hot.value, now / DAY))
    ensures var stopped := Rotate(c, st, now, maxRotatedDays, course);
            && stopped.hot == None && Next(c, stopped, [], later, maxRotatedDays) == stopped
            && (SameLines(Next(c, stopped, more, later, maxRotatedDays), Next(c, st, more, later, maxRotatedDays))
                <==> && (forall line :: line in st.hot.value && OldDay(c, line, now / DAY) == None ==> Recovered(c, st, more, later, maxRotatedDays, line))
                     && (Moves(c, more, later / DAY) || !SomethingOutdated(stopped, later, maxRotatedDays)))
  {
    var stopped := Rotate(c, st, now, maxRotatedDays, course);
    var again, once := Next(c, stopped, more, later, maxRotatedDays), Next(c, st, more, later, maxRotatedDays);
    DisplacedHotIsGone(c, st, now, course, more, later, maxRotatedDays);
    hide Rotate, Next, OldDay, Outdated, DayLines, HotLines, OrderedDays, Aborts, Moves, SameAt;
    if d, line :| !SameAt(again, once, d, line) {
      DisplacedHotSame(c, st, now, course, more, later, maxRotatedDays, d, line);
      assert Outdated(d, later, maxRotatedDays) && line in DayLines(stopped.days, d) ==> SomethingOutdated(stopped, later, maxRotatedDays);
    } else {
      assert SameLines(again, once);
      forall line | line in st.hot.value && OldDay(c, line, now / DAY) == None
        ensures Recovered(c, st, more, later, maxRotatedDays, line)
      {
        var goes := OldDay(c, line, later / DAY);
        DisplacedHotSame(c, st, now, course, more, later, maxRotatedDays, if goes.Some? then goes.value else 0, line);
      }
      if SomethingOutdated(stopped, later, maxRotatedDays) {
        var d, line :| Outdated(d, later, maxRotatedDays) && line in DayLines(stopped.days, d);
        DisplacedHotSame(c, st, now, course, more, later, maxRotatedDays, d, line);
      }
    }
  }

  /** It happens: a displaced hot file takes today's line with it; the next rotation finds no file. */
  lemma {:induction false} DisplacedHotLosesToday(c: Codec, oldLine: Line, line: Line, d: int, now: int)
    requires OldDay(c, oldLine, now / DAY) == Some(d) && OldDay(c, line, now / DAY) == None
    ensures var st := State(Some([oldLine, line]), map[], [], []);
            var stopped := Rotate(c, st, now, 0, Course(0, Installed, Displaced, {}));
            && stopped.hot == None && line in stopped.retained
            && Next(c, stopped, [], now, 0).hot == None && line in HotLines(Next(c, st, [], now, 0))
  {
    var st, course := State(Some([oldLine, line]), map[], [], []), Course(0, Installed, Displaced, {});
    MovedIsOrdered(c, [oldLine, line], now / DAY, d, oldLine);
    MergedHas(c, st, now, 0, course, d, line);
    DisplacedHotIsGone(c, st, now, course, [], now, 0);
    NextHas(c, st, [], now, 0, d, line);
    DisplacedIsRetained(c, st, now, course);
  }

  lemma {:induction false} DisplacedIsRetained(c: Codec, st: State, now: int, course: Course)
    requires st.hot.Some? && course.hotOutcome == Displaced
    requires Moves(c, st.hot.value, now / DAY) && !Aborts(course, OrderedDays(c, st.hot.value, now / DAY))
    ensures forall line :: line in st.hot.value ==> line in Rotate(c, st, now, 0, course).retained
  {
    MergeDaysKeep(c, st, st.hot.value, now / DAY, OrderedDays(c, st.hot.value, now / DAY), []);
    hide MergeDays, Part, OrderedDays;
  }

  lemma {:induction false} NothingStays(c: Codec, line: Line, today: int, d: int)
    requires OldDay(c, line, today) == Some(d)
    ensures Part(c, [line], today, None) == []
  {
    hide OldDay;
    assert [line][..0] == [];
  }

  lemma {:induction false} NothingMoves(c: Codec, today: int)
    ensures !Moves(c, [], today)
  {
  }
}
