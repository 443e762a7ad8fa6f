/** A whole pruneOld: a rotation and then, under the same lock, a prune of the hot file (internal/history/history.go,
    lines 515-761). What it loses, what is lost over whole runs, and what the next one completes. */
module HistoryPrune {
  import opened Wrappers
  import opened HistoryLines
  import opened HistoryIndex
  import opened SafeReplace
  import opened HistoryRotation
  import opened HistoryRotationSafety
  import opened HistoryRerun
  import opened HistoryRuns

  // ----- how far the rotation gets

  ghost function Ordered(c: Codec, st: State, now: int): seq<int> {
    OrderedDays(c, HotLines(st), now / DAY)
  }

  /** The rotation is cut short at a day file. */
  ghost predicate Stops(c: Codec, cfg: Config, st: State, now: int, course: Course) {
    cfg.compressRotated && Aborts(course, Ordered(c, st, now))
  }

  /** The rotation has something to move and comes to the hot file. */
  ghost predicate Rewrites(c: Codec, cfg: Config, st: State, now: int, course: Course) {
    cfg.compressRotated && Ordered(c, st, now) != [] && !Aborts(course, Ordered(c, st, now))
  }

  /** The rotation merges its lines into the file of day `d`, be it without a report of success. */
  ghost predicate MergesDay(c: Codec, cfg: Config, st: State, now: int, course: Course, d: int) {
    && cfg.compressRotated && d in Ordered(c, st, now)
    && (Stops(c, cfg, st, now, course) ==>
          d in Ordered(c, st, now)[..course.day] || (d == Ordered(c, st, now)[course.day] && course.dayOutcome == InstalledBackupKept))
  }

  /** The rotation leaves the file of day `d` in a backup only. */
  ghost predicate Displaces(c: Codec, cfg: Config, st: State, now: int, course: Course, d: int) {
    Stops(c, cfg, st, now, course) && d == Ordered(c, st, now)[course.day] && course.dayOutcome == Displaced
  }

  /** The rotation deletes the file of day `d`. */
  ghost predicate Deletes(c: Codec, cfg: Config, st: State, now: int, course: Course, d: int) {
    Rewrites(c, cfg, st, now, course) && course.hotOutcome == Installed && Outdated(d, now, cfg.maxRotatedDays) && d !in course.stuck
  }

  /** The lines of the hot file between rotation and prune. */
  ghost function HotBetween(c: Codec, cfg: Config, st: State, now: int, course: Course): seq<Line> {
    if !Rewrites(c, cfg, st, now, course) then HotLines(st)
    else match course.hotOutcome
         case Installed | InstalledBackupKept => Part(c, HotLines(st), now / DAY, None)
         case Untouched => HotLines(st)
         case Displaced => []
  }

  /** The lines of the hot file after the prune. */
  ghost function Left(c: Codec, cfg: Config, lines: seq<Line>, now: int, o: Outcome): seq<Line> {
    match o
    case Installed | InstalledBackupKept => Survivors(c, lines, cfg, now)
    case Untouched => lines
    case Displaced => []
  }

  /** Where a line is in the day files after the rotation. */
  ghost predicate InDay(c: Codec, cfg: Config, st: State, now: int, course: Course, d: int, line: Line) {
    && !Displaces(c, cfg, st, now, course, d) && !Deletes(c, cfg, st, now, course, d)
    && (line in DayLines(st.days, d) || (MergesDay(c, cfg, st, now, course, d) && Moved(c, HotLines(st), now / DAY, d, line)))
  }

  ghost function Rotated(c: Codec, cfg: Config, st: State, now: int, course: Course): State {
    if cfg.compressRotated then Rotate(c, st, now, cfg.maxRotatedDays, course) else st
  }

  lemma {:induction false} NothingOrdered(c: Codec, st: State, now: int)
    ensures st.hot.None? ==> Ordered(c, st, now) == []
  {
  }

  lemma {:induction false} RotatedDayHas(c: Codec, cfg: Config, st: State, now: int, course: Course, d: int, line: Line)
    requires PossibleCourse(c, st, now, course)
    ensures line in DayLines(Rotated(c, cfg, st, now, course).days, d) <==> InDay(c, cfg, st, now, course, d, line)
  {
    NothingOrdered(c, st, now);
    if cfg.compressRotated && Ordered(c, st, now) != [] {
      hide Rotate, OrderedDays, OldDay, DayLines, Outdated, PossibleCourse, Part;
      if Moved(c, HotLines(st), now / DAY, d, line) {
        MovedIsOrdered(c, HotLines(st), now / DAY, d, line);
      }
      if Stops(c, cfg, st, now, course) {
        AbortedHas(c, st, now, cfg.maxRotatedDays, course, d, line);
        OrderedDistinct(c, HotLines(st), now / DAY);
      } else if course.hotOutcome == Installed {
        RotatedHas(c, st, now, cfg.maxRotatedDays, course, d, line);
      } else {
        MergedHas(c, st, now, cfg.maxRotatedDays, course, d, line);
      }
    }
  }

  lemma {:induction false} RotatedHot(c: Codec, cfg: Config, st: State, now: int, course: Course)
    ensures HotLines(Rotated(c, cfg, st, now, course)) == HotBetween(c, cfg, st, now, course)
  {
    hide Part, OrderedDays, Merge, Purged;
    if st.hot.Some? {
      var lines, today := st.hot.value, now / DAY;
      var ordered := OrderedDays(c, lines, today);
      MergeDaysKeep(c, st, lines, today, ordered, []);
      if course.day < |ordered| {
        MergeDaysKeep(c, st, lines, today, ordered[..course.day], []);
      }
      hide MergeDays;
    } else {
      NothingOrdered(c, st, now);
    }
  }

  /** A replacement that keeps the old content in a backup. */
  ghost predicate BacksUp(o: Outcome) {
    o == InstalledBackupKept || o == Displaced
  }

  lemma {:induction false} RotatedRetained(c: Codec, cfg: Config, st: State, now: int, course: Course, line: Line)
    ensures line in Rotated(c, cfg, st, now, course).retained
            <==> || line in st.retained
                 || (Stops(c, cfg, st, now, course) && BacksUp(course.dayOutcome) && line in DayLines(st.days, Ordered(c, st, now)[course.day]))
                 || (Rewrites(c, cfg, st, now, course) && BacksUp(course.hotOutcome) && line in HotLines(st))
  {
    NothingOrdered(c, st, now);
    if cfg.compressRotated && Ordered(c, st, now) != [] {
      var lines, today := st.hot.value, now / DAY;
      var ordered := OrderedDays(c, lines, today);
      MergeDaysKeep(c, st, lines, today, ordered, []);
      if course.day < |ordered| {
        var x, done := ordered[course.day], ordered[..course.day];
        OrderedDistinct(c, lines, today);
        MergeDaysKeep(c, st, lines, today, done, []);
        MergeDaysAt(c, st, lines, today, done, x);
        assert x !in done;
      }
      hide MergeDays, Part, OrderedDays, Merge;
    }
  }

  /** The state after the prune: the hot file pruned, the day files as the rotation left them. */
  lemma {:induction false} AfterPruneOld(c: Codec, cfg: Config, st: State, rotateAt: int, course: Course, pruneAt: int, o: Outcome)
    ensures var between, after := Rotated(c, cfg, st, rotateAt, course), PruneOld(c, st, cfg, rotateAt, course, pruneAt, o);
            && after.days == between.days
            && HotLines(after) == Left(c, cfg, HotBetween(c, cfg, st, rotateAt, course), pruneAt, o)
            && (forall line :: line in after.retained
                  <==> line in between.retained || (BacksUp(o) && line in HotBetween(c, cfg, st, rotateAt, course)))
  {
    RotatedHot(c, cfg, st, rotateAt, course);
    NothingSurvives(c, cfg, pruneAt);
    hide Rotate, HotBetween, Survivors;
  }

  lemma {:induction false} SurvivorsHas(c: Codec, lines: seq<Line>, cfg: Config, now: int, line: Line)
    ensures line in Survivors(c, lines, cfg, now) ==> line in lines && Keeps(c, line, PruneCutoff(lines, cfg, now))
  {
    var keep := KeptLines(c, lines, PruneCutoff(lines, cfg, now));
    KeptHas(c, lines, PruneCutoff(lines, cfg, now), line);
    var d := TrimIsLongestSuffix(keep, cfg.maxSizeMB * MIB);
    assert keep == keep[..d] + keep[d..];
  }

  lemma {:induction false} HotShrinks(c: Codec, cfg: Config, st: State, rotateAt: int, course: Course, pruneAt: int, o: Outcome, line: Line)
    ensures line in Left(c, cfg, HotBetween(c, cfg, st, rotateAt, course), pruneAt, o) ==> line in HotBetween(c, cfg, st, rotateAt, course)
    ensures line in HotBetween(c, cfg, st, rotateAt, course) ==> line in HotLines(st)
  {
    SurvivorsHas(c, HotBetween(c, cfg, st, rotateAt, course), cfg, pruneAt, line);
    PartHas(c, HotLines(st), rotateAt / DAY, None, line);
    hide Part, Survivors, Ordered;
  }

  // ----- how old a line must be to be deleted

  /** A record of the last `maxRotatedDays - 1` days is not in a file that is deleted, and one from more than
      `maxRotatedDays` days ago is. */
  lemma {:induction false} AgeOfDay(ts: int, now: int, maxRotatedDays: int)
    ensures ts >= now - (maxRotatedDays - 1) * 86_400_000_000_000 ==> !Outdated(ts / DAY, now, maxRotatedDays)
    ensures maxRotatedDays > 0 && ts < now - maxRotatedDays * 86_400_000_000_000 ==> Outdated(ts / DAY, now, maxRotatedDays)
  {
    var d := ts / DAY;
    assert d * DAY <= ts < d * DAY + DAY;
    assert (maxRotatedDays - 1) * DAY == maxRotatedDays * DAY - DAY;
  }

  /** The record of a line is from the last `maxRotatedDays - 1` days, or nothing is ever deleted. */
  ghost predicate Recent(c: Codec, line: Line, now: int, maxRotatedDays: int) {
    c.decode(line).Some? && (maxRotatedDays <= 0 || c.decode(line).value.ts >= now - (maxRotatedDays - 1) * 86_400_000_000_000)
  }

  lemma {:induction false} RecentIsNotDeleted(c: Codec, cfg: Config, st: State, now: int, course: Course, line: Line)
    requires Recent(c, line, now, cfg.maxRotatedDays)
    ensures !Deletes(c, cfg, st, now, course, c.decode(line).value.ts / DAY)
  {
    AgeOfDay(c.decode(line).value.ts, now, cfg.maxRotatedDays);
    hide Rewrites;
  }

  /** No course of a rotation, and no end of the prune after it, removes a recent line from its day file, unless the file is
      displaced into its backup. */
  lemma {:induction false} RecentLineStays(c: Codec, cfg: Config, st: State, rotateAt: int, course: Course, pruneAt: int, o: Outcome, d: int, line: Line)
    requires DaysSorted(c, st.days) && PossibleCourse(c, st, rotateAt, course)
    requires d in st.days && line in st.days[d] && Recent(c, line, rotateAt, cfg.maxRotatedDays)
    ensures var after := PruneOld(c, st, cfg, rotateAt, course, pruneAt, o);
            (d in after.days && line in after.days[d]) || line in after.retained
  {
    assert d == c.decode(line).value.ts / DAY && DayLines(st.days, d) == st.days[d];
    RecentIsNotDeleted(c, cfg, st, rotateAt, course, line);
    AfterPruneOld(c, cfg, st, rotateAt, course, pruneAt, o);
    RotatedDayHas(c, cfg, st, rotateAt, course, d, line);
    RotatedRetained(c, cfg, st, rotateAt, course, line);
    hide PruneOld, Rotated, PossibleCourse, DaysSorted, Deletes, Rewrites, OrderedDays, Recent, HotBetween;
  }

  /** A recent line that a rotation moves is in its day file afterwards, if the rotation runs to its end. */
  lemma {:induction false} RecentLineMoves(c: Codec, cfg: Config, st: State, rotateAt: int, course: Course, pruneAt: int, o: Outcome, line: Line)
    requires PossibleCourse(c, st, rotateAt, course) && Rewrites(c, cfg, st, rotateAt, course)
    requires line in HotLines(st) && Recent(c, line, rotateAt, cfg.maxRotatedDays)
    requires c.decode(line).value.ts != 0 && c.decode(line).value.ts / 86_400_000_000_000 < rotateAt / 86_400_000_000_000
    ensures var after, d := PruneOld(c, st, cfg, rotateAt, course, pruneAt, o), c.decode(line).value.ts / 86_400_000_000_000;
            d in after.days && line in after.days[d]
  {
    var d := c.decode(line).value.ts / DAY;
    DayBefore(c.decode(line).value.ts, rotateAt / DAY);
    assert Moved(c, HotLines(st), rotateAt / DAY, d, line);
    MovedIsOrdered(c, HotLines(st), rotateAt / DAY, d, line);
    RecentIsNotDeleted(c, cfg, st, rotateAt, course, line);
    AfterPruneOld(c, cfg, st, rotateAt, course, pruneAt, o);
    RotatedDayHas(c, cfg, st, rotateAt, course, d, line);
    hide PruneOld, Rotated, PossibleCourse, Deletes, OrderedDays, Recent, HotBetween, Moved;
  }

  /** After a rotation that runs to its end, with every deletion a success, no day file has a line from more than
      `maxRotatedDays` days ago. */
  lemma {:induction false} NothingOlderIsKept(c: Codec, cfg: Config, st: State, rotateAt: int, course: Course, pruneAt: int, o: Outcome, d: int, line: Line)
    requires DaysSorted(c, st.days) && PossibleCourse(c, st, rotateAt, course) && cfg.maxRotatedDays > 0
    requires Rewrites(c, cfg, st, rotateAt, course) && course.hotOutcome == Installed && course.stuck == {}
    requires var after := PruneOld(c, st, cfg, rotateAt, course, pruneAt, o); d in after.days && line in after.days[d]
    ensures c.decode(line).Some? && c.decode(line).value.ts >= rotateAt - cfg.maxRotatedDays * 86_400_000_000_000
  {
    var after := PruneOld(c, st, cfg, rotateAt, course, pruneAt, o);
    RotationKeepsDaysSorted(c, st, rotateAt, cfg.maxRotatedDays, course);
    AfterPruneOld(c, cfg, st, rotateAt, course, pruneAt, o);
    assert DaysSorted(c, after.days) && DayLines(after.days, d) == after.days[d];
    assert c.decode(line).Some? && d == c.decode(line).value.ts / DAY;
    RotatedDayHas(c, cfg, st, rotateAt, course, d, line);
    AgeOfDay(c.decode(line).value.ts, rotateAt, cfg.maxRotatedDays);
    hide PruneOld, Rotated, PossibleCourse, DaysSorted, Rewrites, OrderedDays, Outdated, HotBetween;
  }

  // ----- how old a line must be to be pruned

  /** After a prune without failures the hot file has a suffix of the lines that are not decodable or younger than the limit:
      `maxAgeHours` hours, or `pruneToHours` if the file had more than `maxSizeMB` mebibytes. The whole of them, if they fit
      into that size. */
  lemma {:induction false} PrunedByAge(c: Codec, st: State, cfg: Config, now: int, line: Line)
    requires st.hot.Some? && cfg.maxSizeMB > 0
    ensures var limit := cfg.maxSizeMB * 1_048_576;
            var hours := if |Render(st.hot.value)| > limit then cfg.pruneToHours else cfg.maxAgeHours;
            var young := c.decode(line).Some? ==> c.decode(line).value.ts > now - hours * 3_600_000_000_000;
            var after := Prune(c, st, cfg, now, Installed).hot;
            && after.Some? && |Render(after.value)| <= limit
            && (line in after.value ==> line in st.hot.value && young)
            && (line in st.hot.value && young && |Render(KeptLines(c, st.hot.value, now - hours * 3_600_000_000_000))| <= limit ==> line in after.value)
  {
    hide KeptLines, Survivors, Render, Size;
    var lines := st.hot.value;
    var keep := KeptLines(c, lines, PruneCutoff(lines, cfg, now));
    SizeIsLength(lines);
    KeptHas(c, lines, PruneCutoff(lines, cfg, now), line);
    var d := PruneKeepsLongestSuffix(c, st, cfg, now);
    SizeIsLength(keep);
    SizeIsLength(keep[d..]);
    assert keep[0..] == keep;
    assert keep == keep[..d] + keep[d..];
  }

  // ----- conservation

  /** The lines that a pruneOld leaves somewhere on disk: in a backup, in a day file that is not deleted, merged into one,
      or written back. */
  ghost predicate Spared(c: Codec, cfg: Config, st: State, rotateAt: int, course: Course, pruneAt: int, o: Outcome, line: Line) {
    var between := HotBetween(c, cfg, st, rotateAt, course);
    || line in st.retained
    || (exists d :: line in DayLines(st.days, d) && !Deletes(c, cfg, st, rotateAt, course, d))
    || (line in HotLines(st) && (match OldDay(c, line, rotateAt / DAY)
                                 case None => false
                                 case Some(d) => MergesDay(c, cfg, st, rotateAt, course, d) && !Deletes(c, cfg, st, rotateAt, course, d)))
    || (line in HotLines(st) && Rewrites(c, cfg, st, rotateAt, course) && BacksUp(course.hotOutcome))
    || (line in between && BacksUp(o))
    || line in Left(c, cfg, between, pruneAt, o)
  }

  /** What is on disk after a pruneOld, for every course of the rotation and every end of the prune: exactly the spared
      lines. */
  lemma {:induction false} PruneOldConserves(c: Codec, cfg: Config, st: State, rotateAt: int, course: Course, pruneAt: int, o: Outcome, line: Line)
    requires PossibleCourse(c, st, rotateAt, course)
    ensures Stored(PruneOld(c, st, cfg, rotateAt, course, pruneAt, o), line) <==> Spared(c, cfg, st, rotateAt, course, pruneAt, o, line)
  {
    var after := PruneOld(c, st, cfg, rotateAt, course, pruneAt, o);
    AfterPruneOld(c, cfg, st, rotateAt, course, pruneAt, o);
    RotatedRetained(c, cfg, st, rotateAt, course, line);
    StoredHas(after, line);
    hide PruneOld, HotBetween, Left, OldDay, DayLines, PossibleCourse, Outdated, Ordered, Rotated, Stored;
    forall d
      ensures line in DayLines(after.days, d) <==> InDay(c, cfg, st, rotateAt, course, d, line)
    {
      RotatedDayHas(c, cfg, st, rotateAt, course, d, line);
    }
    SparedInDay(c, cfg, st, rotateAt, course, line);
  }

  /** The day files spare what they had and what is merged into them, except for a file that is deleted; what a displaced
      file had is in its backup. */
  lemma {:induction false} SparedInDay(c: Codec, cfg: Config, st: State, now: int, course: Course, line: Line)
    ensures (exists d :: InDay(c, cfg, st, now, course, d, line))
            || (Stops(c, cfg, st, now, course) && BacksUp(course.dayOutcome) && line in DayLines(st.days, Ordered(c, st, now)[course.day]))
            <==> || (exists d :: line in DayLines(st.days, d) && !Deletes(c, cfg, st, now, course, d))
                 || (line in HotLines(st) && (match OldDay(c, line, now / DAY)
                                              case None => false
                                              case Some(d) => MergesDay(c, cfg, st, now, course, d) && !Deletes(c, cfg, st, now, course, d)))
  {
    hide OldDay, DayLines, Outdated, HotLines;
    MergedIsNotDisplaced(c, cfg, st, now, course);
    hide Ordered, Aborts;
    if d :| line in DayLines(st.days, d) && !Deletes(c, cfg, st, now, course, d) {
      assert InDay(c, cfg, st, now, course, d, line) || Displaces(c, cfg, st, now, course, d);
    }
    var goes := OldDay(c, line, now / DAY);
    if goes.Some? && line in HotLines(st) {
      assert InDay(c, cfg, st, now, course, goes.value, line)
             <==> && !Displaces(c, cfg, st, now, course, goes.value) && !Deletes(c, cfg, st, now, course, goes.value)
                  && (line in DayLines(st.days, goes.value) || MergesDay(c, cfg, st, now, course, goes.value));
    }
  }

  lemma {:induction false} MergedIsNotDisplaced(c: Codec, cfg: Config, st: State, now: int, course: Course)
    ensures forall d :: MergesDay(c, cfg, st, now, course, d) ==> !Displaces(c, cfg, st, now, course, d)
    ensures forall d :: Stops(c, cfg, st, now, course) ==> !Deletes(c, cfg, st, now, course, d)
  {
    OrderedDistinct(c, HotLines(st), now / DAY);
    hide OrderedDays;
  }

  lemma {:induction false} SparedIsStored(c: Codec, cfg: Config, st: State, rotateAt: int, course: Course, pruneAt: int, o: Outcome, line: Line)
    requires Spared(c, cfg, st, rotateAt, course, pruneAt, o, line)
    ensures Stored(st, line)
  {
    HotShrinks(c, cfg, st, rotateAt, course, pruneAt, o, line);
    StoredHas(st, line);
    hide HotBetween, Left, OldDay, MergesDay, Deletes, Stored;
  }

  /** The rotation comes first so that old lines outlive the prune. Such a line does, deletion apart, if and only if its day
      is merged, as every day is unless the rotation stops, or it is elsewhere, or the prune writes it back. */
  lemma {:induction false} OldLineOutlivesIff(c: Codec, cfg: Config, st: State, rotateAt: int, course: Course, pruneAt: int, o: Outcome, d: int, line: Line)
    requires PossibleCourse(c, st, rotateAt, course) && cfg.compressRotated
    requires Moved(c, HotLines(st), rotateAt / DAY, d, line) && !Deletes(c, cfg, st, rotateAt, course, d)
    ensures !Stops(c, cfg, st, rotateAt, course) ==> MergesDay(c, cfg, st, rotateAt, course, d)
    ensures Stored(PruneOld(c, st, cfg, rotateAt, course, pruneAt, o), line)
            <==> || MergesDay(c, cfg, st, rotateAt, course, d)
                 || line in st.retained
                 || (exists x :: line in DayLines(st.days, x))
                 || BacksUp(o)
                 || line in Left(c, cfg, HotLines(st), pruneAt, o)
  {
    MovedIsOrdered(c, HotLines(st), rotateAt / DAY, d, line);
    MergedIsNotDisplaced(c, cfg, st, rotateAt, course);
    assert !MergesDay(c, cfg, st, rotateAt, course, d) ==> HotBetween(c, cfg, st, rotateAt, course) == HotLines(st);
    hide PruneOld, HotBetween, Left, OldDay, Deletes, Stored, OrderedDays;
    PruneOldConserves(c, cfg, st, rotateAt, course, pruneAt, o, line);
  }

  lemma {:induction false} OneLine(c: Codec, cfg: Config, line: Line, today: int)
    ensures OrderedDays(c, [line], today) == match OldDay(c, line, today) case None => [] case Some(d) => [d]
  {
    hide OldDay;
    assert [line][..0] == [];
  }

  /** They need not if it does stop: the merge of their day fails before anything is written, as it does when a temporary
      file cannot be created, and the prune deletes a line before its cutoff. No file holds it any more, and the next
      pruneOld has nothing to complete. */
  lemma {:induction false} FailedMergeLosesLine(c: Codec, cfg: Config, line: Line, rotateAt: int, pruneAt: int, later: int, p: int, o: Outcome)
    requires cfg.compressRotated && OldDay(c, line, rotateAt / DAY).Some? && !Keeps(c, line, PruneCutoff([line], cfg, pruneAt))
    ensures var st, course := State(Some([line]), map[], [], []), Course(0, Untouched, Installed, {});
            var after := PruneOld(c, st, cfg, rotateAt, course, pruneAt, Installed);
            && PossibleCourse(c, st, rotateAt, course) && Stored(st, line)
            && !Stored(after, line) && NextPrune(c, cfg, after, [], later, p, o).days == map[]
  {
    var st, course := State(Some([line]), map[], [], []), Course(0, Untouched, Installed, {});
    OneLine(c, cfg, line, rotateAt / DAY);
    OneDoesNotSurvive(c, line, cfg, pruneAt);
    assert [line][..0] == [];
    hide Survivors, OldDay, OrderedDays, Part;
    assert PruneOld(c, st, cfg, rotateAt, course, pruneAt, Installed) == State(Some([]), map[], [], []);
  }

  /** Nor do lines that do not rotate, such as those with the zero time, outlive a prune without failures if they are
      before its cutoff. */
  lemma {:induction false} StayingLineIsPruned(c: Codec, cfg: Config, line: Line, rotateAt: int, pruneAt: int)
    requires OldDay(c, line, rotateAt / DAY).None? && !Keeps(c, line, PruneCutoff([line], cfg, pruneAt))
    ensures !Stored(PruneOld(c, State(Some([line]), map[], [], []), cfg, rotateAt, UNDISTURBED, pruneAt, Installed), line)
  {
    OneLine(c, cfg, line, rotateAt / DAY);
    OneDoesNotSurvive(c, line, cfg, pruneAt);
    hide Survivors, OldDay, OrderedDays, Part;
  }

  // ----- conservation over runs

  /** The event writes `line` to the hot file. */
  ghost predicate Adds(c: Codec, e: Event, line: Line) {
    e.AppendEvent? && Writes(e.io) && LineToAppend(c, e.record) == Some(line)
  }

  ghost predicate Loses(c: Codec, cfg: Config, st: State, e: Event, line: Line) {
    e.PruneEvent? && !Spared(c, cfg, st, e.rotateAt, e.course, e.pruneAt, e.outcome, line)
  }

  ghost predicate PossibleEvent(c: Codec, st: State, e: Event) {
    e.PruneEvent? ==> PossibleCourse(c, st, e.rotateAt, e.course)
  }

  lemma {:induction false} StepStores(c: Codec, cfg: Config, st: State, e: Event, line: Line)
    requires PossibleEvent(c, st, e)
    ensures Stored(Step(c, cfg, st, e), line) <==> Adds(c, e, line) || (Stored(st, line) && !Loses(c, cfg, st, e, line))
  {
    match e
    case AppendEvent(r, io) =>
      StoredHas(st, line);
      StoredHas(Append(c, st, r, io), line);
      hide Stored, LineToAppend;
    case QueryEvent(n) =>
    case RestartEvent =>
    case PruneEvent(rotateAt, course, pruneAt, o) =>
      hide PruneOld, Spared, Stored, PossibleCourse;
      PruneOldConserves(c, cfg, st, rotateAt, course, pruneAt, o, line);
      if Spared(c, cfg, st, rotateAt, course, pruneAt, o, line) {
        SparedIsStored(c, cfg, st, rotateAt, course, pruneAt, o, line);
      }
  }

  ghost predicate PossibleRun(c: Codec, cfg: Config, st: State, events: seq<Event>) {
    forall j :: 0 <= j < |events| ==> PossibleEvent(c, Run(c, cfg, st, events[..j]), events[j])
  }

  /** `line` is there before event `i`: at the beginning, or because the event before wrote it. */
  ghost predicate Enters(c: Codec, st: State, events: seq<Event>, i: nat, line: Line)
    requires i <= |events|
  {
    if i == 0 then Stored(st, line) else Adds(c, events[i - 1], line)
  }

  /** No event from the one at `i` on loses `line`. */
  ghost predicate StaysFrom(c: Codec, cfg: Config, st: State, events: seq<Event>, i: nat, line: Line) {
    forall j :: i <= j < |events| ==> !Loses(c, cfg, Run(c, cfg, st, events[..j]), events[j], line)
  }

  lemma {:induction false} RunSnoc(c: Codec, cfg: Config, st: State, events: seq<Event>, last: Event)
    ensures Run(c, cfg, st, events + [last]) == Step(c, cfg, Run(c, cfg, st, events), last)
    decreases |events|
  {
    hide Step;
    var all := events + [last];
    if events == [] {
      assert all[1..] == [] && all[0] == last;
      assert Run(c, cfg, Step(c, cfg, st, last), []) == Step(c, cfg, st, last);
    } else {
      assert all[1..] == events[1..] + [last];
      RunSnoc(c, cfg, Step(c, cfg, st, events[0]), events[1..], last);
    }
  }

  lemma {:induction false} StaysSnoc(c: Codec, cfg: Config, st: State, events: seq<Event>, i: nat, line: Line)
    requires events != [] && i < |events|
    ensures var front, last := events[..|events| - 1], events[|events| - 1];
            StaysFrom(c, cfg, st, events, i, line)
            <==> StaysFrom(c, cfg, st, front, i, line) && !Loses(c, cfg, Run(c, cfg, st, front), last, line)
  {
    hide Run, Loses;
    var front := events[..|events| - 1];
    assert forall j :: 0 <= j < |front| ==> front[..j] == events[..j] && front[j] == events[j];
  }

  /** Over every run: a line is on disk at the end exactly if it was there at some time, at the beginning or by an append,
      and no pruneOld from then on loses it. */
  lemma {:induction false} StoredInRunIff(c: Codec, cfg: Config, st: State, events: seq<Event>, line: Line)
    requires PossibleRun(c, cfg, st, events)
    ensures Stored(Run(c, cfg, st, events), line)
            <==> exists i: nat :: i <= |events| && Enters(c, st, events, i, line) && StaysFrom(c, cfg, st, events, i, line)
    decreases |events|
  {
    hide Stored, Loses, Adds;
    if events == [] {
      assert Enters(c, st, events, 0, line) == Stored(st, line) && StaysFrom(c, cfg, st, events, 0, line);
    } else {
      var front, last := events[..|events| - 1], events[|events| - 1];
      assert events == front + [last];
      RunSnoc(c, cfg, st, front, last);
      FrontIsPossible(c, cfg, st, events);
      StoredInRunIff(c, cfg, st, front, line);
      StepStores(c, cfg, Run(c, cfg, st, front), last, line);
      hide Run, PossibleRun, PossibleEvent;
      RunCases(c, cfg, st, events, line);
    }
  }

  lemma {:induction false} FrontIsPossible(c: Codec, cfg: Config, st: State, events: seq<Event>)
    requires PossibleRun(c, cfg, st, events) && events != []
    ensures PossibleRun(c, cfg, st, events[..|events| - 1])
    ensures PossibleEvent(c, Run(c, cfg, st, events[..|events| - 1]), events[|events| - 1])
  {
    hide Run, PossibleEvent;
    var front := events[..|events| - 1];
    assert forall j :: 0 <= j < |front| ==> front[..j] == events[..j] && front[j] == events[j];
  }

  /** A line has entered by the last event, or before it and the last event does not lose it. */
  lemma {:induction false} RunCases(c: Codec, cfg: Config, st: State, events: seq<Event>, line: Line)
    requires events != []
    ensures var front, last := events[..|events| - 1], events[|events| - 1];
            (exists i: nat :: i <= |events| && Enters(c, st, events, i, line) && StaysFrom(c, cfg, st, events, i, line))
            <==> || Adds(c, last, line)
                 || ((exists i: nat :: i <= |front| && Enters(c, st, front, i, line) && StaysFrom(c, cfg, st, front, i, line))
                     && !Loses(c, cfg, Run(c, cfg, st, front), last, line))
  {
    var front, last := events[..|events| - 1], events[|events| - 1];
    hide Run, Loses, Adds, Stored;
    forall i: nat | i <= |front|
      ensures Enters(c, st, events, i, line) == Enters(c, st, front, i, line)
      ensures StaysFrom(c, cfg, st, events, i, line)
              <==> StaysFrom(c, cfg, st, front, i, line) && !Loses(c, cfg, Run(c, cfg, st, front), last, line)
    {
      StaysSnoc(c, cfg, st, events, i, line);
    }
    assert Enters(c, st, events, |events|, line) == Adds(c, last, line);
    assert StaysFrom(c, cfg, st, events, |events|, line);
    hide StaysFrom, Enters;
  }

  // ----- what the next pruneOld completes

  /** Further appends, and then a pruneOld whose rotation meets no failure. */
  ghost function NextPrune(c: Codec, cfg: Config, st: State, more: seq<Line>, later: int, p: int, o: Outcome): State {
    PruneOld(c, Grown(st, more), cfg, later, UNDISTURBED, p, o)
  }

  lemma {:induction false} NextPruneHas(c: Codec, cfg: Config, st: State, more: seq<Line>, later: int, p: int, o: Outcome, d: int, line: Line)
    requires cfg.compressRotated
    ensures line in DayLines(NextPrune(c, cfg, st, more, later, p, o).days, d)
            <==> && (line in DayLines(st.days, d) || Moved(c, HotLines(st) + more, later / DAY, d, line))
                 && !(Moves(c, HotLines(st) + more, later / DAY) && Outdated(d, later, cfg.maxRotatedDays))
  {
    AfterPruneOld(c, cfg, Grown(st, more), later, UNDISTURBED, p, o);
    hide PruneOld, Rotate, OldDay, Outdated, DayLines, Moves;
    NextHas(c, st, more, later, cfg.maxRotatedDays, d, line);
  }

  ghost predicate SameDay(a: State, b: State, d: int, line: Line) {
    line in DayLines(a.days, d) <==> line in DayLines(b.days, d)
  }

  /** Every day file has the same lines. */
  ghost predicate SameDays(a: State, b: State) {
    forall d, line :: SameDay(a, b, d, line)
  }

  /** A line that belongs into the file of day `d` later, but that the rotation has not put or left there. */
  ghost predicate Missing(c: Codec, cfg: Config, st: State, now: int, course: Course, later: int, d: int, line: Line) {
    if line in DayLines(st.days, d) then Displaces(c, cfg, st, now, course, d)
    else Moved(c, HotLines(st), later / DAY, d, line) && !MergesDay(c, cfg, st, now, course, d)
  }

  ghost predicate Due(c: Codec, cfg: Config, lines: seq<Line>, later: int, d: int) {
    Moves(c, lines, later / DAY) && Outdated(d, later, cfg.maxRotatedDays)
  }

  /** What the file of day `d` holds after the next pruneOld, compared with a store in which this one never ran. */
  lemma {:induction false} RerunAt(c: Codec, cfg: Config, st: State, rotateAt: int, course: Course, pruneAt: int, o: Outcome,
                                   more: seq<Line>, later: int, p: int, q: Outcome, d: int, line: Line)
    requires cfg.compressRotated && rotateAt <= later && PossibleCourse(c, st, rotateAt, course)
    ensures var stopped := PruneOld(c, st, cfg, rotateAt, course, pruneAt, o);
            var wanted, hot := HotLines(st) + more, HotLines(stopped) + more;
            SameDay(NextPrune(c, cfg, stopped, more, later, p, q), NextPrune(c, cfg, st, more, later, p, q), d, line)
            <==> if Due(c, cfg, wanted, later, d) then Moves(c, hot, later / DAY) || line !in DayLines(stopped.days, d)
                 else Missing(c, cfg, st, rotateAt, course, later, d, line) ==> Moved(c, hot, later / DAY, d, line)
  {
    var stopped := PruneOld(c, st, cfg, rotateAt, course, pruneAt, o);
    var wanted, hot := HotLines(st) + more, HotLines(stopped) + more;
    AfterPruneOld(c, cfg, st, rotateAt, course, pruneAt, o);
    RotatedDayHas(c, cfg, st, rotateAt, course, d, line);
    forall x: Line
      ensures x in HotLines(stopped) ==> x in HotLines(st)
    {
      HotShrinks(c, cfg, st, rotateAt, course, pruneAt, o, x);
    }
    hide PruneOld, Rotated, HotBetween, Left, DayLines, HotLines, PossibleCourse, NextPrune;
    MovesMore(c, hot, wanted, later / DAY);
    MergedStaysMerged(c, cfg, st, rotateAt, course, later, d, line);
    DeletedIsDue(c, cfg, st, rotateAt, course, more, later, d);
    MergedIsNotDisplaced(c, cfg, st, rotateAt, course);
    NextPruneHas(c, cfg, stopped, more, later, p, q, d, line);
    NextPruneHas(c, cfg, st, more, later, p, q, d, line);
    if Moved(c, hot, later / DAY, d, line) {
      MovedIsOrdered(c, hot, later / DAY, d, line);
    }
    if Moved(c, wanted, later / DAY, d, line) {
      MovedIsOrdered(c, wanted, later / DAY, d, line);
    }
    hide Moves, Outdated, OldDay, MergesDay, Displaces, Deletes;
  }

  lemma {:induction false} MovesMore(c: Codec, lines: seq<Line>, all: seq<Line>, today: int)
    requires forall x :: x in lines ==> x in all
    ensures Moves(c, lines, today) ==> Moves(c, all, today)
  {
    if Moves(c, lines, today) {
      var d := OrderedDays(c, lines, today)[0];
      var line := OrderedIsMoved(c, lines, today, d);
      MovedIsOrdered(c, all, today, d, line);
    }
  }

  /** For a day that is merged it does not matter whether the lines are looked at now or later. */
  lemma {:induction false} MergedStaysMerged(c: Codec, cfg: Config, st: State, now: int, course: Course, later: int, d: int, line: Line)
    requires now <= later
    ensures MergesDay(c, cfg, st, now, course, d) ==>
              (Moved(c, HotLines(st), now / DAY, d, line) <==> Moved(c, HotLines(st), later / DAY, d, line))
  {
    if MergesDay(c, cfg, st, now, course, d) {
      var some := OrderedIsMoved(c, HotLines(st), now / DAY, d);
      hide OldDay;
      OldDayLater(c, line, now / DAY, later / DAY);
    }
  }

  lemma {:induction false} DeletedIsDue(c: Codec, cfg: Config, st: State, now: int, course: Course, more: seq<Line>, later: int, d: int)
    requires now <= later
    ensures Deletes(c, cfg, st, now, course, d) ==> Due(c, cfg, HotLines(st) + more, later, d)
  {
    if Deletes(c, cfg, st, now, course, d) {
      MovesLater(c, HotLines(st), more, now / DAY, later / DAY);
    }
  }

  /** Whatever becomes of a pruneOld, the next one leaves every day file with the lines that it would have if this one had
      never run, if and only if every line that is missing from its day file, and is not due for deletion, is left in
      the hot file or appended again; and if only the next one has nothing more to move, so that it does not come to the
      deletion, there is nothing to delete. */
  lemma {:induction false} RerunAfterPruneOld(c: Codec, cfg: Config, st: State, rotateAt: int, course: Course, pruneAt: int, o: Outcome,
                                              more: seq<Line>, later: int, p: int, q: Outcome)
    requires cfg.compressRotated && rotateAt <= later && PossibleCourse(c, st, rotateAt, course)
    ensures var stopped := PruneOld(c, st, cfg, rotateAt, course, pruneAt, o);
            var wanted, hot := HotLines(st) + more, HotLines(stopped) + more;
            SameDays(NextPrune(c, cfg, stopped, more, later, p, q), NextPrune(c, cfg, st, more, later, p, q))
            <==> && (forall d, line :: Missing(c, cfg, st, rotateAt, course, later, d, line) && !Due(c, cfg, wanted, later, d)
                                       ==> Moved(c, hot, later / DAY, d, line))
                 && (Moves(c, wanted, later / DAY) && !Moves(c, hot, later / DAY) ==> !SomethingOutdated(stopped, later, cfg.maxRotatedDays))
    ensures HotLines(PruneOld(c, st, cfg, rotateAt, course, pruneAt, o)) == Left(c, cfg, HotBetween(c, cfg, st, rotateAt, course), pruneAt, o)
  {
    var stopped := PruneOld(c, st, cfg, rotateAt, course, pruneAt, o);
    var wanted, hot := HotLines(st) + more, HotLines(stopped) + more;
    var again, once := NextPrune(c, cfg, stopped, more, later, p, q), NextPrune(c, cfg, st, more, later, p, q);
    AfterPruneOld(c, cfg, st, rotateAt, course, pruneAt, o);
    hide PruneOld, HotBetween, Left, NextPrune, PossibleCourse, Missing, SameDay, Moved, Moves, HotLines, DayLines, Outdated, Rotated;
    forall d, line
      ensures SameDay(again, once, d, line)
              <==> if Due(c, cfg, wanted, later, d) then Moves(c, hot, later / DAY) || line !in DayLines(stopped.days, d)
                   else Missing(c, cfg, st, rotateAt, course, later, d, line) ==> Moved(c, hot, later / DAY, d, line)
    {
      RerunAt(c, cfg, st, rotateAt, course, pruneAt, o, more, later, p, q, d, line);
    }
    if Moves(c, wanted, later / DAY) && !Moves(c, hot, later / DAY) {
      forall d, line | Outdated(d, later, cfg.maxRotatedDays) && line in DayLines(stopped.days, d)
        ensures !SameDays(again, once)
      {
        assert !SameDay(again, once, d, line);
      }
    }
    if SameDays(again, once) {
      forall d, line | Missing(c, cfg, st, rotateAt, course, later, d, line) && !Due(c, cfg, wanted, later, d)
        ensures Moved(c, hot, later / DAY, d, line)
      {
        assert SameDay(again, once, d, line);
      }
    } else {
      var d, line :| !SameDay(again, once, d, line);
      if Due(c, cfg, wanted, later, d) {
        assert Outdated(d, later, cfg.maxRotatedDays) && line in DayLines(stopped.days, d);
      }
    }
  }

  /** Where the prune leaves the hot file as it was, a rotation that stopped after any number of days, or before the hot
      rewrite, is completed by the next pruneOld, on the same or a later day and after any further appends: hot file and
      day files end up as if the interrupted run had never happened, line for line. */
  lemma {:induction false} RerunCompletes(c: Codec, cfg: Config, st: State, rotateAt: int, course: Course, pruneAt: int, o: Outcome,
                                          more: seq<Line>, later: int, p: int, q: Outcome)
    requires cfg.compressRotated && rotateAt / DAY <= later / DAY && PossibleCourse(c, st, rotateAt, course)
    requires Stops(c, cfg, st, rotateAt, course) || (Rewrites(c, cfg, st, rotateAt, course) && course.hotOutcome == Untouched)
    requires course.dayOutcome != Displaced && PruneOld(c, st, cfg, rotateAt, course, pruneAt, o).hot == st.hot
    ensures var again := NextPrune(c, cfg, PruneOld(c, st, cfg, rotateAt, course, pruneAt, o), more, later, p, q);
            var once := NextPrune(c, cfg, st, more, later, p, q);
            again.hot == once.hot && again.days == once.days
  {
    var today, stopped := rotateAt / DAY, PruneOld(c, st, cfg, rotateAt, course, pruneAt, o);
    NothingOrdered(c, st, rotateAt);
    AfterPruneOld(c, cfg, st, rotateAt, course, pruneAt, o);
    PurgeLast(c, st, rotateAt, cfg.maxRotatedDays, course);
    assert stopped.days == Rotate(c, st, rotateAt, 0, course).days;
    var st1, st2 := Grown(stopped, more), Grown(st, more);
    var all := st.hot.value + more;
    assert st.hot.value + [] == st.hot.value;
    assert st1.hot == st2.hot == Some(all) && st1.days == stopped.days && st2.days == st.days;
    hide Rotate, PruneOld, PossibleCourse, Aborts, OrderedDays, Part, Merge;
    forall d
      ensures DayFile(Rotate(c, st1, later, 0, UNDISTURBED).days, d) == DayFile(Rotate(c, st2, later, 0, UNDISTURBED).days, d)
    {
      MergedOnce(c, st, rotateAt, course, st1, st2, more, later, d);
    }
    SameFiles(Rotate(c, st1, later, 0, UNDISTURBED).days, Rotate(c, st2, later, 0, UNDISTURBED).days);
    SameNext(c, cfg, st1, st2, later, p, q);
  }

  lemma {:induction false} MergedOnce(c: Codec, st: State, now: int, course: Course, st1: State, st2: State, more: seq<Line>, later: int, d: int)
    requires st.hot.Some? && now / DAY <= later / DAY && PossibleCourse(c, st, now, course) && course.dayOutcome != Displaced
    requires st1.hot == st2.hot == Some(st.hot.value + more)
    requires st1.days == Rotate(c, st, now, 0, course).days && st2.days == st.days
    ensures DayFile(Rotate(c, st1, later, 0, UNDISTURBED).days, d) == DayFile(Rotate(c, st2, later, 0, UNDISTURBED).days, d)
  {
    var lines, all := st.hot.value, st.hot.value + more;
    hide Rotate, OrderedDays, Part, Merge, PossibleCourse;
    MergedDays(c, st1, later, UNDISTURBED, d);
    MergedDays(c, st2, later, UNDISTURBED, d);
    InterruptedDays(c, st, now, course, d);
    PartGrows(c, lines, more, now / DAY, later / DAY, d);
    var rest :| Part(c, all, later / DAY, Some(d)) == Part(c, lines, now / DAY, Some(d)) + rest;
    MergeAgain(DayLines(st.days, d), Part(c, lines, now / DAY, Some(d)), rest);
  }

  lemma {:induction false} SameNext(c: Codec, cfg: Config, a: State, b: State, later: int, p: int, q: Outcome)
    requires cfg.compressRotated && a.hot == b.hot && a.hot.Some?
    requires Rotate(c, a, later, 0, UNDISTURBED).days == Rotate(c, b, later, 0, UNDISTURBED).days
    ensures var x, y := PruneOld(c, a, cfg, later, UNDISTURBED, p, q), PruneOld(c, b, cfg, later, UNDISTURBED, p, q);
            x.hot == y.hot && x.days == y.days
  {
    PurgeLast(c, a, later, cfg.maxRotatedDays, UNDISTURBED);
    PurgeLast(c, b, later, cfg.maxRotatedDays, UNDISTURBED);
    MergeDaysKeep(c, a, a.hot.value, later / DAY, OrderedDays(c, a.hot.value, later / DAY), []);
    MergeDaysKeep(c, b, b.hot.value, later / DAY, OrderedDays(c, b.hot.value, later / DAY), []);
    hide MergeDays, OrderedDays, Part, Survivors, Purged;
  }

  /** It happens: a day file with one line is displaced, with another line of that day on its way there. Whatever the prune
      does, the next pruneOld does not bring the first line back. */
  lemma {:induction false} DisplacedDayIsNotRestored(c: Codec, cfg: Config, line: Line, newLine: Line, d: int, now: int, pruneAt: int, o: Outcome, p: int, q: Outcome)
    requires cfg.compressRotated && cfg.maxRotatedDays == 0 && line != newLine && OldDay(c, newLine, now / DAY) == Some(d)
    ensures var st, course := State(Some([newLine]), map[d := [line]], [], []), Course(0, Displaced, Installed, {});
            var after := PruneOld(c, st, cfg, now, course, pruneAt, o);
            && PossibleCourse(c, st, now, course) && line in after.retained
            && line !in DayLines(NextPrune(c, cfg, after, [], now, p, q).days, d)
            && line in DayLines(NextPrune(c, cfg, st, [], now, p, q).days, d)
  {
    var st, course := State(Some([newLine]), map[d := [line]], [], []), Course(0, Displaced, Installed, {});
    var after := PruneOld(c, st, cfg, now, course, pruneAt, o);
    OneLine(c, cfg, newLine, now / DAY);
    AfterPruneOld(c, cfg, st, now, course, pruneAt, o);
    RotatedRetained(c, cfg, st, now, course, line);
    RotatedDayHas(c, cfg, st, now, course, d, line);
    HotShrinks(c, cfg, st, now, course, pruneAt, o, line);
    NextPruneHas(c, cfg, after, [], now, p, q, d, line);
    NextPruneHas(c, cfg, st, [], now, p, q, d, line);
    assert DayLines(st.days, d) == [line];
    hide PruneOld, Rotated, HotBetween, Left, NextPrune, OldDay, OrderedDays;
  }

  /** It happens: the backup of the hot file cannot be removed, nothing is left to move, and an outdated day file stays. */
  lemma {:induction false} BackupKeptDelaysDeletion(c: Codec, cfg: Config, gone: Line, line: Line, x: int, now: int, pruneAt: int, o: Outcome, p: int, q: Outcome)
    requires cfg.compressRotated && OldDay(c, gone, now / DAY).Some? && Outdated(x, now, cfg.maxRotatedDays)
    ensures var st, course := State(Some([gone]), map[x := [line]], [], []), Course(0, Installed, InstalledBackupKept, {});
            var after := PruneOld(c, st, cfg, now, course, pruneAt, o);
            && line in DayLines(NextPrune(c, cfg, after, [], now, p, q).days, x)
            && line !in DayLines(NextPrune(c, cfg, st, [], now, p, q).days, x)
  {
    var st, course := State(Some([gone]), map[x := [line]], [], []), Course(0, Installed, InstalledBackupKept, {});
    var after := PruneOld(c, st, cfg, now, course, pruneAt, o);
    var d := OldDay(c, gone, now / DAY).value;
    OneLine(c, cfg, gone, now / DAY);
    NothingStays(c, gone, now / DAY, d);
    NothingSurvives(c, cfg, pruneAt);
    AfterPruneOld(c, cfg, st, now, course, pruneAt, o);
    RotatedDayHas(c, cfg, st, now, course, x, line);
    assert DayLines(st.days, x) == [line] && [gone] + [] == [gone];
    hide PruneOld, Rotated, NextPrune, OldDay, OrderedDays, Survivors, Part, Outdated;
    NothingMoves(c, now / DAY);
    NextPruneHas(c, cfg, after, [], now, p, q, x, line);
    NextPruneHas(c, cfg, st, [], now, p, q, x, line);
  }

  /** A rotation that displaces the hot file is all there is of its pruneOld: the prune finds no file. */
  lemma {:induction false} DisplacedHotEndsPrune(c: Codec, cfg: Config, st: State, rotateAt: int, course: Course, pruneAt: int, o: Outcome)
    requires Rewrites(c, cfg, st, rotateAt, course) && course.hotOutcome == Displaced
    ensures PruneOld(c, st, cfg, rotateAt, course, pruneAt, o) == Rotate(c, st, rotateAt, cfg.maxRotatedDays, course)
    ensures Rotate(c, st, rotateAt, cfg.maxRotatedDays, course).hot == None
  {
    NothingOrdered(c, st, rotateAt);
    MergedHas(c, st, rotateAt, cfg.maxRotatedDays, course, 0, []);
    hide Rotate, OrderedDays, Survivors;
  }
}
