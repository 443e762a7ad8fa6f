/** A wrong index of the hot file, and what puts it right again: after a prune that fails half-way the index of the old file
    stays, until a restart or a rewrite of the file empties it (internal/history/history.go, lines 60-69, 515-731). */
module HistoryRepair {
  import opened Wrappers
  import opened HistoryLines
  import opened HistoryIndex
  import opened SafeReplace
  import opened HistoryRotation
  import opened HistoryRotationSafety
  import opened HistoryRuns
  import opened HistoryPrune

  /** The prune finds a hot file: there was one, and the rotation did not displace it. */
  ghost predicate FindsFile(c: Codec, cfg: Config, st: State, now: int, course: Course) {
    st.hot.Some? && !(Rewrites(c, cfg, st, now, course) && course.hotOutcome == Displaced)
  }

  /** The events that empty the index: a restart, and a pruneOld in which the rotation or the prune rewrites the hot file
      with success. */
  ghost predicate Repairs(c: Codec, cfg: Config, st: State, e: Event) {
    match e
    case AppendEvent(_, _) => false
    case QueryEvent(_) => false
    case RestartEvent => true
    case PruneEvent(rotateAt, course, _, o) =>
      || (Rewrites(c, cfg, st, rotateAt, course) && course.hotOutcome == Installed)
      || (FindsFile(c, cfg, st, rotateAt, course) && o == Installed)
  }

  // ----- the index after an event

  lemma {:induction false} RotatedIndex(c: Codec, cfg: Config, st: State, now: int, course: Course)
    ensures var r := Rotated(c, cfg, st, now, course);
            && r.hot == (if FindsFile(c, cfg, st, now, course) then Some(HotBetween(c, cfg, st, now, course)) else None)
            && r.index == (if Rewrites(c, cfg, st, now, course) && course.hotOutcome == Installed then [] else st.index)
  {
    hide Part, OrderedDays, Purged;
    if st.hot.Some? {
      var lines, today := st.hot.value, now / DAY;
      var ordered := OrderedDays(c, lines, today);
      MergeDaysKeep(c, st, lines, today, ordered, []);
      if course.day < |ordered| {
        MergeDaysKeep(c, st, lines, today, ordered[..course.day], []);
      }
      hide MergeDays;
    } else {
      NothingOrdered(c, st, now);
    }
  }

  lemma {:induction false} PrunedIndex(c: Codec, cfg: Config, st: State, rotateAt: int, course: Course, pruneAt: int, o: Outcome)
    ensures var after := PruneOld(c, st, cfg, rotateAt, course, pruneAt, o);
            && after.hot == (if !FindsFile(c, cfg, st, rotateAt, course) || o == Displaced then None
                             else Some(Left(c, cfg, HotBetween(c, cfg, st, rotateAt, course), pruneAt, o)))
            && after.index == (if Repairs(c, cfg, st, PruneEvent(rotateAt, course, pruneAt, o)) then [] else st.index)
  {
    RotatedIndex(c, cfg, st, rotateAt, course);
    hide Rotate, HotBetween, Survivors, Rewrites;
  }

  /** The hot file after an event does not depend on the index, and an event either empties the index or keeps the entries
      that it has. */
  lemma {:induction false} IndexAfter(c: Codec, cfg: Config, st: State, index: seq<IndexEntry>, e: Event)
    requires index != []
    ensures var after := Step(c, cfg, st.(index := index), e);
            && after.hot == Step(c, cfg, st, e).hot
            && if Repairs(c, cfg, st, e) then after.index == [] else index <= after.index
  {
    match e
    case AppendEvent(_, _) =>
    case QueryEvent(_) =>
    case RestartEvent =>
    case PruneEvent(rotateAt, course, pruneAt, o) =>
      PrunedIndex(c, cfg, st, rotateAt, course, pruneAt, o);
      PrunedIndex(c, cfg, st.(index := index), rotateAt, course, pruneAt, o);
      assert HotLines(st.(index := index)) == HotLines(st);
      hide PruneOld, OrderedDays, Left, Part;
  }

  lemma {:induction false} EntryBehindFile(c: Codec, st: State)
    requires st.index != [] && st.index[0].offset > Offset(HotLines(st), |HotLines(st)|)
    ensures !IndexSound(c, st)
  {
    if st.hot.Some? {
      forall at: seq<nat> | Places(c, st.hot.value, at) && st.index == IndexAt(c, st.hot.value, at)
        ensures false
      {
        OffsetsGrow(st.hot.value, at[0], |st.hot.value|);
      }
    }
  }

  /** The events after which the index is right, whatever it was before, are exactly those that empty it. */
  lemma {:induction false} IndexIsRepairedIff(c: Codec, cfg: Config, st: State, e: Event)
    ensures Repairs(c, cfg, st, e) <==> forall index: seq<IndexEntry> :: IndexSound(c, Step(c, cfg, st.(index := index), e))
  {
    var hot := HotLines(Step(c, cfg, st, e));
    if Repairs(c, cfg, st, e) {
      forall index: seq<IndexEntry>
        ensures IndexSound(c, Step(c, cfg, st.(index := index), e))
      {
        RepairedIsSound(c, cfg, st.(index := index), e);
      }
    } else {
      var wild := [IndexEntry(0, Offset(hot, |hot|) + 1)];
      IndexAfter(c, cfg, st, wild, e);
      hide Step, Repairs;
      EntryBehindFile(c, Step(c, cfg, st.(index := wild), e));
    }
  }

  lemma {:induction false} RepairedIsSound(c: Codec, cfg: Config, st: State, e: Event)
    requires Repairs(c, cfg, st, e)
    ensures IndexSound(c, Step(c, cfg, st, e))
  {
    EmptyIndex(c, HotLines(Step(c, cfg, st, e)));
    if e.PruneEvent? {
      PrunedIndex(c, cfg, st, e.rotateAt, e.course, e.pruneAt, e.outcome);
      hide PruneOld, IndexOfSome, Rewrites;
    }
  }

  // ----- the files stay sound, whatever becomes of a prune

  /** The codec reads back what is appended. */
  ghost predicate Readable(c: Codec, events: seq<Event>) {
    forall i :: 0 <= i < |events| && events[i].AppendEvent? ==> RoundTrips(c, events[i].record)
  }

  ghost predicate StampedRun(c: Codec, cfg: Config, st: State, events: seq<Event>)
    decreases |events|
  {
    events == [] || (Stamped(c, st, events[0]) && StampedRun(c, cfg, Step(c, cfg, st, events[0]), events[1..]))
  }

  lemma {:induction false} PruneSelects(c: Codec, cfg: Config, st: State, rotateAt: int, course: Course, pruneAt: int, o: Outcome)
    ensures Selection(HotLines(PruneOld(c, st, cfg, rotateAt, course, pruneAt, o)), HotLines(st))
  {
    var between := HotBetween(c, cfg, st, rotateAt, course);
    AfterPruneOld(c, cfg, st, rotateAt, course, pruneAt, o);
    PartIsSelection(c, HotLines(st), rotateAt / DAY, None);
    SurvivorsAreSelection(c, between, cfg, pruneAt);
    WholeIsSelection(HotLines(st));
    WholeIsSelection(between);
    NoneIsSelection(HotLines(st));
    NoneIsSelection(between);
    hide PruneOld, Selection, Rewrites, Part, Survivors;
    SelectionOfSelection(Left(c, cfg, between, pruneAt, o), between, HotLines(st));
  }

  lemma {:induction false} NoneIsSelection(lines: seq<Line>)
    ensures Selection([], lines)
  {
    assert SelectedBy([], lines, []);
  }

  /** Every event keeps clean lines and sorted day files, and the order of the timestamps if appends are stamped in
      order. */
  lemma {:induction false} StepKeepsFiles(c: Codec, cfg: Config, st: State, e: Event)
    requires FilesSound(c, st) && (e.AppendEvent? ==> RoundTrips(c, e.record))
    ensures FilesSound(c, Step(c, cfg, st, e))
    ensures InOrder(c, HotLines(st)) && Stamped(c, st, e) ==> InOrder(c, HotLines(Step(c, cfg, st, e)))
  {
    match e
    case AppendEvent(r, io) =>
      var line := LineToAppend(c, r);
      if line.Some? && Writes(io) {
        hide DaysSorted;
        if InOrder(c, HotLines(st)) && Stamped(c, st, e) {
          InOrderSnoc(c, HotLines(st), line.value);
        }
        hide InOrder;
      }
    case QueryEvent(_) =>
    case RestartEvent =>
    case PruneEvent(rotateAt, course, pruneAt, o) =>
      RotationKeepsDaysSorted(c, st, rotateAt, cfg.maxRotatedDays, course);
      AfterPruneOld(c, cfg, st, rotateAt, course, pruneAt, o);
      PruneSelects(c, cfg, st, rotateAt, course, pruneAt, o);
      SelectionKeeps(c, HotLines(PruneOld(c, st, cfg, rotateAt, course, pruneAt, o)), HotLines(st));
      hide PruneOld, Rotate, DaysSorted, AllClean, InOrder, Selection, HotBetween, Left;
  }

  lemma {:induction false} RunKeepsFiles(c: Codec, cfg: Config, st: State, events: seq<Event>)
    requires FilesSound(c, st) && Readable(c, events)
    ensures FilesSound(c, Run(c, cfg, st, events))
    ensures InOrder(c, HotLines(st)) && StampedRun(c, cfg, st, events) ==> InOrder(c, HotLines(Run(c, cfg, st, events)))
    decreases |events|
  {
    if events != [] {
      hide FilesSound, InOrder, Step, Stamped, RoundTrips;
      StepKeepsFiles(c, cfg, st, events[0]);
      assert forall i :: 0 <= i < |events| - 1 ==> events[1..][i] == events[i + 1];
      RunKeepsFiles(c, cfg, Step(c, cfg, st, events[0]), events[1..]);
    }
  }

  // ----- only what happens since the last repair matters

  lemma {:induction false} RunConcat(c: Codec, cfg: Config, st: State, a: seq<Event>, b: seq<Event>)
    ensures Run(c, cfg, st, a + b) == Run(c, cfg, Run(c, cfg, st, a), b)
    decreases |a|
  {
    hide Step;
    if a == [] {
      assert a + b == b;
    } else {
      assert (a + b)[1..] == a[1..] + b;
      RunConcat(c, cfg, Step(c, cfg, st, a[0]), a[1..], b);
    }
  }

  /** After an event that repairs the index the store is sound, whatever the index was at the beginning and whatever became
      of earlier prunes, and stays so as long as no prune leaves a stale index again. If appends were stamped in order the
      full invariant holds after the repair. */
  lemma {:induction false} RepairedRunIsSound(c: Codec, cfg: Config, st: State, before: seq<Event>, e: Event, after: seq<Event>)
    requires FilesSound(c, st) && Readable(c, before) && Repairs(c, cfg, Run(c, cfg, st, before), e) && TameRun(c, cfg, after)
    ensures Sound(c, Run(c, cfg, st, before + [e])) && Sound(c, Run(c, cfg, st, before + [e] + after))
    ensures InOrder(c, HotLines(st)) && StampedRun(c, cfg, st, before) ==> Inv(c, Run(c, cfg, st, before + [e]))
  {
    var reached := Run(c, cfg, st, before);
    RunKeepsFiles(c, cfg, st, before);
    RepairedIsSound(c, cfg, reached, e);
    StepKeepsFiles(c, cfg, reached, e);
    assert Stamped(c, reached, e);
    hide Run, Repairs, Step, IndexSound, FilesSound, InOrder, StampedRun, Tame;
    RunSnoc(c, cfg, st, before, e);
    RunConcat(c, cfg, st, before + [e], after);
    RunKeepsSound(c, cfg, Step(c, cfg, reached, e), after);
  }
}
