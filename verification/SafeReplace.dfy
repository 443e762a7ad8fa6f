/** Replacing a file by way of a backup, any step of which may fail
    (internal/history/history.go, lines 856-889). */
module SafeReplace {
  import opened Wrappers

  /** How a replacement ends. Only Installed is reported as success. */
  datatype Outcome =
    | Installed            // the destination holds the new content
    | InstalledBackupKept  // likewise, but the backup could not be removed and an error is returned
    | Untouched            // the destination is as it was
    | Displaced            // the destination is gone; its content is in the backup only

  /** A destination that does not exist cannot be moved to a backup. */
  ghost predicate Possible(o: Outcome, existed: bool) {
    existed || o == Installed || o == Untouched
  }

  /** The destination's content after the replacement. */
  ghost function Content<C>(prev: Option<C>, next: C, o: Outcome): Option<C> {
    match o
    case Installed | InstalledBackupKept => Some(next)
    case Untouched => prev
    case Displaced => None
  }

  /** The lines that the replacement leaves behind in a backup file. */
  ghost function Kept<L>(prev: Option<seq<L>>, o: Outcome): seq<L> {
    if prev.Some? && (o == InstalledBackupKept || o == Displaced) then prev.value else []
  }

  /** Which system calls of one replacement fail. */
  datatype Faults = Faults(direct: bool, create: bool, close: bool, free: bool,
                           backup: bool, swap: bool, restore: bool, cleanup: bool)

  /** The outcome that a pattern of failures leads to. */
  function OutcomeOf(f: Faults, existed: bool): Outcome {
    if !f.direct then Installed
    else if f.create || f.close || f.free || f.backup || !existed then Untouched
    else if f.swap then (if f.restore then Displaced else Untouched)
    else if f.cleanup then InstalledBackupKept
    else Installed
  }

  /** Possible says exactly which outcomes some pattern of failures leads to. */
  lemma {:induction false} OutcomesExact(o: Outcome, existed: bool)
    ensures Possible(o, existed) <==> exists f :: OutcomeOf(f, existed) == o
  {
    var none := Faults(false, false, false, false, false, false, false, false);
    assert OutcomeOf(none, existed) == Installed;
    assert OutcomeOf(none.(direct := true, create := true), existed) == Untouched;
    assert existed ==> OutcomeOf(none.(direct := true, cleanup := true), existed) == InstalledBackupKept;
    assert existed ==> OutcomeOf(none.(direct := true, swap := true, restore := true), existed) == Displaced;
  }

  /** The destination's old content can still be read somewhere, or the new content is installed. */
  ghost predicate Recoverable<P, C>(files: map<P, C>, dst: P, backup: P, prev: C, next: C) {
    || (dst in files && (files[dst] == prev || files[dst] == next))
    || (backup in files && files[backup] == prev)
  }

  class Disk<P(==), C> {
    var files: map<P, C>
    ghost var trace: seq<map<P, C>>  // the directory after every system call

    constructor (files: map<P, C>)
      ensures this.files == files && trace == []
    {
      this.files := files;
      trace := [];
    }

    method Rename(from: P, to: P, fails: bool) returns (ok: bool)
      modifies this
      ensures ok == (!fails && from in old(files))
      ensures files == if ok then (old(files) - {from})[to := old(files)[from]] else old(files)
      ensures trace == old(trace) + [files]
    {
      ok := !fails && from in files;
      if ok {
        files := (files - {from})[to := files[from]];
      }
      trace := trace + [files];
    }

    method Remove(path: P, fails: bool) returns (ok: bool)
      modifies this
      ensures ok == !fails
      ensures files == if ok then old(files) - {path} else old(files)
      ensures trace == old(trace) + [files]
    {
      ok := !fails;
      if ok {
        files := files - {path};
      }
      trace := trace + [files];
    }

    method Create(path: P, content: C, fails: bool) returns (ok: bool)
      modifies this
      ensures ok == !fails
      ensures files == if ok then old(files)[path := content] else old(files)
      ensures trace == old(trace) + [files]
    {
      ok := !fails;
      if ok {
        files := files[path := content];
      }
      trace := trace + [files];
    }

    /** Moves `temp` over `dst`; `backup` is the fresh name that CreateTemp picks. */
    method ReplaceFileSafely(temp: P, dst: P, backup: P, empty: C, f: Faults) returns (ok: bool)
      requires temp in files && backup !in files && temp != dst && temp != backup && dst != backup
      modifies this
      ensures var o := OutcomeOf(f, dst in old(files));
              && Possible(o, dst in old(files)) && ok == (o == Installed)
              && (if dst in files then Some(files[dst]) else None)
                 == Content(if dst in old(files) then Some(old(files)[dst]) else None, old(files)[temp], o)
              && (o == InstalledBackupKept || o == Displaced ==> backup in files && files[backup] == old(files)[dst])
              && (o == Installed ==> temp !in files && backup !in files)
              && (o == Untouched || o == Displaced ==> temp in files && files[temp] == old(files)[temp])
      ensures forall p :: p != temp && p != dst && p != backup ==>
                (p in files <==> p in old(files)) && (p in files ==> files[p] == old(files)[p])
      ensures |old(trace)| <= |trace| && trace[..|old(trace)|] == old(trace)
      ensures dst in old(files) ==> forall i :: |old(trace)| <= i < |trace| ==>
                Recoverable(trace[i], dst, backup, old(files)[dst], old(files)[temp])
    {
      ok := Rename(temp, dst, f.direct);
      if ok {
        return true;
      }
      ok := Create(backup, empty, f.create);
      if !ok {
        return false;
      }
      if f.close {
        ok := Remove(backup, f.free);
        return false;
      }
      ok := Remove(backup, f.free);
      if !ok {
        return false;
      }
      ok := Rename(dst, backup, f.backup);
      if !ok {
        return false;
      }
      ok := Rename(temp, dst, f.swap);
      if !ok {
        ok := Rename(backup, dst, f.restore);
        return false;
      }
      ok := Remove(backup, f.cleanup);
    }
  }
}
