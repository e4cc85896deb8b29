/**
 * The upload loop as a specification: one entry of the file list at a time
 * (`Step`), and the whole list as a left fold (`Run`) that stops at the first
 * entry whose local file does not exist, as the exception raised by
 * `os.path.getmtime` leaves `upload`. The lemmas state what one entry does to
 * the remote store for each outcome, that every entry before a missing file is
 * handled whatever the earlier outcomes, and that repeating an unforced batch
 * writes nothing.
 */
module Batch {
  import opened Wrappers
  import opened Paths
  import opened Store
  import opened Policy

  /** What the uploader reads of a local file: its mtime in whole seconds and its bytes. */
  datatype LocalFile = LocalFile(mtime: int, content: Bytes)

  datatype StepResult = Aborted | Done(drive: Drive, outcome: Outcome)

  /** The remote store after a batch, one outcome per handled entry, and the entry that stopped it, if any. */
  datatype Report = Report(drive: Drive, outcomes: seq<Outcome>, failed: Option<string>)

  const RootName: string := "root"

  /** `find_folder`: "root" as is, else the first folder of that name, else a new folder in the top level. */
  function ResolveFolder(d: Drive, folder: string): (Drive, ParentRef)
  {
    if folder == RootName then (d, Root)
    else match Lookup(d.files, FolderNamed(folder))
      case Some(f) => (d, Id(f.id))
      case None => (Create(d, folder, true, [Root], None, []), Id(|d.files|))
  }

  /**
   * The index, in the store after folder resolution, of the file
   * `find_drive_files` returns for `entry`. In a valid store a match means
   * that resolution created no folder, so the index is one of the store's own.
   */
  function MatchIndex(d: Drive, entry: string, folder: string): (r: Option<nat>)
    ensures r.Some? ==> r.value < |ResolveFolder(d, folder).0.files|
    ensures Valid(d) && r.Some? ==> ResolveFolder(d, folder).0 == d
  {
    var (d1, ref) := ResolveFolder(d, folder);
    NewFolderIsEmpty(d, BaseName(entry), folder);
    First(d1.files, FileIn(BaseName(entry), ref))
  }

  /** The write an outcome calls for: a new file in the folder, an update of the match, or none. */
  function Apply(d: Drive, ref: ParentRef, name: string, found: Option<DriveFile>, local: LocalFile, outcome: Outcome): Drive
    requires outcome == Updated ==> found.Some?
  {
    match outcome
    case Created => Create(d, name, false, [ref], Some(local.mtime), local.content)
    case Updated => Update(d, found.value.id, name, Some(local.mtime), local.content)
    case _ => d
  }

  /** One pass of the loop body of `upload` for `entry`. */
  function Step(d: Drive, entry: string, folder: string, fs: map<string, LocalFile>, force: bool): StepResult
  {
    if entry !in fs then Aborted
    else
      var (d1, ref) := ResolveFolder(d, folder);
      var name := BaseName(entry);
      var found := Lookup(d1.files, FileIn(name, ref));
      var outcome := Decide(fs[entry].mtime, found, force);
      Done(Apply(d1, ref, name, found, fs[entry], outcome), outcome)
  }

  /** `upload` over the whole file list. */
  function Run(d: Drive, entries: seq<string>, folder: string, fs: map<string, LocalFile>, force: bool): Report
  {
    RunPrefix(d, entries, |entries|, folder, fs, force)
  }

  /** `upload` over the first `k` entries, in order: a left fold of `Step` that stops at the first abort. */
  function RunPrefix(d: Drive, entries: seq<string>, k: nat, folder: string, fs: map<string, LocalFile>, force: bool): Report
    requires k <= |entries|
    decreases k, 1
  {
    if k == 0 then Report(d, [], None) else RunThrough(d, entries, k, folder, fs, force)
  }

  /** The first `k > 0` entries: the batch up to entry `k - 1`, then that entry unless the batch has stopped. */
  function RunThrough(d: Drive, entries: seq<string>, k: nat, folder: string, fs: map<string, LocalFile>, force: bool): Report
    requires 0 < k <= |entries|
    decreases k, 0
  {
    var r := RunPrefix(d, entries, k - 1, folder, fs, force);
    var entry := entries[k - 1];
    if r.failed.Some? then r
    else match Step(r.drive, entry, folder, fs, force)
      case Aborted => r.(failed := Some(entry))
      case Done(d', o) => Report(d', r.outcomes + [o], None)
  }

  // ----- folder resolution -----

  /** The stored timestamp did not decrease: equal, or both present and not smaller. */
  ghost predicate NotOlder(a: Option<int>, b: Option<int>)
  {
    a == b || (a.Some? && b.Some? && a.value <= b.value)
  }

  /** `b` keeps every file of `a` in place with a timestamp that is not older, and may add files. */
  ghost predicate Grows(a: Drive, b: Drive)
  {
    && Extends(a.files, b.files)
    && forall i :: 0 <= i < |a.files| ==> NotOlder(a.files[i].modified, b.files[i].modified)
  }

  lemma GrowsReflexive(d: Drive)
    ensures Grows(d, d)
  {
  }

  /** Appending a file is growth. */
  lemma AppendGrows(d: Drive, f: DriveFile)
    ensures Grows(d, Drive(d.files + [f]))
  {
    assert forall k :: 0 <= k < |d.files| ==> (d.files + [f])[k] == d.files[k];
  }

  lemma GrowsTransitive(a: Drive, b: Drive, c: Drive)
    requires Grows(a, b) && Grows(b, c)
    ensures Grows(a, c)
  {
  }

  /**
   * Folder resolution: "root" needs no lookup or creation; otherwise the
   * result is a folder with that name (the first one listed) and at most one
   * folder is created, only when none existed. Resolving again finds the same
   * folder and creates nothing.
   */
  lemma ResolveFolderSpec(d: Drive, folder: string)
    requires Valid(d)
    ensures var (d1, ref) := ResolveFolder(d, folder);
      && Valid(d1) && Grows(d, d1) && Known([ref], |d1.files|)
      && (folder == RootName ==> d1 == d && ref == Root)
      && (folder != RootName ==>
            && ref.Id?
            && First(d1.files, FolderNamed(folder)) == Some(ref.id))
      && (d1 == d || (
            && First(d.files, FolderNamed(folder)).None?
            && d1.files[..|d.files|] == d.files
            && |d1.files| == |d.files| + 1
            && d1.files[|d.files|].isFolder && d1.files[|d.files|].name == folder
            && d1.files[|d.files|].parents == [Root] && ref == Id(|d.files|)))
      && ResolveFolder(d1, folder) == (d1, ref)
  {
    if folder != RootName {
      var q := FolderNamed(folder);
      if First(d.files, q).None? {
        var f := DriveFile(|d.files|, folder, true, [Root], false, None, []);
        assert ResolveFolder(d, folder).0.files == d.files + [f];
        FirstAppend(d.files, f, q);
        assert (d.files + [f])[..|d.files|] == d.files;
      }
    }
  }

  /** A resolution that creates nothing stays so in any store that extends the old one. */
  lemma ResolveStable(a: Drive, b: Drive, folder: string, ref: ParentRef)
    requires ResolveFolder(a, folder) == (a, ref) && Extends(a.files, b.files)
    ensures ResolveFolder(b, folder) == (b, ref)
  {
    if folder != RootName {
      FirstStable(a.files, b.files, FolderNamed(folder));
    }
  }

  /** A folder that resolution has just created has no children, so nothing can match in it. */
  lemma NewFolderIsEmpty(d: Drive, name: string, folder: string)
    ensures var (d1, ref) := ResolveFolder(d, folder);
      Valid(d) && d1 != d ==> First(d1.files, FileIn(name, ref)).None?
  {
    if Valid(d) && folder != RootName && Lookup(d.files, FolderNamed(folder)).None? {
      var f := DriveFile(|d.files|, folder, true, [Root], false, None, []);
      var q := FileIn(name, Id(|d.files|));
      assert ResolveFolder(d, folder) == (Drive(d.files + [f]), Id(|d.files|));
      forall j | 0 <= j < |d.files|
        ensures !Matches(d.files[j], q)
      {
        assert Known(d.files[j].parents, |d.files|);
      }
      FirstNone(d.files, q);
      FirstAppend(d.files, f, q);
    }
  }

  // ----- one entry -----

  /** With no match, the step creates the file in the resolved folder. */
  lemma UnmatchedStep(d: Drive, entry: string, folder: string, fs: map<string, LocalFile>, force: bool)
    requires entry in fs && MatchIndex(d, entry, folder).None?
    ensures var (d1, ref) := ResolveFolder(d, folder);
      Step(d, entry, folder, fs, force) ==
        Done(Create(d1, BaseName(entry), false, [ref], Some(fs[entry].mtime), fs[entry].content), Created)
  {
  }

  /** With a match, folder resolution created nothing and the step acts on the matched record. */
  lemma MatchedStep(d: Drive, entry: string, folder: string, fs: map<string, LocalFile>, force: bool)
    requires entry in fs && ResolveFolder(d, folder).0 == d && MatchIndex(d, entry, folder).Some?
    ensures var i := MatchIndex(d, entry, folder).value;
      var ref := ResolveFolder(d, folder).1;
      var o := Decide(fs[entry].mtime, Some(d.files[i]), force);
      && Matches(d.files[i], FileIn(BaseName(entry), ref))
      && First(d.files, FileIn(BaseName(entry), ref)) == Some(i)
      && Step(d, entry, folder, fs, force) == Done(Apply(d, ref, BaseName(entry), Some(d.files[i]), fs[entry], o), o)
  {
  }

  /** Updating a matched record by its id rewrites its timestamp and content in place and keeps every entry. */
  lemma UpdateMatched(d: Drive, i: nat, q: Query, local: LocalFile)
    requires Valid(d) && i < |d.files| && q.FileIn? && Matches(d.files[i], q)
    ensures var d2 := Update(d, d.files[i].id, q.name, Some(local.mtime), local.content);
      && d2.files == d.files[i := d.files[i].(modified := Some(local.mtime), content := local.content)]
      && Extends(d.files, d2.files)
  {
  }

  /**
   * No match in the folder: whatever `force` is, a new file named after the
   * last path component is created in that folder with `modified` set to the
   * local mtime and the local content; no existing file changes, and the
   * lookup now finds the new file.
   */
  lemma StepCreatesWhenAbsent(d: Drive, entry: string, folder: string, fs: map<string, LocalFile>, force: bool)
    requires entry in fs && MatchIndex(d, entry, folder).None?
    ensures var (d1, ref) := ResolveFolder(d, folder);
      var s := Step(d, entry, folder, fs, force);
      && s.Done? && s.outcome == Created
      && |s.drive.files| == |d1.files| + 1 && s.drive.files[..|d1.files|] == d1.files
      && var f := s.drive.files[|d1.files|];
      && f.name == BaseName(entry) && f.parents == [ref] && !f.trashed
      && f.modified == Some(fs[entry].mtime) && f.content == fs[entry].content
      && First(s.drive.files, FileIn(BaseName(entry), ref)) == Some(|d1.files|)
  {
    var (d1, ref) := ResolveFolder(d, folder);
    var name := BaseName(entry);
    var f := DriveFile(|d1.files|, name, false, [ref], false, Some(fs[entry].mtime), fs[entry].content);
    UnmatchedStep(d, entry, folder, fs, force);
    FirstAppend(d1.files, f, FileIn(name, ref));
    assert (d1.files + [f])[..|d1.files|] == d1.files;
  }

  /** An update of the matched file: only that file changes, and the lookup still finds it. */
  lemma UpdateEffect(d: Drive, entry: string, folder: string, fs: map<string, LocalFile>, force: bool)
    requires Valid(d) && entry in fs && MatchIndex(d, entry, folder).Some?
    requires Decide(fs[entry].mtime, Some(d.files[MatchIndex(d, entry, folder).value]), force) == Updated
    ensures var i := MatchIndex(d, entry, folder).value;
      var s := Step(d, entry, folder, fs, force);
      && s == Done(s.drive, Updated)
      && s.drive.files == d.files[i := d.files[i].(modified := Some(fs[entry].mtime), content := fs[entry].content)]
      && Extends(d.files, s.drive.files)
      && ResolveFolder(s.drive, folder).0 == s.drive
      && MatchIndex(s.drive, entry, folder) == Some(i)
  {
    var i := MatchIndex(d, entry, folder).value;
    var ref := ResolveFolder(d, folder).1;
    var q := FileIn(BaseName(entry), ref);
    MatchedStep(d, entry, folder, fs, force);
    UpdateMatched(d, i, q, fs[entry]);
    var d2 := Step(d, entry, folder, fs, force).drive;
    ResolveStable(d, d2, folder, ref);
    FirstStable(d.files, d2.files, q);
  }

  /** Forced, with a match: that file is overwritten unconditionally and nothing else changes. */
  lemma StepForceUpdates(d: Drive, entry: string, folder: string, fs: map<string, LocalFile>)
    requires Valid(d) && entry in fs && MatchIndex(d, entry, folder).Some?
    ensures var s := Step(d, entry, folder, fs, true);
      var i := MatchIndex(d, entry, folder).value;
      && s.Done? && s.outcome == Updated
      && s.drive.files == d.files[i := d.files[i].(modified := Some(fs[entry].mtime), content := fs[entry].content)]
      && MatchIndex(s.drive, entry, folder) == Some(i)
  {
    UpdateEffect(d, entry, folder, fs, true);
  }

  /** Unforced, with a match whose stored timestamp is older: as forced, the file is overwritten and nothing else changes. */
  lemma StepUpdatesOlder(d: Drive, entry: string, folder: string, fs: map<string, LocalFile>)
    requires Valid(d) && entry in fs && MatchIndex(d, entry, folder).Some?
    requires var m := d.files[MatchIndex(d, entry, folder).value].modified;
      m.Some? && m.value < fs[entry].mtime
    ensures var s := Step(d, entry, folder, fs, false);
      var i := MatchIndex(d, entry, folder).value;
      && s.Done? && s.outcome == Updated
      && s.drive.files == d.files[i := d.files[i].(modified := Some(fs[entry].mtime), content := fs[entry].content)]
      && MatchIndex(s.drive, entry, folder) == Some(i)
  {
    UpdateEffect(d, entry, folder, fs, false);
  }

  /** Unforced, with a match lacking the `modified` property: skipped, and the store is unchanged. */
  lemma StepSkipsWithoutMetadata(d: Drive, entry: string, folder: string, fs: map<string, LocalFile>)
    requires Valid(d) && entry in fs && MatchIndex(d, entry, folder).Some?
    requires d.files[MatchIndex(d, entry, folder).value].modified.None?
    ensures Step(d, entry, folder, fs, false) == Done(d, SkippedNoMetadata)
  {
    MatchedStep(d, entry, folder, fs, false);
    var i := MatchIndex(d, entry, folder).value;
    assert Decide(fs[entry].mtime, Some(d.files[i]), false) == SkippedNoMetadata;
  }

  /** Unforced, with a match stored as newer than the local file: never overwritten, the store is unchanged. */
  lemma StepNeverClobbersNewer(d: Drive, entry: string, folder: string, fs: map<string, LocalFile>)
    requires Valid(d) && entry in fs && MatchIndex(d, entry, folder).Some?
    requires var m := d.files[MatchIndex(d, entry, folder).value].modified;
      m.Some? && m.value > fs[entry].mtime
    ensures Step(d, entry, folder, fs, false) == Done(d, SkippedNewer)
  {
    MatchedStep(d, entry, folder, fs, false);
    var i := MatchIndex(d, entry, folder).value;
    assert Decide(fs[entry].mtime, Some(d.files[i]), false) == SkippedNewer;
  }

  /** Unforced, with a match stored at the same time as the local file: skipped, the store is unchanged. */
  lemma StepSkipsSameAge(d: Drive, entry: string, folder: string, fs: map<string, LocalFile>)
    requires Valid(d) && entry in fs && MatchIndex(d, entry, folder).Some?
    requires d.files[MatchIndex(d, entry, folder).value].modified == Some(fs[entry].mtime)
    ensures Step(d, entry, folder, fs, false) == Done(d, SkippedSameAge)
  {
    MatchedStep(d, entry, folder, fs, false);
    var i := MatchIndex(d, entry, folder).value;
    assert Decide(fs[entry].mtime, Some(d.files[i]), false) == SkippedSameAge;
  }

  // ----- the batch -----

  /** A step stops the batch exactly when the local file is missing. */
  lemma StepAborts(d: Drive, entry: string, folder: string, fs: map<string, LocalFile>, force: bool)
    ensures Step(d, entry, folder, fs, force).Aborted? <==> entry !in fs
  {
  }

  /** Entry `k - 1` of a batch: nothing after a stop, a stop at a missing file, else one more step. */
  lemma RunLast(d: Drive, xs: seq<string>, k: nat, folder: string, fs: map<string, LocalFile>, force: bool)
    requires 0 < k <= |xs|
    ensures var r0 := RunPrefix(d, xs, k - 1, folder, fs, force);
      var e := xs[k - 1];
      var r := RunPrefix(d, xs, k, folder, fs, force);
      && (r0.failed.Some? ==> r == r0)
      && (r0.failed.None? && e !in fs ==> r == r0.(failed := Some(e)))
      && (r0.failed.None? && e in fs ==>
            var s := Step(r0.drive, e, folder, fs, force);
            s.Done? && r == Report(s.drive, r0.outcomes + [s.outcome], None))
  {
    StepAborts(RunPrefix(d, xs, k - 1, folder, fs, force).drive, xs[k - 1], folder, fs, force);
  }

  /** The step of an entry with a local file, from the resolved folder and the first matching file in it. */
  lemma StepOf(d: Drive, entry: string, folder: string, fs: map<string, LocalFile>, force: bool,
               d1: Drive, ref: ParentRef, found: Option<DriveFile>)
    requires entry in fs && (d1, ref) == ResolveFolder(d, folder)
    requires found == Lookup(d1.files, FileIn(BaseName(entry), ref))
    ensures var o := Decide(fs[entry].mtime, found, force);
      Step(d, entry, folder, fs, force) == Done(Apply(d1, ref, BaseName(entry), found, fs[entry], o), o)
  {
  }

  /** A batch that has not stopped after `i` entries and meets a missing local file ends there. */
  lemma RunPrefixAbort(d: Drive, xs: seq<string>, i: nat, folder: string, fs: map<string, LocalFile>, force: bool,
                       d0: Drive, outcomes: seq<Outcome>)
    requires i < |xs| && RunPrefix(d, xs, i, folder, fs, force) == Report(d0, outcomes, None)
    requires xs[i] !in fs
    ensures Run(d, xs, folder, fs, force) == Report(d0, outcomes, Some(xs[i]))
  {
    RunLast(d, xs, i + 1, folder, fs, force);
    RunKeepsFailure(d, xs, i + 1, |xs|, folder, fs, force);
  }

  /**
   * What a report over the first `k` entries says: one outcome per handled
   * entry, every handled entry has a local file, and the batch stopped
   * exactly at the first entry without one, if there is such an entry.
   */
  ghost predicate Reports(r: Report, xs: seq<string>, k: nat, fs: map<string, LocalFile>)
    requires k <= |xs|
  {
    && |r.outcomes| <= k
    && (forall j :: 0 <= j < |r.outcomes| ==> xs[j] in fs)
    && (r.failed.None? <==> forall j :: 0 <= j < k ==> xs[j] in fs)
    && (r.failed.None? ==> |r.outcomes| == k)
    && (r.failed.Some? ==> |r.outcomes| < k && xs[|r.outcomes|] !in fs && r.failed.value == xs[|r.outcomes|])
  }

  /**
   * Entries are handled in order and independently: the batch stops only at
   * the first entry whose local file is missing, so every entry before it is
   * handled whatever the earlier outcomes (a skip does not end the loop).
   */
  lemma {:induction false} RunReport(d: Drive, xs: seq<string>, k: nat, folder: string, fs: map<string, LocalFile>, force: bool)
    requires k <= |xs|
    ensures Reports(RunPrefix(d, xs, k, folder, fs, force), xs, k, fs)
    decreases k
  {
    if k > 0 {
      RunReport(d, xs, k - 1, folder, fs, force);
      RunLast(d, xs, k, folder, fs, force);
      var r0 := RunPrefix(d, xs, k - 1, folder, fs, force);
      var s := Step(r0.drive, xs[k - 1], folder, fs, force);
      ReportsOneMore(r0, s, RunPrefix(d, xs, k, folder, fs, force), xs, k, fs);
    }
  }

  /** The inductive step of RunReport, over the reports alone: `s` is the step taken on entry `k - 1`, if any. */
  lemma ReportsOneMore(r0: Report, s: StepResult, r: Report, xs: seq<string>, k: nat, fs: map<string, LocalFile>)
    requires 0 < k <= |xs| && Reports(r0, xs, k - 1, fs)
    requires r0.failed.Some? ==> r == r0
    requires r0.failed.None? && xs[k - 1] !in fs ==> r == r0.(failed := Some(xs[k - 1]))
    requires r0.failed.None? && xs[k - 1] in fs ==> s.Done? && r == Report(s.drive, r0.outcomes + [s.outcome], None)
    ensures Reports(r, xs, k, fs)
  {
    if r0.failed.None? && xs[k - 1] in fs {
      assert forall j :: 0 <= j < k - 1 ==> (r0.outcomes + [s.outcome])[j] == r0.outcomes[j];
    }
  }

  /** Two reports over the same entries and local files handle the same entries and stop at the same one. */
  lemma ReportsAgree(r1: Report, r2: Report, xs: seq<string>, k: nat, fs: map<string, LocalFile>)
    requires k <= |xs|
    requires Reports(r1, xs, k, fs) && Reports(r2, xs, k, fs)
    ensures r1.failed == r2.failed && |r1.outcomes| == |r2.outcomes|
  {
  }

  /** Once the batch has stopped, the entries after the stop change nothing. */
  lemma {:induction false} RunKeepsFailure(d: Drive, xs: seq<string>, k: nat, n: nat, folder: string, fs: map<string, LocalFile>, force: bool)
    requires k <= n <= |xs| && RunPrefix(d, xs, k, folder, fs, force).failed.Some?
    ensures RunPrefix(d, xs, n, folder, fs, force) == RunPrefix(d, xs, k, folder, fs, force)
    decreases n
  {
    if k < n {
      RunKeepsFailure(d, xs, k, n - 1, folder, fs, force);
      RunLast(d, xs, n, folder, fs, force);
    }
  }

  /** An entry is settled when an unforced pass over it would write nothing. */
  ghost predicate Settled(d: Drive, entry: string, folder: string, fs: map<string, LocalFile>)
  {
    entry in fs ==>
      && ResolveFolder(d, folder).0 == d
      && MatchIndex(d, entry, folder).Some?
      && var m := d.files[MatchIndex(d, entry, folder).value].modified;
      (m.None? || m.value >= fs[entry].mtime)
  }

  /** Entry `j` of the file list is settled. */
  ghost predicate SettledAt(d: Drive, xs: seq<string>, j: nat, folder: string, fs: map<string, LocalFile>)
    requires j < |xs|
  {
    Settled(d, xs[j], folder, fs)
  }

  /** A settled entry stays settled while the store only grows: its match stays first and its timestamp does not move back. */
  lemma SettledStable(a: Drive, b: Drive, entry: string, folder: string, fs: map<string, LocalFile>)
    requires Settled(a, entry, folder, fs) && Grows(a, b)
    ensures Settled(b, entry, folder, fs)
  {
    if entry in fs {
      var ref := ResolveFolder(a, folder).1;
      var q := FileIn(BaseName(entry), ref);
      var i := MatchIndex(a, entry, folder).value;
      assert ResolveFolder(a, folder) == (a, ref);
      assert First(a.files, q) == Some(i);
      ResolveStable(a, b, folder, ref);
      FirstStable(a.files, b.files, q);
      assert MatchIndex(b, entry, folder) == Some(i);
      assert NotOlder(a.files[i].modified, b.files[i].modified);
    }
  }

  /** A settled entry is skipped by an unforced step, and the store is left as it is. */
  lemma SettledStepSkips(d: Drive, entry: string, folder: string, fs: map<string, LocalFile>)
    requires Settled(d, entry, folder, fs) && entry in fs
    ensures var s := Step(d, entry, folder, fs, false);
      s.Done? && s.drive == d && s.outcome.IsSkip()
  {
    MatchedStep(d, entry, folder, fs, false);
    var i := MatchIndex(d, entry, folder).value;
    assert Decide(fs[entry].mtime, Some(d.files[i]), false).IsSkip();
  }

  /** The unforced step that creates: the store only grows, and the new file settles the entry. */
  lemma CreateSettles(d: Drive, entry: string, folder: string, fs: map<string, LocalFile>)
    requires Valid(d) && entry in fs && MatchIndex(d, entry, folder).None?
    ensures var s := Step(d, entry, folder, fs, false);
      s.Done? && Valid(s.drive) && Grows(d, s.drive) && Settled(s.drive, entry, folder, fs)
  {
    ResolveFolderSpec(d, folder);
    var (d1, ref) := ResolveFolder(d, folder);
    var name := BaseName(entry);
    var q := FileIn(name, ref);
    var f := DriveFile(|d1.files|, name, false, [ref], false, Some(fs[entry].mtime), fs[entry].content);
    var d2 := Drive(d1.files + [f]);
    UnmatchedStep(d, entry, folder, fs, false);
    assert Step(d, entry, folder, fs, false) == Done(d2, Created);
    assert First(d1.files, q).None?;
    AppendGrows(d1, f);
    GrowsTransitive(d, d1, d2);
    ResolveStable(d1, d2, folder, ref);
    FirstAppend(d1.files, f, q);
    assert MatchIndex(d2, entry, folder) == Some(|d1.files|);
    assert d2.files[|d1.files|] == f;
  }

  /** The unforced step that updates: the store only grows, and the updated file settles the entry. */
  lemma UpdateSettles(d: Drive, entry: string, folder: string, fs: map<string, LocalFile>)
    requires Valid(d) && entry in fs && MatchIndex(d, entry, folder).Some?
    requires Decide(fs[entry].mtime, Some(d.files[MatchIndex(d, entry, folder).value]), false) == Updated
    ensures var s := Step(d, entry, folder, fs, false);
      s.Done? && Valid(s.drive) && Grows(d, s.drive) && Settled(s.drive, entry, folder, fs)
  {
    var i := MatchIndex(d, entry, folder).value;
    UnforcedWriteMovesForward(fs[entry].mtime, Some(d.files[i]));
    UpdateEffect(d, entry, folder, fs, false);
    var d2 := Step(d, entry, folder, fs, false).drive;
    assert d2.files[i].modified == Some(fs[entry].mtime);
    assert forall k :: 0 <= k < |d.files| && k != i ==> d2.files[k] == d.files[k];
    assert Grows(d, d2);
  }

  /** An unforced step keeps the store valid, only lets it grow, and leaves its entry settled. */
  lemma StepSettles(d: Drive, entry: string, folder: string, fs: map<string, LocalFile>)
    requires Valid(d) && entry in fs
    ensures var s := Step(d, entry, folder, fs, false);
      s.Done? && Valid(s.drive) && Grows(d, s.drive) && Settled(s.drive, entry, folder, fs)
  {
    var m := MatchIndex(d, entry, folder);
    if m.None? {
      CreateSettles(d, entry, folder, fs);
    } else if Decide(fs[entry].mtime, Some(d.files[m.value]), false) == Updated {
      UpdateSettles(d, entry, folder, fs);
    } else {
      MatchedStep(d, entry, folder, fs, false);
      assert Decide(fs[entry].mtime, Some(d.files[m.value]), false).IsSkip();
      GrowsReflexive(d);
    }
  }

  /** Settled entries stay settled while the store grows. */
  lemma AllSettledStable(a: Drive, b: Drive, xs: seq<string>, k: nat, folder: string, fs: map<string, LocalFile>)
    requires k <= |xs| && Grows(a, b)
    requires forall j :: 0 <= j < k ==> SettledAt(a, xs, j, folder, fs)
    ensures forall j :: 0 <= j < k ==> SettledAt(b, xs, j, folder, fs)
  {
    forall j | 0 <= j < k
      ensures SettledAt(b, xs, j, folder, fs)
    {
      assert SettledAt(a, xs, j, folder, fs);
      SettledStable(a, b, xs[j], folder, fs);
    }
  }

  /** Entries settled before a step stay settled, and the step's own entry joins them. */
  lemma SettledExtend(a: Drive, b: Drive, xs: seq<string>, k: nat, folder: string, fs: map<string, LocalFile>)
    requires 0 < k <= |xs| && Grows(a, b)
    requires forall j :: 0 <= j < k - 1 ==> SettledAt(a, xs, j, folder, fs)
    requires Settled(b, xs[k - 1], folder, fs)
    ensures forall j :: 0 <= j < k ==> SettledAt(b, xs, j, folder, fs)
  {
    AllSettledStable(a, b, xs, k - 1, folder, fs);
    assert SettledAt(b, xs, k - 1, folder, fs);
  }

  /** The inductive step of RunSettles, over the reports alone: `s` is the step taken on entry `k - 1`, if any. */
  lemma SettlesOneMore(d: Drive, r0: Report, s: StepResult, r: Report, xs: seq<string>, k: nat, folder: string, fs: map<string, LocalFile>)
    requires 0 < k <= |xs|
    requires Valid(r0.drive) && Grows(d, r0.drive)
    requires r0.failed.None? ==> |r0.outcomes| == k - 1
    requires r0.failed.Some? ==> |r0.outcomes| < k - 1
    requires forall j :: 0 <= j < k - 1 && j <= |r0.outcomes| ==> SettledAt(r0.drive, xs, j, folder, fs)
    requires r0.failed.Some? ==> r == r0
    requires r0.failed.None? && xs[k - 1] !in fs ==> r == r0.(failed := Some(xs[k - 1]))
    requires r0.failed.None? && xs[k - 1] in fs ==>
      && s.Done? && r == Report(s.drive, r0.outcomes + [s.outcome], None)
      && Valid(s.drive) && Grows(r0.drive, s.drive) && Settled(s.drive, xs[k - 1], folder, fs)
    ensures Valid(r.drive) && Grows(d, r.drive)
    ensures forall j :: 0 <= j < k && j <= |r.outcomes| ==> SettledAt(r.drive, xs, j, folder, fs)
  {
    if r0.failed.None? && xs[k - 1] !in fs {
      assert SettledAt(r.drive, xs, k - 1, folder, fs);
    } else if r0.failed.None? {
      assert r.drive == s.drive && |r.outcomes| == k;
      GrowsTransitive(d, r0.drive, s.drive);
      SettledExtend(r0.drive, s.drive, xs, k, folder, fs);
    }
  }

  /** After an unforced batch every handled entry, and the one that stopped it, is settled. */
  lemma {:induction false} RunSettles(d: Drive, xs: seq<string>, k: nat, folder: string, fs: map<string, LocalFile>)
    requires Valid(d) && k <= |xs|
    ensures var r := RunPrefix(d, xs, k, folder, fs, false);
      && Valid(r.drive) && Grows(d, r.drive)
      && forall j :: 0 <= j < k && j <= |r.outcomes| ==> SettledAt(r.drive, xs, j, folder, fs)
    decreases k
  {
    if k == 0 {
      GrowsReflexive(d);
    } else {
      var e := xs[k - 1];
      RunSettles(d, xs, k - 1, folder, fs);
      RunReport(d, xs, k - 1, folder, fs, false);
      RunLast(d, xs, k, folder, fs, false);
      var r0 := RunPrefix(d, xs, k - 1, folder, fs, false);
      if r0.failed.None? && e in fs {
        StepSettles(r0.drive, e, folder, fs);
      }
      SettlesOneMore(d, r0, Step(r0.drive, e, folder, fs, false), RunPrefix(d, xs, k, folder, fs, false), xs, k, folder, fs);
    }
  }

  /** The inductive step of SettledRunIsNoOp, over the reports alone: `s` is the step taken on entry `k - 1`, if any. */
  lemma SkipsOneMore(d: Drive, r0: Report, s: StepResult, r: Report, e: string, fs: map<string, LocalFile>)
    requires r0.drive == d && forall j :: 0 <= j < |r0.outcomes| ==> r0.outcomes[j].IsSkip()
    requires r0.failed.Some? ==> r == r0
    requires r0.failed.None? && e !in fs ==> r == r0.(failed := Some(e))
    requires r0.failed.None? && e in fs ==>
      && s.Done? && r == Report(s.drive, r0.outcomes + [s.outcome], None)
      && s.drive == d && s.outcome.IsSkip()
    ensures r.drive == d && forall j :: 0 <= j < |r.outcomes| ==> r.outcomes[j].IsSkip()
  {
  }

  /** An unforced batch whose entries are all settled writes nothing and reports only skips. */
  lemma {:induction false} SettledRunIsNoOp(d: Drive, xs: seq<string>, k: nat, folder: string, fs: map<string, LocalFile>)
    requires k <= |xs|
    requires forall j :: 0 <= j < k ==> SettledAt(d, xs, j, folder, fs)
    ensures var r := RunPrefix(d, xs, k, folder, fs, false);
      r.drive == d && forall j :: 0 <= j < |r.outcomes| ==> r.outcomes[j].IsSkip()
    decreases k
  {
    if k > 0 {
      var e := xs[k - 1];
      SettledRunIsNoOp(d, xs, k - 1, folder, fs);
      RunLast(d, xs, k, folder, fs, false);
      var r0 := RunPrefix(d, xs, k - 1, folder, fs, false);
      if r0.failed.None? && e in fs {
        assert SettledAt(d, xs, k - 1, folder, fs);
        SettledStepSkips(d, e, folder, fs);
      }
      SkipsOneMore(d, r0, Step(d, e, folder, fs, false), RunPrefix(d, xs, k, folder, fs, false), e, fs);
    }
  }

  /**
   * Running the same unforced batch a second time, with the same local files
   * and no remote change in between, performs no writes: the store is left
   * as the first run left it, every handled entry is reported as skipped, and
   * the same entries are handled.
   */
  lemma RerunIsNoOp(d: Drive, xs: seq<string>, folder: string, fs: map<string, LocalFile>)
    requires Valid(d)
    ensures var r1 := Run(d, xs, folder, fs, false);
      var r2 := Run(r1.drive, xs, folder, fs, false);
      && r2.drive == r1.drive
      && r2.failed == r1.failed
      && |r2.outcomes| == |r1.outcomes|
      && forall j :: 0 <= j < |r2.outcomes| ==> r2.outcomes[j].IsSkip()
  {
    var n := |xs|;
    var r1 := Run(d, xs, folder, fs, false);
    var r2 := Run(r1.drive, xs, folder, fs, false);
    RunSettles(d, xs, n, folder, fs);
    RunReport(d, xs, n, folder, fs, false);
    RunReport(r1.drive, xs, n, folder, fs, false);
    ReportsAgree(r1, r2, xs, n, fs);
    if r1.failed.None? {
      SettledRunIsNoOp(r1.drive, xs, n, folder, fs);
    } else {
      var k := |r1.outcomes|;
      SettledRunIsNoOp(r1.drive, xs, k + 1, folder, fs);
      RunReport(r1.drive, xs, k + 1, folder, fs, false);
      RunKeepsFailure(r1.drive, xs, k + 1, n, folder, fs, false);
    }
  }
}
