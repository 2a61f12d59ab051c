/** What every run of the server keeps: finished backups stay recoverable, and the WAL
    after a live backup is never removed. */
module BackupSafety {
  import opened Wrappers
  import opened Xlog
  import opened Catalog
  import opened WalCleanup
  import opened WalArchive
  import opened BackupMachine

  // ---------------------------------------------------------------- lines and files

  lemma {:induction false} DoomedAreCatalogued(lines: seq<WalFileInfo>, a: Archive, p: Policy)
    requires LinesOnDisk(lines, a)
    ensures Catalogued(a, DoomedLines(lines, p))
    decreases |lines|
  {
    if lines != [] {
      var init := lines[..|lines| - 1];
      assert LinesOnDisk(init, a);
      DoomedAreCatalogued(init, a, p);
      var doomed := DoomedLines(init, p);
      forall i | 0 <= i < |doomed| ensures IsAnyXlogFile(lines[|lines| - 1].name) ==> doomed[i].name != lines[|lines| - 1].name {
        LinesMembership(init, p, doomed[i]);
        var k :| 0 <= k < |init| && init[k] == doomed[i];
        assert lines[k] == doomed[i];
      }
    }
  }

  lemma {:induction false} KeptStayDistinct(lines: seq<WalFileInfo>, a: Archive, p: Policy)
    requires LinesOnDisk(lines, a)
    ensures LinesOnDisk(KeptLines(lines, p), a)
    decreases |lines|
  {
    if lines != [] {
      var init := lines[..|lines| - 1];
      assert LinesOnDisk(init, a);
      KeptStayDistinct(init, a, p);
      var kept := KeptLines(init, p);
      forall i | 0 <= i < |kept| ensures IsAnyXlogFile(lines[|lines| - 1].name) ==> kept[i].name != lines[|lines| - 1].name {
        LinesMembership(init, p, kept[i]);
        var k :| 0 <= k < |init| && init[k] == kept[i];
        assert lines[k] == kept[i];
      }
    }
  }

  /** A name is doomed by what it is, not by the line it stands on. */
  lemma DoomedNames(lines: seq<WalFileInfo>, p: Policy, n: WalName)
    requires n in NameSet(DoomedLines(lines, p))
    ensures IsAnyXlogFile(n) && !IsKept(n, p)
  {
    var w :| w in DoomedLines(lines, p) && w.name == n;
    LinesMembership(lines, p, w);
  }

  lemma KeptIsNotDoomed(lines: seq<WalFileInfo>, p: Policy, n: WalName)
    requires IsAnyXlogFile(n) && IsKept(n, p)
    ensures n !in NameSet(DoomedLines(lines, p))
  {
    forall w | w in DoomedLines(lines, p) ensures w.name != n { LinesMembership(lines, p, w); }
  }

  /** The cleanup as a whole: the catalogue keeps, in order, the valid lines that the
      policy keeps, the disk loses exactly the files of the others, and the two agree
      again afterwards. */
  lemma CleanupIsExact(s: State, p: Policy)
    requires Consistent(s) && Uncrowded(s.archive, DoomedLines(s.xlogdb, p))
    ensures CleanupEnds(s, p)
    ensures Cleanup(s, p).xlogdb == KeptLines(s.xlogdb, p)
    ensures LostExactly(s.archive, Cleanup(s, p).archive, NameSet(DoomedLines(s.xlogdb, p)))
    ensures Consistent(Cleanup(s, p))
    ensures forall n :: OnDisk(s.archive, n) && (IsAnyXlogFile(n) ==> IsKept(n, p)) ==> OnDisk(Cleanup(s, p).archive, n)
  {
    var doomed := DoomedLines(s.xlogdb, p);
    DoomedAreCatalogued(s.xlogdb, s.archive, p);
    DeletesExactlyIff(s.archive, doomed);
    var s' := Cleanup(s, p);
    forall n | OnDisk(s.archive, n) && (IsAnyXlogFile(n) ==> IsKept(n, p)) ensures OnDisk(s'.archive, n) {
      if n in NameSet(doomed) { DoomedNames(s.xlogdb, p, n); }
    }
    KeptStayDistinct(s.xlogdb, s.archive, p);
    forall i | 0 <= i < |s'.xlogdb| ensures IsAnyXlogFile(s'.xlogdb[i].name) ==> OnDisk(s'.archive, s'.xlogdb[i].name) {
      LinesMembership(s.xlogdb, p, s'.xlogdb[i]);
    }
  }

  // ---------------------------------------------------------------- why a cut is safe

  lemma AfterLaterBegin(n: WalName, a: Segment, b: Segment)
    requires IsAnyXlogFile(n) && AtOrAfter(n, b) && SegLe(a, b)
    ensures AtOrAfter(n, a)
  {
  }

  /** Nothing from the start of a newer finished copy on, on its timeline, is selected. */
  lemma NewerCopyIsSafe(s: State, id: BackupId, skip: bool, concurrent: bool, sameObject: bool, j: BackupId, n: WalName)
    requires Sane(s) && id in s.backups
    requires j in s.backups && id < j && IsCopyDone(s.backups[j])
    requires IsAnyXlogFile(n) && AtOrAfter(n, s.backups[j].beginWal.value)
    requires TimelineOf(n) == s.backups[j].beginWal.value.tli
    ensures IsKept(n, DeletePolicy(s, id, skip, concurrent, sameObject))
  {
    var next := NextCopyDone(s.backups, id);
    assert next.Some? && next.value <= j;
    var cut, b := s.backups[next.value], s.backups[j];
    assert KnowsItsTimeline(cut) && KnowsItsTimeline(b);
    var p := DeletePolicy(s, id, skip, concurrent, sameObject);
    if cut.beginWal.value.tli == b.beginWal.value.tli {
      assert SegLe(cut.beginWal.value, b.beginWal.value);
      AfterLaterBegin(n, cut.beginWal.value, b.beginWal.value);
    } else {
      var archiving := Available(s.backups, ARCHIVING);
      assert j in archiving;
      assert archiving[j].timeline in (set k | k in archiving && !(sameObject && k == id) :: archiving[k].timeline);
      assert Some(TimelineOf(n)) in p.timelines;
    }
  }

  /** Nothing an older finished copy needs is selected: were WALs to go at all, it is
      standalone and its whole range is protected. */
  lemma OlderCopyIsSafe(s: State, id: BackupId, skip: bool, concurrent: bool, sameObject: bool, j: BackupId, seg: Segment)
    requires Sane(s) && id in s.backups && MayRemoveWals(s.backups, s.keep, id, skip)
    requires j in s.backups && j < id && IsCopyDone(s.backups[j])
    requires seg in RequiredSegments(s.backups[j])
    ensures IsKept(Wal(seg), DeletePolicy(s, id, skip, concurrent, sameObject))
  {
    var b := s.backups[j];
    assert KnowsItsTimeline(b);
    SegmentsFromExactly(b.beginWal.value, b.endWal.value, LayoutOf(b.version, b.segmentSize), seg);
    var older := Descending(OlderCopyDone(s.backups, id));
    assert j in older;
    var i :| 0 <= i < |older| && older[i] == j;
    var p := DeletePolicy(s, id, skip, concurrent, sameObject);
    assert p.ranges[i] == RangeOf(b);
    assert InRange(Wal(seg), p.ranges[i]);
  }

  lemma NeededIsAfterBegin(s: State, j: BackupId, seg: Segment)
    requires Sane(s) && j in s.backups && IsCopyDone(s.backups[j])
    requires seg in RequiredSegments(s.backups[j])
    ensures AtOrAfter(Wal(seg), s.backups[j].beginWal.value) && seg.tli == s.backups[j].beginWal.value.tli
  {
    var b := s.backups[j];
    assert KnowsItsTimeline(b);
    SegmentsFromExactly(b.beginWal.value, b.endWal.value, LayoutOf(b.version, b.segmentSize), seg);
  }

  /** What a surviving finished copy needs is kept by the policy of any deletion. */
  lemma SurvivorsAreSafe(s: State, id: BackupId, skip: bool, concurrent: bool, sameObject: bool, j: BackupId, seg: Segment)
    requires Sane(s) && id in s.backups && MayRemoveWals(s.backups, s.keep, id, skip)
    requires j in s.backups && j != id && IsCopyDone(s.backups[j])
    requires s.backups[j].beginWal.Some? && s.backups[j].endWal.Some? && seg in RequiredSegments(s.backups[j])
    ensures IsKept(Wal(seg), DeletePolicy(s, id, skip, concurrent, sameObject))
  {
    if j < id {
      OlderCopyIsSafe(s, id, skip, concurrent, sameObject, j, seg);
    } else {
      NeededIsAfterBegin(s, j, seg);
      NewerCopyIsSafe(s, id, skip, concurrent, sameObject, j, Wal(seg));
    }
  }

  // ---------------------------------------------------------------- what a step takes from the disk

  /** The step deletes from the directory, and its list there is long enough for the shortcut. */
  predicate Wipes(s: State, step: Step, d: Dir) {
    Reached(s.archive, Selected(s, step), d) && |InDir(Selected(s, step), d)| >= DIRECTORY_LIMIT
  }

  predicate Vanishes(s: State, step: Step, n: WalName) {
    Wipes(s, step, DirOf(n)) || (Reached(s.archive, Selected(s, step), DirOf(n)) && n in NameSet(Selected(s, step)))
  }

  lemma NothingSelected(a: Archive, d: Dir)
    ensures !Reached(a, [], d)
  {
  }

  lemma StepTakes(s: State, step: Step, n: WalName)
    requires Enabled(s, step) && OnDisk(s.archive, n)
    ensures OnDisk(Apply(s, step).archive, n) <==> !Vanishes(s, step, n)
  {
    NothingSelected(s.archive, DirOf(n));
    WhatVanishesAlways(s.archive, Selected(s, step), n);
    hide Reached, DeleteGroups, DoomedLines, GroupByDir;
    match step
    case Delete(_, _, _, _) =>
    case PurgeFirst(_, _) =>
    case ArchiveWal(_) => assert Selected(s, step) == [];
    case _ => assert Selected(s, step) == [];
  }

  /** A deletion that meets a missing directory raises: the backup being deleted keeps its
      record, though some of its WALs may be gone. */
  predicate Stops(s: State, step: Step) {
    && step.Delete? && step.id in s.backups && MayRemoveWals(s.backups, s.keep, step.id, step.skipIfStandalone)
    && Existing(s.archive, GroupByDir(Selected(s, step))) < |GroupByDir(Selected(s, step))|
  }

  lemma StopsMeansNotEnded(s: State, step: Step)
    requires step.Delete? && Enabled(s, step) && MayRemoveWals(s.backups, s.keep, step.id, step.skipIfStandalone)
    ensures Stops(s, step) <==>
      !CleanupEnds(s, DeletePolicy(s, step.id, step.skipIfStandalone, step.concurrent, step.sameObject))
  {
    SelectionIsGrouped(Selected(s, step));
    DeletionStops(s.archive, GroupByDir(Selected(s, step)));
  }

  /** Removing a record changes at most the children of another one. */
  lemma RemoveRecordKeeps(backups: Backups, id: BackupId)
    requires id in backups
    ensures var r := RemoveRecord(backups, id);
      && (forall j :: j in r ==> j in backups && j != id && r[j] == backups[j].(children := r[j].children))
      && (forall j :: j in backups && j != id ==> j in r)
  {
  }

  lemma StepKeepsRecords(s: State, step: Step)
    requires step.Delete? && Enabled(s, step)
    ensures var r := Apply(s, step).backups;
      && (forall j :: j in r <==> j in s.backups && (j != step.id || Stops(s, step)))
      && (forall j :: j in r ==> r[j] == s.backups[j].(children := r[j].children))
  {
    RemoveRecordKeeps(s.backups, step.id);
    if MayRemoveWals(s.backups, s.keep, step.id, step.skipIfStandalone) { StopsMeansNotEnded(s, step); }
    hide RemoveRecord, Stops, DeletePolicy, MayRemoveWals, Cleanup, CleanupEnds;
  }

  // ---------------------------------------------------------------- no step breaks sanity

  lemma RecordsKeepSanity(s: State, s': State)
    requires Sane(s) && WellFiled(s'.archive)
    requires forall j :: j in s'.backups ==> j in s.backups && s'.backups[j] == s.backups[j].(children := s'.backups[j].children)
    ensures Sane(s')
  {
    forall j | j in s'.backups ensures KnowsItsTimeline(s'.backups[j]) { assert KnowsItsTimeline(s.backups[j]); }
  }

  lemma EndedKeepsSanity(s: State, step: Step, mid: State)
    requires Sane(s) && step.EndCopy? && Enabled(s, step)
    requires mid == s.(backups := s.backups[step.id :=
      s.backups[step.id].(endWal := step.end, status := if step.success then WaitingForWals else Failed)])
    ensures Sane(mid)
  {
    assert KnowsItsTimeline(s.backups[step.id]);
  }

  lemma StepKeepsFiles(s: State, step: Step)
    requires WellFiled(s.archive) && Enabled(s, step)
    ensures WellFiled(Apply(s, step).archive)
  {
    DeletionStaysFiled(s.archive, Selected(s, step));
    match step
    case ArchiveWal(wal) =>
      var s' := Apply(s, step);
      forall d, n | FileAt(s'.archive, d, n) && IsAnyXlogFile(n) ensures d == DirOf(n) {
        assert FileAt(s.archive, d, n) || (n == wal.name && d == DirOf(n));
      }
    case Delete(_, _, _, _) => hide WellFiled, DeleteGroups, DoomedLines;
    case PurgeFirst(_, _) => hide WellFiled, DeleteGroups, DoomedLines;
    case _ =>
  }

  lemma EndKeepsSanity(s: State, step: Step)
    requires Sane(s) && step.EndCopy? && Enabled(s, step)
    ensures Sane(Apply(s, step))
  {
    var ended := s.backups[step.id].(endWal := step.end, status := if step.success then WaitingForWals else Failed);
    var mid := s.(backups := s.backups[step.id := ended]);
    EndedKeepsSanity(s, step, mid);
    RecordsKeepSanity(mid, Apply(s, step));
  }

  lemma CheckKeepsSanity(s: State, step: Step)
    requires Sane(s) && step.CheckBackup? && Enabled(s, step)
    ensures Sane(Apply(s, step))
  {
    assert KnowsItsTimeline(s.backups[step.id]);
  }

  lemma StepKeepsSanity(s: State, step: Step)
    requires Sane(s) && Enabled(s, step)
    ensures Sane(Apply(s, step))
  {
    StepKeepsFiles(s, step);
    match step
    case StartBackup(_, _, _, _) =>
    case BeginCopy(_, _) =>
    case EndCopy(_, _, _) => EndKeepsSanity(s, step);
    case CheckBackup(_, _) => CheckKeepsSanity(s, step);
    case Delete(_, _, _, _) =>
      StepKeepsRecords(s, step);
      RecordsKeepSanity(s, Apply(s, step));
    case PurgeFirst(_, _) => RecordsKeepSanity(s, Apply(s, step));
    case ArchiveWal(_) => RecordsKeepSanity(s, Apply(s, step));
    case Keep(_, _) =>
    case Release(_) =>
  }

  // ---------------------------------------------------------------- DONE, exactly

  predicate Needs(b: BackupInfo, seg: Segment) {
    b.status == Done && b.beginWal.Some? && b.endWal.Some? && seg in RequiredSegments(b)
  }

  /** What a step must not do to a segment that backup `j` needs: take it with a whole directory,
      or select it in a deletion of `j` itself that stops. Selecting is harmless otherwise. */
  predicate Takes(s: State, step: Step, j: BackupId, n: WalName) {
    if step.Delete? && step.id == j then Stops(s, step) && Vanishes(s, step, n) else Wipes(s, step, DirOf(n))
  }

  ghost predicate SparesDone(s: State, step: Step) {
    forall j, seg :: j in s.backups && Needs(s.backups[j], seg) ==> !Takes(s, step, j, Wal(seg))
  }

  /** A check promises DONE only after finding every required segment on disk. */
  lemma CheckedDoneIsRecoverable(a: Archive, b: BackupInfo, last: Option<Segment>)
    requires KnowsItsTimeline(b)
    requires b.beginWal.Some? ==> IsLatest(a, b.beginWal.value.tli, last)
    requires CheckedStatus(a, b, last) == Done && b.beginWal.Some? && b.endWal.Some?
    ensures Recoverable(a, b)
  {
    var segments := RequiredSegments(b);
    forall seg | seg in segments ensures OnDisk(a, Wal(seg)) {
      SegmentsFromExactly(b.beginWal.value, b.endWal.value, LayoutOf(b.version, b.segmentSize), seg);
      var i :| 0 <= i < |segments| && segments[i] == seg;
      assert SegLe(segments[i], last.value);
    }
  }

  /** Nothing a surviving DONE backup needs is selected, whatever is deleted or purged. */
  lemma NeededIsNotSelected(s: State, step: Step, j: BackupId, seg: Segment)
    requires Sane(s) && Enabled(s, step) && j in s.backups && Needs(s.backups[j], seg)
    requires !(step.Delete? && step.id == j)
    ensures Wal(seg) !in NameSet(Selected(s, step))
  {
    match step
    case Delete(id, skip, concurrent, sameObject) =>
      if MayRemoveWals(s.backups, s.keep, id, skip) {
        SurvivorsAreSafe(s, id, skip, concurrent, sameObject, j, seg);
        KeptIsNotDoomed(s.xlogdb, DeletePolicy(s, id, skip, concurrent, sameObject), Wal(seg));
      }
    case PurgeFirst(id, _) =>
      NeededIsAfterBegin(s, j, seg);
      if OlderCopyDone(s.backups, id) == {} {
        assert j !in OlderCopyDone(s.backups, id);
        KeptIsNotDoomed(s.xlogdb, PurgePolicy(s, id), Wal(seg));
      }
    case _ =>
  }

  lemma TakesMeansVanishes(s: State, step: Step, j: BackupId, seg: Segment)
    requires Sane(s) && Enabled(s, step) && j in s.backups && Needs(s.backups[j], seg)
    requires step.Delete? && step.id == j ==> Stops(s, step)
    ensures Takes(s, step, j, Wal(seg)) <==> Vanishes(s, step, Wal(seg))
  {
    if !(step.Delete? && step.id == j) { NeededIsNotSelected(s, step, j, seg); }
  }

  /** Deleting or purging leaves every DONE backup its segments if and only if it spares them. */
  lemma RemovalKeepsDoneIff(s: State, step: Step)
    requires Sane(s) && DoneMeansRecoverable(s) && Enabled(s, step) && (step.Delete? || step.PurgeFirst?)
    ensures DoneMeansRecoverable(Apply(s, step)) <==> SparesDone(s, step)
  {
    var s' := Apply(s, step);
    if step.Delete? { StepKeepsRecords(s, step); }
    assert forall j :: j in s'.backups <==> j in s.backups && (step.Delete? && step.id == j ==> Stops(s, step));
    forall j, seg | j in s'.backups && Needs(s.backups[j], seg)
      ensures OnDisk(s'.archive, Wal(seg)) <==> !Takes(s, step, j, Wal(seg))
    {
      assert Recoverable(s.archive, s.backups[j]);
      StepTakes(s, step, Wal(seg));
      TakesMeansVanishes(s, step, j, seg);
    }
    hide Takes, Enabled, Apply;
    DoneIff(s, s', step);
  }

  lemma DoneIff(s: State, s': State, step: Step)
    requires DoneMeansRecoverable(s)
    requires forall j :: j in s'.backups <==> j in s.backups && (step.Delete? && step.id == j ==> Stops(s, step))
    requires forall j :: j in s'.backups ==> s'.backups[j] == s.backups[j].(children := s'.backups[j].children)
    requires forall j, seg :: j in s'.backups && Needs(s.backups[j], seg) ==>
      (OnDisk(s'.archive, Wal(seg)) <==> !Takes(s, step, j, Wal(seg)))
    ensures DoneMeansRecoverable(s') <==> SparesDone(s, step)
  {
    if DoneMeansRecoverable(s') {
      forall j, seg | j in s.backups && Needs(s.backups[j], seg) ensures !Takes(s, step, j, Wal(seg)) {
        if j in s'.backups {
          assert Recoverable(s'.archive, s'.backups[j]);
          assert seg in RequiredSegments(s'.backups[j]);
        }
      }
    }
    if SparesDone(s, step) {
      forall j | j in s'.backups && s'.backups[j].status == Done ensures Recoverable(s'.archive, s'.backups[j]) {
        assert Recoverable(s.archive, s.backups[j]);
        forall seg | seg in RequiredSegments(s'.backups[j]) ensures OnDisk(s'.archive, Wal(seg)) {
          assert Needs(s.backups[j], seg);
        }
      }
    }
  }

  /** Taking, ending and checking a backup, archiving and annotating take no file away, and
      DONE is only ever granted by a check. */
  lemma OthersKeepDone(s: State, step: Step)
    requires Sane(s) && DoneMeansRecoverable(s) && Enabled(s, step) && !step.Delete? && !step.PurgeFirst?
    ensures DoneMeansRecoverable(Apply(s, step))
  {
    var s' := Apply(s, step);
    assert forall n :: OnDisk(s.archive, n) ==> OnDisk(s'.archive, n);
    forall j | j in s'.backups && s'.backups[j].status == Done ensures Recoverable(s'.archive, s'.backups[j]) {
      if step.CheckBackup? && step.id == j {
        assert KnowsItsTimeline(s.backups[j]);
        CheckGrants(s, step);
      } else {
        assert j in s.backups && s'.backups[j] == s.backups[j].(children := s'.backups[j].children);
        assert Recoverable(s.archive, s.backups[j]);
        assert RequiredSegments(s'.backups[j]) == RequiredSegments(s.backups[j]);
      }
    }
  }

  lemma CheckGrants(s: State, step: Step)
    requires Sane(s) && DoneMeansRecoverable(s) && step.CheckBackup? && Enabled(s, step)
    requires Apply(s, step).backups[step.id].status == Done
    ensures Recoverable(Apply(s, step).archive, Apply(s, step).backups[step.id])
  {
    var b := s.backups[step.id];
    assert KnowsItsTimeline(b);
    if b.endWal.Some? {
      CheckedDoneIsRecoverable(s.archive, b, step.last);
      assert RequiredSegments(Apply(s, step).backups[step.id]) == RequiredSegments(b);
    }
  }

  /** Any step on any sane server: DONE keeps its meaning if and only if the step takes no
      needed segment, which the lists it would delete tell before it is made. */
  lemma StepKeepsDoneIff(s: State, step: Step)
    requires Sane(s) && DoneMeansRecoverable(s) && Enabled(s, step)
    ensures DoneMeansRecoverable(Apply(s, step)) <==> SparesDone(s, step)
  {
    if step.Delete? || step.PurgeFirst? {
      RemovalKeepsDoneIff(s, step);
    } else {
      OthersKeepDone(s, step);
      forall j, seg | j in s.backups && Needs(s.backups[j], seg) ensures !Takes(s, step, j, Wal(seg)) {
        NothingSelected(s.archive, DirOf(Wal(seg)));
        assert Selected(s, step) == [];
      }
    }
  }

  lemma SelectedAreCatalogued(s: State, step: Step)
    requires Consistent(s)
    ensures Catalogued(s.archive, Selected(s, step))
    ensures !Stops(s, step)
  {
    match step {
      case Delete(id, skip, concurrent, sameObject) =>
        if id in s.backups { DoomedAreCatalogued(s.xlogdb, s.archive, DeletePolicy(s, id, skip, concurrent, sameObject)); }
      case PurgeFirst(id, _) =>
        if id in s.backups { DoomedAreCatalogued(s.xlogdb, s.archive, PurgePolicy(s, id)); }
      case _ =>
    }
    CataloguedIsReached(s.archive, Selected(s, step), Root);
    SelectionIsGrouped(Selected(s, step));
    DeletionStops(s.archive, GroupByDir(Selected(s, step)));
  }

  lemma WipesMeansLongList(s: State, step: Step, d: Dir)
    requires Consistent(s)
    ensures Wipes(s, step, d) <==> |InDir(Selected(s, step), d)| >= DIRECTORY_LIMIT
  {
    SelectedAreCatalogued(s, step);
    CataloguedIsReached(s.archive, Selected(s, step), d);
  }

  /** On a server whose catalogue agrees with its disk: a deletion or purge keeps DONE true if and
      only if no needed segment of another backup is in a directory with 256 lines to delete. */
  lemma RemovalKeepsDoneIffShortLists(s: State, step: Step)
    requires Inv(s) && Enabled(s, step) && (step.Delete? || step.PurgeFirst?)
    ensures DoneMeansRecoverable(Apply(s, step)) <==>
      forall j, seg :: j in s.backups && !(step.Delete? && step.id == j) && Needs(s.backups[j], seg)
        ==> |InDir(Selected(s, step), DirOf(Wal(seg)))| < 256
  {
    StepKeepsDoneIff(s, step);
    SelectedAreCatalogued(s, step);
    forall j, seg | j in s.backups && Needs(s.backups[j], seg)
      ensures Takes(s, step, j, Wal(seg)) <==>
        !(step.Delete? && step.id == j) && |InDir(Selected(s, step), DirOf(Wal(seg)))| >= DIRECTORY_LIMIT
    {
      WipesMeansLongList(s, step, DirOf(Wal(seg)));
    }
    hide Takes, Selected, Enabled, Apply, Inv, DoneMeansRecoverable;
  }

  // ---------------------------------------------------------------- runs

  const INITIAL: State := State(map[], map[], [], map[])

  /** A run of the server: any number of steps from the empty server. */
  datatype Run = Begin | Then(before: Run, step: Step)

  /** The state a run ends in. */
  ghost function Final(r: Run): State {
    match r
    case Begin => INITIAL
    case Then(before, step) =>
      if Enabled(Final(before), step) then Apply(Final(before), step) else Final(before)
  }

  /** Every step was possible when it happened. */
  ghost predicate IsRun(r: Run) {
    r.Then? ==> IsRun(r.before) && Enabled(Final(r.before), r.step)
  }

  lemma RunGoesOn(r: Run, s: State, step: Step, s': State)
    requires IsRun(r) && Final(r) == s && Enabled(s, step) && Apply(s, step) == s'
    ensures IsRun(Then(r, step)) && Final(Then(r, step)) == s'
  {
  }

  lemma {:induction false} RunsAreSane(r: Run)
    requires IsRun(r)
    ensures Sane(Final(r))
  {
    if r.Then? {
      RunsAreSane(r.before);
      StepKeepsSanity(Final(r.before), r.step);
    }
  }

  /** At every moment of the run every DONE backup had all its segments archived. */
  ghost predicate AlwaysDone(r: Run) {
    DoneMeansRecoverable(Final(r)) && (r.Then? ==> AlwaysDone(r.before))
  }

  /** No step of the run took a segment that a DONE backup needed. */
  ghost predicate AlwaysSpares(r: Run) {
    r.Then? ==> AlwaysSpares(r.before) && SparesDone(Final(r.before), r.step)
  }

  /** In every run, with whatever directories: DONE is true throughout if and only if no step met
      the one case in which the shortcut, or a deletion that stops, takes a needed segment. */
  lemma {:induction false} DoneStaysRecoverable(r: Run)
    requires IsRun(r)
    ensures AlwaysDone(r) <==> AlwaysSpares(r)
  {
    if r.Then? {
      DoneStaysRecoverable(r.before);
      RunsAreSane(r.before);
      if AlwaysDone(r.before) { StepKeepsDoneIff(Final(r.before), r.step); }
    }
  }

  // ---------------------------------------------------------------- small directories

  /** No directory the step deletes from holds more than its list of 256. */
  ghost predicate StepIsExact(s: State, step: Step) {
    Uncrowded(s.archive, Selected(s, step))
  }

  lemma ExactMeansUnwiped(s: State, step: Step, n: WalName)
    requires Consistent(s) && StepIsExact(s, step) && OnDisk(s.archive, n) && n !in NameSet(Selected(s, step))
    ensures !Wipes(s, step, DirOf(n))
  {
    var wals, d := Selected(s, step), DirOf(n);
    SelectedAreCatalogued(s, step);
    NameInItsDirectory(wals, n);
    if |InDir(wals, d)| >= DIRECTORY_LIMIT { WholeDirectorySelected(s.archive, wals, d); }
  }

  lemma ExactStepSpares(s: State, step: Step)
    requires Inv(s) && Enabled(s, step) && StepIsExact(s, step)
    ensures SparesDone(s, step)
  {
    SelectedAreCatalogued(s, step);
    forall j, seg | j in s.backups && Needs(s.backups[j], seg) ensures !Takes(s, step, j, Wal(seg)) {
      if !(step.Delete? && step.id == j) {
        assert Recoverable(s.archive, s.backups[j]);
        NeededIsNotSelected(s, step, j, seg);
        ExactMeansUnwiped(s, step, Wal(seg));
      }
    }
  }

  lemma ArchiveKeepsLines(s: State, step: Step)
    requires Consistent(s) && step.ArchiveWal?
    ensures LinesOnDisk(Apply(s, step).xlogdb, Apply(s, step).archive)
  {
    var s' := Apply(s, step);
    assert forall n :: OnDisk(s.archive, n) ==> OnDisk(s'.archive, n);
  }

  lemma StepKeepsInv(s: State, step: Step)
    requires Inv(s) && Enabled(s, step) && StepIsExact(s, step)
    ensures Inv(Apply(s, step))
  {
    ExactStepSpares(s, step);
    StepKeepsDoneIff(s, step);
    StepKeepsSanity(s, step);
    hide Sane, DoneMeansRecoverable, SparesDone;
    match step
    case Delete(id, skip, concurrent, sameObject) =>
      if MayRemoveWals(s.backups, s.keep, id, skip) { CleanupIsExact(s, DeletePolicy(s, id, skip, concurrent, sameObject)); }
    case PurgeFirst(id, evenWithoutBegin) =>
      if Apply(s, step) != s { CleanupIsExact(s, PurgePolicy(s, id)); }
    case ArchiveWal(_) => ArchiveKeepsLines(s, step);
    case _ =>
  }

  ghost predicate SmallThroughout(r: Run) {
    SmallDirectories(Final(r).archive) && (r.Then? ==> SmallThroughout(r.before))
  }

  /** The assumption the 256 in the code makes, as a condition on runs: then the catalogue
      agrees with the disk and DONE is true, always. */
  lemma {:induction false} SmallDirectoriesSuffice(r: Run)
    requires IsRun(r) && SmallThroughout(r)
    ensures Inv(Final(r)) && AlwaysDone(r) && AlwaysSpares(r)
  {
    if r.Then? {
      SmallDirectoriesSuffice(r.before);
      SmallDirectoriesAreUncrowded(Final(r.before).archive, Selected(Final(r.before), r.step));
      StepKeepsInv(Final(r.before), r.step);
    }
    DoneStaysRecoverable(r);
  }

  // ---------------------------------------------------------------- point-in-time recovery

  /** A finished copy that is not a standalone archive: recovery may be asked for any
      point after it. */
  predicate IsLive(s: State, id: BackupId) {
    id in s.backups && IsCopyDone(s.backups[id]) && !IsStandalone(s.keep, id)
  }

  predicate NeededForRecovery(b: BackupInfo, n: WalName) {
    || n.History?
    || (IsAnyXlogFile(n) && b.beginWal.Some? && TimelineOf(n) == b.beginWal.value.tli && AtOrAfter(n, b.beginWal.value))
  }

  /** No WAL after a live backup is selected, whatever else is deleted or purged. */
  lemma WindowIsNotSelected(s: State, step: Step, id: BackupId, n: WalName)
    requires Sane(s) && Enabled(s, step) && IsLive(s, id) && NeededForRecovery(s.backups[id], n)
    requires !(step.Delete? && step.id == id)
    ensures n !in NameSet(Selected(s, step))
  {
    match step
    case Delete(d, skip, concurrent, sameObject) =>
      if MayRemoveWals(s.backups, s.keep, d, skip) {
        assert id !in OlderCopyDone(s.backups, d);
        if !n.History? { NewerCopyIsSafe(s, d, skip, concurrent, sameObject, id, n); }
        KeptIsNotDoomed(s.xlogdb, DeletePolicy(s, d, skip, concurrent, sameObject), n);
      }
    case PurgeFirst(d, _) =>
      if OlderCopyDone(s.backups, d) == {} {
        assert id !in OlderCopyDone(s.backups, d);
        KeptIsNotDoomed(s.xlogdb, PurgePolicy(s, d), n);
      }
    case _ =>
  }

  /** The backup still starts at `begin` and the file is still there. */
  predicate StillServes(s: State, id: BackupId, begin: Option<Segment>, n: WalName) {
    id in s.backups && s.backups[id].beginWal == begin && OnDisk(s.archive, n)
  }

  lemma LiveKeepsItsBegin(s: State, step: Step, id: BackupId)
    requires Enabled(s, step) && IsLive(s, id) && id in Apply(s, step).backups
    ensures Apply(s, step).backups[id].beginWal == s.backups[id].beginWal
    ensures step.Delete? && step.id == id ==> Stops(s, step)
  {
    if step.Delete? { StepKeepsRecords(s, step); }
  }

  /** Any step on any sane server: a WAL that a surviving live backup may need is kept if and
      only if the step does not take it. */
  lemma StepKeepsWindowIff(s: State, step: Step, id: BackupId, n: WalName)
    requires Sane(s) && Enabled(s, step)
    requires IsLive(s, id) && id in Apply(s, step).backups
    requires NeededForRecovery(s.backups[id], n) && OnDisk(s.archive, n)
    ensures StillServes(Apply(s, step), id, s.backups[id].beginWal, n) <==> !Takes(s, step, id, n)
  {
    LiveKeepsItsBegin(s, step, id);
    StepTakes(s, step, n);
    if !(step.Delete? && step.id == id) { WindowIsNotSelected(s, step, id, n); }
  }

  /** On a server whose catalogue agrees with its disk: deleting another backup, or purging, keeps
      such a file if and only if fewer than 256 lines of its directory are to go. */
  lemma RemovalKeepsWindowIffShortList(s: State, step: Step, id: BackupId, n: WalName)
    requires Consistent(s) && Enabled(s, step) && !(step.Delete? && step.id == id)
    requires IsLive(s, id) && NeededForRecovery(s.backups[id], n) && OnDisk(s.archive, n)
    ensures OnDisk(Apply(s, step).archive, n) <==> |InDir(Selected(s, step), DirOf(n))| < 256
  {
    StepTakes(s, step, n);
    WindowIsNotSelected(s, step, id, n);
    WipesMeansLongList(s, step, DirOf(n));
  }

  /** `r` continues `start`, and the backup was live all along. */
  ghost predicate LiveSince(start: Run, r: Run, id: BackupId) {
    IsLive(Final(r), id) && (r == start || (r.Then? && LiveSince(start, r.before, id)))
  }

  ghost predicate ServesSince(start: Run, r: Run, id: BackupId, begin: Option<Segment>, n: WalName) {
    StillServes(Final(r), id, begin, n) && (r == start || (r.Then? && ServesSince(start, r.before, id, begin, n)))
  }

  /** No step since `start` took the file away from the backup. */
  ghost predicate NeverTaken(start: Run, r: Run, id: BackupId, n: WalName) {
    r == start || (r.Then? && NeverTaken(start, r.before, id, n) && !Takes(Final(r.before), r.step, id, n))
  }

  /** Over a whole run through which a backup stays live, whatever else is deleted, purged, kept or
      released: a WAL at or after its start on its timeline is there throughout if and only if no
      step took it with a whole directory, or in a deletion of the backup itself that stopped. */
  lemma {:induction false} RecoveryWindowKept(start: Run, r: Run, id: BackupId, begin: Option<Segment>, n: WalName)
    requires IsRun(r) && LiveSince(start, r, id)
    requires id in Final(start).backups && NeededForRecovery(Final(start).backups[id], n)
    requires StillServes(Final(start), id, begin, n)
    ensures ServesSince(start, r, id, begin, n) <==> NeverTaken(start, r, id, n)
    decreases r
  {
    if r != start {
      RecoveryWindowKept(start, r.before, id, begin, n);
      RunsAreSane(r.before);
      if ServesSince(start, r.before, id, begin, n) { StepKeepsWindowIff(Final(r.before), r.step, id, n); }
    }
  }

  lemma {:induction false} BeforeIsSmall(start: Run, r: Run)
    requires IsRun(r) && SmallThroughout(r) && r.Then?
    ensures Inv(Final(r.before)) && StepIsExact(Final(r.before), r.step)
  {
    SmallDirectoriesSuffice(r.before);
    SmallDirectoriesAreUncrowded(Final(r.before).archive, Selected(Final(r.before), r.step));
  }

  /** With directories of at most 256 entries no file after a live backup is ever taken. */
  lemma {:induction false} SmallDirectoriesKeepWindow(start: Run, r: Run, id: BackupId, begin: Option<Segment>, n: WalName)
    requires IsRun(r) && SmallThroughout(r) && LiveSince(start, r, id)
    requires id in Final(start).backups && NeededForRecovery(Final(start).backups[id], n)
    requires StillServes(Final(start), id, begin, n)
    ensures ServesSince(start, r, id, begin, n)
    decreases r
  {
    RecoveryWindowKept(start, r, id, begin, n);
    if r != start {
      SmallDirectoriesKeepWindow(start, r.before, id, begin, n);
      BeforeIsSmall(start, r);
      var s, step := Final(r.before), r.step;
      RecoveryWindowKept(start, r.before, id, begin, n);
      SelectedAreCatalogued(s, step);
      if !(step.Delete? && step.id == id) {
        WindowIsNotSelected(s, step, id, n);
        ExactMeansUnwiped(s, step, n);
      }
    }
  }
}
