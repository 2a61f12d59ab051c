/** Which WAL files a deletion, or the purge before the first backup, frees: told from the records,
    the annotations and the name alone (barman/backup.py). */
module WalSelection {
  import opened Wrappers
  import opened Xlog
  import opened Catalog
  import opened WalCleanup
  import opened WalArchive
  import opened BackupMachine
  import opened BackupSafety

  // ---------------------------------------------------------------- the rules

  predicate IsCopied(b: BackupInfo) { b.status == WaitingForWals || b.status == Done }

  predicate IsArchiving(b: BackupInfo) { IsCopied(b) || b.status == Started || b.status == Syncing }

  ghost predicate NoNewerCopy(backups: Backups, id: BackupId) {
    forall j :: j in backups && id < j ==> !IsCopied(backups[j])
  }

  /** The oldest of the newer copies. */
  ghost predicate IsNextCopy(backups: Backups, id: BackupId, next: BackupId) {
    && next in backups && id < next && IsCopied(backups[next])
    && forall j :: j in backups && id < j < next ==> !IsCopied(backups[j])
  }

  /** Without older copies WALs may go; with them only when all are standalone archives and these
      are not to be left alone. */
  ghost predicate MayFree(s: State, id: BackupId, skip: bool) {
    forall j :: j in s.backups && j < id && IsCopied(s.backups[j]) ==> !skip && j in s.keep && s.keep[j] == Standalone
  }

  predicate BeforeBegin(b: BackupInfo, n: WalName)
    requires IsAnyXlogFile(n)
  {
    b.beginWal.Some? ==> !AtOrAfter(n, b.beginWal.value)
  }

  /** From the first to the last segment of the copy; a backup label goes with its segment. */
  predicate Covers(b: BackupInfo, n: WalName) {
    b.beginWal.Some? && b.endWal.Some? &&
    match n
    case Wal(s) => SegLe(b.beginWal.value, s) && SegLe(s, b.endWal.value)
    case Label(s, _) => SegLe(b.beginWal.value, s) && SegLe(s, b.endWal.value)
    case Partial(s) => SegLe(b.beginWal.value, s) && SegLt(s, b.endWal.value)
    case _ => false
  }

  ghost predicate OlderCopyCovers(backups: Backups, id: BackupId, n: WalName) {
    exists j :: j in backups && j < id && IsCopied(backups[j]) && Covers(backups[j], n)
  }

  /** The name is on the timeline of some backup being archived, other than the timeline of the
      cut. The deleted backup is one of them unless it is recognised. */
  ghost predicate OnOtherTimeline(backups: Backups, id: BackupId, recognised: bool, cut: BackupInfo, n: WalName)
    requires IsAnyXlogFile(n)
  {
    exists j :: j in backups && IsArchiving(backups[j]) && !(recognised && j == id)
      && backups[j].timeline == Some(TimelineOf(n)) && backups[j].timeline != cut.timeline
  }

  ghost predicate BelowCut(backups: Backups, id: BackupId, recognised: bool, cut: BackupInfo, n: WalName)
    requires IsAnyXlogFile(n)
  {
    BeforeBegin(cut, n) && !OnOtherTimeline(backups, id, recognised, cut, n)
  }

  /** Freed by a deletion: no history file, in no older copy, and before the next copy; without a next
      copy before the deleted backup itself under concurrent backup, and otherwise always. */
  ghost predicate IsFreed(backups: Backups, id: BackupId, concurrent: bool, recognised: bool, n: WalName)
    requires id in backups && IsAnyXlogFile(n)
  {
    && !n.History? && !OlderCopyCovers(backups, id, n)
    && (forall next :: IsNextCopy(backups, id, next) ==> BelowCut(backups, id, recognised, backups[next], n))
    && (NoNewerCopy(backups, id) && concurrent ==> BelowCut(backups, id, recognised, backups[id], n))
  }

  // ---------------------------------------------------------------- the code follows them

  lemma CutIsNext(backups: Backups, id: BackupId)
    ensures match NextCopyDone(backups, id)
            case Some(next) => IsNextCopy(backups, id, next) && !NoNewerCopy(backups, id)
              && forall j :: IsNextCopy(backups, id, j) ==> j == next
            case None => NoNewerCopy(backups, id) && forall j :: !IsNextCopy(backups, id, j)
  {
    assert forall j :: j in NewerCopyDone(backups, id) <==> j in backups && id < j && IsCopied(backups[j]);
  }

  lemma FreeingIff(s: State, id: BackupId, skip: bool)
    ensures MayRemoveWals(s.backups, s.keep, id, skip) <==> MayFree(s, id, skip)
  {
    assert forall j :: j in OlderCopyDone(s.backups, id) <==> j in s.backups && j < id && IsCopied(s.backups[j]);
    if MayFree(s, id, skip) && skip { assert OlderCopyDone(s.backups, id) == {}; }
  }

  lemma RangesCover(s: State, id: BackupId, skip: bool, n: WalName)
    requires Sane(s) && MayRemoveWals(s.backups, s.keep, id, skip) && IsAnyXlogFile(n) && !n.History?
    ensures var ranges := ProtectedRanges(s.backups, s.keep, id, skip);
      (exists i :: 0 <= i < |ranges| && InRange(n, ranges[i])) <==> OlderCopyCovers(s.backups, id, n)
  {
    var ranges, older := ProtectedRanges(s.backups, s.keep, id, skip), Descending(OlderCopyDone(s.backups, id));
    assert forall j :: j in older ==> j in s.backups && j < id && IsCopied(s.backups[j]);
    if i :| 0 <= i < |ranges| && InRange(n, ranges[i]) {
      var j := older[i];
      assert j in older && KnowsItsTimeline(s.backups[j]);
      assert Covers(s.backups[j], n);
    }
    if j :| j in s.backups && j < id && IsCopied(s.backups[j]) && Covers(s.backups[j], n) {
      assert j in older;
      var i :| 0 <= i < |older| && older[i] == j;
      assert ranges[i] == RangeOf(s.backups[j]) && InRange(n, ranges[i]);
    }
  }

  lemma CutKeeps(backups: Backups, id: BackupId, recognised: bool, cut: BackupInfo, n: WalName)
    requires IsAnyXlogFile(n)
    ensures Some(TimelineOf(n)) in TimelinesToProtect(Some(cut), id, recognised, Available(backups, ARCHIVING))
       <==> OnOtherTimeline(backups, id, recognised, cut, n)
  {
    var archiving := Available(backups, ARCHIVING);
    assert forall j :: j in archiving <==> j in backups && IsArchiving(backups[j]);
    if j :| j in backups && IsArchiving(backups[j]) && !(recognised && j == id)
            && backups[j].timeline == Some(TimelineOf(n)) && backups[j].timeline != cut.timeline {
      assert j in archiving && archiving[j] == backups[j];
    }
  }

  lemma PolicyFrees(s: State, id: BackupId, skip: bool, concurrent: bool, recognised: bool, n: WalName)
    requires Sane(s) && id in s.backups && MayRemoveWals(s.backups, s.keep, id, skip) && IsAnyXlogFile(n)
    ensures IsKept(n, DeletePolicy(s, id, skip, concurrent, recognised)) <==> !IsFreed(s.backups, id, concurrent, recognised, n)
  {
    CutIsNext(s.backups, id);
    if !n.History? {
      RangesCover(s, id, skip, n);
      var next := NextCopyDone(s.backups, id);
      if next.Some? {
        CutKeeps(s.backups, id, recognised, s.backups[next.value], n);
      } else {
        CutKeeps(s.backups, id, recognised, s.backups[id], n);
      }
    }
    hide Sane, OlderCopyCovers, OnOtherTimeline, InRange, ProtectedRanges, NextCopyDone;
  }

  /** A deletion selects exactly the lines that the rules free. */
  lemma DeletionSelectsExactly(s: State, id: BackupId, skip: bool, concurrent: bool, recognised: bool, w: WalFileInfo)
    requires Sane(s) && id in s.backups
    ensures w in Selected(s, Delete(id, skip, concurrent, recognised)) <==>
      MayFree(s, id, skip) && w in s.xlogdb && IsAnyXlogFile(w.name) && IsFreed(s.backups, id, concurrent, recognised, w.name)
  {
    FreeingIff(s, id, skip);
    if MayRemoveWals(s.backups, s.keep, id, skip) {
      LinesMembership(s.xlogdb, DeletePolicy(s, id, skip, concurrent, recognised), w);
      if IsAnyXlogFile(w.name) { PolicyFrees(s, id, skip, concurrent, recognised, w.name); }
    }
    hide Sane, IsFreed, MayFree, MayRemoveWals, DeletePolicy, IsKept;
  }

  /** The purge selects exactly what is older than the first copy; with its begin unknown it selects
      everything, if asked to go on regardless. */
  lemma PurgeSelectsExactly(s: State, id: BackupId, evenWithoutBegin: bool, w: WalFileInfo)
    requires id in s.backups
    ensures w in Selected(s, PurgeFirst(id, evenWithoutBegin)) <==>
      && (forall j :: j in s.backups && j < id ==> !IsCopied(s.backups[j]))
      && (s.backups[id].beginWal.Some? || evenWithoutBegin)
      && w in s.xlogdb && IsAnyXlogFile(w.name) && !w.name.History? && BeforeBegin(s.backups[id], w.name)
  {
    assert forall j :: j in OlderCopyDone(s.backups, id) <==> j in s.backups && j < id && IsCopied(s.backups[j]);
    LinesMembership(s.xlogdb, PurgePolicy(s, id), w);
  }

  // ---------------------------------------------------------------- what that means

  /** With concurrent backup and no newer copy, nothing from the begin of the deleted backup on is
      selected: a backup that has just started may need it. */
  lemma ConcurrentBackupsAreSpared(s: State, id: BackupId, skip: bool, recognised: bool, n: WalName)
    requires Sane(s) && id in s.backups && NoNewerCopy(s.backups, id)
    requires IsAnyXlogFile(n) && s.backups[id].beginWal.Some? && AtOrAfter(n, s.backups[id].beginWal.value)
    ensures n !in NameSet(Selected(s, Delete(id, skip, true, recognised)))
  {
    var wals := Selected(s, Delete(id, skip, true, recognised));
    forall w | w in wals ensures w.name != n { DeletionSelectsExactly(s, id, skip, true, recognised, w); }
  }

  /** Without it, and without any other copy, every valid line but those of history files goes. */
  lemma LastDeletionFreesAll(s: State, id: BackupId, skip: bool, recognised: bool, w: WalFileInfo)
    requires Sane(s) && id in s.backups && forall j :: j in s.backups && j != id ==> !IsCopied(s.backups[j])
    ensures w in Selected(s, Delete(id, skip, false, recognised)) <==>
      w in s.xlogdb && IsAnyXlogFile(w.name) && !w.name.History?
  {
    DeletionSelectsExactly(s, id, skip, false, recognised, w);
  }

  /** All that a deletion does to a consistent server without crowded directories: the record and its
      annotation go, and of the WALs exactly what the rules free, on disk and in the catalogue. */
  lemma DeletionEffect(s: State, id: BackupId, skip: bool, concurrent: bool, recognised: bool, n: WalName)
    requires Consistent(s) && id in s.backups && StepIsExact(s, Delete(id, skip, concurrent, recognised))
    ensures var s' := Apply(s, Delete(id, skip, concurrent, recognised));
      && (forall j :: j in s'.backups <==> j in s.backups && j != id)
      && s'.keep == s.keep - {id}
      && (forall w :: w in s'.xlogdb <==> LineStays(s, id, skip, concurrent, recognised, w))
      && (OnDisk(s.archive, n) ==> (OnDisk(s'.archive, n) <==>
           !(MayFree(s, id, skip) && IsListed(s, n) && IsAnyXlogFile(n) && IsFreed(s.backups, id, concurrent, recognised, n))))
  {
    var step := Delete(id, skip, concurrent, recognised);
    SelectedAreCatalogued(s, step);
    StepKeepsRecords(s, step);
    SelectedNames(s, id, skip, concurrent, recognised, n);
    KeepsGo(s, id, skip, concurrent, recognised);
    LinesGo(s, id, skip, concurrent, recognised);
    if OnDisk(s.archive, n) { ExactStepTakes(s, step, n); }
    hide Consistent, Stops, Apply, Selected, StepIsExact, IsFreed, MayFree, LineStays;
  }

  lemma KeepsGo(s: State, id: BackupId, skip: bool, concurrent: bool, recognised: bool)
    requires id in s.backups && !Stops(s, Delete(id, skip, concurrent, recognised))
    ensures Apply(s, Delete(id, skip, concurrent, recognised)).keep == s.keep - {id}
  {
    if MayRemoveWals(s.backups, s.keep, id, skip) { StopsMeansNotEnded(s, Delete(id, skip, concurrent, recognised)); }
    hide Stops, MayRemoveWals, DeletePolicy, CleanupEnds, RemoveRecord;
  }

  /** When WALs may go, the valid lines that are not freed stay; a line with an invalid name does not. */
  ghost predicate LineStays(s: State, id: BackupId, skip: bool, concurrent: bool, recognised: bool, w: WalFileInfo)
    requires id in s.backups
  {
    w in s.xlogdb
    && (MayFree(s, id, skip) ==> IsAnyXlogFile(w.name) && !IsFreed(s.backups, id, concurrent, recognised, w.name))
  }

  lemma LinesGo(s: State, id: BackupId, skip: bool, concurrent: bool, recognised: bool)
    requires Sane(s) && id in s.backups && !Stops(s, Delete(id, skip, concurrent, recognised))
    ensures forall w :: w in Apply(s, Delete(id, skip, concurrent, recognised)).xlogdb
                   <==> LineStays(s, id, skip, concurrent, recognised, w)
  {
    FreeingIff(s, id, skip);
    if MayRemoveWals(s.backups, s.keep, id, skip) {
      StopsMeansNotEnded(s, Delete(id, skip, concurrent, recognised));
      var p := DeletePolicy(s, id, skip, concurrent, recognised);
      assert Apply(s, Delete(id, skip, concurrent, recognised)).xlogdb == KeptLines(s.xlogdb, p);
      forall w ensures w in KeptLines(s.xlogdb, p) <==>
        w in s.xlogdb && IsAnyXlogFile(w.name) && !IsFreed(s.backups, id, concurrent, recognised, w.name)
      {
        LinesMembership(s.xlogdb, p, w);
        if IsAnyXlogFile(w.name) { PolicyFrees(s, id, skip, concurrent, recognised, w.name); }
      }
    }
    hide IsFreed, MayFree, Stops, MayRemoveWals, KeptLines, Sane, RemoveRecord;
  }

  /** A deletion that stops changes the archive alone. */
  lemma StoppedDeletion(s: State, step: Step)
    requires Enabled(s, step) && Stops(s, step)
    ensures Apply(s, step) == s.(archive := Apply(s, step).archive)
  {
    StopsMeansNotEnded(s, step);
    hide Stops, DeletePolicy, MayRemoveWals, CleanupEnds;
  }

  /** The catalogue has a line for the file. */
  predicate IsListed(s: State, n: WalName) { n in NameSet(s.xlogdb) }

  lemma SelectedNames(s: State, id: BackupId, skip: bool, concurrent: bool, recognised: bool, n: WalName)
    requires Sane(s) && id in s.backups
    ensures n in NameSet(Selected(s, Delete(id, skip, concurrent, recognised))) <==>
      MayFree(s, id, skip) && IsListed(s, n) && IsAnyXlogFile(n) && IsFreed(s.backups, id, concurrent, recognised, n)
  {
    var wals := Selected(s, Delete(id, skip, concurrent, recognised));
    if n in NameSet(wals) {
      var w :| w in wals && w.name == n;
      DeletionSelectsExactly(s, id, skip, concurrent, recognised, w);
    }
    if IsListed(s, n) {
      var w :| w in s.xlogdb && w.name == n;
      DeletionSelectsExactly(s, id, skip, concurrent, recognised, w);
    }
    hide IsFreed, MayFree, Selected, Sane;
  }

  lemma ExactStepTakes(s: State, step: Step, n: WalName)
    requires Consistent(s) && Enabled(s, step) && StepIsExact(s, step) && OnDisk(s.archive, n)
    ensures OnDisk(Apply(s, step).archive, n) <==> n !in NameSet(Selected(s, step))
  {
    StepTakes(s, step, n);
    if n in NameSet(Selected(s, step)) {
      SelectedAreCatalogued(s, step);
      CataloguedIsReached(s.archive, Selected(s, step), DirOf(n));
      NameInItsDirectory(Selected(s, step), n);
    } else {
      ExactMeansUnwiped(s, step, n);
    }
  }

  /** All that the purge does to such a server: what is older than the first copy goes. */
  lemma PurgeEffect(s: State, id: BackupId, evenWithoutBegin: bool, n: WalName)
    requires Consistent(s) && IsNewest(s.backups, id) && StepIsExact(s, PurgeFirst(id, evenWithoutBegin)) && OnDisk(s.archive, n)
    ensures Apply(s, PurgeFirst(id, evenWithoutBegin)).backups == s.backups
    ensures OnDisk(Apply(s, PurgeFirst(id, evenWithoutBegin)).archive, n) <==>
      !(&& (forall j :: j in s.backups && j < id ==> !IsCopied(s.backups[j]))
        && (s.backups[id].beginWal.Some? || evenWithoutBegin)
        && IsListed(s, n) && IsAnyXlogFile(n) && !n.History? && BeforeBegin(s.backups[id], n))
  {
    var step := PurgeFirst(id, evenWithoutBegin);
    var wals := Selected(s, step);
    if n in NameSet(wals) {
      var w :| w in wals && w.name == n;
      PurgeSelectsExactly(s, id, evenWithoutBegin, w);
    }
    if IsListed(s, n) {
      var w :| w in s.xlogdb && w.name == n;
      PurgeSelectsExactly(s, id, evenWithoutBegin, w);
    }
    ExactStepTakes(s, step, n);
    hide Consistent, StepIsExact, Selected;
  }

  // ---------------------------------------------------------------- what is reported

  lemma {:induction false} GroupsReport(a: Archive, groups: seq<Group>, n: WalName)
    requires DeleteGroups(a, groups).ok
    ensures n in DeleteGroups(a, groups).removed <==> exists i :: 0 <= i < |groups| && n in NameSet(groups[i].wals)
  {
    if groups != [] {
      var init, last := groups[..|groups| - 1], groups[|groups| - 1];
      GroupsReport(a, init, n);
      assert groups == init + [last];
      assert n in NamesOf(last.wals) <==> n in NameSet(last.wals) by {
        if n in NamesOf(last.wals) {
          var k :| 0 <= k < |last.wals| && NamesOf(last.wals)[k] == n;
          assert last.wals[k] in last.wals;
        }
        if n in NameSet(last.wals) {
          var w :| w in last.wals && w.name == n;
          var k :| 0 <= k < |last.wals| && last.wals[k] == w;
          assert NamesOf(last.wals)[k] == n;
        }
      }
    }
  }

  /** The names reported as removed are those of the lines that went. */
  lemma ReportsAreSelected(a: Archive, wals: seq<WalFileInfo>, n: WalName)
    requires DeleteGroups(a, GroupByDir(wals)).ok
    ensures n in DeleteGroups(a, GroupByDir(wals)).removed <==> n in NameSet(wals)
  {
    var groups := GroupByDir(wals);
    GroupsReport(a, groups, n);
    GroupByDirIsPartition(wals);
    hide DeleteGroups, GroupByDir;
    if n in NameSet(wals) {
      NameInItsDirectory(wals, n);
      var i :| 0 <= i < |groups| && groups[i].dir == DirOf(n);
      assert groups[i].wals == InDir(wals, DirOf(n));
    }
    if i :| 0 <= i < |groups| && n in NameSet(groups[i].wals) {
      NamedInDir(wals, groups[i].dir, n);
    }
  }

  // ---------------------------------------------------------------- arriving, and empty directories

  /** Archiving adds the file and its line, unless the file is there already. */
  lemma ArchivingEffect(s: State, wal: WalFileInfo, n: WalName)
    ensures var s' := Apply(s, ArchiveWal(wal));
      && (OnDisk(s'.archive, n) <==> OnDisk(s.archive, n) || n == wal.name)
      && s'.xlogdb == (if OnDisk(s.archive, wal.name) then s.xlogdb else s.xlogdb + [wal])
      && s'.backups == s.backups && s'.keep == s.keep
  {
  }

  /** No directory is left empty: one that exists has a file. */
  ghost predicate NoneEmpty(a: Archive) { forall d :: d in a ==> a[d] != {} }

  lemma {:induction false} UnlinkingLeavesNoneEmpty(a: Archive, wals: seq<WalFileInfo>)
    requires NoneEmpty(a)
    ensures NoneEmpty(UnlinkAll(a, wals))
  {
    if wals != [] { UnlinkingLeavesNoneEmpty(a, wals[..|wals| - 1]); }
  }

  lemma {:induction false} DeletingLeavesNoneEmpty(a: Archive, groups: seq<Group>)
    requires NoneEmpty(a)
    ensures NoneEmpty(DeleteGroups(a, groups).archive)
  {
    if groups != [] {
      var before := DeleteGroups(a, groups[..|groups| - 1]);
      DeletingLeavesNoneEmpty(a, groups[..|groups| - 1]);
      UnlinkingLeavesNoneEmpty(before.archive, groups[|groups| - 1].wals);
      hide UnlinkAll;
    }
  }

  lemma StepLeavesNoneEmpty(s: State, step: Step)
    requires NoneEmpty(s.archive) && Enabled(s, step)
    ensures NoneEmpty(Apply(s, step).archive)
  {
    DeletingLeavesNoneEmpty(s.archive, GroupByDir(Selected(s, step)));
    hide DeleteGroups, DoomedLines, GroupByDir;
  }

  /** In every run a WAL directory exists exactly while it has a file, so that the only directories a
      deletion can miss are those that were emptied. */
  lemma {:induction false} DirectoriesHaveFiles(r: Run, d: Dir)
    requires IsRun(r)
    ensures d in Final(r).archive <==> exists n :: FileAt(Final(r).archive, d, n)
  {
    RunsLeaveNoneEmpty(r);
    var a := Final(r).archive;
    if d in a {
      var n :| n in a[d];
      assert FileAt(a, d, n);
    }
  }

  lemma {:induction false} RunsLeaveNoneEmpty(r: Run)
    requires IsRun(r)
    ensures NoneEmpty(Final(r).archive)
  {
    if r.Then? {
      RunsLeaveNoneEmpty(r.before);
      StepLeavesNoneEmpty(Final(r.before), r.step);
    }
  }

  // ---------------------------------------------------------------- taking a backup

  /** What the record of a backup holds when its copy has ended well. */
  lemma TakingABackup(s: State, id: BackupId, parent: Option<BackupId>, version: Option<nat>, size: nat, begin: Segment, end: Segment)
    requires Enabled(s, StartBackup(id, parent, version, size))
    ensures var started := Apply(s, StartBackup(id, parent, version, size));
      var copying := Apply(started, BeginCopy(id, begin));
      var ended := Apply(copying, EndCopy(id, Some(end), true));
      ended.backups[id] == BackupInfo(WaitingForWals, Some(begin.tli), Some(begin), Some(end), version, size, parent, None)
      && ended.backups.Keys == s.backups.Keys + {id} && ended.xlogdb == s.xlogdb && ended.archive == s.archive
  {
  }
}
