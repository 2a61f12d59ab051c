/** The 256-entry shortcut of `delete_wals` against a directory that also holds a backup
    label: deleting a backup destroys a segment that another DONE backup needs. */
module CrowdedDirectory {
  import opened Wrappers
  import opened Xlog
  import opened Catalog
  import opened WalCleanup
  import opened WalArchive
  import opened BackupMachine
  import opened BackupSafety
  import opened BackupForest
  import opened BackupWalks
  import opened TreeRemoval

  const DIR: Dir := HashDir(1, 1)
  const LAST: Segment := Segment(1, 1, 255)
  const LABEL: WalName := Label(Segment(1, 1, 240), 40)

  function Line(n: WalName): WalFileInfo { WalFileInfo(n, 0x100_0000, "0.0", None) }

  function Segments(k: nat): seq<WalFileInfo> {
    seq(k, i requires 0 <= i < k => Line(Wal(Segment(1, 1, i))))
  }

  function Copy(first: Segment): BackupInfo {
    BackupInfo(Done, Some(1), Some(first), Some(first), None, 0x100_0000, None, None)
  }

  /** One log file of 256 segments plus one backup label; an old backup on the first
      segment and a new one on the last. */
  function Records(): Backups { map[1 := Copy(Segment(1, 1, 0)), 2 := Copy(LAST)] }

  function Lines(): seq<WalFileInfo> { Segments(256) + [Line(LABEL)] }

  function Files(): Archive {
    map[DIR := (set i | 0 <= i < 256 :: Wal(Segment(1, 1, i))) + {LABEL}]
  }

  function Before(): State { State(Records(), map[], Lines(), Files()) }

  const DELETE_OLD: Step := Delete(1, true, true, true)

  lemma OneSegmentCopy(first: Segment, f: Layout)
    ensures SegmentsFrom(first, first, f) == [first]
  {
    var next := NextSegment(first, f);
    assert SegmentsFrom(next, first, f) == [];
  }

  lemma LinesAreOnDisk()
    ensures LinesOnDisk(Lines(), Files()) && WellFiled(Files())
  {
    var lines := Lines();
    assert forall i :: 0 <= i < 256 ==> lines[i] == Line(Wal(Segment(1, 1, i)));
    assert lines[256] == Line(LABEL);
  }

  lemma CopyIsRecoverable(first: Segment)
    requires OnDisk(Files(), Wal(first))
    ensures Recoverable(Files(), Copy(first)) && RequiredSegments(Copy(first)) == [first]
  {
    OneSegmentCopy(first, LayoutOf(None, 0x100_0000));
  }

  lemma RecordsAreSane()
    ensures Sane(Before())
  {
    LinesAreOnDisk();
    hide WellFiled, Lines;
  }

  lemma BeforeIsGood()
    ensures Inv(Before()) && Enabled(Before(), DELETE_OLD)
  {
    LinesAreOnDisk();
    RecordsAreSane();
    hide Sane, LinesOnDisk;
    assert OnDisk(Files(), Wal(Segment(1, 1, 0))) && OnDisk(Files(), Wal(LAST));
    CopyIsRecoverable(Segment(1, 1, 0));
    CopyIsRecoverable(LAST);
    hide Recoverable, Files, Lines;
  }

  lemma {:induction false} EarlySegmentsDoomed(p: Policy, k: nat)
    requires p.timelines == {} && p.ranges == [] && p.until == Some(Copy(LAST)) && k <= 255
    ensures DoomedLines(Segments(k), p) == Segments(k)
    decreases k
  {
    if k > 0 {
      EarlySegmentsDoomed(p, k - 1);
      assert Segments(k)[..k - 1] == Segments(k - 1);
      var last := Line(Wal(Segment(1, 1, k - 1)));
      assert Segments(k)[k - 1] == last;
      assert Segments(k) == Segments(k - 1) + [last];
      assert !IsKept(last.name, p);
    }
  }

  lemma {:induction false} AllInDir(wals: seq<WalFileInfo>, d: Dir)
    requires forall i :: 0 <= i < |wals| ==> DirOf(wals[i].name) == d
    ensures InDir(wals, d) == wals
  {
    if wals != [] {
      var init, w := wals[..|wals| - 1], wals[|wals| - 1];
      AllInDir(init, d);
      assert wals == init + [w];
      OneMoreInDir(init, w, d);
    }
  }

  lemma PolicyOfTheDeletion()
    ensures MayRemoveWals(Before().backups, Before().keep, 1, true)
    ensures DeletePolicy(Before(), 1, true, true, true) == Policy({}, [], Some(Copy(LAST)))
  {
    var backups := Before().backups;
    assert OlderCopyDone(backups, 1) == {};
    assert NewerCopyDone(backups, 1) == {2} by { assert 2 in NewerCopyDone(backups, 1); }
    assert NextCopyDone(backups, 1) == Some(2);
    var archiving := Available(backups, ARCHIVING);
    assert archiving.Keys == {1, 2};
    assert (set j | j in archiving && !(true && j == 1) :: archiving[j].timeline) == {Some(1)} by {
      assert archiving[2].timeline == Some(1);
    }
  }

  lemma SelectedLines()
    ensures Selected(Before(), DELETE_OLD) == Segments(255) + [Line(LABEL)]
  {
    PolicyOfTheDeletion();
    var p := Policy({}, [], Some(Copy(LAST)));
    var lines := Before().xlogdb;
    EarlySegmentsDoomed(p, 255);
    assert lines[..256] == Segments(256);
    assert Segments(256)[..255] == Segments(255);
    assert IsKept(Wal(LAST), p);
    assert DoomedLines(Segments(256), p) == Segments(255) + [];
    assert !IsKept(LABEL, p);
  }

  lemma LastSegmentVanishes()
    ensures OnDisk(Files(), Wal(LAST)) && !OnDisk(Apply(Before(), DELETE_OLD).archive, Wal(LAST))
    ensures Wal(LAST) !in NameSet(Segments(255) + [Line(LABEL)])
  {
    LinesAreOnDisk();
    PolicyOfTheDeletion();
    SelectedLines();
    var doomed := Segments(255) + [Line(LABEL)];
    var p := Policy({}, [], Some(Copy(LAST)));
    DoomedAreCatalogued(Lines(), Files(), p);
    AllInDir(doomed, DIR);
    WhatVanishes(Files(), doomed, DIR, Wal(LAST));
    assert Apply(Before(), DELETE_OLD).archive == DeleteGroups(Files(), GroupByDir(doomed)).archive;
  }

  lemma OtherRecordStays(s: State, step: Step, j: BackupId)
    requires step.Delete? && step.id in s.backups && j in s.backups && j != step.id
    requires s.backups[step.id].parent.None?
    ensures var after := Apply(s, step); j in after.backups && after.backups[j] == s.backups[j]
  {
  }

  /** A server reached by a run and consistent, on which deleting the old backup leaves the surviving DONE
      backup without its only segment, although no rule selected that segment. */
  lemma DeleteBreaksDone()
    ensures IsRun(CrowdedRun()) && Final(CrowdedRun()) == Before()
    ensures Inv(Before()) && Enabled(Before(), DELETE_OLD)
    ensures Wal(LAST) !in NameSet(Selected(Before(), DELETE_OLD))
    ensures OnDisk(Before().archive, Wal(LAST))
    ensures Lost(Apply(Before(), DELETE_OLD), 2, LAST)
  {
    CrowdedServerIsReached();
    hide IsRun, Final;
    BeforeIsGood();
    SelectedLines();
    LastSegmentVanishes();
    OtherRecordStays(Before(), DELETE_OLD, 2);
    CopyIsRecoverable(LAST);
    StillDone(Apply(Before(), DELETE_OLD));
  }

  // ---------------------------------------------------------------- how the server gets there

  const SEGMENT_SIZE: nat := 0x100_0000

  function Waiting(first: Segment): BackupInfo { Copy(first).(status := WaitingForWals) }

  /** Both backups taken, nothing archived yet. */
  function BackedUp(): Run {
    Then(Then(Then(Then(Then(Then(Begin,
      StartBackup(1, None, None, SEGMENT_SIZE)), BeginCopy(1, Segment(1, 1, 0))), EndCopy(1, Some(Segment(1, 1, 0)), true)),
      StartBackup(2, None, None, SEGMENT_SIZE)), BeginCopy(2, LAST)), EndCopy(2, Some(LAST), true))
  }

  function Archived(k: nat): Run {
    if k == 0 then BackedUp() else Then(Archived(k - 1), ArchiveWal(Line(Wal(Segment(1, 1, k - 1)))))
  }

  /** The run: two backups, 256 segments and a label archived, two checks. */
  function CrowdedRun(): Run {
    Then(Then(Then(Archived(256), ArchiveWal(Line(LABEL))), CheckBackup(1, Some(LAST))), CheckBackup(2, Some(LAST)))
  }

  function FirstFiles(k: nat): Archive {
    if k == 0 then map[] else map[DIR := set i | 0 <= i < k :: Wal(Segment(1, 1, i))]
  }

  function WaitingRecords(): Backups { map[1 := Waiting(Segment(1, 1, 0)), 2 := Waiting(LAST)] }

  lemma FirstBackup(r: Run)
    requires r == Then(Then(Then(Begin, StartBackup(1, None, None, SEGMENT_SIZE)), BeginCopy(1, Segment(1, 1, 0))),
                       EndCopy(1, Some(Segment(1, 1, 0)), true))
    ensures IsRun(r) && Final(r) == State(map[1 := Waiting(Segment(1, 1, 0))], map[], [], map[])
  {
    var first := Segment(1, 1, 0);
    var b := BackupInfo(Empty, None, None, None, None, SEGMENT_SIZE, None, None);
    var s1 := State(map[1 := b], map[], [], map[]);
    var s2 := State(map[1 := b.(status := Started, timeline := Some(1), beginWal := Some(first))], map[], [], map[]);
    RunGoesOn(Begin, INITIAL, r.before.before.step, s1);
    hide IsRun, Final;
    RunGoesOn(r.before.before, s1, r.before.step, s2);
    RunGoesOn(r.before, s2, r.step, State(map[1 := Waiting(first)], map[], [], map[]));
  }

  lemma BothBackups()
    ensures IsRun(BackedUp()) && Final(BackedUp()) == State(WaitingRecords(), map[], [], map[])
  {
    var r := BackedUp();
    FirstBackup(r.before.before.before);
    hide IsRun, Final;
    var one := Waiting(Segment(1, 1, 0));
    var b := BackupInfo(Empty, None, None, None, None, SEGMENT_SIZE, None, None);
    var s0 := State(map[1 := one], map[], [], map[]);
    var s1 := State(map[1 := one, 2 := b], map[], [], map[]);
    var s2 := State(map[1 := one, 2 := b.(status := Started, timeline := Some(1), beginWal := Some(LAST))], map[], [], map[]);
    RunGoesOn(r.before.before.before, s0, r.before.before.step, s1);
    RunGoesOn(r.before.before, s1, r.before.step, s2);
    RunGoesOn(r.before, s2, r.step, State(WaitingRecords(), map[], [], map[]));
  }

  lemma StoreNext(k: nat)
    requires k > 0
    ensures !OnDisk(FirstFiles(k - 1), Wal(Segment(1, 1, k - 1)))
    ensures Store(FirstFiles(k - 1), Wal(Segment(1, 1, k - 1))) == FirstFiles(k)
  {
    var last := Wal(Segment(1, 1, k - 1));
    var fewer := set i | 0 <= i < k - 1 :: Wal(Segment(1, 1, i));
    assert (set i | 0 <= i < k :: Wal(Segment(1, 1, i))) == fewer + {last};
    assert last !in fewer;
    if k == 1 { assert fewer == {}; }
    var before, after := FirstFiles(k - 1), Store(FirstFiles(k - 1), last);
    assert before == if k == 1 then map[] else map[DIR := fewer];
    assert after == map[DIR := fewer + {last}];
  }

  lemma {:induction false} SegmentsArchived(k: nat)
    ensures IsRun(Archived(k)) && Final(Archived(k)) == State(WaitingRecords(), map[], Segments(k), FirstFiles(k))
  {
    if k == 0 {
      BothBackups();
      assert Segments(0) == [];
    } else {
      SegmentsArchived(k - 1);
      StoreNext(k);
      var line := Line(Wal(Segment(1, 1, k - 1)));
      assert Segments(k) == Segments(k - 1) + [line];
      hide IsRun, Final, Store, FirstFiles;
      var s := State(WaitingRecords(), map[], Segments(k - 1), FirstFiles(k - 1));
      RunGoesOn(Archived(k - 1), s, ArchiveWal(line), State(WaitingRecords(), map[], Segments(k), FirstFiles(k)));
    }
  }

  lemma LastIsLatest()
    ensures IsLatest(Files(), 1, Some(LAST))
  {
    forall log, n | FileAt(Files(), HashDir(1, log), n) && n.Wal? ensures SegLe(n.s, LAST) {
      assert HashDir(1, log) == DIR;
    }
  }

  lemma CheckGrantsDone(first: Segment)
    requires OnDisk(Files(), Wal(first)) && first.tli == 1 && SegLe(first, LAST)
    ensures CheckedStatus(Files(), Waiting(first), Some(LAST)) == Done
  {
    CopyIsRecoverable(first);
    assert RequiredSegments(Waiting(first)) == [first];
  }

  lemma LabelStored(k: nat)
    requires k == 256
    ensures !OnDisk(FirstFiles(k), LABEL) && Store(FirstFiles(k), LABEL) == Files()
  {
  }

  lemma AllArchived(r: Run, k: nat)
    requires r == Then(Archived(k), ArchiveWal(Line(LABEL))) && k == 256
    ensures IsRun(r) && Final(r) == State(WaitingRecords(), map[], Lines(), Files())
  {
    SegmentsArchived(k);
    LabelStored(k);
    hide IsRun, Final, Archived, FirstFiles, Files, Store;
    var s := State(WaitingRecords(), map[], Segments(k), FirstFiles(k));
    RunGoesOn(Archived(k), s, ArchiveWal(Line(LABEL)), State(WaitingRecords(), map[], Lines(), Files()));
  }

  lemma CheckStep(r: Run, s: State, id: BackupId, first: Segment)
    requires IsRun(r) && Final(r) == s && s.archive == Files() && id in s.backups && s.backups[id] == Waiting(first)
    requires OnDisk(Files(), Wal(first)) && first.tli == 1 && SegLe(first, LAST)
    ensures var step := CheckBackup(id, Some(LAST));
      IsRun(Then(r, step)) && Final(Then(r, step)) == s.(backups := s.backups[id := Copy(first)])
  {
    LastIsLatest();
    CheckGrantsDone(first);
    hide IsRun, Final, CheckedStatus, IsLatest, Files;
    RunGoesOn(r, s, CheckBackup(id, Some(LAST)), s.(backups := s.backups[id := Copy(first)]));
  }

  /** The server of the counterexample is the end of a run. */
  lemma CrowdedServerIsReached()
    ensures IsRun(CrowdedRun()) && Final(CrowdedRun()) == Before()
  {
    var r := CrowdedRun();
    AllArchived(r.before.before, 256);
    assert OnDisk(Files(), Wal(Segment(1, 1, 0))) && OnDisk(Files(), Wal(LAST));
    hide IsRun, Final, Files, Lines, Archived;
    var s1 := State(WaitingRecords(), map[], Lines(), Files());
    CheckStep(r.before.before, s1, 1, Segment(1, 1, 0));
    var s2 := s1.(backups := s1.backups[1 := Copy(Segment(1, 1, 0))]);
    CheckStep(r.before, s2, 2, LAST);
    assert s2.backups[2 := Copy(LAST)] == Records();
  }

  /** Backup `id` is DONE and lacks a segment it needs. */
  ghost predicate Lost(s: State, id: BackupId, seg: Segment) {
    && id in s.backups && s.backups[id].status == Done
    && !OnDisk(s.archive, Wal(seg)) && !Recoverable(s.archive, s.backups[id])
  }

  lemma StillDone(after: State)
    requires 2 in after.backups && after.backups[2] == Copy(LAST)
    requires !OnDisk(after.archive, Wal(LAST)) && RequiredSegments(Copy(LAST)) == [LAST]
    ensures Lost(after, 2, LAST)
  {
    assert LAST in RequiredSegments(after.backups[2]);
  }

  // ---------------------------------------------------------------- the deletion after that

  /** What the deletion leaves: a DONE backup, a line for its segment, and no directory. */
  function After(): State { State(map[2 := Copy(LAST)], map[], [Line(Wal(LAST))], map[]) }

  lemma {:induction false} OneGroup(wals: seq<WalFileInfo>, d: Dir)
    requires wals != [] && forall i :: 0 <= i < |wals| ==> DirOf(wals[i].name) == d
    ensures GroupByDir(wals) == [Group(d, wals)]
    decreases |wals|
  {
    var init, last := wals[..|wals| - 1], wals[|wals| - 1];
    assert wals == init + [last];
    if init != [] {
      OneGroup(init, d);
      assert AddToGroups([Group(d, init)], last) == [Group(d, init + [last])];
    }
  }

  lemma {:induction false} EarlySegmentsGo(p: Policy, k: nat)
    requires p.timelines == {} && p.ranges == [] && p.until == Some(Copy(LAST)) && k <= 255
    ensures KeptLines(Segments(k), p) == []
    decreases k
  {
    if k > 0 {
      EarlySegmentsGo(p, k - 1);
      assert Segments(k)[..k - 1] == Segments(k - 1);
      assert !IsKept(Segments(k)[k - 1].name, p);
    }
  }

  lemma KeptLine()
    ensures KeptLines(Lines(), Policy({}, [], Some(Copy(LAST)))) == [Line(Wal(LAST))]
  {
    var p := Policy({}, [], Some(Copy(LAST)));
    EarlySegmentsGo(p, 255);
    assert Lines()[..256] == Segments(256) && Lines()[256] == Line(LABEL);
    assert Segments(256)[..255] == Segments(255) && Segments(256)[255] == Line(Wal(LAST));
    assert IsKept(Wal(LAST), p) && !IsKept(LABEL, p);
    assert KeptLines(Segments(256), p) == [] + [Line(Wal(LAST))];
  }

  lemma DirectoryGoes(doomed: seq<WalFileInfo>)
    requires |doomed| == 256 && forall i :: 0 <= i < |doomed| ==> DirOf(doomed[i].name) == DIR
    ensures DeleteGroups(Files(), GroupByDir(doomed)) == Outcome(map[], NamesOf(doomed), true)
  {
    OneGroup(doomed, DIR);
    var groups := [Group(DIR, doomed)];
    assert groups[..0] == [];
    assert Files() - {DIR} == map[];
    assert DeleteGroups(Files(), groups[..0]) == Outcome(Files(), [], true);
    assert [] + NamesOf(doomed) == NamesOf(doomed);
  }

  lemma CleanupTakesTheDirectory(p: Policy)
    requires p == Policy({}, [], Some(Copy(LAST))) && DoomedLines(Lines(), p) == Segments(255) + [Line(LABEL)]
    ensures CleanupEnds(Before(), p) && Cleanup(Before(), p) == Before().(xlogdb := [Line(Wal(LAST))], archive := map[])
  {
    KeptLine();
    var doomed := Segments(255) + [Line(LABEL)];
    assert forall i :: 0 <= i < 255 ==> doomed[i] == Line(Wal(Segment(1, 1, i)));
    DirectoryGoes(doomed);
    hide Files, Lines, DeleteGroups, GroupByDir, DoomedLines, KeptLines;
  }

  lemma AfterTheDeletion()
    ensures Apply(Before(), DELETE_OLD) == After()
  {
    PolicyOfTheDeletion();
    SelectedLines();
    var p := Policy({}, [], Some(Copy(LAST)));
    assert DoomedLines(Before().xlogdb, p) == Segments(255) + [Line(LABEL)];
    CleanupTakesTheDirectory(p);
    assert RemoveRecord(Records(), 1) == map[2 := Copy(LAST)];
    hide Files, Lines, Segments, Cleanup, CleanupEnds, MayRemoveWals, DeletePolicy, DoomedLines, RemoveRecord;
  }

  const CALL: Call := Call(false, None)

  lemma NextDeletionStops()
    ensures Stops(After(), Drop(2, CALL))
  {
    var s, line := After(), Line(Wal(LAST));
    assert OlderCopyDone(s.backups, 2) == {} && NewerCopyDone(s.backups, 2) == {};
    assert DeletePolicy(s, 2, true, false, false) == Policy({}, [], None);
    assert !IsKept(line.name, Policy({}, [], None));
    assert DoomedLines([line], Policy({}, [], None)) == [] + [line];
    OneGroup([line], DIR);
    var groups := [Group(DIR, [line])];
    ExistingPrefix(s.archive, groups);
  }

  lemma LinksAreFine()
    ensures var backups := After().backups;
      Linked(backups) && NoOrphans(backups) && NoneAbove(backups, 2) && ChildrenOf(backups, 2) == []
      && NoKilledChild(backups, 2) && RootIsListed(backups, 2)
  {
    var backups := After().backups;
    assert forall p: BackupId :: ChildrenOf(backups, p) == [];
    assert WellFormedRecord(backups, 2);
    assert WalkAll(backups, [], 2) == [];
  }

  /** After a run, a tree of one finished backup, whose links are all in order, cannot be deleted:
      its deletion meets the directory that the shortcut took, raises, and leaves the record DONE. */
  lemma TreeDeletionStops()
    ensures var r := Then(CrowdedRun(), DELETE_OLD); IsRun(r) && Final(r) == After()
    ensures var backups := After().backups;
      Linked(backups) && NoOrphans(backups) && NoneAbove(backups, 2) && NoKilledChild(backups, 2) && RootIsListed(backups, 2)
    ensures !DeleteTree(Untouched(After()), 2, 2, CALL).ok
    ensures 2 in DeleteTree(Untouched(After()), 2, 2, CALL).state.backups
    ensures DeleteTree(Untouched(After()), 2, 2, CALL).state.backups[2].status == Done
  {
    CrowdedServerIsReached();
    AfterTheDeletion();
    BeforeIsGood();
    hide Inv, After, Before, DELETE_OLD;
    RunGoesOn(CrowdedRun(), Before(), DELETE_OLD, After());
    TreeIsRaised();
  }

  lemma TreeIsRaised()
    ensures Linked(After().backups) && NoOrphans(After().backups) && NoneAbove(After().backups, 2)
    ensures NoKilledChild(After().backups, 2) && RootIsListed(After().backups, 2)
    ensures !DeleteTree(Untouched(After()), 2, 2, CALL).ok
    ensures 2 in DeleteTree(Untouched(After()), 2, 2, CALL).state.backups
    ensures DeleteTree(Untouched(After()), 2, 2, CALL).state.backups[2].status == Done
  {
    LinksAreFine();
    NextDeletionStops();
    assert 2 in After().backups && After().backups[2].status == Done;
    hide Linked, Walk, NoKilledChild, Stops, DeleteTree;
    LoneDeletionStops(After(), 2, 2, CALL);
  }
}
