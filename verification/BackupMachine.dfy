/** The server as a state machine: the backup catalog, the keep annotations, the WAL
    catalogue (xlogdb) and the WAL files on disk, and every step that changes them. */
module BackupMachine {
  import opened Wrappers
  import opened Xlog
  import opened Catalog
  import opened WalCleanup
  import opened WalArchive

  datatype State = State(
    backups: Backups,
    keep: map<BackupId, KeepTarget>,
    xlogdb: seq<WalFileInfo>,
    archive: Archive)

  datatype Step =
    | StartBackup(id: BackupId, parent: Option<BackupId>, version: Option<nat>, segmentSize: nat)
    | BeginCopy(id: BackupId, begin: Segment)
    | EndCopy(id: BackupId, end: Option<Segment>, success: bool)
    | ArchiveWal(wal: WalFileInfo)
    | PurgeFirst(id: BackupId, evenWithoutBegin: bool)
    | CheckBackup(id: BackupId, last: Option<Segment>)
    | Keep(id: BackupId, target: KeepTarget)
    | Release(id: BackupId)
    | Delete(id: BackupId, skipIfStandalone: bool, concurrent: bool, sameObject: bool)

  // ---------------------------------------------------------------- removing WALs

  /** `remove_wal_before_backup`: an interrupted deletion leaves the catalogue as it was. */
  function Cleanup(s: State, p: Policy): State {
    var outcome := DeleteGroups(s.archive, GroupByDir(DoomedLines(s.xlogdb, p)));
    s.(archive := outcome.archive, xlogdb := if outcome.ok then KeptLines(s.xlogdb, p) else s.xlogdb)
  }

  /** The names that a cleanup reports, those of the lines it dropped. */
  function CleanupReports(s: State, p: Policy): seq<WalName> {
    DeleteGroups(s.archive, GroupByDir(DoomedLines(s.xlogdb, p))).removed
  }

  predicate CleanupEnds(s: State, p: Policy) {
    DeleteGroups(s.archive, GroupByDir(DoomedLines(s.xlogdb, p))).ok
  }

  // ---------------------------------------------------------------- deleting a backup

  /** Where the cut goes: at the next finished copy; else at the deleted backup itself
      under concurrent backup; else nowhere, and everything may go. */
  function RemoveUntil(backups: Backups, id: BackupId, concurrent: bool): Option<BackupInfo>
    requires id in backups
  {
    match NextCopyDone(backups, id)
    case Some(next) => Some(backups[next])
    case None => if concurrent then Some(backups[id]) else None
  }

  function DeletePolicy(s: State, id: BackupId, skipIfStandalone: bool, concurrent: bool, sameObject: bool): Policy
    requires id in s.backups
  {
    var until := RemoveUntil(s.backups, id, concurrent);
    Policy(TimelinesToProtect(until, id, sameObject, Available(s.backups, ARCHIVING)),
           ProtectedRanges(s.backups, s.keep, id, skipIfStandalone),
           until)
  }

  function IndexIn(list: seq<BackupId>, id: BackupId): (k: nat)
    requires id in list
    ensures k < |list| && list[k] == id && id !in list[..k]
  {
    if list[0] == id then 0 else 1 + IndexIn(list[1..], id)
  }

  /** `list.remove`, then an emptied list becomes None; removing from None or an absent
      element raises. */
  function RemoveChild(children: Option<seq<BackupId>>, id: BackupId): Result<Option<seq<BackupId>>, ()> {
    if children.None? || id !in children.value then Err(())
    else
      var k := IndexIn(children.value, id);
      var rest := children.value[..k] + children.value[k + 1..];
      Ok(if rest == [] then None else Some(rest))
  }

  /** The record of the parent, if the backup is incremental and the parent is there. */
  function ParentOf(backups: Backups, id: BackupId): Option<BackupId>
    requires id in backups
  {
    var parent := backups[id].parent;
    if parent.Some? && parent.value in backups && backups[parent.value].status != Empty then parent else None
  }

  /** Removing a record and its mention in the parent's list. The record goes first, so
      an exception in the second half still leaves it removed. */
  function RemoveRecord(backups: Backups, id: BackupId): Backups
    requires id in backups
  {
    match ParentOf(backups, id)
    case None => backups - {id}
    case Some(p) =>
      match RemoveChild(backups[p].children, id)
      case Err(_) => backups - {id}
      case Ok(children) => backups[p := backups[p].(children := children)] - {id}
  }

  /** Removing the record gets to its end: the parent, if there is one, lists the backup. */
  predicate RecordRemovalEnds(backups: Backups, id: BackupId)
    requires id in backups
  {
    ParentOf(backups, id).Some? ==> RemoveChild(backups[ParentOf(backups, id).value].children, id).Ok?
  }

  function DeleteBackup(s: State, id: BackupId, skipIfStandalone: bool, concurrent: bool, sameObject: bool): State
    requires id in s.backups
  {
    if !MayRemoveWals(s.backups, s.keep, id, skipIfStandalone) then
      s.(backups := RemoveRecord(s.backups, id), keep := s.keep - {id})
    else
      var p := DeletePolicy(s, id, skipIfStandalone, concurrent, sameObject);
      var cleaned := Cleanup(s, p);
      if !CleanupEnds(s, p) then cleaned
      else cleaned.(backups := RemoveRecord(s.backups, id), keep := s.keep - {id})
  }

  /** A deletion gets to its end: no directory is missing, and the parent lists the backup. */
  predicate DeletionEnds(s: State, id: BackupId, skipIfStandalone: bool, concurrent: bool, sameObject: bool)
    requires id in s.backups
  {
    && (MayRemoveWals(s.backups, s.keep, id, skipIfStandalone) ==>
          CleanupEnds(s, DeletePolicy(s, id, skipIfStandalone, concurrent, sameObject)))
    && RecordRemovalEnds(s.backups, id)
  }

  // ---------------------------------------------------------------- the first-backup purge

  /** The oldest finished copy needs nothing from before its own start. A backup that
      never learnt its first segment makes the second purge clear everything. */
  function PurgeFirstBackup(s: State, id: BackupId, evenWithoutBegin: bool): State
    requires id in s.backups
  {
    if s.backups[id].beginWal.None? && !evenWithoutBegin then s
    else if OlderCopyDone(s.backups, id) != {} then s
    else Cleanup(s, PurgePolicy(s, id))
  }

  predicate Purges(s: State, id: BackupId, evenWithoutBegin: bool)
    requires id in s.backups
  {
    (s.backups[id].beginWal.Some? || evenWithoutBegin) && OlderCopyDone(s.backups, id) == {}
  }

  function PurgePolicy(s: State, id: BackupId): Policy
    requires id in s.backups
  {
    Policy({}, [], Some(s.backups[id]))
  }

  // ---------------------------------------------------------------- taking a backup

  function AddChild(children: Option<seq<BackupId>>, id: BackupId): Option<seq<BackupId>> {
    if children.Some? && children.value != [] then Some(children.value + [id]) else Some([id])
  }

  /** The end of a backup, good or bad: its status is set and its parent learns of it. */
  function FinishBackup(backups: Backups, id: BackupId, end: Option<Segment>, success: bool): Backups
    requires id in backups
  {
    var done := backups[id := backups[id].(endWal := end, status := if success then WaitingForWals else Failed)];
    match ParentOf(done, id)
    case None => done
    case Some(p) => done[p := done[p].(children := AddChild(done[p].children, id))]
  }

  // ---------------------------------------------------------------- checking a backup

  /** `r` is the newest segment archived on a timeline. */
  ghost predicate IsLatest(a: Archive, tli: nat, r: Option<Segment>) {
    match r
    case None => forall log, n :: FileAt(a, HashDir(tli, log), n) ==> !n.Wal?
    case Some(s) =>
      && s.tli == tli && OnDisk(a, Wal(s))
      && forall log, n :: FileAt(a, HashDir(tli, log), n) && n.Wal? ==> SegLe(n.s, s)
  }

  function RequiredSegments(b: BackupInfo): seq<Segment>
    requires b.beginWal.Some? && b.endWal.Some?
  {
    SegmentsFrom(b.beginWal.value, b.endWal.value, LayoutOf(b.version, b.segmentSize))
  }

  predicate SomeMissing(a: Archive, segments: seq<Segment>, last: Segment) {
    exists i :: 0 <= i < |segments| && SegLe(segments[i], last) && !OnDisk(a, Wal(segments[i]))
  }

  /** The status a check assigns. It changes nothing when the end is not known yet, and
      raises when the start is unknown or the two ends are on different timelines. */
  function CheckedStatus(a: Archive, b: BackupInfo, last: Option<Segment>): Status {
    if b.beginWal.None? || b.endWal.None? then b.status
    else if last.None? || SegLt(last.value, b.beginWal.value) then WaitingForWals
    else if b.beginWal.value.tli != b.endWal.value.tli then b.status
    else if SomeMissing(a, RequiredSegments(b), last.value) then Failed
    else if SegLe(b.endWal.value, last.value) then Done
    else WaitingForWals
  }

  // ---------------------------------------------------------------- steps

  predicate IsNewest(backups: Backups, id: BackupId) {
    id in backups && forall j :: j in backups ==> j <= id
  }

  /** When the environment lets a step happen. Backups of one server run one at a time
      and get ever larger ids; an incremental backup builds on one that got started; WAL
      only moves forward on a timeline; a copy ends on the timeline it began on. */
  ghost predicate Enabled(s: State, step: Step) {
    match step
    case StartBackup(id, parent, version, size) =>
      && (forall j :: j in s.backups ==> j < id)
      && (parent.Some? ==> parent.value < id && (parent.value in s.backups ==> s.backups[parent.value].status != Empty))
    case BeginCopy(id, begin) =>
      && IsNewest(s.backups, id) && s.backups[id].status in {Empty, Started} && s.backups[id].endWal.None?
      && forall j :: j in s.backups && j < id && s.backups[j].beginWal.Some? && s.backups[j].beginWal.value.tli == begin.tli
          ==> SegLe(s.backups[j].beginWal.value, begin)
    case EndCopy(id, end, success) =>
      && id in s.backups && s.backups[id].status in {Empty, Started}
      && (success ==> end.Some? && s.backups[id].status == Started)
      && (end.Some? ==> s.backups[id].beginWal.Some? && s.backups[id].beginWal.value.tli == end.value.tli)
    case ArchiveWal(wal) => IsAnyXlogFile(wal.name)
    case PurgeFirst(id, _) => IsNewest(s.backups, id)
    case CheckBackup(id, last) =>
      && id in s.backups
      && (s.backups[id].beginWal.Some? ==> IsLatest(s.archive, s.backups[id].beginWal.value.tli, last))
    case Keep(id, target) => true
    case Release(id) => true
    case Delete(id, _, _, _) => id in s.backups
  }

  function Apply(s: State, step: Step): State
    requires step.BeginCopy? || step.EndCopy? || step.PurgeFirst? || step.CheckBackup? || step.Delete? ==> step.id in s.backups
  {
    match step
    case StartBackup(id, parent, version, size) =>
      s.(backups := s.backups[id := BackupInfo(Empty, None, None, None, version, size, parent, None)])
    case BeginCopy(id, begin) =>
      var b := s.backups[id].(status := Started, timeline := Some(begin.tli), beginWal := Some(begin));
      s.(backups := s.backups[id := b])
    case EndCopy(id, end, success) => s.(backups := FinishBackup(s.backups, id, end, success))
    case ArchiveWal(wal) =>
      // A file that is already there is refused.
      if OnDisk(s.archive, wal.name) then s
      else s.(archive := Store(s.archive, wal.name), xlogdb := s.xlogdb + [wal])
    case PurgeFirst(id, evenWithoutBegin) => PurgeFirstBackup(s, id, evenWithoutBegin)
    case CheckBackup(id, last) =>
      s.(backups := s.backups[id := s.backups[id].(status := CheckedStatus(s.archive, s.backups[id], last))])
    case Keep(id, target) => s.(keep := s.keep[id := target])
    case Release(id) => s.(keep := s.keep - {id})
    case Delete(id, skip, concurrent, sameObject) => DeleteBackup(s, id, skip, concurrent, sameObject)
  }

  ghost predicate Next(s: State, step: Step, s': State) {
    Enabled(s, step) && s' == Apply(s, step)
  }

  /** The lines whose files a step removes. */
  function Selected(s: State, step: Step): seq<WalFileInfo> {
    match step
    case Delete(id, skip, concurrent, sameObject) =>
      if id in s.backups && MayRemoveWals(s.backups, s.keep, id, skip)
      then DoomedLines(s.xlogdb, DeletePolicy(s, id, skip, concurrent, sameObject)) else []
    case PurgeFirst(id, evenWithoutBegin) =>
      if id in s.backups && (s.backups[id].beginWal.Some? || evenWithoutBegin) && OlderCopyDone(s.backups, id) == {}
      then DoomedLines(s.xlogdb, PurgePolicy(s, id)) else []
    case _ => []
  }

  // ---------------------------------------------------------------- the invariant

  /** The valid lines of the catalogue name different files, and all are on disk. */
  ghost predicate LinesOnDisk(lines: seq<WalFileInfo>, a: Archive) {
    && (forall i, j :: 0 <= i < j < |lines| && IsAnyXlogFile(lines[i].name) && IsAnyXlogFile(lines[j].name)
          ==> lines[i].name != lines[j].name)
    && (forall i :: 0 <= i < |lines| && IsAnyXlogFile(lines[i].name) ==> OnDisk(a, lines[i].name))
  }

  ghost predicate KnowsItsTimeline(b: BackupInfo) {
    && (b.beginWal.Some? ==> b.timeline == Some(b.beginWal.value.tli))
    && (b.endWal.Some? ==> b.beginWal.Some? && b.endWal.value.tli == b.beginWal.value.tli)
    && (IsCopyDone(b) ==> b.endWal.Some?)
  }

  ghost predicate OrderedBegins(backups: Backups) {
    forall i, j :: i in backups && j in backups && i < j && backups[i].beginWal.Some? && backups[j].beginWal.Some?
      && backups[i].beginWal.value.tli == backups[j].beginWal.value.tli
      ==> SegLe(backups[i].beginWal.value, backups[j].beginWal.value)
  }

  /** Every segment the backup needs to become consistent is in the archive. */
  ghost predicate Recoverable(a: Archive, b: BackupInfo) {
    && b.beginWal.Some? && b.endWal.Some?
    && forall seg :: seg in RequiredSegments(b) ==> OnDisk(a, Wal(seg))
  }

  ghost predicate DoneMeansRecoverable(s: State) {
    forall id :: id in s.backups && s.backups[id].status == Done ==> Recoverable(s.archive, s.backups[id])
  }

  /** What no step ever breaks, shortcut or not. */
  ghost predicate Sane(s: State) {
    && WellFiled(s.archive)
    && (forall id :: id in s.backups ==> KnowsItsTimeline(s.backups[id]))
    && OrderedBegins(s.backups)
  }

  ghost predicate Consistent(s: State) { Sane(s) && LinesOnDisk(s.xlogdb, s.archive) }

  ghost predicate Inv(s: State) { Consistent(s) && DoneMeansRecoverable(s) }
}
