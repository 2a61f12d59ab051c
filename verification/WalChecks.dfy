/** What a check of a backup answers, told by the archive alone, and what the answer means for the
    time after (barman/backup.py, `check_backup`). */
module WalChecks {
  import opened Wrappers
  import opened Xlog
  import opened Catalog
  import opened WalArchive
  import opened BackupMachine

  // ---------------------------------------------------------------- what a backup needs

  predicate EndsKnown(b: BackupInfo) {
    b.beginWal.Some? && b.endWal.Some? && b.beginWal.value.tli == b.endWal.value.tli
  }

  /** A segment that the copy needs: written by PostgreSQL between its two ends. */
  predicate IsRequired(b: BackupInfo, s: Segment)
    requires EndsKnown(b)
  {
    IsBetween(s, b.beginWal.value, b.endWal.value, b.version, b.segmentSize)
  }

  lemma RequiredExactly(b: BackupInfo, s: Segment)
    requires EndsKnown(b)
    ensures s in RequiredSegments(b) <==> IsRequired(b, s)
  {
    GeneratedAreBetween(b.beginWal.value, b.endWal.value, b.version, b.segmentSize, s);
  }

  // ---------------------------------------------------------------- the answers

  /** The archive has got to the backup. */
  predicate Reaches(last: Option<Segment>, s: Segment) { last.Some? && SegLe(s, last.value) }

  /** A required segment that should have come by now is not there. */
  ghost predicate IsOverdue(a: Archive, b: BackupInfo, last: Option<Segment>, s: Segment)
    requires EndsKnown(b)
  {
    IsRequired(b, s) && Reaches(last, s) && !OnDisk(a, Wal(s))
  }

  ghost predicate IsComplete(a: Archive, b: BackupInfo)
    requires EndsKnown(b)
  {
    forall s :: IsRequired(b, s) ==> OnDisk(a, Wal(s))
  }

  /** FAILED when the archive has got past a required segment without it, DONE when it has got past
      the end with all of them, and WAITING_FOR_WALS otherwise. */
  ghost predicate IsJudgement(a: Archive, b: BackupInfo, last: Option<Segment>, status: Status)
    requires EndsKnown(b)
  {
    var reached := Reaches(last, b.beginWal.value);
    && (status == Failed <==> reached && exists s :: IsOverdue(a, b, last, s))
    && (status == Done <==> reached && Reaches(last, b.endWal.value) && IsComplete(a, b))
    && status in {Failed, Done, WaitingForWals}
  }

  lemma CheckIsJudgement(a: Archive, b: BackupInfo, last: Option<Segment>)
    requires EndsKnown(b)
    ensures IsJudgement(a, b, last, CheckedStatus(a, b, last))
  {
    if Reaches(last, b.beginWal.value) {
      MissingMeansOverdue(a, b, last.value);
      if Reaches(last, b.endWal.value) && !SomeMissing(a, RequiredSegments(b), last.value) {
        forall s | IsRequired(b, s) ensures OnDisk(a, Wal(s)) { assert !IsOverdue(a, b, last, s); }
      }
    }
  }

  lemma MissingMeansOverdue(a: Archive, b: BackupInfo, last: Segment)
    requires EndsKnown(b)
    ensures SomeMissing(a, RequiredSegments(b), last) <==> exists s :: IsOverdue(a, b, Some(last), s)
  {
    var segments := RequiredSegments(b);
    if i :| 0 <= i < |segments| && SegLe(segments[i], last) && !OnDisk(a, Wal(segments[i])) {
      RequiredExactly(b, segments[i]);
      assert IsOverdue(a, b, Some(last), segments[i]);
    }
    if s :| IsOverdue(a, b, Some(last), s) {
      RequiredExactly(b, s);
      var i :| 0 <= i < |segments| && segments[i] == s;
    }
  }

  // ---------------------------------------------------------------- what comes after

  /** What the archive may become while only newer WALs of the timeline arrive. */
  ghost predicate MayBecome(a: Archive, later: Archive, tli: nat, last: Option<Segment>) {
    && WellFiled(later)
    && (forall n :: OnDisk(a, n) ==> OnDisk(later, n))
    && (forall s: Segment :: s.tli == tli && OnDisk(later, Wal(s)) && !OnDisk(a, Wal(s)) ==> !Reaches(last, s))
  }

  /** What is overdue never comes: a failed backup stays failed. */
  lemma FailedStaysFailed(a: Archive, b: BackupInfo, last: Option<Segment>, later: Archive, newest: Option<Segment>)
    requires EndsKnown(b) && CheckedStatus(a, b, last) == Failed
    requires IsLatest(a, b.beginWal.value.tli, last) && IsLatest(later, b.beginWal.value.tli, newest)
    requires MayBecome(a, later, b.beginWal.value.tli, last)
    ensures CheckedStatus(later, b, newest) == Failed
  {
    CheckIsJudgement(a, b, last);
    CheckIsJudgement(later, b, newest);
    var s :| IsOverdue(a, b, last, s);
    assert OnDisk(later, Wal(last.value));
    assert IsOverdue(later, b, newest, s);
  }

  function StoreAll(a: Archive, segments: seq<Segment>): Archive {
    if segments == [] then a else Store(StoreAll(a, segments[..|segments| - 1]), Wal(segments[|segments| - 1]))
  }

  lemma {:induction false} StoreAllEffect(a: Archive, segments: seq<Segment>, d: Dir, n: WalName)
    ensures FileAt(StoreAll(a, segments), d, n) <==> FileAt(a, d, n) || (d == DirOf(n) && n.Wal? && n.s in segments)
  {
    if segments != [] {
      var init, last := segments[..|segments| - 1], segments[|segments| - 1];
      StoreAllEffect(a, init, d, n);
      assert segments == init + [last];
    }
  }

  /** A backup that has not failed: its missing segments, and then one more, are yet to come. */
  lemma OthersMayBeDone(a: Archive, b: BackupInfo, last: Option<Segment>) returns (later: Archive, newest: Option<Segment>)
    requires EndsKnown(b) && SegLe(b.beginWal.value, b.endWal.value) && CheckedStatus(a, b, last) != Failed
    requires WellFiled(a) && IsLatest(a, b.beginWal.value.tli, last)
    ensures MayBecome(a, later, b.beginWal.value.tli, last) && IsLatest(later, b.beginWal.value.tli, newest)
    ensures CheckedStatus(later, b, newest) == Done
  {
    var tli, end := b.beginWal.value.tli, b.endWal.value;
    var log := if last.Some? && last.value.log > end.log then last.value.log else end.log;
    var next := Segment(tli, log + 1, 0);
    var coming := RequiredSegments(b) + [next];
    later, newest := StoreAll(a, coming), Some(next);
    forall d, n ensures FileAt(later, d, n) <==> FileAt(a, d, n) || (d == DirOf(n) && n.Wal? && n.s in coming) {
      StoreAllEffect(a, coming, d, n);
    }
    forall s ensures s in coming <==> IsRequired(b, s) || s == next { RequiredExactly(b, s); }
    CheckIsJudgement(a, b, last);
    hide StoreAll, RequiredSegments, CheckedStatus;
    forall s: Segment | s in coming && !OnDisk(a, Wal(s)) ensures !Reaches(last, s) {
      if IsRequired(b, s) { assert !IsOverdue(a, b, last, s); }
    }
    assert OnDisk(later, Wal(next));
    assert IsComplete(later, b);
    CheckIsJudgement(later, b, newest);
  }

  /** FAILED means that nothing which may still arrive can make the backup DONE, and no other answer
      does. */
  lemma FailedMeansHopeless(a: Archive, b: BackupInfo, last: Option<Segment>)
    requires EndsKnown(b) && SegLe(b.beginWal.value, b.endWal.value)
    requires WellFiled(a) && IsLatest(a, b.beginWal.value.tli, last)
    ensures CheckedStatus(a, b, last) == Failed <==>
      forall later, newest :: MayBecome(a, later, b.beginWal.value.tli, last) && IsLatest(later, b.beginWal.value.tli, newest)
        ==> CheckedStatus(later, b, newest) != Done
  {
    var tli := b.beginWal.value.tli;
    if CheckedStatus(a, b, last) == Failed {
      forall later, newest | MayBecome(a, later, tli, last) && IsLatest(later, tli, newest)
        ensures CheckedStatus(later, b, newest) != Done
      {
        FailedStaysFailed(a, b, last, later, newest);
      }
    } else {
      var later, newest := OthersMayBeDone(a, b, last);
    }
  }
}
