/** The backup manager itself: an object whose methods change the catalog, the
    annotations, the WAL catalogue and the archive in place (barman/backup.py). Every
    method is proved to make the step of the state machine that it stands for. */
module BackupManager {
  import opened Wrappers
  import opened Xlog
  import opened Catalog
  import opened WalCleanup
  import opened WalArchive
  import opened BackupMachine
  import opened BackupForest
  import opened WalChecks
  import opened TreeRemoval

  // ---------------------------------------------------------------- listings

  lemma {:induction false} MaxSegmentExists(s: set<Segment>)
    requires s != {}
    ensures exists m :: m in s && forall x :: x in s ==> SegLe(x, m)
    decreases s
  {
    var y :| y in s;
    var rest := s - {y};
    assert s == rest + {y};
    if rest == {} {
      assert y in s && forall x :: x in s ==> SegLe(x, y);
    } else {
      MaxSegmentExists(rest);
      var m :| m in rest && forall x :: x in rest ==> SegLe(x, m);
      var k := if SegLt(m, y) then y else m;
      assert k in s && forall x :: x in s ==> SegLe(x, k);
    }
  }

  /** A directory listing in reverse order: what matters is that segments come newest
      first, which for their fixed-width names is the reverse string order. */
  method ListSegmentsReversed(files: set<WalName>) returns (names: seq<Segment>)
    ensures forall s :: s in names <==> Wal(s) in files
    ensures forall i, j :: 0 <= i < j < |names| ==> SegLe(names[j], names[i])
  {
    names := [];
    var todo := set n | n in files && n.Wal? :: n.s;
    ghost var all := todo;
    while todo != {}
      invariant forall s :: s in all <==> Wal(s) in files
      invariant forall s :: s in all <==> s in todo || s in names
      invariant forall i, s :: 0 <= i < |names| && s in todo ==> SegLe(s, names[i])
      invariant forall i, j :: 0 <= i < j < |names| ==> SegLe(names[j], names[i])
      decreases todo
    {
      MaxSegmentExists(todo);
      var m :| m in todo && forall x :: x in todo ==> SegLe(x, m);
      names := names + [m];
      todo := todo - {m};
    }
  }

  /** The first file of a reversed listing that is a WAL segment. */
  method NewestSegmentIn(files: set<WalName>) returns (r: Option<Segment>)
    ensures r.None? ==> forall n :: n in files ==> !n.Wal?
    ensures r.Some? ==> Wal(r.value) in files && forall n :: n in files && n.Wal? ==> SegLe(n.s, r.value)
  {
    var names := ListSegmentsReversed(files);
    if names == [] {
      assert forall s: Segment :: s !in names;
      return None;
    }
    assert names[0] in names;
    forall n | n in files && n.Wal? ensures SegLe(n.s, names[0]) {
      assert n.s in names;
      var i :| 0 <= i < |names| && names[i] == n.s;
    }
    return Some(names[0]);
  }

  /** `r` is the newest segment of a timeline among the given directories. */
  ghost predicate LatestIn(a: Archive, dirs: set<Dir>, tli: nat, r: Option<Segment>) {
    match r
    case None => forall log, n :: HashDir(tli, log) in dirs && FileAt(a, HashDir(tli, log), n) ==> !n.Wal?
    case Some(s) =>
      && s.tli == tli && DirOf(Wal(s)) in dirs && OnDisk(a, Wal(s))
      && forall log, n :: HashDir(tli, log) in dirs && FileAt(a, HashDir(tli, log), n) && n.Wal? ==> SegLe(n.s, s)
  }

  function Lookup(m: map<nat, Segment>, tli: nat): Option<Segment> { if tli in m then Some(m[tli]) else None }

  /** The directories above and below are separated by their (timeline, log) numbers. */
  ghost predicate Separated(todo: set<Segment>, seen: set<Dir>) {
    forall x, d :: x in todo && d in seen ==> d.HashDir? && SegLt(x, Segment(d.tli, d.log, 0))
  }

  lemma LatestInOlderDir(a: Archive, seen: set<Dir>, d: Dir, tli: nat, r: Option<Segment>)
    requires WellFiled(a) && d.HashDir? && LatestIn(a, seen, tli, r)
    requires forall e :: e in seen ==> e.HashDir? && SegLt(Segment(d.tli, d.log, 0), Segment(e.tli, e.log, 0))
    requires r.Some? || tli != d.tli || (d in a ==> forall n :: n in a[d] ==> !n.Wal?)
    ensures LatestIn(a, seen + {d}, tli, r)
  {
    if r.Some? {
      assert DirOf(Wal(r.value)) in seen;
      forall log, n | HashDir(tli, log) in seen + {d} && FileAt(a, HashDir(tli, log), n) && n.Wal? ensures SegLe(n.s, r.value) {
        if HashDir(tli, log) == d { assert DirOf(n) == d; }
      }
    }
  }

  lemma LatestInFirstDir(a: Archive, seen: set<Dir>, d: Dir, s: Segment)
    requires WellFiled(a) && d.HashDir? && LatestIn(a, seen, d.tli, None)
    requires FileAt(a, d, Wal(s)) && forall n :: n in a[d] && n.Wal? ==> SegLe(n.s, s)
    ensures LatestIn(a, seen + {d}, d.tli, Some(s))
  {
    assert d == DirOf(Wal(s));
  }

  ghost predicate AllLatestIn(a: Archive, dirs: set<Dir>, timelines: map<nat, Segment>) {
    forall tli :: LatestIn(a, dirs, tli, Lookup(timelines, tli))
  }

  lemma NothingSeen(a: Archive)
    ensures AllLatestIn(a, {}, map[])
  {
  }

  lemma LatestInOlderDirs(a: Archive, seen: set<Dir>, d: Dir, before: map<nat, Segment>, after: map<nat, Segment>)
    requires WellFiled(a) && d.HashDir? && d in a && AllLatestIn(a, seen, before)
    requires forall e :: e in seen ==> e.HashDir? && SegLt(Segment(d.tli, d.log, 0), Segment(e.tli, e.log, 0))
    requires forall tli :: tli != d.tli ==> Lookup(after, tli) == Lookup(before, tli)
    requires after == before && d.tli !in before ==> forall n :: n in a[d] ==> !n.Wal?
    requires after != before ==> LatestIn(a, seen + {d}, d.tli, Lookup(after, d.tli))
    ensures AllLatestIn(a, seen + {d}, after)
  {
    forall tli ensures LatestIn(a, seen + {d}, tli, Lookup(after, tli)) {
      assert LatestIn(a, seen, tli, Lookup(before, tli));
      if tli != d.tli || after == before {
        LatestInOlderDir(a, seen, d, tli, Lookup(after, tli));
      }
    }
  }

  lemma SeenEverything(a: Archive, seen: set<Dir>, timelines: map<nat, Segment>)
    requires AllLatestIn(a, seen, timelines)
    requires forall tli, log :: HashDir(tli, log) in a ==> HashDir(tli, log) in seen
    ensures forall tli :: IsLatest(a, tli, Lookup(timelines, tli))
  {
    forall tli ensures IsLatest(a, tli, Lookup(timelines, tli)) {
      assert LatestIn(a, seen, tli, Lookup(timelines, tli));
    }
  }

  // ---------------------------------------------------------------- agreement of filtered searches

  lemma FilteredDecision(backups: Backups, keep: map<BackupId, KeepTarget>, id: BackupId, skip: bool)
    requires id in backups
    ensures var available := Available(backups, COPY_DONE + {backups[id].status});
      && MayRemoveWals(available, keep, id, skip) == MayRemoveWals(backups, keep, id, skip)
      && ProtectedRanges(available, keep, id, skip) == ProtectedRanges(backups, keep, id, skip)
  {
    var available := Available(backups, COPY_DONE + {backups[id].status});
    assert OlderCopyDone(available, id) == OlderCopyDone(backups, id);
    var ids := Descending(OlderCopyDone(backups, id));
    assert RangesOf(available, ids) == RangesOf(backups, ids);
  }

  lemma NextIsUnique(backups: Backups, id: BackupId, x: Option<BackupId>, y: Option<BackupId>)
    requires IsNext(backups, id, COPY_DONE, x) && IsNext(backups, id, COPY_DONE, y)
    ensures x == y
  {
  }

  lemma PreviousMeansOlder(backups: Backups, id: BackupId, p: Option<BackupId>)
    requires IsPrevious(backups, id, COPY_DONE, p)
    ensures p.None? <==> OlderCopyDone(backups, id) == {}
  {
    if p.Some? { assert p.value in OlderCopyDone(backups, id); }
  }

  // ---------------------------------------------------------------- the manager

  class BackupManager {
    var backups: Backups
    var keep: map<BackupId, KeepTarget>
    var xlogdb: seq<WalFileInfo>
    var wals: Archive
    const concurrentBackup: bool

    constructor (concurrentBackup: bool)
      ensures Current() == State(map[], map[], [], map[]) && this.concurrentBackup == concurrentBackup
    {
      backups, keep, xlogdb, wals := map[], map[], [], map[];
      this.concurrentBackup := concurrentBackup;
    }

    function Current(): State
      reads this
    {
      State(backups, keep, xlogdb, wals)
    }

    // -------------------------------------------------------------- deleting WALs

    method DeleteWals(groups: seq<Group>) returns (removed: seq<WalName>, ok: bool)
      modifies this`wals
      ensures Outcome(wals, removed, ok) == DeleteGroups(old(wals), groups)
    {
      removed, ok := [], true;
      for i := 0 to |groups|
        invariant ok && Outcome(wals, removed, ok) == DeleteGroups(old(wals), groups[..i])
      {
        var g := groups[i];
        assert groups[..i + 1][..i] == groups[..i];
        if g.dir !in wals {
          // Listing or removing a directory that is not there raises.
          ok := false;
          DeleteGroupsStopped(old(wals), groups, i + 1);
          return;
        }
        var wholeDirectory := false;
        if |g.wals| >= DIRECTORY_LIMIT {
          wholeDirectory := true;
        } else if wals[g.dir] <= NameSet(g.wals) {
          wholeDirectory := true;
        }
        if wholeDirectory {
          wals := wals - {g.dir};
        } else {
          label single:
          for k := 0 to |g.wals|
            invariant wals == UnlinkAll(old@single(wals), g.wals[..k])
          {
            assert g.wals[..k + 1][..k] == g.wals[..k];
            wals := Unlink(wals, g.wals[k].name);
          }
          assert g.wals[..|g.wals|] == g.wals;
        }
        removed := removed + NamesOf(g.wals);
      }
      assert groups[..|groups|] == groups;
    }

    /** Whether a file stays: the reasons to keep it add up. */
    method KeepsLine(name: WalName, until: Option<BackupInfo>, timelines: set<Option<nat>>, ranges: seq<Range>)
      returns (keepIt: bool)
      requires IsAnyXlogFile(name)
      ensures keepIt == IsKept(name, Policy(timelines, ranges, until))
    {
      keepIt := name.History?;
      if timelines != {} {
        keepIt := keepIt || Some(TimelineOf(name)) in timelines;
      }
      var bare := if name.Label? then Wal(name.s) else name;
      ghost var before := keepIt;
      for r := 0 to |ranges|
        invariant keepIt == (before || exists k :: 0 <= k < r && InRange(name, ranges[k]))
      {
        keepIt := keepIt || (AtOrAfter(bare, ranges[r].begin) && AtOrBefore(bare, ranges[r].end));
      }
      if until.Some? && until.value.beginWal.Some? {
        keepIt := keepIt || AtOrAfter(name, until.value.beginWal.value);
      }
    }

    /** Rewrites the catalogue line by line and deletes the files it drops. */
    method RemoveWalBeforeBackup(until: Option<BackupInfo>, timelines: set<Option<nat>>, ranges: seq<Range>)
      returns (removed: seq<WalName>, ok: bool)
      modifies this`wals, this`xlogdb
      ensures Current() == Cleanup(old(Current()), Policy(timelines, ranges, until))
      ensures ok == CleanupEnds(old(Current()), Policy(timelines, ranges, until))
      ensures removed == CleanupReports(old(Current()), Policy(timelines, ranges, until))
    {
      hide IsKept;
      ghost var p := Policy(timelines, ranges, until);
      var groups: seq<Group>, kept: seq<WalFileInfo> := [], [];
      ghost var doomed: seq<WalFileInfo> := [];
      for i := 0 to |xlogdb|
        invariant xlogdb == old(xlogdb) && wals == old(wals)
        invariant kept == KeptLines(xlogdb[..i], p)
        invariant doomed == DoomedLines(xlogdb[..i], p)
        invariant groups == GroupByDir(doomed)
      {
        var line := xlogdb[i];
        assert xlogdb[..i + 1][..i] == xlogdb[..i];
        if IsAnyXlogFile(line.name) {
          var keepIt := KeepsLine(line.name, until, timelines, ranges);
          if keepIt {
            kept := kept + [line];
          } else {
            groups := AddToGroups(groups, line);
            assert (doomed + [line])[..|doomed|] == doomed;
            doomed := doomed + [line];
          }
        }
      }
      assert xlogdb[..|xlogdb|] == xlogdb;
      removed, ok := DeleteWals(groups);
      if ok { xlogdb := kept; }
    }

    // -------------------------------------------------------------- deleting a backup

    method DeleteBackup(id: BackupId, skipIfStandalone: bool, sameObject: bool) returns (ok: bool)
      requires id in backups
      modifies this
      ensures Current() == BackupMachine.DeleteBackup(old(Current()), id, skipIfStandalone, concurrentBackup, sameObject)
      ensures ok <==> DeletionEnds(old(Current()), id, skipIfStandalone, concurrentBackup, sameObject)
      ensures ok ==> id !in backups
    {
      var available := Available(backups, COPY_DONE + {backups[id].status});
      FilteredDecision(backups, keep, id, skipIfStandalone);
      var decision := ShouldRemoveWals(id, available, keep, skipIfStandalone);
      var found := FindNextBackupIn(available, id, COPY_DONE);
      FilteredNeighbours(backups, id, None, found.value);
      NextIsUnique(backups, id, found.value, NextCopyDone(backups, id));
      if decision.value.0 {
        var until: Option<BackupInfo> := None;
        if found.value.Some? {
          until := Some(backups[found.value.value]);
        } else if concurrentBackup {
          until := Some(backups[id]);
        }
        var timelines := GetTimelinesToProtect(until, id, sameObject, Available(backups, ARCHIVING));
        var removed, ended := RemoveWalBeforeBackup(until, timelines, decision.value.1);
        if !ended { return false; }
      }
      keep := keep - {id};
      ok := UnlinkAndForget(id);
    }

    /** Drops the record and its mention in the parent; false when the latter raises. */
    method UnlinkAndForget(id: BackupId) returns (ok: bool)
      requires id in backups
      modifies this`backups
      ensures backups == RemoveRecord(old(backups), id) && id !in backups
      ensures ok <==> RecordRemovalEnds(old(backups), id)
    {
      var parent := ParentOf(backups, id);
      ok := true;
      if parent.Some? {
        var children := RemoveChild(backups[parent.value].children, id);
        if children.Ok? {
          backups := backups[parent.value := backups[parent.value].(children := children.value)];
        } else {
          ok := false;
        }
      }
      backups := backups - {id};
    }

    // -------------------------------------------------------------- deleting a tree

    /** The loop of the server's `delete_backup` over the recursive generator: the children that
        the record lists when it is loaded, each with its own tree, then the backup itself. What
        raises ends it all. */
    method DeleteTree(id: BackupId, cached: Option<BackupId>, ghost last: BackupId, ghost sofar: Progress)
      returns (ok: bool)
      requires Linked(backups) && NoneAbove(backups, last) && sofar.ok && sofar.state == Current()
      modifies this
      ensures Linked(backups) && NoneAbove(backups, last)
      ensures Current() == TreeRemoval.DeleteTree(sofar, id, last, Call(concurrentBackup, cached)).state
      ensures ok == TreeRemoval.DeleteTree(sofar, id, last, Call(concurrentBackup, cached)).ok
      decreases last - id, 1
    {
      hide Linked, NoneAbove, ChildrenOf, BackupMachine.DeleteBackup, DeletionEnds;
      ghost var call := Call(concurrentBackup, cached);
      var children := ChildrenOf(backups, id);
      ChildrenAreLater(backups, id, last);
      ghost var p := sofar;
      for i := 0 to |children|
        invariant Linked(backups) && NoneAbove(backups, last) && p.ok && p.state == Current()
        invariant forall c :: c in children[i..] ==> c in children
        invariant DeleteBelow(p, children[i..], id, last, call) == DeleteBelow(sofar, children, id, last, call)
      {
        ghost var before := p;
        assert children[i] in children && children[i..][0] == children[i] && children[i..][1..] == children[i + 1..];
        p := TreeRemoval.DeleteTree(p, children[i], last, call);
        ok := DeleteTree(children[i], cached, last, before);
        if !ok { return; }
      }
      if id !in backups {
        // An unknown backup raises.
        return false;
      }
      NextKeepsLinks(p, id, last, call);
      ok := DeleteBackup(id, true, cached == Some(id));
    }

    // -------------------------------------------------------------- the first-backup purge

    /** Reports what was removed; false when a missing directory stops it. */
    method PurgeUnusedWalFiles(id: BackupId, evenWithoutBegin: bool) returns (removed: seq<WalName>, ok: bool)
      requires id in backups
      modifies this`wals, this`xlogdb
      ensures Current() == PurgeFirstBackup(old(Current()), id, evenWithoutBegin)
      ensures ok <==> (Purges(old(Current()), id, evenWithoutBegin) ==> CleanupEnds(old(Current()), PurgePolicy(old(Current()), id)))
      ensures removed == if Purges(old(Current()), id, evenWithoutBegin)
                         then CleanupReports(old(Current()), PurgePolicy(old(Current()), id)) else []
    {
      removed, ok := [], true;
      if backups[id].beginWal.None? && !evenWithoutBegin { return; }
      var available := Available(backups, COPY_DONE + {backups[id].status});
      var found := FindPreviousBackupIn(available, id, COPY_DONE);
      FilteredNeighbours(backups, id, found.value, None);
      PreviousMeansOlder(backups, id, found.value);
      if found.value.None? {
        removed, ok := RemoveWalBeforeBackup(Some(backups[id]), {}, []);
      }
    }

    // -------------------------------------------------------------- checking a backup

    /** One directory: a timeline not met yet gets its newest segment from here. */
    method LookInto(d: Dir, before: map<nat, Segment>, ghost seen: set<Dir>) returns (timelines: map<nat, Segment>)
      requires WellFiled(wals) && d.HashDir? && d in wals && AllLatestIn(wals, seen, before)
      requires forall e :: e in seen ==> e.HashDir? && SegLt(Segment(d.tli, d.log, 0), Segment(e.tli, e.log, 0))
      ensures AllLatestIn(wals, seen + {d}, timelines)
    {
      timelines := before;
      if d.tli !in timelines {
        var newest := NewestSegmentIn(wals[d]);
        if newest.Some? {
          timelines := timelines[d.tli := newest.value];
          assert LatestIn(wals, seen, d.tli, Lookup(before, d.tli));
          LatestInFirstDir(wals, seen, d, newest.value);
        }
      }
      LatestInOlderDirs(wals, seen, d, before, timelines);
    }

    /** The newest segment of every timeline, found from the newest directory down. */
    method GetLatestArchivedWalsInfo() returns (timelines: map<nat, Segment>)
      requires WellFiled(wals)
      ensures forall tli :: IsLatest(wals, tli, Lookup(timelines, tli))
    {
      timelines := map[];
      var todo := set d | d in wals.Keys && d.HashDir? :: Segment(d.tli, d.log, 0);
      ghost var seen: set<Dir>, all := {}, todo;
      NothingSeen(wals);
      hide AllLatestIn, IsLatest, WellFiled;
      while todo != {}
        invariant forall tli, log :: Segment(tli, log, 0) in all <==> HashDir(tli, log) in wals
        invariant forall x :: x in all ==> x.seg == 0
        invariant todo <= all
        invariant forall tli, log :: HashDir(tli, log) in wals <==> HashDir(tli, log) in seen || Segment(tli, log, 0) in todo
        invariant Separated(todo, seen)
        invariant AllLatestIn(wals, seen, timelines)
        decreases todo
      {
        MaxSegmentExists(todo);
        var top :| top in todo && forall x :: x in todo ==> SegLe(x, top);
        todo := todo - {top};
        var d := HashDir(top.tli, top.log);
        assert d in wals;
        timelines := LookInto(d, timelines, seen);
        seen := seen + {d};
      }
      SeenEverything(wals, seen, timelines);
    }

    /** False when it raises: the first segment is unknown, or the copy ended on another timeline. */
    method CheckBackup(id: BackupId) returns (ok: bool, ghost last: Option<Segment>)
      requires id in backups && WellFiled(wals)
      modifies this`backups
      ensures backups[id := old(backups)[id]] == old(backups) && id in backups
      ensures old(backups)[id].beginWal.Some? ==> IsLatest(wals, old(backups)[id].beginWal.value.tli, last)
      ensures backups[id] == old(backups)[id].(status := CheckedStatus(wals, old(backups)[id], last))
      ensures EndsKnown(old(backups)[id]) ==> ok && IsJudgement(wals, old(backups)[id], last, backups[id].status)
      ensures old(backups)[id].beginWal.None? || old(backups)[id].endWal.None? ==> backups == old(backups)
      ensures !ok ==> backups == old(backups) && !EndsKnown(old(backups)[id])
    {
      var timelines := GetLatestArchivedWalsInfo();
      last := None;
      var b := backups[id];
      if b.beginWal.None? { return false, None; }
      var begin := b.beginWal.value;
      last := Lookup(timelines, begin.tli);
      if EndsKnown(b) { CheckIsJudgement(wals, b, last); }
      hide IsJudgement;
      assert IsLatest(wals, begin.tli, Lookup(timelines, begin.tli));
      if b.endWal.None? { return true, last; }
      var end := b.endWal.value;
      if begin.tli !in timelines || SegLt(timelines[begin.tli], begin) {
        backups := backups[id := b.(status := WaitingForWals)];
        return true, last;
      }
      if begin.tli != end.tli { return false, last; }
      var lastArchived := timelines[begin.tli];
      var segments := GenerateSegmentNames(begin, end, b.version, b.segmentSize);
      SegmentsFromIncreasing(begin, end, LayoutOf(b.version, b.segmentSize));
      assert segments == RequiredSegments(b);
      var missing, i := false, 0;
      while i < |segments| && !missing && SegLe(segments[i], lastArchived)
        invariant 0 <= i <= |segments|
        invariant !missing ==> forall k :: 0 <= k < i ==> OnDisk(wals, Wal(segments[k]))
        invariant missing ==> SomeMissing(wals, segments, lastArchived)
        decreases |segments| - i, !missing
      {
        if !OnDisk(wals, Wal(segments[i])) {
          missing := true;
        } else {
          i := i + 1;
        }
      }
      assert missing <==> SomeMissing(wals, segments, lastArchived);
      if missing {
        backups := backups[id := b.(status := Failed)];
      } else if SegLe(end, lastArchived) {
        backups := backups[id := b.(status := Done)];
      } else {
        backups := backups[id := b.(status := WaitingForWals)];
      }
      return true, last;
    }

    // -------------------------------------------------------------- keep annotations

    method KeepBackup(id: BackupId, target: KeepTarget)
      modifies this`keep
      ensures Current() == Apply(old(Current()), BackupMachine.Step.Keep(id, target))
    {
      keep := keep[id := target];
    }

    method ReleaseKeep(id: BackupId)
      modifies this`keep
      ensures Current() == Apply(old(Current()), BackupMachine.Step.Release(id))
    {
      keep := keep - {id};
    }

    // -------------------------------------------------------------- taking a backup

    method StartBackup(id: BackupId, parent: Option<BackupId>, version: Option<nat>, segmentSize: nat)
      modifies this`backups
      ensures Current() == Apply(old(Current()), BackupMachine.Step.StartBackup(id, parent, version, segmentSize))
    {
      backups := backups[id := BackupInfo(Empty, None, None, None, version, segmentSize, parent, None)];
    }

    method BeginCopy(id: BackupId, begin: Segment)
      requires id in backups
      modifies this`backups
      ensures Current() == Apply(old(Current()), BackupMachine.Step.BeginCopy(id, begin))
    {
      var b := backups[id];
      b := b.(status := Started);
      b := b.(timeline := Some(begin.tli), beginWal := Some(begin));
      backups := backups[id := b];
    }

    /** The tail of a backup: status, then the parent's list of children. */
    method EndCopy(id: BackupId, end: Option<Segment>, success: bool)
      requires id in backups
      modifies this`backups
      ensures Current() == Apply(old(Current()), BackupMachine.Step.EndCopy(id, end, success))
    {
      var b := backups[id].(endWal := end);
      b := b.(status := if success then WaitingForWals else Failed);
      backups := backups[id := b];
      var parent := ParentOf(backups, id);
      if parent.Some? {
        var p := backups[parent.value];
        if p.children.Some? && p.children.value != [] {
          p := p.(children := Some(p.children.value + [id]));
        } else {
          p := p.(children := Some([id]));
        }
        backups := backups[parent.value := p];
      }
    }

    method ArchiveWal(wal: WalFileInfo) returns (ok: bool)
      modifies this`wals, this`xlogdb
      ensures Current() == Apply(old(Current()), BackupMachine.Step.ArchiveWal(wal))
      ensures ok <==> !OnDisk(old(wals), wal.name)
    {
      if OnDisk(wals, wal.name) { return false; }
      wals := Store(wals, wal.name);
      xlogdb := xlogdb + [wal];
      return true;
    }
  }
}
