/** Deciding which WAL files a deleted backup frees, and removing exactly those
    (barman/backup.py). */
module WalCleanup {
  import opened Wrappers
  import opened Xlog
  import opened Catalog

  // ---------------------------------------------------------------- may WALs go at all?

  datatype Range = Range(begin: Segment, end: Segment)

  predicate IsStandalone(keep: map<BackupId, KeepTarget>, id: BackupId) {
    id in keep && keep[id] == Standalone
  }

  function RangeOf(b: BackupInfo): Range {
    Range(if b.beginWal.Some? then b.beginWal.value else Segment(0, 0, 0),
          if b.endWal.Some? then b.endWal.value else Segment(0, 0, 0))
  }

  function RangesOf(backups: Backups, ids: seq<BackupId>): seq<Range>
    requires forall j :: j in ids ==> j in backups
  {
    seq(|ids|, i requires 0 <= i < |ids| => assert ids[i] in ids; RangeOf(backups[ids[i]]))
  }

  /** The closed form of the decision: every older finished copy must be a standalone
      archive, and there must be none at all when those are to be left alone. */
  predicate MayRemoveWals(backups: Backups, keep: map<BackupId, KeepTarget>, id: BackupId, skipIfStandalone: bool) {
    && (forall j :: j in OlderCopyDone(backups, id) ==> IsStandalone(keep, j))
    && (skipIfStandalone ==> OlderCopyDone(backups, id) == {})
  }

  function ProtectedRanges(backups: Backups, keep: map<BackupId, KeepTarget>, id: BackupId, skipIfStandalone: bool): seq<Range> {
    if MayRemoveWals(backups, keep, id, skipIfStandalone)
    then RangesOf(backups, Descending(OlderCopyDone(backups, id)))
    else []
  }

  lemma OlderThanPrevious(backups: Backups, id: BackupId, p: BackupId)
    requires IsPrevious(backups, id, COPY_DONE, Some(p))
    ensures p in OlderCopyDone(backups, id)
    ensures p == Maximum(OlderCopyDone(backups, id))
    ensures OlderCopyDone(backups, id) - {p} == OlderCopyDone(backups, p)
  {
    var older := OlderCopyDone(backups, id);
    assert p in older;
    assert forall j :: j in older ==> j <= p;
  }

  /** The walk towards older backups has passed `passed`, all standalone, and stands at
      `cur`. */
  ghost predicate Walked(backups: Backups, keep: map<BackupId, KeepTarget>, skip: bool,
                         id: BackupId, cur: BackupId, passed: seq<BackupId>) {
    && Descending(OlderCopyDone(backups, id)) == passed + Descending(OlderCopyDone(backups, cur))
    && (forall j :: j in passed ==> j in backups && IsStandalone(keep, j))
    && (passed == [] || !skip)
  }

  lemma WalkStep(backups: Backups, keep: map<BackupId, KeepTarget>, skip: bool,
                 id: BackupId, cur: BackupId, passed: seq<BackupId>, p: BackupId)
    requires Walked(backups, keep, skip, id, cur, passed)
    requires IsPrevious(backups, cur, COPY_DONE, Some(p))
    ensures p in OlderCopyDone(backups, id)
    ensures IsStandalone(keep, p) && !skip ==> Walked(backups, keep, skip, id, p, passed + [p])
  {
    OlderThanPrevious(backups, cur, p);
    var rest := Descending(OlderCopyDone(backups, cur));
    assert rest == [p] + Descending(OlderCopyDone(backups, p));
    assert p in passed + rest;
    assert passed + rest == (passed + [p]) + Descending(OlderCopyDone(backups, p));
  }

  lemma WalkEnd(backups: Backups, keep: map<BackupId, KeepTarget>, skip: bool,
                id: BackupId, cur: BackupId, passed: seq<BackupId>)
    requires Walked(backups, keep, skip, id, cur, passed)
    requires IsPrevious(backups, cur, COPY_DONE, None)
    ensures Descending(OlderCopyDone(backups, id)) == passed
    ensures MayRemoveWals(backups, keep, id, skip)
  {
    assert OlderCopyDone(backups, cur) == {};
    assert Descending(OlderCopyDone(backups, id)) == passed;
    forall j | j in OlderCopyDone(backups, id) ensures j in passed {
      assert j in Descending(OlderCopyDone(backups, id));
    }
  }

  lemma WalkBegin(backups: Backups, keep: map<BackupId, KeepTarget>, skip: bool, id: BackupId)
    ensures Walked(backups, keep, skip, id, id, [])
  {
    var all := Descending(OlderCopyDone(backups, id));
    assert all == [] + all;
  }

  method ShouldRemoveWals(id: BackupId, available: Backups, keep: map<BackupId, KeepTarget>, skipIfStandalone: bool)
    returns (r: Result<(bool, seq<Range>), LookupError>)
    ensures r.Err? <==> id !in available
    ensures r.Ok? ==> r.value.0 == MayRemoveWals(available, keep, id, skipIfStandalone)
    ensures r.Ok? ==> r.value.1 == ProtectedRanges(available, keep, id, skipIfStandalone)
  {
    var found := FindPreviousBackupIn(available, id, COPY_DONE);
    if found.Err? { return Err(found.error); }
    var previous := found.value;
    var ranges: seq<Range> := [];
    ghost var cur, passed := id, [];
    WalkBegin(available, keep, skipIfStandalone, id);
    while true
      invariant cur in available
      invariant IsPrevious(available, cur, COPY_DONE, previous)
      invariant Walked(available, keep, skipIfStandalone, id, cur, passed)
      invariant ranges == RangesOf(available, passed)
      decreases cur
    {
      if previous.None? {
        WalkEnd(available, keep, skipIfStandalone, id, cur, passed);
        return Ok((true, ranges));
      }
      var p := previous.value;
      WalkStep(available, keep, skipIfStandalone, id, cur, passed, p);
      if IsStandalone(keep, p) {
        if skipIfStandalone { return Ok((false, [])); }
        ranges := ranges + [RangeOf(available[p])];
        passed := passed + [p];
        found := FindPreviousBackupIn(available, p, COPY_DONE);
        previous := found.value;
        cur := p;
      } else {
        return Ok((false, []));
      }
    }
  }

  // ---------------------------------------------------------------- timelines

  /** The timelines of the other backups still being archived, except the timeline of
      the backup that marks the cut. `sameObject` says whether the deleted backup is
      the very object held in the catalog: only then is it recognised and skipped. */
  function TimelinesToProtect(until: Option<BackupInfo>, deleted: BackupId, sameObject: bool, available: Backups): set<Option<nat>> {
    if until.None? then {}
    else (set j | j in available && !(sameObject && j == deleted) :: available[j].timeline) - {until.value.timeline}
  }

  method GetTimelinesToProtect(until: Option<BackupInfo>, deleted: BackupId, sameObject: bool, available: Backups)
    returns (timelines: set<Option<nat>>)
    ensures timelines == TimelinesToProtect(until, deleted, sameObject, available)
  {
    timelines := {};
    if until.Some? {
      var todo := available.Keys;
      while todo != {}
        invariant todo <= available.Keys
        invariant timelines == set j | j in available.Keys - todo && !(sameObject && j == deleted) :: available[j].timeline
      {
        var j :| j in todo;
        todo := todo - {j};
        if !(sameObject && j == deleted) {
          timelines := timelines + {available[j].timeline};
        }
      }
      timelines := timelines - {until.value.timeline};
    }
  }

  // ---------------------------------------------------------------- which lines go

  /** A line of the WAL catalogue. */
  datatype WalFileInfo = WalFileInfo(name: WalName, size: nat, time: string, compression: Option<string>)

  datatype Policy = Policy(timelines: set<Option<nat>>, ranges: seq<Range>, until: Option<BackupInfo>)

  predicate InRange(n: WalName, r: Range)
    requires IsAnyXlogFile(n)
  {
    var bare := if n.Label? then Wal(n.s) else n;
    AtOrAfter(bare, r.begin) && AtOrBefore(bare, r.end)
  }

  predicate AfterCut(n: WalName, until: Option<BackupInfo>)
    requires IsAnyXlogFile(n)
  {
    until.Some? && until.value.beginWal.Some? && AtOrAfter(n, until.value.beginWal.value)
  }

  predicate IsKept(n: WalName, p: Policy)
    requires IsAnyXlogFile(n)
  {
    || n.History?
    || Some(TimelineOf(n)) in p.timelines
    || (exists i :: 0 <= i < |p.ranges| && InRange(n, p.ranges[i]))
    || AfterCut(n, p.until)
  }

  /** The lines of the catalogue that survive, and those whose file must go; lines with
      an invalid name are in neither. */
  function KeptLines(lines: seq<WalFileInfo>, p: Policy): seq<WalFileInfo> {
    if lines == [] then []
    else
      var n := lines[|lines| - 1].name;
      KeptLines(lines[..|lines| - 1], p) +
      (if IsAnyXlogFile(n) && IsKept(n, p) then [lines[|lines| - 1]] else [])
  }

  function DoomedLines(lines: seq<WalFileInfo>, p: Policy): seq<WalFileInfo> {
    if lines == [] then []
    else
      var n := lines[|lines| - 1].name;
      DoomedLines(lines[..|lines| - 1], p) +
      (if IsAnyXlogFile(n) && !IsKept(n, p) then [lines[|lines| - 1]] else [])
  }

  lemma {:induction false} LinesMembership(lines: seq<WalFileInfo>, p: Policy, w: WalFileInfo)
    ensures w in KeptLines(lines, p) <==> w in lines && IsAnyXlogFile(w.name) && IsKept(w.name, p)
    ensures w in DoomedLines(lines, p) <==> w in lines && IsAnyXlogFile(w.name) && !IsKept(w.name, p)
  {
    if lines != [] {
      LinesMembership(lines[..|lines| - 1], p, w);
      assert lines == lines[..|lines| - 1] + [lines[|lines| - 1]];
    }
  }

  // ---------------------------------------------------------------- grouping by directory

  datatype Group = Group(dir: Dir, wals: seq<WalFileInfo>)

  /** Appending to the list of a directory, a new directory going last. */
  function AddToGroups(groups: seq<Group>, w: WalFileInfo): seq<Group> {
    if groups == [] then [Group(DirOf(w.name), [w])]
    else if groups[0].dir == DirOf(w.name) then
      [Group(groups[0].dir, groups[0].wals + [w])] + groups[1..]
    else [groups[0]] + AddToGroups(groups[1..], w)
  }

  function GroupByDir(wals: seq<WalFileInfo>): seq<Group> {
    if wals == [] then [] else AddToGroups(GroupByDir(wals[..|wals| - 1]), wals[|wals| - 1])
  }

  ghost predicate DistinctDirs(groups: seq<Group>) {
    forall i, j :: 0 <= i < j < |groups| ==> groups[i].dir != groups[j].dir
  }

  /** The lines of `wals` that live in directory `d`, in order. */
  function InDir(wals: seq<WalFileInfo>, d: Dir): seq<WalFileInfo> {
    if wals == [] then []
    else
      InDir(wals[..|wals| - 1], d) +
      (if DirOf(wals[|wals| - 1].name) == d then [wals[|wals| - 1]] else [])
  }

  ghost predicate GroupsAre(groups: seq<Group>, wals: seq<WalFileInfo>) {
    && DistinctDirs(groups)
    && (forall i :: 0 <= i < |groups| ==> groups[i].wals == InDir(wals, groups[i].dir) && groups[i].wals != [])
    && (forall d :: InDir(wals, d) != [] ==> exists i :: 0 <= i < |groups| && groups[i].dir == d)
  }

  function Extended(g: Group, w: WalFileInfo): Group {
    if g.dir == DirOf(w.name) then Group(g.dir, g.wals + [w]) else g
  }

  ghost predicate NoneFor(groups: seq<Group>, d: Dir) { forall i :: 0 <= i < |groups| ==> groups[i].dir != d }

  lemma NoneForTail(groups: seq<Group>, d: Dir)
    requires groups != [] && groups[0].dir != d
    ensures NoneFor(groups, d) <==> NoneFor(groups[1..], d)
  {
    var rest := groups[1..];
    assert forall i :: 0 < i < |groups| ==> groups[i] == rest[i - 1];
  }

  lemma {:induction false} AddToGroupsLength(groups: seq<Group>, w: WalFileInfo)
    ensures var r := AddToGroups(groups, w);
      if NoneFor(groups, DirOf(w.name)) then r == groups + [Group(DirOf(w.name), [w])] else |r| == |groups|
  {
    if groups != [] && groups[0].dir != DirOf(w.name) {
      AddToGroupsLength(groups[1..], w);
      NoneForTail(groups, DirOf(w.name));
      assert groups == [groups[0]] + groups[1..];
    }
  }

  lemma {:induction false} AddToGroupsExtends(groups: seq<Group>, w: WalFileInfo, i: nat)
    requires DistinctDirs(groups) && i < |groups|
    ensures i < |AddToGroups(groups, w)| && AddToGroups(groups, w)[i] == Extended(groups[i], w)
    decreases i
  {
    if groups[0].dir != DirOf(w.name) && i > 0 {
      AddToGroupsExtends(groups[1..], w, i - 1);
    }
  }

  lemma AddToGroupsEffect(groups: seq<Group>, w: WalFileInfo)
    requires DistinctDirs(groups)
    ensures var r := AddToGroups(groups, w);
      && DistinctDirs(r)
      && |groups| <= |r| <= |groups| + 1
      && (|r| > |groups| ==> r[|groups|] == Group(DirOf(w.name), [w]))
      && (|r| > |groups| <==> NoneFor(groups, DirOf(w.name)))
      && (forall i :: 0 <= i < |groups| ==> r[i] == Extended(groups[i], w))
  {
    AddToGroupsLength(groups, w);
    var r := AddToGroups(groups, w);
    forall i | 0 <= i < |groups| ensures r[i] == Extended(groups[i], w) { AddToGroupsExtends(groups, w, i); }
    hide AddToGroups;
    assert forall i :: 0 <= i < |groups| ==> r[i].dir == groups[i].dir;
  }

  lemma OneMoreInDir(init: seq<WalFileInfo>, w: WalFileInfo, d: Dir)
    ensures InDir(init + [w], d) == InDir(init, d) + (if DirOf(w.name) == d then [w] else [])
  {
    assert (init + [w])[..|init|] == init;
  }

  lemma GroupsGrow(init: seq<WalFileInfo>, w: WalFileInfo, before: seq<Group>, r: seq<Group>)
    requires GroupsAre(before, init) && r == AddToGroups(before, w)
    ensures GroupsAre(r, init + [w])
  {
    var wals := init + [w];
    AddToGroupsEffect(before, w);
    hide AddToGroups, InDir;
    forall i | 0 <= i < |r| ensures r[i].wals == InDir(wals, r[i].dir) && r[i].wals != [] {
      OneMoreInDir(init, w, r[i].dir);
      if i == |before| {
        assert NoneFor(before, DirOf(w.name));
        assert InDir(init, DirOf(w.name)) == [];
      } else {
        assert before[i].wals == InDir(init, before[i].dir) && r[i] == Extended(before[i], w);
      }
    }
    forall d | InDir(wals, d) != [] ensures exists i :: 0 <= i < |r| && r[i].dir == d {
      OneMoreInDir(init, w, d);
      if InDir(init, d) != [] {
        var i :| 0 <= i < |before| && before[i].dir == d;
        assert r[i].dir == d;
      } else {
        if |r| > |before| { assert r[|before|].dir == d; }
      }
    }
  }

  lemma {:induction false} GroupByDirIsPartition(wals: seq<WalFileInfo>)
    ensures GroupsAre(GroupByDir(wals), wals)
  {
    if wals != [] {
      var init, w := wals[..|wals| - 1], wals[|wals| - 1];
      GroupByDirIsPartition(init);
      assert wals == init + [w];
      hide GroupsAre, AddToGroups;
      GroupsGrow(init, w, GroupByDir(init), GroupByDir(wals));
    }
  }

  lemma {:induction false} InDirMembership(wals: seq<WalFileInfo>, d: Dir, w: WalFileInfo)
    ensures w in InDir(wals, d) <==> w in wals && DirOf(w.name) == d
  {
    if wals != [] {
      InDirMembership(wals[..|wals| - 1], d, w);
      assert wals == wals[..|wals| - 1] + [wals[|wals| - 1]];
    }
  }
}
