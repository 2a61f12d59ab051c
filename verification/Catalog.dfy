/** The backup catalog: one record a backup, keyed by an id that sorts by age
    (barman/infofile.py), and the two searches around a given backup
    (barman/backup.py). */
module Catalog {
  import opened Wrappers
  import opened Xlog

  datatype Status = Empty | Started | Failed | WaitingForWals | Done | Syncing

  const COPY_DONE: set<Status> := {WaitingForWals, Done}
  const ARCHIVING: set<Status> := {Started, WaitingForWals, Done, Syncing}

  datatype KeepTarget = Full | Standalone

  /** Ids are timestamps of fixed width; only their order matters. */
  type BackupId = nat

  datatype BackupInfo = BackupInfo(
    status: Status,
    timeline: Option<nat>,
    beginWal: Option<Segment>,
    endWal: Option<Segment>,
    version: Option<nat>,
    segmentSize: nat,
    parent: Option<BackupId>,
    children: Option<seq<BackupId>>)

  type Backups = map<BackupId, BackupInfo>

  datatype LookupError = UnknownBackupId

  function Available(backups: Backups, filter: set<Status>): Backups {
    map id | id in backups && backups[id].status in filter :: backups[id]
  }

  predicate IsCopyDone(b: BackupInfo) { b.status in COPY_DONE }

  // ---------------------------------------------------------------- sorted ids

  lemma {:induction false} MinimumOf(s: set<nat>) returns (m: nat)
    requires s != {}
    ensures m in s && forall x :: x in s ==> m <= x
    decreases s
  {
    var y :| y in s;
    m := y;
    if s != {y} {
      var rest := s - {y};
      assert rest != {};
      var k := MinimumOf(rest);
      m := if k < y then k else y;
      assert forall x :: x in s ==> x == y || x in rest;
    }
  }

  lemma MinimumExists(s: set<nat>)
    requires s != {}
    ensures exists m :: m in s && forall x :: x in s ==> m <= x
  {
    var m := MinimumOf(s);
  }

  function Minimum(s: set<nat>): (m: nat)
    requires s != {}
    ensures m in s && forall x :: x in s ==> m <= x
  {
    MinimumExists(s);
    var m :| m in s && forall x :: x in s ==> m <= x;
    m
  }

  /** The elements of a set in increasing order. */
  function Sorted(s: set<nat>): (r: seq<nat>)
    ensures forall x :: x in r <==> x in s
    decreases s
  {
    if s == {} then []
    else
      var m := Minimum(s);
      [m] + Sorted(s - {m})
  }

  lemma {:induction false} MaximumOf(s: set<nat>) returns (m: nat)
    requires s != {}
    ensures m in s && forall x :: x in s ==> x <= m
    decreases s
  {
    var y :| y in s;
    m := y;
    if s != {y} {
      var rest := s - {y};
      assert rest != {};
      var k := MaximumOf(rest);
      m := if k < y then y else k;
      assert forall x :: x in s ==> x == y || x in rest;
    }
  }

  lemma MaximumExists(s: set<nat>)
    requires s != {}
    ensures exists m :: m in s && forall x :: x in s ==> x <= m
  {
    var m := MaximumOf(s);
  }

  function Maximum(s: set<nat>): (m: nat)
    requires s != {}
    ensures m in s && forall x :: x in s ==> x <= m
  {
    MaximumExists(s);
    var m :| m in s && forall x :: x in s ==> x <= m;
    m
  }

  /** The elements of a set in decreasing order. */
  function Descending(s: set<nat>): (r: seq<nat>)
    ensures forall x :: x in r <==> x in s
    decreases s
  {
    if s == {} then []
    else
      var m := Maximum(s);
      [m] + Descending(s - {m})
  }

  ghost predicate Increasing(r: seq<nat>) { forall i, j :: 0 <= i < j < |r| ==> r[i] < r[j] }

  ghost predicate Decreasing(r: seq<nat>) { forall i, j :: 0 <= i < j < |r| ==> r[i] > r[j] }

  lemma {:induction false} SortedIncreasing(s: set<nat>)
    ensures Increasing(Sorted(s))
    decreases s
  {
    if s != {} {
      var m := Minimum(s);
      var rest := Sorted(s - {m});
      SortedIncreasing(s - {m});
      forall j | 0 <= j < |rest| ensures m < rest[j] { assert rest[j] in rest; }
    }
  }

  lemma {:induction false} DescendingDecreasing(s: set<nat>)
    ensures Decreasing(Descending(s))
    decreases s
  {
    if s != {} {
      var m := Maximum(s);
      var rest := Descending(s - {m});
      DescendingDecreasing(s - {m});
      forall j | 0 <= j < |rest| ensures m > rest[j] { assert rest[j] in rest; }
    }
  }

  // ---------------------------------------------------------------- neighbours

  /** `r` is the closest older backup of `available` whose status passes the filter. */
  ghost predicate IsPrevious(available: Backups, id: BackupId, filter: set<Status>, r: Option<BackupId>) {
    match r
    case None => forall j :: j in available && j < id ==> available[j].status !in filter
    case Some(p) =>
      && p in available && p < id && available[p].status in filter
      && forall j :: j in available && p < j < id ==> available[j].status !in filter
  }

  /** `r` is the closest newer backup of `available` whose status passes the filter. */
  ghost predicate IsNext(available: Backups, id: BackupId, filter: set<Status>, r: Option<BackupId>) {
    match r
    case None => forall j :: j in available && id < j ==> available[j].status !in filter
    case Some(p) =>
      && p in available && id < p && available[p].status in filter
      && forall j :: j in available && id < j < p ==> available[j].status !in filter
  }

  method IndexOf(ids: seq<nat>, id: nat) returns (k: Option<nat>)
    ensures k.None? ==> id !in ids
    ensures k.Some? ==> k.value < |ids| && ids[k.value] == id
  {
    for i := 0 to |ids|
      invariant id !in ids[..i]
    {
      if ids[i] == id { return Some(i); }
    }
    return None;
  }

  method SortedIds(available: Backups) returns (ids: seq<nat>)
    ensures Increasing(ids)
    ensures forall j :: j in ids <==> j in available
  {
    ids := Sorted(available.Keys);
    SortedIncreasing(available.Keys);
  }

  /** The ids at positions lo..hi have no status of the filter. */
  ghost predicate NoneBetween(available: Backups, ids: seq<nat>, lo: nat, hi: nat, filter: set<Status>)
    requires hi <= |ids|
  {
    forall i :: lo <= i < hi ==> ids[i] in available && available[ids[i]].status !in filter
  }

  /** What the search skipped by position, it skipped by id. */
  lemma SkippedAreAll(available: Backups, ids: seq<nat>, lo: nat, hi: nat, filter: set<Status>)
    requires Increasing(ids) && lo <= hi <= |ids|
    requires forall j :: j in available ==> j in ids
    requires NoneBetween(available, ids, lo, hi, filter)
    ensures forall j | j in available && (lo == 0 || ids[lo - 1] < j) && (hi == |ids| || j < ids[hi]) ::
              available[j].status !in filter
  {
    forall j | j in available && (lo == 0 || ids[lo - 1] < j) && (hi == |ids| || j < ids[hi])
      ensures available[j].status !in filter
    {
      var i :| 0 <= i < |ids| && ids[i] == j;
    }
  }

  method FindPreviousBackupIn(available: Backups, id: BackupId, filter: set<Status>)
    returns (r: Result<Option<BackupId>, LookupError>)
    ensures r.Err? <==> id !in available
    ensures r.Ok? ==> IsPrevious(available, id, filter, r.value)
  {
    var ids := SortedIds(available);
    var k := IndexOf(ids, id);
    if k.None? {
      assert id !in ids;
      return Err(UnknownBackupId);
    }
    var current := k.value;
    assert ids[current] in available;
    while current > 0
      invariant current <= k.value
      invariant NoneBetween(available, ids, current, k.value, filter)
    {
      var res := ids[current - 1];
      assert res in available;
      if available[res].status in filter {
        SkippedAreAll(available, ids, current, k.value, filter);
        return Ok(Some(res));
      }
      current := current - 1;
    }
    SkippedAreAll(available, ids, 0, k.value, filter);
    return Ok(None);
  }

  method FindNextBackupIn(available: Backups, id: BackupId, filter: set<Status>)
    returns (r: Result<Option<BackupId>, LookupError>)
    ensures r.Err? <==> id !in available
    ensures r.Ok? ==> IsNext(available, id, filter, r.value)
  {
    var ids := SortedIds(available);
    var k := IndexOf(ids, id);
    if k.None? {
      assert id !in ids;
      return Err(UnknownBackupId);
    }
    var current := k.value;
    assert ids[current] in available;
    while current < |ids| - 1
      invariant k.value <= current < |ids|
      invariant NoneBetween(available, ids, k.value + 1, current + 1, filter)
    {
      var res := ids[current + 1];
      assert res in available;
      if available[res].status in filter {
        SkippedAreAll(available, ids, k.value + 1, current + 1, filter);
        return Ok(Some(res));
      }
      current := current + 1;
    }
    SkippedAreAll(available, ids, k.value + 1, |ids|, filter);
    return Ok(None);
  }

  // ---------------------------------------------------------------- as functions

  function OlderCopyDone(backups: Backups, id: BackupId): set<BackupId> {
    set j | j in backups && j < id && IsCopyDone(backups[j])
  }

  function NewerCopyDone(backups: Backups, id: BackupId): set<BackupId> {
    set j | j in backups && id < j && IsCopyDone(backups[j])
  }

  /** The next backup that holds a complete copy. */
  function NextCopyDone(backups: Backups, id: BackupId): (r: Option<BackupId>)
    ensures IsNext(backups, id, COPY_DONE, r)
  {
    var newer := NewerCopyDone(backups, id);
    if newer == {} then
      assert forall j :: j in backups && id < j && IsCopyDone(backups[j]) ==> j in newer;
      None
    else
      var p := Minimum(newer);
      assert forall j :: j in backups && id < j < p && IsCopyDone(backups[j]) ==> j in newer;
      Some(p)
  }

  /** Searching the list filtered by "copy done, or of my own status" finds the same
      neighbours as searching the whole catalog. */
  lemma FilteredNeighbours(backups: Backups, id: BackupId, prev: Option<BackupId>, next: Option<BackupId>)
    requires id in backups
    ensures var available := Available(backups, COPY_DONE + {backups[id].status});
      && id in available
      && (IsPrevious(available, id, COPY_DONE, prev) <==> IsPrevious(backups, id, COPY_DONE, prev))
      && (IsNext(available, id, COPY_DONE, next) <==> IsNext(backups, id, COPY_DONE, next))
  {
    var available := Available(backups, COPY_DONE + {backups[id].status});
    assert forall j :: j in available ==> j in backups && available[j] == backups[j];
    assert forall j :: j in backups && IsCopyDone(backups[j]) ==> j in available;
  }
}
