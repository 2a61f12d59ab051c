/** Incremental backups: the forest of parent and children links kept in the catalog
    (barman/infofile.py, barman/backup.py). */
module BackupForest {
  import opened Wrappers
  import opened Sequences
  import opened Xlog
  import opened Catalog
  import opened BackupMachine
  import opened BackupSafety

  predicate IsFinished(b: BackupInfo) { b.status !in {Empty, Started} }

  function ChildrenOf(backups: Backups, id: BackupId): seq<BackupId> {
    if id in backups && backups[id].children.Some? then backups[id].children.value else []
  }

  /** A listed child exists, is finished, and names the lister as its parent. */
  ghost predicate ListedIsChild(backups: Backups) {
    forall p: BackupId, c :: c in ChildrenOf(backups, p) ==>
      c in backups && backups[c].parent == Some(p) && IsFinished(backups[c])
  }

  ghost predicate ListsHaveNoDuplicates(backups: Backups) {
    forall p: BackupId :: NoDuplicates(ChildrenOf(backups, p))
  }

  /** A finished child is listed by its parent, if that one still exists. A backup in
      progress names its parent but is not yet listed by it. */
  ghost predicate ChildIsListed(backups: Backups) {
    forall c :: c in backups && IsFinished(backups[c]) && ParentOf(backups, c).Some? ==>
      c in ChildrenOf(backups, backups[c].parent.value)
  }

  ghost predicate WellFormedRecord(backups: Backups, c: BackupId)
    requires c in backups
  {
    var b := backups[c];
    && (b.parent.Some? ==> b.parent.value < c)
    && (b.parent.Some? && b.parent.value in backups ==> backups[b.parent.value].status != Empty)
    && (b.status == Empty ==> b.children.None?)
    && (!IsFinished(b) ==> b.endWal.None?)
  }

  /** Parent and children links agree in both directions. */
  ghost predicate Linked(backups: Backups) {
    && ListedIsChild(backups)
    && ListsHaveNoDuplicates(backups)
    && ChildIsListed(backups)
    && forall c :: c in backups ==> WellFormedRecord(backups, c)
  }

  // ---------------------------------------------------------------- the links are kept

  lemma RemoveChildEffect(list: seq<BackupId>, id: BackupId)
    requires NoDuplicates(list) && id in list
    ensures RemoveChild(Some(list), id).Ok?
    ensures var r := RemoveChild(Some(list), id).value;
      var rest := if r.Some? then r.value else [];
      NoDuplicates(rest) && forall x :: x in rest <==> x in list && x != id
  {
    var k := IndexIn(list, id);
    var rest := list[..k] + list[k + 1..];
    forall x | x in list && x != id ensures x in rest {
      var i :| 0 <= i < |list| && list[i] == x;
      if i < k { assert rest[i] == x; } else { assert rest[i - 1] == x; }
    }
    forall x | x in rest ensures x in list && x != id {
      var i :| 0 <= i < |rest| && rest[i] == x;
      if i < k { assert list[i] == x; } else { assert list[i + 1] == x; }
    }
    forall i, j | 0 <= i < j < |rest| ensures rest[i] != rest[j] {
      var i', j' := if i < k then i else i + 1, if j < k then j else j + 1;
      assert rest[i] == list[i'] && rest[j] == list[j'];
    }
  }

  lemma ListedMeansParent(backups: Backups, id: BackupId, p: BackupId)
    requires Linked(backups) && id in ChildrenOf(backups, p)
    ensures id in backups && ParentOf(backups, id) == Some(p) && IsFinished(backups[id])
  {
    assert WellFormedRecord(backups, p) && WellFormedRecord(backups, id);
  }

  /** The removal of a record as a change of the lists: `id` leaves every one. */
  ghost predicate OnlyListsLose(before: Backups, after: Backups, id: BackupId) {
    && after.Keys == before.Keys - {id}
    && (forall j :: j in after ==> after[j] == before[j].(children := after[j].children))
    && (forall j :: j in after ==> (before[j].children.None? ==> after[j].children.None?))
    && (forall j: BackupId, x: BackupId :: j in after ==> (x in ChildrenOf(after, j) <==> x in ChildrenOf(before, j) && x != id))
    && (forall j :: j in after ==> NoDuplicates(ChildrenOf(after, j)))
  }

  lemma ListedRemoval(backups: Backups, id: BackupId, p: BackupId, children: Option<seq<BackupId>>)
    requires Linked(backups) && id in backups && p in backups && p != id
    requires id in ChildrenOf(backups, p)
    requires var rest := if children.Some? then children.value else [];
      NoDuplicates(rest) && forall x :: x in rest <==> x in ChildrenOf(backups, p) && x != id
    ensures OnlyListsLose(backups, backups[p := backups[p].(children := children)] - {id}, id)
  {
    var after := backups[p := backups[p].(children := children)] - {id};
    ListedMeansParent(backups, id, p);
    forall j: BackupId, x: BackupId | j in after ensures x in ChildrenOf(after, j) <==> x in ChildrenOf(backups, j) && x != id {
      if j != p {
        assert ChildrenOf(after, j) == ChildrenOf(backups, j);
        if id in ChildrenOf(backups, j) { ListedMeansParent(backups, id, j); }
      }
    }
    forall j | j in after ensures NoDuplicates(ChildrenOf(after, j)) {
      if j != p { assert ChildrenOf(after, j) == ChildrenOf(backups, j); }
    }
  }

  lemma UnlistedRemoval(backups: Backups, id: BackupId)
    requires Linked(backups) && id in backups
    requires forall j: BackupId :: id !in ChildrenOf(backups, j)
    ensures OnlyListsLose(backups, backups - {id}, id)
  {
    var after := backups - {id};
    assert forall j: BackupId :: j in after ==> ChildrenOf(after, j) == ChildrenOf(backups, j);
  }

  lemma RemoveRecordEffect(backups: Backups, id: BackupId)
    requires Linked(backups) && id in backups
    ensures OnlyListsLose(backups, RemoveRecord(backups, id), id)
  {
    var parent := ParentOf(backups, id);
    if parent.Some? && id in ChildrenOf(backups, parent.value) {
      assert WellFormedRecord(backups, id);
      RemoveChildEffect(ChildrenOf(backups, parent.value), id);
      ListedRemoval(backups, id, parent.value, RemoveChild(backups[parent.value].children, id).value);
    } else {
      forall j: BackupId ensures id !in ChildrenOf(backups, j) {
        if id in ChildrenOf(backups, j) { ListedMeansParent(backups, id, j); }
      }
      UnlistedRemoval(backups, id);
    }
  }

  /** A deletion finds its backup in its parent's list if and only if the backup had finished:
      one that was killed is not listed, and its deletion raises after the record is gone. */
  lemma DeletionFindsItself(backups: Backups, id: BackupId)
    requires Linked(backups) && id in backups && ParentOf(backups, id).Some?
    ensures RemoveChild(backups[backups[id].parent.value].children, id).Ok? <==> IsFinished(backups[id])
  {
    var p := backups[id].parent.value;
    if id in ChildrenOf(backups, p) { ListedMeansParent(backups, id, p); }
  }

  lemma LosingKeepsLinks(before: Backups, after: Backups, id: BackupId)
    requires Linked(before) && OnlyListsLose(before, after, id)
    ensures Linked(after)
  {
    forall p: BackupId, c | c in ChildrenOf(after, p)
      ensures c in after && after[c].parent == Some(p) && IsFinished(after[c])
    {
      assert c in ChildrenOf(before, p);
    }
    forall c | c in after && IsFinished(after[c]) && ParentOf(after, c).Some?
      ensures c in ChildrenOf(after, after[c].parent.value)
    {
      assert ParentOf(before, c) == ParentOf(after, c);
    }
    forall c | c in after ensures WellFormedRecord(after, c) {
      assert WellFormedRecord(before, c);
    }
  }

  lemma GainKeepsLinks(before: Backups, after: Backups, id: BackupId)
    requires Linked(before) && id in before && !IsFinished(before[id])
    requires after.Keys == before.Keys && IsFinished(after[id]) && after[id].parent == before[id].parent
    requires forall j :: j in after && j != id ==> after[j] == before[j].(children := after[j].children)
    requires forall j: BackupId, x :: x in ChildrenOf(after, j) <==> x in ChildrenOf(before, j) || (ParentOf(before, id) == Some(j) && x == id)
    requires forall j: BackupId :: NoDuplicates(ChildrenOf(after, j))
    requires forall j :: j in after && j != id && after[j].status == Empty ==> after[j].children.None?
    ensures Linked(after)
  {
    forall p: BackupId, c | c in ChildrenOf(after, p)
      ensures c in after && after[c].parent == Some(p) && IsFinished(after[c])
    {
      if c in ChildrenOf(before, p) { ListedMeansParent(before, c, p); }
    }
    forall c | c in after && IsFinished(after[c]) && ParentOf(after, c).Some?
      ensures c in ChildrenOf(after, after[c].parent.value)
    {
      assert WellFormedRecord(before, c);
      assert ParentOf(before, c) == ParentOf(after, c);
    }
    forall c | c in after ensures WellFormedRecord(after, c) {
      assert WellFormedRecord(before, c);
    }
  }

  lemma FinishKeepsLinks(backups: Backups, id: BackupId, end: Option<Segment>, success: bool)
    requires Linked(backups) && id in backups && !IsFinished(backups[id])
    ensures Linked(FinishBackup(backups, id, end, success))
  {
    var r := FinishBackup(backups, id, end, success);
    assert WellFormedRecord(backups, id);
    forall p: BackupId ensures id !in ChildrenOf(backups, p) {
      if id in ChildrenOf(backups, p) { ListedMeansParent(backups, id, p); }
    }
    assert forall p: BackupId :: id !in ChildrenOf(backups, p);
    forall p: BackupId ensures NoDuplicates(ChildrenOf(r, p)) {
      assert NoDuplicates(ChildrenOf(backups, p));
    }
    GainKeepsLinks(backups, r, id);
  }

  lemma StatusKeepsLinks(before: Backups, after: Backups, id: BackupId)
    requires Linked(before) && id in before && id in after && after == before[id := after[id]]
    requires after[id].parent == before[id].parent && after[id].children == before[id].children
    requires after[id].status != Empty && (IsFinished(after[id]) <==> IsFinished(before[id]))
    requires after[id].endWal == before[id].endWal
    ensures Linked(after)
  {
    assert forall p: BackupId :: ChildrenOf(after, p) == ChildrenOf(before, p);
    forall c | c in after && IsFinished(after[c]) && ParentOf(after, c).Some?
      ensures c in ChildrenOf(after, after[c].parent.value)
    {
      assert WellFormedRecord(before, c);
      assert ParentOf(before, c) == ParentOf(after, c);
    }
    forall c | c in after ensures WellFormedRecord(after, c) {
      assert WellFormedRecord(before, c);
    }
  }

  lemma StartKeepsLinks(s: State, step: Step)
    requires Linked(s.backups) && step.StartBackup? && Enabled(s, step)
    ensures Linked(Apply(s, step).backups)
  {
    var before, after := s.backups, Apply(s, step).backups;
    assert forall p: BackupId :: ChildrenOf(after, p) == ChildrenOf(before, p);
    forall c | c in after && IsFinished(after[c]) && ParentOf(after, c).Some?
      ensures c in ChildrenOf(after, after[c].parent.value)
    {
      assert WellFormedRecord(before, c);
      assert ParentOf(before, c) == ParentOf(after, c);
    }
    forall c | c in after ensures WellFormedRecord(after, c) {
      if c in before { assert WellFormedRecord(before, c); }
    }
  }

  lemma StepKeepsLinks(s: State, step: Step)
    requires Linked(s.backups) && Enabled(s, step)
    ensures Linked(Apply(s, step).backups)
  {
    match step
    case StartBackup(_, _, _, _) => StartKeepsLinks(s, step);
    case BeginCopy(id, _) => StatusKeepsLinks(s.backups, Apply(s, step).backups, id);
    case EndCopy(id, end, success) => FinishKeepsLinks(s.backups, id, end, success);
    case CheckBackup(id, last) =>
      assert WellFormedRecord(s.backups, id);
      if s.backups[id].status != Empty {
        StatusKeepsLinks(s.backups, Apply(s, step).backups, id);
      } else {
        assert Apply(s, step).backups == s.backups;
      }
    case Delete(id, _, _, _) =>
      RemoveRecordEffect(s.backups, id);
      LosingKeepsLinks(s.backups, RemoveRecord(s.backups, id), id);
    case ArchiveWal(_) =>
    case PurgeFirst(_, _) =>
    case Keep(_, _) =>
    case Release(_) =>
  }

  /** In every run, whatever is taken, deleted, in whatever order, the links agree. */
  lemma {:induction false} LinksAgree(r: Run)
    requires IsRun(r)
    ensures Linked(Final(r).backups)
  {
    match r
    case Begin =>
    case Then(before, step) =>
      LinksAgree(before);
      StepKeepsLinks(Final(before), step);
  }

  // ---------------------------------------------------------------- a killed incremental backup

  const FIRST: Segment := Segment(1, 0, 1)

  /** A full backup, and an incremental one on it that was killed while it copied. */
  function KilledRun(): Run {
    Then(Then(Then(Then(Then(Begin,
      StartBackup(1, None, None, 0x100_0000)), BeginCopy(1, FIRST)), EndCopy(1, Some(FIRST), true)),
      StartBackup(2, Some(1), None, 0x100_0000)), BeginCopy(2, FIRST))
  }

  function KilledRecords(): Backups {
    var full := BackupInfo(WaitingForWals, Some(1), Some(FIRST), Some(FIRST), None, 0x100_0000, None, None);
    map[1 := full, 2 := full.(status := Started, endWal := None, parent := Some(1))]
  }

  lemma KilledRunEnds()
    ensures IsRun(KilledRun()) && Final(KilledRun()) == State(KilledRecords(), map[], [], map[])
  {
    var r := KilledRun();
    var empty := BackupInfo(Empty, None, None, None, None, 0x100_0000, None, None);
    var started := empty.(status := Started, timeline := Some(1), beginWal := Some(FIRST));
    var full := started.(status := WaitingForWals, endWal := Some(FIRST));
    var s1 := State(map[1 := empty], map[], [], map[]);
    var s2 := s1.(backups := map[1 := started]);
    var s3 := s1.(backups := map[1 := full]);
    var s4 := s1.(backups := map[1 := full, 2 := empty.(parent := Some(1))]);
    RunGoesOn(Begin, INITIAL, StartBackup(1, None, None, 0x100_0000), s1);
    hide IsRun, Final;
    RunGoesOn(r.before.before.before.before, s1, BeginCopy(1, FIRST), s2);
    RunGoesOn(r.before.before.before, s2, EndCopy(1, Some(FIRST), true), s3);
    RunGoesOn(r.before.before, s3, StartBackup(2, Some(1), None, 0x100_0000), s4);
    RunGoesOn(r.before, s4, BeginCopy(2, FIRST), State(KilledRecords(), map[], [], map[]));
  }

  /** After a run, deleting the killed backup looks for it in a list where it is not. */
  lemma KilledBackupIsNotListed()
    ensures IsRun(KilledRun()) && Enabled(Final(KilledRun()), Delete(2, true, true, true))
    ensures var backups := Final(KilledRun()).backups;
      && backups.Keys == {1, 2} && ParentOf(backups, 2) == Some(1) && !IsFinished(backups[2])
      && RemoveChild(backups[1].children, 2).Err?
  {
    KilledRunEnds();
    LinksAgree(KilledRun());
    hide IsRun, Final, Linked;
    DeletionFindsItself(KilledRecords(), 2);
  }
}
