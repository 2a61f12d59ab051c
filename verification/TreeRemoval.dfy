/** Deleting a backup with all that hang under it (barman/server.py). Each deletion is a whole
    one, with its WAL cleanup, and the walk down loads a record only when it gets there, when
    earlier backups of the tree are gone already. */
module TreeRemoval {
  import opened Wrappers
  import opened Xlog
  import opened Catalog
  import opened WalCleanup
  import opened WalArchive
  import opened BackupMachine
  import opened BackupSafety
  import opened BackupForest
  import opened BackupWalks

  // ---------------------------------------------------------------- the deletions

  /** What the deletions are told: the concurrent backup option, and which backup, if any, is the
      very object in the cache. */
  datatype Call = Call(concurrent: bool, cached: Option<BackupId>)

  function Drop(id: BackupId, call: Call): Step { Delete(id, true, call.concurrent, call.cached == Some(id)) }

  /** The server, the backups met by the walk so far, and whether all went well. */
  datatype Progress = Progress(state: State, met: seq<BackupId>, ok: bool)

  /** The next round of the loop, unless an earlier one has raised. An unknown backup raises. */
  function DeleteNext(p: Progress, id: BackupId, call: Call): Progress {
    if !p.ok then p
    else if id !in p.state.backups then p.(met := p.met + [id], ok := false)
    else
      var same := call.cached == Some(id);
      Progress(DeleteBackup(p.state, id, true, call.concurrent, same), p.met + [id],
               DeletionEnds(p.state, id, true, call.concurrent, same))
  }

  function DeleteList(p: Progress, w: seq<BackupId>, call: Call): Progress {
    if w == [] then p else DeleteNext(DeleteList(p, w[..|w| - 1], call), w[|w| - 1], call)
  }

  lemma {:induction false} Stopped(p: Progress, w: seq<BackupId>, call: Call)
    requires !p.ok
    ensures DeleteList(p, w, call) == p
  {
    if w != [] { Stopped(p, w[..|w| - 1], call); }
  }

  lemma {:induction false} OneListThenAnother(p: Progress, a: seq<BackupId>, b: seq<BackupId>, call: Call)
    ensures DeleteList(p, a + b, call) == DeleteList(DeleteList(p, a, call), b, call)
  {
    if b == [] {
      assert a + b == a;
    } else {
      var init := b[..|b| - 1];
      OneListThenAnother(p, a, init, call);
      assert (a + b)[..|a + b| - 1] == a + init;
    }
  }

  /** All went well exactly when each deletion, made when its turn came, did. */
  lemma {:induction false} PrefixWentWell(p: Progress, w: seq<BackupId>, k: nat, call: Call)
    requires k <= |w| && DeleteList(p, w, call).ok
    ensures DeleteList(p, w[..k], call).ok
    decreases |w|
  {
    if k < |w| {
      assert w[..|w| - 1][..k] == w[..k];
      PrefixWentWell(p, w[..|w| - 1], k, call);
    } else {
      assert w[..k] == w;
    }
  }

  lemma NextInList(p: Progress, w: seq<BackupId>, k: nat, call: Call)
    requires k < |w|
    ensures DeleteList(p, w[..k + 1], call) == DeleteNext(DeleteList(p, w[..k], call), w[k], call)
  {
    assert w[..k + 1][..k] == w[..k];
  }

  // ---------------------------------------------------------------- what is deleted

  ghost predicate NoOrphans(backups: Backups) {
    forall c :: c in backups && backups[c].parent.Some? ==> backups[c].parent.value in backups
  }

  /** Exactly the backups in `gone` are gone, and from the other lists nothing else. */
  ghost predicate DeletedSoFar(backups: Backups, now: Backups, gone: seq<BackupId>) {
    && Linked(now)
    && (forall j :: j in now <==> j in backups && j !in gone)
    && (forall j :: j in now ==> now[j] == backups[j].(children := now[j].children))
    && (forall j :: j in now ==> ListsLost(ChildrenOf(backups, j), ChildrenOf(now, j), gone))
    && (forall j :: j in now && Spared(ChildrenOf(backups, j), gone) ==> ChildrenOf(now, j) == ChildrenOf(backups, j))
  }

  ghost predicate ListsLost(before: seq<BackupId>, now: seq<BackupId>, gone: seq<BackupId>) {
    forall x :: x in now <==> x in before && x !in gone
  }

  predicate Spared(list: seq<BackupId>, gone: seq<BackupId>) {
    forall x :: x in list ==> x !in gone
  }

  lemma OtherListsStay(backups: Backups, id: BackupId, j: BackupId)
    requires id in backups && j in RemoveRecord(backups, id) && id !in ChildrenOf(backups, j)
    ensures ChildrenOf(RemoveRecord(backups, id), j) == ChildrenOf(backups, j)
  {
  }

  lemma DeleteOneMore(backups: Backups, now: Backups, gone: seq<BackupId>, id: BackupId)
    requires DeletedSoFar(backups, now, gone) && id in now
    ensures DeletedSoFar(backups, RemoveRecord(now, id), gone + [id])
  {
    RemoveRecordEffect(now, id);
    var after := RemoveRecord(now, id);
    LosingKeepsLinks(now, after, id);
    forall j | j in after ensures ListsLost(ChildrenOf(backups, j), ChildrenOf(after, j), gone + [id]) {
      assert ListsLost(ChildrenOf(backups, j), ChildrenOf(now, j), gone);
    }
    forall j | j in after && Spared(ChildrenOf(backups, j), gone + [id])
      ensures ChildrenOf(after, j) == ChildrenOf(backups, j)
    {
      assert Spared(ChildrenOf(backups, j), gone);
      assert id in gone + [id];
      OtherListsStay(now, id, j);
    }
  }

  lemma EndedRemovesTheRecord(p: Progress, id: BackupId, call: Call)
    requires DeleteNext(p, id, call).ok
    ensures p.ok && id in p.state.backups
    ensures DeleteNext(p, id, call).state.backups == RemoveRecord(p.state.backups, id)
    ensures DeleteNext(p, id, call).met == p.met + [id]
  {
    hide DeletePolicy, MayRemoveWals, CleanupEnds, RecordRemovalEnds, RemoveRecord;
  }

  /** Deletions that all went well: exactly their backups are gone. */
  lemma {:induction false} DeletionIsExact(p: Progress, w: seq<BackupId>, call: Call)
    requires Linked(p.state.backups) && DeleteList(p, w, call).ok
    ensures DeletedSoFar(p.state.backups, DeleteList(p, w, call).state.backups, w)
    ensures DeleteList(p, w, call).met == p.met + w
  {
    hide DeletedSoFar, Linked, RemoveRecord, DeleteNext;
    if w == [] {
      NothingDeleted(p.state.backups);
      assert p.met + w == p.met;
    } else {
      var init, id := w[..|w| - 1], w[|w| - 1];
      var before := DeleteList(p, init, call);
      EndedRemovesTheRecord(before, id, call);
      DeletionIsExact(p, init, call);
      DeleteOneMore(p.state.backups, before.state.backups, init, id);
      assert w == init + [id];
      assert p.met + w == (p.met + init) + [id];
    }
  }

  lemma NothingDeleted(backups: Backups)
    requires Linked(backups)
    ensures DeletedSoFar(backups, backups, [])
  {
  }

  // ---------------------------------------------------------------- the walk is read as it goes on

  ghost predicate NoneAbove(backups: Backups, last: BackupId) { forall j :: j in backups ==> j <= last }

  lemma NextKeepsLinks(p: Progress, id: BackupId, last: BackupId, call: Call)
    requires Linked(p.state.backups) && NoneAbove(p.state.backups, last)
    ensures Linked(DeleteNext(p, id, call).state.backups) && NoneAbove(DeleteNext(p, id, call).state.backups, last)
  {
    hide Linked, DeletePolicy, MayRemoveWals, CleanupEnds, RecordRemovalEnds, RemoveRecord;
    if p.ok && id in p.state.backups {
      StepKeepsLinks(p.state, Drop(id, call));
      StepKeepsRecords(p.state, Drop(id, call));
    }
  }

  lemma ChildrenAreLater(backups: Backups, id: BackupId, last: BackupId)
    requires Linked(backups) && NoneAbove(backups, last)
    ensures forall c :: c in ChildrenOf(backups, id) ==> id < c <= last
  {
    forall c | c in ChildrenOf(backups, id) ensures id < c <= last { ChildIsNewer(backups, id, c); }
  }

  /** The generator and the loop that consumes it: the children that the record lists when it is
      loaded are walked through, deleting as they come, and then comes the backup itself. */
  ghost function DeleteTree(p: Progress, id: BackupId, last: BackupId, call: Call): (r: Progress)
    requires Linked(p.state.backups) && NoneAbove(p.state.backups, last)
    ensures Linked(r.state.backups) && NoneAbove(r.state.backups, last)
    decreases last - id, 1, 0
  {
    ChildrenAreLater(p.state.backups, id, last);
    var below := DeleteBelow(p, ChildrenOf(p.state.backups, id), id, last, call);
    NextKeepsLinks(below, id, last, call);
    DeleteNext(below, id, call)
  }

  ghost function DeleteBelow(p: Progress, list: seq<BackupId>, id: BackupId, last: BackupId, call: Call): (r: Progress)
    requires Linked(p.state.backups) && NoneAbove(p.state.backups, last)
    requires forall c :: c in list ==> id < c <= last
    ensures Linked(r.state.backups) && NoneAbove(r.state.backups, last)
    decreases last - id, 0, |list|
  {
    if list == [] || !p.ok then p
    else
      var rest := list[1..];
      assert list[0] in list && forall c :: c in rest ==> c in list;
      DeleteBelow(DeleteTree(p, list[0], last, call), rest, id, last, call)
  }

  /** Where the lists under a backup are as before, so is its walk. */
  lemma {:induction false} SameListsSameWalk(backups: Backups, now: Backups, id: BackupId)
    requires Linked(backups) && Linked(now)
    requires forall x :: x in Walk(backups, id) ==> ChildrenOf(now, x) == ChildrenOf(backups, x)
    ensures Walk(now, id) == Walk(backups, id)
    decreases Above(backups, id), 1, 0
  {
    var list := ChildrenOf(backups, id);
    forall c | c in list ensures c in backups && Above(backups, c) < Above(backups, id) { ChildIsNewer(backups, id, c); }
    assert id in Walk(backups, id);
    forall c | c in list ensures c in now && Above(now, c) < Above(now, id) { ChildIsNewer(now, id, c); }
    SameListsSameWalks(backups, now, list, id);
  }

  lemma {:induction false} SameListsSameWalks(backups: Backups, now: Backups, list: seq<BackupId>, id: BackupId)
    requires Linked(backups) && Linked(now)
    requires forall c :: c in list ==> c in backups && Above(backups, c) < Above(backups, id)
    requires forall c :: c in list ==> c in now && Above(now, c) < Above(now, id)
    requires forall x :: x in WalkAll(backups, list, id) ==> ChildrenOf(now, x) == ChildrenOf(backups, x)
    ensures WalkAll(now, list, id) == WalkAll(backups, list, id)
    decreases Above(backups, id), 0, |list|
  {
    if list != [] {
      assert list[0] in list;
      SameListsSameWalk(backups, now, list[0]);
      SameListsSameWalks(backups, now, list[1..], id);
    }
  }

  /** With the tree of one child gone, its sibling's subtree is as before. */
  lemma SiblingIsUntouched(backups: Backups, now: Backups, id: BackupId, c: BackupId, d: BackupId, x: BackupId)
    requires Linked(backups) && c in ChildrenOf(backups, id) && d in ChildrenOf(backups, id) && c != d
    requires DeletedSoFar(backups, now, Walk(backups, c)) && x in Walk(backups, d)
    ensures x in now && ChildrenOf(now, x) == ChildrenOf(backups, x)
  {
    WalkExactly(backups, d, x);
    WalkExactly(backups, c, x);
    ListedMeansParent(backups, d, id);
    if x in Walk(backups, c) { SiblingsAreApart(backups, id, c, d, x); }
    if x != d { BelowRootIsFinished(backups, d, x); }
    forall z | z in ChildrenOf(backups, x) ensures z !in Walk(backups, c) {
      WalkExactly(backups, c, z);
      if Descends(backups, z, c) {
        ChildDescends(backups, z, x);
        DescendsTransitive(backups, z, x, d);
        SiblingsAreApart(backups, id, c, d, z);
      }
    }
    assert Spared(ChildrenOf(backups, x), Walk(backups, c));
  }

  /** The siblings still to come are walked as if nothing had been deleted. */
  lemma SiblingsAreUntouched(backups: Backups, now: Backups, list: seq<BackupId>, id: BackupId)
    requires Linked(backups) && AllListed(backups, list, id) && list != []
    requires DeletedSoFar(backups, now, Walk(backups, list[0]))
    ensures AllListed(backups, list[1..], id) && AllListed(now, list[1..], id)
    ensures WalkAll(now, list[1..], id) == WalkAll(backups, list[1..], id)
  {
    var c, rest := list[0], list[1..];
    assert list == [c] + rest;
    assert c in list;
    forall d | d in rest ensures d != c && d in list {
      var k :| 0 <= k < |rest| && rest[k] == d;
      assert list[k + 1] == d;
    }
    assert AllListed(backups, rest, id);
    forall x | x in WalkAll(backups, rest, id) ensures ChildrenOf(now, x) == ChildrenOf(backups, x) {
      WalkAllExactly(backups, rest, id, x);
      var d :| d in rest && Descends(backups, x, d);
      WalkExactly(backups, d, x);
      SiblingIsUntouched(backups, now, id, c, d, x);
    }
    StillListed(backups, now, rest, id, c);
    SameListsSameWalks(backups, now, rest, id);
  }

  lemma StillListed(backups: Backups, now: Backups, rest: seq<BackupId>, id: BackupId, c: BackupId)
    requires Linked(backups) && AllListed(backups, rest, id) && c in ChildrenOf(backups, id) && c !in rest
    requires DeletedSoFar(backups, now, Walk(backups, c))
    ensures AllListed(now, rest, id)
  {
    ListedMeansParent(backups, c, id);
    ChildIsNewer(backups, id, c);
    WalkExactly(backups, c, id);
    if Descends(backups, id, c) { DescendsIsOrdered(backups, id, c); }
    assert id in now && ListsLost(ChildrenOf(backups, id), ChildrenOf(now, id), Walk(backups, c));
    forall d | d in rest ensures d in ChildrenOf(now, id) && d in now && Above(now, d) < Above(now, id) {
      WalkExactly(backups, d, d);
      assert Descends(backups, d, d);
      SiblingIsUntouched(backups, now, id, c, d, d);
      ChildIsNewer(now, id, d);
    }
  }

  lemma OthersAreListed(backups: Backups, list: seq<BackupId>, id: BackupId)
    requires Linked(backups) && AllListed(backups, list, id) && list != []
    ensures AllListed(backups, list[1..], id)
    ensures forall c :: c in list[1..] ==> c in backups && Above(backups, c) < Above(backups, id)
    ensures WalkAll(backups, list, id) == Walk(backups, list[0]) + WalkAll(backups, list[1..], id)
  {
    assert list[0] in list && forall c :: c in list[1..] ==> c in list;
  }

  lemma {:induction false} BelowIsWalk(p: Progress, list: seq<BackupId>, id: BackupId, last: BackupId, call: Call)
    requires Linked(p.state.backups) && NoneAbove(p.state.backups, last) && p.ok
    requires AllListed(p.state.backups, list, id)
    requires forall c :: c in list ==> id < c <= last
    ensures DeleteBelow(p, list, id, last, call) == DeleteList(p, WalkAll(p.state.backups, list, id), call)
    decreases last - id, 0, |list|
  {
    if list != [] {
      var backups := p.state.backups;
      var first, rest := Walk(backups, list[0]), list[1..];
      OthersAreListed(backups, list, id);
      hide Linked, DeletedSoFar, AllListed, Walk, DeleteList, DeleteNext, ChildrenOf, Above;
      var others := WalkAll(backups, rest, id);
      assert list[0] in list && forall c :: c in rest ==> c in list;
      TreeIsWalk(p, list[0], last, call);
      var q := DeleteTree(p, list[0], last, call);
      OneListThenAnother(p, first, others, call);
      if q.ok {
        DeletionIsExact(p, first, call);
        SiblingsAreUntouched(backups, q.state.backups, list, id);
        BelowIsWalk(q, rest, id, last, call);
      } else {
        Stopped(q, others, call);
      }
    }
  }

  /** Reading the walk while its backups are being deleted yields what it would have yielded
      before: deleting a tree is deleting the backups of the walk one after another, up to the
      first that raises. */
  lemma {:induction false} TreeIsWalk(p: Progress, id: BackupId, last: BackupId, call: Call)
    requires Linked(p.state.backups) && NoneAbove(p.state.backups, last) && p.ok
    ensures DeleteTree(p, id, last, call) == DeleteList(p, Walk(p.state.backups, id), call)
    decreases last - id, 1, 0
  {
    var backups := p.state.backups;
    var list := ChildrenOf(backups, id);
    ChildrenAreLater(backups, id, last);
    forall c | c in list ensures c in backups && Above(backups, c) < Above(backups, id) { ChildIsNewer(backups, id, c); }
    BelowIsWalk(p, list, id, last, call);
    var w := WalkAll(backups, list, id);
    assert (w + [id])[..|w|] == w;
  }

  // ---------------------------------------------------------------- deleting a tree

  /** Every child of a member comes before it. */
  ghost predicate ChildrenFirst(backups: Backups, w: seq<BackupId>) {
    forall c, i :: c in backups && 0 <= i < |w| && backups[c].parent == Some(w[i]) ==> c in w[..i]
  }

  /** No backup that was killed, or still runs, has its parent in the tree of `r`. */
  ghost predicate NoKilledChild(backups: Backups, r: BackupId)
    requires Linked(backups)
  {
    forall c :: c in backups && !IsFinished(backups[c]) && backups[c].parent.Some? ==> backups[c].parent.value !in Walk(backups, r)
  }

  lemma WalkIsDistinct(backups: Backups, r: BackupId, i: nat)
    requires Linked(backups) && r in backups && i < |Walk(backups, r)|
    ensures Walk(backups, r)[i] in backups && Walk(backups, r)[i] !in Walk(backups, r)[..i] && r <= Walk(backups, r)[i]
  {
    var w := Walk(backups, r);
    WalkIsBottomUp(backups, r);
    assert w[i] in w;
    WalkExactly(backups, r, w[i]);
    DescendsIsOrdered(backups, w[i], r);
    assert Descends(backups, w[i], w[i]);
  }

  lemma WalkIsLeavesFirst(backups: Backups, r: BackupId)
    requires Linked(backups) && r in backups && NoKilledChild(backups, r)
    ensures ChildrenFirst(backups, Walk(backups, r))
  {
    var w := Walk(backups, r);
    forall c, i | c in backups && 0 <= i < |w| && backups[c].parent == Some(w[i]) ensures c in w[..i] {
      WalkIsDistinct(backups, r, i);
      assert w[i] in w;
      ChildPrecedesParent(backups, r, c, i);
    }
  }

  lemma ChildPrecedesParent(backups: Backups, r: BackupId, c: BackupId, i: nat)
    requires Linked(backups) && c in backups && IsFinished(backups[c]) && i < |Walk(backups, r)|
    requires Walk(backups, r)[i] in backups && backups[c].parent == Some(Walk(backups, r)[i])
    ensures c in Walk(backups, r)[..i]
  {
    var w := Walk(backups, r);
    var p := w[i];
    assert WellFormedRecord(backups, c);
    assert Descends(backups, p, p) && Descends(backups, c, p) && c != p;
    assert p in w;
    WalkExactly(backups, r, p);
    DescendsTransitive(backups, c, p, r);
    WalkExactly(backups, r, c);
    var j :| 0 <= j < |w| && w[j] == c;
    WalkIsBottomUp(backups, r);
    assert j < i;
  }

  lemma ParentComesLater(backups: Backups, w: seq<BackupId>, k: nat, i: nat, c: BackupId)
    requires ChildrenFirst(backups, w) && i < k <= |w| && c in backups && c !in w[..k]
    ensures backups[c].parent != Some(w[i])
  {
    var before := w[..i];
    assert forall j :: 0 <= j < i ==> before[j] == w[..k][j];
    assert backups[c].parent == Some(w[i]) ==> c in before;
  }

  lemma NoOrphanLeft(backups: Backups, w: seq<BackupId>, k: nat, now: Backups)
    requires ChildrenFirst(backups, w) && NoOrphans(backups) && k <= |w| && DeletedSoFar(backups, now, w[..k])
    ensures NoOrphans(now)
  {
    forall c | c in now && now[c].parent.Some? ensures now[c].parent.value in now {
      var p := backups[c].parent.value;
      forall i | 0 <= i < k ensures w[i] != p { ParentComesLater(backups, w, k, i, c); }
    }
  }

  predicate FindsItself(backups: Backups, id: BackupId) {
    && id in backups
    && RecordRemovalEnds(backups, id)
  }

  lemma FindsItselfIff(backups: Backups, id: BackupId)
    requires Linked(backups) && id in backups
    ensures FindsItself(backups, id) <==> (ParentOf(backups, id).Some? ==> IsFinished(backups[id]))
  {
    if ParentOf(backups, id).Some? { DeletionFindsItself(backups, id); }
  }

  /** The root is last, and then its parent is as it was. */
  lemma {:induction false} RootIsLast(backups: Backups, r: BackupId, now: Backups)
    requires Linked(backups) && r in backups
    requires var w := Walk(backups, r); DeletedSoFar(backups, now, w[..|w| - 1])
    ensures Walk(backups, r)[|Walk(backups, r)| - 1] == r && r in now
    ensures ParentOf(now, r) == ParentOf(backups, r) && now[r].status == backups[r].status
  {
    var w := Walk(backups, r);
    var gone := w[..|w| - 1];
    WalkIsDistinct(backups, r, |w| - 1);
    assert WellFormedRecord(backups, r);
    if backups[r].parent.Some? {
      forall i | 0 <= i < |gone| ensures gone[i] != backups[r].parent.value {
        WalkIsDistinct(backups, r, i);
      }
    }
  }

  /** Before the root, everything in the tree was listed, so it had finished. */
  lemma BelowRootIsFinished(backups: Backups, r: BackupId, x: BackupId)
    requires Linked(backups) && r in backups && x in Walk(backups, r) && x != r
    ensures x in backups && IsFinished(backups[x])
  {
    WalkExactly(backups, r, x);
  }

  predicate RootIsListed(backups: Backups, r: BackupId)
    requires r in backups
  {
    IsFinished(backups[r]) || ParentOf(backups, r).None?
  }

  /** With exactly the members before it gone, a backup of the tree is there and its parent lists
      it; only the root may be an exception. */
  lemma MemberFindsItself(backups: Backups, r: BackupId, now: Backups, k: nat)
    requires Linked(backups) && r in backups && k < |Walk(backups, r)|
    requires DeletedSoFar(backups, now, Walk(backups, r)[..k])
    ensures Walk(backups, r)[k] in now
    ensures RecordRemovalEnds(now, Walk(backups, r)[k]) <==> k < |Walk(backups, r)| - 1 || RootIsListed(backups, r)
  {
    var w := Walk(backups, r);
    WalkIsDistinct(backups, r, k);
    FindsItselfIff(now, w[k]);
    WalkIsDistinct(backups, r, |w| - 1);
    if k == |w| - 1 {
      RootIsLast(backups, r, now);
    } else {
      assert w[|w| - 1] == r && w[k] in w[..|w| - 1];
      BelowRootIsFinished(backups, r, w[k]);
    }
  }

  function Untouched(s: State): Progress { Progress(s, [], true) }

  /** The server when the walk has come to its k-th backup. */
  function Midway(s: State, w: seq<BackupId>, k: nat, call: Call): State
    requires k <= |w|
  {
    DeleteList(Untouched(s), w[..k], call).state
  }

  /** No deletion meets a missing directory when its turn comes. */
  ghost predicate NoneStops(s: State, w: seq<BackupId>, call: Call) {
    forall k :: 0 <= k < |w| ==> !Stops(Midway(s, w, k, call), Drop(w[k], call))
  }

  lemma EndsIff(s: State, id: BackupId, call: Call)
    requires id in s.backups
    ensures DeletionEnds(s, id, true, call.concurrent, call.cached == Some(id))
       <==> !Stops(s, Drop(id, call)) && RecordRemovalEnds(s.backups, id)
  {
    if MayRemoveWals(s.backups, s.keep, id, true) { StopsMeansNotEnded(s, Drop(id, call)); }
  }

  /** At any moment before something raises: exactly the backups met so far are gone; and which
      next deletion goes well. */
  lemma TreeDeletion(s: State, r: BackupId, k: nat, call: Call)
    requires Linked(s.backups) && r in s.backups
    requires k < |Walk(s.backups, r)| && DeleteList(Untouched(s), Walk(s.backups, r)[..k], call).ok
    ensures var w := Walk(s.backups, r);
      && DeletedSoFar(s.backups, Midway(s, w, k, call).backups, w[..k])
      && (DeleteList(Untouched(s), w[..k + 1], call).ok <==>
            !Stops(Midway(s, w, k, call), Drop(w[k], call)) && (k < |w| - 1 || RootIsListed(s.backups, r)))
  {
    var w := Walk(s.backups, r);
    var now := Midway(s, w, k, call);
    DeletionIsExact(Untouched(s), w[..k], call);
    MemberFindsItself(s.backups, r, now.backups, k);
    EndsIff(now, w[k], call);
    NextInList(Untouched(s), w, k, call);
    hide DeletedSoFar, Stops, RecordRemovalEnds, DeleteList, Walk, Linked, DeletionEnds;
  }

  lemma {:induction false} PrefixGoesWell(s: State, r: BackupId, k: nat, call: Call)
    requires Linked(s.backups) && r in s.backups && k <= |Walk(s.backups, r)|
    requires NoneStops(s, Walk(s.backups, r), call) && RootIsListed(s.backups, r)
    ensures DeleteList(Untouched(s), Walk(s.backups, r)[..k], call).ok
    decreases k
  {
    if k > 0 {
      PrefixGoesWell(s, r, k - 1, call);
      TreeDeletion(s, r, k - 1, call);
    }
  }

  lemma MemberWentWell(s: State, r: BackupId, w: seq<BackupId>, k: nat, call: Call)
    requires Linked(s.backups) && r in s.backups && w == Walk(s.backups, r) && k < |w|
    requires DeleteList(Untouched(s), w, call).ok
    ensures !Stops(Midway(s, w, k, call), Drop(w[k], call)) && (k < |w| - 1 || RootIsListed(s.backups, r))
  {
    hide Stops, DeleteList, Walk, Linked, Midway, DeletedSoFar, RootIsListed;
    PrefixWentWell(Untouched(s), w, k, call);
    PrefixWentWell(Untouched(s), w, k + 1, call);
    TreeDeletion(s, r, k, call);
  }

  lemma WalkIsNotEmpty(backups: Backups, r: BackupId)
    requires Linked(backups)
    ensures |Walk(backups, r)| > 0
  {
  }

  lemma WentWellSoNoneStopped(s: State, r: BackupId, w: seq<BackupId>, call: Call)
    requires Linked(s.backups) && r in s.backups && w == Walk(s.backups, r)
    requires DeleteList(Untouched(s), w, call).ok
    ensures NoneStops(s, w, call) && RootIsListed(s.backups, r)
  {
    WalkIsNotEmpty(s.backups, r);
    hide Linked, Walk, Stops, Midway, DeleteList, RootIsListed;
    MemberWentWell(s, r, w, |w| - 1, call);
    forall k | 0 <= k < |w| ensures !Stops(Midway(s, w, k, call), Drop(w[k], call)) { MemberWentWell(s, r, w, k, call); }
  }

  /** The deletions of a tree all go well exactly when none stops and the root is listed. */
  lemma WalkGoesWellIff(s: State, r: BackupId, w: seq<BackupId>, call: Call)
    requires Linked(s.backups) && r in s.backups && w == Walk(s.backups, r)
    ensures DeleteList(Untouched(s), w, call).ok <==> NoneStops(s, w, call) && RootIsListed(s.backups, r)
  {
    hide Linked, Walk, DeleteList, NoneStops, RootIsListed;
    assert w[..|w|] == w;
    if DeleteList(Untouched(s), w, call).ok {
      WentWellSoNoneStopped(s, r, w, call);
    } else if NoneStops(s, w, call) && RootIsListed(s.backups, r) {
      PrefixGoesWell(s, r, |w|, call);
    }
  }

  lemma StopKeepsRecords(p: Progress, id: BackupId, call: Call)
    requires p.ok && id in p.state.backups && Linked(p.state.backups) && Stops(p.state, Drop(id, call))
    ensures !DeleteNext(p, id, call).ok && DeleteNext(p, id, call).state.backups.Keys == p.state.backups.Keys
    ensures forall j :: j in p.state.backups ==>
      var after := DeleteNext(p, id, call).state.backups[j]; after == p.state.backups[j].(children := after.children)
  {
    hide Linked, DeletePolicy, MayRemoveWals, CleanupEnds, RecordRemovalEnds, RemoveRecord, Stops, Selected;
    EndsIff(p.state, id, call);
    StepKeepsRecords(p.state, Drop(id, call));
  }

  /** A backup without children whose own deletion stops is left with its record. */
  lemma LoneDeletionStops(s: State, r: BackupId, last: BackupId, call: Call)
    requires Linked(s.backups) && NoneAbove(s.backups, last) && r in s.backups && ChildrenOf(s.backups, r) == []
    requires Stops(s, Drop(r, call))
    ensures var p := DeleteTree(Untouched(s), r, last, call);
      !p.ok && p.state.backups.Keys == s.backups.Keys
      && forall j :: j in s.backups ==> p.state.backups[j] == s.backups[j].(children := p.state.backups[j].children)
  {
    StopKeepsRecords(Untouched(s), r, call);
    hide Linked, Stops, DeleteNext;
  }

  lemma NoOrphansIff(backups: Backups, r: BackupId, after: Backups)
    requires Linked(backups) && NoOrphans(backups) && r in backups && DeletedSoFar(backups, after, Walk(backups, r))
    ensures NoOrphans(after) <==> NoKilledChild(backups, r)
  {
    var w := Walk(backups, r);
    assert w[..|w|] == w;
    if NoKilledChild(backups, r) {
      WalkIsLeavesFirst(backups, r);
      NoOrphanLeft(backups, w, |w|, after);
    }
    if NoOrphans(after) {
      forall c | c in backups && !IsFinished(backups[c]) && backups[c].parent.Some? ensures backups[c].parent.value !in w {
        KilledChildIsLeft(backups, r, c, after);
      }
    }
  }

  /** A whole tree is deleted without an error, and without leaving a backup whose parent is gone,
      if and only if no deletion meets a missing WAL directory, no killed backup has its parent in
      the tree, and the root had finished or has no parent. */
  lemma TreeDeletionIff(s: State, r: BackupId, last: BackupId, call: Call)
    requires Linked(s.backups) && NoneAbove(s.backups, last) && NoOrphans(s.backups) && r in s.backups
    ensures var p := DeleteTree(Untouched(s), r, last, call);
      (p.ok && NoOrphans(p.state.backups)) <==>
        (NoneStops(s, Walk(s.backups, r), call) && NoKilledChild(s.backups, r) && RootIsListed(s.backups, r))
  {
    TreeIsWalk(Untouched(s), r, last, call);
    WalkGoesWellIff(s, r, Walk(s.backups, r), call);
    var p := DeleteTree(Untouched(s), r, last, call);
    if p.ok {
      DeletionIsExact(Untouched(s), Walk(s.backups, r), call);
      NoOrphansIff(s.backups, r, p.state.backups);
    }
  }

  lemma KilledChildIsLeft(backups: Backups, r: BackupId, c: BackupId, after: Backups)
    requires Linked(backups) && r in backups && DeletedSoFar(backups, after, Walk(backups, r)) && NoOrphans(after)
    requires c in backups && !IsFinished(backups[c]) && backups[c].parent.Some?
    ensures backups[c].parent.value !in Walk(backups, r)
  {
    var p := backups[c].parent.value;
    assert WellFormedRecord(backups, c);
    WalkExactly(backups, r, c);
    WalkExactly(backups, r, p);
    if p in Walk(backups, r) {
      DescendsIsOrdered(backups, p, r);
      assert false;
    }
  }

  lemma {:induction false} UnkilledReach(backups: Backups, r: BackupId, x: BackupId)
    requires Linked(backups) && NoKilledChild(backups, r) && x in backups
    ensures x in Walk(backups, r) <==> r in ToRoot(backups, x)
    decreases x
  {
    UpStep(backups, x);
    WalkExactly(backups, r, x);
    var parent := ParentOf(backups, x);
    if parent.Some? {
      assert Up(backups, x) == ToRoot(backups, parent.value);
      UnkilledReach(backups, r, parent.value);
      WalkExactly(backups, r, parent.value);
    }
  }

  /** When all has gone well, exactly the backups that the walk up would bring to the root are gone. */
  lemma TreeIsGone(s: State, r: BackupId, last: BackupId, call: Call, x: BackupId)
    requires Linked(s.backups) && NoneAbove(s.backups, last) && r in s.backups && NoKilledChild(s.backups, r)
    ensures var p := DeleteTree(Untouched(s), r, last, call);
      p.ok ==> p.met == Walk(s.backups, r) && (x in p.state.backups <==> x in s.backups && r !in ToRoot(s.backups, x))
  {
    TreeIsWalk(Untouched(s), r, last, call);
    if DeleteTree(Untouched(s), r, last, call).ok { DeletionIsExact(Untouched(s), Walk(s.backups, r), call); }
    if x in s.backups { UnkilledReach(s.backups, r, x); }
  }

  // ---------------------------------------------------------------- when no deletion stops

  lemma NextStaysConsistent(p: Progress, id: BackupId, call: Call)
    requires Consistent(p.state) && SmallDirectories(p.state.archive)
    ensures Consistent(DeleteNext(p, id, call).state) && SmallDirectories(DeleteNext(p, id, call).state.archive)
  {
    if p.ok && id in p.state.backups {
      var s, step := p.state, Drop(id, call);
      StepKeepsSanity(s, step);
      if MayRemoveWals(s.backups, s.keep, id, true) {
        SmallDirectoriesAreUncrowded(s.archive, Selected(s, step));
        CleanupIsExact(s, DeletePolicy(s, id, true, call.concurrent, call.cached == Some(id)));
        LosingStaysSmall(s.archive, Apply(s, step).archive, NameSet(Selected(s, step)));
      }
    }
  }

  lemma LosingStaysSmall(before: Archive, after: Archive, gone: set<WalName>)
    requires SmallDirectories(before) && LostExactly(before, after, gone)
    ensures SmallDirectories(after)
  {
    forall d | d in after ensures |after[d]| <= 256 {
      var files := if d in before then before[d] else {};
      assert forall n :: n in after[d] ==> FileAt(before, d, n);
      assert after[d] <= files;
      assert |files - after[d]| == |files| - |after[d]|;
    }
  }

  lemma {:induction false} ListStaysConsistent(p: Progress, w: seq<BackupId>, call: Call)
    requires Consistent(p.state) && SmallDirectories(p.state.archive)
    ensures Consistent(DeleteList(p, w, call).state) && SmallDirectories(DeleteList(p, w, call).state.archive)
  {
    if w != [] {
      ListStaysConsistent(p, w[..|w| - 1], call);
      hide Consistent, SmallDirectories;
      NextStaysConsistent(DeleteList(p, w[..|w| - 1], call), w[|w| - 1], call);
    }
  }

  /** Where the catalogue agrees with the disk and no directory has more than 256 entries, no
      deletion of the tree stops: the links alone decide. */
  lemma SmallTreeDeletionIff(s: State, r: BackupId, last: BackupId, call: Call)
    requires Linked(s.backups) && NoneAbove(s.backups, last) && NoOrphans(s.backups) && r in s.backups
    requires Consistent(s) && SmallDirectories(s.archive)
    ensures var p := DeleteTree(Untouched(s), r, last, call);
      p.ok && NoOrphans(p.state.backups) <==> NoKilledChild(s.backups, r) && RootIsListed(s.backups, r)
  {
    TreeDeletionIff(s, r, last, call);
    var w := Walk(s.backups, r);
    forall k | 0 <= k < |w| ensures !Stops(Midway(s, w, k, call), Drop(w[k], call)) {
      ListStaysConsistent(Untouched(s), w[..k], call);
      SelectedAreCatalogued(Midway(s, w, k, call), Drop(w[k], call));
    }
  }
}
