/** Walking the forest of incremental backups: down to the leaves and up to the root
    (barman/infofile.py). */
module BackupWalks {
  import opened Wrappers
  import opened Sequences
  import opened Catalog
  import opened BackupMachine
  import opened BackupForest

  // ---------------------------------------------------------------- the walks

  function Above(backups: Backups, id: BackupId): set<BackupId> {
    set j | j in backups && id < j
  }

  lemma ChildIsNewer(backups: Backups, id: BackupId, c: BackupId)
    requires Linked(backups) && c in ChildrenOf(backups, id)
    ensures c in backups && id < c && Above(backups, c) < Above(backups, id)
  {
    ListedMeansParent(backups, c, id);
    assert WellFormedRecord(backups, c);
    assert c in Above(backups, id) && c !in Above(backups, c);
  }

  /** `walk_backups_tree`: every child's tree, then the backup itself. */
  function Walk(backups: Backups, id: BackupId): seq<BackupId>
    requires Linked(backups)
    decreases Above(backups, id), 1, 0
  {
    assert forall c :: c in ChildrenOf(backups, id) ==> c in backups && Above(backups, c) < Above(backups, id) by {
      forall c | c in ChildrenOf(backups, id) { ChildIsNewer(backups, id, c); }
    }
    WalkAll(backups, ChildrenOf(backups, id), id) + [id]
  }

  function WalkAll(backups: Backups, list: seq<BackupId>, id: BackupId): seq<BackupId>
    requires Linked(backups)
    requires forall c :: c in list ==> c in backups && Above(backups, c) < Above(backups, id)
    decreases Above(backups, id), 0, |list|
  {
    if list == [] then []
    else
      assert list[0] in list;
      Walk(backups, list[0]) + WalkAll(backups, list[1..], id)
  }

  /** The parents of a backup, nearest first. */
  function Up(backups: Backups, id: BackupId): seq<BackupId>
    requires Linked(backups) && id in backups
    decreases id
  {
    assert WellFormedRecord(backups, id);
    match ParentOf(backups, id)
    case None => []
    case Some(p) => [p] + Up(backups, p)
  }

  function ToRoot(backups: Backups, id: BackupId): seq<BackupId>
    requires Linked(backups) && id in backups
  {
    [id] + Up(backups, id)
  }

  lemma UpStep(backups: Backups, id: BackupId)
    requires Linked(backups) && id in backups
    ensures match ParentOf(backups, id)
            case None => Up(backups, id) == []
            case Some(p) => p in backups && p < id && Up(backups, id) == [p] + Up(backups, p)
  {
    assert WellFormedRecord(backups, id);
  }

  method WalkToRoot(backups: Backups, id: BackupId, returnSelf: bool) returns (path: seq<BackupId>)
    requires Linked(backups) && id in backups
    ensures path == if returnSelf then ToRoot(backups, id) else Up(backups, id)
  {
    hide Linked, Up, ParentOf;
    path := if returnSelf then [id] else [];
    ghost var all := path + Up(backups, id);
    assert [] + Up(backups, id) == Up(backups, id);
    var cur := id;
    var parent := ParentOf(backups, cur);
    while parent.Some?
      invariant cur in backups && parent == ParentOf(backups, cur)
      invariant path + Up(backups, cur) == all
      decreases cur
    {
      UpStep(backups, cur);
      var p := parent.value;
      Associative(path, [p], Up(backups, p));
      path := path + [p];
      cur := p;
      parent := ParentOf(backups, cur);
    }
    UpStep(backups, cur);
    assert path + [] == path;
  }

  // ---------------------------------------------------------------- descent

  /** `x` hangs under `r` by listed links. */
  predicate Descends(backups: Backups, x: BackupId, r: BackupId)
    requires Linked(backups)
    decreases x
  {
    x == r ||
    (x in backups && IsFinished(backups[x]) && ParentOf(backups, x).Some? &&
     (assert WellFormedRecord(backups, x); Descends(backups, ParentOf(backups, x).value, r)))
  }

  lemma {:induction false} DescendsIsOrdered(backups: Backups, x: BackupId, r: BackupId)
    requires Linked(backups) && Descends(backups, x, r)
    ensures r <= x
    decreases x
  {
    if x != r {
      assert WellFormedRecord(backups, x);
      DescendsIsOrdered(backups, ParentOf(backups, x).value, r);
    }
  }

  lemma {:induction false} DescendsTransitive(backups: Backups, x: BackupId, y: BackupId, r: BackupId)
    requires Linked(backups) && Descends(backups, x, y) && Descends(backups, y, r)
    ensures Descends(backups, x, r)
    decreases x
  {
    if x != y {
      assert WellFormedRecord(backups, x);
      DescendsTransitive(backups, ParentOf(backups, x).value, y, r);
    }
  }

  /** Two ancestors of one backup are on one line. */
  lemma {:induction false} AncestorsAreLinear(backups: Backups, x: BackupId, a: BackupId, b: BackupId)
    requires Linked(backups) && Descends(backups, x, a) && Descends(backups, x, b)
    ensures Descends(backups, a, b) || Descends(backups, b, a)
    decreases x
  {
    if x != a && x != b {
      assert WellFormedRecord(backups, x);
      AncestorsAreLinear(backups, ParentOf(backups, x).value, a, b);
    }
  }

  lemma ChildDescends(backups: Backups, c: BackupId, id: BackupId)
    requires Linked(backups) && c in ChildrenOf(backups, id)
    ensures Descends(backups, c, id)
  {
    ListedMeansParent(backups, c, id);
    assert Descends(backups, id, id);
  }

  /** A strict descendant hangs under one of the children. */
  lemma {:induction false} ThroughAChild(backups: Backups, x: BackupId, r: BackupId) returns (c: BackupId)
    requires Linked(backups) && Descends(backups, x, r) && x != r
    ensures c in ChildrenOf(backups, r) && Descends(backups, x, c)
    decreases x
  {
    assert WellFormedRecord(backups, x);
    var p := ParentOf(backups, x).value;
    if p == r {
      c := x;
    } else {
      c := ThroughAChild(backups, p, r);
    }
  }

  /** Trees of different children are disjoint. */
  lemma SiblingsAreApart(backups: Backups, id: BackupId, c: BackupId, d: BackupId, x: BackupId)
    requires Linked(backups) && c in ChildrenOf(backups, id) && d in ChildrenOf(backups, id)
    requires Descends(backups, x, c) && Descends(backups, x, d)
    ensures c == d
  {
    AncestorsAreLinear(backups, x, c, d);
    ListedMeansParent(backups, c, id);
    ListedMeansParent(backups, d, id);
    ChildIsNewer(backups, id, c);
    ChildIsNewer(backups, id, d);
    if c != d {
      if Descends(backups, c, d) {
        DescendsIsOrdered(backups, id, d);
      } else {
        DescendsIsOrdered(backups, id, c);
      }
    }
  }

  // ---------------------------------------------------------------- the walk down is exact

  ghost predicate AllListed(backups: Backups, list: seq<BackupId>, id: BackupId)
    requires Linked(backups)
  {
    && NoDuplicates(list)
    && forall c :: c in list ==> c in ChildrenOf(backups, id) && c in backups && Above(backups, c) < Above(backups, id)
  }

  /** No backup of the sequence hangs under an earlier one: leaves first, nothing twice. */
  ghost predicate BottomUp(backups: Backups, w: seq<BackupId>)
    requires Linked(backups)
  {
    forall i, j :: 0 <= i < j < |w| ==> !Descends(backups, w[j], w[i])
  }

  lemma BottomUpConcat(backups: Backups, a: seq<BackupId>, b: seq<BackupId>)
    requires Linked(backups) && BottomUp(backups, a) && BottomUp(backups, b)
    requires forall x, y :: x in a && y in b ==> !Descends(backups, y, x)
    ensures BottomUp(backups, a + b)
  {
    var w := a + b;
    forall i, j | 0 <= i < j < |w| ensures !Descends(backups, w[j], w[i]) {
      if i < |a| <= j {
        assert w[i] in a && w[j] in b;
      } else if j >= |a| {
        assert w[i] == b[i - |a|] && w[j] == b[j - |a|];
      }
    }
  }

  lemma {:induction false} WalkExactly(backups: Backups, id: BackupId, x: BackupId)
    requires Linked(backups)
    ensures x in Walk(backups, id) <==> Descends(backups, x, id)
    decreases Above(backups, id), 1, 0
  {
    var list := ChildrenOf(backups, id);
    forall c | c in list ensures c in backups && Above(backups, c) < Above(backups, id) { ChildIsNewer(backups, id, c); }
    WalkAllExactly(backups, list, id, x);
    if x in WalkAll(backups, list, id) {
      var c :| c in list && Descends(backups, x, c);
      ChildDescends(backups, c, id);
      DescendsTransitive(backups, x, c, id);
    }
    if Descends(backups, x, id) && x != id {
      var c := ThroughAChild(backups, x, id);
    }
  }

  lemma {:induction false} WalkAllExactly(backups: Backups, list: seq<BackupId>, id: BackupId, x: BackupId)
    requires Linked(backups) && AllListed(backups, list, id)
    ensures x in WalkAll(backups, list, id) <==> exists c :: c in list && Descends(backups, x, c)
    decreases Above(backups, id), 0, |list|
  {
    if list != [] {
      assert list == [list[0]] + list[1..];
      assert list[0] in list;
      WalkExactly(backups, list[0], x);
      assert AllListed(backups, list[1..], id);
      WalkAllExactly(backups, list[1..], id, x);
    }
  }

  lemma {:induction false} WalkIsBottomUp(backups: Backups, id: BackupId)
    requires Linked(backups)
    ensures BottomUp(backups, Walk(backups, id))
    decreases Above(backups, id), 1, 0
  {
    var list := ChildrenOf(backups, id);
    forall c | c in list ensures c in backups && Above(backups, c) < Above(backups, id) { ChildIsNewer(backups, id, c); }
    WalkAllIsBottomUp(backups, list, id);
    var w := WalkAll(backups, list, id);
    forall x, y | x in w && y in [id] ensures !Descends(backups, y, x) {
      WalkAllExactly(backups, list, id, x);
      var c :| c in list && Descends(backups, x, c);
      ChildIsNewer(backups, id, c);
      DescendsIsOrdered(backups, x, c);
      if Descends(backups, y, x) { DescendsIsOrdered(backups, y, x); }
    }
    BottomUpConcat(backups, w, [id]);
  }

  lemma {:induction false} WalkAllIsBottomUp(backups: Backups, list: seq<BackupId>, id: BackupId)
    requires Linked(backups) && AllListed(backups, list, id)
    ensures BottomUp(backups, WalkAll(backups, list, id))
    decreases Above(backups, id), 0, |list|
  {
    if list != [] {
      assert list == [list[0]] + list[1..];
      assert list[0] in list;
      var rest := list[1..];
      assert AllListed(backups, rest, id);
      WalkIsBottomUp(backups, list[0]);
      WalkAllIsBottomUp(backups, rest, id);
      forall x, y | x in Walk(backups, list[0]) && y in WalkAll(backups, rest, id) ensures !Descends(backups, y, x) {
        WalkExactly(backups, list[0], x);
        WalkAllExactly(backups, rest, id, y);
        var d :| d in rest && Descends(backups, y, d);
        assert list[0] != d by { var k :| 0 <= k < |rest| && rest[k] == d; assert list[k + 1] == d; }
        if Descends(backups, y, x) {
          DescendsTransitive(backups, y, x, list[0]);
          SiblingsAreApart(backups, id, list[0], d, y);
        }
      }
      BottomUpConcat(backups, Walk(backups, list[0]), WalkAll(backups, rest, id));
    }
  }

  // ---------------------------------------------------------------- the two walks agree

  /** `r` is on the path, and every backup before it had finished. */
  predicate FinishedUpTo(backups: Backups, path: seq<BackupId>, r: BackupId) {
    exists k :: 0 <= k < |path| && path[k] == r && forall i :: 0 <= i < k ==> path[i] in backups && IsFinished(backups[path[i]])
  }

  lemma OneStepUp(backups: Backups, x: BackupId, path: seq<BackupId>, r: BackupId)
    requires x in backups
    ensures FinishedUpTo(backups, [x] + path, r) <==> x == r || (IsFinished(backups[x]) && FinishedUpTo(backups, path, r))
  {
    var longer := [x] + path;
    if x == r { assert longer[0] == r; }
    if k :| 0 <= k < |path| && path[k] == r && forall i :: 0 <= i < k ==> path[i] in backups && IsFinished(backups[path[i]]) {
      assert longer[k + 1] == r;
    }
    if k :| 0 < k < |longer| && longer[k] == r && forall i :: 0 <= i < k ==> longer[i] in backups && IsFinished(backups[longer[i]]) {
      assert path[k - 1] == r && longer[0] == x;
      forall i | 0 <= i < k - 1 ensures path[i] in backups && IsFinished(backups[path[i]]) { assert path[i] == longer[i + 1]; }
    }
  }

  lemma {:induction false} DescendsOnPath(backups: Backups, x: BackupId, r: BackupId)
    requires Linked(backups) && x in backups
    ensures Descends(backups, x, r) <==> FinishedUpTo(backups, ToRoot(backups, x), r)
    decreases x
  {
    UpStep(backups, x);
    OneStepUp(backups, x, Up(backups, x), r);
    var parent := ParentOf(backups, x);
    if parent.Some? {
      assert Up(backups, x) == ToRoot(backups, parent.value);
      DescendsOnPath(backups, parent.value, r);
    }
  }

  /** The walk down from `r` meets `x` if and only if the walk up from `x` meets `r` and everything
      it passes on the way had finished; what was killed is not listed by its parent. */
  lemma WalksAgree(backups: Backups, r: BackupId, x: BackupId)
    requires Linked(backups) && x in backups
    ensures x in Walk(backups, r) <==> FinishedUpTo(backups, ToRoot(backups, x), r)
  {
    WalkExactly(backups, r, x);
    DescendsOnPath(backups, x, r);
  }
}
