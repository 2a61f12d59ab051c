/** Removing the selected WAL files from disk, whole directories at a time where that
    looks possible (barman/backup.py, `delete_wals` and `delete_wal`). */
module WalArchive {
  import opened Xlog
  import opened WalCleanup

  /** The existing directories of the archive and the files in each. */
  type Archive = map<Dir, set<WalName>>

  const DIRECTORY_LIMIT: nat := 256

  predicate FileAt(a: Archive, d: Dir, n: WalName) { d in a && n in a[d] }

  predicate OnDisk(a: Archive, n: WalName) { FileAt(a, DirOf(n), n) }

  /** WAL files are only found in the directory of their name. */
  ghost predicate WellFiled(a: Archive) {
    forall d, n :: FileAt(a, d, n) && IsAnyXlogFile(n) ==> d == DirOf(n)
  }

  function Store(a: Archive, n: WalName): Archive {
    var d := DirOf(n);
    a[d := (if d in a then a[d] else {}) + {n}]
  }

  /** Unlinking a file, and its directory when that was the last one; a missing file is
      only a warning. */
  function Unlink(a: Archive, n: WalName): Archive {
    var d := DirOf(n);
    if !OnDisk(a, n) then a
    else if a[d] == {n} then a - {d}
    else a[d := a[d] - {n}]
  }

  function UnlinkAll(a: Archive, wals: seq<WalFileInfo>): Archive {
    if wals == [] then a else Unlink(UnlinkAll(a, wals[..|wals| - 1]), wals[|wals| - 1].name)
  }

  function NameSet(wals: seq<WalFileInfo>): set<WalName> {
    set w | w in wals :: w.name
  }

  function NamesOf(wals: seq<WalFileInfo>): seq<WalName> {
    seq(|wals|, i requires 0 <= i < |wals| => wals[i].name)
  }

  /** The directory goes as a whole when the list is long enough, or covers it. */
  predicate WipesDirectory(a: Archive, g: Group) {
    |g.wals| >= DIRECTORY_LIMIT || (g.dir in a && a[g.dir] <= NameSet(g.wals))
  }

  function DeleteGroup(a: Archive, g: Group): Archive {
    if WipesDirectory(a, g) then a - {g.dir} else UnlinkAll(a, g.wals)
  }

  /** What is on disk afterwards, the names reported as removed, and whether the
      deletion got to its end: a directory that does not exist stops it. */
  datatype Outcome = Outcome(archive: Archive, removed: seq<WalName>, ok: bool)

  function DeleteGroups(a: Archive, groups: seq<Group>): Outcome {
    if groups == [] then Outcome(a, [], true)
    else
      var before := DeleteGroups(a, groups[..|groups| - 1]);
      var g := groups[|groups| - 1];
      if !before.ok || g.dir !in before.archive then before.(ok := false)
      else Outcome(DeleteGroup(before.archive, g), before.removed + NamesOf(g.wals), true)
  }

  /** Once stopped, a deletion goes no further. */
  lemma {:induction false} DeleteGroupsStopped(a: Archive, groups: seq<Group>, k: nat)
    requires k <= |groups| && !DeleteGroups(a, groups[..k]).ok
    ensures DeleteGroups(a, groups) == DeleteGroups(a, groups[..k])
    decreases |groups|
  {
    if k < |groups| {
      var init := groups[..|groups| - 1];
      assert init[..k] == groups[..k];
      DeleteGroupsStopped(a, init, k);
    } else {
      assert groups[..k] == groups;
    }
  }

  // ---------------------------------------------------------------- what disappears

  lemma {:induction false} UnlinkAllEffect(a: Archive, wals: seq<WalFileInfo>, d: Dir, n: WalName)
    ensures FileAt(UnlinkAll(a, wals), d, n) <==> FileAt(a, d, n) && !(d == DirOf(n) && n in NameSet(wals))
  {
    if wals != [] {
      var init, last := wals[..|wals| - 1], wals[|wals| - 1];
      UnlinkAllEffect(a, init, d, n);
      assert wals == init + [last];
      assert NameSet(wals) == NameSet(init) + {last.name};
    }
  }

  predicate GroupRemoves(a: Archive, g: Group, n: WalName) {
    WipesDirectory(a, g) || n in NameSet(g.wals)
  }

  ghost predicate GroupsFit(a: Archive, groups: seq<Group>) {
    && DistinctDirs(groups)
    && (forall i :: 0 <= i < |groups| ==> groups[i].dir in a)
    && (forall i, w :: 0 <= i < |groups| && w in groups[i].wals ==> DirOf(w.name) == groups[i].dir)
  }

  lemma DeleteGroupEffect(a: Archive, g: Group, d: Dir, n: WalName)
    requires g.dir in a && forall w :: w in g.wals ==> DirOf(w.name) == g.dir
    ensures FileAt(DeleteGroup(a, g), d, n) <==> FileAt(a, d, n) && !(g.dir == d && GroupRemoves(a, g, n))
    ensures d != g.dir ==> (d in DeleteGroup(a, g) <==> d in a) && (d in a ==> DeleteGroup(a, g)[d] == a[d])
  {
    UnlinkAllEffect(a, g.wals, d, n);
    if !WipesDirectory(a, g) && d != g.dir {
      UnlinkAllElsewhere(a, g.wals, d);
    }
  }

  lemma {:induction false} UnlinkAllElsewhere(a: Archive, wals: seq<WalFileInfo>, d: Dir)
    requires forall w :: w in wals ==> DirOf(w.name) != d
    ensures d in UnlinkAll(a, wals) <==> d in a
    ensures d in a ==> UnlinkAll(a, wals)[d] == a[d]
  {
    if wals != [] {
      assert wals[|wals| - 1] in wals;
      UnlinkAllElsewhere(a, wals[..|wals| - 1], d);
    }
  }

  /** Directories that no group names are left as they are. */
  lemma {:induction false} DeleteGroupsElsewhere(a: Archive, groups: seq<Group>, d: Dir)
    requires GroupsFit(a, groups)
    requires forall i :: 0 <= i < |groups| ==> groups[i].dir != d
    ensures DeleteGroups(a, groups).ok
    ensures var after := DeleteGroups(a, groups).archive; (d in after <==> d in a) && (d in a ==> after[d] == a[d])
    decreases |groups|
  {
    if groups != [] {
      var init, g := groups[..|groups| - 1], groups[|groups| - 1];
      assert GroupsFit(a, init) by { assert forall i :: 0 <= i < |init| ==> init[i] == groups[i]; }
      DeleteGroupsElsewhere(a, init, d);
      DeleteGroupsElsewhere(a, init, g.dir);
      DeleteGroupEffect(DeleteGroups(a, init).archive, g, d, Other(""));
    }
  }

  lemma {:induction false} DeleteGroupsEffect(a: Archive, groups: seq<Group>, d: Dir, n: WalName)
    requires GroupsFit(a, groups)
    ensures DeleteGroups(a, groups).ok
    ensures FileAt(DeleteGroups(a, groups).archive, d, n) <==>
            FileAt(a, d, n) && forall i :: 0 <= i < |groups| && groups[i].dir == d ==> !GroupRemoves(a, groups[i], n)
    decreases |groups|
  {
    if groups != [] {
      var init, g := groups[..|groups| - 1], groups[|groups| - 1];
      assert GroupsFit(a, init) by { assert forall i :: 0 <= i < |init| ==> init[i] == groups[i]; }
      DeleteGroupsEffect(a, init, d, n);
      DeleteGroupsElsewhere(a, init, g.dir);
      var mid := DeleteGroups(a, init).archive;
      DeleteGroupEffect(mid, g, d, n);
      assert mid[g.dir] == a[g.dir];
      assert GroupRemoves(mid, g, n) <==> GroupRemoves(a, g, n);
      if groups[|groups| - 1].dir == d {
        assert forall i :: 0 <= i < |init| ==> groups[i].dir != d;
      }
    }
  }

  // ---------------------------------------------------------------- deletions that stop

  /** How many groups are dealt with before one whose directory does not exist. */
  function Existing(a: Archive, groups: seq<Group>): (k: nat)
    ensures k <= |groups|
  {
    if groups == [] then 0
    else
      var k := Existing(a, groups[..|groups| - 1]);
      if k == |groups| - 1 && groups[k].dir in a then |groups| else k
  }

  lemma {:induction false} ExistingPrefix(a: Archive, groups: seq<Group>)
    ensures forall i :: 0 <= i < Existing(a, groups) ==> groups[i].dir in a
    ensures Existing(a, groups) < |groups| ==> groups[Existing(a, groups)].dir !in a
  {
    if groups != [] {
      var init := groups[..|groups| - 1];
      ExistingPrefix(a, init);
      assert forall i :: 0 <= i < |init| ==> init[i] == groups[i];
    }
  }

  ghost predicate Grouped(groups: seq<Group>) {
    && DistinctDirs(groups)
    && forall i, w :: 0 <= i < |groups| && w in groups[i].wals ==> DirOf(w.name) == groups[i].dir
  }

  lemma DeleteGroupsReach(a: Archive, groups: seq<Group>)
    requires GroupsFit(a, groups)
    ensures DeleteGroups(a, groups).ok
  {
    DeleteGroupsEffect(a, groups, Root, Other(""));
  }

  lemma PrefixFits(a: Archive, groups: seq<Group>, k: nat)
    requires Grouped(groups) && k <= |groups| && forall i :: 0 <= i < k ==> groups[i].dir in a
    ensures GroupsFit(a, groups[..k])
  {
    var reached := groups[..k];
    assert forall i :: 0 <= i < k ==> reached[i] == groups[i];
  }

  lemma MissingStops(a: Archive, groups: seq<Group>, k: nat)
    requires Grouped(groups) && k < |groups| && GroupsFit(a, groups[..k]) && groups[k].dir !in a
    ensures !DeleteGroups(a, groups).ok && DeleteGroups(a, groups).archive == DeleteGroups(a, groups[..k]).archive
  {
    var reached, one := groups[..k], groups[..k + 1];
    forall i | 0 <= i < k ensures reached[i].dir != groups[k].dir { assert groups[i].dir != groups[k].dir; }
    DeleteGroupsElsewhere(a, reached, groups[k].dir);
    assert one[..k] == reached && one[k] == groups[k];
    DeleteGroupsStopped(a, groups, k + 1);
  }

  /** A deletion does what its existing groups do, and gets to its end if they are all. */
  lemma DeletionStops(a: Archive, groups: seq<Group>)
    requires Grouped(groups)
    ensures var k := Existing(a, groups);
      && GroupsFit(a, groups[..k])
      && DeleteGroups(a, groups).archive == DeleteGroups(a, groups[..k]).archive
      && (DeleteGroups(a, groups).ok <==> k == |groups|)
  {
    var k := Existing(a, groups);
    ExistingPrefix(a, groups);
    PrefixFits(a, groups, k);
    hide DeleteGroups, GroupsFit, Existing, Grouped;
    if k < |groups| {
      MissingStops(a, groups, k);
    } else {
      DeleteGroupsReach(a, groups[..k]);
      assert groups[..k] == groups;
    }
  }

  /** The deletion of the lines gets to the directory. */
  predicate Reached(a: Archive, wals: seq<WalFileInfo>, d: Dir) {
    exists i :: 0 <= i < Existing(a, GroupByDir(wals)) && GroupByDir(wals)[i].dir == d
  }

  lemma SelectionIsGrouped(wals: seq<WalFileInfo>)
    ensures Grouped(GroupByDir(wals))
  {
    GroupByDirIsPartition(wals);
    var groups := GroupByDir(wals);
    forall i, w | 0 <= i < |groups| && w in groups[i].wals ensures DirOf(w.name) == groups[i].dir {
      InDirMembership(wals, groups[i].dir, w);
    }
  }

  /** For any catalogue and any archive: a file vanishes exactly when the deletion gets to its
      directory and it is selected or the list of the directory is 256 or longer. */
  lemma WhatVanishesAlways(a: Archive, wals: seq<WalFileInfo>, n: WalName)
    ensures OnDisk(DeleteGroups(a, GroupByDir(wals)).archive, n) <==>
      OnDisk(a, n)
      && !(Reached(a, wals, DirOf(n)) && (n in NameSet(wals) || |InDir(wals, DirOf(n))| >= 256))
  {
    var groups, d := GroupByDir(wals), DirOf(n);
    var k := Existing(a, groups);
    SelectionIsGrouped(wals);
    GroupByDirIsPartition(wals);
    DeletionStops(a, groups);
    DeleteGroupsEffect(a, groups[..k], d, n);
    NameInItsDirectory(wals, n);
    if Reached(a, wals, d) {
      var i :| 0 <= i < k && groups[i].dir == d;
      assert groups[..k][i] == groups[i] && groups[i].wals == InDir(wals, d);
      assert forall j :: 0 <= j < k && groups[j].dir == d ==> j == i;
    }
  }

  lemma NameInItsDirectory(wals: seq<WalFileInfo>, n: WalName)
    ensures n in NameSet(wals) <==> n in NameSet(InDir(wals, DirOf(n)))
  {
    if n in NameSet(wals) {
      var w :| w in wals && w.name == n;
      InDirMembership(wals, DirOf(n), w);
    }
    if n in NameSet(InDir(wals, DirOf(n))) { NamedInDir(wals, DirOf(n), n); }
  }

  lemma DeletionStaysFiled(a: Archive, wals: seq<WalFileInfo>)
    requires WellFiled(a)
    ensures WellFiled(DeleteGroups(a, GroupByDir(wals)).archive)
  {
    var groups := GroupByDir(wals);
    SelectionIsGrouped(wals);
    DeletionStops(a, groups);
    forall d, n | FileAt(DeleteGroups(a, groups).archive, d, n) && IsAnyXlogFile(n) ensures d == DirOf(n) {
      DeleteGroupsEffect(a, groups[..Existing(a, groups)], d, n);
    }
  }

  /** With every line on disk no directory is missing: all of the selection is reached. */
  lemma CataloguedIsReached(a: Archive, wals: seq<WalFileInfo>, d: Dir)
    requires Catalogued(a, wals)
    ensures DeleteGroups(a, GroupByDir(wals)).ok
    ensures Reached(a, wals, d) <==> InDir(wals, d) != []
  {
    var groups := GroupByDir(wals);
    SelectionFits(a, wals);
    SelectionIsGrouped(wals);
    GroupByDirIsPartition(wals);
    ExistingPrefix(a, groups);
    DeleteGroupsReach(a, groups);
  }

  // ---------------------------------------------------------------- exactly the selection?

  /** The lines name different files, all of them on disk. */
  ghost predicate Catalogued(a: Archive, wals: seq<WalFileInfo>) {
    && (forall i, j :: 0 <= i < j < |wals| ==> wals[i].name != wals[j].name)
    && (forall i :: 0 <= i < |wals| ==> IsAnyXlogFile(wals[i].name) && OnDisk(a, wals[i].name))
  }

  /** No directory with a long list holds more entries than the list. */
  ghost predicate Uncrowded(a: Archive, wals: seq<WalFileInfo>) {
    forall d :: d in a && |InDir(wals, d)| >= DIRECTORY_LIMIT ==> |a[d]| <= |InDir(wals, d)|
  }

  /** The disk lost exactly the files in `gone`. */
  ghost predicate LostExactly(before: Archive, after: Archive, gone: set<WalName>) {
    forall d, n :: FileAt(after, d, n) <==> FileAt(before, d, n) && n !in gone
  }

  lemma {:induction false} InDirCatalogued(a: Archive, wals: seq<WalFileInfo>, d: Dir)
    requires Catalogued(a, wals)
    ensures Catalogued(a, InDir(wals, d))
    ensures InDir(wals, d) != [] ==> d in a && NameSet(InDir(wals, d)) <= a[d]
    decreases |wals|
  {
    if wals != [] {
      var init, last := wals[..|wals| - 1], wals[|wals| - 1];
      assert Catalogued(a, init);
      InDirCatalogued(a, init, d);
      forall i | 0 <= i < |InDir(init, d)| ensures InDir(init, d)[i].name != last.name {
        InDirMembership(init, d, InDir(init, d)[i]);
      }
    }
  }

  lemma {:induction false} DistinctNamesCount(a: Archive, wals: seq<WalFileInfo>)
    requires Catalogued(a, wals)
    ensures |NameSet(wals)| == |wals|
    decreases |wals|
  {
    if wals != [] {
      var init, last := wals[..|wals| - 1], wals[|wals| - 1];
      assert Catalogued(a, init);
      DistinctNamesCount(a, init);
      assert wals == init + [last];
      assert NameSet(wals) == NameSet(init) + {last.name};
    }
  }

  lemma SubsetOfSameSize<T>(small: set<T>, big: set<T>)
    requires small <= big && |big| <= |small|
    ensures small == big
  {
    assert |big - small| == |big| - |small|;
  }

  lemma SelectionFits(a: Archive, wals: seq<WalFileInfo>)
    requires Catalogued(a, wals)
    ensures GroupsFit(a, GroupByDir(wals))
  {
    GroupByDirIsPartition(wals);
    var groups := GroupByDir(wals);
    forall i, w | 0 <= i < |groups| && w in groups[i].wals ensures DirOf(w.name) == groups[i].dir {
      InDirMembership(wals, groups[i].dir, w);
    }
    forall i | 0 <= i < |groups| ensures groups[i].dir in a {
      InDirCatalogued(a, wals, groups[i].dir);
    }
  }

  /** A file vanishes exactly when it is selected or its directory has a list of 256 or
      more. */
  lemma WhatVanishes(a: Archive, wals: seq<WalFileInfo>, d: Dir, n: WalName)
    requires WellFiled(a) && Catalogued(a, wals)
    ensures DeleteGroups(a, GroupByDir(wals)).ok
    ensures FileAt(DeleteGroups(a, GroupByDir(wals)).archive, d, n) <==>
            FileAt(a, d, n) && n !in NameSet(wals) && |InDir(wals, d)| < 256
  {
    SelectionFits(a, wals);
    GroupByDirIsPartition(wals);
    var groups := GroupByDir(wals);
    DeleteGroupsEffect(a, groups, d, n);
    InDirCatalogued(a, wals, d);
    if FileAt(a, d, n) {
      assert n in NameSet(wals) <==> n in NameSet(InDir(wals, d)) by {
        if n in NameSet(wals) {
          var w :| w in wals && w.name == n;
          var k :| 0 <= k < |wals| && wals[k] == w;
          assert DirOf(n) == d;
          InDirMembership(wals, d, w);
        }
        if n in NameSet(InDir(wals, d)) {
          var w :| w in InDir(wals, d) && w.name == n;
          InDirMembership(wals, d, w);
        }
      }
      if InDir(wals, d) != [] {
        var i :| 0 <= i < |groups| && groups[i].dir == d;
        assert groups[i].wals == InDir(wals, d);
      }
    }
  }

  /** Deleting removes exactly the selected files if and only if every directory with a
      list of 256 or more holds no entry beyond its list: then the list is the whole
      directory, by counting; otherwise a file nobody selected goes with it. */
  lemma DeletesExactlyIff(a: Archive, wals: seq<WalFileInfo>)
    requires WellFiled(a) && Catalogued(a, wals)
    ensures DeleteGroups(a, GroupByDir(wals)).ok
    ensures LostExactly(a, DeleteGroups(a, GroupByDir(wals)).archive, NameSet(wals)) <==> Uncrowded(a, wals)
  {
    var after := DeleteGroups(a, GroupByDir(wals)).archive;
    WhatVanishes(a, wals, Root, Other(""));
    if Uncrowded(a, wals) {
      forall d, n ensures FileAt(after, d, n) <==> FileAt(a, d, n) && n !in NameSet(wals) {
        WhatVanishes(a, wals, d, n);
        InDirCatalogued(a, wals, d);
        if |InDir(wals, d)| >= DIRECTORY_LIMIT {
          WholeDirectorySelected(a, wals, d);
          if FileAt(a, d, n) { NamedInDir(wals, d, n); }
        }
      }
    } else {
      var d :| d in a && |InDir(wals, d)| >= DIRECTORY_LIMIT && |a[d]| > |InDir(wals, d)|;
      InDirCatalogued(a, wals, d);
      DistinctNamesCount(a, InDir(wals, d));
      assert a[d] != NameSet(InDir(wals, d));
      var n :| n in a[d] && n !in NameSet(InDir(wals, d));
      WhatVanishes(a, wals, d, n);
      if n in NameSet(wals) {
        var w :| w in wals && w.name == n;
        var k :| 0 <= k < |wals| && wals[k] == w;
        assert FileAt(a, d, n);
        InDirMembership(wals, d, w);
      }
      assert FileAt(a, d, n) && n !in NameSet(wals) && !FileAt(after, d, n);
    }
  }

  lemma NamedInDir(wals: seq<WalFileInfo>, d: Dir, n: WalName)
    requires n in NameSet(InDir(wals, d))
    ensures n in NameSet(wals)
  {
    var w :| w in InDir(wals, d) && w.name == n;
    InDirMembership(wals, d, w);
  }

  lemma WholeDirectorySelected(a: Archive, wals: seq<WalFileInfo>, d: Dir)
    requires Catalogued(a, wals) && d in a
    requires |InDir(wals, d)| >= DIRECTORY_LIMIT && |a[d]| <= |InDir(wals, d)|
    ensures a[d] == NameSet(InDir(wals, d))
  {
    InDirCatalogued(a, wals, d);
    DistinctNamesCount(a, InDir(wals, d));
    SubsetOfSameSize(NameSet(InDir(wals, d)), a[d]);
  }

  /** The assumption behind the constant: directories of at most 256 entries. */
  ghost predicate SmallDirectories(a: Archive) {
    forall d :: d in a ==> |a[d]| <= 256
  }

  lemma SmallDirectoriesAreUncrowded(a: Archive, wals: seq<WalFileInfo>)
    requires SmallDirectories(a)
    ensures Uncrowded(a, wals)
  {
  }
}
