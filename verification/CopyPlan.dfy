/** Copying a data directory with rsync: which files are compared by checksum, which jobs
    there are, and that any execution of them leaves the destination equal to the source
    (RsyncCopyController, barman/copy_controller.py). */
module CopyPlan {
  import opened BucketPacking
  import opened Wrappers

  /** A file as rsync sees it; the content stands for what a checksum compares. */
  datatype File = File(size: nat, date: int, content: seq<bv8>)

  type Tree = map<string, File>

  datatype ItemClass = PgData | Tablespace | PgControl | Config

  /** An item to be copied and the two lists its analysis fills in. */
  datatype Item = Item(
    isDirectory: bool,
    class_: ItemClass,
    safeList: seq<FileItem>,
    checkList: seq<FileItem>)

  datatype Job = Job(item: nat, id: Option<nat>, files: Option<seq<FileItem>>, checksum: Option<bool>)

  // ---------------------------------------------------------------- analysis

  /** A file can be left to rsync's comparison of size and time when it is older than the
      horizon, or when that comparison is known to find a difference. */
  predicate IsSafe(entry: FileItem, horizon: Option<int>, ref: Option<map<string, FileItem>>) {
    || (horizon.Some? && entry.date < horizon.value)
    || (ref.Some? && !(entry.path in ref.value && ref.value[entry.path].size == entry.size
                       && ref.value[entry.path].date == entry.date))
  }

  function Chosen(entries: seq<FileItem>, safe: bool, horizon: Option<int>, ref: Option<map<string, FileItem>>): seq<FileItem> {
    if entries == [] then []
    else
      var last := entries[|entries| - 1];
      Chosen(entries[..|entries| - 1], safe, horizon, ref) +
      (if IsSafe(last, horizon, ref) == safe then [last] else [])
  }

  class CopyController {
    const workers: nat
    const safeHorizon: Option<int>
    var items: seq<Item>

    constructor (workers: nat, safeHorizon: Option<int>, items: seq<Item>)
      ensures this.workers == workers && this.safeHorizon == safeHorizon && this.items == items
    {
      this.workers, this.safeHorizon, this.items := workers, safeHorizon, items;
    }

    /** `ref` is the listing of the reference directory, None when it could not be had. */
    method AnalyzeDirectory(i: nat, source: seq<FileItem>, ref: Option<map<string, FileItem>>)
      requires i < |items|
      modifies this
      ensures items == old(items)[i := old(items)[i].(
                safeList := Chosen(source, true, safeHorizon, ref), checkList := Chosen(source, false, safeHorizon, ref))]
    {
      var safeList, checkList: seq<FileItem> := [], [];
      for n := 0 to |source|
        invariant safeList == Chosen(source[..n], true, safeHorizon, ref)
        invariant checkList == Chosen(source[..n], false, safeHorizon, ref)
      {
        var entry := source[n];
        assert source[..n + 1][..n] == source[..n];
        if safeHorizon.Some? && entry.date < safeHorizon.value {
          safeList := safeList + [entry];
          continue;
        }
        if ref.None? {
          checkList := checkList + [entry];
          continue;
        }
        if entry.path !in ref.value {
          safeList := safeList + [entry];
          continue;
        }
        var differentSize := ref.value[entry.path].size != entry.size;
        var differentDate := ref.value[entry.path].date != entry.date;
        if differentSize || differentDate {
          safeList := safeList + [entry];
          continue;
        }
        checkList := checkList + [entry];
      }
      assert source[..|source|] == source;
      items := items[i := items[i].(safeList := safeList, checkList := checkList)];
    }

    /** The jobs of the items whose class is included and not excluded. */
    method JobGenerator(included: seq<ItemClass>, excluded: seq<ItemClass>) returns (jobs: seq<Job>)
      ensures jobs == JobsOf(items, workers, included, excluded)
    {
      jobs := [];
      for i := 0 to |items|
        invariant jobs == JobsOf(items[..i], workers, included, excluded)
      {
        assert items[..i + 1][..i] == items[..i];
        var item := items[i];
        if included != [] && item.class_ !in included {
          assert JobsOf(items[..i], workers, included, excluded) + [] == jobs;
          continue;
        }
        if excluded != [] && item.class_ in excluded {
          assert JobsOf(items[..i], workers, included, excluded) + [] == jobs;
          continue;
        }
        jobs := JobsForItem(jobs, i, item);
      }
      assert items[..|items|] == items;
    }

    method JobsForItem(jobs0: seq<Job>, i: nat, item: Item) returns (jobs: seq<Job>)
      ensures jobs == jobs0 + JobsOfItem(i, item, workers)
    {
      if item.isDirectory {
        var safe := FillBuckets(item.safeList, workers);
        jobs := BucketJobsFor(jobs0, i, safe, false);
        var check := FillBuckets(item.checkList, workers);
        jobs := BucketJobsFor(jobs, i, check, true);
      } else {
        jobs := jobs0 + [Job(i, None, None, None)];
      }
    }

    method BucketJobsFor(jobs0: seq<Job>, i: nat, buckets: seq<Bucket>, checksum: bool) returns (jobs: seq<Job>)
      ensures jobs == jobs0 + BucketJobs(i, buckets, checksum)
    {
      jobs := jobs0;
      for n := 0 to |buckets|
        invariant jobs == jobs0 + BucketJobs(i, buckets[..n], checksum)
      {
        assert buckets[..n + 1][..n] == buckets[..n];
        jobs := jobs + [Job(i, Some(n), Some(buckets[n]), Some(checksum))];
      }
      assert buckets[..|buckets|] == buckets;
    }

    /** Everything else first, the control file last. */
    method Copy() returns (first: seq<Job>, last: seq<Job>)
      ensures first == JobsOf(items, workers, [], [PgControl])
      ensures last == JobsOf(items, workers, [PgControl], [])
    {
      first := JobGenerator([], [PgControl]);
      last := JobGenerator([PgControl], []);
    }
  }

  predicate Wanted(class_: ItemClass, included: seq<ItemClass>, excluded: seq<ItemClass>) {
    (included == [] || class_ in included) && !(excluded != [] && class_ in excluded)
  }

  function BucketJobs(i: nat, buckets: seq<Bucket>, checksum: bool): seq<Job> {
    if buckets == [] then []
    else
      BucketJobs(i, buckets[..|buckets| - 1], checksum)
      + [Job(i, Some(|buckets| - 1), Some(buckets[|buckets| - 1]), Some(checksum))]
  }

  function JobsOfItem(i: nat, item: Item, workers: nat): seq<Job> {
    if item.isDirectory then
      BucketJobs(i, Packed(item.safeList, workers), false) + BucketJobs(i, Packed(item.checkList, workers), true)
    else [Job(i, None, None, None)]
  }

  function JobsOf(items: seq<Item>, workers: nat, included: seq<ItemClass>, excluded: seq<ItemClass>): seq<Job> {
    if items == [] then []
    else
      var i := |items| - 1;
      JobsOf(items[..i], workers, included, excluded)
      + (if Wanted(items[i].class_, included, excluded) then JobsOfItem(i, items[i], workers) else [])
  }

  // ---------------------------------------------------------------- each file in exactly one job

  /** The files that the jobs of item `i` copy with, or without, comparing checksums. */
  function FilesOf(jobs: seq<Job>, i: nat, checksum: bool): seq<FileItem> {
    if jobs == [] then []
    else
      var last := jobs[|jobs| - 1];
      FilesOf(jobs[..|jobs| - 1], i, checksum)
      + (if last.item == i && last.checksum == Some(checksum) && last.files.Some? then last.files.value else [])
  }

  lemma {:induction false} FilesOfAppend(a: seq<Job>, b: seq<Job>, i: nat, checksum: bool)
    ensures FilesOf(a + b, i, checksum) == FilesOf(a, i, checksum) + FilesOf(b, i, checksum)
  {
    if b == [] {
      assert a + b == a;
    } else {
      FilesOfAppend(a, b[..|b| - 1], i, checksum);
      assert (a + b)[..|a + b| - 1] == a + b[..|b| - 1];
    }
  }

  lemma {:induction false} BucketJobsHold(k: nat, buckets: seq<Bucket>, c: bool, i: nat, checksum: bool)
    ensures FilesOf(BucketJobs(k, buckets, c), i, checksum) == if k == i && c == checksum then Flatten(buckets) else []
  {
    if buckets != [] {
      BucketJobsHold(k, buckets[..|buckets| - 1], c, i, checksum);
      var jobs := BucketJobs(k, buckets, c);
      assert jobs[..|jobs| - 1] == BucketJobs(k, buckets[..|buckets| - 1], c);
    }
  }

  lemma ItemJobsHold(k: nat, item: Item, workers: nat, i: nat, checksum: bool)
    ensures multiset(FilesOf(JobsOfItem(k, item, workers), i, checksum))
         == if k == i && item.isDirectory then multiset(if checksum then item.checkList else item.safeList) else multiset{}
  {
    if item.isDirectory {
      var safe, check := Packed(item.safeList, workers), Packed(item.checkList, workers);
      FilesOfAppend(BucketJobs(k, safe, false), BucketJobs(k, check, true), i, checksum);
      BucketJobsHold(k, safe, false, i, checksum);
      BucketJobsHold(k, check, true, i, checksum);
      BucketsHoldEachFileOnce(item.safeList, workers);
      BucketsHoldEachFileOnce(item.checkList, workers);
    } else {
      assert JobsOfItem(k, item, workers)[..0] == [];
    }
  }

  lemma FilesAddUp(a: seq<Job>, b: seq<Job>, i: nat, checksum: bool)
    ensures multiset(FilesOf(a + b, i, checksum)) == multiset(FilesOf(a, i, checksum)) + multiset(FilesOf(b, i, checksum))
  {
    FilesOfAppend(a, b, i, checksum);
  }

  /** The files that a phase is to copy of item `i`. */
  function Due(items: seq<Item>, included: seq<ItemClass>, excluded: seq<ItemClass>, i: nat, checksum: bool): multiset<FileItem> {
    if i < |items| && items[i].isDirectory && Wanted(items[i].class_, included, excluded)
    then multiset(if checksum then items[i].checkList else items[i].safeList) else multiset{}
  }

  lemma DueOneMore(items: seq<Item>, workers: nat, included: seq<ItemClass>, excluded: seq<ItemClass>, k: nat, own: seq<Job>,
                   i: nat, checksum: bool)
    requires |items| == k + 1
    requires own == if Wanted(items[k].class_, included, excluded) then JobsOfItem(k, items[k], workers) else []
    ensures Due(items, included, excluded, i, checksum)
         == Due(items[..k], included, excluded, i, checksum) + multiset(FilesOf(own, i, checksum))
  {
    ItemJobsHold(k, items[k], workers, i, checksum);
    hide JobsOfItem;
    assert multiset(FilesOf([], i, checksum)) == multiset{};
  }

  /** The jobs of a phase hold each file of each directory of the phase exactly once, the checked
      files in jobs that compare checksums and the safe files in jobs that do not. */
  lemma {:induction false} EachFileInOneJob(items: seq<Item>, workers: nat, included: seq<ItemClass>,
                                            excluded: seq<ItemClass>, i: nat, checksum: bool)
    ensures multiset(FilesOf(JobsOf(items, workers, included, excluded), i, checksum))
         == Due(items, included, excluded, i, checksum)
  {
    if items != [] {
      var k := |items| - 1;
      var own := if Wanted(items[k].class_, included, excluded) then JobsOfItem(k, items[k], workers) else [];
      EachFileInOneJob(items[..k], workers, included, excluded, i, checksum);
      DueOneMore(items, workers, included, excluded, k, own, i, checksum);
      hide JobsOfItem, FilesOf, Due, Wanted;
      FilesAddUp(JobsOf(items[..k], workers, included, excluded), own, i, checksum);
    }
  }

  // ---------------------------------------------------------------- the order of the jobs

  /** Item by item; of a directory the safe buckets first, and the buckets of a list in turn. */
  predicate ComesBefore(a: Job, b: Job) {
    || a.item < b.item
    || (a.item == b.item && a.checksum == Some(false) && b.checksum == Some(true))
    || (a.item == b.item && a.checksum == b.checksum && a.id.Some? && b.id.Some? && a.id.value < b.id.value)
  }

  predicate InOrder(jobs: seq<Job>) { forall i, j :: 0 <= i < j < |jobs| ==> ComesBefore(jobs[i], jobs[j]) }

  lemma OrderJoins(a: seq<Job>, b: seq<Job>)
    requires InOrder(a) && InOrder(b) && forall x, y :: x in a && y in b ==> ComesBefore(x, y)
    ensures InOrder(a + b)
  {
    var all := a + b;
    forall i, j | 0 <= i < j < |all| ensures ComesBefore(all[i], all[j]) {
      if j < |a| {
        assert all[i] == a[i] && all[j] == a[j];
      } else if i >= |a| {
        assert all[i] == b[i - |a|] && all[j] == b[j - |a|];
      } else {
        assert all[i] in a && all[j] in b;
      }
    }
  }

  lemma {:induction false} BucketJobsInOrder(i: nat, buckets: seq<Bucket>, checksum: bool)
    ensures |BucketJobs(i, buckets, checksum)| == |buckets|
    ensures forall n :: 0 <= n < |buckets| ==> BucketJobs(i, buckets, checksum)[n] == Job(i, Some(n), Some(buckets[n]), Some(checksum))
    ensures InOrder(BucketJobs(i, buckets, checksum))
  {
    if buckets != [] { BucketJobsInOrder(i, buckets[..|buckets| - 1], checksum); }
  }

  lemma ItemJobsInOrder(i: nat, item: Item, workers: nat)
    ensures InOrder(JobsOfItem(i, item, workers))
    ensures forall job :: job in JobsOfItem(i, item, workers) ==> job.item == i
  {
    if item.isDirectory {
      var safe, check := Packed(item.safeList, workers), Packed(item.checkList, workers);
      BucketJobsInOrder(i, safe, false);
      BucketJobsInOrder(i, check, true);
      OrderJoins(BucketJobs(i, safe, false), BucketJobs(i, check, true));
    }
  }

  /** The jobs are generated in a fixed order, in which no two are the same. */
  lemma {:induction false} JobsComeInOrder(items: seq<Item>, workers: nat, included: seq<ItemClass>, excluded: seq<ItemClass>)
    ensures InOrder(JobsOf(items, workers, included, excluded))
    ensures forall job :: job in JobsOf(items, workers, included, excluded) ==> job.item < |items|
  {
    if items != [] {
      var k := |items| - 1;
      JobsComeInOrder(items[..k], workers, included, excluded);
      ItemJobsInOrder(k, items[k], workers);
      hide JobsOfItem, InOrder, Wanted;
      var before, own := JobsOf(items[..k], workers, included, excluded), JobsOfItem(k, items[k], workers);
      if Wanted(items[k].class_, included, excluded) {
        OrderJoins(before, own);
      } else {
        assert before + [] == before;
      }
    }
  }

  // ---------------------------------------------------------------- the control file goes last

  lemma {:induction false} BucketJobsAreFor(k: nat, buckets: seq<Bucket>, checksum: bool, job: Job)
    requires job in BucketJobs(k, buckets, checksum)
    ensures job.item == k && job.files.Some?
  {
    var init := buckets[..|buckets| - 1];
    if job in BucketJobs(k, init, checksum) { BucketJobsAreFor(k, init, checksum, job); }
  }

  /** A phase has jobs of the items it is for, and of no other; a plain file has the one job
      without a list. */
  lemma {:induction false} JobsAreWanted(items: seq<Item>, workers: nat, included: seq<ItemClass>,
                                         excluded: seq<ItemClass>, job: Job)
    requires job in JobsOf(items, workers, included, excluded)
    ensures job.item < |items| && Wanted(items[job.item].class_, included, excluded)
    ensures job.files.None? <==> !items[job.item].isDirectory
  {
    var k := |items| - 1;
    if job in JobsOf(items[..k], workers, included, excluded) {
      JobsAreWanted(items[..k], workers, included, excluded, job);
    } else if items[k].isDirectory {
      var safe, check := Packed(items[k].safeList, workers), Packed(items[k].checkList, workers);
      if job in BucketJobs(k, safe, false) { BucketJobsAreFor(k, safe, false, job); } else { BucketJobsAreFor(k, check, true, job); }
    }
  }

  /** The job of a plain file. */
  predicate PlainJob(jobs: seq<Job>, i: nat) { Job(i, None, None, None) in jobs }

  lemma {:induction false} PlainJobIff(items: seq<Item>, workers: nat, included: seq<ItemClass>,
                                       excluded: seq<ItemClass>, i: nat)
    ensures PlainJob(JobsOf(items, workers, included, excluded), i)
       <==> i < |items| && !items[i].isDirectory && Wanted(items[i].class_, included, excluded)
  {
    if PlainJob(JobsOf(items, workers, included, excluded), i) {
      JobsAreWanted(items, workers, included, excluded, Job(i, None, None, None));
    }
    if i < |items| - 1 { PlainJobIff(items[..|items| - 1], workers, included, excluded, i); }
  }

  /** No job of the first phase is for the control file, and every job of the second is; the control
      file's own job is among them. */
  lemma ControlFileGoesLast(items: seq<Item>, workers: nat)
    ensures forall job :: job in JobsOf(items, workers, [], [PgControl]) ==>
      job.item < |items| && items[job.item].class_ != PgControl
    ensures forall job :: job in JobsOf(items, workers, [PgControl], []) ==>
      job.item < |items| && items[job.item].class_ == PgControl
    ensures forall i :: 0 <= i < |items| && !items[i].isDirectory && items[i].class_ == PgControl ==>
      PlainJob(JobsOf(items, workers, [PgControl], []), i)
  {
    forall job | job in JobsOf(items, workers, [], [PgControl])
      ensures job.item < |items| && items[job.item].class_ != PgControl
    {
      JobsAreWanted(items, workers, [], [PgControl], job);
    }
    forall job | job in JobsOf(items, workers, [PgControl], [])
      ensures job.item < |items| && items[job.item].class_ == PgControl
    {
      JobsAreWanted(items, workers, [PgControl], [], job);
    }
    forall i | 0 <= i < |items| && !items[i].isDirectory && items[i].class_ == PgControl
      ensures PlainJob(JobsOf(items, workers, [PgControl], []), i)
    {
      PlainJobIff(items, workers, [PgControl], [], i);
    }
  }

  // ---------------------------------------------------------------- what rsync does

  /** The name a plain file item has in its tree: it is the whole of it. */
  const WHOLE: string := ""

  /** One file handled by one job. */
  datatype Op = Op(item: nat, path: string, checksum: bool)

  /** The sources, and the directory whose unchanged files are reused, by item. */
  datatype World = World(src: seq<Tree>, reuse: seq<Tree>)

  predicate Handles(w: World, dst: seq<Tree>, op: Op) {
    op.item < |w.src| && op.item < |w.reuse| && op.item < |dst| && op.path in w.src[op.item]
  }

  /** What rsync compares the source with: the destination, or the reused directory. */
  function Basis(w: World, dst: seq<Tree>, op: Op): Option<File>
    requires Handles(w, dst, op)
  {
    if op.path in dst[op.item] then Some(dst[op.item][op.path])
    else if op.path in w.reuse[op.item] then Some(w.reuse[op.item][op.path])
    else None
  }

  predicate Unchanged(basis: File, source: File, checksum: bool) {
    basis.size == source.size && (if checksum then basis.content == source.content else basis.date == source.date)
  }

  /** A file that compares as unchanged is kept, or taken from the reused directory. */
  function Sync(w: World, dst: seq<Tree>, op: Op): seq<Tree>
    requires Handles(w, dst, op)
  {
    var source, basis := w.src[op.item][op.path], Basis(w, dst, op);
    var file := if basis.Some? && Unchanged(basis.value, source, op.checksum) then basis.value else source;
    dst[op.item := dst[op.item][op.path := file]]
  }

  predicate AllHandled(w: World, dst: seq<Tree>, ops: seq<Op>) { forall n :: 0 <= n < |ops| ==> Handles(w, dst, ops[n]) }

  /** Any interleaving of the jobs is a sequence of file operations. */
  function SyncAll(w: World, dst: seq<Tree>, ops: seq<Op>): (r: seq<Tree>)
    requires AllHandled(w, dst, ops)
    ensures |r| == |dst|
  {
    if ops == [] then dst
    else
      Sync(w, SyncAll(w, dst, ops[..|ops| - 1]), ops[|ops| - 1])
  }

  // ---------------------------------------------------------------- the copy is faithful

  /** An operation cannot be fooled: if what it compares is equal, the content is. */
  predicate Sound(w: World, dst: seq<Tree>, op: Op) {
    Handles(w, dst, op) &&
    var basis := Basis(w, dst, op);
    var source := w.src[op.item][op.path];
    (basis.Some? && Unchanged(basis.value, source, op.checksum)) ==> basis.value.content == source.content
  }

  predicate Copied(w: World, dst: seq<Tree>, i: nat, path: string) {
    i < |w.src| && i < |dst| && path in w.src[i] && path in dst[i] && dst[i][path].content == w.src[i][path].content
  }

  predicate Untouched(before: seq<Tree>, dst: seq<Tree>, i: nat, path: string) {
    i < |before| && i < |dst| && (path in dst[i] <==> path in before[i]) && (path in dst[i] ==> dst[i][path] == before[i][path])
  }

  /** Sound operations, in any order and any number: a file some operation names is copied. */
  lemma {:induction false} SoundOpsCopy(w: World, dst: seq<Tree>, ops: seq<Op>, i: nat, path: string)
    requires forall n :: 0 <= n < |ops| ==> Sound(w, dst, ops[n])
    requires i < |dst|
    ensures AllHandled(w, dst, ops)
    ensures if exists n :: 0 <= n < |ops| && ops[n].item == i && ops[n].path == path
            then Copied(w, SyncAll(w, dst, ops), i, path)
            else Untouched(dst, SyncAll(w, dst, ops), i, path)
  {
    if ops != [] {
      var init, op := ops[..|ops| - 1], ops[|ops| - 1];
      SoundOpsCopy(w, dst, init, i, path);
      var mid := SyncAll(w, dst, init);
      assert Sound(w, dst, op);
      if op.item == i && op.path == path {
        if Copied(w, mid, i, path) {
        } else {
          assert Untouched(dst, mid, i, path);
          assert Basis(w, mid, op) == Basis(w, dst, op);
        }
      } else if n :| 0 <= n < |ops| && ops[n].item == i && ops[n].path == path {
        assert init[n] == ops[n];
      } else {
        assert forall n :: 0 <= n < |init| ==> init[n] == ops[n];
      }
    }
  }

  /** What the analysis of a directory rests on: the listings are true, and a file older than the
      horizon that has kept its size and time has kept its content. Nothing else is assumed. */
  ghost predicate Analyzed(w: World, dst: seq<Tree>, i: nat, item: Item, entries: seq<FileItem>,
                           horizon: Option<int>, ref: Option<map<string, FileItem>>) {
    && i < |w.src| && i < |w.reuse| && i < |dst|
    && item.safeList == Chosen(entries, true, horizon, ref) && item.checkList == Chosen(entries, false, horizon, ref)
    && (forall e :: e in entries ==> TrueEntry(w, i, e) && TrueReference(w, dst, i, e, ref) && OldIsSettled(w, dst, i, e, horizon))
  }

  predicate TrueEntry(w: World, i: nat, e: FileItem) {
    i < |w.src| && e.path in w.src[i] && w.src[i][e.path].size == e.size && w.src[i][e.path].date == e.date
  }

  predicate TrueReference(w: World, dst: seq<Tree>, i: nat, e: FileItem, ref: Option<map<string, FileItem>>)
    requires TrueEntry(w, i, e) && i < |w.reuse| && i < |dst|
  {
    var basis := Basis(w, dst, Op(i, e.path, false));
    ref.Some? ==>
      && (e.path in ref.value <==> basis.Some?)
      && (basis.Some? ==> ref.value[e.path].size == basis.value.size && ref.value[e.path].date == basis.value.date)
  }

  predicate OldIsSettled(w: World, dst: seq<Tree>, i: nat, e: FileItem, horizon: Option<int>)
    requires TrueEntry(w, i, e) && i < |w.reuse| && i < |dst|
  {
    var basis := Basis(w, dst, Op(i, e.path, false));
    var source := w.src[i][e.path];
    (horizon.Some? && e.date < horizon.value && basis.Some? && Unchanged(basis.value, source, false))
    ==> basis.value.content == source.content
  }

  lemma {:induction false} ChosenMembership(entries: seq<FileItem>, safe: bool, horizon: Option<int>,
                                            ref: Option<map<string, FileItem>>, e: FileItem)
    ensures e in Chosen(entries, safe, horizon, ref) <==> e in entries && IsSafe(e, horizon, ref) == safe
  {
    if entries != [] {
      ChosenMembership(entries[..|entries| - 1], safe, horizon, ref, e);
      assert entries == entries[..|entries| - 1] + [entries[|entries| - 1]];
    }
  }

  /** The two lists: a safe file cannot fool the comparison of size and time. */
  lemma ClassificationIsSound(w: World, dst: seq<Tree>, i: nat, item: Item, entries: seq<FileItem>,
                              horizon: Option<int>, ref: Option<map<string, FileItem>>, e: FileItem, checksum: bool)
    requires Analyzed(w, dst, i, item, entries, horizon, ref)
    requires e in (if checksum then item.checkList else item.safeList)
    ensures Sound(w, dst, Op(i, e.path, checksum))
  {
    ChosenMembership(entries, !checksum, horizon, ref, e);
    assert TrueEntry(w, i, e) && TrueReference(w, dst, i, e, ref) && OldIsSettled(w, dst, i, e, horizon);
    assert Basis(w, dst, Op(i, e.path, checksum)) == Basis(w, dst, Op(i, e.path, false));
  }

  /** Each entry is on one list, once. */
  lemma {:induction false} ListsHoldEachEntryOnce(entries: seq<FileItem>, horizon: Option<int>, ref: Option<map<string, FileItem>>)
    ensures multiset(Chosen(entries, true, horizon, ref)) + multiset(Chosen(entries, false, horizon, ref)) == multiset(entries)
  {
    if entries != [] {
      ListsHoldEachEntryOnce(entries[..|entries| - 1], horizon, ref);
      assert entries == entries[..|entries| - 1] + [entries[|entries| - 1]];
    }
  }

  /** What may be the case, for all that the analysis knows of an entry. */
  ghost predicate IsPossible(w: World, dst: seq<Tree>, i: nat, e: FileItem, horizon: Option<int>, ref: Option<map<string, FileItem>>) {
    && TrueEntry(w, i, e) && i < |w.reuse| && i < |dst|
    && TrueReference(w, dst, i, e, ref) && OldIsSettled(w, dst, i, e, horizon)
  }

  /** Comparing size and time alone finds every change of the file. */
  ghost predicate CanBeTrusted(e: FileItem, horizon: Option<int>, ref: Option<map<string, FileItem>>) {
    forall w, dst, i :: IsPossible(w, dst, i, e, horizon, ref) ==> Sound(w, dst, Op(i, e.path, false))
  }

  /** The destination has a file of the same size and time with another content. */
  lemma MayBeFooled(e: FileItem, horizon: Option<int>, ref: Option<map<string, FileItem>>) returns (w: World, dst: seq<Tree>)
    requires !IsSafe(e, horizon, ref)
    ensures IsPossible(w, dst, 0, e, horizon, ref) && !Sound(w, dst, Op(0, e.path, false))
  {
    w := World([map[e.path := File(e.size, e.date, [0])]], [map[]]);
    dst := [map[e.path := File(e.size, e.date, [1])]];
    var op := Op(0, e.path, false);
    assert Basis(w, dst, op) == Some(File(e.size, e.date, [1]));
    assert w.src[0][e.path].content == [0];
    assert [0 as bv8] != [1 as bv8] by { assert [0 as bv8][0] != [1 as bv8][0]; }
  }

  /** The safe list has exactly the files that can be trusted, the other one exactly those that
      cannot: no file is compared by checksum without need. */
  lemma ListsTellTrust(entries: seq<FileItem>, horizon: Option<int>, ref: Option<map<string, FileItem>>, e: FileItem)
    ensures e in Chosen(entries, true, horizon, ref) <==> e in entries && CanBeTrusted(e, horizon, ref)
    ensures e in Chosen(entries, false, horizon, ref) <==> e in entries && !CanBeTrusted(e, horizon, ref)
  {
    ChosenMembership(entries, true, horizon, ref, e);
    ChosenMembership(entries, false, horizon, ref, e);
    if IsSafe(e, horizon, ref) {
      forall w, dst, i | IsPossible(w, dst, i, e, horizon, ref) ensures Sound(w, dst, Op(i, e.path, false)) {
        assert Handles(w, dst, Op(i, e.path, false));
      }
    } else {
      var w, dst := MayBeFooled(e, horizon, ref);
    }
  }

  predicate Names(files: seq<FileItem>, path: string) { exists n :: 0 <= n < |files| && files[n].path == path }

  /** Everything a copy is given. */
  datatype Setup = Setup(
    world: World,
    dst: seq<Tree>,
    items: seq<Item>,
    workers: nat,
    horizon: Option<int>,
    listings: seq<seq<FileItem>>,
    refs: seq<Option<map<string, FileItem>>>)

  predicate IsPlainOp(w: World, jobs: seq<Job>, op: Op) {
    op.path == WHOLE && !op.checksum && PlainJob(jobs, op.item) && op.item < |w.src| && WHOLE in w.src[op.item]
  }

  /** The operations are those of the jobs, in whatever order the workers get to them; a plain file
      that does not exist makes none. */
  ghost predicate Executes(w: World, ops: seq<Op>, jobs: seq<Job>) {
    forall op :: op in ops <==> Names(FilesOf(jobs, op.item, op.checksum), op.path) || IsPlainOp(w, jobs, op)
  }

  lemma SameNames(a: seq<FileItem>, b: seq<FileItem>, path: string)
    requires multiset(a) == multiset(b) && Names(a, path)
    ensures Names(b, path)
  {
    var n :| 0 <= n < |a| && a[n].path == path;
    assert a[n] in multiset(b);
  }

  lemma PlannedFile(items: seq<Item>, workers: nat, included: seq<ItemClass>, excluded: seq<ItemClass>, op: Op)
    returns (e: FileItem)
    requires Names(FilesOf(JobsOf(items, workers, included, excluded), op.item, op.checksum), op.path)
    ensures op.item < |items| && items[op.item].isDirectory && e.path == op.path
    ensures Wanted(items[op.item].class_, included, excluded)
    ensures e in (if op.checksum then items[op.item].checkList else items[op.item].safeList)
  {
    var files := FilesOf(JobsOf(items, workers, included, excluded), op.item, op.checksum);
    EachFileInOneJob(items, workers, included, excluded, op.item, op.checksum);
    var n :| 0 <= n < |files| && files[n].path == op.path;
    e := files[n];
    assert e in multiset(files);
  }

  lemma FileIsPlanned(items: seq<Item>, workers: nat, included: seq<ItemClass>, excluded: seq<ItemClass>,
                      i: nat, e: FileItem, checksum: bool)
    requires i < |items| && items[i].isDirectory && Wanted(items[i].class_, included, excluded)
    requires e in (if checksum then items[i].checkList else items[i].safeList)
    ensures Names(FilesOf(JobsOf(items, workers, included, excluded), i, checksum), e.path)
  {
    EachFileInOneJob(items, workers, included, excluded, i, checksum);
    var list := if checksum then items[i].checkList else items[i].safeList;
    assert Names(list, e.path);
    SameNames(list, FilesOf(JobsOf(items, workers, included, excluded), i, checksum), e.path);
  }

  /** A plain file is compared by size and time alone, so those have to tell. */
  predicate PlainIsSettled(w: World, dst: seq<Tree>, i: nat) {
    && i < |w.src| && i < |w.reuse| && i < |dst|
    && (WHOLE in w.src[i] ==> Sound(w, dst, Op(i, WHOLE, false)))
  }

  ghost predicate AllAnalyzed(c: Setup) {
    && |c.listings| == |c.refs| == |c.items|
    && forall k :: 0 <= k < |c.items| ==>
      if c.items[k].isDirectory then Analyzed(c.world, c.dst, k, c.items[k], c.listings[k], c.horizon, c.refs[k])
      else PlainIsSettled(c.world, c.dst, k)
  }

  /** The files the copy is for: those listed in directories, and the plain ones that exist. */
  ghost predicate IsDue(c: Setup, i: nat, path: string)
    requires |c.listings| == |c.items|
  {
    i < |c.items| &&
    if c.items[i].isDirectory then Names(c.listings[i], path)
    else path == WHOLE && i < |c.world.src| && WHOLE in c.world.src[i]
  }

  lemma PhaseIsSound(c: Setup, included: seq<ItemClass>, excluded: seq<ItemClass>, ops: seq<Op>, op: Op)
    requires AllAnalyzed(c) && Executes(c.world, ops, JobsOf(c.items, c.workers, included, excluded)) && op in ops
    ensures Sound(c.world, c.dst, op)
    ensures op.item < |c.items| && Wanted(c.items[op.item].class_, included, excluded)
  {
    var jobs := JobsOf(c.items, c.workers, included, excluded);
    if Names(FilesOf(jobs, op.item, op.checksum), op.path) {
      var e := PlannedFile(c.items, c.workers, included, excluded, op);
      ClassificationIsSound(c.world, c.dst, op.item, c.items[op.item], c.listings[op.item], c.horizon, c.refs[op.item], e, op.checksum);
    } else {
      PlainJobIff(c.items, c.workers, included, excluded, op.item);
      assert PlainIsSettled(c.world, c.dst, op.item);
    }
  }

  /** Every due file of a phase has its operation. */
  lemma DueIsPlanned(c: Setup, included: seq<ItemClass>, excluded: seq<ItemClass>, ops: seq<Op>, i: nat, path: string)
    returns (op: Op)
    requires AllAnalyzed(c) && Executes(c.world, ops, JobsOf(c.items, c.workers, included, excluded))
    requires IsDue(c, i, path) && Wanted(c.items[i].class_, included, excluded)
    ensures op in ops && op.item == i && op.path == path
  {
    if c.items[i].isDirectory {
      var list := c.listings[i];
      var n :| 0 <= n < |list| && list[n].path == path;
      var checksum := !IsSafe(list[n], c.horizon, c.refs[i]);
      ChosenMembership(list, !checksum, c.horizon, c.refs[i], list[n]);
      FileIsPlanned(c.items, c.workers, included, excluded, i, list[n], checksum);
      op := Op(i, path, checksum);
    } else {
      PlainJobIff(c.items, c.workers, included, excluded, i);
      op := Op(i, WHOLE, false);
    }
  }

  lemma PhasesAreSound(c: Setup, first: seq<Op>, last: seq<Op>, n: nat)
    requires AllAnalyzed(c) && n < |first + last|
    requires Executes(c.world, first, JobsOf(c.items, c.workers, [], [PgControl]))
    requires Executes(c.world, last, JobsOf(c.items, c.workers, [PgControl], []))
    ensures Sound(c.world, c.dst, (first + last)[n])
  {
    var op := (first + last)[n];
    if op in first { PhaseIsSound(c, [], [PgControl], first, op); } else { PhaseIsSound(c, [PgControl], [], last, op); }
  }

  /** Both phases carried out, each in any order: every due file, the control file with the others,
      has the content of its source, whatever the destination held before. */
  lemma CopyIsFaithful(c: Setup, first: seq<Op>, last: seq<Op>, i: nat, path: string)
    requires AllAnalyzed(c) && IsDue(c, i, path)
    requires Executes(c.world, first, JobsOf(c.items, c.workers, [], [PgControl]))
    requires Executes(c.world, last, JobsOf(c.items, c.workers, [PgControl], []))
    ensures AllHandled(c.world, c.dst, first + last)
    ensures Copied(c.world, SyncAll(c.world, c.dst, first + last), i, path)
  {
    var ops := first + last;
    forall n | 0 <= n < |ops| ensures Sound(c.world, c.dst, ops[n]) { PhasesAreSound(c, first, last, n); }
    var op;
    if c.items[i].class_ == PgControl {
      op := DueIsPlanned(c, [PgControl], [], last, i, path);
    } else {
      op := DueIsPlanned(c, [], [PgControl], first, i, path);
    }
    assert op in ops;
    hide Executes, IsDue, AllAnalyzed, Sound;
    SoundOpsCopy(c.world, c.dst, ops, i, path);
  }

  /** When the first phase has ended, every due file but the control file is in place, and the
      control file has not been touched. */
  lemma ControlFileIsWrittenLast(c: Setup, first: seq<Op>, i: nat, path: string)
    requires AllAnalyzed(c) && i < |c.items| && i < |c.dst|
    requires Executes(c.world, first, JobsOf(c.items, c.workers, [], [PgControl]))
    ensures AllHandled(c.world, c.dst, first)
    ensures c.items[i].class_ == PgControl ==> Untouched(c.dst, SyncAll(c.world, c.dst, first), i, path)
    ensures c.items[i].class_ != PgControl && IsDue(c, i, path) ==> Copied(c.world, SyncAll(c.world, c.dst, first), i, path)
  {
    forall n | 0 <= n < |first|
      ensures Sound(c.world, c.dst, first[n])
      ensures first[n].item < |c.items| && c.items[first[n].item].class_ != PgControl
    {
      assert first[n] in first;
      PhaseIsSound(c, [], [PgControl], first, first[n]);
    }
    if c.items[i].class_ != PgControl && IsDue(c, i, path) {
      var op := DueIsPlanned(c, [], [PgControl], first, i, path);
    }
    hide Executes, IsDue, AllAnalyzed, Sound;
    SoundOpsCopy(c.world, c.dst, first, i, path);
  }
}
