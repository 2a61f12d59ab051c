/** Dividing a list of files over the copy workers (RsyncCopyController._fill_buckets,
    barman/copy_controller.py). */
module BucketPacking {
  import opened Sequences

  datatype FileItem = FileItem(path: string, size: nat, date: int)

  type Bucket = seq<FileItem>

  const BUCKET_SIZE: nat := 1024 * 1024 * 1024 * 10

  // ---------------------------------------------------------------- sorting by size

  function InsertBySize(files: seq<FileItem>, f: FileItem): seq<FileItem> {
    if files == [] || f.size <= files[0].size then [f] + files else [files[0]] + InsertBySize(files[1..], f)
  }

  function SortBySize(files: seq<FileItem>): seq<FileItem> {
    if files == [] then [] else InsertBySize(SortBySize(files[1..]), files[0])
  }

  predicate SizesRise(files: seq<FileItem>) { forall i, j :: 0 <= i < j < |files| ==> files[i].size <= files[j].size }

  lemma {:induction false} InsertKeepsOrder(files: seq<FileItem>, f: FileItem)
    requires SizesRise(files)
    ensures SizesRise(InsertBySize(files, f))
    ensures InsertBySize(files, f)[0].size == if files == [] || f.size <= files[0].size then f.size else files[0].size
  {
    if files != [] && f.size > files[0].size {
      var rest := files[1..];
      InsertKeepsOrder(rest, f);
      var r := InsertBySize(rest, f);
      assert rest != [] ==> files[0].size <= rest[0].size;
      forall i | 0 <= i < |r| ensures files[0].size <= r[i].size {
        assert r[0].size <= r[i].size;
      }
    }
  }

  lemma {:induction false} InsertAdds(files: seq<FileItem>, f: FileItem)
    ensures multiset(InsertBySize(files, f)) == multiset(files) + multiset{f}
  {
    if files != [] && f.size > files[0].size {
      InsertAdds(files[1..], f);
      assert files == [files[0]] + files[1..];
    }
  }

  lemma {:induction false} SortSorts(files: seq<FileItem>)
    ensures SizesRise(SortBySize(files)) && multiset(SortBySize(files)) == multiset(files)
  {
    if files != [] {
      SortSorts(files[1..]);
      InsertKeepsOrder(SortBySize(files[1..]), files[0]);
      InsertAdds(SortBySize(files[1..]), files[0]);
      assert files == [files[0]] + files[1..];
    }
  }

  function OfSize(files: seq<FileItem>, size: nat): seq<FileItem> {
    if files == [] then []
    else (if files[0].size == size then [files[0]] else []) + OfSize(files[1..], size)
  }

  lemma {:induction false} InsertGoesFirst(files: seq<FileItem>, f: FileItem, size: nat)
    requires SizesRise(files)
    ensures OfSize(InsertBySize(files, f), size) == (if f.size == size then [f] else []) + OfSize(files, size)
  {
    if files != [] && f.size > files[0].size {
      var rest := files[1..];
      assert SizesRise(rest);
      InsertGoesFirst(rest, f, size);
      assert InsertBySize(files, f)[1..] == InsertBySize(rest, f);
      if files[0].size == size {
        NoneOfSize(rest, size, f);
      }
    } else {
      assert InsertBySize(files, f)[1..] == files;
    }
  }

  /** A larger file comes after those of the size. */
  lemma NoneOfSize(rest: seq<FileItem>, size: nat, f: FileItem)
    requires f.size > size
    ensures (if f.size == size then [f] else []) + OfSize(rest, size) == OfSize(rest, size)
  {
  }

  /** Sorting is stable: files of equal size stay in their order. */
  lemma {:induction false} SortIsStable(files: seq<FileItem>, size: nat)
    ensures OfSize(SortBySize(files), size) == OfSize(files, size)
  {
    if files != [] {
      SortIsStable(files[1..], size);
      SortSorts(files[1..]);
      InsertGoesFirst(SortBySize(files[1..]), files[0], size);
    }
  }

  // ---------------------------------------------------------------- plain round robin

  function TotalSize(b: Bucket): nat { if b == [] then 0 else TotalSize(b[..|b| - 1]) + b[|b| - 1].size }

  function NonEmpty(buckets: seq<Bucket>): seq<Bucket> {
    if buckets == [] then []
    else NonEmpty(buckets[..|buckets| - 1]) + (if buckets[|buckets| - 1] == [] then [] else [buckets[|buckets| - 1]])
  }

  function Flatten(buckets: seq<Bucket>): Bucket {
    if buckets == [] then [] else Flatten(buckets[..|buckets| - 1]) + buckets[|buckets| - 1]
  }

  /** Buckets being filled, the one to try next, and the buckets already given out. */
  datatype Packing = Packing(buckets: seq<Bucket>, sizes: seq<nat>, next: nat, out: seq<Bucket>)

  predicate Shaped(p: Packing, workers: nat) { |p.buckets| == |p.sizes| == workers && p.next < workers }

  function Empty(workers: nat): Packing {
    Packing(seq(workers, i => []), seq(workers, i => 0), 0, [])
  }

  /** The simple packer: try the next bucket in turn; if it is full, all are given out. */
  function PackOne(p: Packing, workers: nat, f: FileItem): Packing
    requires workers >= 2 && Shaped(p, workers)
  {
    if p.sizes[p.next] + f.size < BUCKET_SIZE then
      Packing(p.buckets[p.next := p.buckets[p.next] + [f]], p.sizes[p.next := p.sizes[p.next] + f.size],
              (p.next + 1) % workers, p.out)
    else
      Packing(seq(workers, i => [])[0 := [f]], seq(workers, i => 0)[0 := f.size], 1, p.out + NonEmpty(p.buckets))
  }

  function PackAll(files: seq<FileItem>, workers: nat): (p: Packing)
    requires workers >= 2
    ensures Shaped(p, workers)
  {
    if files == [] then Empty(workers)
    else PackOne(PackAll(files[..|files| - 1], workers), workers, files[|files| - 1])
  }

  function Packed(files: seq<FileItem>, workers: nat): seq<Bucket> {
    if workers < 2 then [files]
    else
      var p := PackAll(SortBySize(files), workers);
      p.out + NonEmpty(p.buckets)
  }

  // ---------------------------------------------------------------- balance

  /** The bucket sizes in the order in which the buckets will be tried. */
  function InTurn(p: Packing): seq<nat>
    requires p.next < |p.sizes|
  {
    p.sizes[p.next..] + p.sizes[..p.next]
  }

  /** In turn the buckets get no smaller, and the largest exceeds the smallest by at most `last`. */
  predicate Balanced(p: Packing, last: nat)
    requires p.next < |p.sizes|
  {
    Rising(InTurn(p)) && forall i, j :: 0 <= i < |p.sizes| && 0 <= j < |p.sizes| ==> p.sizes[j] <= p.sizes[i] + last
  }

  lemma InTurnHas(p: Packing, i: nat)
    requires p.next < |p.sizes| && i < |p.sizes|
    ensures p.sizes[i] in InTurn(p) && InTurn(p)[0] == p.sizes[p.next]
    ensures InTurn(p)[if i >= p.next then i - p.next else i + |p.sizes| - p.next] == p.sizes[i]
  {
  }

  /** Round robin over files of rising size is least-loaded-first: the bucket whose turn it is
      is a smallest one. */
  lemma NextIsLeastLoaded(p: Packing, last: nat, i: nat)
    requires p.next < |p.sizes| && Balanced(p, last) && i < |p.sizes|
    ensures p.sizes[p.next] <= p.sizes[i]
  {
    InTurnHas(p, i);
  }

  lemma TurnWithin(s: seq<nat>, k: nat, x: nat)
    requires k + 1 < |s|
    ensures s[k := x][k + 1..] + s[k := x][..k + 1] == (s[k..] + s[..k])[1..] + [x]
  {
    assert s[k := x][..k + 1] == s[..k] + [x];
    assert s[k := x][k + 1..] == s[k..][1..];
  }

  lemma TurnAtEnd(s: seq<nat>, k: nat, x: nat)
    requires k + 1 == |s|
    ensures s[k := x] == (s[k..] + s[..k])[1..] + [x]
  {
    assert s[k..] == [s[k]];
  }

  lemma NextInTurn(k: nat, workers: nat)
    requires k < workers
    ensures (k + 1) % workers == if k + 1 < workers then k + 1 else 0
  {
  }

  lemma TurnAfter(p: Packing, workers: nat, f: FileItem)
    requires workers >= 2 && Shaped(p, workers) && p.sizes[p.next] + f.size < BUCKET_SIZE
    ensures InTurn(PackOne(p, workers, f)) == InTurn(p)[1..] + [p.sizes[p.next] + f.size]
  {
    NextInTurn(p.next, workers);
    var x := p.sizes[p.next] + f.size;
    if p.next + 1 < workers {
      TurnWithin(p.sizes, p.next, x);
    } else {
      TurnAtEnd(p.sizes, p.next, x);
      assert p.sizes[p.next := x][0..] + p.sizes[p.next := x][..0] == p.sizes[p.next := x];
    }
  }

  lemma PackOneKeepsBalance(p: Packing, workers: nat, f: FileItem, last: nat)
    requires workers >= 2 && Shaped(p, workers) && Balanced(p, last) && last <= f.size
    ensures Balanced(PackOne(p, workers, f), f.size)
  {
    var q := PackOne(p, workers, f);
    if p.sizes[p.next] + f.size < BUCKET_SIZE {
      TurnAfter(p, workers, f);
      forall i | 0 <= i < workers ensures p.sizes[p.next] <= p.sizes[i] <= p.sizes[p.next] + f.size {
        NextIsLeastLoaded(p, last, i);
      }
      forall i | 0 <= i < |InTurn(p)| ensures InTurn(p)[i] <= p.sizes[p.next] + f.size {
        assert InTurn(p)[i] in p.sizes;
      }
    } else {
      assert InTurn(q) == q.sizes[1..] + [f.size];
    }
  }

  lemma {:induction false} PackAllIsBalanced(files: seq<FileItem>, workers: nat)
    requires workers >= 2 && SizesRise(files)
    ensures Balanced(PackAll(files, workers), if files == [] then 0 else files[|files| - 1].size)
  {
    if files != [] {
      var init := files[..|files| - 1];
      PackAllIsBalanced(init, workers);
      PackOneKeepsBalance(PackAll(init, workers), workers, files[|files| - 1], if init == [] then 0 else init[|init| - 1].size);
    }
  }

  // ---------------------------------------------------------------- the packer of the program

  /** Trying every bucket in turn, giving all out only when none has room. On files sorted by
      size this is the simple packer: the first bucket tried already decides. */
  method FillBuckets(files: seq<FileItem>, workers: nat) returns (given: seq<Bucket>)
    ensures given == Packed(files, workers)
  {
    if workers < 2 {
      return [files];
    }
    hide Balanced, SortBySize, NonEmpty, PackOne;
    var sorted := SortBySize(files);
    SortSorts(files);
    var buckets: seq<Bucket> := seq(workers, i => []);
    var sizes: seq<nat> := seq(workers, i => 0);
    var pos := -1;
    given := [];
    ghost var p := Empty(workers);
    for n := 0 to |sorted|
      invariant p == PackAll(sorted[..n], workers)
      invariant p == Packing(buckets, sizes, (pos + 1) % workers, given) && -1 <= pos < workers
    {
      var entry := sorted[n];
      PackAllIsBalanced(sorted[..n], workers);
      assert sorted[..n + 1][..n] == sorted[..n];
      pos, sizes, buckets, given := PlaceEntry(entry, workers, pos, sizes, buckets, given, if n == 0 then 0 else sorted[n - 1].size);
      p := PackOne(p, workers, entry);
    }
    assert sorted[..|sorted|] == sorted;
    var rest := GiveOut(buckets);
    given := given + rest;
  }

  method PlaceEntry(entry: FileItem, workers: nat, start: int, sizes0: seq<nat>, buckets0: seq<Bucket>,
                    given0: seq<Bucket>, ghost last: nat)
    returns (pos: int, sizes: seq<nat>, buckets: seq<Bucket>, given: seq<Bucket>)
    requires workers >= 2 && |sizes0| == |buckets0| == workers && -1 <= start < workers
    requires Balanced(Packing(buckets0, sizes0, (start + 1) % workers, given0), last)
    ensures |sizes| == |buckets| == workers && -1 <= pos < workers
    ensures Packing(buckets, sizes, (pos + 1) % workers, given)
         == PackOne(Packing(buckets0, sizes0, (start + 1) % workers, given0), workers, entry)
  {
    hide Balanced, NonEmpty;
    ghost var p := Packing(buckets0, sizes0, (start + 1) % workers, given0);
    pos, sizes, buckets, given := start, sizes0, buckets0, given0;
    for i := 0 to workers
      invariant -1 <= pos < workers && (i == 0 ==> pos == start)
      invariant i > 0 ==> sizes0[p.next] + entry.size >= BUCKET_SIZE
    {
      pos := (pos + 1) % workers;
      if sizes[pos] + entry.size < BUCKET_SIZE {
        NextIsLeastLoaded(p, last, pos);
        assert i == 0 && pos == p.next;
        sizes := sizes[pos := sizes[pos] + entry.size];
        buckets := buckets[pos := buckets[pos] + [entry]];
        return;
      }
    }
    var rest := GiveOut(buckets);
    given := given + rest;
    buckets := seq(workers, i => []);
    sizes := seq(workers, i => 0);
    sizes := sizes[0 := entry.size];
    buckets := buckets[0 := [entry]];
    pos := 0;
  }

  method GiveOut(buckets: seq<Bucket>) returns (given: seq<Bucket>)
    ensures given == NonEmpty(buckets)
  {
    given := [];
    for i := 0 to |buckets|
      invariant given == NonEmpty(buckets[..i])
    {
      assert buckets[..i + 1][..i] == buckets[..i];
      if |buckets[i]| > 0 {
        given := given + [buckets[i]];
      }
    }
    assert buckets[..|buckets|] == buckets;
  }

  // ---------------------------------------------------------------- nothing lost, nothing too big

  /** Below the bucket size, or a single file that is not. */
  predicate Fits(b: Bucket) { b != [] && (TotalSize(b) < BUCKET_SIZE || (|b| == 1 && b[0].size >= BUCKET_SIZE)) }

  predicate AllFit(buckets: seq<Bucket>) { forall i :: 0 <= i < |buckets| ==> Fits(buckets[i]) }

  predicate Weighed(p: Packing)
    requires |p.buckets| == |p.sizes|
  {
    forall i :: 0 <= i < |p.buckets| ==> p.sizes[i] == TotalSize(p.buckets[i]) && (p.buckets[i] == [] || Fits(p.buckets[i]))
  }

  lemma TotalOfOneMore(b: Bucket, f: FileItem)
    ensures TotalSize(b + [f]) == TotalSize(b) + f.size
  {
    assert (b + [f])[..|b|] == b;
  }

  lemma {:induction false} NonEmptyEffect(buckets: seq<Bucket>)
    requires forall i :: 0 <= i < |buckets| ==> buckets[i] == [] || Fits(buckets[i])
    ensures AllFit(NonEmpty(buckets)) && Flatten(NonEmpty(buckets)) == Flatten(buckets)
  {
    if buckets != [] {
      var init, last := buckets[..|buckets| - 1], buckets[|buckets| - 1];
      NonEmptyEffect(init);
      if last != [] {
        assert (NonEmpty(init) + [last])[..|NonEmpty(init)|] == NonEmpty(init);
      } else {
        assert NonEmpty(init) + [] == NonEmpty(init) && Flatten(init) + [] == Flatten(init);
      }
    }
  }

  lemma {:induction false} FlattenAppend(a: seq<Bucket>, b: seq<Bucket>)
    ensures Flatten(a + b) == Flatten(a) + Flatten(b)
  {
    if b == [] {
      assert a + b == a;
    } else {
      FlattenAppend(a, b[..|b| - 1]);
      assert (a + b)[..|a + b| - 1] == a + b[..|b| - 1];
    }
  }

  lemma {:induction false} FlattenUpdate(buckets: seq<Bucket>, i: nat, f: FileItem)
    requires i < |buckets|
    ensures multiset(Flatten(buckets[i := buckets[i] + [f]])) == multiset(Flatten(buckets)) + multiset{f}
  {
    var init, last := buckets[..|buckets| - 1], buckets[|buckets| - 1];
    var more := buckets[i := buckets[i] + [f]];
    if i == |buckets| - 1 {
      assert more[..|more| - 1] == init;
    } else {
      FlattenUpdate(init, i, f);
      assert more[..|more| - 1] == init[i := init[i] + [f]];
    }
  }

  lemma {:induction false} FlattenNothing(buckets: seq<Bucket>)
    requires forall i :: 0 <= i < |buckets| ==> buckets[i] == []
    ensures Flatten(buckets) == []
  {
    if buckets != [] { FlattenNothing(buckets[..|buckets| - 1]); }
  }

  function Held(p: Packing): multiset<FileItem> { multiset(Flatten(p.out)) + multiset(Flatten(p.buckets)) }

  lemma PlacedInTurn(p: Packing, workers: nat, f: FileItem)
    requires workers >= 2 && Shaped(p, workers) && Weighed(p) && AllFit(p.out) && p.sizes[p.next] + f.size < BUCKET_SIZE
    ensures var q := PackOne(p, workers, f); Weighed(q) && AllFit(q.out) && Held(q) == Held(p) + multiset{f}
  {
    PlacedIsWeighed(p, workers, f);
    hide Weighed, AllFit;
    FlattenUpdate(p.buckets, p.next, f);
  }

  lemma PlacedIsWeighed(p: Packing, workers: nat, f: FileItem)
    requires workers >= 2 && Shaped(p, workers) && Weighed(p) && p.sizes[p.next] + f.size < BUCKET_SIZE
    ensures Weighed(PackOne(p, workers, f))
  {
    TotalOfOneMore(p.buckets[p.next], f);
  }

  lemma AllFitAppend(a: seq<Bucket>, b: seq<Bucket>)
    requires AllFit(a) && AllFit(b)
    ensures AllFit(a + b)
  {
  }

  lemma FreshIsWeighed(workers: nat, f: FileItem, q: Packing)
    requires workers >= 2 && Shaped(q, workers)
    requires q.buckets == seq(workers, i => [])[0 := [f]] && q.sizes == seq(workers, i => 0)[0 := f.size]
    ensures Weighed(q)
  {
    FreshBuckets(workers, f);
  }

  lemma PlacedAfresh(p: Packing, workers: nat, f: FileItem)
    requires workers >= 2 && Shaped(p, workers) && Weighed(p) && AllFit(p.out) && p.sizes[p.next] + f.size >= BUCKET_SIZE
    ensures var q := PackOne(p, workers, f); Weighed(q) && AllFit(q.out) && Held(q) == Held(p) + multiset{f}
  {
    NonEmptyEffect(p.buckets);
    hide Weighed, AllFit, NonEmpty, Flatten;
    FlattenAppend(p.out, NonEmpty(p.buckets));
    AllFitAppend(p.out, NonEmpty(p.buckets));
    FreshBuckets(workers, f);
    FreshIsWeighed(workers, f, PackOne(p, workers, f));
  }

  lemma FreshBuckets(workers: nat, f: FileItem)
    requires workers >= 2
    ensures var afresh: seq<Bucket> := seq(workers, i => [])[0 := [f]];
      multiset(Flatten(afresh)) == multiset{f} && TotalSize(afresh[0]) == f.size
  {
    var none: seq<Bucket> := seq(workers, i => []);
    FlattenNothing(none);
    FlattenUpdate(none, 0, f);
    assert none[0] + [f] == [f];
    TotalOfOneMore([], f);
    assert [] + [f] == [f];
  }

  lemma PackOneKeepsFiles(p: Packing, workers: nat, f: FileItem)
    requires workers >= 2 && Shaped(p, workers) && Weighed(p) && AllFit(p.out)
    ensures var q := PackOne(p, workers, f); Weighed(q) && AllFit(q.out) && Held(q) == Held(p) + multiset{f}
  {
    hide Weighed, AllFit, Held, PackOne;
    if p.sizes[p.next] + f.size < BUCKET_SIZE { PlacedInTurn(p, workers, f); } else { PlacedAfresh(p, workers, f); }
  }

  lemma {:induction false} PackAllKeepsFiles(files: seq<FileItem>, workers: nat)
    requires workers >= 2
    ensures var p := PackAll(files, workers); Weighed(p) && AllFit(p.out) && Held(p) == multiset(files)
  {
    if files == [] {
      FlattenNothing(Empty(workers).buckets);
    } else {
      var init := files[..|files| - 1];
      assert files == init + [files[|files| - 1]];
      PackAllKeepsFiles(init, workers);
      PackOneKeepsFiles(PackAll(init, workers), workers, files[|files| - 1]);
      hide Weighed, AllFit, Held, PackOne;
    }
  }

  /** The buckets given out hold every file exactly once; with two workers or more none is
      empty, and each stays below the bucket size or is one single larger file. */
  lemma BucketsHoldEachFileOnce(files: seq<FileItem>, workers: nat)
    ensures multiset(Flatten(Packed(files, workers))) == multiset(files)
    ensures workers >= 2 ==> AllFit(Packed(files, workers))
    ensures workers >= 2 ==> forall b :: b in Packed(files, workers) ==> b != [] && (TotalSize(b) < 10_737_418_240 || |b| == 1)
  {
    if workers < 2 {
      assert Flatten([files]) == Flatten([]) + files;
    } else {
      var p := PackAll(SortBySize(files), workers);
      SortSorts(files);
      PackAllKeepsFiles(SortBySize(files), workers);
      hide PackAll, SortBySize;
      NonEmptyEffect(p.buckets);
      FlattenAppend(p.out, NonEmpty(p.buckets));
    }
  }

  /** At every point of the filling no bucket is ahead of another by more than the last file. */
  lemma BucketsStayBalanced(files: seq<FileItem>, workers: nat, n: nat, i: nat, j: nat)
    requires workers >= 2 && 0 < n <= |files| && i < workers && j < workers
    ensures |SortBySize(files)| == |files|
    ensures var p := PackAll(SortBySize(files)[..n], workers);
      p.sizes[j] <= p.sizes[i] + SortBySize(files)[n - 1].size && p.sizes[p.next] <= p.sizes[i]
  {
    SortSorts(files);
    var sorted := SortBySize(files);
    assert |multiset(sorted)| == |multiset(files)|;
    var first := sorted[..n];
    PackAllIsBalanced(first, workers);
    NextIsLeastLoaded(PackAll(first, workers), first[n - 1].size, i);
  }

  predicate HasRoom(p: Packing, f: FileItem) { exists i :: 0 <= i < |p.sizes| && p.sizes[i] + f.size < BUCKET_SIZE }

  /** While some bucket has room for the next file it goes into one that has, and nothing is given
      out; when none has, all are given out and the file starts a new set. */
  lemma OnlyFullBucketsGoOut(files: seq<FileItem>, workers: nat, n: nat)
    requires workers >= 2 && n < |files|
    ensures |SortBySize(files)| == |files|
    ensures var p, q, f := PackAll(SortBySize(files)[..n], workers), PackAll(SortBySize(files)[..n + 1], workers), SortBySize(files)[n];
      if HasRoom(p, f) then q.out == p.out && TookOne(p, q, f)
      else q.out == p.out + NonEmpty(p.buckets) && q.buckets == seq(workers, i => if i == 0 then [f] else [])
  {
    SortSorts(files);
    var sorted := SortBySize(files);
    assert |multiset(sorted)| == |multiset(files)|;
    var first, f := sorted[..n], sorted[n];
    assert sorted[..n + 1][..n] == first;
    PackAllIsBalanced(first, workers);
    PackAllKeepsFiles(first, workers);
    hide SortBySize, Balanced, HasRoom, NonEmpty, TookOne, PackOne, Weighed;
    OneMoreIsPlaced(PackAll(first, workers), workers, f, if first == [] then 0 else first[n - 1].size);
  }

  lemma OneMoreIsPlaced(p: Packing, workers: nat, f: FileItem, last: nat)
    requires workers >= 2 && Shaped(p, workers) && Balanced(p, last) && Weighed(p)
    ensures var q := PackOne(p, workers, f);
      if HasRoom(p, f) then q.out == p.out && TookOne(p, q, f)
      else q.out == p.out + NonEmpty(p.buckets) && q.buckets == seq(workers, i => if i == 0 then [f] else [])
  {
    RoomIsNext(p, last, f);
    hide Balanced, HasRoom, NonEmpty;
    if p.sizes[p.next] + f.size < BUCKET_SIZE {
      assert PackOne(p, workers, f).buckets == p.buckets[p.next := p.buckets[p.next] + [f]];
    }
  }

  lemma RoomIsNext(p: Packing, last: nat, f: FileItem)
    requires p.next < |p.sizes| && Balanced(p, last)
    ensures HasRoom(p, f) <==> p.sizes[p.next] + f.size < BUCKET_SIZE
  {
    if i :| 0 <= i < |p.sizes| && p.sizes[i] + f.size < BUCKET_SIZE { NextIsLeastLoaded(p, last, i); }
  }

  /** One bucket that had room got the file. */
  predicate TookOne(p: Packing, q: Packing, f: FileItem) {
    exists i :: 0 <= i < |p.buckets| && TotalSize(p.buckets[i]) + f.size < BUCKET_SIZE
      && q.buckets == p.buckets[i := p.buckets[i] + [f]]
  }
}
