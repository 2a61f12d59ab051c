/** The producer's side of the answers: draining the queues the workers fill, step by step, and
    raising the first error (CloudInterface, barman/cloud.py). */
module CloudInterface {
  import opened Sequences
  import opened MultipartUpload

  lemma {:induction false} InsertLeast(list: seq<nat>, x: nat)
    requires Rising(list) && (list != [] ==> x <= list[0])
    ensures Insert(list, x) == [x] + list
  {
    if list != [] && x == list[0] {
      var rest := list[1..];
      assert Rising(rest) && (rest != [] ==> list[0] <= rest[0]);
      InsertLeast(rest, x);
      assert list == [x] + rest;
    }
  }

  lemma {:induction false} InsertRises(list: seq<nat>, x: nat)
    requires Rising(list)
    ensures Rising(Insert(list, x)) && Insert(list, x) != []
    ensures Insert(list, x)[0] == if list == [] || x < list[0] then x else list[0]
  {
    if list != [] && list[0] <= x {
      var rest := list[1..];
      InsertRises(rest, x);
      var r := Insert(rest, x);
      assert rest != [] ==> list[0] <= rest[0];
      forall i | 0 <= i < |r| ensures list[0] <= r[i] { assert r[0] <= r[i]; }
    }
  }

  lemma {:induction false} SortRises(list: seq<nat>)
    ensures Rising(SortParts(list))
  {
    if list != [] {
      SortRises(list[1..]);
      InsertRises(SortParts(list[1..]), list[0]);
    }
  }

  lemma {:induction false} SortOfRising(list: seq<nat>)
    requires Rising(list)
    ensures SortParts(list) == list
  {
    if list != [] {
      var rest := list[1..];
      SortOfRising(rest);
      InsertLeast(rest, list[0]);
      assert list == [list[0]] + rest;
    }
  }

  /** A key may be touched by several results; sorting its list again changes nothing. */
  lemma SortTwice(list: seq<nat>)
    ensures SortParts(SortParts(list)) == SortParts(list)
  {
    SortRises(list);
    SortOfRising(SortParts(list));
  }

  // ---------------------------------------------------------------- what the loops hold

  /** After some results were taken: each list has got its parts at the end. */
  ghost predicate Appended(before: map<Key, seq<nat>>, taken: seq<PartId>, now: map<Key, seq<nat>>) {
    && (forall k :: k in now <==> k in before || exists r :: r in taken && r.key == k)
    && forall k :: k in now ==> now[k] == PartsOf(before, k) + Arrived(taken, k)
  }

  ghost predicate SortedFor(all: map<Key, seq<nat>>, keys: seq<Key>, now: map<Key, seq<nat>>) {
    now.Keys == all.Keys && forall k :: k in now ==> now[k] == if k in keys then SortParts(all[k]) else all[k]
  }

  lemma ArrivedOneMore(taken: seq<PartId>, r: PartId, k: Key)
    ensures Arrived(taken + [r], k) == Arrived(taken, k) + (if r.key == k then [r.number] else [])
  {
    assert (taken + [r])[..|taken|] == taken;
  }

  lemma AppendOne(before: map<Key, seq<nat>>, taken: seq<PartId>, now: map<Key, seq<nat>>, r: PartId, all: seq<PartId>)
    requires Appended(before, taken, now) && all == taken + [r]
    ensures Appended(before, all, now[r.key := PartsOf(now, r.key) + [r.number]])
  {
    var now' := now[r.key := PartsOf(now, r.key) + [r.number]];
    assert forall x :: x in all <==> x in taken || x == r;
    NoneArrived(taken, r.key);
    hide Arrived;
    forall k | k in now' ensures now'[k] == PartsOf(before, k) + Arrived(all, k) {
      ArrivedOneMore(taken, r, k);
      if k == r.key {
        assert PartsOf(now, k) == PartsOf(before, k) + Arrived(taken, k);
        assert (PartsOf(before, k) + Arrived(taken, k)) + [r.number] == PartsOf(before, k) + (Arrived(taken, k) + [r.number]);
      } else {
        assert Arrived(taken, k) + [] == Arrived(taken, k);
      }
    }
  }

  lemma {:induction false} NoneArrived(taken: seq<PartId>, key: Key)
    ensures Arrived(taken, key) == [] <==> forall r :: r in taken ==> r.key != key
  {
    if taken != [] {
      NoneArrived(taken[..|taken| - 1], key);
      assert taken == taken[..|taken| - 1] + [taken[|taken| - 1]];
    }
  }

  function KeysOf(taken: seq<PartId>): seq<Key> { seq(|taken|, i requires 0 <= i < |taken| => taken[i].key) }

  lemma KeysOneMore(taken: seq<PartId>, r: PartId, all: seq<PartId>)
    requires all == taken + [r]
    ensures KeysOf(all) == KeysOf(taken) + [r.key]
  {
  }

  lemma NothingAppended(before: map<Key, seq<nat>>)
    ensures Appended(before, [], before)
  {
    forall k | k in before ensures before[k] == PartsOf(before, k) + Arrived([], k) {
      assert before[k] + [] == before[k];
    }
  }

  lemma SortOneMore(all: map<Key, seq<nat>>, keys: seq<Key>, now: map<Key, seq<nat>>, key: Key, more: seq<Key>)
    requires SortedFor(all, keys, now) && key in all && more == keys + [key]
    ensures key in now && SortedFor(all, more, now[key := SortParts(now[key])])
  {
    SortTwice(all[key]);
    assert forall k :: k in more <==> k in keys || k == key;
  }

  lemma TouchedArrived(taken: seq<PartId>, k: Key)
    ensures k in KeysOf(taken) <==> Arrived(taken, k) != []
  {
    NoneArrived(taken, k);
    forall i | 0 <= i < |taken| ensures KeysOf(taken)[i] == taken[i].key { }
    if r :| r in taken && r.key == k {
      var i :| 0 <= i < |taken| && taken[i] == r;
      assert KeysOf(taken)[i] == k;
    }
  }

  lemma MergedList(before: map<Key, seq<nat>>, taken: seq<PartId>, all: map<Key, seq<nat>>, now: map<Key, seq<nat>>, k: Key)
    requires Appended(before, taken, all) && SortedFor(all, KeysOf(taken), now)
    ensures k in now <==> k in Merge(before, taken)
    ensures k in now ==> now[k] == Merge(before, taken)[k]
  {
    TouchedArrived(taken, k);
    hide KeysOf, Arrived;
    assert PartsOf(before, k) + [] == PartsOf(before, k);
  }

  /** Appending all and sorting what was touched is the merge of the protocol. */
  lemma SortedIsMerged(before: map<Key, seq<nat>>, taken: seq<PartId>, all: map<Key, seq<nat>>, now: map<Key, seq<nat>>)
    requires Appended(before, taken, all) && SortedFor(all, KeysOf(taken), now)
    ensures now == Merge(before, taken)
  {
    hide Appended, SortedFor, Merge, KeysOf;
    forall k ensures (k in now <==> k in Merge(before, taken)) && (k in now ==> now[k] == Merge(before, taken)[k]) {
      MergedList(before, taken, all, now, k);
    }
  }

  class CloudInterface {
    var resultQueue: seq<PartId>
    var doneQueue: seq<(Key, UploadStatus)>
    var errorsQueue: nat
    var error: bool
    var partsDb: map<Key, seq<nat>>
    var uploadStats: map<Key, UploadStatus>

    constructor ()
      ensures resultQueue == [] && doneQueue == [] && errorsQueue == 0 && !error && partsDb == map[] && uploadStats == map[]
    {
      resultQueue, doneQueue, errorsQueue, error, partsDb, uploadStats := [], [], 0, false, map[], map[];
    }

    /** With the queue joined: takes all answers, sorts the lists they touch, and raises an error
        if one is waiting and none was reported before. */
    method RetrieveResults() returns (raised: bool)
      modifies this
      ensures partsDb == Merge(old(partsDb), old(resultQueue)) && resultQueue == []
      ensures uploadStats == UpdateStatus(old(uploadStats), old(doneQueue)) && doneQueue == []
      ensures raised == (!old(error) && old(errorsQueue) > 0)
      ensures error == (old(error) || raised) && errorsQueue == old(errorsQueue) - (if raised then 1 else 0)
    {
      ghost var results := resultQueue;
      hide Appended, KeysOf;
      var touched := AppendResults();
      ghost var all := partsDb;
      assert SortedFor(all, touched[..0], partsDb);
      hide SortedFor;
      for i := 0 to |touched|
        invariant SortedFor(all, touched[..i], partsDb)
        invariant resultQueue == [] && doneQueue == old(doneQueue) && errorsQueue == old(errorsQueue) && error == old(error)
        invariant uploadStats == old(uploadStats)
      {
        SortOneMore(all, touched[..i], partsDb, touched[i], touched[..i + 1]);
        partsDb := partsDb[touched[i] := SortParts(partsDb[touched[i]])];
      }
      assert touched[..|touched|] == touched;
      SortedIsMerged(old(partsDb), results, all, partsDb);
      TakeDone();
      raised := HandleAsyncErrors();
    }

    method AppendResults() returns (touched: seq<Key>)
      modifies this`partsDb, this`resultQueue
      ensures resultQueue == [] && touched == KeysOf(old(resultQueue))
      ensures Appended(old(partsDb), old(resultQueue), partsDb)
      ensures forall k :: k in touched ==> k in partsDb
    {
      touched := [];
      ghost var taken: seq<PartId> := [];
      NothingAppended(partsDb);
      assert touched == KeysOf(taken);
      hide Appended, KeysOf;
      while resultQueue != []
        invariant taken + resultQueue == old(resultQueue)
        invariant touched == KeysOf(taken)
        invariant Appended(old(partsDb), taken, partsDb)
        invariant forall k :: k in touched ==> k in partsDb
        decreases |resultQueue|
      {
        var result := resultQueue[0];
        ghost var more := taken + [result];
        assert more + resultQueue[1..] == taken + resultQueue;
        resultQueue := resultQueue[1..];
        AppendOne(old(partsDb), taken, partsDb, result, more);
        KeysOneMore(taken, result, more);
        touched := touched + [result.key];
        partsDb := partsDb[result.key := PartsOf(partsDb, result.key) + [result.number]];
        taken := more;
      }
      assert taken == old(resultQueue);
    }

    method TakeDone()
      modifies this`uploadStats, this`doneQueue
      ensures uploadStats == UpdateStatus(old(uploadStats), old(doneQueue)) && doneQueue == []
    {
      ghost var taken: seq<(Key, UploadStatus)> := [];
      while doneQueue != []
        invariant taken + doneQueue == old(doneQueue)
        invariant uploadStats == UpdateStatus(old(uploadStats), taken)
        decreases |doneQueue|
      {
        var result := doneQueue[0];
        doneQueue := doneQueue[1..];
        uploadStats := uploadStats[result.0 := result.1];
        assert (taken + [result])[..|taken|] == taken;
        taken := taken + [result];
      }
      assert taken == old(doneQueue);
    }

    /** Only the first error is ever raised. */
    method HandleAsyncErrors() returns (raised: bool)
      modifies this`error, this`errorsQueue
      ensures raised == (!old(error) && old(errorsQueue) > 0)
      ensures error == (old(error) || raised) && errorsQueue == old(errorsQueue) - (if raised then 1 else 0)
    {
      if error || errorsQueue == 0 {
        return false;
      }
      errorsQueue := errorsQueue - 1;
      error := true;
      return true;
    }
  }

  /** The fields of the class in a state of the protocol. */
  ghost predicate Shows(c: CloudInterface, s: State)
    reads c
  {
    && c.resultQueue == s.results && c.doneQueue == s.done && c.errorsQueue == s.errors && c.error == s.error
    && c.partsDb == s.partsDb && c.uploadStats == s.status
  }

  /** Draining is the protocol's step, followed by the step that raises when an error waits. */
  method RetrieveInProtocol(c: CloudInterface, ghost s: State) returns (raised: bool, ghost s': State)
    requires Shows(c, s) && Enabled(s, Retrieve)
    modifies c
    ensures raised <==> Enabled(Apply(s, Retrieve), RaiseError)
    ensures s' == if raised then Apply(Apply(s, Retrieve), RaiseError) else Apply(s, Retrieve)
    ensures Shows(c, s')
  {
    raised := c.RetrieveResults();
    ghost var mid := Apply(s, Retrieve);
    s' := if raised then Apply(mid, RaiseError) else mid;
  }
}
