/** `sharedMemory` for one caller at a time (chains/atomic/shared_memory.go, writer.go). */
module Apply {
  import opened Common
  import opened AtomicState
  import opened SharedMemory
  import Paging

  /** The operations of the given batches, one after the other. */
  ghost function Replayed(batches: seq<BatchOps>): seq<BatchOp>
    reads set b | b in batches
  {
    if batches == [] then []
    else
      assert forall b :: b in batches[..|batches| - 1] ==> b in batches;
      Replayed(batches[..|batches| - 1]) + batches[|batches| - 1].ops
  }

  /** Each batch's operations come after those of the batches before it. */
  lemma {:induction false} ReplayedInOrder(batches: seq<BatchOps>, i: nat)
    requires i < |batches|
    ensures Replayed(batches) == Replayed(batches[..i]) + batches[i].ops + Replayed(batches[i + 1..])
  {
    var n := |batches| - 1;
    if i < n {
      ReplayedInOrder(batches[..n], i);
      assert batches[..n][..i] == batches[..i] && batches[..n][i + 1..] == batches[i + 1..n];
      assert batches[i + 1..][..n - i - 1] == batches[i + 1..n] && batches[i + 1..][n - i - 1] == batches[n];
    }
  }

  class Memory {
    var db: Base
    const hash: (ID, ID) -> ID

    constructor (db: Base, hash: (ID, ID) -> ID)
      ensures this.db == db && this.hash == hash
    {
      this.db, this.hash := db, hash;
    }

    /** The values the peer sent under `keys`, or the first failed lookup. */
    method Get(thisChain: ID, peerChain: ID, keys: seq<Bytes>) returns (r: Result<seq<Bytes>, Error>)
      ensures var box := db.Pair(SharedID(hash, peerChain, thisChain)).At(Inbound.Select(thisChain, peerChain));
              && (r.Success? <==> forall i :: 0 <= i < |keys| ==> Level(box, keys[i]) == 1)
              && (r.Success? ==> Values(box, keys, r.value))
              && (r.Failure? ==> r.error == NotFound)
    {
      var box := db.Pair(SharedID(hash, peerChain, thisChain)).At(Inbound.Select(thisChain, peerChain));
      var values := [];
      for i := 0 to |keys|
        invariant |values| == i
        invariant Values(box, keys[..i], values)
      {
        var elem := Lookup(box, keys[i]);
        if elem.Failure? { return Failure(elem.error); }
        values := values + [elem.value.value];
      }
      return Success(values);
    }

    /** A page of the keys the peer sent under the traits, and their values. With an exact index no
        lookup fails. */
    method Indexed(thisChain: ID, peerChain: ID, traits: seq<Bytes>, startTrait: Bytes, startKey: Bytes, limit: int)
      returns (r: Result<seq<Bytes>, Error>, page: Paging.Page)
      ensures var box := db.Pair(SharedID(hash, peerChain, thisChain)).At(Inbound.Select(thisChain, peerChain));
              && Paging.IsPage(Paging.Visits(box.lists, Paging.SortTraits(traits), startTrait, startKey), limit, page)
              && (|page.keys| < limit ==> forall k :: k in page.keys <==> Paging.Wanted(box.lists, traits, startTrait, startKey, k))
              && (|page.keys| < limit ==> Paging.ShortCursor(box.lists, traits, startTrait, startKey, page))
              && (r.Success? <==> forall i :: 0 <= i < |page.keys| ==> Level(box, page.keys[i]) == 1)
              && (r.Success? ==> Values(box, page.keys, r.value))
              && (IndexExact(box) ==> r.Success?)
    {
      ghost var box := db.Pair(SharedID(hash, peerChain, thisChain)).At(Inbound.Select(thisChain, peerChain));
      page := Paging.GetKeys(db.Pair(SharedID(hash, peerChain, thisChain)).At(Inbound.Select(thisChain, peerChain)).lists,
                             traits, startTrait, startKey, limit);
      r := Get(thisChain, peerChain, page.keys);
      if IndexExact(box) { PageIsFound(box, traits, startTrait, startKey, limit, page); }
    }

    /** All or nothing: the base becomes every pair's result followed by the batches, or stays
        as it was. The outcome does not depend on the order in which the map of requests is
        walked or the pairs are visited. */
    method Apply(thisChain: ID, requests: map<ID, Requests>, batches: seq<BatchOps>) returns (err: Option<Error>)
      requires Injective(hash)
      requires forall b :: b in batches ==> b.Valid()
      modifies this`db
      ensures var work := WorkOf(hash, thisChain, requests);
              if WorkSucceeds(old(db), work)
              then err == None && db == WorkResult(old(db), work, Replayed(batches))
              else err.Some? && FirstError(old(db), work, err.value) && db == old(db)
      ensures err.None? <==> RequestsSucceed(hash, old(db), thisChain, requests)
      ensures err.None? ==> Delivered(hash, old(db), db, thisChain, requests) && db.rest == Write(old(db).rest, Replayed(batches))
      ensures BaseExact(old(db)) ==> BaseExact(db)
    {
      WorkSucceedsIff(hash, db, thisChain, requests);
      var r := RunCall(db, hash, thisChain, requests);
      if r.Failure? { return Some(r.error); }
      var batch := ReplayAll(batches);
      CommitDelivers(hash, db, thisChain, requests, r.value, batch);
      db := Commit(db, r.value, batch);
      return None;
    }
  }

  /** The values of the elements under these keys, in order. */
  ghost predicate Values(box: Store, keys: seq<Bytes>, values: seq<Bytes>) {
    && |values| == |keys|
    && forall i :: 0 <= i < |keys| ==>
         keys[i] in box.values && box.values[keys[i]].present && box.values[keys[i]].value == values[i]
  }

  lemma PageIsFound(box: Store, traits: seq<Bytes>, startTrait: Bytes, startKey: Bytes, limit: int, page: Paging.Page)
    requires IndexExact(box)
    requires Paging.IsPage(Paging.Visits(box.lists, Paging.SortTraits(traits), startTrait, startKey), limit, page)
    ensures forall i :: 0 <= i < |page.keys| ==> Level(box, page.keys[i]) == 1
  {
    forall i | 0 <= i < |page.keys| ensures Level(box, page.keys[i]) == 1 {
      Paging.PageKeysCarryTraits(box, traits, startTrait, startKey, limit, page, page.keys[i]);
    }
  }

  function Commit(db: Base, vdb: map<ID, PairDb>, batch: seq<BatchOp>): Base {
    Base(db.shared + vdb, Write(db.rest, batch))
  }

  /** Every pair's operations have succeeded and this is what they leave. */
  ghost predicate Ran(db: Base, work: Work, vdb: map<ID, PairDb>) {
    vdb.Keys == work.Keys && forall id :: id in work ==> RunPair(db.Pair(id), work[id]) == Success(vdb[id])
  }

  lemma CommitIsResult(db: Base, work: Work, vdb: map<ID, PairDb>, batch: seq<BatchOp>)
    requires Ran(db, work, vdb)
    ensures WorkSucceeds(db, work) && Commit(db, vdb, batch) == WorkResult(db, work, batch)
  {}

  /** What a call commits when every pair has succeeded. */
  lemma CommitDelivers(hash: (ID, ID) -> ID, db: Base, thisChain: ID, requests: map<ID, Requests>, vdb: map<ID, PairDb>, batch: seq<BatchOp>)
    requires Injective(hash) && Ran(db, WorkOf(hash, thisChain, requests), vdb)
    ensures WorkSucceeds(db, WorkOf(hash, thisChain, requests))
    ensures Commit(db, vdb, batch) == WorkResult(db, WorkOf(hash, thisChain, requests), batch)
    ensures Delivered(hash, db, Commit(db, vdb, batch), thisChain, requests)
    ensures BaseExact(db) ==> BaseExact(Commit(db, vdb, batch))
  {
    var work := WorkOf(hash, thisChain, requests);
    CommitIsResult(db, work, vdb, batch);
    WorkDelivers(hash, db, thisChain, requests, batch);
    if BaseExact(db) { WorkKeepsIndex(db, work, batch); }
  }

  /** The requests by shared ID: nothing lost and nothing invented. */
  ghost predicate Collected(hash: (ID, ID) -> ID, thisChain: ID, requests: map<ID, Requests>,
                            operations: map<ID, (ID, Requests)>)
  {
    && (forall id :: id in operations ==>
          && operations[id].0 in requests && operations[id].1 == requests[operations[id].0]
          && id == SharedID(hash, thisChain, operations[id].0))
    && (forall peer :: peer in requests ==> SharedID(hash, thisChain, peer) in operations)
  }

  /** The first loop: the map of requests is walked in any order. */
  method CollectOperations(hash: (ID, ID) -> ID, thisChain: ID, requests: map<ID, Requests>)
    returns (sharedIDs: seq<ID>, operations: map<ID, (ID, Requests)>)
    requires Injective(hash)
    ensures Collected(hash, thisChain, requests, operations)
    ensures forall id :: id in sharedIDs <==> id in operations
    ensures NoDuplicates(sharedIDs)
  {
    SharedIDsDiffer(hash, thisChain);
    sharedIDs, operations := [], map[];
    var todo := requests.Keys;
    while todo != {}
      invariant todo <= requests.Keys
      invariant NoDuplicates(sharedIDs)
      invariant forall id :: id in sharedIDs <==> id in operations
      invariant forall id :: id in operations ==>
        && operations[id].0 in requests && operations[id].1 == requests[operations[id].0]
        && id == SharedID(hash, thisChain, operations[id].0) && operations[id].0 !in todo
      invariant forall peer :: peer in requests && peer !in todo ==> SharedID(hash, thisChain, peer) in operations
      decreases |todo|
    {
      var peer :| peer in todo;
      var id := SharedID(hash, thisChain, peer);
      assert id !in operations;
      assert forall i :: 0 <= i < |sharedIDs| ==> sharedIDs[i] in operations;
      sharedIDs := sharedIDs + [id];
      operations := operations[id := (peer, requests[peer])];
      todo := todo - {peer};
    }
  }

  /** The shared IDs in strictly ascending order, so no call locks a pair twice. */
  method SortedOperations(hash: (ID, ID) -> ID, thisChain: ID, requests: map<ID, Requests>, ghost work: Work)
    returns (sharedIDs: seq<ID>, operations: map<ID, (ID, Requests)>)
    requires Injective(hash) && work == WorkOf(hash, thisChain, requests)
    ensures forall i, j :: 0 <= i < j < |sharedIDs| ==> sharedIDs[i] < sharedIDs[j]
    ensures forall id :: id in sharedIDs <==> id in operations
    ensures operations.Keys == work.Keys
    ensures forall id :: id in work ==> work[id] == PairOps(thisChain, operations[id].0, operations[id].1)
  {
    var ids;
    ids, operations := CollectOperations(hash, thisChain, requests);
    OperationsAreWork(hash, thisChain, requests, operations);
    sharedIDs := SortIDs(ids);
    SameIDs(ids, sharedIDs);
    DistinctByCount(ids);
    DistinctByCount(sharedIDs);
  }

  lemma {:induction false} DistinctByCount(ids: seq<ID>)
    ensures NoDuplicates(ids) <==> forall id :: multiset(ids)[id] <= 1
  {
    if ids != [] {
      var first, rest := ids[0], ids[1..];
      assert ids == [first] + rest;
      DistinctByCount(rest);
      assert multiset(rest)[first] > 0 <==> first in rest;
      if NoDuplicates(ids) {
        assert NoDuplicates(rest) && first !in rest;
      } else if NoDuplicates(rest) {
        assert first in rest;
        assert multiset(ids)[first] > 1;
      } else {
        var id :| multiset(rest)[id] > 1;
        assert multiset(ids)[id] > 1;
      }
    }
  }

  lemma OperationsAreWork(hash: (ID, ID) -> ID, thisChain: ID, requests: map<ID, Requests>,
                          operations: map<ID, (ID, Requests)>)
    requires Injective(hash) && Collected(hash, thisChain, requests, operations)
    ensures operations.Keys == WorkOf(hash, thisChain, requests).Keys
    ensures forall id :: id in operations ==>
              WorkOf(hash, thisChain, requests)[id] == PairOps(thisChain, operations[id].0, operations[id].1)
  {
    SharedIDsDiffer(hash, thisChain);
  }

  lemma SameIDs(ids: seq<ID>, sorted: seq<ID>)
    requires multiset(ids) == multiset(sorted)
    ensures forall id :: id in ids <==> id in sorted
  {
    forall id ensures id in ids <==> id in sorted {
      assert id in ids <==> id in multiset(ids);
      assert id in sorted <==> id in multiset(sorted);
    }
  }

  lemma FailsFirst(db: Base, work: Work, ids: seq<ID>, n: nat, vdb: map<ID, PairDb>, e: Error)
    requires n < |ids| && (forall id :: id in work ==> id in ids) && ids[n] in work
    requires forall i, j :: 0 <= i < j < |ids| ==> ids[i] < ids[j]
    requires forall i :: 0 <= i < n ==> ids[i] in vdb
    requires vdb.Keys <= work.Keys && forall id :: id in vdb ==> RunPair(db.Pair(id), work[id]) == Success(vdb[id])
    requires RunPair(db.Pair(ids[n]), work[ids[n]]) == Failure(e)
    ensures FirstError(db, work, e)
  {
    forall id | id in work && id < ids[n] ensures RunPair(db.Pair(id), work[id]).Success? {
      var i :| 0 <= i < |ids| && ids[i] == id;
      assert i < n;
    }
  }

  /** Both loops: the requests collected and sorted, and then run. */
  method RunCall(db: Base, hash: (ID, ID) -> ID, thisChain: ID, requests: map<ID, Requests>) returns (r: Result<map<ID, PairDb>, Error>)
    requires Injective(hash)
    ensures r.Success? <==> WorkSucceeds(db, WorkOf(hash, thisChain, requests))
    ensures r.Failure? ==> FirstError(db, WorkOf(hash, thisChain, requests), r.error)
    ensures r.Success? ==> Ran(db, WorkOf(hash, thisChain, requests), r.value)
  {
    ghost var work := WorkOf(hash, thisChain, requests);
    var sharedIDs, sharedOperations := SortedOperations(hash, thisChain, requests, work);
    r := RunAll(db, thisChain, sharedIDs, sharedOperations, work);
  }

  /** The second loop: every pair in turn, each on its own layer over the unchanged base. */
  method RunAll(db: Base, thisChain: ID, sharedIDs: seq<ID>, operations: map<ID, (ID, Requests)>, ghost work: Work)
    returns (r: Result<map<ID, PairDb>, Error>)
    requires forall id :: id in sharedIDs <==> id in operations
    requires forall i, j :: 0 <= i < j < |sharedIDs| ==> sharedIDs[i] < sharedIDs[j]
    requires operations.Keys == work.Keys
    requires forall id :: id in work ==> work[id] == PairOps(thisChain, operations[id].0, operations[id].1)
    ensures r.Success? <==> WorkSucceeds(db, work)
    ensures r.Failure? ==> FirstError(db, work, r.error)
    ensures r.Success? ==> Ran(db, work, r.value)
  {
    var vdb: map<ID, PairDb> := map[];
    for n := 0 to |sharedIDs|
      invariant forall i :: 0 <= i < n ==> sharedIDs[i] in vdb
      invariant vdb.Keys <= work.Keys
      invariant forall id :: id in vdb ==> RunPair(db.Pair(id), work[id]) == Success(vdb[id])
    {
      var id := sharedIDs[n];
      var (peer, req) := operations[id];
      var pair := RunRequests(db.Pair(id), thisChain, peer, req);
      if pair.Failure? {
        FailsFirst(db, work, sharedIDs, n, vdb, pair.error);
        return Failure(pair.error);
      }
      vdb := vdb[id := pair.value];
    }
    return Success(vdb);
  }

  /** One operation on the layered database, the `k`th of `all`. */
  method RunOp(p: PairDb, ov: PairOverlay, op: PairOp, ghost all: seq<PairOp>, ghost k: nat)
    returns (r: Result<PairOverlay, Error>)
    requires k < |all| && all[k] == op && RunPair(p, all[..k]) == Success(PairView(p, ov))
    ensures r.Success? ==> RunPair(p, all[..k + 1]) == Success(PairView(p, r.value))
    ensures r.Failure? ==> RunPair(p, all) == Failure(r.error)
  {
    LayeredStep(p, ov, all, k);
    r := LayeredExecPair(p, ov, op);
    if r.Failure? { RunPairFailsForGood(p, all, k + 1); }
  }

  /** One loop over operations; `before` are those already done. */
  method RunOps(p: PairDb, ov: PairOverlay, ghost before: seq<PairOp>, ops: seq<PairOp>)
    returns (r: Result<PairOverlay, Error>)
    requires RunPair(p, before) == Success(PairView(p, ov))
    ensures RunPair(p, before + ops) == if r.Success? then Success(PairView(p, r.value)) else Failure(r.error)
  {
    ghost var all := before + ops;
    ghost var k := |before|;
    r := Success(ov);
    assert all[..|before|] == before;
    for i := 0 to |ops|
      invariant k == |before| + i && r.Success?
      invariant RunPair(p, all[..k]) == Success(PairView(p, r.value))
    {
      assert all[k] == ops[i];
      r := RunOp(p, r.value, ops[i], all, k);
      if r.Failure? { return; }
      k := k + 1;
    }
    assert all[..|all|] == all;
  }

  /** Removes from the inbound half, then puts into the outbound half; the result is what the
      layer shows over the base, which is what committing it writes. */
  method RunRequests(p: PairDb, thisChain: ID, peer: ID, req: Requests) returns (r: Result<PairDb, Error>)
    ensures r == RunPair(p, PairOps(thisChain, peer, req))
  {
    LayeredStart(p, []);
    var removes := RemoveOps(Inbound.Select(thisChain, peer), req.removes);
    var puts := PutOps(Outbound.Select(thisChain, peer), req.puts);
    assert [] + removes == removes;
    var ov := RunOps(p, NoPairWrites, [], removes);
    if ov.Failure? {
      assert (removes + puts)[..|removes|] == removes;
      RunPairFailsForGood(p, removes + puts, |removes|);
      return Failure(ov.error);
    }
    ov := RunOps(p, ov.value, removes, puts);
    if ov.Failure? { return Failure(ov.error); }
    return Success(PairView(p, ov.value));
  }

  /** `WriteAll`: every batch replayed, in order, onto one batch. */
  method ReplayAll(batches: seq<BatchOps>) returns (ops: seq<BatchOp>)
    requires forall b :: b in batches ==> b.Valid()
    ensures ops == Replayed(batches)
  {
    var baseBatch := new BatchOps();
    for i := 0 to |batches|
      invariant fresh(baseBatch) && baseBatch.Valid()
      invariant baseBatch.ops == Replayed(batches[..i])
    {
      var batch := batches[i];
      batch.Replay(baseBatch);
      assert batches[..i + 1][..i] == batches[..i];
    }
    assert batches[..|batches|] == batches;
    return baseBatch.ops;
  }
}
