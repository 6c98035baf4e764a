/** Message channels between chains and the atomic `Apply` (chains/atomic/shared_memory.go,
    prefixes.go, memory.go, writer.go and database/batch.go). */
module SharedMemory {
  import opened Common
  import opened AtomicState
  import opened VersionedState

  // ---------------------------------------------------------------------------
  // Where a message lives

  /** The two halves of a pair's database: prefixes {0}/{1} hold the messages for the chain
      with the smaller ID, prefixes {2}/{3} those for the larger. */
  datatype Box = ToSmaller | ToLarger

  datatype Prefixes = Prefixes(smaller: Box, larger: Box) {
    function Select(myChain: ID, peerChain: ID): Box {
      if myChain < peerChain then smaller else larger
    }
  }

  const Inbound := Prefixes(ToSmaller, ToLarger)
  const Outbound := Prefixes(ToLarger, ToSmaller)

  ghost predicate Injective(hash: (ID, ID) -> ID) {
    forall a, b, c, d :: hash(a, b) == hash(c, d) ==> a == c && b == d
  }

  function SharedID(hash: (ID, ID) -> ID, id1: ID, id2: ID): ID {
    if id1 > id2 then hash(id2, id1) else hash(id1, id2)
  }

  /** What `sender` writes for `receiver` is what `receiver` reads from `sender`, and nothing
      `receiver` writes back - exactly when the two chains differ. */
  lemma WrittenIsRead(hash: (ID, ID) -> ID, sender: ID, receiver: ID)
    ensures SharedID(hash, sender, receiver) == SharedID(hash, receiver, sender)
    ensures Outbound.Select(sender, receiver) == Inbound.Select(receiver, sender) <==> sender != receiver
    ensures Outbound.Select(sender, receiver) == Outbound.Select(receiver, sender) <==> sender == receiver
    ensures Outbound.Select(sender, receiver) != Inbound.Select(sender, receiver)
  {}

  /** Distinct ordered pairs of chains never share a place to write. */
  lemma ChannelsAreSeparate(hash: (ID, ID) -> ID, a: ID, b: ID, c: ID, d: ID)
    requires Injective(hash)
    requires SharedID(hash, a, b) == SharedID(hash, c, d) && Outbound.Select(a, b) == Outbound.Select(c, d)
    ensures a == c && b == d
  {
    var (a1, b1) := if a > b then (b, a) else (a, b);
    var (c1, d1) := if c > d then (d, c) else (c, d);
    assert hash(a1, b1) == hash(c1, d1);
  }

  // ---------------------------------------------------------------------------
  // Operations on one pair's database

  datatype PairDb = PairDb(toSmaller: Store, toLarger: Store) {
    function At(box: Box): Store { if box.ToSmaller? then toSmaller else toLarger }
    function With(box: Box, s: Store): PairDb {
      if box.ToSmaller? then this.(toSmaller := s) else this.(toLarger := s)
    }
  }

  const EmptyPair := PairDb(EmptyStore, EmptyStore)

  datatype PairOp = PairOp(box: Box, op: Op)

  function ExecPair(p: PairDb, op: PairOp): Result<PairDb, Error> {
    match Exec(p.At(op.box), op.op)
    case Success(s) => Success(p.With(op.box, s))
    case Failure(e) => Failure(e)
  }

  /** Runs the operations in order and stops at the first error. */
  function RunPair(p: PairDb, ops: seq<PairOp>): Result<PairDb, Error> {
    if ops == [] then Success(p)
    else
      match RunPair(p, ops[..|ops| - 1])
      case Success(q) => ExecPair(q, ops[|ops| - 1])
      case Failure(e) => Failure(e)
  }

  lemma {:induction false} RunPairFailsForGood(p: PairDb, ops: seq<PairOp>, n: nat)
    requires n <= |ops| && RunPair(p, ops[..n]).Failure?
    ensures RunPair(p, ops) == RunPair(p, ops[..n])
  {
    if n == |ops| {
      assert ops[..n] == ops;
    } else {
      assert ops[..|ops| - 1][..n] == ops[..n];
      RunPairFailsForGood(p, ops[..|ops| - 1], n);
    }
  }

  /** The trait indices of both halves are exact. */
  ghost predicate PairExact(p: PairDb) { IndexExact(p.toSmaller) && IndexExact(p.toLarger) }

  lemma {:induction false} RunPairKeepsIndex(p: PairDb, ops: seq<PairOp>)
    requires PairExact(p) && RunPair(p, ops).Success?
    ensures PairExact(RunPair(p, ops).value)
  {
    if ops != [] {
      var (first, last) := (ops[..|ops| - 1], ops[|ops| - 1]);
      RunPairKeepsIndex(p, first);
      ExecKeepsIndex(RunPair(p, first).value.At(last.box), last.op);
    }
  }

  datatype Requests = Requests(removes: seq<Bytes>, puts: seq<Element>)

  function RemoveOps(box: Box, removes: seq<Bytes>): seq<PairOp> {
    if removes == [] then [] else RemoveOps(box, removes[..|removes| - 1]) + [PairOp(box, RemoveOp(removes[|removes| - 1]))]
  }

  function PutOps(box: Box, puts: seq<Element>): seq<PairOp> {
    if puts == [] then [] else PutOps(box, puts[..|puts| - 1]) + [PairOp(box, PutOp(puts[|puts| - 1]))]
  }

  /** A peer's requests: removes from what the peer sent here, then puts of what is sent there. */
  function PairOps(thisChain: ID, peerChain: ID, req: Requests): seq<PairOp> {
    RemoveOps(Inbound.Select(thisChain, peerChain), req.removes) +
    PutOps(Outbound.Select(thisChain, peerChain), req.puts)
  }

  // ---------------------------------------------------------------------------
  // What a peer's requests do to the two halves

  ghost function Puts(puts: seq<Element>): seq<Op> { seq(|puts|, i requires 0 <= i < |puts| => PutOp(puts[i])) }

  ghost function Removes(removes: seq<Bytes>): seq<Op> { seq(|removes|, i requires 0 <= i < |removes| => RemoveOp(removes[i])) }

  ghost function OnBox(box: Box, ops: seq<Op>): seq<PairOp> { seq(|ops|, i requires 0 <= i < |ops| => PairOp(box, ops[i])) }

  lemma {:induction false} OpsOnBox(box: Box, removes: seq<Bytes>, puts: seq<Element>)
    ensures RemoveOps(box, removes) == OnBox(box, Removes(removes)) && PutOps(box, puts) == OnBox(box, Puts(puts))
    decreases |removes| + |puts|
  {
    if removes != [] { OpsOnBox(box, removes[..|removes| - 1], []); }
    if puts != [] { OpsOnBox(box, [], puts[..|puts| - 1]); }
  }

  lemma {:induction false} RunPairAppended(p: PairDb, first: seq<PairOp>, second: seq<PairOp>)
    ensures RunPair(p, first + second) ==
            match RunPair(p, first)
            case Success(q) => RunPair(q, second)
            case Failure(e) => Failure(e)
  {
    if second == [] {
      assert first + second == first;
    } else {
      var n := |second| - 1;
      assert (first + second)[..|first + second| - 1] == first + second[..n];
      RunPairAppended(p, first, second[..n]);
    }
  }

  lemma ExecOnBox(p: PairDb, box: Box, s: Store, op: Op)
    ensures ExecPair(p.With(box, s), PairOp(box, op)) ==
            if Exec(s, op).Success? then Success(p.With(box, Exec(s, op).value)) else Failure(DuplicatedOperation)
  {}

  /** Operations on one half run as on that half alone. */
  lemma {:induction false} RunOnBox(p: PairDb, box: Box, ops: seq<Op>)
    ensures RunPair(p, OnBox(box, ops)) ==
            if AllSucceed(p.At(box), ops) then Success(p.With(box, After(p.At(box), ops))) else Failure(DuplicatedOperation)
  {
    if ops != [] {
      var n := |ops| - 1;
      RunOnBox(p, box, ops[..n]);
      AllSucceedSnoc(p.At(box), ops);
      assert OnBox(box, ops)[..n] == OnBox(box, ops[..n]);
      ExecOnBox(p, box, After(p.At(box), ops[..n]), ops[n]);
    }
  }

  /** A peer's requests succeed exactly if its removes do on what came in from the peer and its
      puts on what goes out to it, and then each half holds what its own operations leave. */
  lemma RequestsOnHalves(p: PairDb, thisChain: ID, peer: ID, req: Requests)
    ensures var (p', inbound, outbound) :=
              (RunPair(p, PairOps(thisChain, peer, req)), Inbound.Select(thisChain, peer), Outbound.Select(thisChain, peer));
            && (p'.Success? <==> AllSucceed(p.At(inbound), Removes(req.removes)) && AllSucceed(p.At(outbound), Puts(req.puts)))
            && (p'.Success? ==> p'.value.At(inbound) == After(p.At(inbound), Removes(req.removes)))
            && (p'.Success? ==> p'.value.At(outbound) == After(p.At(outbound), Puts(req.puts)))
            && (p'.Failure? ==> p'.error == DuplicatedOperation)
  {
    var (inbound, outbound) := (Inbound.Select(thisChain, peer), Outbound.Select(thisChain, peer));
    OpsOnBox(inbound, req.removes, []);
    OpsOnBox(outbound, [], req.puts);
    var (removes, puts) := (OnBox(inbound, Removes(req.removes)), OnBox(outbound, Puts(req.puts)));
    RunPairAppended(p, removes, puts);
    RunOnBox(p, inbound, Removes(req.removes));
    if RunPair(p, removes).Success? { RunOnBox(RunPair(p, removes).value, outbound, Puts(req.puts)); }
  }

  // ---------------------------------------------------------------------------
  // Batches

  datatype BatchOp = BatchPut(key: Bytes, value: Bytes) | BatchDelete(key: Bytes)

  function Write(db: map<Bytes, Bytes>, ops: seq<BatchOp>): map<Bytes, Bytes> {
    if ops == [] then db
    else
      var before := Write(db, ops[..|ops| - 1]);
      match ops[|ops| - 1]
      case BatchPut(key, value) => before[key := value]
      case BatchDelete(key) => before - {key}
  }

  /** Writing a replayed batch is writing the two batches one after the other. */
  lemma {:induction false} WriteReplayed(db: map<Bytes, Bytes>, first: seq<BatchOp>, second: seq<BatchOp>)
    ensures Write(db, first + second) == Write(Write(db, first), second)
  {
    if second == [] {
      assert first + second == first;
    } else {
      var n := |second| - 1;
      assert (first + second)[..|first + second| - 1] == first + second[..n];
      WriteReplayed(db, first, second[..n]);
    }
  }

  /** The `i`th operation is the last on the key. */
  ghost predicate LastOn(ops: seq<BatchOp>, key: Bytes, i: nat) {
    i < |ops| && ops[i].key == key && forall j :: i < j < |ops| ==> ops[j].key != key
  }

  /** After a batch a key holds the value of its last put, nothing if a delete came last, and
      otherwise what it held. */
  lemma {:induction false} WrittenLast(db: map<Bytes, Bytes>, ops: seq<BatchOp>, key: Bytes, i: nat)
    requires LastOn(ops, key, i)
    ensures key in Write(db, ops) <==> ops[i].BatchPut?
    ensures ops[i].BatchPut? ==> Write(db, ops)[key] == ops[i].value
  {
    var n := |ops| - 1;
    if i < n {
      assert ops[n].key != key;
      assert LastOn(ops[..n], key, i);
      WrittenLast(db, ops[..n], key, i);
    }
  }

  lemma {:induction false} UnwrittenStays(db: map<Bytes, Bytes>, ops: seq<BatchOp>, key: Bytes)
    requires forall j :: 0 <= j < |ops| ==> ops[j].key != key
    ensures key in Write(db, ops) <==> key in db
    ensures key in db ==> Write(db, ops)[key] == db[key]
  {
    if ops != [] { UnwrittenStays(db, ops[..|ops| - 1], key); }
  }

  class BatchOps {
    var ops: seq<BatchOp>
    var size: nat

    function SizeOf(s: seq<BatchOp>): nat {
      if s == [] then 0
      else
        SizeOf(s[..|s| - 1]) +
        match s[|s| - 1]
        case BatchPut(key, value) => |key| + |value|
        case BatchDelete(key) => |key|
    }

    ghost predicate Valid() reads this { size == SizeOf(ops) }

    constructor ()
      ensures Valid() && ops == []
    {
      ops, size := [], 0;
    }

    method Put(key: Bytes, value: Bytes)
      requires Valid()
      modifies this
      ensures Valid() && ops == old(ops) + [BatchPut(key, value)]
    {
      ops := ops + [BatchPut(key, value)];
      size := size + |key| + |value|;
      assert ops[..|ops| - 1] == old(ops);
    }

    method Delete(key: Bytes)
      requires Valid()
      modifies this
      ensures Valid() && ops == old(ops) + [BatchDelete(key)]
    {
      ops := ops + [BatchDelete(key)];
      size := size + |key|;
      assert ops[..|ops| - 1] == old(ops);
    }

    method Write(op: BatchOp)
      requires Valid()
      modifies this
      ensures Valid() && ops == old(ops) + [op]
    {
      match op
      case BatchDelete(key) => Delete(key);
      case BatchPut(key, value) => Put(key, value);
    }

    method Replay(w: BatchOps)
      requires Valid() && w.Valid()
      modifies w
      ensures Valid() && w.Valid() && w.ops == old(w.ops) + old(ops)
    {
      var mine := ops;
      for i := 0 to |mine|
        invariant w.Valid() && w.ops == old(w.ops) + mine[..i]
      {
        w.Write(mine[i]);
        assert mine[..i + 1] == mine[..i] + [mine[i]];
      }
      assert mine[..|mine|] == mine;
    }
  }

  // ---------------------------------------------------------------------------
  // Apply

  /** The base database: one part per shared ID, and everything outside shared memory. */
  datatype Base = Base(shared: map<ID, PairDb>, rest: map<Bytes, Bytes>) {
    function Pair(id: ID): PairDb { if id in shared then shared[id] else EmptyPair }
  }

  /** What one `Apply` asks for, per shared ID. */
  type Work = map<ID, seq<PairOp>>

  lemma SharedIDsDiffer(hash: (ID, ID) -> ID, thisChain: ID)
    requires Injective(hash)
    ensures forall p, q {:trigger SharedID(hash, thisChain, p), SharedID(hash, thisChain, q)} ::
              SharedID(hash, thisChain, p) == SharedID(hash, thisChain, q) ==> p == q
  {
    forall p, q | SharedID(hash, thisChain, p) == SharedID(hash, thisChain, q) ensures p == q {
      var (a, b) := if thisChain > p then (p, thisChain) else (thisChain, p);
      var (c, d) := if thisChain > q then (q, thisChain) else (thisChain, q);
      assert hash(a, b) == hash(c, d);
    }
  }

  ghost function WorkOf(hash: (ID, ID) -> ID, thisChain: ID, requests: map<ID, Requests>): (work: Work)
    requires Injective(hash)
    ensures forall peer :: peer in requests ==>
              && SharedID(hash, thisChain, peer) in work
              && work[SharedID(hash, thisChain, peer)] == PairOps(thisChain, peer, requests[peer])
    ensures forall id :: id in work ==> exists peer :: peer in requests && id == SharedID(hash, thisChain, peer)
  {
    SharedIDsDiffer(hash, thisChain);
    map peer | peer in requests :: SharedID(hash, thisChain, peer) := PairOps(thisChain, peer, requests[peer])
  }

  ghost predicate WorkSucceeds(db: Base, work: Work) {
    forall id :: id in work ==> RunPair(db.Pair(id), work[id]).Success?
  }

  /** The meaning of `Apply`, with no order among the pairs: every pair's operations and then
      the batches. */
  ghost function WorkResult(db: Base, work: Work, batch: seq<BatchOp>): Base
    requires WorkSucceeds(db, work)
  {
    Base(map id | id in db.shared.Keys + work.Keys ::
           if id in work then RunPair(db.Pair(id), work[id]).value else db.shared[id],
         Write(db.rest, batch))
  }

  /** The requests to one peer succeed, each on its own half of the pair. */
  ghost predicate RequestSucceeds(hash: (ID, ID) -> ID, db: Base, thisChain: ID, peer: ID, req: Requests) {
    var pair := db.Pair(SharedID(hash, thisChain, peer));
    && AllSucceed(pair.At(Inbound.Select(thisChain, peer)), Removes(req.removes))
    && AllSucceed(pair.At(Outbound.Select(thisChain, peer)), Puts(req.puts))
  }

  ghost predicate RequestsSucceed(hash: (ID, ID) -> ID, db: Base, thisChain: ID, requests: map<ID, Requests>) {
    forall peer :: peer in requests ==> RequestSucceeds(hash, db, thisChain, peer, requests[peer])
  }

  /** What came in from the peer is without what was removed, and what goes out to it has what
      was put. */
  ghost predicate Exchanged(hash: (ID, ID) -> ID, db: Base, db': Base, thisChain: ID, peer: ID, req: Requests) {
    var (pair, pair') := (db.Pair(SharedID(hash, thisChain, peer)), db'.Pair(SharedID(hash, thisChain, peer)));
    var (inbound, outbound) := (Inbound.Select(thisChain, peer), Outbound.Select(thisChain, peer));
    && pair'.At(inbound) == After(pair.At(inbound), Removes(req.removes))
    && pair'.At(outbound) == After(pair.At(outbound), Puts(req.puts))
  }

  /** That is done with every peer asked for, and no other pair changes. */
  ghost predicate Delivered(hash: (ID, ID) -> ID, db: Base, db': Base, thisChain: ID, requests: map<ID, Requests>) {
    && (forall peer :: peer in requests ==> Exchanged(hash, db, db', thisChain, peer, requests[peer]))
    && (forall id :: !Asked(hash, thisChain, requests, id) ==> db'.Pair(id) == db.Pair(id))
  }

  ghost predicate Asked(hash: (ID, ID) -> ID, thisChain: ID, requests: map<ID, Requests>, id: ID) {
    exists peer :: peer in requests && id == SharedID(hash, thisChain, peer)
  }

  lemma PeerDelivers(hash: (ID, ID) -> ID, db: Base, thisChain: ID, requests: map<ID, Requests>, peer: ID)
    requires Injective(hash) && peer in requests
    ensures var (id, work) := (SharedID(hash, thisChain, peer), WorkOf(hash, thisChain, requests));
            id in work && (RunPair(db.Pair(id), work[id]).Success? <==> RequestSucceeds(hash, db, thisChain, peer, requests[peer]))
    ensures var (id, work) := (SharedID(hash, thisChain, peer), WorkOf(hash, thisChain, requests));
            forall db': Base :: Success(db'.Pair(id)) == RunPair(db.Pair(id), work[id]) ==>
              Exchanged(hash, db, db', thisChain, peer, requests[peer])
  {
    RequestsOnHalves(db.Pair(SharedID(hash, thisChain, peer)), thisChain, peer, requests[peer]);
  }

  /** The work of a call succeeds exactly if its requests do. */
  lemma WorkSucceedsIff(hash: (ID, ID) -> ID, db: Base, thisChain: ID, requests: map<ID, Requests>)
    requires Injective(hash)
    ensures WorkSucceeds(db, WorkOf(hash, thisChain, requests)) <==> RequestsSucceed(hash, db, thisChain, requests)
  {
    var work := WorkOf(hash, thisChain, requests);
    forall peer | peer in requests
      ensures var id := SharedID(hash, thisChain, peer);
              id in work && (RunPair(db.Pair(id), work[id]).Success? <==> RequestSucceeds(hash, db, thisChain, peer, requests[peer]))
    {
      PeerDelivers(hash, db, thisChain, requests, peer);
    }
  }

  lemma WorkExchanges(hash: (ID, ID) -> ID, db: Base, thisChain: ID, requests: map<ID, Requests>, batch: seq<BatchOp>, peer: ID)
    requires Injective(hash) && WorkSucceeds(db, WorkOf(hash, thisChain, requests)) && peer in requests
    ensures Exchanged(hash, db, WorkResult(db, WorkOf(hash, thisChain, requests), batch), thisChain, peer, requests[peer])
  {
    var id := SharedID(hash, thisChain, peer);
    var work := WorkOf(hash, thisChain, requests);
    PeerDelivers(hash, db, thisChain, requests, peer);
    assert Success(WorkResult(db, work, batch).Pair(id)) == RunPair(db.Pair(id), work[id]);
  }

  lemma UnaskedStays(hash: (ID, ID) -> ID, db: Base, thisChain: ID, requests: map<ID, Requests>, batch: seq<BatchOp>, id: ID)
    requires Injective(hash) && WorkSucceeds(db, WorkOf(hash, thisChain, requests)) && !Asked(hash, thisChain, requests, id)
    ensures WorkResult(db, WorkOf(hash, thisChain, requests), batch).Pair(id) == db.Pair(id)
  {
    assert id !in WorkOf(hash, thisChain, requests);
  }

  /** And it leaves what they ask for. */
  lemma WorkDelivers(hash: (ID, ID) -> ID, db: Base, thisChain: ID, requests: map<ID, Requests>, batch: seq<BatchOp>)
    requires Injective(hash) && WorkSucceeds(db, WorkOf(hash, thisChain, requests))
    ensures Delivered(hash, db, WorkResult(db, WorkOf(hash, thisChain, requests), batch), thisChain, requests)
  {
    var work := WorkOf(hash, thisChain, requests);
    var db' := WorkResult(db, work, batch);
    forall peer | peer in requests ensures Exchanged(hash, db, db', thisChain, peer, requests[peer]) {
      WorkExchanges(hash, db, thisChain, requests, batch, peer);
    }
    forall id | !Asked(hash, thisChain, requests, id) ensures db'.Pair(id) == db.Pair(id) {
      UnaskedStays(hash, db, thisChain, requests, batch, id);
    }
  }

  // What that means for the two chains.

  lemma {:induction false} PutsLeaveNoTombstone(s: Store, puts: seq<Element>, key: Bytes)
    requires key !in s.values
    ensures Level(After(s, Puts(puts)), key) >= 0
  {
    if puts != [] {
      var n := |puts| - 1;
      assert Puts(puts)[..n] == Puts(puts[..n]);
      PutsLeaveNoTombstone(s, puts[..n], key);
    }
  }

  /** A put that succeeds in an empty place is found there at the end, whatever else was put. */
  lemma {:induction false} FreshPutIsFound(s: Store, puts: seq<Element>, i: nat)
    requires i < |puts| && AllSucceed(s, Puts(puts)) && puts[i].key !in s.values
    ensures Lookup(After(s, Puts(puts)), puts[i].key) == Success(puts[i])
  {
    var n := |puts| - 1;
    assert Puts(puts)[..n] == Puts(puts[..n]);
    AllSucceedSnoc(s, Puts(puts));
    var before := After(s, Puts(puts[..n]));
    if i < n {
      FreshPutIsFound(s, puts[..n], i);
      ExecLookup(before, PutOp(puts[n]), puts[i].key);
    } else {
      PutsLeaveNoTombstone(s, puts[..n], puts[n].key);
      PutThenLookup(before, puts[n]);
    }
  }

  lemma {:induction false} RemovedIsAbsent(s: Store, removes: seq<Bytes>, key: Bytes)
    requires AllSucceed(s, Removes(removes)) && key in removes
    ensures Lookup(After(s, Removes(removes)), key) == Failure(NotFound)
  {
    var n := |removes| - 1;
    assert Removes(removes)[..n] == Removes(removes[..n]);
    AllSucceedSnoc(s, Removes(removes));
    var before := After(s, Removes(removes[..n]));
    ExecLookup(before, RemoveOp(removes[n]), key);
    if removes[n] != key { RemovedIsAbsent(s, removes[..n], key); }
  }

  /** What `sender` puts for `receiver` under a new key, `receiver` finds among what `sender` sent it. */
  lemma PutIsReceived(hash: (ID, ID) -> ID, db: Base, db': Base, sender: ID, receiver: ID, requests: map<ID, Requests>, i: nat)
    requires sender != receiver && receiver in requests && i < |requests[receiver].puts|
    requires RequestsSucceed(hash, db, sender, requests) && Delivered(hash, db, db', sender, requests)
    requires var box := db.Pair(SharedID(hash, sender, receiver)).At(Inbound.Select(receiver, sender));
             requests[receiver].puts[i].key !in box.values
    ensures var box' := db'.Pair(SharedID(hash, sender, receiver)).At(Inbound.Select(receiver, sender));
            Lookup(box', requests[receiver].puts[i].key) == Success(requests[receiver].puts[i])
  {
    var (pair, puts) := (db.Pair(SharedID(hash, sender, receiver)), requests[receiver].puts);
    WrittenIsRead(hash, sender, receiver);
    assert Exchanged(hash, db, db', sender, receiver, requests[receiver]);
    assert RequestSucceeds(hash, db, sender, receiver, requests[receiver]);
    FreshPutIsFound(pair.At(Outbound.Select(sender, receiver)), puts, i);
  }

  /** What `receiver` removes of what `sender` sent, it does not find again. */
  lemma RemovedIsConsumed(hash: (ID, ID) -> ID, db: Base, db': Base, receiver: ID, sender: ID, requests: map<ID, Requests>, key: Bytes)
    requires sender in requests && key in requests[sender].removes
    requires RequestsSucceed(hash, db, receiver, requests) && Delivered(hash, db, db', receiver, requests)
    ensures Lookup(db'.Pair(SharedID(hash, receiver, sender)).At(Inbound.Select(receiver, sender)), key) == Failure(NotFound)
  {
    assert Exchanged(hash, db, db', receiver, sender, requests[sender]);
    assert RequestSucceeds(hash, db, receiver, sender, requests[sender]);
    var pair := db.Pair(SharedID(hash, receiver, sender));
    RemovedIsAbsent(pair.At(Inbound.Select(receiver, sender)), requests[sender].removes, key);
  }

  ghost predicate BaseExact(db: Base) { forall id :: PairExact(db.Pair(id)) }

  /** A call keeps every trait index exact. */
  lemma WorkKeepsIndex(db: Base, work: Work, batch: seq<BatchOp>)
    requires BaseExact(db) && WorkSucceeds(db, work)
    ensures BaseExact(WorkResult(db, work, batch))
  {
    forall id ensures PairExact(WorkResult(db, work, batch).Pair(id)) {
      assert PairExact(db.Pair(id));
      if id in work { RunPairKeepsIndex(db.Pair(id), work[id]); }
    }
  }

  /** The error of the first pair, in the order of the shared IDs, that has one. */
  ghost predicate FirstError(db: Base, work: Work, e: Error) {
    exists id :: id in work && RunPair(db.Pair(id), work[id]) == Failure(e) &&
      forall id' :: id' in work && id' < id ==> RunPair(db.Pair(id'), work[id']).Success?
  }

  /** There is only one such error. */
  lemma FirstErrorUnique(db: Base, work: Work, e: Error, e': Error)
    requires FirstError(db, work, e) && FirstError(db, work, e')
    ensures e == e'
  {
    var id :| id in work && RunPair(db.Pair(id), work[id]) == Failure(e) &&
      forall other :: other in work && other < id ==> RunPair(db.Pair(other), work[other]).Success?;
    var id' :| id' in work && RunPair(db.Pair(id'), work[id']) == Failure(e') &&
      forall other :: other in work && other < id' ==> RunPair(db.Pair(other), work[other]).Success?;
    assert id == id';
  }

  /** A pair's database under the uncommitted writes of one call. */
  datatype PairOverlay = PairOverlay(toSmaller: Overlay, toLarger: Overlay) {
    function At(box: Box): Overlay { if box.ToSmaller? then toSmaller else toLarger }
    function With(box: Box, ov: Overlay): PairOverlay {
      if box.ToSmaller? then this.(toSmaller := ov) else this.(toLarger := ov)
    }
  }

  const NoPairWrites := PairOverlay(NoWrites, NoWrites)

  function PairView(p: PairDb, ov: PairOverlay): PairDb {
    PairDb(View(p.toSmaller, ov.toSmaller), View(p.toLarger, ov.toLarger))
  }

  function LayeredExecPair(p: PairDb, ov: PairOverlay, op: PairOp): Result<PairOverlay, Error> {
    match LayeredExec(p.At(op.box), ov.At(op.box), op.op)
    case Success(ov') => Success(ov.With(op.box, ov'))
    case Failure(e) => Failure(e)
  }

  /** One more operation in the layer extends the run that the layer shows. */
  lemma LayeredStep(p: PairDb, ov: PairOverlay, ops: seq<PairOp>, n: nat)
    requires n < |ops| && RunPair(p, ops[..n]) == Success(PairView(p, ov))
    ensures var r := LayeredExecPair(p, ov, ops[n]);
            RunPair(p, ops[..n + 1]) == if r.Success? then Success(PairView(p, r.value)) else Failure(r.error)
  {
    assert ops[..n + 1][..n] == ops[..n];
    LayeredExecRefines(p.At(ops[n].box), ov.At(ops[n].box), ops[n].op);
  }

  lemma LayeredStart(p: PairDb, ops: seq<PairOp>)
    ensures RunPair(p, ops[..0]) == Success(PairView(p, NoPairWrites))
  {
    ViewOfNoWrites(p.toSmaller);
    ViewOfNoWrites(p.toLarger);
  }

  ghost predicate Ascending(ids: seq<ID>) {
    forall i, j :: 0 <= i < j < |ids| ==> ids[i] <= ids[j]
  }

  function InsertID(ids: seq<ID>, x: ID): seq<ID> {
    if ids == [] || x <= ids[0] then [x] + ids else [ids[0]] + InsertID(ids[1..], x)
  }

  lemma {:induction false} InsertIDMembers(ids: seq<ID>, x: ID)
    ensures multiset(InsertID(ids, x)) == multiset(ids) + multiset{x}
  {
    if ids != [] && ids[0] < x {
      InsertIDMembers(ids[1..], x);
      assert ids == [ids[0]] + ids[1..];
    }
  }

  lemma {:induction false} InsertIDHasOnly(ids: seq<ID>, x: ID, y: ID)
    requires y in InsertID(ids, x)
    ensures y in ids || y == x
  {
    if ids != [] && ids[0] < x && y in InsertID(ids[1..], x) { InsertIDHasOnly(ids[1..], x, y); }
  }

  lemma AscendingCons(x: ID, ids: seq<ID>)
    requires Ascending(ids) && forall y :: y in ids ==> x <= y
    ensures Ascending([x] + ids)
  {
    var s := [x] + ids;
    forall i, j | 0 <= i < j < |s| ensures s[i] <= s[j] { assert s[j] == ids[j - 1] && ids[j - 1] in ids; }
  }

  lemma {:induction false} InsertIDKeepsOrder(ids: seq<ID>, x: ID)
    requires Ascending(ids)
    ensures Ascending(InsertID(ids, x))
  {
    if ids == [] || x <= ids[0] {
      AscendingCons(x, ids);
    } else {
      InsertIDKeepsOrder(ids[1..], x);
      forall y | y in InsertID(ids[1..], x) ensures ids[0] <= y { InsertIDHasOnly(ids[1..], x, y); }
      AscendingCons(ids[0], InsertID(ids[1..], x));
    }
  }

  function SortIDs(ids: seq<ID>): (r: seq<ID>)
    ensures multiset(r) == multiset(ids)
    ensures Ascending(r)
  {
    if ids == [] then []
    else
      var rest := SortIDs(ids[1..]);
      InsertIDMembers(rest, ids[0]);
      InsertIDKeepsOrder(rest, ids[0]);
      assert ids == [ids[0]] + ids[1..];
      InsertID(rest, ids[0])
  }
}
