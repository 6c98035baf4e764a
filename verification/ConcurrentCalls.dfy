/** Concurrent `Apply`, `Get` and `Indexed` calls on one base database, in any interleaving
    (chains/atomic/shared_memory.go). Locks move by the steps of `LockProtocol`; between them
    each call reads and writes through its own uncommitted layer. */
module ConcurrentCalls {
  import opened Common
  import opened AtomicState
  import opened SharedMemory
  import Apply
  import LockTable
  import L = LockProtocol

  /** A single read of one half of a pair's database. */
  datatype Probe = ValueOf(key: Bytes) | ListOf(tag: Bytes)
  datatype Answer = Entry(value: Option<DbElement>) | Keys(keys: seq<Bytes>)

  function Ask(s: Store, p: Probe): Answer {
    match p
    case ValueOf(key) => Entry(if key in s.values then Some(s.values[key]) else None)
    case ListOf(tag) => Keys(Listed(s.lists, tag))
  }

  /** `Get` and `Indexed` are both a number of reads of one half of one pair: at most one for each
      key, or one for each trait and one for each key up to the limit. */
  datatype Call = ApplyCall(work: Work, batch: seq<BatchOp>) | ReadCall(id: ID, box: Box, atMost: nat)

  datatype Outcome = Pending | Committed | Failed(error: Error) | Answered

  /** What a call has done: operations on the newest pair, layers of all its pairs, reads. */
  datatype Progress = Progress(done: nat, layers: map<ID, PairOverlay>, seen: seq<(Probe, Answer)>, outcome: Outcome)

  /** `order` lists the calls in the order in which they took effect. */
  datatype System = System(locks: L.State, db: Base, calls: seq<Call>, progress: seq<Progress>, order: seq<nat>)

  const Nothing := Progress(0, map[], [], Pending)

  ghost predicate PlanFits(call: Call, plan: seq<ID>) {
    match call
    case ApplyCall(work, _) => forall id :: id in plan <==> id in work
    case ReadCall(id, _, _) => plan == [id]
  }

  ghost predicate Init(s: System) {
    && L.Init(s.locks) && s.order == []
    && |s.calls| == |s.progress| == |s.locks.threads|
    && forall t :: 0 <= t < |s.calls| ==> s.progress[t] == Nothing && PlanFits(s.calls[t], s.locks.threads[t].plan)
  }

  function SetProgress(s: System, t: nat, p: Progress): System
    requires t < |s.progress|
  {
    s.(progress := s.progress[t := p])
  }

  ghost predicate InRange(s: System, t: nat) {
    t < |s.calls| == |s.progress| == |s.locks.threads|
  }

  /** Every operation of the newest pair has been done. */
  ghost predicate Finished(call: Call, th: L.Thread, p: Progress) {
    call.ApplyCall? && 0 < th.phase.n <= |th.plan| ==>
      th.plan[th.phase.n - 1] in call.work && p.done == |call.work[th.plan[th.phase.n - 1]]|
  }

  /** The base after all the layers and the batches of a call are written. */
  ghost function Written(db: Base, call: Call, p: Progress): Base
    requires call.ApplyCall? && call.work.Keys <= p.layers.Keys
  {
    Base(map id | id in db.shared.Keys + call.work.Keys ::
           if id in call.work then PairView(db.Pair(id), p.layers[id]) else db.shared[id],
         Write(db.rest, call.batch))
  }

  // The steps of call t.

  ghost predicate Move(s: System, s': System, t: nat) {
    && InRange(s, t)
    && (|| (L.Make(s.locks, s'.locks, t) && s.progress[t].outcome.Pending? && Finished(s.calls[t], s.locks.threads[t], s.progress[t]))
        || (L.Return(s.locks, s'.locks, t) && !s.progress[t].outcome.Pending?)
        || L.Release(s.locks, s'.locks, t)
        || L.Unlock(s.locks, s'.locks, t))
    && s' == s.(locks := s'.locks)
  }

  ghost predicate Acquire(s: System, s': System, t: nat) {
    && InRange(s, t)
    && L.Lock(s.locks, s'.locks, t)
    && var th := s.locks.threads[t];
    && th.phase.n < |th.plan|
    && var p := s.progress[t];
       s' == SetProgress(s, t, p.(done := 0, layers := p.layers[th.plan[th.phase.n] := NoPairWrites])).(locks := s'.locks)
  }

  /** One `RemoveValue` or `SetValue` on the newest pair; an error ends the call. */
  ghost predicate Operate(s: System, s': System, t: nat) {
    && InRange(s, t)
    && var (th, p, call) := (s.locks.threads[t], s.progress[t], s.calls[t]);
    && call.ApplyCall? && p.outcome.Pending? && th.phase.Working? && 0 < th.phase.n <= |th.plan|
    && var id := th.plan[th.phase.n - 1];
    && id in call.work && id in p.layers && p.done < |call.work[id]|
    && var r := LayeredExecPair(s.db.Pair(id), p.layers[id], call.work[id][p.done]);
       s' == if r.Success?
             then SetProgress(s, t, p.(done := p.done + 1, layers := p.layers[id := r.value]))
             else SetProgress(s, t, p.(outcome := Failed(r.error))).(order := s.order + [t])
  }

  /** The one write of an `Apply`: all its layers and its batches. */
  ghost predicate Commit(s: System, s': System, t: nat) {
    && InRange(s, t)
    && var (th, p, call) := (s.locks.threads[t], s.progress[t], s.calls[t]);
    && call.ApplyCall? && p.outcome.Pending? && th.phase == L.Working(|th.plan|) && Finished(call, th, p)
    && call.work.Keys <= p.layers.Keys
    && s' == SetProgress(s, t, p.(outcome := Committed))
             .(order := s.order + [t], db := Written(s.db, call, p))
  }

  ghost predicate Read(s: System, s': System, t: nat) {
    && InRange(s, t)
    && var (th, p, call) := (s.locks.threads[t], s.progress[t], s.calls[t]);
    && call.ReadCall? && p.outcome.Pending? && th.phase == L.Working(1) && |p.seen| < call.atMost
    && exists probe :: s' == SetProgress(s, t, p.(seen := p.seen + [(probe, Ask(s.db.Pair(call.id).At(call.box), probe))]))
  }

  ghost predicate Finish(s: System, s': System, t: nat) {
    && InRange(s, t)
    && var (th, p, call) := (s.locks.threads[t], s.progress[t], s.calls[t]);
    && call.ReadCall? && p.outcome.Pending? && th.phase == L.Working(1)
    && s' == SetProgress(s, t, p.(outcome := Answered)).(order := s.order + [t])
  }

  ghost predicate Step(s: System, s': System, t: nat) {
    || Move(s, s', t) || Acquire(s, s', t) || Operate(s, s', t)
    || Commit(s, s', t) || Read(s, s', t) || Finish(s, s', t)
  }

  // ---------------------------------------------------------------------------
  // Running the same calls one after another

  /** What a call leaves when it runs alone. */
  ghost function Effect(db: Base, call: Call): Base {
    if call.ApplyCall? && WorkSucceeds(db, call.work) then WorkResult(db, call.work, call.batch) else db
  }

  /** The base after the given calls, each alone from start to end. */
  ghost function Serial(db: Base, calls: seq<Call>, order: seq<nat>): Base
    requires forall i :: 0 <= i < |order| ==> order[i] < |calls|
  {
    if order == [] then db
    else Effect(Serial(db, calls, order[..|order| - 1]), calls[order[|order| - 1]])
  }

  /** The call got what it would get alone on `db`. */
  ghost predicate Agrees(db: Base, call: Call, p: Progress) {
    match call
    case ApplyCall(work, _) =>
      if WorkSucceeds(db, work) then p.outcome == Committed
      else p.outcome.Failed? && FirstError(db, work, p.outcome.error)
    case ReadCall(id, box, _) =>
      p.outcome == Answered &&
      forall i :: 0 <= i < |p.seen| ==> p.seen[i].1 == Ask(db.Pair(id).At(box), p.seen[i].0)
  }

  // ---------------------------------------------------------------------------
  // The invariant

  /** How many operations of the i-th pair of the plan the call has done. */
  ghost function DoneAt(th: L.Thread, p: Progress, total: nat, i: nat): nat {
    if th.phase.Working? && i == th.phase.n - 1 then p.done else total
  }

  /** The layer over the current base shows the operations done so far on the current base. */
  ghost predicate LayerCurrent(db: Base, work: Work, th: L.Thread, p: Progress, i: nat)
    requires i < |th.plan|
  {
    var id := th.plan[i];
    && id in work && id in p.layers
    && var n := DoneAt(th, p, |work[id]|, i);
       n <= |work[id]| && RunPair(db.Pair(id), work[id][..n]) == Success(PairView(db.Pair(id), p.layers[id]))
  }

  /** A pending call sees, pair by pair, the base as it is now. */
  ghost predicate Current(db: Base, call: Call, th: L.Thread, p: Progress) {
    && th.phase.n <= |th.plan| && PlanFits(call, th.plan)
    && (p.outcome.Pending? ==>
          && (th.phase.Working? || th.phase.Waiting?)
          && match call
             case ApplyCall(work, _) => forall i :: 0 <= i < th.phase.n ==> LayerCurrent(db, work, th, p, i)
             case ReadCall(id, box, _) =>
               && (forall i :: 0 <= i < |p.seen| ==> p.seen[i].1 == Ask(db.Pair(id).At(box), p.seen[i].0))
               && (p.seen != [] ==> th.phase.n == 1))
  }

  ghost predicate Sizes(s: System) {
    && |s.calls| == |s.progress| == |s.locks.threads|
    && (forall i :: 0 <= i < |s.order| ==> s.order[i] < |s.calls|)
  }

  ghost predicate AllCurrent(s: System)
    requires Sizes(s)
  {
    forall t :: 0 <= t < |s.calls| ==> Current(s.db, s.calls[t], s.locks.threads[t], s.progress[t])
  }

  /** Every call that took effect did so as it would have at its place in the serial order. */
  ghost predicate SerialSoFar(init: Base, s: System)
    requires Sizes(s)
  {
    && s.db == Serial(init, s.calls, s.order)
    && forall k :: 0 <= k < |s.order| ==>
         Agrees(Serial(init, s.calls, s.order[..k]), s.calls[s.order[k]], s.progress[s.order[k]])
  }

  /** A call is in the order exactly once it took effect, and only once. */
  ghost predicate OrderedOnce(s: System)
    requires Sizes(s)
  {
    && NoDuplicates(s.order)
    && forall t :: 0 <= t < |s.calls| ==> (t in s.order <==> !s.progress[t].outcome.Pending?)
  }

  ghost predicate Inv(init: Base, s: System) {
    && Sizes(s) && L.Inv(s.locks) && AllCurrent(s) && SerialSoFar(init, s) && OrderedOnce(s)
  }

  lemma InitInv(s: System)
    requires Init(s)
    ensures Inv(s.db, s)
  {
    L.InitInv(s.locks);
  }

  /** What a pending call sees survives any change outside its region. */
  lemma CurrentFrame(db: Base, db': Base, call: Call, th: L.Thread, p: Progress)
    requires Current(db, call, th, p)
    requires forall i :: 0 <= i < th.phase.n ==> db'.Pair(th.plan[i]) == db.Pair(th.plan[i])
    ensures Current(db', call, th, p)
  {
    if p.outcome.Pending? && call.ApplyCall? {
      forall i | 0 <= i < th.phase.n ensures LayerCurrent(db', call.work, th, p, i) {
        assert LayerCurrent(db, call.work, th, p, i);
      }
    } else if p.outcome.Pending? && p.seen != [] {
      assert th.plan[0] == call.id;
    }
  }

  /** The serial past is untouched by a step that only changes pending calls' progress. */
  lemma PastFrame(init: Base, s: System, s': System)
    requires Sizes(s) && SerialSoFar(init, s) && Sizes(s') && s'.calls == s.calls
    requires s.order <= s'.order
    requires forall t :: 0 <= t < |s.calls| && t in s.order ==>
               s'.progress[t].outcome == s.progress[t].outcome && s'.progress[t].seen == s.progress[t].seen
    ensures forall k :: 0 <= k < |s.order| ==>
              Agrees(Serial(init, s'.calls, s'.order[..k]), s'.calls[s'.order[k]], s'.progress[s'.order[k]])
    ensures Serial(init, s'.calls, s'.order[..|s.order|]) == s.db
  {
    assert s'.order[..|s.order|] == s.order;
    forall k | 0 <= k < |s.order|
      ensures Agrees(Serial(init, s'.calls, s'.order[..k]), s'.calls[s'.order[k]], s'.progress[s'.order[k]])
    {
      assert s'.order[..k] == s.order[..k] && s'.order[k] == s.order[k];
      assert Agrees(Serial(init, s.calls, s.order[..k]), s.calls[s.order[k]], s.progress[s.order[k]]);
    }
  }

  /** No outcome changes, so no order. */
  lemma QuietOrder(s: System, s': System)
    requires Sizes(s) && OrderedOnce(s) && s'.calls == s.calls && s'.order == s.order
    requires |s'.progress| == |s'.locks.threads| == |s.calls|
    requires forall u :: 0 <= u < |s.calls| ==> s'.progress[u].outcome == s.progress[u].outcome
    ensures Sizes(s') && OrderedOnce(s')
  {}

  /** The past of a step that takes no effect yet. */
  lemma QuietStep(init: Base, s: System, s': System, t: nat)
    requires Sizes(s) && SerialSoFar(init, s) && OrderedOnce(s) && t < |s.calls|
    requires |s'.progress| == |s'.locks.threads| == |s.calls|
    requires s' == SetProgress(s, t, s'.progress[t]).(locks := s'.locks)
    requires s'.progress[t].outcome == s.progress[t].outcome
    requires s'.progress[t].seen == s.progress[t].seen || s.progress[t].outcome.Pending?
    ensures Sizes(s') && SerialSoFar(init, s') && OrderedOnce(s')
  {
    QuietOrder(s, s');
    PastFrame(init, s, s');
    assert s'.order[..|s.order|] == s.order;
  }

  /** The step in which call t takes effect on the current base. */
  ghost predicate TakesEffect(s: System, s': System, t: nat) {
    && Sizes(s) && t < |s.calls| == |s'.progress| && s.progress[t].outcome.Pending?
    && s' == SetProgress(s, t, s'.progress[t]).(order := s.order + [t], db := Effect(s.db, s.calls[t]))
    && Agrees(s.db, s.calls[t], s'.progress[t])
  }

  lemma EffectIsOrdered(s: System, s': System, t: nat)
    requires Sizes(s) && OrderedOnce(s) && t < |s.calls| == |s'.progress|
    requires s.progress[t].outcome.Pending? && !s'.progress[t].outcome.Pending?
    requires s'.calls == s.calls && s'.order == s.order + [t] && s'.progress == s.progress[t := s'.progress[t]]
    requires s'.locks == s.locks
    ensures Sizes(s') && OrderedOnce(s')
  {
    assert t !in s.order;
    assert s'.order[|s.order|] == t;
    forall u | 0 <= u < |s'.calls| ensures u in s'.order <==> !s'.progress[u].outcome.Pending? {
      assert u in s.order <==> !s.progress[u].outcome.Pending?;
    }
  }

  /** A call that takes effect now extends the serial run if it agrees with the current base. */
  lemma EffectExtendsOrder(init: Base, s: System, s': System, t: nat)
    requires Sizes(s) && SerialSoFar(init, s) && OrderedOnce(s) && TakesEffect(s, s', t)
    ensures Sizes(s') && SerialSoFar(init, s') && OrderedOnce(s')
  {
    var n := |s.order|;
    EffectIsOrdered(s, s', t);
    PastFrame(init, s, s');
    assert s'.order[..n] == s.order && s'.order[n] == t;
  }

  lemma CallersAreValid(locks: L.State, t: nat)
    requires L.Inv(locks) && t < |locks.threads|
    ensures locks.threads[t].Valid()
  {
    assert L.Linked(locks, locks.threads[t]);
  }

  // What each step does to what its own caller sees.

  lemma MakeCurrent(db: Base, call: Call, th: L.Thread, th': L.Thread, p: Progress)
    requires Current(db, call, th, p) && th.phase.Working? && p.outcome.Pending?
    requires Finished(call, th, p)
    requires th'.plan == th.plan && th'.phase.Waiting? && th'.phase.n == th.phase.n
    ensures Current(db, call, th', p)
  {
    if call.ApplyCall? {
      forall i | 0 <= i < th'.phase.n ensures LayerCurrent(db, call.work, th', p, i) {
        assert LayerCurrent(db, call.work, th, p, i);
      }
    }
  }

  lemma AcquireCurrent(db: Base, call: Call, th: L.Thread, th': L.Thread, p: Progress, p': Progress)
    requires Current(db, call, th, p) && th.Valid() && th.phase.Waiting?
    requires th'.plan == th.plan && th'.phase == L.Working(th.phase.n + 1)
    requires p' == p.(done := 0, layers := p.layers[th.plan[th.phase.n] := NoPairWrites])
    ensures Current(db, call, th', p')
  {
    var n := th.phase.n;
    if call.ApplyCall? && p.outcome.Pending? {
      forall i | 0 <= i < th'.phase.n ensures LayerCurrent(db, call.work, th', p', i) {
        if i < n {
          assert LayerCurrent(db, call.work, th, p, i);
          assert th.plan[i] != th.plan[n];
        } else {
          LayeredStart(db.Pair(th.plan[n]), call.work[th.plan[n]]);
        }
      }
    }
  }

  /** The pairs before the newest one have had all their operations. */
  lemma EarlierSucceeded(db: Base, call: Call, th: L.Thread, p: Progress, id: ID)
    requires Current(db, call, th, p) && th.Valid() && call.ApplyCall? && p.outcome.Pending?
    requires th.phase.Working? && th.phase.n > 0 && id in call.work && id < th.plan[th.phase.n - 1]
    ensures RunPair(db.Pair(id), call.work[id]).Success?
  {
    var i :| 0 <= i < |th.plan| && th.plan[i] == id;
    assert i < th.phase.n - 1;
    assert LayerCurrent(db, call.work, th, p, i);
    assert call.work[id][..|call.work[id]|] == call.work[id];
  }

  lemma OperateSucceeds(db: Base, call: Call, th: L.Thread, p: Progress, ov: PairOverlay)
    requires Current(db, call, th, p) && th.Valid() && call.ApplyCall? && p.outcome.Pending?
    requires th.phase.Working? && th.phase.n > 0
    requires var id := th.plan[th.phase.n - 1];
             id in call.work && id in p.layers && p.done < |call.work[id]| &&
             LayeredExecPair(db.Pair(id), p.layers[id], call.work[id][p.done]) == Success(ov)
    ensures Current(db, call, th, p.(done := p.done + 1, layers := p.layers[th.plan[th.phase.n - 1] := ov]))
  {
    var n := th.phase.n - 1;
    var id := th.plan[n];
    assert LayerCurrent(db, call.work, th, p, n);
    LayeredStep(db.Pair(id), p.layers[id], call.work[id], p.done);
    var p' := p.(done := p.done + 1, layers := p.layers[id := ov]);
    forall i | 0 <= i < th.phase.n ensures LayerCurrent(db, call.work, th, p', i) {
      assert LayerCurrent(db, call.work, th, p, i);
      if i < n { assert th.plan[i] != id; }
    }
  }

  /** A failing operation gives the error that the call would get alone. */
  lemma OperateFails(db: Base, call: Call, th: L.Thread, p: Progress, e: Error)
    requires Current(db, call, th, p) && th.Valid() && call.ApplyCall? && p.outcome.Pending?
    requires th.phase.Working? && th.phase.n > 0
    requires var id := th.plan[th.phase.n - 1];
             id in call.work && id in p.layers && p.done < |call.work[id]| &&
             LayeredExecPair(db.Pair(id), p.layers[id], call.work[id][p.done]) == Failure(e)
    ensures !WorkSucceeds(db, call.work) && FirstError(db, call.work, e)
  {
    var n := th.phase.n - 1;
    var id := th.plan[n];
    assert LayerCurrent(db, call.work, th, p, n);
    LayeredStep(db.Pair(id), p.layers[id], call.work[id], p.done);
    RunPairFailsForGood(db.Pair(id), call.work[id], p.done + 1);
    forall id' | id' in call.work && id' < id ensures RunPair(db.Pair(id'), call.work[id']).Success? {
      EarlierSucceeded(db, call, th, p, id');
    }
  }

  lemma LayersAreFinal(db: Base, call: Call, th: L.Thread, p: Progress, id: ID)
    requires Current(db, call, th, p) && call.ApplyCall? && p.outcome.Pending? && id in call.work
    requires th.phase == L.Working(|th.plan|) && Finished(call, th, p)
    ensures id in p.layers && RunPair(db.Pair(id), call.work[id]) == Success(PairView(db.Pair(id), p.layers[id]))
  {
    var i :| 0 <= i < |th.plan| && th.plan[i] == id;
    assert LayerCurrent(db, call.work, th, p, i);
    assert call.work[id][..|call.work[id]|] == call.work[id];
  }

  /** At its commit a call's layers are exactly the serial result on the base it commits to. */
  lemma CommitIsSerial(db: Base, call: Call, th: L.Thread, p: Progress)
    requires Current(db, call, th, p) && call.ApplyCall? && p.outcome.Pending?
    requires th.phase == L.Working(|th.plan|) && Finished(call, th, p)
    ensures call.work.Keys <= p.layers.Keys
    ensures WorkSucceeds(db, call.work)
    ensures Written(db, call, p) == WorkResult(db, call.work, call.batch)
  {
    forall id | id in call.work
      ensures id in p.layers && RunPair(db.Pair(id), call.work[id]) == Success(PairView(db.Pair(id), p.layers[id]))
    {
      LayersAreFinal(db, call, th, p, id);
    }
  }

  // What each step keeps.

  lemma MoveKeepsInv(init: Base, s: System, s': System, t: nat)
    requires Inv(init, s) && Move(s, s', t)
    ensures Inv(init, s')
  {
    L.StepKeepsInv(s.locks, s'.locks, t);
    QuietStep(init, s, s', t);
    MoveKeepsCurrent(s, s', t);
  }

  lemma MoveKeepsCurrent(s: System, s': System, t: nat)
    requires Sizes(s) && Sizes(s') && AllCurrent(s) && Move(s, s', t)
    ensures AllCurrent(s')
  {
    forall u | 0 <= u < |s'.calls| ensures Current(s'.db, s'.calls[u], s'.locks.threads[u], s'.progress[u]) {
      assert Current(s.db, s.calls[u], s.locks.threads[u], s.progress[u]);
      MoveCurrent(s, s', t, u);
    }
  }

  lemma MoveCurrent(s: System, s': System, t: nat, u: nat)
    requires Move(s, s', t) && u < |s.calls| && Current(s.db, s.calls[u], s.locks.threads[u], s.progress[u])
    ensures |s'.locks.threads| == |s.calls| && Current(s'.db, s'.calls[u], s'.locks.threads[u], s'.progress[u])
  {
    if u == t && s.progress[t].outcome.Pending? {
      MakeCurrent(s.db, s.calls[t], s.locks.threads[t], s'.locks.threads[t], s.progress[t]);
    }
  }

  lemma AcquireKeepsInv(init: Base, s: System, s': System, t: nat)
    requires Inv(init, s) && Acquire(s, s', t)
    ensures Inv(init, s')
  {
    L.LockKeepsInv(s.locks, s'.locks, t);
    QuietStep(init, s, s', t);
    CallersAreValid(s.locks, t);
    forall u | 0 <= u < |s'.calls| ensures Current(s'.db, s'.calls[u], s'.locks.threads[u], s'.progress[u]) {
      assert Current(s.db, s.calls[u], s.locks.threads[u], s.progress[u]);
      if u == t {
        AcquireCurrent(s.db, s.calls[t], s.locks.threads[t], s'.locks.threads[t], s.progress[t], s'.progress[t]);
      }
    }
  }

  lemma OthersStayCurrent(s: System, s': System, t: nat)
    requires Sizes(s) && Sizes(s') && AllCurrent(s) && t < |s.calls|
    requires s'.locks == s.locks && s'.db == s.db && s'.calls == s.calls && s'.progress == s.progress[t := s'.progress[t]]
    requires Current(s.db, s.calls[t], s.locks.threads[t], s'.progress[t])
    ensures AllCurrent(s')
  {
    forall u | 0 <= u < |s'.calls| ensures Current(s'.db, s'.calls[u], s'.locks.threads[u], s'.progress[u]) {
      assert Current(s.db, s.calls[u], s.locks.threads[u], s.progress[u]);
    }
  }

  /** A step of call t that leaves locks and base alone, quiet or taking effect. */
  lemma LocalStepKeepsInv(init: Base, s: System, s': System, t: nat)
    requires Inv(init, s) && t < |s.calls| == |s'.progress| && s'.locks == s.locks && s'.db == s.db
    requires if s'.progress[t].outcome.Pending?
             then s.progress[t].outcome.Pending? && s' == SetProgress(s, t, s'.progress[t])
             else TakesEffect(s, s', t)
    requires Current(s.db, s.calls[t], s.locks.threads[t], s'.progress[t])
    ensures Inv(init, s')
  {
    if s'.progress[t].outcome.Pending? { QuietStep(init, s, s', t); } else { EffectExtendsOrder(init, s, s', t); }
    OthersStayCurrent(s, s', t);
  }

  lemma OperateKeepsInv(init: Base, s: System, s': System, t: nat)
    requires Inv(init, s) && Operate(s, s', t)
    ensures Inv(init, s')
  {
    CallersAreValid(s.locks, t);
    assert Current(s.db, s.calls[t], s.locks.threads[t], s.progress[t]);
    OperateEffect(s, s', t);
    LocalStepKeepsInv(init, s, s', t);
  }

  lemma OperateEffect(s: System, s': System, t: nat)
    requires Sizes(s) && Operate(s, s', t) && s.locks.threads[t].Valid()
    requires Current(s.db, s.calls[t], s.locks.threads[t], s.progress[t])
    ensures |s'.progress| == |s.calls|
    ensures if s'.progress[t].outcome.Pending?
            then s' == SetProgress(s, t, s'.progress[t])
            else TakesEffect(s, s', t)
    ensures s'.locks == s.locks && s'.db == s.db
    ensures Current(s'.db, s'.calls[t], s'.locks.threads[t], s'.progress[t])
  {
    var (th, p, call) := (s.locks.threads[t], s.progress[t], s.calls[t]);
    var id := th.plan[th.phase.n - 1];
    var r := LayeredExecPair(s.db.Pair(id), p.layers[id], call.work[id][p.done]);
    if r.Success? { OperateSucceeds(s.db, call, th, p, r.value); } else { OperateFails(s.db, call, th, p, r.error); }
  }

  lemma CommitKeepsInv(init: Base, s: System, s': System, t: nat)
    requires Inv(init, s) && Commit(s, s', t)
    ensures Inv(init, s')
  {
    assert Current(s.db, s.calls[t], s.locks.threads[t], s.progress[t]);
    CommitIsSerial(s.db, s.calls[t], s.locks.threads[t], s.progress[t]);
    EffectExtendsOrder(init, s, s', t);
    forall u | 0 <= u < |s'.calls| ensures Current(s'.db, s'.calls[u], s'.locks.threads[u], s'.progress[u]) {
      assert Current(s.db, s.calls[u], s.locks.threads[u], s.progress[u]);
      if u != t {
        CommitElsewhere(s, s', t, u);
        CurrentFrame(s.db, s'.db, s.calls[u], s.locks.threads[u], s.progress[u]);
      }
    }
  }

  /** A pair in a caller's region is in no other caller's work. */
  lemma WorkIsElsewhere(s: System, t: nat, u: nat, i: nat)
    requires L.Inv(s.locks) && InRange(s, t) && s.calls[t].ApplyCall? && u < |s.calls| && u != t
    requires s.locks.threads[t].phase == L.Working(|s.locks.threads[t].plan|)
    requires PlanFits(s.calls[t], s.locks.threads[t].plan)
    requires i < s.locks.threads[u].phase.n <= |s.locks.threads[u].plan|
    ensures s.locks.threads[u].plan[i] !in s.calls[t].work
  {
    var th, mine := s.locks.threads[u], s.locks.threads[t];
    assert mine.plan[..mine.phase.n] == mine.plan;
    assert th.plan[..th.phase.n][i] == th.plan[i];
    if mine.InRegion(th.plan[i]) { L.RegionsExclude(s.locks, t, u, th.plan[i]); }
  }

  /** A commit writes only pairs in its caller's region, so no other caller's. */
  lemma CommitElsewhere(s: System, s': System, t: nat, u: nat)
    requires L.Inv(s.locks) && Commit(s, s', t) && u < |s.calls| && u != t
    requires PlanFits(s.calls[t], s.locks.threads[t].plan) && s.locks.threads[u].phase.n <= |s.locks.threads[u].plan|
    ensures var th := s.locks.threads[u];
            forall i :: 0 <= i < th.phase.n ==> s'.db.Pair(th.plan[i]) == s.db.Pair(th.plan[i])
  {
    forall i | 0 <= i < s.locks.threads[u].phase.n
      ensures s.locks.threads[u].plan[i] !in s.calls[t].work
    {
      WorkIsElsewhere(s, t, u, i);
    }
  }

  lemma ReadKeepsInv(init: Base, s: System, s': System, t: nat)
    requires Inv(init, s) && (Read(s, s', t) || Finish(s, s', t))
    ensures Inv(init, s')
  {
    assert Current(s.db, s.calls[t], s.locks.threads[t], s.progress[t]);
    LocalStepKeepsInv(init, s, s', t);
  }

  lemma StepKeepsInv(init: Base, s: System, s': System, t: nat)
    requires Inv(init, s) && Step(s, s', t)
    ensures Inv(init, s')
  {
    if Move(s, s', t) { MoveKeepsInv(init, s, s', t); }
    else if Acquire(s, s', t) { AcquireKeepsInv(init, s, s', t); }
    else if Operate(s, s', t) { OperateKeepsInv(init, s, s', t); }
    else if Commit(s, s', t) { CommitKeepsInv(init, s, s', t); }
    else { ReadKeepsInv(init, s, s', t); }
  }

  // ---------------------------------------------------------------------------
  // Whole runs

  ghost predicate Next(s: System, s': System) { exists t: nat :: Step(s, s', t) }

  ghost predicate Run(states: seq<System>) {
    && |states| > 0 && Init(states[0])
    && forall i :: 0 <= i < |states| - 1 ==> Next(states[i], states[i + 1])
  }

  lemma {:induction false} RunKeepsInv(states: seq<System>, k: nat)
    requires Run(states) && k < |states|
    ensures Inv(states[0].db, states[k])
  {
    if k == 0 {
      InitInv(states[0]);
    } else {
      RunKeepsInv(states, k - 1);
      assert Next(states[k - 1], states[k - 1 + 1]);
      var t: nat :| Step(states[k - 1], states[k], t);
      StepKeepsInv(states[0].db, states[k - 1], states[k], t);
    }
  }

  /** Every concurrent run is serializable: at each moment the base is what the calls that
      have taken effect leave when run one after another in that order, each with the same
      result - committed, failed with the same error, or the same answers to its reads. */
  lemma ConcurrentRunsAreSerial(states: seq<System>, k: nat)
    requires Run(states) && k < |states|
    ensures Sizes(states[k])
    ensures states[k].db == Serial(states[0].db, states[k].calls, states[k].order)
    ensures forall j :: 0 <= j < |states[k].order| ==>
              var s := states[k];
              Agrees(Serial(states[0].db, s.calls, s.order[..j]), s.calls[s.order[j]], s.progress[s.order[j]])
    ensures NoDuplicates(states[k].order)
    ensures forall t :: 0 <= t < |states[k].calls| ==>
              (t in states[k].order <==> !states[k].progress[t].outcome.Pending?)
  {
    RunKeepsInv(states, k);
  }

  lemma StepOrder(s: System, s': System, t: nat)
    requires Step(s, s', t)
    ensures s.order <= s'.order && s'.calls == s.calls
  {}

  /** The order is only appended to. */
  lemma {:induction false} OrderGrows(states: seq<System>, j: nat, k: nat)
    requires Run(states) && j <= k < |states|
    ensures states[j].order <= states[k].order && states[j].calls == states[k].calls
  {
    if j < k {
      OrderGrows(states, j, k - 1);
      assert Next(states[k - 1], states[k - 1 + 1]);
      var t: nat :| Step(states[k - 1], states[k], t);
      StepOrder(states[k - 1], states[k], t);
    }
  }

  /** So the serial order respects real time: a call that has taken effect at some moment comes
      before every call that has not. */
  lemma RealTimeOrder(states: seq<System>, j: nat, k: nat, a: nat, b: nat)
    requires Run(states) && j <= k < |states| && a < |states[k].order| && b < |states[k].order|
    requires states[k].order[a] in states[j].order && states[k].order[b] !in states[j].order
    ensures a < b
  {
    OrderGrows(states, j, k);
    ConcurrentRunsAreSerial(states, k);
    var (early, late) := (states[j].order, states[k].order);
    var i :| 0 <= i < |early| && early[i] == late[a];
    assert late[i] == late[a];
  }

  lemma {:induction false} SerialKeepsIndex(db: Base, calls: seq<Call>, order: seq<nat>)
    requires BaseExact(db) && forall i :: 0 <= i < |order| ==> order[i] < |calls|
    ensures BaseExact(Serial(db, calls, order))
  {
    if order != [] {
      var (before, call) := (Serial(db, calls, order[..|order| - 1]), calls[order[|order| - 1]]);
      SerialKeepsIndex(db, calls, order[..|order| - 1]);
      if call.ApplyCall? && WorkSucceeds(before, call.work) { WorkKeepsIndex(before, call.work, call.batch); }
    }
  }

  /** In every state of every interleaving each trait index lists exactly the present elements. */
  lemma IndexExactThroughout(states: seq<System>, k: nat)
    requires Run(states) && k < |states| && BaseExact(states[0].db)
    ensures BaseExact(states[k].db)
  {
    ConcurrentRunsAreSerial(states, k);
    SerialKeepsIndex(states[0].db, states[k].calls, states[k].order);
  }

  // ---------------------------------------------------------------------------
  // Reads among the others

  /** The reads of a `Get`: the entry under each key, in order. */
  ghost predicate ReadsKeys(p: Progress, keys: seq<Bytes>) {
    |p.seen| == |keys| && forall i :: 0 <= i < |keys| ==> p.seen[i].0 == ValueOf(keys[i])
  }

  /** Every entry read is present, and these are the values. */
  ghost predicate ReadValues(p: Progress, values: seq<Bytes>) {
    && |p.seen| == |values|
    && forall i :: 0 <= i < |values| ==>
         match p.seen[i].1
         case Entry(Some(d)) => d.present && d.value == values[i]
         case _ => false
  }

  lemma ReadsGiveValues(box: Store, p: Progress, keys: seq<Bytes>, values: seq<Bytes>)
    requires ReadsKeys(p, keys) && forall i :: 0 <= i < |p.seen| ==> p.seen[i].1 == Ask(box, p.seen[i].0)
    ensures ReadValues(p, values) <==> Apply.Values(box, keys, values)
  {
    forall i | 0 <= i < |keys| ensures p.seen[i].1 == Ask(box, ValueOf(keys[i])) {}
  }

  /** A `Get` among any other calls gives the values that the inbound half held at the call's place
      in the serial order, and none of another moment. */
  lemma GetIsAtomic(states: seq<System>, k: nat, j: nat, keys: seq<Bytes>, values: seq<Bytes>)
    requires Run(states) && k < |states| && Sizes(states[k]) && j < |states[k].order|
    requires states[k].calls[states[k].order[j]].ReadCall? && ReadsKeys(states[k].progress[states[k].order[j]], keys)
    ensures var s := states[k];
            var call := s.calls[s.order[j]];
            ReadValues(s.progress[s.order[j]], values) <==>
              Apply.Values(Serial(states[0].db, s.calls, s.order[..j]).Pair(call.id).At(call.box), keys, values)
  {
    ConcurrentRunsAreSerial(states, k);
    var s := states[k];
    var (before, call) := (Serial(states[0].db, s.calls, s.order[..j]), s.calls[s.order[j]]);
    assert Agrees(before, call, s.progress[s.order[j]]);
    ReadsGiveValues(before.Pair(call.id).At(call.box), s.progress[s.order[j]], keys, values);
  }

  /** All reads of a call show the half it reads as it was at one moment: entries and lists alike. */
  lemma ReadsAreOfOneMoment(states: seq<System>, k: nat, j: nat, i: nat)
    requires Run(states) && k < |states| && Sizes(states[k]) && j < |states[k].order|
    requires states[k].calls[states[k].order[j]].ReadCall? && i < |states[k].progress[states[k].order[j]].seen|
    ensures var s := states[k];
            var (call, read) := (s.calls[s.order[j]], s.progress[s.order[j]].seen[i]);
            var box := Serial(states[0].db, s.calls, s.order[..j]).Pair(call.id).At(call.box);
            && (read.0.ValueOf? && read.0.key in box.values ==> read.1 == Entry(Some(box.values[read.0.key])))
            && (read.0.ValueOf? && read.0.key !in box.values ==> read.1 == Entry(None))
            && (read.0.ListOf? ==> read.1 == Keys(Listed(box.lists, read.0.tag)))
  {
    ConcurrentRunsAreSerial(states, k);
    var s := states[k];
    assert Agrees(Serial(states[0].db, s.calls, s.order[..j]), s.calls[s.order[j]], s.progress[s.order[j]]);
  }

  /** The requests of an `Apply` among any other calls are delivered at its place in the serial order. */
  lemma ApplyIsAtomic(states: seq<System>, k: nat, j: nat, hash: (ID, ID) -> ID, chain: ID, requests: map<ID, Requests>)
    requires Run(states) && k < |states| && Sizes(states[k]) && j < |states[k].order| && Injective(hash)
    requires var call := states[k].calls[states[k].order[j]]; call.ApplyCall? && call.work == WorkOf(hash, chain, requests)
    ensures var s := states[k];
            var before := Serial(states[0].db, s.calls, s.order[..j]);
            var after := Serial(states[0].db, s.calls, s.order[..j + 1]);
            && (s.progress[s.order[j]].outcome.Committed? <==> RequestsSucceed(hash, before, chain, requests))
            && (if s.progress[s.order[j]].outcome.Committed? then Delivered(hash, before, after, chain, requests) else after == before)
  {
    ConcurrentRunsAreSerial(states, k);
    var s := states[k];
    var (before, call) := (Serial(states[0].db, s.calls, s.order[..j]), s.calls[s.order[j]]);
    assert Agrees(before, call, s.progress[s.order[j]]);
    assert s.order[..j + 1][..j] == s.order[..j];
    WorkSucceedsIff(hash, before, chain, requests);
    if WorkSucceeds(before, call.work) { WorkDelivers(hash, before, chain, requests, call.batch); }
  }

  // ---------------------------------------------------------------------------
  // Progress

  ghost predicate CanStep(s: System, t: nat) { exists s' :: Step(s, s', t) }

  lemma UnblockedCanStep(init: Base, s: System, t: nat)
    requires Inv(init, s) && t < |s.calls| && !s.locks.threads[t].Done() && !L.Blocked(s.locks, t)
    ensures CanStep(s, t)
  {
    var (th, p) := (s.locks.threads[t], s.progress[t]);
    assert Current(s.db, s.calls[t], th, p);
    CallersAreValid(s.locks, t);
    if th.phase.Waiting? {
      WaitingCanStep(s, t);
    } else if th.phase.Working? && p.outcome.Pending? {
      PendingCanStep(s, t);
    } else if th.phase.Working? {
      ReturningCanStep(s, t);
    } else {
      LeavingCanStep(s, t);
    }
  }

  lemma ReturningCanStep(s: System, t: nat)
    requires Sizes(s) && t < |s.calls| && s.locks.threads[t].phase.Working? && !s.progress[t].outcome.Pending?
    ensures CanStep(s, t)
  {
    var th := s.locks.threads[t];
    var locks' := L.SetThread(s.locks, t, th.(phase := L.Releasing(th.phase.n)));
    assert L.Return(s.locks, locks', t);
    assert Move(s, s.(locks := locks'), t);
    assert Step(s, s.(locks := locks'), t);
  }

  lemma LeavingCanStep(s: System, t: nat)
    requires Sizes(s) && t < |s.calls| && L.Inv(s.locks) && !s.locks.threads[t].Done()
    requires s.locks.threads[t].phase.Releasing? || s.locks.threads[t].phase.Unlocking?
    ensures CanStep(s, t)
  {
    L.UnblockedCanStep(s.locks, t);
    var locks' :| L.Step(s.locks, locks', t);
    assert Move(s, s.(locks := locks'), t);
    assert Step(s, s.(locks := locks'), t);
  }

  lemma WaitingCanStep(s: System, t: nat)
    requires Sizes(s) && t < |s.calls| && s.locks.threads[t].Valid()
    requires s.locks.threads[t].phase.Waiting? && !L.Blocked(s.locks, t)
    ensures CanStep(s, t)
  {
    var (th, p) := (s.locks.threads[t], s.progress[t]);
    var locks' := L.SetThread(s.locks, t, th.(phase := L.Working(th.phase.n + 1), held := th.held + [th.phase.lock]))
                   .(owner := s.locks.owner[th.phase.lock := t]);
    var s' := SetProgress(s, t, p.(done := 0, layers := p.layers[th.plan[th.phase.n] := NoPairWrites])).(locks := locks');
    assert Acquire(s, s', t);
    assert Step(s, s', t);
  }

  lemma PendingCanStep(s: System, t: nat)
    requires Sizes(s) && t < |s.calls| && s.locks.threads[t].phase.Working? && s.progress[t].outcome.Pending?
    requires Current(s.db, s.calls[t], s.locks.threads[t], s.progress[t])
    ensures CanStep(s, t)
  {
    var (th, p, call) := (s.locks.threads[t], s.progress[t], s.calls[t]);
    var n := th.phase.n;
    var s';
    if call.ApplyCall? && n > 0 && p.done < |call.work[th.plan[n - 1]]| {
      assert LayerCurrent(s.db, call.work, th, p, n - 1);
      var id := th.plan[n - 1];
      var r := LayeredExecPair(s.db.Pair(id), p.layers[id], call.work[id][p.done]);
      s' := if r.Success?
            then SetProgress(s, t, p.(done := p.done + 1, layers := p.layers[id := r.value]))
            else SetProgress(s, t, p.(outcome := Failed(r.error))).(order := s.order + [t]);
      assert Operate(s, s', t);
    } else {
      if call.ApplyCall? && n > 0 { assert LayerCurrent(s.db, call.work, th, p, n - 1); }
      assert Finished(call, th, p);
      if n < |th.plan| {
        var (table, lock) := LockTable.MakeLock(s.locks.table, th.plan[n]);
        s' := s.(locks := L.SetThread(s.locks, t, th.(phase := L.Waiting(n, lock))).(table := table));
        assert L.Make(s.locks, s'.locks, t);
        assert Move(s, s', t);
      } else if call.ApplyCall? {
        forall id | id in call.work ensures id in p.layers {
          var i :| 0 <= i < |th.plan| && th.plan[i] == id;
          assert LayerCurrent(s.db, call.work, th, p, i);
        }
        s' := SetProgress(s, t, p.(outcome := Committed))
              .(order := s.order + [t], db := Written(s.db, call, p));
        assert Commit(s, s', t);
      } else {
        s' := SetProgress(s, t, p.(outcome := Answered)).(order := s.order + [t]);
        assert Finish(s, s', t);
      }
    }
    assert Step(s, s', t);
  }

  /** No reachable state is stuck: while some call is not finished, some call can step. */
  lemma NoCallIsStuck(states: seq<System>, k: nat, t: nat)
    requires Run(states) && k < |states| && t < |states[k].calls|
    requires |states[k].locks.threads| == |states[k].calls| && !states[k].locks.threads[t].Done()
    ensures exists u: nat :: u < |states[k].calls| && CanStep(states[k], u)
  {
    var s := states[k];
    RunKeepsInv(states, k);
    if !L.Blocked(s.locks, t) {
      UnblockedCanStep(states[0].db, s, t);
    } else {
      var h := L.UnblockedHolder(s.locks, t);
      UnblockedCanStep(states[0].db, s, h);
    }
  }

  // ---------------------------------------------------------------------------
  // Every call finishes

  /** The operations on the pairs of the plan from the `n`th on. */
  ghost function OperationsFrom(work: Work, plan: seq<ID>, n: nat): nat
    decreases |plan| - n
  {
    if n >= |plan| then 0
    else (if plan[n] in work then |work[plan[n]]| else 0) + OperationsFrom(work, plan, n + 1)
  }

  /** What a pending call still has to do between its lock steps. */
  ghost function Left(call: Call, th: L.Thread, p: Progress): nat {
    if !p.outcome.Pending? then 0
    else
      match call
      case ReadCall(_, _, atMost) => if |p.seen| <= atMost then atMost - |p.seen| + 1 else 1
      case ApplyCall(work, _) =>
        1 + OperationsFrom(work, th.plan, th.phase.n) +
        if th.phase.Working? && 0 < th.phase.n <= |th.plan| && th.plan[th.phase.n - 1] in work &&
           p.done <= |work[th.plan[th.phase.n - 1]]|
        then |work[th.plan[th.phase.n - 1]]| - p.done else 0
  }

  ghost function Cost(call: Call, th: L.Thread, p: Progress): nat { th.Remaining() + Left(call, th, p) }

  ghost function TotalCost(calls: seq<Call>, threads: seq<L.Thread>, progress: seq<Progress>): nat
    requires |calls| == |threads| == |progress|
  {
    if calls == [] then 0
    else
      var n := |calls| - 1;
      TotalCost(calls[..n], threads[..n], progress[..n]) + Cost(calls[n], threads[n], progress[n])
  }

  lemma {:induction false} TotalCostUpdate(calls: seq<Call>, threads: seq<L.Thread>, progress: seq<Progress>,
                                           t: nat, th: L.Thread, p: Progress)
    requires t < |calls| == |threads| == |progress|
    ensures TotalCost(calls, threads[t := th], progress[t := p]) ==
              TotalCost(calls, threads, progress) - Cost(calls[t], threads[t], progress[t]) + Cost(calls[t], th, p)
  {
    var n := |calls| - 1;
    if t == n {
      assert threads[t := th][..n] == threads[..n] && progress[t := p][..n] == progress[..n];
    } else {
      assert threads[t := th][..n] == threads[..n][t := th] && progress[t := p][..n] == progress[..n][t := p];
      TotalCostUpdate(calls[..n], threads[..n], progress[..n], t, th, p);
    }
  }

  lemma MoveCosts(s: System, s': System, t: nat)
    requires Move(s, s', t) && s.locks.threads[t].Valid()
    requires Current(s.db, s.calls[t], s.locks.threads[t], s.progress[t])
    ensures |s'.locks.threads| == |s.locks.threads| && s'.locks.threads == s.locks.threads[t := s'.locks.threads[t]]
    ensures Cost(s.calls[t], s'.locks.threads[t], s.progress[t]) < Cost(s.calls[t], s.locks.threads[t], s.progress[t])
  {}

  lemma AcquireCosts(s: System, s': System, t: nat)
    requires Acquire(s, s', t) && s.locks.threads[t].Valid()
    requires Current(s.db, s.calls[t], s.locks.threads[t], s.progress[t])
    ensures |s'.locks.threads| == |s.locks.threads| && s'.locks.threads == s.locks.threads[t := s'.locks.threads[t]]
    ensures |s'.progress| == |s.progress| && s'.progress == s.progress[t := s'.progress[t]]
    ensures Cost(s.calls[t], s'.locks.threads[t], s'.progress[t]) < Cost(s.calls[t], s.locks.threads[t], s.progress[t])
  {}

  lemma WorkCosts(s: System, s': System, t: nat)
    requires Operate(s, s', t) || Commit(s, s', t) || Read(s, s', t) || Finish(s, s', t)
    ensures |s'.progress| == |s.progress| && s'.progress == s.progress[t := s'.progress[t]] && s'.locks == s.locks
    ensures Cost(s.calls[t], s.locks.threads[t], s'.progress[t]) < Cost(s.calls[t], s.locks.threads[t], s.progress[t])
  {}

  /** A step changes its own call only, and makes it cheaper. */
  ghost predicate Cheaper(s: System, s': System, t: nat) {
    && InRange(s, t) && |s'.progress| == |s.progress| && |s'.locks.threads| == |s.locks.threads| && s'.calls == s.calls
    && s'.locks.threads == s.locks.threads[t := s'.locks.threads[t]] && s'.progress == s.progress[t := s'.progress[t]]
    && Cost(s.calls[t], s'.locks.threads[t], s'.progress[t]) < Cost(s.calls[t], s.locks.threads[t], s.progress[t])
  }

  lemma CallGetsCheaper(s: System, s': System, t: nat)
    requires Step(s, s', t) && s.locks.threads[t].Valid()
    requires Current(s.db, s.calls[t], s.locks.threads[t], s.progress[t])
    ensures Cheaper(s, s', t)
  {
    StepOrder(s, s', t);
    if Move(s, s', t) { MoveCosts(s, s', t); }
    else if Acquire(s, s', t) { AcquireCosts(s, s', t); }
    else { WorkCosts(s, s', t); }
  }

  lemma CheaperInTotal(s: System, s': System, t: nat)
    requires Cheaper(s, s', t)
    ensures TotalCost(s'.calls, s'.locks.threads, s'.progress) < TotalCost(s.calls, s.locks.threads, s.progress)
  {
    TotalCostUpdate(s.calls, s.locks.threads, s.progress, t, s'.locks.threads[t], s'.progress[t]);
  }

  lemma StepCosts(init: Base, s: System, s': System, t: nat)
    requires Inv(init, s) && Sizes(s') && Step(s, s', t)
    ensures TotalCost(s'.calls, s'.locks.threads, s'.progress) < TotalCost(s.calls, s.locks.threads, s.progress)
  {
    assert Current(s.db, s.calls[t], s.locks.threads[t], s.progress[t]);
    CallersAreValid(s.locks, t);
    CallGetsCheaper(s, s', t);
    CheaperInTotal(s, s', t);
  }

  ghost function CostOf(s: System): nat
    requires Sizes(s)
  {
    TotalCost(s.calls, s.locks.threads, s.progress)
  }

  lemma {:induction false} RunIsBounded(states: seq<System>, k: nat)
    requires Run(states) && k < |states|
    ensures Sizes(states[k]) && Sizes(states[0]) && CostOf(states[k]) + k <= CostOf(states[0])
  {
    RunKeepsInv(states, k);
    RunKeepsInv(states, 0);
    if k > 0 {
      RunIsBounded(states, k - 1);
      RunKeepsInv(states, k - 1);
      assert Next(states[k - 1], states[k - 1 + 1]);
      var t: nat :| Step(states[k - 1], states[k], t);
      StepCosts(states[0].db, states[k - 1], states[k], t);
    }
  }

  /** Under every scheduler all calls finish, reads and writes included: no run is longer than the
      calls' initial cost, and a run that cannot be extended has every call done and its result. */
  lemma EveryCallFinishes(states: seq<System>)
    requires Run(states)
    ensures Sizes(states[0]) && |states| <= CostOf(states[0]) + 1
    ensures var last := states[|states| - 1];
            Sizes(last) && ((forall u: nat :: u < |last.calls| ==> !CanStep(last, u)) ==>
              forall t :: 0 <= t < |last.calls| ==> last.locks.threads[t].Done() && !last.progress[t].outcome.Pending?)
  {
    var k := |states| - 1;
    RunIsBounded(states, k);
    RunKeepsInv(states, k);
    var last := states[k];
    if forall u: nat :: u < |last.calls| ==> !CanStep(last, u) {
      forall t | 0 <= t < |last.calls| ensures last.locks.threads[t].Done() && !last.progress[t].outcome.Pending? {
        if !last.locks.threads[t].Done() { NoCallIsStuck(states, k, t); }
        assert Current(last.db, last.calls[t], last.locks.threads[t], last.progress[t]);
      }
    }
  }
}
