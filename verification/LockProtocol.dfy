/** Callers of shared memory taking and giving back pair locks, one step at a time and in any
    interleaving (chains/atomic/memory.go, chains/atomic/shared_memory.go). */
module LockProtocol {
  import opened Common
  import opened LockTable

  /** Where a caller is. In every phase `n` pairs are in its critical region: those it has
      locked and for which it has not yet called `releaseLock`. */
  datatype Phase =
    | Working(n: nat)                  // between calls; may ask for the next pair or return
    | Waiting(n: nat, lock: Mutex)     // `makeLock` done for pair n, blocked in `Lock`
    | Releasing(n: nat)                // running the deferred releases, last one first
    | Unlocking(n: nat, lock: Mutex)   // `releaseLock` done for pair n, about to `Unlock`

  /** `plan` are the shared IDs in the order they are taken, `held` the mutexes locked so far. */
  datatype Thread = Thread(plan: seq<ID>, phase: Phase, held: seq<Mutex>) {
    /** The pairs of the plan that this caller is counted for. */
    function Counted(): nat { if phase.Waiting? then phase.n + 1 else phase.n }

    ghost predicate Valid() {
      && (forall i, j :: 0 <= i < j < |plan| ==> plan[i] < plan[j])
      && Counted() <= |plan|
      && |held| == (if phase.Unlocking? then phase.n + 1 else phase.n)
      && (phase.Unlocking? ==> phase.n < |plan| && held[phase.n] == phase.lock)
      && NoDuplicates(held)
    }

    predicate References(id: ID) { Counted() <= |plan| && id in plan[..Counted()] }

    /** Between `Lock` and `releaseLock` for this pair. */
    predicate InRegion(id: ID) { phase.n <= |plan| && id in plan[..phase.n] }

    predicate Done() { phase == Releasing(0) }

    /** Steps this caller can still take. */
    function Remaining(): nat {
      match phase
      case Working(n) => if n <= |plan| then 2 * (|plan| - n) + 2 * |plan| + 1 else 0
      case Waiting(n, _) => if n < |plan| then 2 * (|plan| - n) + 2 * |plan| else 0
      case Releasing(n) => 2 * n
      case Unlocking(n, _) => 2 * n + 1
    }
  }

  /** `owner` maps every locked mutex to the caller that locked it. */
  datatype State = State(table: Table, owner: map<Mutex, nat>, threads: seq<Thread>)

  ghost predicate Init(s: State) {
    && s.table == NoLocks && s.owner == map[]
    && forall t :: 0 <= t < |s.threads| ==>
         s.threads[t].Valid() && s.threads[t].phase == Working(0) && s.threads[t].held == []
  }

  function SetThread(s: State, t: nat, th: Thread): State
    requires t < |s.threads|
  {
    s.(threads := s.threads[t := th])
  }

  // The steps of caller t.

  ghost predicate Make(s: State, s': State, t: nat) {
    && t < |s.threads|
    && var th := s.threads[t];
    && th.phase.Working? && th.phase.n < |th.plan|
    && var (table, lock) := MakeLock(s.table, th.plan[th.phase.n]);
       s' == SetThread(s, t, th.(phase := Waiting(th.phase.n, lock))).(table := table)
  }

  /** Enabled only while the mutex is free. */
  ghost predicate Lock(s: State, s': State, t: nat) {
    && t < |s.threads|
    && var th := s.threads[t];
    && th.phase.Waiting? && th.phase.lock !in s.owner
    && s' == SetThread(s, t, th.(phase := Working(th.phase.n + 1), held := th.held + [th.phase.lock]))
              .(owner := s.owner[th.phase.lock := t])
  }

  /** The call returns, with a result or an error. */
  ghost predicate Return(s: State, s': State, t: nat) {
    && t < |s.threads|
    && var th := s.threads[t];
    && th.phase.Working?
    && s' == SetThread(s, t, th.(phase := Releasing(th.phase.n)))
  }

  ghost predicate Release(s: State, s': State, t: nat) {
    && t < |s.threads|
    && var th := s.threads[t];
    && th.phase.Releasing? && 0 < th.phase.n <= |th.plan|
    && var r := ReleaseLock(s.table, th.plan[th.phase.n - 1]);
    && r.Some?
    && s' == SetThread(s, t, th.(phase := Unlocking(th.phase.n - 1, r.value.1))).(table := r.value.0)
  }

  ghost predicate Unlock(s: State, s': State, t: nat) {
    && t < |s.threads|
    && var th := s.threads[t];
    && th.phase.Unlocking? && |th.held| > 0
    && s' == SetThread(s, t, th.(phase := Releasing(th.phase.n), held := th.held[..|th.held| - 1]))
              .(owner := s.owner - {th.phase.lock})
  }

  ghost predicate Step(s: State, s': State, t: nat) {
    Make(s, s', t) || Lock(s, s', t) || Return(s, s', t) || Release(s, s', t) || Unlock(s, s', t)
  }

  // ---------------------------------------------------------------------------
  // The invariant

  function References(threads: seq<Thread>, id: ID): nat {
    if threads == [] then 0
    else References(threads[..|threads| - 1], id) + if threads[|threads| - 1].References(id) then 1 else 0
  }

  /** Every pair a caller is counted for has an entry, and it is the entry whose mutex the
      caller locked or waits for. */
  ghost predicate Linked(s: State, th: Thread) {
    && th.Valid()
    && (forall i :: 0 <= i < th.Counted() ==> th.plan[i] in s.table.locks)
    && (forall i :: 0 <= i < th.phase.n ==> th.plan[i] in s.table.locks && th.held[i] == s.table.locks[th.plan[i]].lock)
    && (th.phase.Waiting? ==> th.phase.lock == s.table.locks[th.plan[th.phase.n]].lock)
    && (forall i :: 0 <= i < |th.held| ==> th.held[i] < s.table.unused)
  }

  ghost predicate AllLinked(s: State) {
    forall t :: 0 <= t < |s.threads| ==> Linked(s, s.threads[t])
  }

  /** A mutex is locked exactly while some caller holds it. */
  ghost predicate Owned(s: State) {
    && (forall t, i :: 0 <= t < |s.threads| && 0 <= i < |s.threads[t].held| ==>
          s.threads[t].held[i] in s.owner && s.owner[s.threads[t].held[i]] == t)
    && (forall m :: m in s.owner ==> s.owner[m] < |s.threads| && m in s.threads[s.owner[m]].held)
  }

  /** The count of an entry is the number of callers that hold or wait for its pair. */
  ghost predicate Counted(s: State) {
    && (forall id :: id in s.table.locks ==> s.table.locks[id].count == References(s.threads, id) > 0)
    && (forall id :: id !in s.table.locks ==> References(s.threads, id) == 0)
  }

  ghost predicate Distinct(t: Table) {
    && (forall id :: id in t.locks ==> t.locks[id].lock < t.unused)
    && (forall a, b :: a in t.locks && b in t.locks && a != b ==> t.locks[a].lock != t.locks[b].lock)
  }

  ghost predicate Inv(s: State) {
    AllLinked(s) && Owned(s) && Counted(s) && Distinct(s.table)
  }

  lemma {:induction false} ReferencesUpdate(threads: seq<Thread>, t: nat, th: Thread, id: ID)
    requires t < |threads|
    ensures References(threads[t := th], id) ==
            References(threads, id) - (if threads[t].References(id) then 1 else 0) + (if th.References(id) then 1 else 0)
  {
    var n := |threads| - 1;
    if t == n {
      assert threads[t := th][..n] == threads[..n];
    } else {
      assert threads[t := th][..n] == threads[..n][t := th];
      ReferencesUpdate(threads[..n], t, th, id);
    }
  }

  lemma {:induction false} ReferencesPositive(threads: seq<Thread>, t: nat, id: ID)
    requires t < |threads| && threads[t].References(id)
    ensures References(threads, id) > 0
  {
    var n := |threads| - 1;
    if t < n { ReferencesPositive(threads[..n], t, id); }
  }

  lemma {:induction false} NoReferences(threads: seq<Thread>, id: ID)
    requires forall t :: 0 <= t < |threads| ==> !threads[t].References(id)
    ensures References(threads, id) == 0
  {
    if threads != [] {
      var n := |threads| - 1;
      assert forall t :: 0 <= t < n ==> threads[..n][t] == threads[t];
      NoReferences(threads[..n], id);
    }
  }

  lemma InitInv(s: State)
    requires Init(s)
    ensures Inv(s)
  {
    forall id ensures References(s.threads, id) == 0 { NoReferences(s.threads, id); }
  }

  /** A caller stays linked while the entries it is counted for keep their mutexes. */
  lemma LinkedFrame(s: State, s': State, th: Thread)
    requires Linked(s, th) && s.table.unused <= s'.table.unused
    requires forall i :: 0 <= i < th.Counted() ==>
               th.plan[i] in s'.table.locks && s'.table.locks[th.plan[i]].lock == s.table.locks[th.plan[i]].lock
    ensures Linked(s', th)
  {}

  lemma CountedFrame(s: State, s': State)
    requires Counted(s) && s'.table == s.table
    requires forall x :: References(s'.threads, x) == References(s.threads, x)
    ensures Counted(s')
  {}

  lemma OwnedFrame(s: State, s': State)
    requires Owned(s) && s'.owner == s.owner && |s'.threads| == |s.threads|
    requires forall u :: 0 <= u < |s.threads| ==> s'.threads[u].held == s.threads[u].held
    ensures Owned(s')
  {}

  lemma MakeLinked(s: State, s': State, t: nat, u: nat)
    requires AllLinked(s) && Make(s, s', t) && u < |s'.threads|
    ensures Linked(s', s'.threads[u])
  {
    assert Linked(s, s.threads[u]);
    if u != t { LinkedFrame(s, s', s.threads[u]); }
  }

  lemma MakeReferences(s: State, s': State, t: nat, x: ID)
    requires Make(s, s', t) && s.threads[t].Valid()
    ensures var th := s.threads[t];
            References(s'.threads, x) == References(s.threads, x) + if x == th.plan[th.phase.n] then 1 else 0
  {
    var th := s.threads[t];
    ReferencesUpdate(s.threads, t, s'.threads[t], x);
    assert th.plan[..th.phase.n + 1] == th.plan[..th.phase.n] + [th.plan[th.phase.n]];
  }

  lemma MakeCounted(s: State, s': State, t: nat)
    requires Counted(s) && Make(s, s', t) && s.threads[t].Valid()
    ensures Counted(s')
  {
    forall x
      ensures var th := s.threads[t];
              References(s'.threads, x) == References(s.threads, x) + if x == th.plan[th.phase.n] then 1 else 0
    {
      MakeReferences(s, s', t, x);
    }
  }

  lemma MakeDistinct(s: State, s': State, t: nat)
    requires Distinct(s.table) && Make(s, s', t)
    ensures Distinct(s'.table)
  {}

  lemma MakeOwned(s: State, s': State, t: nat)
    requires Owned(s) && Make(s, s', t)
    ensures Owned(s')
  {
    OwnedFrame(s, s');
  }

  lemma MakeKeepsInv(s: State, s': State, t: nat)
    requires Inv(s) && Make(s, s', t)
    ensures Inv(s')
  {
    assert Linked(s, s.threads[t]);
    MakeCounted(s, s', t);
    forall u | 0 <= u < |s'.threads| ensures Linked(s', s'.threads[u]) { MakeLinked(s, s', t, u); }
    MakeOwned(s, s', t);
    MakeDistinct(s, s', t);
  }

  lemma LockLinked(s: State, s': State, t: nat, u: nat)
    requires AllLinked(s) && Owned(s) && Distinct(s.table) && Lock(s, s', t) && u < |s'.threads|
    ensures Linked(s', s'.threads[u])
  {
    var th := s.threads[t];
    assert Linked(s, th) && Linked(s, s.threads[u]);
    forall i | 0 <= i < |th.held| ensures th.held[i] != th.phase.lock { assert th.held[i] in s.owner; }
    if u != t { LinkedFrame(s, s', s.threads[u]); }
  }

  lemma LockCounted(s: State, s': State, t: nat)
    requires Counted(s) && Lock(s, s', t)
    ensures Counted(s')
  {
    forall x ensures References(s'.threads, x) == References(s.threads, x) {
      ReferencesUpdate(s.threads, t, s'.threads[t], x);
    }
    CountedFrame(s, s');
  }

  lemma LockOwned(s: State, s': State, t: nat)
    requires Owned(s) && Lock(s, s', t)
    ensures Owned(s')
  {
    var th, th' := s.threads[t], s'.threads[t];
    var lock := th.phase.lock;
    forall u, i | 0 <= u < |s'.threads| && 0 <= i < |s'.threads[u].held|
      ensures s'.threads[u].held[i] in s'.owner && s'.owner[s'.threads[u].held[i]] == u
    {
      if u != t || i < |th.held| { assert s.threads[u].held[i] in s.owner; }
    }
    forall m | m in s'.owner ensures s'.owner[m] < |s'.threads| && m in s'.threads[s'.owner[m]].held {
      if m == lock { assert th'.held[|th.held|] == lock; }
    }
  }

  lemma LockKeepsInv(s: State, s': State, t: nat)
    requires Inv(s) && Lock(s, s', t)
    ensures Inv(s')
  {
    forall u | 0 <= u < |s'.threads| ensures Linked(s', s'.threads[u]) { LockLinked(s, s', t, u); }
    LockCounted(s, s', t);
    LockOwned(s, s', t);
  }

  lemma ReturnLinked(s: State, s': State, t: nat, u: nat)
    requires AllLinked(s) && Return(s, s', t) && u < |s'.threads|
    ensures Linked(s', s'.threads[u])
  {
    assert Linked(s, s.threads[u]);
    LinkedFrame(s, s', s.threads[u]);
  }

  lemma ReturnCounted(s: State, s': State, t: nat)
    requires Counted(s) && Return(s, s', t)
    ensures Counted(s')
  {
    forall x ensures References(s'.threads, x) == References(s.threads, x) {
      ReferencesUpdate(s.threads, t, s'.threads[t], x);
    }
    CountedFrame(s, s');
  }

  lemma ReturnOwned(s: State, s': State, t: nat)
    requires Owned(s) && Return(s, s', t)
    ensures Owned(s')
  {
    OwnedFrame(s, s');
  }

  lemma ReturnKeepsInv(s: State, s': State, t: nat)
    requires Inv(s) && Return(s, s', t)
    ensures Inv(s')
  {
    forall u | 0 <= u < |s'.threads| ensures Linked(s', s'.threads[u]) { ReturnLinked(s, s', t, u); }
    ReturnCounted(s, s', t);
    ReturnOwned(s, s', t);
  }

  /** `releaseLock` finds its entry, and the mutex it returns is the one this caller locked. */
  lemma ReleaseReturnsOwnLock(s: State, t: nat)
    requires Inv(s) && t < |s.threads| && s.threads[t].phase.Releasing? && s.threads[t].phase.n > 0
    ensures var th := s.threads[t];
            var r := ReleaseLock(s.table, th.plan[th.phase.n - 1]);
            r.Some? && r.value.1 == th.held[th.phase.n - 1] && s.owner[r.value.1] == t
  {
    assert Linked(s, s.threads[t]);
  }

  lemma ReleaseReferences(s: State, s': State, t: nat, x: ID)
    requires Release(s, s', t) && s.threads[t].Valid()
    ensures var th := s.threads[t];
            References(s'.threads, x) == References(s.threads, x) - if x == th.plan[th.phase.n - 1] then 1 else 0
  {
    var th := s.threads[t];
    var n := th.phase.n - 1;
    ReferencesUpdate(s.threads, t, s'.threads[t], x);
    assert th.plan[..n + 1] == th.plan[..n] + [th.plan[n]];
  }

  lemma ReleaseCounted(s: State, s': State, t: nat)
    requires Counted(s) && Release(s, s', t) && s.threads[t].Valid()
    ensures Counted(s')
  {
    forall x
      ensures var th := s.threads[t];
              References(s'.threads, x) == References(s.threads, x) - if x == th.plan[th.phase.n - 1] then 1 else 0
    {
      ReleaseReferences(s, s', t, x);
    }
  }

  /** Another caller's entries outlive the release, because they are still counted. */
  lemma ReleaseEntries(s: State, s': State, t: nat, u: nat, i: nat)
    requires Release(s, s', t) && Counted(s') && u < |s'.threads| && s'.threads[u].Valid() && i < s'.threads[u].Counted()
    ensures s'.threads[u].plan[i] in s'.table.locks
  {
    var other := s'.threads[u];
    assert other.plan[..other.Counted()][i] == other.plan[i];
    ReferencesPositive(s'.threads, u, other.plan[i]);
  }

  lemma ReleaseLinkedSelf(s: State, s': State, t: nat)
    requires Release(s, s', t) && Linked(s, s.threads[t])
    requires forall i :: 0 <= i < s.threads[t].phase.n - 1 ==> s.threads[t].plan[i] in s'.table.locks
    ensures Linked(s', s'.threads[t])
  {}

  lemma ReleaseLinked(s: State, s': State, t: nat, u: nat)
    requires AllLinked(s) && Release(s, s', t) && Counted(s') && u < |s'.threads|
    ensures Linked(s', s'.threads[u])
  {
    assert Linked(s, s.threads[u]) && Linked(s, s.threads[t]);
    var other := s'.threads[u];
    forall i | 0 <= i < other.Counted() ensures other.plan[i] in s'.table.locks { ReleaseEntries(s, s', t, u, i); }
    if u == t { ReleaseLinkedSelf(s, s', t); } else { LinkedFrame(s, s', other); }
  }

  lemma ReleaseOwned(s: State, s': State, t: nat)
    requires Owned(s) && Release(s, s', t)
    ensures Owned(s')
  {
    OwnedFrame(s, s');
  }

  lemma ReleaseDistinct(s: State, s': State, t: nat)
    requires Distinct(s.table) && Release(s, s', t)
    ensures Distinct(s'.table)
  {}

  lemma ReleaseKeepsInv(s: State, s': State, t: nat)
    requires Inv(s) && Release(s, s', t)
    ensures Inv(s')
  {
    assert Linked(s, s.threads[t]);
    ReleaseCounted(s, s', t);
    forall u | 0 <= u < |s'.threads| ensures Linked(s', s'.threads[u]) { ReleaseLinked(s, s', t, u); }
    ReleaseOwned(s, s', t);
    ReleaseDistinct(s, s', t);
  }

  lemma UnlockLinked(s: State, s': State, t: nat, u: nat)
    requires AllLinked(s) && Unlock(s, s', t) && u < |s'.threads|
    ensures Linked(s', s'.threads[u])
  {
    assert Linked(s, s.threads[u]);
    if u != t { LinkedFrame(s, s', s.threads[u]); }
  }

  lemma UnlockCounted(s: State, s': State, t: nat)
    requires Counted(s) && Unlock(s, s', t)
    ensures Counted(s')
  {
    forall x ensures References(s'.threads, x) == References(s.threads, x) {
      ReferencesUpdate(s.threads, t, s'.threads[t], x);
    }
    CountedFrame(s, s');
  }

  /** What stays held was not the unlocked mutex. */
  lemma UnlockHeld(s: State, s': State, t: nat, u: nat, i: nat)
    requires Owned(s) && Unlock(s, s', t) && s.threads[t].Valid() && u < |s'.threads| && i < |s'.threads[u].held|
    ensures s'.threads[u].held[i] in s'.owner && s'.owner[s'.threads[u].held[i]] == u
  {
    var th := s.threads[t];
    assert s'.threads[u].held[i] == s.threads[u].held[i] && s.threads[u].held[i] in s.owner;
    assert th.held[th.phase.n] == th.phase.lock && s.owner[th.phase.lock] == t;
  }

  lemma UnlockOwners(s: State, s': State, t: nat, m: Mutex)
    requires Owned(s) && Unlock(s, s', t) && s.threads[t].Valid() && m in s'.owner
    ensures s'.owner[m] < |s'.threads| && m in s'.threads[s'.owner[m]].held
  {
    var u := s.owner[m];
    var i :| 0 <= i < |s.threads[u].held| && s.threads[u].held[i] == m;
    assert s'.threads[u].held[i] == m;
  }

  lemma UnlockOwned(s: State, s': State, t: nat)
    requires Owned(s) && Unlock(s, s', t) && s.threads[t].Valid()
    ensures Owned(s')
  {
    forall u, i | 0 <= u < |s'.threads| && 0 <= i < |s'.threads[u].held|
      ensures s'.threads[u].held[i] in s'.owner && s'.owner[s'.threads[u].held[i]] == u
    {
      UnlockHeld(s, s', t, u, i);
    }
    forall m | m in s'.owner ensures s'.owner[m] < |s'.threads| && m in s'.threads[s'.owner[m]].held {
      UnlockOwners(s, s', t, m);
    }
  }

  lemma UnlockKeepsInv(s: State, s': State, t: nat)
    requires Inv(s) && Unlock(s, s', t)
    ensures Inv(s')
  {
    assert Linked(s, s.threads[t]);
    forall u | 0 <= u < |s'.threads| ensures Linked(s', s'.threads[u]) { UnlockLinked(s, s', t, u); }
    UnlockCounted(s, s', t);
    UnlockOwned(s, s', t);
  }

  lemma StepKeepsInv(s: State, s': State, t: nat)
    requires Inv(s) && Step(s, s', t)
    ensures Inv(s')
  {
    if Make(s, s', t) { MakeKeepsInv(s, s', t); }
    else if Lock(s, s', t) { LockKeepsInv(s, s', t); }
    else if Return(s, s', t) { ReturnKeepsInv(s, s', t); }
    else if Release(s, s', t) { ReleaseKeepsInv(s, s', t); }
    else { UnlockKeepsInv(s, s', t); }
  }

  // ---------------------------------------------------------------------------
  // Whole runs

  ghost predicate Next(s: State, s': State) { exists t: nat :: Step(s, s', t) }

  /** Any interleaving: each state follows from the one before by a step of some caller. */
  ghost predicate Run(states: seq<State>) {
    && |states| > 0 && Init(states[0])
    && forall i :: 0 <= i < |states| - 1 ==> Next(states[i], states[i + 1])
  }

  lemma {:induction false} RunKeepsInv(states: seq<State>, k: nat)
    requires Run(states) && k < |states|
    ensures Inv(states[k])
  {
    if k == 0 {
      InitInv(states[0]);
    } else {
      RunKeepsInv(states, k - 1);
      assert Next(states[k - 1], states[k - 1 + 1]);
      var t: nat :| Step(states[k - 1], states[k], t);
      StepKeepsInv(states[k - 1], states[k], t);
    }
  }

  /** At most one caller is between acquiring a pair and its `releaseLock`. */
  lemma RegionsExclude(s: State, t: nat, u: nat, id: ID)
    requires Inv(s) && t < |s.threads| && u < |s.threads|
    requires s.threads[t].InRegion(id) && s.threads[u].InRegion(id)
    ensures t == u
  {
    var a, b := s.threads[t], s.threads[u];
    assert Linked(s, a) && Linked(s, b);
    var i :| 0 <= i < a.phase.n && a.plan[i] == id;
    var j :| 0 <= j < b.phase.n && b.plan[j] == id;
    assert s.owner[a.held[i]] == t && s.owner[b.held[j]] == u;
  }

  lemma MutualExclusion(states: seq<State>, k: nat, t: nat, u: nat, id: ID)
    requires Run(states) && k < |states| && t < |states[k].threads| && u < |states[k].threads|
    requires states[k].threads[t].InRegion(id) && states[k].threads[u].InRegion(id)
    ensures t == u
  {
    RunKeepsInv(states, k);
    RegionsExclude(states[k], t, u, id);
  }

  /** In every run the count of a pair is the number of callers holding or waiting for it. */
  lemma CountIsReferences(states: seq<State>, k: nat, id: ID)
    requires Run(states) && k < |states|
    ensures References(states[k].threads, id) ==
            if id in states[k].table.locks then states[k].table.locks[id].count else 0
  {
    RunKeepsInv(states, k);
  }

  // ---------------------------------------------------------------------------
  // Progress

  ghost predicate CanStep(s: State, t: nat) { exists s' :: Step(s, s', t) }

  ghost predicate Blocked(s: State, t: nat) {
    t < |s.threads| && s.threads[t].phase.Waiting? && s.threads[t].phase.lock in s.owner
  }

  lemma ReleasingCanStep(s: State, t: nat)
    requires Inv(s) && t < |s.threads| && s.threads[t].phase.Releasing? && !s.threads[t].Done()
    ensures CanStep(s, t)
  {
    var (th, n) := (s.threads[t], s.threads[t].phase.n);
    assert Linked(s, th);
    ReleaseReturnsOwnLock(s, t);
    var r := ReleaseLock(s.table, th.plan[n - 1]);
    var s' := SetThread(s, t, th.(phase := Unlocking(n - 1, r.value.1))).(table := r.value.0);
    assert Release(s, s', t);
    assert Step(s, s', t);
  }

  lemma OthersCanStep(s: State, t: nat)
    requires t < |s.threads| && s.threads[t].Valid() && !s.threads[t].phase.Releasing? && !Blocked(s, t)
    ensures CanStep(s, t)
  {
    var th := s.threads[t];
    var s';
    match th.phase {
    case Working(n) =>
      s' := SetThread(s, t, th.(phase := Releasing(n)));
      assert Return(s, s', t);
    case Waiting(n, lock) =>
      s' := SetThread(s, t, th.(phase := Working(n + 1), held := th.held + [lock])).(owner := s.owner[lock := t]);
      assert Lock(s, s', t);
    case Unlocking(n, lock) =>
      s' := SetThread(s, t, th.(phase := Releasing(n), held := th.held[..|th.held| - 1])).(owner := s.owner - {lock});
      assert Unlock(s, s', t);
    }
    assert Step(s, s', t);
  }

  lemma UnblockedCanStep(s: State, t: nat)
    requires Inv(s) && t < |s.threads| && !s.threads[t].Done() && !Blocked(s, t)
    ensures CanStep(s, t)
  {
    assert Linked(s, s.threads[t]);
    if s.threads[t].phase.Releasing? { ReleasingCanStep(s, t); } else { OthersCanStep(s, t); }
  }

  /** Whoever holds the mutex a caller waits for can step, or waits for a larger pair. */
  lemma HolderIsAhead(s: State, t: nat)
    requires Inv(s) && Blocked(s, t)
    ensures var th := s.threads[t];
            var h := s.owner[th.phase.lock];
            && h < |s.threads| && !s.threads[h].Done()
            && (Blocked(s, h) ==> th.phase.n < |th.plan| && s.threads[h].phase.n < |s.threads[h].plan| &&
                                  th.plan[th.phase.n] < s.threads[h].plan[s.threads[h].phase.n])
  {
    var th := s.threads[t];
    var h := s.owner[th.phase.lock];
    var o := s.threads[h];
    assert Linked(s, th) && Linked(s, o);
    var i :| 0 <= i < |o.held| && o.held[i] == th.phase.lock;
    if Blocked(s, h) {
      assert o.plan[i] == th.plan[th.phase.n];
    }
  }

  /** The pair a blocked caller waits for; below every pair otherwise. */
  ghost function Wants(s: State, t: nat): int {
    if Blocked(s, t) && s.threads[t].phase.n < |s.threads[t].plan| then s.threads[t].plan[s.threads[t].phase.n] else -1
  }

  lemma {:induction false} LargestWant(s: State, n: nat) returns (t: nat)
    requires 0 < n <= |s.threads|
    ensures t < n && forall u :: 0 <= u < n ==> Wants(s, u) <= Wants(s, t)
  {
    if n == 1 {
      t := 0;
    } else {
      t := LargestWant(s, n - 1);
      if Wants(s, t) < Wants(s, n - 1) { t := n - 1; }
    }
  }

  /** If some caller is blocked, some unfinished caller is not: follow the largest want. */
  lemma UnblockedHolder(s: State, t: nat) returns (h: nat)
    requires Inv(s) && Blocked(s, t)
    ensures h < |s.threads| && !s.threads[h].Done() && !Blocked(s, h)
  {
    assert Linked(s, s.threads[t]);
    var m := LargestWant(s, |s.threads|);
    assert Wants(s, t) <= Wants(s, m);
    HolderIsAhead(s, m);
    h := s.owner[s.threads[m].phase.lock];
    assert Wants(s, h) <= Wants(s, m);
  }

  /** No reachable state is deadlocked: while some caller is not done, some caller can step. */
  lemma NoDeadlock(s: State, t: nat)
    requires Inv(s) && t < |s.threads| && !s.threads[t].Done()
    ensures exists u: nat :: u < |s.threads| && CanStep(s, u)
  {
    var u := t;
    if Blocked(s, t) { u := UnblockedHolder(s, t); }
    UnblockedCanStep(s, u);
  }

  function TotalRemaining(threads: seq<Thread>): nat {
    if threads == [] then 0
    else TotalRemaining(threads[..|threads| - 1]) + threads[|threads| - 1].Remaining()
  }

  lemma {:induction false} TotalUpdate(threads: seq<Thread>, t: nat, th: Thread)
    requires t < |threads|
    ensures TotalRemaining(threads[t := th]) == TotalRemaining(threads) - threads[t].Remaining() + th.Remaining()
  {
    var n := |threads| - 1;
    if t == n {
      assert threads[t := th][..n] == threads[..n];
    } else {
      assert threads[t := th][..n] == threads[..n][t := th];
      TotalUpdate(threads[..n], t, th);
    }
  }

  /** Every step uses up some of the callers' remaining steps. */
  lemma StepsRunOut(s: State, s': State, t: nat)
    requires Inv(s) && Step(s, s', t)
    ensures TotalRemaining(s'.threads) < TotalRemaining(s.threads)
  {
    assert Linked(s, s.threads[t]);
    TotalUpdate(s.threads, t, s'.threads[t]);
  }

  lemma {:induction false} RunIsBounded(states: seq<State>, k: nat)
    requires Run(states) && k < |states|
    ensures TotalRemaining(states[k].threads) + k <= TotalRemaining(states[0].threads)
  {
    if k > 0 {
      RunIsBounded(states, k - 1);
      RunKeepsInv(states, k - 1);
      assert Next(states[k - 1], states[k - 1 + 1]);
      var t: nat :| Step(states[k - 1], states[k], t);
      StepsRunOut(states[k - 1], states[k], t);
    }
  }

  /** Under every scheduler all calls finish: no run is longer than the callers' initial
      steps, and a run that cannot be extended has every caller done. */
  lemma EveryCallFinishes(states: seq<State>)
    requires Run(states)
    ensures |states| <= TotalRemaining(states[0].threads) + 1
    ensures var last := states[|states| - 1];
            (forall u: nat :: u < |last.threads| ==> !CanStep(last, u)) ==>
            forall t :: 0 <= t < |last.threads| ==> last.threads[t].Done()
  {
    var k := |states| - 1;
    RunIsBounded(states, k);
    RunKeepsInv(states, k);
    var last := states[k];
    if forall u: nat :: u < |last.threads| ==> !CanStep(last, u) {
      forall t | 0 <= t < |last.threads| ensures last.threads[t].Done() {
        if !last.threads[t].Done() { NoDeadlock(last, t); }
      }
    }
  }
}
