/** The reference-counted locks of shared memory (chains/atomic/memory.go). */
module LockTable {
  import opened Common

  /** The identity of a mutex. */
  type Mutex = nat

  datatype RcLock = RcLock(lock: Mutex, count: nat)

  /** Identities from `unused` on have not been given to any mutex. */
  datatype Table = Table(locks: map<ID, RcLock>, unused: Mutex)

  const NoLocks := Table(map[], 0)

  function MakeLock(t: Table, id: ID): (Table, Mutex) {
    if id in t.locks then
      (t.(locks := t.locks[id := t.locks[id].(count := t.locks[id].count + 1)]), t.locks[id].lock)
    else
      (Table(t.locks[id := RcLock(t.unused, 1)], t.unused + 1), t.unused)
  }

  /** `None` is the panic on an unknown lock. */
  function ReleaseLock(t: Table, id: ID): Option<(Table, Mutex)> {
    if id !in t.locks then None
    else
      var rc := t.locks[id];
      Some((t.(locks := if rc.count <= 1 then t.locks - {id} else t.locks[id := rc.(count := rc.count - 1)]), rc.lock))
  }

  class Memory {
    var locks: map<ID, RcLock>
    var unused: Mutex

    ghost function Contents(): Table reads this { Table(locks, unused) }

    /** No entry outlives its last reference. */
    ghost predicate Valid() reads this {
      forall id :: id in locks ==> locks[id].count > 0 && locks[id].lock < unused
    }

    constructor ()
      ensures Valid() && Contents() == NoLocks
    {
      locks, unused := map[], 0;
    }

    method MakeLockFor(id: ID) returns (lock: Mutex)
      requires Valid()
      modifies this
      ensures Valid() && (Contents(), lock) == MakeLock(old(Contents()), id)
    {
      if id !in locks {
        locks := locks[id := RcLock(unused, 0)];
        unused := unused + 1;
      }
      var rc := locks[id];
      locks := locks[id := rc.(count := rc.count + 1)];
      assert locks == MakeLock(old(Contents()), id).0.locks;
      return rc.lock;
    }

    method ReleaseLockFor(id: ID) returns (r: Option<Mutex>)
      requires Valid()
      modifies this
      ensures Valid()
      ensures match ReleaseLock(old(Contents()), id)
              case None => r == None && Contents() == old(Contents())
              case Some(p) => Contents() == p.0 && r == Some(p.1)
    {
      if id !in locks { return None; }
      var rc := locks[id];
      rc := rc.(count := rc.count - 1);
      locks := locks[id := rc];
      if rc.count == 0 { locks := locks - {id}; }
      return Some(rc.lock);
    }
  }
}
