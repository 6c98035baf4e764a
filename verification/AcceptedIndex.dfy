/** One chain's index of accepted containers (indexer/index.go): two persisted maps and a
    counter, written through a versioned database, that act as one append-only log. */
module AcceptedIndex {
  import opened Common
  import opened PackedNumbers

  datatype Container = Container(id: ID, bytes: Bytes, timestamp: int)

  /** A position as it is stored. */
  datatype Key = Key(bytes: Bytes)

  function KeyOf(i: nat): Key { Key(PackUInt64(i)) }

  /** Position to container, container ID to position, and the next position. */
  datatype Db = Db(byIndex: map<Key, Container>, byID: map<ID, Key>, next: Option<Key>)

  const EmptyDb := Db(map[], map[], None)

  lemma KeysDiffer(i: nat, j: nat)
    requires i < TWO_64 && j < TWO_64 && KeyOf(i) == KeyOf(j)
    ensures i == j
  {
    PackIsInjective(i, j);
  }

  // ---------------------------------------------------------------------------
  // The log the database stands for

  ghost predicate Holds(db: Db, log: seq<Container>, i: nat)
    requires i < |log|
  {
    && KeyOf(i) in db.byIndex && db.byIndex[KeyOf(i)] == log[i]
    && log[i].id in db.byID && db.byID[log[i].id] == KeyOf(i)
  }

  ghost predicate At(log: seq<Container>, i: nat, id: ID) { i < |log| && log[i].id == id }

  /** The two maps are inverse to each other on the positions of the log and hold nothing else. */
  ghost predicate Represents(db: Db, log: seq<Container>) {
    && |log| < TWO_64
    && (forall i :: 0 <= i < |log| ==> Holds(db, log, i))
    && (forall k :: k in db.byIndex ==> exists i: nat :: i < |log| && k == KeyOf(i))
    && (forall id :: id in db.byID ==> exists i: nat :: At(log, i, id))
    && db.next == if log == [] then None else Some(KeyOf(|log|))
  }

  ghost predicate DistinctIDs(log: seq<Container>) {
    forall i, j :: 0 <= i < j < |log| ==> log[i].id != log[j].id
  }

  lemma LogIsDistinct(db: Db, log: seq<Container>)
    requires Represents(db, log)
    ensures DistinctIDs(log)
  {
    forall i, j | 0 <= i < j < |log| ensures log[i].id != log[j].id {
      assert Holds(db, log, i) && Holds(db, log, j);
      if log[i].id == log[j].id { KeysDiffer(i, j); }
    }
  }

  /** A database stands for at most one log. */
  lemma LogIsUnique(db: Db, log: seq<Container>, log': seq<Container>)
    requires Represents(db, log) && Represents(db, log')
    ensures log == log'
  {
    if |log| > 0 && |log'| > 0 { KeysDiffer(|log|, |log'|); }
    forall i | 0 <= i < |log| && i < |log'| ensures log[i] == log'[i] {
      assert Holds(db, log, i) && Holds(db, log', i);
    }
  }

  // ---------------------------------------------------------------------------
  // Accepting

  function Appended(db: Db, c: Container, next: nat): Db {
    Db(db.byIndex[KeyOf(next) := c], db.byID[c.id := KeyOf(next)], Some(KeyOf(next + 1)))
  }

  lemma AppendExtendsLog(db: Db, log: seq<Container>, c: Container)
    requires Represents(db, log) && c.id !in db.byID && |log| + 1 < TWO_64
    ensures Represents(Appended(db, c, |log|), log + [c])
  {
    var (db', log') := (Appended(db, c, |log|), log + [c]);
    forall i | 0 <= i < |log'| ensures Holds(db', log', i) {
      if i < |log| {
        assert Holds(db, log, i);
        if KeyOf(i) == KeyOf(|log|) { KeysDiffer(i, |log|); }
      }
    }
    forall k | k in db'.byIndex ensures exists i: nat :: i < |log'| && k == KeyOf(i) {
      if k == KeyOf(|log|) { assert |log| < |log'|; }
    }
    forall id | id in db'.byID ensures exists i: nat :: At(log', i, id) {
      if id == c.id {
        assert At(log', |log|, id);
      } else {
        var i: nat :| At(log, i, id);
        assert At(log', i, id);
      }
    }
  }

  /** The persisted database, what reads through the versioned database show, and the counter. */
  datatype State = State(disk: Db, view: Db, next: nat)

  /** `newIndex` on what is persisted. */
  function Open(disk: Db): Option<State> {
    if disk.next.None? then Some(State(disk, disk, 0))
    else
      var n := ParseUInt64(disk.next.value.bytes);
      if n.None? then None else Some(State(disk, disk, n.value))
  }

  /** `Accept`, with whether the commit goes through. */
  function Accept(s: State, c: Container, commits: bool): (State, bool) {
    if c.id in s.view.byID then (s, true)
    else
      var view := Appended(s.view, c, s.next);
      (State(if commits then view else s.disk, view, s.next + 1), commits)
  }

  /** What is persisted is a prefix of what is shown; the counter is the length. */
  ghost predicate Inv(s: State, saved: seq<Container>, log: seq<Container>) {
    && Represents(s.disk, saved) && Represents(s.view, log) && saved <= log && s.next == |log|
  }

  lemma OpenRecoversLog(disk: Db, saved: seq<Container>)
    requires Represents(disk, saved)
    ensures Open(disk).Some? && Inv(Open(disk).value, saved, saved)
  {
    if saved != [] { RoundTrip(|saved|); }
  }

  /** The log after an accept: a container that is there is not indexed twice. */
  function LogAfter(log: seq<Container>, c: Container): seq<Container> {
    if exists i :: 0 <= i < |log| && log[i].id == c.id then log else log + [c]
  }

  /** The container is in it, what was there stays in place, and nothing else comes in. */
  lemma LoggedOnce(log: seq<Container>, c: Container)
    ensures var log' := LogAfter(log, c);
            && (exists i: nat :: At(log', i, c.id))
            && log <= log' && |log'| <= |log| + 1
            && (|log'| == |log| <==> exists i: nat :: At(log, i, c.id))
            && (|log'| > |log| ==> log'[|log|] == c)
  {
    if exists i :: 0 <= i < |log| && log[i].id == c.id {
      var i :| 0 <= i < |log| && log[i].id == c.id;
      assert At(log, i, c.id);
    } else {
      assert At(LogAfter(log, c), |log|, c.id);
    }
  }

  lemma AcceptExtendsLog(s: State, c: Container, commits: bool, saved: seq<Container>, log: seq<Container>)
    requires Inv(s, saved, log) && |log| + 1 < TWO_64
    ensures var (s', ok) := Accept(s, c, commits);
            var log' := LogAfter(log, c);
            Inv(s', if commits && log' != log then log' else saved, log') && (ok <==> commits || log' == log)
  {
    if c.id in s.view.byID {
      var i: nat :| At(log, i, c.id);
      assert log[i].id == c.id;
    } else {
      forall i | 0 <= i < |log| ensures log[i].id != c.id { assert Holds(s.view, log, i); }
      AppendExtendsLog(s.view, log, c);
    }
  }

  // ---------------------------------------------------------------------------
  // Any run: accepts, failing commits, crashes, restarts

  datatype Event = DoAccept(c: Container, commits: bool) | Restart

  ghost function Step(s: State, e: Event): Option<State> {
    match e
    case DoAccept(c, commits) => Some(Accept(s, c, commits).0)
    case Restart => Open(s.disk)
  }

  ghost predicate Run(states: seq<State>, events: seq<Event>) {
    && |states| == |events| + 1 && |states| < TWO_64 && states[0] == State(EmptyDb, EmptyDb, 0)
    && forall k :: 0 <= k < |events| ==> Step(states[k], events[k]) == Some(states[k + 1])
  }

  /** The shown and the persisted log at each time, from the events alone. */
  ghost function Logs(events: seq<Event>): (seq<Container>, seq<Container>) {
    if events == [] then ([], [])
    else
      var (log, saved) := Logs(events[..|events| - 1]);
      match events[|events| - 1]
      case DoAccept(c, commits) => (LogAfter(log, c), if commits && LogAfter(log, c) != log then LogAfter(log, c) else saved)
      case Restart => (saved, saved)
  }

  lemma {:induction false} LogsAreShort(events: seq<Event>)
    ensures |Logs(events).0| <= |events| && |Logs(events).1| <= |events|
  {
    if events != [] { LogsAreShort(events[..|events| - 1]); }
  }

  /** In every run the database stands for the log, no restart fails, and a restart shows what
      was persisted. */
  lemma {:induction false} RunIsLog(states: seq<State>, events: seq<Event>, k: nat)
    requires Run(states, events) && k < |states|
    ensures var (log, saved) := Logs(events[..k]); Inv(states[k], saved, log)
    ensures Step(states[k], Restart).Some?
  {
    if k > 0 {
      var j := k - 1;
      RunIsLog(states, events, j);
      var (log, saved) := Logs(events[..j]);
      LogsAreShort(events[..j]);
      assert events[..k][..j] == events[..j] && events[..k][j] == events[j];
      assert Step(states[j], events[j]) == Some(states[j + 1]);
      match events[j]
      case DoAccept(c, commits) => AcceptExtendsLog(states[j], c, commits, saved, log);
      case Restart => OpenRecoversLog(states[j].disk, saved);
    }
    OpenRecoversLog(states[k].disk, Logs(events[..k]).1);
  }

  /** The persisted log is only ever appended to. */
  lemma {:induction false} SavedLogOnlyGrows(states: seq<State>, events: seq<Event>, j: nat, k: nat)
    requires Run(states, events) && j <= k < |states|
    ensures Logs(events[..j]).1 <= Logs(events[..k]).1
  {
    if j < k {
      SavedLogOnlyGrows(states, events, j, k - 1);
      RunIsLog(states, events, k - 1);
      assert events[..k][..k - 1] == events[..k - 1];
    }
  }

  // ---------------------------------------------------------------------------
  // The object and its reads

  const MAX_FETCHED := 1024

  const ZERO := Container(0, [], 0)

  datatype Range = BadCount | NoneAccepted | BeyondLast | Containers(found: seq<Container>)

  function Min(a: nat, b: nat): nat { if a <= b then a else b }

  class Index {
    var disk: Db
    var view: Db
    var next: nat
    ghost var saved: seq<Container>
    ghost var log: seq<Container>

    ghost predicate Valid()
      reads this
    {
      Inv(State(disk, view, next), saved, log)
    }

    /** Opened on what an earlier run persisted, or on nothing. */
    constructor (persisted: Db, ghost was: seq<Container>)
      requires Represents(persisted, was)
      ensures Valid() && log == saved == was && disk == persisted
    {
      OpenRecoversLog(persisted, was);
      disk, view := persisted, persisted;
      saved, log := was, was;
      next := if persisted.next.None? then 0 else ParseUInt64(persisted.next.value.bytes).value;
    }

    /** The container is appended unless it is there; if the commit fails nothing is persisted. */
    method Accept(c: Container, commits: bool) returns (ok: bool)
      requires Valid() && |log| + 1 < TWO_64
      modifies this
      ensures Valid() && log == LogAfter(old(log), c)
      ensures saved == if commits && log != old(log) then log else old(saved)
      ensures ok <==> commits || log == old(log)
    {
      AcceptExtendsLog(State(disk, view, next), c, commits, saved, log);
      ghost var log' := LogAfter(log, c);
      if c.id in view.byID { return true; }
      var key := KeyOf(next);
      view := view.(byIndex := view.byIndex[key := c]);
      view := view.(byID := view.byID[c.id := key]);
      next := next + 1;
      view := view.(next := Some(KeyOf(next)));
      if commits { disk := view; saved := log'; }
      log := log';
      return commits;
    }

    method GetContainerByIndex(i: nat) returns (r: Option<Container>)
      requires Valid()
      ensures r == if i < |log| then Some(log[i]) else None
    {
      if next == 0 || i > next - 1 { return None; }
      assert Holds(view, log, i);
      return Some(view.byIndex[KeyOf(i)]);
    }

    method GetLastAccepted() returns (r: Option<Container>)
      requires Valid()
      ensures r == if log != [] then Some(log[|log| - 1]) else None
    {
      if next == 0 { return None; }
      r := GetContainerByIndex(next - 1);
    }

    method GetIndex(id: ID) returns (r: Option<nat>)
      requires Valid()
      ensures r.Some? ==> At(log, r.value, id)
      ensures r.None? ==> forall i: nat :: !At(log, i, id)
    {
      if id !in view.byID {
        NotIndexed(view, log, id);
        return None;
      }
      ghost var i: nat :| At(log, i, id);
      assert Holds(view, log, i);
      RoundTrip(i);
      return ParseUInt64(view.byID[id].bytes);
    }

    method GetContainerByID(id: ID) returns (r: Option<Container>)
      requires Valid()
      ensures r.Some? ==> r.value.id == id && r.value in log
      ensures r.None? ==> forall i: nat :: !At(log, i, id)
    {
      if id !in view.byID {
        NotIndexed(view, log, id);
        return None;
      }
      ghost var i: nat :| At(log, i, id);
      assert Holds(view, log, i);
      return Some(view.byIndex[view.byID[id]]);
    }

    /** At most 1024 containers from a position on. The sum of the arguments may wrap around,
        and then as many empty containers come back; short of that it is the slice of the log. */
    method GetContainerRange(start: nat, count: nat) returns (r: Range)
      requires Valid() && start < TWO_64 && count < TWO_64
      ensures r.BadCount? <==> count == 0 || count > MAX_FETCHED
      ensures r.NoneAccepted? <==> 1 <= count <= MAX_FETCHED && log == []
      ensures r.BeyondLast? <==> 1 <= count <= MAX_FETCHED && 0 < |log| <= start
      ensures r.Containers? ==> r.found == if start + count <= TWO_64 then log[start..Min(start + count, |log|)]
                                           else seq(count, _ => ZERO)
    {
      if count == 0 || count > MAX_FETCHED { return BadCount; }
      if next == 0 { return NoneAccepted; }
      if start > next - 1 { return BeyondLast; }
      var last := Min((start + count - 1) % TWO_64, next - 1);
      var size := (last - start + 1) % TWO_64;
      if start + count > TWO_64 { WrappedEnd(start, count); } else { OrdinaryEnd(start, count, next); }
      var found := Fetch(start, last, size);
      return Containers(found);
    }

    /** Fills a slice of `size` from position `start` to `last`. */
    method Fetch(start: nat, last: nat, size: nat) returns (found: seq<Container>)
      requires Valid() && last < |log| && (start <= last ==> size == last - start + 1)
      ensures found == if start <= last then log[start..last + 1] else seq(size, _ => ZERO)
    {
      found := seq(size, _ => ZERO);
      var j, n := start, 0;
      while j <= last
        invariant n == j - start && |found| == size && (start <= last ==> j <= last + 1) && (start > last ==> n == 0)
        invariant forall i :: 0 <= i < n ==> found[i] == log[start + i]
        invariant start > last ==> found == seq(size, _ => ZERO)
      {
        assert Holds(view, log, j);
        found := found[n := view.byIndex[KeyOf(j)]];
        j, n := j + 1, n + 1;
      }
    }
  }

  lemma NotIndexed(db: Db, log: seq<Container>, id: ID)
    requires Represents(db, log) && id !in db.byID
    ensures forall i: nat :: !At(log, i, id)
  {
    forall i: nat | i < |log| ensures log[i].id != id { assert Holds(db, log, i); }
  }

  lemma OrdinaryEnd(start: nat, count: nat, next: nat)
    requires 1 <= count <= MAX_FETCHED && start + count <= TWO_64 && start < next
    ensures var last := Min((start + count - 1) % TWO_64, next - 1);
            start <= last && last + 1 == Min(start + count, next) && (last - start + 1) % TWO_64 == last - start + 1
  {}

  lemma WrappedEnd(start: nat, count: nat)
    requires start < TWO_64 < start + count && count <= MAX_FETCHED
    ensures (start + count - 1) % TWO_64 == start + count - 1 - TWO_64 < start
    ensures ((start + count - 1) % TWO_64 - start + 1) % TWO_64 == count
  {}
}
