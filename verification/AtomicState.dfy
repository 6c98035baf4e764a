/** One direction of the message channel between two chains: a value database and a
    trait index over it (chains/atomic/state.go). */
module AtomicState {
  import opened Common

  datatype Element = Element(key: Bytes, value: Bytes, traits: seq<Bytes>)

  /** A stored entry. `present == false` is the tombstone left by a remove that came first. */
  datatype DbElement = DbElement(present: bool, value: Bytes, traits: seq<Bytes>)

  /** The contents of both databases. Each trait's linked list is the sequence of its keys,
      head first; a trait that was never written has the empty list. */
  datatype Store = Store(values: map<Bytes, DbElement>, lists: map<Bytes, seq<Bytes>>)

  datatype Error = NotFound | DuplicatedOperation

  const EmptyStore := Store(map[], map[])
  const Tombstone := DbElement(false, [], [])

  function Listed(lists: map<Bytes, seq<Bytes>>, tag: Bytes): seq<Bytes> {
    if tag in lists then lists[tag] else []
  }

  /** linkeddb `Put`: a key already in the list keeps its place, a new one becomes the head. */
  function LinkPut(list: seq<Bytes>, key: Bytes): seq<Bytes> {
    if key in list then list else [key] + list
  }

  /** linkeddb `Delete`: unlinks the key if it is there. */
  function LinkDelete(list: seq<Bytes>, key: Bytes): seq<Bytes> {
    if list == [] then []
    else if list[0] == key then LinkDelete(list[1..], key)
    else [list[0]] + LinkDelete(list[1..], key)
  }

  function AddKey(lists: map<Bytes, seq<Bytes>>, traits: seq<Bytes>, key: Bytes): map<Bytes, seq<Bytes>> {
    if traits == [] then lists
    else
      var before := AddKey(lists, traits[..|traits| - 1], key);
      var tag := traits[|traits| - 1];
      before[tag := LinkPut(Listed(before, tag), key)]
  }

  function DropKey(lists: map<Bytes, seq<Bytes>>, traits: seq<Bytes>, key: Bytes): map<Bytes, seq<Bytes>> {
    if traits == [] then lists
    else
      var before := DropKey(lists, traits[..|traits| - 1], key);
      var tag := traits[|traits| - 1];
      before[tag := LinkDelete(Listed(before, tag), key)]
  }

  function Put(s: Store, e: Element): Result<Store, Error> {
    if e.key !in s.values then
      Success(Store(s.values[e.key := DbElement(true, e.value, e.traits)], AddKey(s.lists, e.traits, e.key)))
    else if !s.values[e.key].present then
      Success(s.(values := s.values - {e.key}))
    else
      Failure(DuplicatedOperation)
  }

  function Remove(s: Store, key: Bytes): Result<Store, Error> {
    if key !in s.values then
      Success(s.(values := s.values[key := Tombstone]))
    else if !s.values[key].present then
      Failure(DuplicatedOperation)
    else
      Success(Store(s.values - {key}, DropKey(s.lists, s.values[key].traits, key)))
  }

  function Lookup(s: Store, key: Bytes): Result<Element, Error> {
    if key in s.values && s.values[key].present
    then Success(Element(key, s.values[key].value, s.values[key].traits))
    else Failure(NotFound)
  }

  /** The two databases as the Go methods see and update them. */
  class State {
    var valueDB: map<Bytes, DbElement>
    var indexDB: map<Bytes, seq<Bytes>>

    function Contents(): Store reads this { Store(valueDB, indexDB) }

    constructor (s: Store)
      ensures Contents() == s
    {
      valueDB, indexDB := s.values, s.lists;
    }

    method Value(key: Bytes) returns (r: Result<Element, Error>)
      ensures r == Lookup(Contents(), key)
      ensures r.Success? ==> r.value.key == key && valueDB[key] == DbElement(true, r.value.value, r.value.traits)
    {
      if key !in valueDB { return Failure(NotFound); }
      var value := valueDB[key];
      if !value.present { return Failure(NotFound); }
      return Success(Element(key, value.value, value.traits));
    }

    method SetValue(e: Element) returns (err: Option<Error>)
      modifies this
      ensures match Put(old(Contents()), e)
              case Success(s) => err == None && Contents() == s
              case Failure(why) => err == Some(why) && Contents() == old(Contents())
    {
      if e.key in valueDB {
        if !valueDB[e.key].present {
          valueDB := valueDB - {e.key};
          return None;
        }
        return Some(DuplicatedOperation);
      }
      for i := 0 to |e.traits|
        invariant valueDB == old(valueDB)
        invariant indexDB == AddKey(old(indexDB), e.traits[..i], e.key)
      {
        var tag := e.traits[i];
        indexDB := indexDB[tag := LinkPut(Listed(indexDB, tag), e.key)];
        assert e.traits[..i + 1][..i] == e.traits[..i];
      }
      assert e.traits[..|e.traits|] == e.traits;
      valueDB := valueDB[e.key := DbElement(true, e.value, e.traits)];
      return None;
    }

    method RemoveValue(key: Bytes) returns (err: Option<Error>)
      modifies this
      ensures match Remove(old(Contents()), key)
              case Success(s) => err == None && Contents() == s
              case Failure(why) => err == Some(why) && Contents() == old(Contents())
    {
      if key !in valueDB {
        valueDB := valueDB[key := Tombstone];
        return None;
      }
      var value := valueDB[key];
      if !value.present { return Some(DuplicatedOperation); }
      for i := 0 to |value.traits|
        invariant valueDB == old(valueDB)
        invariant indexDB == DropKey(old(indexDB), value.traits[..i], key)
      {
        var tag := value.traits[i];
        indexDB := indexDB[tag := LinkDelete(Listed(indexDB, tag), key)];
        assert value.traits[..i + 1][..i] == value.traits[..i];
      }
      assert value.traits[..|value.traits|] == value.traits;
      valueDB := valueDB - {key};
      return None;
    }
  }

  // ---------------------------------------------------------------------------
  // Runs of operations

  datatype Op = PutOp(e: Element) | RemoveOp(k: Bytes) {
    function Key(): Bytes { if PutOp? then e.key else k }
    /** What the operation adds to its key's level when it succeeds. */
    function Delta(): int { if PutOp? then 1 else -1 }
  }

  function Exec(s: Store, op: Op): Result<Store, Error> {
    match op
    case PutOp(e) => Put(s, e)
    case RemoveOp(k) => Remove(s, k)
  }

  /** The store after a run in which a failing operation changes nothing. */
  function After(s: Store, ops: seq<Op>): Store {
    if ops == [] then s
    else
      var before := After(s, ops[..|ops| - 1]);
      var r := Exec(before, ops[|ops| - 1]);
      if r.Success? then r.value else before
  }

  ghost predicate SucceedsAt(s: Store, ops: seq<Op>, i: nat)
    requires i < |ops|
  {
    Exec(After(s, ops[..i]), ops[i]).Success?
  }

  ghost predicate AllSucceed(s: Store, ops: seq<Op>) {
    forall i :: 0 <= i < |ops| ==> SucceedsAt(s, ops, i)
  }

  lemma SucceedsAtPrefix(s: Store, ops: seq<Op>, n: nat, i: nat)
    requires i < n <= |ops|
    ensures SucceedsAt(s, ops[..n], i) <==> SucceedsAt(s, ops, i)
  {
    assert ops[..n][..i] == ops[..i];
  }

  lemma AllSucceedSnoc(s: Store, ops: seq<Op>)
    requires ops != []
    ensures var n := |ops| - 1; AllSucceed(s, ops) <==> AllSucceed(s, ops[..n]) && Exec(After(s, ops[..n]), ops[n]).Success?
  {
    var n := |ops| - 1;
    forall i | 0 <= i < n ensures SucceedsAt(s, ops[..n], i) <==> SucceedsAt(s, ops, i) { SucceedsAtPrefix(s, ops, n, i); }
    assert SucceedsAt(s, ops, n) <==> Exec(After(s, ops[..n]), ops[n]).Success?;
  }

  /** -1 for a tombstone, 0 for no entry, 1 for a present entry. */
  function Level(s: Store, key: Bytes): int {
    if key !in s.values then 0 else if s.values[key].present then 1 else -1
  }

  /** Successful puts minus successful removes of `key` in a run from `s`. */
  ghost function Net(s: Store, ops: seq<Op>, key: Bytes): int {
    if ops == [] then 0
    else
      var n := |ops| - 1;
      Net(s, ops[..n], key) +
      if ops[n].Key() == key && Exec(After(s, ops[..n]), ops[n]).Success? then ops[n].Delta() else 0
  }

  /** The entry counts: after any run the level of a key is its starting level plus the
      successful puts minus the successful removes. */
  lemma {:induction false} LevelIsNetOfRun(s: Store, ops: seq<Op>, key: Bytes)
    ensures Level(After(s, ops), key) == Level(s, key) + Net(s, ops, key)
    ensures -1 <= Level(s, key) + Net(s, ops, key) <= 1
  {
    if ops != [] { LevelIsNetOfRun(s, ops[..|ops| - 1], key); }
  }

  /** An operation of a run fails exactly when the net count it would produce leaves [-1, 1]. */
  lemma FailsExactlyWhenOutOfRange(s: Store, ops: seq<Op>, i: nat)
    requires i < |ops|
    ensures Exec(After(s, ops[..i]), ops[i]).Failure? <==>
            var level := Level(s, ops[i].Key()) + Net(s, ops[..i], ops[i].Key()) + ops[i].Delta();
            level < -1 || level > 1
    ensures Exec(After(s, ops[..i]), ops[i]).Failure? ==> Exec(After(s, ops[..i]), ops[i]).error == DuplicatedOperation
  {
    LevelIsNetOfRun(s, ops[..i], ops[i].Key());
  }

  // ---------------------------------------------------------------------------
  // What a lookup finds

  /** What is put into an empty place is found; a put that a remove came before is not. */
  lemma PutThenLookup(s: Store, e: Element)
    ensures e.key !in s.values ==> Put(s, e).Success? && Lookup(Put(s, e).value, e.key) == Success(e)
    ensures Level(s, e.key) == -1 ==> Put(s, e).Success? && Lookup(Put(s, e).value, e.key) == Failure(NotFound)
  {}

  /** An operation changes no other key's lookup, and a removed key is not found. */
  lemma ExecLookup(s: Store, op: Op, key: Bytes)
    requires Exec(s, op).Success?
    ensures key != op.Key() ==> Lookup(Exec(s, op).value, key) == Lookup(s, key)
    ensures op == RemoveOp(key) ==> Lookup(Exec(s, op).value, key) == Failure(NotFound)
  {}

  /** From the `i`th operation of a run on no operation on the key succeeds. */
  ghost predicate Settles(s: Store, ops: seq<Op>, key: Bytes, i: nat) {
    forall j :: i <= j < |ops| && ops[j].Key() == key ==> Exec(After(s, ops[..j]), ops[j]).Failure?
  }

  /** The `i`th operation puts the element into an empty place, where it stays. */
  ghost predicate PutLast(s: Store, ops: seq<Op>, e: Element, i: nat) {
    i < |ops| && ops[i] == PutOp(e) && Level(After(s, ops[..i]), e.key) == 0 && Settles(s, ops, e.key, i + 1)
  }

  /** The element was there and never touched, or was put last. */
  ghost predicate Remains(s: Store, ops: seq<Op>, e: Element) {
    (Lookup(s, e.key) == Success(e) && Settles(s, ops, e.key, 0)) || exists i: nat :: PutLast(s, ops, e, i)
  }

  lemma SettlesSnoc(s: Store, ops: seq<Op>, key: Bytes, i: nat)
    requires ops != []
    ensures var n := |ops| - 1;
            Settles(s, ops, key, i) <==>
              Settles(s, ops[..n], key, i) && (i <= n && ops[n].Key() == key ==> Exec(After(s, ops[..n]), ops[n]).Failure?)
  {
    var n := |ops| - 1;
    assert forall j :: 0 <= j < n ==> ops[..n][j] == ops[j] && ops[..n][..j] == ops[..j];
  }

  lemma PutLastSnoc(s: Store, ops: seq<Op>, e: Element, i: nat)
    requires i < |ops| - 1
    ensures var n := |ops| - 1;
            PutLast(s, ops, e, i) <==>
              PutLast(s, ops[..n], e, i) && (ops[n].Key() == e.key ==> Exec(After(s, ops[..n]), ops[n]).Failure?)
  {
    var n := |ops| - 1;
    SettlesSnoc(s, ops, e.key, i + 1);
    assert ops[..n][i] == ops[i] && ops[..n][..i] == ops[..i];
  }

  /** An operation that does nothing to the key leaves what remains. */
  lemma RemainsUntouched(s: Store, ops: seq<Op>, e: Element)
    requires ops != []
    requires var n := |ops| - 1; ops[n].Key() == e.key ==> Exec(After(s, ops[..n]), ops[n]).Failure?
    ensures Remains(s, ops, e) <==> Remains(s, ops[..|ops| - 1], e)
  {
    var n := |ops| - 1;
    SettlesSnoc(s, ops, e.key, 0);
    if exists i: nat :: PutLast(s, ops, e, i) {
      var i: nat :| PutLast(s, ops, e, i);
      PutLastSnoc(s, ops, e, i);
    }
    if exists i: nat :: PutLast(s, ops[..n], e, i) {
      var i: nat :| PutLast(s, ops[..n], e, i);
      PutLastSnoc(s, ops, e, i);
    }
  }

  /** One that succeeds on the key leaves it exactly if it is the put into an empty place. */
  lemma RemainsTouched(s: Store, ops: seq<Op>, e: Element)
    requires ops != []
    requires var n := |ops| - 1; ops[n].Key() == e.key && Exec(After(s, ops[..n]), ops[n]).Success?
    ensures var n := |ops| - 1; Remains(s, ops, e) <==> ops[n] == PutOp(e) && Level(After(s, ops[..n]), e.key) == 0
  {
    var n := |ops| - 1;
    SettlesSnoc(s, ops, e.key, 0);
    if exists i: nat :: PutLast(s, ops, e, i) {
      var i: nat :| PutLast(s, ops, e, i);
      if i < n { PutLastSnoc(s, ops, e, i); }
    }
    assert PutLast(s, ops, e, n) <==> ops[n] == PutOp(e) && Level(After(s, ops[..n]), e.key) == 0;
  }

  /** After any run a lookup finds exactly the element whose put went last into an empty place and
      was not removed, or what was there and never touched. */
  lemma {:induction false} FoundIffRemains(s: Store, ops: seq<Op>, e: Element)
    ensures Lookup(After(s, ops), e.key) == Success(e) <==> Remains(s, ops, e)
  {
    if ops != [] {
      var n := |ops| - 1;
      FoundIffRemains(s, ops[..n], e);
      var (before, last) := (After(s, ops[..n]), ops[n]);
      if last.Key() == e.key && Exec(before, last).Success? {
        RemainsTouched(s, ops, e);
      } else {
        RemainsUntouched(s, ops, e);
        if Exec(before, last).Success? { ExecLookup(before, last, e.key); }
      }
    }
  }

  // ---------------------------------------------------------------------------
  // Puts and removes commute

  ghost predicate HasPut(ops: seq<Op>, key: Bytes) {
    exists e :: PutOp(e) in ops && e.key == key
  }

  ghost predicate HasRemove(ops: seq<Op>, key: Bytes) {
    RemoveOp(key) in ops
  }

  /** Each key is put at most once and removed at most once. */
  ghost predicate AtMostOnce(ops: seq<Op>) {
    forall i, j :: 0 <= i < j < |ops| && ops[i].PutOp? == ops[j].PutOp? ==> ops[i].Key() != ops[j].Key()
  }

  ghost predicate Untouched(s: Store, ops: seq<Op>) {
    forall i :: 0 <= i < |ops| ==> ops[i].Key() !in s.values
  }

  /** What a run of at-most-once operations leaves at a key, read off the operations alone:
      put only - present with that element; removed only - a tombstone; both - nothing;
      neither - whatever was there. */
  ghost predicate Settled(s: Store, ops: seq<Op>, final: Store, key: Bytes) {
    if HasPut(ops, key) && HasRemove(ops, key) then
      key !in final.values
    else if HasPut(ops, key) then
      && key in final.values && final.values[key].present
      && PutOp(Element(key, final.values[key].value, final.values[key].traits)) in ops
    else if HasRemove(ops, key) then
      key in final.values && final.values[key] == Tombstone
    else
      && (key in final.values <==> key in s.values)
      && (key in s.values ==> final.values[key] == s.values[key])
  }

  /** No operation of such a run fails, in whatever order it comes. */
  lemma {:induction false} OnceRunsSettle(s: Store, ops: seq<Op>)
    requires AtMostOnce(ops) && Untouched(s, ops)
    ensures AllSucceed(s, ops)
    ensures forall key :: Settled(s, ops, After(s, ops), key)
  {
    if ops != [] {
      var n := |ops| - 1;
      var first := ops[..n];
      OnceRunsSettle(s, first);
      forall key ensures Exec(After(s, first), ops[n]).Success? && Settled(s, ops, After(s, ops), key) {
        assert Settled(s, first, After(s, first), key) && Settled(s, first, After(s, first), ops[n].Key());
        SettleStep(s, ops, key);
      }
      assert Settled(s, ops, After(s, ops), []);
      AllSucceedSnoc(s, ops);
    }
  }

  lemma SettleStep(s: Store, ops: seq<Op>, key: Bytes)
    requires ops != [] && AtMostOnce(ops) && Untouched(s, ops)
    requires var first := ops[..|ops| - 1];
             Settled(s, first, After(s, first), key) && Settled(s, first, After(s, first), ops[|ops| - 1].Key())
    ensures Exec(After(s, ops[..|ops| - 1]), ops[|ops| - 1]).Success?
    ensures Settled(s, ops, After(s, ops), key)
  {
    var n := |ops| - 1;
    var first, last := ops[..n], ops[n];
    assert ops == first + [last];
    assert !(if last.PutOp? then HasPut(first, last.Key()) else HasRemove(first, last.Key()));
    SettleSame(s, first, last, After(s, first));
    if key != last.Key() { SettleOther(s, first, last, After(s, first), key); }
  }

  /** At its own key the operation succeeds and settles the key. */
  lemma SettleSame(s: Store, first: seq<Op>, last: Op, mid: Store)
    requires Settled(s, first, mid, last.Key()) && last.Key() !in s.values
    requires !(if last.PutOp? then HasPut(first, last.Key()) else HasRemove(first, last.Key()))
    ensures Exec(mid, last).Success? && Settled(s, first + [last], Exec(mid, last).value, last.Key())
  {
    SnocMembership(first, last, last.Key());
  }

  lemma SettleOther(s: Store, first: seq<Op>, last: Op, mid: Store, key: Bytes)
    requires Settled(s, first, mid, key) && Exec(mid, last).Success? && key != last.Key()
    ensures Settled(s, first + [last], Exec(mid, last).value, key)
  {
    SnocMembership(first, last, key);
  }

  lemma SnocMembership(first: seq<Op>, last: Op, key: Bytes)
    ensures HasPut(first + [last], key) <==> HasPut(first, key) || (last.PutOp? && last.e.key == key)
    ensures HasRemove(first + [last], key) <==> HasRemove(first, key) || last == RemoveOp(key)
    ensures last in first + [last] && forall op :: op in first ==> op in first + [last]
  {
    var ops := first + [last];
    assert last == ops[|first|];
    if HasPut(first, key) {
      var e :| PutOp(e) in first && e.key == key;
      assert PutOp(e) in ops;
    }
  }

  lemma {:induction false} CountedTwice(ops: seq<Op>, op: Op) returns (i: nat, j: nat)
    requires multiset(ops)[op] >= 2
    ensures i < j < |ops| && ops[i] == op == ops[j]
  {
    var n := |ops| - 1;
    assert ops == ops[..n] + [ops[n]];
    if ops[n] == op {
      assert op in multiset(ops[..n]);
      i :| 0 <= i < n && ops[..n][i] == op;
      j := n;
    } else {
      i, j := CountedTwice(ops[..n], op);
    }
  }

  /** Repetition does not depend on the order. */
  lemma SameRepetitions(ops: seq<Op>, ops': seq<Op>)
    requires multiset(ops) == multiset(ops') && AtMostOnce(ops)
    ensures AtMostOnce(ops')
  {
    forall i, j | 0 <= i < j < |ops'| && ops'[i].PutOp? == ops'[j].PutOp? ensures ops'[i].Key() != ops'[j].Key() {
      SameMembers(ops, ops');
      if ops'[i] == ops'[j] {
        TwiceIsCounted(ops', i, j);
        var p, q := CountedTwice(ops, ops'[i]);
        assert false;
      } else {
        assert ops'[i] in ops && ops'[j] in ops;
        var p :| 0 <= p < |ops| && ops[p] == ops'[i];
        var q :| 0 <= q < |ops| && ops[q] == ops'[j];
      }
    }
  }

  lemma TwiceIsCounted(ops: seq<Op>, i: nat, j: nat)
    requires i < j < |ops| && ops[i] == ops[j]
    ensures multiset(ops)[ops[i]] >= 2
  {
    assert ops == ops[..j] + ops[j..];
    assert ops[..j][i] in multiset(ops[..j]) && ops[j..][0] in multiset(ops[j..]);
  }

  /** Any two orders of the same at-most-once puts and removes leave the same value entries. */
  lemma OrderDoesNotMatter(s: Store, ops: seq<Op>, ops': seq<Op>)
    requires multiset(ops) == multiset(ops') && AtMostOnce(ops) && Untouched(s, ops)
    ensures AllSucceed(s, ops) && AllSucceed(s, ops')
    ensures After(s, ops).values == After(s, ops').values
  {
    SameMembers(ops, ops');
    SameRepetitions(ops, ops');
    OnceRunsSettle(s, ops);
    assert Untouched(s, ops') by {
      forall i | 0 <= i < |ops'| ensures ops'[i].Key() !in s.values {
        assert ops'[i] in ops;
      }
    }
    OnceRunsSettle(s, ops');
    var a, b := After(s, ops).values, After(s, ops').values;
    forall key ensures (key in a <==> key in b) && (key in a && key in b ==> a[key] == b[key]) {
      assert Settled(s, ops, After(s, ops), key) && Settled(s, ops', After(s, ops'), key);
      assert HasRemove(ops, key) <==> HasRemove(ops', key);
      assert HasPut(ops, key) <==> HasPut(ops', key);
      if HasPut(ops, key) && !HasRemove(ops, key) {
        SamePut(ops, Element(key, a[key].value, a[key].traits), Element(key, b[key].value, b[key].traits));
      }
    }
  }

  lemma SameMembers(ops: seq<Op>, ops': seq<Op>)
    requires multiset(ops) == multiset(ops')
    ensures forall op :: op in ops <==> op in ops'
  {
    forall op ensures op in ops <==> op in ops' {
      assert op in ops <==> op in multiset(ops);
      assert op in ops' <==> op in multiset(ops');
    }
  }

  lemma SamePut(ops: seq<Op>, e: Element, e': Element)
    requires AtMostOnce(ops) && PutOp(e) in ops && PutOp(e') in ops && e.key == e'.key
    ensures e == e'
  {
    var i :| 0 <= i < |ops| && ops[i] == PutOp(e);
    var j :| 0 <= j < |ops| && ops[j] == PutOp(e');
  }

  // ---------------------------------------------------------------------------
  // The trait index

  /** A key is listed under a trait exactly when its entry is present and carries the trait,
      and no list repeats a key. */
  ghost predicate IndexExact(s: Store) {
    && (forall tag, key :: key in Listed(s.lists, tag) <==> Carries(s, key, tag))
    && (forall tag :: NoDuplicates(Listed(s.lists, tag)))
  }

  predicate Carries(s: Store, key: Bytes, tag: Bytes) {
    key in s.values && s.values[key].present && tag in s.values[key].traits
  }

  lemma LinkDeleteMembers(list: seq<Bytes>, key: Bytes)
    ensures forall k :: k in LinkDelete(list, key) <==> k in list && k != key
    ensures NoDuplicates(list) ==> NoDuplicates(LinkDelete(list, key))
  {
    if list != [] {
      LinkDeleteMembers(list[1..], key);
      assert list == [list[0]] + list[1..];
      var rest := LinkDelete(list[1..], key);
      if NoDuplicates(list) {
        assert NoDuplicates(list[1..]);
        assert forall j :: 0 <= j < |rest| ==> rest[j] in list[1..];
      }
    }
  }

  lemma {:induction false} AddKeyMembers(lists: map<Bytes, seq<Bytes>>, traits: seq<Bytes>, key: Bytes, t: Bytes, k: Bytes)
    ensures k in Listed(AddKey(lists, traits, key), t) <==> k in Listed(lists, t) || (k == key && t in traits)
    ensures NoDuplicates(Listed(lists, t)) ==> NoDuplicates(Listed(AddKey(lists, traits, key), t))
  {
    if traits != [] {
      var n := |traits| - 1;
      AddKeyMembers(lists, traits[..n], key, t, k);
      assert traits == traits[..n] + [traits[n]];
    }
  }

  lemma {:induction false} DropKeyMembers(lists: map<Bytes, seq<Bytes>>, traits: seq<Bytes>, key: Bytes, t: Bytes, k: Bytes)
    ensures k in Listed(DropKey(lists, traits, key), t) <==> k in Listed(lists, t) && !(k == key && t in traits)
    ensures NoDuplicates(Listed(lists, t)) ==> NoDuplicates(Listed(DropKey(lists, traits, key), t))
  {
    if traits != [] {
      var n := |traits| - 1;
      DropKeyMembers(lists, traits[..n], key, t, k);
      assert traits == traits[..n] + [traits[n]];
      LinkDeleteMembers(Listed(DropKey(lists, traits[..n], key), traits[n]), key);
    }
  }

  /** A new key becomes the head of the lists of its traits, and no other list changes. */
  lemma {:induction false} AddKeyLists(lists: map<Bytes, seq<Bytes>>, traits: seq<Bytes>, key: Bytes, t: Bytes)
    requires key !in Listed(lists, t)
    ensures Listed(AddKey(lists, traits, key), t) == if t in traits then [key] + Listed(lists, t) else Listed(lists, t)
  {
    if traits != [] {
      var n := |traits| - 1;
      AddKeyLists(lists, traits[..n], key, t);
      assert traits == traits[..n] + [traits[n]];
    }
  }

  /** The list closes up around a deleted key. */
  lemma {:induction false} LinkDeleteAt(list: seq<Bytes>, i: nat)
    requires i < |list| && NoDuplicates(list)
    ensures LinkDelete(list, list[i]) == list[..i] + list[i + 1..]
  {
    if i == 0 {
      LinkDeleteAbsent(list[1..], list[0]);
    } else {
      LinkDeleteAt(list[1..], i - 1);
      assert list[1..][..i - 1] == list[1..i] && list[1..][i..] == list[i + 1..];
      assert list[..i] == [list[0]] + list[1..i];
    }
  }

  lemma {:induction false} LinkDeleteAbsent(list: seq<Bytes>, key: Bytes)
    requires key !in list
    ensures LinkDelete(list, key) == list
  {
    if list != [] {
      LinkDeleteAbsent(list[1..], key);
      assert list == [list[0]] + list[1..];
    }
  }

  /** Removing a key closes up the lists of its traits around it, and no other list changes. */
  lemma {:induction false} DropKeyLists(lists: map<Bytes, seq<Bytes>>, traits: seq<Bytes>, key: Bytes, t: Bytes)
    ensures Listed(DropKey(lists, traits, key), t) == if t in traits then LinkDelete(Listed(lists, t), key) else Listed(lists, t)
  {
    if traits != [] {
      var n := |traits| - 1;
      DropKeyLists(lists, traits[..n], key, t);
      assert traits == traits[..n] + [traits[n]];
      LinkDeleteMembers(Listed(lists, t), key);
      LinkDeleteAbsent(LinkDelete(Listed(lists, t), key), key);
    }
  }

  lemma ExecKeepsIndex(s: Store, op: Op)
    requires IndexExact(s) && Exec(s, op).Success?
    ensures IndexExact(Exec(s, op).value)
  {
    var s' := Exec(s, op).value;
    forall tag, key ensures
      && (key in Listed(s'.lists, tag) <==> Carries(s', key, tag))
      && NoDuplicates(Listed(s'.lists, tag))
    {
      assert key in Listed(s.lists, tag) <==> Carries(s, key, tag);
      match op
      case PutOp(e) => AddKeyMembers(s.lists, e.traits, e.key, tag, key);
      case RemoveOp(k) =>
        if k in s.values { DropKeyMembers(s.lists, s.values[k].traits, k, tag, key); }
    }
    forall tag ensures NoDuplicates(Listed(s'.lists, tag)) {
      assert [] in Listed(s'.lists, tag) <==> Carries(s', [], tag);
    }
  }

  /** In every state a run of operations can reach, the index lists exactly the present
      elements under exactly their traits. */
  lemma {:induction false} IndexExactInEveryRun(ops: seq<Op>)
    ensures IndexExact(After(EmptyStore, ops))
  {
    if ops != [] {
      var n := |ops| - 1;
      IndexExactInEveryRun(ops[..n]);
      var before := After(EmptyStore, ops[..n]);
      if Exec(before, ops[n]).Success? { ExecKeepsIndex(before, ops[n]); }
    }
  }
}
