/** A store seen through an uncommitted layer of writes, as `versiondb` shows it
    (database/versiondb/db.go): reads fall through to the base, writes stay above. */
module VersionedState {
  import opened Common
  import opened AtomicState

  /** Pending writes: `None` marks a deleted value. */
  datatype Overlay = Overlay(values: map<Bytes, Option<DbElement>>, lists: map<Bytes, seq<Bytes>>)

  const NoWrites := Overlay(map[], map[])

  function View(base: Store, ov: Overlay): Store {
    Store(map k | k in base.values.Keys + ov.values.Keys && (k in ov.values ==> ov.values[k].Some?) ::
            if k in ov.values then ov.values[k].value else base.values[k],
          base.lists + ov.lists)
  }

  function Get(base: Store, ov: Overlay, key: Bytes): Option<DbElement> {
    if key in ov.values then ov.values[key]
    else if key in base.values then Some(base.values[key])
    else None
  }

  function LayeredAddKey(base: map<Bytes, seq<Bytes>>, ov: map<Bytes, seq<Bytes>>, traits: seq<Bytes>, key: Bytes)
    : map<Bytes, seq<Bytes>>
  {
    if traits == [] then ov
    else
      var before := LayeredAddKey(base, ov, traits[..|traits| - 1], key);
      var tag := traits[|traits| - 1];
      before[tag := LinkPut(Listed(base + before, tag), key)]
  }

  function LayeredDropKey(base: map<Bytes, seq<Bytes>>, ov: map<Bytes, seq<Bytes>>, traits: seq<Bytes>, key: Bytes)
    : map<Bytes, seq<Bytes>>
  {
    if traits == [] then ov
    else
      var before := LayeredDropKey(base, ov, traits[..|traits| - 1], key);
      var tag := traits[|traits| - 1];
      before[tag := LinkDelete(Listed(base + before, tag), key)]
  }

  /** `SetValue` and `RemoveValue` run on the layered database: only touched entries are written. */
  function LayeredExec(base: Store, ov: Overlay, op: Op): Result<Overlay, Error> {
    var key := op.Key();
    match Get(base, ov, key)
    case None =>
      if op.PutOp? then
        Success(Overlay(ov.values[key := Some(DbElement(true, op.e.value, op.e.traits))],
                        LayeredAddKey(base.lists, ov.lists, op.e.traits, key)))
      else
        Success(ov.(values := ov.values[key := Some(Tombstone)]))
    case Some(d) =>
      if op.PutOp? == d.present then Failure(DuplicatedOperation)
      else if op.PutOp? then Success(ov.(values := ov.values[key := None]))
      else Success(Overlay(ov.values[key := None], LayeredDropKey(base.lists, ov.lists, d.traits, key)))
  }

  lemma MergeUpdate<V>(base: map<Bytes, V>, ov: map<Bytes, V>, tag: Bytes, v: V)
    ensures base + ov[tag := v] == (base + ov)[tag := v]
  {}

  lemma {:induction false} LayeredAddAgrees(
    base: map<Bytes, seq<Bytes>>, ov: map<Bytes, seq<Bytes>>, traits: seq<Bytes>, key: Bytes)
    ensures base + LayeredAddKey(base, ov, traits, key) == AddKey(base + ov, traits, key)
  {
    if traits != [] {
      var n := |traits| - 1;
      LayeredAddAgrees(base, ov, traits[..n], key);
      var before := LayeredAddKey(base, ov, traits[..n], key);
      MergeUpdate(base, before, traits[n], LinkPut(Listed(base + before, traits[n]), key));
    }
  }

  lemma {:induction false} LayeredDropAgrees(
    base: map<Bytes, seq<Bytes>>, ov: map<Bytes, seq<Bytes>>, traits: seq<Bytes>, key: Bytes)
    ensures base + LayeredDropKey(base, ov, traits, key) == DropKey(base + ov, traits, key)
  {
    if traits != [] {
      var n := |traits| - 1;
      LayeredDropAgrees(base, ov, traits[..n], key);
      var before := LayeredDropKey(base, ov, traits[..n], key);
      MergeUpdate(base, before, traits[n], LinkDelete(Listed(base + before, traits[n]), key));
    }
  }

  lemma ViewValueWrites(base: Store, ov: Overlay, key: Bytes, d: DbElement)
    ensures View(base, ov.(values := ov.values[key := Some(d)])).values == View(base, ov).values[key := d]
    ensures View(base, ov.(values := ov.values[key := None])).values == View(base, ov).values - {key}
    ensures Get(base, ov, key) == if key in View(base, ov).values then Some(View(base, ov).values[key]) else None
  {}

  /** Working in the layer is working on the store the layer shows, errors included. */
  lemma LayeredExecRefines(base: Store, ov: Overlay, op: Op)
    ensures match LayeredExec(base, ov, op)
            case Success(ov') => Exec(View(base, ov), op) == Success(View(base, ov'))
            case Failure(e) => Exec(View(base, ov), op) == Failure(e)
  {
    var v := View(base, ov);
    var key := op.Key();
    ViewValueWrites(base, ov, key, if op.PutOp? then DbElement(true, op.e.value, op.e.traits) else Tombstone);
    if op.PutOp? {
      LayeredAddAgrees(base.lists, ov.lists, op.e.traits, key);
    } else if key in v.values {
      LayeredDropAgrees(base.lists, ov.lists, v.values[key].traits, key);
    }
  }

  lemma ViewOfNoWrites(base: Store)
    ensures View(base, NoWrites) == base
  {
    assert base.lists + map[] == base.lists;
  }
}
