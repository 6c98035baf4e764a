/** The gossip tracker keeps, per peer, a bit set over the positions of an array of validators,
    and fills the gap of a removed validator with the last one
    (network/peer/gossip_tracker.go). Seen from outside it is a set of validators per peer. */
module GossipTracker {
  import opened Common
  import Net = PeerNetwork

  type NodeID = Net.NodeID
  type Tx = Net.TxID

  datatype ValidatorID = ValidatorID(node: NodeID, tx: Tx)

  /** The nodes a bit set stands for. */
  ghost function Named(ids: seq<ValidatorID>, bits: set<nat>): set<NodeID> {
    set i | i in bits && i < |ids| :: ids[i].node
  }

  ghost predicate DistinctNodes(ids: seq<ValidatorID>) {
    forall i, j :: 0 <= i < j < |ids| ==> ids[i].node != ids[j].node
  }

  /** The last validator takes the place of the removed one. */
  function Filled(ids: seq<ValidatorID>, i: nat): seq<ValidatorID>
    requires i < |ids|
  {
    ids[i := ids[|ids| - 1]][..|ids| - 1]
  }

  /** And the last bit the place of the removed bit. */
  function FilledBits(bits: set<nat>, i: nat, last: nat): set<nat> {
    (if i == last then bits else if last in bits then bits + {i} else bits - {i}) - {last}
  }

  ghost predicate In(ids: seq<ValidatorID>, bits: set<nat>, v: NodeID) {
    exists i :: 0 <= i < |ids| && i in bits && ids[i].node == v
  }

  lemma NamedIsIn(ids: seq<ValidatorID>, bits: set<nat>, v: NodeID)
    ensures v in Named(ids, bits) <==> In(ids, bits, v)
  {}

  /** Moving the last validator into the gap makes every peer forget the removed validator and
      no other. */
  lemma FillingForgetsOne(ids: seq<ValidatorID>, bits: set<nat>, i: nat)
    requires i < |ids| && DistinctNodes(ids)
    ensures Named(Filled(ids, i), FilledBits(bits, i, |ids| - 1)) == Named(ids, bits) - {ids[i].node}
  {
    var (last, ids', bits') := (|ids| - 1, Filled(ids, i), FilledBits(bits, i, |ids| - 1));
    forall v ensures In(ids', bits', v) <==> In(ids, bits, v) && v != ids[i].node {
      if In(ids', bits', v) {
        var k :| 0 <= k < |ids'| && k in bits' && ids'[k].node == v;
        var k0 := if k == i then last else k;
        assert k0 in bits && ids[k0].node == v;
      }
      if In(ids, bits, v) && v != ids[i].node {
        var k :| 0 <= k < |ids| && k in bits && ids[k].node == v;
        var k1 := if k == last then i else k;
        assert k1 in bits' && ids'[k1].node == v;
      }
    }
    forall v ensures v in Named(ids', bits') <==> v in Named(ids, bits) - {ids[i].node} {
      NamedIsIn(ids', bits', v);
      NamedIsIn(ids, bits, v);
    }
  }

  lemma ClearingForgetsOne(ids: seq<ValidatorID>, bits: set<nat>, i: nat)
    requires i < |ids| && DistinctNodes(ids)
    ensures Named(ids, bits - {i}) == Named(ids, bits) - {ids[i].node}
  {}

  lemma SettingAddsOne(ids: seq<ValidatorID>, bits: set<nat>, i: nat)
    requires i < |ids|
    ensures Named(ids, bits + {i}) == Named(ids, bits) + {ids[i].node}
  {
    forall v ensures v in Named(ids, bits + {i}) <==> v in Named(ids, bits) + {ids[i].node} {
      NamedIsIn(ids, bits + {i}, v);
      NamedIsIn(ids, bits, v);
      assert v == ids[i].node ==> i in bits + {i};
    }
  }

  ghost function AllNamed(ids: seq<ValidatorID>, bits: map<NodeID, set<nat>>): map<NodeID, set<NodeID>> {
    map p | p in bits :: Named(ids, bits[p])
  }

  lemma NamedUpdate(ids: seq<ValidatorID>, bits: map<NodeID, set<nat>>, p: NodeID, known: set<nat>)
    ensures AllNamed(ids, bits[p := known]) == AllNamed(ids, bits)[p := Named(ids, known)]
  {}

  /** A new position is in no bit set. */
  lemma AppendingKeeps(ids: seq<ValidatorID>, bits: set<nat>, x: ValidatorID)
    requires forall b :: b in bits ==> b < |ids|
    ensures Named(ids + [x], bits) == Named(ids, bits)
  {
    forall i | i in bits ensures (ids + [x])[i] == ids[i] {}
  }

  /** The maps and the array describe the same validators, each at one position. */
  ghost predicate Indexed(txs: map<Tx, NodeID>, indices: map<NodeID, nat>, ids: seq<ValidatorID>) {
    && (forall v :: v in indices ==> indices[v] < |ids| && ids[indices[v]].node == v)
    && (forall i :: 0 <= i < |ids| ==> ids[i].node in indices && indices[ids[i].node] == i)
    && (forall i :: 0 <= i < |ids| ==> ids[i].tx in txs && txs[ids[i].tx] == ids[i].node)
    && (forall tx :: tx in txs ==> txs[tx] in indices && ids[indices[txs[tx]]].tx == tx)
  }

  ghost function Members(indices: map<NodeID, nat>, ids: seq<ValidatorID>): map<NodeID, Tx>
    requires forall v :: v in indices ==> indices[v] < |ids|
  {
    map v | v in indices :: ids[indices[v]].tx
  }

  /** The maps after the array was filled. */
  ghost function FilledIndices(indices: map<NodeID, nat>, ids: seq<ValidatorID>, i: nat): map<NodeID, nat>
    requires i < |ids|
  {
    indices[ids[|ids| - 1].node := i] - {ids[i].node}
  }

  lemma FillingKeepsIndexed(txs: map<Tx, NodeID>, indices: map<NodeID, nat>, ids: seq<ValidatorID>, i: nat)
    requires i < |ids| && Indexed(txs, indices, ids)
    ensures Indexed(txs - {ids[i].tx}, FilledIndices(indices, ids, i), Filled(ids, i))
    ensures Members(FilledIndices(indices, ids, i), Filled(ids, i)) == Members(indices, ids) - {ids[i].node}
  {
    var (last, ids') := (|ids| - 1, Filled(ids, i));
    forall k | 0 <= k < last ensures ids'[k] == ids[if k == i then last else k] {}
  }

  lemma AppendingKeepsIndexed(txs: map<Tx, NodeID>, indices: map<NodeID, nat>, ids: seq<ValidatorID>, x: ValidatorID)
    requires Indexed(txs, indices, ids) && x.node !in indices && x.tx !in txs
    ensures Indexed(txs[x.tx := x.node], indices[x.node := |ids|], ids + [x])
    ensures Members(indices[x.node := |ids|], ids + [x]) == Members(indices, ids)[x.node := x.tx]
  {}

  /** The validators that the given transactions registered. */
  ghost function RegisteredBy(validators: map<NodeID, Tx>, txs: seq<Tx>): set<NodeID> {
    set v | v in validators && validators[v] in txs
  }

  class Tracker {
    var txs: map<Tx, NodeID>
    var indices: map<NodeID, nat>
    var ids: seq<ValidatorID>
    var bits: map<NodeID, set<nat>>

    /** No bit is set beyond the array. */
    ghost predicate Valid()
      reads this
    {
      Indexed(txs, indices, ids) && forall p, b :: p in bits && b in bits[p] ==> b < |ids|
    }

    ghost function Validators(): map<NodeID, Tx>
      reads this
      requires Valid()
    {
      Members(indices, ids)
    }

    /** What each tracked peer knows of. */
    ghost function Known(): map<NodeID, set<NodeID>>
      reads this
    {
      AllNamed(ids, bits)
    }

    /** A transaction is in the map exactly if it registered a validator. */
    lemma TxOfValidator(tx: Tx)
      requires Valid()
      ensures tx in txs <==> exists v :: v in Validators() && Validators()[v] == tx
    {
      if tx in txs { assert Validators()[txs[tx]] == tx; }
    }

    constructor ()
      ensures Valid() && Validators() == map[] && Known() == map[]
    {
      txs, indices, ids, bits := map[], map[], [], map[];
    }

    method StartTrackingPeer(p: NodeID) returns (ok: bool)
      requires Valid()
      modifies this`bits
      ensures Valid() && (ok <==> p !in old(Known()))
      ensures Known() == if ok then old(Known())[p := {}] else old(Known())
    {
      if p in bits { return false; }
      NamedUpdate(ids, bits, p, {});
      assert Named(ids, {}) == {};
      bits := bits[p := {}];
      return true;
    }

    method StopTrackingPeer(p: NodeID) returns (ok: bool)
      requires Valid()
      modifies this`bits
      ensures Valid() && (ok <==> p in old(Known())) && Known() == old(Known()) - {p}
    {
      if p !in bits { return false; }
      bits := bits - {p};
      return true;
    }

    /** A validator is added unless its node or its transaction is there; nobody knows of it. */
    method AddValidator(x: ValidatorID) returns (ok: bool)
      requires Valid()
      modifies this`txs, this`indices, this`ids
      ensures Valid()
      ensures ok <==> old(x.node !in Validators() && forall v :: v in Validators() ==> Validators()[v] != x.tx)
      ensures Validators() == if ok then old(Validators())[x.node := x.tx] else old(Validators())
      ensures Known() == old(Known())
    {
      TxOfValidator(x.tx);
      if x.tx in txs { return false; }
      if x.node in indices { return false; }
      forall p | p in bits ensures Named(ids + [x], bits[p]) == Named(ids, bits[p]) {
        AppendingKeeps(ids, bits[p], x);
      }
      AppendingKeepsIndexed(txs, indices, ids, x);
      txs := txs[x.tx := x.node];
      indices := indices[x.node := |ids|];
      ids := ids + [x];
      return true;
    }

    method GetNodeID(tx: Tx) returns (r: Option<NodeID>)
      requires Valid()
      ensures r.Some? ==> r.value in Validators() && Validators()[r.value] == tx
      ensures r.None? ==> forall v :: v in Validators() ==> Validators()[v] != tx
    {
      TxOfValidator(tx);
      if tx in txs { return Some(txs[tx]); }
      return None;
    }

    /** No bit stands for a node that is no validator. */
    lemma NobodyKnows(v: NodeID)
      requires Valid() && v !in Validators()
      ensures Known() == Net.Forget(Known(), v)
    {
      forall p | p in bits ensures Named(ids, bits[p]) - {v} == Named(ids, bits[p]) { NamedIsIn(ids, bits[p], v); }
    }

    /** Every peer forgets the removed validator and nothing else. */
    method RemoveValidator(v: NodeID) returns (ok: bool)
      requires Valid()
      modifies this
      ensures Valid() && (ok <==> v in old(Validators()))
      ensures Validators() == old(Validators()) - {v} && Known() == Net.Forget(old(Known()), v)
    {
      if v !in indices {
        NobodyKnows(v);
        return false;
      }
      var i, last := indices[v], |ids| - 1;
      forall p | p in bits
        ensures Named(Filled(ids, i), FilledBits(bits[p], i, last)) == Named(ids, bits[p]) - {v}
      {
        FillingForgetsOne(ids, bits[p], i);
      }
      FillingKeepsIndexed(txs, indices, ids, i);
      RemoveFromArray(i);
      FillBits(i, last);
      return true;
    }

    /** The last validator moves to position `i`. */
    method RemoveFromArray(i: nat)
      requires i < |ids|
      modifies this`txs, this`indices, this`ids
      ensures txs == old(txs) - {old(ids)[i].tx}
      ensures indices == FilledIndices(old(indices), old(ids), i) && ids == Filled(old(ids), i)
    {
      var removed, last := ids[i], |ids| - 1;
      if i != last {
        var moved := ids[last];
        indices := indices[moved.node := i];
        ids := ids[i := moved];
      }
      txs := txs - {removed.tx};
      indices := indices - {removed.node};
      ids := ids[..last];
    }

    method FillBits(i: nat, last: nat)
      modifies this`bits
      ensures bits.Keys == old(bits).Keys
      ensures forall p :: p in bits ==> bits[p] == FilledBits(old(bits)[p], i, last)
    {
      var todo := bits.Keys;
      while todo != {}
        invariant todo <= bits.Keys == old(bits).Keys
        invariant forall p :: p in bits ==> bits[p] == if p in todo then old(bits)[p] else FilledBits(old(bits)[p], i, last)
        decreases todo
      {
        var p :| p in todo;
        var known := bits[p];
        if i != last {
          known := if last in known then known + {i} else known - {i};
        }
        bits := bits[p := known - {last}];
        todo := todo - {p};
      }
    }

    /** Every peer forgets this validator, which stays. */
    method ResetValidator(v: NodeID) returns (ok: bool)
      requires Valid()
      modifies this`bits
      ensures Valid() && (ok <==> v in Validators()) && Known() == Net.Forget(old(Known()), v)
    {
      if v !in indices {
        NobodyKnows(v);
        return false;
      }
      var i := indices[v];
      forall p | p in bits ensures Named(ids, bits[p] - {i}) == Named(ids, bits[p]) - {v} {
        ClearingForgetsOne(ids, bits[p], i);
      }
      var todo := bits.Keys;
      while todo != {}
        invariant todo <= bits.Keys == old(bits).Keys
        invariant forall p :: p in bits ==> bits[p] == if p in todo then old(bits)[p] else old(bits)[p] - {i}
        decreases todo
      {
        var p :| p in todo;
        bits := bits[p := bits[p] - {i}];
        todo := todo - {p};
      }
      return true;
    }

    /** One more transaction stands for the validator it registered, if it did. */
    lemma RegisteredSnoc(knownTxs: seq<Tx>, k: nat)
      requires Valid() && k < |knownTxs|
      ensures var tx := knownTxs[k];
              RegisteredBy(Validators(), knownTxs[..k + 1]) ==
                RegisteredBy(Validators(), knownTxs[..k]) + if tx in txs then {txs[tx]} else {}
    {
      var (tx, before, after) := (knownTxs[k], knownTxs[..k], knownTxs[..k + 1]);
      assert after == before + [tx];
      forall v | v in Validators() ensures Validators()[v] == tx <==> tx in txs && txs[tx] == v {
        assert ids[indices[v]].node == v;
      }
    }

    /** A peer's bits once it knows of the validators registered by the given transactions. */
    method KnownBits(p: NodeID, knownTxs: seq<Tx>) returns (known: set<nat>)
      requires Valid() && p in bits
      ensures Named(ids, known) == Named(ids, bits[p]) + RegisteredBy(Validators(), knownTxs)
      ensures forall b :: b in known ==> b < |ids|
    {
      known := bits[p];
      for k := 0 to |knownTxs|
        invariant forall b :: b in known ==> b < |ids|
        invariant Named(ids, known) == Named(ids, bits[p]) + RegisteredBy(Validators(), knownTxs[..k])
      {
        RegisteredSnoc(knownTxs, k);
        var tx := knownTxs[k];
        if tx in txs {
          SettingAddsOne(ids, known, indices[txs[tx]]);
          known := known + {indices[txs[tx]]};
        }
      }
      assert knownTxs[..|knownTxs|] == knownTxs;
    }

    /** The peer comes to know of the validators registered by the given transactions; of the
        others, those that are registered are returned in order. */
    method AddKnown(p: NodeID, knownTxs: seq<Tx>, others: seq<Tx>) returns (r: Option<seq<Tx>>)
      requires Valid()
      modifies this`bits
      ensures Valid() && (r.Some? <==> p in old(Known()))
      ensures r.Some? ==> Known() == old(Known())[p := old(Known())[p] + RegisteredBy(Validators(), knownTxs)]
      ensures r.Some? ==> r.value == Kept(txs.Keys, others)
      ensures r.None? ==> Known() == old(Known())
    {
      if p !in bits { return None; }
      var known := KnownBits(p, knownTxs);
      NamedUpdate(ids, bits, p, known);
      bits := bits[p := known];
      var kept: seq<Tx> := [];
      for k := 0 to |others|
        invariant kept == Kept(txs.Keys, others[..k])
      {
        assert others[..k + 1][..k] == others[..k];
        if others[k] in txs { kept := kept + [others[k]]; }
      }
      assert others[..|others|] == others;
      return Some(kept);
    }

    /** Exactly the validators the peer does not know of, each once. */
    method GetUnknown(p: NodeID) returns (r: Option<seq<ValidatorID>>)
      requires Valid()
      ensures r.Some? <==> p in Known()
      ensures r.Some? ==> DistinctNodes(r.value) && forall x :: x in r.value <==>
                x.node in Validators() && Validators()[x.node] == x.tx && x.node !in Known()[p]
    {
      if p !in bits { return None; }
      var result: seq<ValidatorID> := [];
      for i := 0 to |ids|
        invariant DistinctNodes(result)
        invariant forall x :: x in result <==> x in ids[..i] && indices[x.node] !in bits[p]
      {
        if i !in bits[p] { result := result + [ids[i]]; }
      }
      forall x ensures x in ids && indices[x.node] !in bits[p] <==>
                x.node in Validators() && Validators()[x.node] == x.tx && x.node !in Known()[p]
      {
        NamedIsIn(ids, bits[p], x.node);
      }
      return Some(result);
    }
  }

  lemma {:induction false} KeptMembers(registered: set<Tx>, txs: seq<Tx>, tx: Tx)
    ensures tx in Kept(registered, txs) <==> tx in txs && tx in registered
  {
    if txs != [] { KeptMembers(registered, txs[..|txs| - 1], tx); }
  }

  /** A permutation keeps the validators, each once. */
  lemma PermutedNodes(ids: seq<ValidatorID>, other: seq<ValidatorID>)
    requires DistinctNodes(ids) && multiset(other) == multiset(ids)
    ensures DistinctNodes(other) && forall x :: x in other <==> x in ids
  {
    forall x ensures x in other <==> x in ids { assert x in multiset(other) <==> x in multiset(ids); }
    forall i, j | 0 <= i < j < |other| ensures other[i].node != other[j].node {
      if other[i] == other[j] {
        TwiceIsTwo(other, i, j);
        OnceIsOne(ids, other[i]);
      } else {
        assert other[i] in ids && other[j] in ids;
        var k :| 0 <= k < |ids| && ids[k] == other[i];
        var l :| 0 <= l < |ids| && ids[l] == other[j];
      }
    }
  }

  lemma TwiceIsTwo(s: seq<ValidatorID>, i: nat, j: nat)
    requires i < j < |s| && s[i] == s[j]
    ensures multiset(s)[s[i]] >= 2
  {
    assert s == s[..j] + [s[j]] + s[j + 1..];
    assert s[..j][i] == s[i];
  }

  lemma {:induction false} OnceIsOne(s: seq<ValidatorID>, x: ValidatorID)
    requires DistinctNodes(s)
    ensures multiset(s)[x] <= 1
  {
    if s != [] {
      var k := |s| - 1;
      OnceIsOne(s[..k], x);
      assert s == s[..k] + [s[k]];
      if s[k] == x { assert x !in s[..k]; }
    }
  }

  function Kept(registered: set<Tx>, txs: seq<Tx>): seq<Tx> {
    if txs == [] then []
    else
      var rest := Kept(registered, txs[..|txs| - 1]);
      if txs[|txs| - 1] in registered then rest + [txs[|txs| - 1]] else rest
  }
}
