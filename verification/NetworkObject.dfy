/** The network object: the methods that run under its lock, on its own fields and its gossip
    tracker (network/network.go). The step functions of PeerNetwork say what each does. */
module NetworkObject {
  import opened Common
  import opened PeerNetwork
  import G = GossipTracker

  class Network {
    var peerIPs: map<NodeID, Claim>
    var tracked: map<NodeID, IPPort>
    var manual: set<NodeID>
    var connecting: set<NodeID>
    var connected: set<NodeID>
    var closing: bool
    ghost var leaving: map<NodeID, Leaving>       // `Disconnected` calls between their two locks
    var validators: map<NodeID, TxID>             // the primary network's validators
    const tracker: G.Tracker

    /** The tracker has the same validators, each registered by its own transaction. */
    ghost predicate Valid()
      reads this, tracker
    {
      && tracker.Valid() && tracker.Validators() == validators
      && forall v :: v in validators ==> validators[v].node == v
    }

    ghost function State(): Net
      reads this, tracker
    {
      Net(peerIPs, tracked, manual, connecting, connected, closing, leaving, validators, tracker.Known())
    }

    constructor ()
      ensures Valid() && fresh(tracker) && State() == NewNet && Inv(State())
    {
      peerIPs, tracked, manual, connecting, connected := map[], map[], {}, {}, {};
      closing, leaving, validators := false, map[], map[];
      tracker := new G.Tracker();
    }

    predicate WantsConnection(id: NodeID)
      reads this, tracker
      ensures WantsConnection(id) <==> State().Wants(id)
    {
      id in validators || id in manual
    }

    method ResetValidator(id: NodeID)
      requires Valid()
      modifies tracker`bits
      ensures Valid() && State() == Reset(old(State()), id)
    {
      if id !in validators { tracker.NobodyKnows(id); }
      var _ := tracker.ResetValidator(id);
    }

    /** The claim is stored if it is newer; a changed address is gossiped afresh. */
    method StoreClaim(id: NodeID, claim: Claim)
      requires Valid()
      modifies this`peerIPs, tracker`bits
      ensures Valid() && State() == Stored(old(State()), id, claim)
    {
      if id !in peerIPs {
        peerIPs := peerIPs[id := claim];
      } else if peerIPs[id].ts < claim.ts {
        var previous := peerIPs[id];
        peerIPs := peerIPs[id := claim];
        if previous.ip != claim.ip { ResetValidator(id); }
      }
    }

    /** The peer of a finished handshake, which has not begun to disconnect, with its own claim. */
    method Connected(id: NodeID, claim: Claim)
      requires Valid() && Inv(State()) && Allowed(State(), EConnected(id, claim))
      modifies this, tracker`bits
      ensures Valid() && State() == PeerNetwork.Connected(old(State()), id, claim) && Inv(State())
    {
      ConnectedKeepsInv(State(), id, claim);
      if id !in connecting { return; }
      StoreClaim(id, claim);
      tracked := tracked - {id};
      connecting := connecting - {id};
      connected := connected + {id};
    }

    /** Signatures are checked only where the claim would be used; `genuine` holds the claims
        whose signature checks. No claim is called verified unless it is one. */
    method AuthenticateIPs(list: seq<Gossip>, genuine: set<Claim>) returns (r: Option<seq<bool>>)
      ensures r.Some? ==> |r.value| == |list|
      ensures r.Some? ==> forall i :: 0 <= i < |list| ==> (r.value[i] <==> Useful(list[i].claim) && list[i].claim in genuine)
      ensures r.None? <==> exists i :: 0 <= i < |list| && Useful(list[i].claim) && list[i].claim !in genuine
    {
      var verified: seq<bool> := [];
      for i := 0 to |list|
        invariant |verified| == i
        invariant forall j :: 0 <= j < i ==> (verified[j] <==> Useful(list[j].claim)) && (verified[j] ==> list[j].claim in genuine)
      {
        var useful := Useful(list[i].claim);
        if useful && list[i].claim !in genuine { return None; }
        verified := verified + [useful];
      }
      return Some(verified);
    }

    /** It is newer than the entry, or new and wanted. */
    predicate Useful(c: Claim)
      reads this, tracker
    {
      if c.node in peerIPs then peerIPs[c.node].ts < c.ts else WantsConnection(c.node)
    }

    /** So a signature is checked exactly where it makes a difference to what is stored. */
    lemma UsefulIff(g: Gossip, newest: map<TxID, nat>, upToDate: seq<TxID>)
      ensures var t := Tracking(State(), newest, upToDate);
              Useful(g.claim) <==> TrackOne(t, g, true).net.peerIPs != TrackOne(t, g, false).net.peerIPs
    {
      var (t, c) := (Tracking(State(), newest, upToDate), g.claim);
      if Useful(c) { assert c.node in TrackOne(t, g, true).net.peerIPs && TrackOne(t, g, true).net.peerIPs[c.node] == c; }
    }

    /** The verified claim is newer than the entry: it replaces it, and a changed address is
        gossiped and dialed afresh. */
    method UpdateIP(c: Claim)
      requires Valid() && c.node in peerIPs
      modifies this`peerIPs, this`tracked, tracker`bits
      ensures Valid() && State() == Updated(old(State()), c)
    {
      var previous := peerIPs[c.node];
      peerIPs := peerIPs[c.node := c];
      if previous.ip == c.ip { return; }
      ResetValidator(c.node);
      if c.node in tracked { tracked := tracked[c.node := c.ip]; }
    }

    method TrackClaim(g: Gossip, verified: bool, newest: map<TxID, nat>, upToDate: seq<TxID>)
      returns (newest': map<TxID, nat>, upToDate': seq<TxID>)
      requires Valid()
      modifies this`peerIPs, this`tracked, tracker`bits
      ensures Valid()
      ensures Tracking(State(), newest', upToDate') == TrackOne(Tracking(old(State()), newest, upToDate), g, verified)
    {
      var c := g.claim;
      newest', upToDate' := newest, upToDate;
      if c.node in peerIPs && peerIPs[c.node].ts > c.ts {
        newest' := newest[g.tx := peerIPs[c.node].ts];
      } else if c.node in peerIPs && peerIPs[c.node].ts == c.ts {
        newest', upToDate' := newest[g.tx := c.ts], upToDate + [g.tx];
      } else if verified && c.node in peerIPs {
        UpdateIP(c);
        newest', upToDate' := newest[g.tx := c.ts], upToDate + [g.tx];
      } else if verified && WantsConnection(c.node) {
        newest', upToDate' := newest[g.tx := c.ts], upToDate + [g.tx];
        peerIPs := peerIPs[c.node := c];
        tracked := tracked[c.node := c.ip];
      }
    }

    method TrackEach(list: seq<Gossip>, verified: seq<bool>) returns (newest: map<TxID, nat>, upToDate: seq<TxID>)
      requires Valid() && |verified| == |list|
      modifies this`peerIPs, this`tracked, tracker`bits
      ensures Valid() && Tracking(State(), newest, upToDate) == TrackAll(old(State()), list, verified)
    {
      newest, upToDate := map[], [];
      for i := 0 to |list|
        invariant Valid() && Tracking(State(), newest, upToDate) == TrackAll(old(State()), list[..i], verified[..i])
      {
        assert list[..i + 1][..i] == list[..i] && verified[..i + 1][..i] == verified[..i];
        newest, upToDate := TrackClaim(list[i], verified[i], newest, upToDate);
      }
      assert list[..|list|] == list && verified[..|list|] == verified;
    }

    /** Only transactions that registered a current validator are acknowledged. */
    method Track(peer: NodeID, list: seq<Gossip>, verified: seq<bool>) returns (acks: map<TxID, nat>)
      requires Valid() && Inv(State()) && |verified| == |list|
      modifies this`peerIPs, this`tracked, tracker`bits
      ensures Valid() && (State(), acks) == PeerNetwork.Track(old(State()), peer, list, verified) && Inv(State())
    {
      TrackKeepsInv(State(), peer, list, verified);
      var newest, upToDate := TrackEach(list, verified);
      acks := Acknowledge(peer, newest, upToDate);
    }

    method Acknowledge(peer: NodeID, newest: map<TxID, nat>, upToDate: seq<TxID>) returns (acks: map<TxID, nat>)
      requires Valid()
      modifies tracker`bits
      ensures Valid()
      ensures (State(), acks) == if peer !in old(State()).known then (old(State()), map[])
                                 else (PeerNetwork.AddKnown(old(State()), peer, upToDate), Acknowledged(old(State()), newest))
    {
      var acked := KeysOf(newest);
      var kept := AddKnown(peer, upToDate, acked);
      if kept.None? { return map[]; }
      acks := map tx | tx in kept.value && tx in newest :: newest[tx];
      assert acks == Acknowledged(old(State()), newest);
    }

    /** A transaction is in the tracker exactly if it registered a current validator. */
    lemma TrackerRegisters(tx: TxID)
      requires Valid()
      ensures tx in tracker.txs <==> State().Registered(tx)
    {
      tracker.TxOfValidator(tx);
    }

    /** The nodes of the registered transactions are the validators they registered. */
    lemma NodesOfRegistered(txs: seq<TxID>)
      requires Valid()
      ensures G.RegisteredBy(validators, txs) == RegisteredNodes(State(), txs)
    {
      forall v | v in G.RegisteredBy(validators, txs)
        ensures exists i :: 0 <= i < |txs| && State().Registered(txs[i]) && txs[i].node == v
      {
        var i :| 0 <= i < |txs| && txs[i] == validators[v];
        assert State().Registered(txs[i]);
      }
    }

    /** The peer comes to know of the registered among `txs`; the registered among `others` are
        returned. */
    method AddKnown(peer: NodeID, txs: seq<TxID>, others: seq<TxID>) returns (kept: Option<seq<TxID>>)
      requires Valid()
      modifies tracker`bits
      ensures Valid() && (kept.Some? <==> peer in old(State()).known)
      ensures kept.Some? ==> State() == PeerNetwork.AddKnown(old(State()), peer, txs)
      ensures kept.None? ==> State() == old(State())
      ensures kept.Some? ==> forall tx :: tx in kept.value <==> tx in others && State().Registered(tx)
    {
      NodesOfRegistered(txs);
      kept := tracker.AddKnown(peer, txs, others);
      forall tx ensures tx in G.Kept(tracker.txs.Keys, others) <==> tx in others && State().Registered(tx) {
        G.KeptMembers(tracker.txs.Keys, others, tx);
        TrackerRegisters(tx);
      }
    }

    /** The validator that a transaction registered is the one it names. */
    method NodeOf(tx: TxID) returns (r: Option<NodeID>)
      requires Valid()
      ensures r == if State().Registered(tx) then Some(tx.node) else None
    {
      r := tracker.GetNodeID(tx);
      assert tx.node in validators ==> tracker.Validators()[tx.node] == validators[tx.node];
    }

    /** The acknowledged transactions that count; none if a transaction ID does not parse. */
    method Confirm(acks: seq<(Option<TxID>, nat)>) returns (txs: Option<seq<TxID>>)
      requires Valid()
      ensures txs.Some? <==> forall i :: 0 <= i < |acks| ==> acks[i].0.Some?
      ensures txs.Some? ==> txs.value == Confirmed(State(), Parsed(acks))
    {
      var confirmed: seq<TxID> := [];
      ghost var n := State();
      for i := 0 to |acks|
        invariant forall j :: 0 <= j < i ==> acks[j].0.Some?
        invariant confirmed == Confirmed(n, Parsed(acks[..i]))
      {
        var (id, ts) := acks[i];
        if id.None? { return None; }
        ConfirmedStep(n, acks, i);
        var node := NodeOf(id.value);
        if node.Some? && node.value in peerIPs && peerIPs[node.value].ts <= ts {
          confirmed := confirmed + [id.value];
        }
      }
      assert acks[..|acks|] == acks;
      return Some(confirmed);
    }

    /** An acknowledgement whose transaction ID does not parse ends the call before anything is
        marked; `None` stands for one. */
    method MarkTracked(peer: NodeID, acks: seq<(Option<TxID>, nat)>) returns (ok: bool)
      requires Valid() && Inv(State())
      modifies tracker`bits
      ensures Valid() && (ok <==> forall i :: 0 <= i < |acks| ==> acks[i].0.Some?)
      ensures State() == if ok then PeerNetwork.MarkTracked(old(State()), peer, Parsed(acks)) else old(State())
      ensures Inv(State())
    {
      var txs := Confirm(acks);
      if txs.None? { return false; }
      MarkTrackedKeepsInv(State(), peer, Parsed(acks));
      var _ := AddKnown(peer, txs.value, []);
      return true;
    }

    /** `Disconnected`, first: the gossip tracker lets go of the peer. */
    method DisconnectBegin(id: NodeID)
      requires Valid() && Inv(State()) && Allowed(State(), EDisconnectBegin(id))
      modifies tracker`bits, this`leaving
      ensures Valid() && State() == PeerNetwork.DisconnectBegin(old(State()), id) && Inv(State())
    {
      DisconnectBeginKeepsInv(State(), id);
      var _ := tracker.StopTrackingPeer(id);
      leaving := leaving[id := Stopped];
    }

    /** Then what the read lock shows. */
    method DisconnectRead(id: NodeID) returns (wasConnecting: bool, wasConnected: bool)
      requires Valid() && Inv(State()) && Allowed(State(), EDisconnectRead(id))
      modifies this`leaving
      ensures Valid() && State() == PeerNetwork.DisconnectRead(old(State()), id) && Inv(State())
      ensures leaving[id] == Saw(wasConnecting, wasConnected)
    {
      DisconnectReadKeepsInv(State(), id);
      wasConnecting, wasConnected := id in connecting, id in connected;
      leaving := leaving[id := Saw(wasConnecting, wasConnected)];
    }

    /** Last, in any state the other calls can have led to, the helpers. */
    method DisconnectEnd(id: NodeID, wasConnecting: bool, wasConnected: bool)
      requires Valid() && Inv(State()) && id in leaving && leaving[id] == Saw(wasConnecting, wasConnected)
      modifies this
      ensures Valid() && Some(State()) == PeerNetwork.DisconnectEnd(old(State()), id) && Inv(State())
    {
      DisconnectEndKeepsInv(State(), id);
      assert At(State(), id);
      leaving := leaving - {id};
      if wasConnecting { DisconnectedFromConnecting(id); }
      if wasConnected { DisconnectedFromConnected(id); }
    }

    method DisconnectedFromConnecting(id: NodeID)
      requires Valid()
      modifies this`connecting, this`peerIPs, this`tracked
      ensures Valid() && State() == PeerNetwork.DisconnectedFromConnecting(old(State()), id)
    {
      connecting := connecting - {id};
      if id in tracked && !WantsConnection(id) {
        peerIPs := peerIPs - {id};
        tracked := tracked - {id};
      }
    }

    method DisconnectedFromConnected(id: NodeID)
      requires Valid() && id in peerIPs
      modifies this`connected, this`peerIPs, this`tracked
      ensures Valid() && Some(State()) == PeerNetwork.DisconnectedFromConnected(old(State()), id)
    {
      connected := connected - {id};
      if WantsConnection(id) {
        tracked := tracked[id := peerIPs[id].ip];
      } else {
        peerIPs := peerIPs - {id};
      }
    }

    /** What to gossip to a peer: `sample` is the order in which the sampler draws. At most
        `limit` of the connected validators that the peer does not know of, all of them if they
        fit, each with the claim held for it. */
    method Peers(peer: NodeID, sample: seq<G.ValidatorID> -> seq<G.ValidatorID>, limit: nat) returns (r: seq<Gossip>)
      requires Valid() && Inv(State()) && forall s :: multiset(sample(s)) == multiset(s)
      ensures peer !in State().known ==> r == []
      ensures |r| <= limit
      ensures forall i :: 0 <= i < |r| ==> Gossipable(peer, r[i])
      ensures forall i, j :: 0 <= i < j < |r| ==> r[i].claim.node != r[j].claim.node
      ensures peer in State().known && |r| < limit ==> forall g :: Gossipable(peer, g) ==> g in r
    {
      r := [];
      var unknown := tracker.GetUnknown(peer);
      if unknown.None? { return; }
      var drawn := sample(unknown.value);
      assert multiset(sample(unknown.value)) == multiset(unknown.value);
      G.PermutedNodes(unknown.value, drawn);
      r := GossipDrawn(peer, drawn, limit);
    }

    /** The connected among the drawn validators, up to the limit. */
    method GossipDrawn(peer: NodeID, drawn: seq<G.ValidatorID>, limit: nat) returns (r: seq<Gossip>)
      requires Valid() && Inv(State()) && peer in State().known && G.DistinctNodes(drawn)
      requires forall x :: x in drawn <==> Unknown(peer, x)
      ensures |r| <= limit
      ensures forall i :: 0 <= i < |r| ==> Gossipable(peer, r[i])
      ensures forall i, j :: 0 <= i < j < |r| ==> r[i].claim.node != r[j].claim.node
      ensures |r| < limit ==> forall g :: Gossipable(peer, g) ==> g in r
    {
      r := [];
      assert forall j :: 0 <= j < |drawn| ==> Unknown(peer, drawn[j]);
      var i := 0;
      while i < |drawn| && |r| < limit
        invariant 0 <= i <= |drawn| && |r| <= limit
        invariant forall j :: 0 <= j < |r| ==> Gossipable(peer, r[j]) && Drawn(drawn[..i], r[j].claim.node)
        invariant forall j, k :: 0 <= j < k < |r| ==> r[j].claim.node != r[k].claim.node
        invariant forall j :: 0 <= j < i && drawn[j].node in connected ==> drawn[j].node in peerIPs && Entry(drawn[j].node) in r
      {
        var x := drawn[i];
        assert At(State(), x.node) && Unknown(peer, x);
        if x.node in connected { r := r + [Gossip(peerIPs[x.node], x.tx)]; }
        i := i + 1;
      }
      if |r| < limit {
        forall g | Gossipable(peer, g) ensures g in r {
          var v := g.claim.node;
          assert Unknown(peer, G.ValidatorID(v, validators[v]));
          assert g == Entry(v);
        }
      }
    }

    ghost predicate Drawn(drawn: seq<G.ValidatorID>, v: NodeID) {
      exists i :: 0 <= i < |drawn| && drawn[i].node == v
    }

    /** A validator, with its transaction, that the peer does not know of. */
    ghost predicate Unknown(peer: NodeID, x: G.ValidatorID)
      reads this, tracker
      requires peer in State().known
    {
      x.node in validators && validators[x.node] == x.tx && x.node !in State().known[peer]
    }

    ghost function Entry(v: NodeID): Gossip
      reads this
      requires v in validators && v in peerIPs
    {
      Gossip(peerIPs[v], validators[v])
    }

    /** A connected validator the peer does not know of, with the claim held for it. */
    ghost predicate Gossipable(peer: NodeID, g: Gossip)
      reads this, tracker
    {
      var (v, known) := (g.claim.node, State().known);
      && v in connected && v in validators && peer in known && v !in known[peer]
      && v in peerIPs && g == Entry(v)
    }

    method ManuallyTrack(id: NodeID, ip: IPPort)
      requires Valid() && Inv(State())
      modifies this`manual, this`tracked
      ensures Valid() && State() == PeerNetwork.ManuallyTrack(old(State()), id, ip) && Inv(State())
    {
      ManuallyTrackKeepsInv(State(), id, ip);
      manual := manual + {id};
      if id in connected { return; }
      if id !in tracked { tracked := tracked[id := ip]; }
    }

    /** The locked part of a dialing attempt. */
    method Dial(id: NodeID)
      requires Valid() && Inv(State())
      modifies this`peerIPs, this`tracked
      ensures Valid() && State() == PeerNetwork.Dial(old(State()), id) && Inv(State())
    {
      DialKeepsInv(State(), id);
      if !WantsConnection(id) && id in tracked {
        peerIPs := peerIPs - {id};
        tracked := tracked - {id};
      }
    }

    /** The locked part of accepting a connection. */
    method Upgrade(id: NodeID)
      requires Valid() && Inv(State())
      modifies this`connecting, tracker`bits
      ensures Valid() && State() == PeerNetwork.Upgrade(old(State()), id) && Inv(State())
    {
      UpgradeKeepsInv(State(), id);
      if closing || id in connecting || id in connected { return; }
      var _ := tracker.StartTrackingPeer(id);
      connecting := connecting + {id};
    }

    method StartClose()
      requires Valid() && Inv(State())
      modifies this`closing, this`peerIPs, this`tracked
      ensures Valid() && State() == PeerNetwork.StartClose(old(State())) && Inv(State())
    {
      StartCloseKeepsInv(State());
      closing := true;
      DropTracked();
    }

    method DropTracked()
      modifies this`peerIPs, this`tracked
      ensures peerIPs == old(peerIPs) - old(tracked).Keys && tracked == map[]
    {
      var todo := tracked.Keys;
      while todo != {}
        invariant todo <= old(tracked).Keys
        invariant forall x :: x in tracked <==> x in todo
        invariant forall x :: x in peerIPs <==> x in old(peerIPs) && (x !in old(tracked) || x in todo)
        invariant forall x :: x in peerIPs ==> peerIPs[x] == old(peerIPs)[x]
        decreases todo
      {
        var id :| id in todo;
        peerIPs := peerIPs - {id};
        tracked := tracked - {id};
        todo := todo - {id};
      }
    }

    /** The validator set's callbacks. */
    method OnValidatorAdded(tx: TxID)
      requires Valid() && Inv(State())
      modifies this`validators, tracker
      ensures Valid() && State() == AddValidator(old(State()), tx) && Inv(State())
    {
      ValidatorsChangeKeepsInv(State(), tx, 0);
      Register(tx);
    }

    /** The set and the tracker add a validator alike: a transaction in the tracker is that of
        its own node. */
    method Register(tx: TxID)
      requires Valid()
      modifies this`validators, tracker
      ensures Valid() && State() == AddValidator(old(State()), tx)
    {
      assert tx.node !in validators ==> forall v :: v in validators ==> validators[v] != tx;
      var _ := tracker.AddValidator(G.ValidatorID(tx.node, tx));
      if tx.node !in validators { validators := validators[tx.node := tx]; }
    }

    method OnValidatorRemoved(id: NodeID)
      requires Valid() && Inv(State())
      modifies this`validators, tracker
      ensures Valid() && State() == RemoveValidator(old(State()), id) && Inv(State())
    {
      ValidatorsChangeKeepsInv(State(), TxID(0, 0), id);
      validators := validators - {id};
      var _ := tracker.RemoveValidator(id);
    }
  }

  /** The keys, in some order. */
  method KeysOf(m: map<TxID, nat>) returns (s: seq<TxID>)
    ensures forall tx :: tx in s <==> tx in m
  {
    s := [];
    var todo := m.Keys;
    while todo != {}
      invariant todo <= m.Keys && forall tx :: tx in s <==> tx in m && tx !in todo
      decreases todo
    {
      var tx :| tx in todo;
      s := s + [tx];
      todo := todo - {tx};
    }
  }

  /** The acknowledgements, all of whose IDs parse. */
  ghost function Parsed(acks: seq<(Option<TxID>, nat)>): seq<(TxID, nat)>
    requires forall i :: 0 <= i < |acks| ==> acks[i].0.Some?
  {
    seq(|acks|, i requires 0 <= i < |acks| => (acks[i].0.value, acks[i].1))
  }

  lemma ConfirmedStep(n: Net, acks: seq<(Option<TxID>, nat)>, i: nat)
    requires i < |acks| && forall j :: 0 <= j <= i ==> acks[j].0.Some?
    ensures var (tx, ts) := (acks[i].0.value, acks[i].1);
            Confirmed(n, Parsed(acks[..i + 1])) == Confirmed(n, Parsed(acks[..i])) +
              if n.Registered(tx) && tx.node in n.peerIPs && n.peerIPs[tx.node].ts <= ts then [tx] else []
  {
    var parsed := Parsed(acks[..i + 1]);
    assert parsed[..i] == Parsed(acks[..i]) && parsed[i] == (acks[i].0.value, acks[i].1);
  }
}
