/** The locked peer state of a node: which peers it is connected to, which it tries to reach, the
    newest signed address it has for each, and what each peer is known to know
    (network/network.go, network/peer/gossip_tracker.go). */
module PeerNetwork {
  import opened Common

  type NodeID = nat
  type IPPort = nat

  /** A transaction adds exactly one validator, so its ID determines the node. */
  datatype TxID = TxID(node: NodeID, nonce: nat)

  /** An address a node signed for itself at a time; the certificate names the node. */
  datatype Claim = Claim(node: NodeID, ip: IPPort, ts: nat, sig: nat)

  /** A claim as gossiped, with the unchecked transaction ID that came along. */
  datatype Gossip = Gossip(claim: Claim, tx: TxID)

  /** A `Disconnected` call under way: the tracker let go of the peer, and then what the read lock
      showed before the write locks are taken. */
  datatype Leaving = Stopped | Saw(connecting: bool, connected: bool)

  datatype Net = Net(
    peerIPs: map<NodeID, Claim>,
    tracked: map<NodeID, IPPort>,
    manual: set<NodeID>,
    connecting: set<NodeID>,
    connected: set<NodeID>,
    closing: bool,
    leaving: map<NodeID, Leaving>,
    validators: map<NodeID, TxID>,          // the primary network's validators
    known: map<NodeID, set<NodeID>>)        // per tracked peer, the validators it knows of
  {
    predicate Wants(id: NodeID) { id in validators || id in manual }

    /** `GetNodeID`: the transaction is the one that registered a current validator. */
    predicate Registered(tx: TxID) { tx.node in validators && validators[tx.node] == tx }
  }

  const NewNet := Net(map[], map[], {}, {}, {}, false, map[], map[], map[])

  // ---------------------------------------------------------------------------
  // The steps, one per locked region. `None` stands for a read of a missing entry.

  /** What is left of each peer's knowledge without one validator. */
  function Forget(known: map<NodeID, set<NodeID>>, v: NodeID): map<NodeID, set<NodeID>> {
    map p | p in known :: known[p] - {v}
  }

  /** gossip tracker `ResetValidator`. */
  function Reset(n: Net, id: NodeID): Net {
    if id in n.validators then n.(known := Forget(n.known, id)) else n
  }

  /** A handshake's claim is stored if it is newer; a changed address is gossiped afresh. */
  function Stored(n: Net, id: NodeID, claim: Claim): Net {
    if id !in n.peerIPs then n.(peerIPs := n.peerIPs[id := claim])
    else if n.peerIPs[id].ts < claim.ts then
      var n0 := n.(peerIPs := n.peerIPs[id := claim]);
      if n.peerIPs[id].ip != claim.ip then Reset(n0, id) else n0
    else n
  }

  function Connected(n: Net, id: NodeID, claim: Claim): Net {
    if id !in n.connecting then n
    else
      var n1 := Stored(n, id, claim);
      n1.(tracked := n1.tracked - {id}, connecting := n1.connecting - {id}, connected := n1.connected + {id})
  }

  /** What `Track` has so far: the state, the timestamps to acknowledge, the transactions whose
      sender is as up to date as this node. */
  datatype Tracking = Tracking(net: Net, newest: map<TxID, nat>, upToDate: seq<TxID>)

  /** A newer claim replaces an entry; a changed address is gossiped and dialed afresh. */
  function Updated(n: Net, c: Claim): Net
    requires c.node in n.peerIPs
  {
    var n0 := n.(peerIPs := n.peerIPs[c.node := c]);
    if n.peerIPs[c.node].ip == c.ip then n0
    else
      var n1 := Reset(n0, c.node);
      if c.node in n.tracked then n1.(tracked := n1.tracked[c.node := c.ip]) else n1
  }

  function TrackOne(t: Tracking, g: Gossip, verified: bool): Tracking {
    var n := t.net;
    var c := g.claim;
    var id := c.node;
    if id in n.peerIPs && n.peerIPs[id].ts > c.ts then
      t.(newest := t.newest[g.tx := n.peerIPs[id].ts])
    else if id in n.peerIPs && n.peerIPs[id].ts == c.ts then
      t.(newest := t.newest[g.tx := n.peerIPs[id].ts], upToDate := t.upToDate + [g.tx])
    else if verified && id in n.peerIPs then
      Tracking(Updated(n, c), t.newest[g.tx := c.ts], t.upToDate + [g.tx])
    else if verified && n.Wants(id) then
      Tracking(n.(peerIPs := n.peerIPs[id := c], tracked := n.tracked[id := c.ip]),
               t.newest[g.tx := c.ts], t.upToDate + [g.tx])
    else t
  }

  function TrackAll(n: Net, list: seq<Gossip>, verified: seq<bool>): Tracking
    requires |verified| == |list|
  {
    if list == [] then Tracking(n, map[], [])
    else
      var k := |list| - 1;
      TrackOne(TrackAll(n, list[..k], verified[..k]), list[k], verified[k])
  }

  /** gossip tracker `AddKnown`, for a tracked peer. */
  function AddKnown(n: Net, peer: NodeID, txs: seq<TxID>): Net
    requires peer in n.known
  {
    n.(known := n.known[peer := n.known[peer] + RegisteredNodes(n, txs)])
  }

  function RegisteredNodes(n: Net, txs: seq<TxID>): set<NodeID> {
    set i | 0 <= i < |txs| && n.Registered(txs[i]) :: txs[i].node
  }

  /** `Track` and the acknowledgements it returns. */
  function Track(n: Net, peer: NodeID, list: seq<Gossip>, verified: seq<bool>): (Net, map<TxID, nat>)
    requires |verified| == |list|
  {
    var t := TrackAll(n, list, verified);
    if peer !in t.net.known then (t.net, map[])
    else (AddKnown(t.net, peer, t.upToDate), Acknowledged(t.net, t.newest))
  }

  function Acknowledged(n: Net, newest: map<TxID, nat>): map<TxID, nat> {
    map tx | tx in newest && n.Registered(tx) :: newest[tx]
  }

  /** The acknowledged transactions whose claim is no older than the one this node holds. */
  function Confirmed(n: Net, acks: seq<(TxID, nat)>): seq<TxID> {
    if acks == [] then []
    else
      var (tx, ts) := acks[|acks| - 1];
      Confirmed(n, acks[..|acks| - 1]) +
      if n.Registered(tx) && tx.node in n.peerIPs && n.peerIPs[tx.node].ts <= ts then [tx] else []
  }

  function MarkTracked(n: Net, peer: NodeID, acks: seq<(TxID, nat)>): Net {
    if peer !in n.known then n else AddKnown(n, peer, Confirmed(n, acks))
  }

  /** gossip tracker `StopTrackingPeer`. */
  function DisconnectBegin(n: Net, id: NodeID): Net {
    n.(known := n.known - {id}, leaving := n.leaving[id := Stopped])
  }

  function DisconnectRead(n: Net, id: NodeID): Net {
    n.(leaving := n.leaving[id := Saw(id in n.connecting, id in n.connected)])
  }

  function DisconnectedFromConnecting(n: Net, id: NodeID): Net {
    var n1 := n.(connecting := n.connecting - {id});
    if id in n1.tracked && !n1.Wants(id)
    then n1.(peerIPs := n1.peerIPs - {id}, tracked := n1.tracked - {id})
    else n1
  }

  function DisconnectedFromConnected(n: Net, id: NodeID): Option<Net> {
    var n1 := n.(connected := n.connected - {id});
    if !n1.Wants(id) then Some(n1.(peerIPs := n1.peerIPs - {id}))
    else if id !in n1.peerIPs then None
    else Some(n1.(tracked := n1.tracked[id := n1.peerIPs[id].ip]))
  }

  /** The helpers chosen by what the read lock showed. */
  function DisconnectEnd(n: Net, id: NodeID): Option<Net>
    requires id in n.leaving && n.leaving[id].Saw?
  {
    var flags := n.leaving[id];
    var n0 := n.(leaving := n.leaving - {id});
    var n1 := if flags.connecting then DisconnectedFromConnecting(n0, id) else n0;
    if flags.connected then DisconnectedFromConnected(n1, id) else Some(n1)
  }

  /** The read of one validator in `Peers`. */
  function PeersRead(n: Net, id: NodeID): Option<Option<Claim>> {
    if id !in n.connected then Some(None)
    else if id !in n.peerIPs then None
    else Some(Some(n.peerIPs[id]))
  }

  function ManuallyTrack(n: Net, id: NodeID, ip: IPPort): Net {
    var n1 := n.(manual := n.manual + {id});
    if id in n1.connected || id in n1.tracked then n1 else n1.(tracked := n1.tracked[id := ip])
  }

  function Dial(n: Net, id: NodeID): Net {
    if !n.Wants(id) && id in n.tracked
    then n.(peerIPs := n.peerIPs - {id}, tracked := n.tracked - {id})
    else n
  }

  function Upgrade(n: Net, id: NodeID): Net {
    if n.closing || id in n.connecting || id in n.connected then n
    else n.(connecting := n.connecting + {id}, known := if id in n.known then n.known else n.known[id := {}])
  }

  function StartClose(n: Net): Net {
    n.(closing := true, peerIPs := n.peerIPs - n.tracked.Keys, tracked := map[])
  }

  /** The validator set changes; the gossip tracker follows by callback. */
  function AddValidator(n: Net, tx: TxID): Net {
    if tx.node in n.validators then n else n.(validators := n.validators[tx.node := tx])
  }

  function RemoveValidator(n: Net, id: NodeID): Net {
    n.(validators := n.validators - {id}, known := Forget(n.known, id))
  }

  datatype Event =
    | EConnected(id: NodeID, claim: Claim)
    | ETrack(peer: NodeID, list: seq<Gossip>, verified: seq<bool>)
    | EMarkTracked(peer: NodeID, acks: seq<(TxID, nat)>)
    | EDisconnectBegin(id: NodeID)
    | EDisconnectRead(id: NodeID)
    | EDisconnectEnd(id: NodeID)
    | EPeersRead(id: NodeID)
    | EManuallyTrack(id: NodeID, ip: IPPort)
    | EDial(id: NodeID)
    | EUpgrade(id: NodeID)
    | EStartClose
    | EAddValidator(tx: TxID)
    | ERemoveValidator(id: NodeID)

  /** What the callers guarantee: a claim handed over by a finished handshake is the peer's own;
      a peer calls `Disconnected` once, and `Connected` never afterwards. */
  ghost predicate Allowed(n: Net, e: Event) {
    match e
    case EConnected(id, claim) => claim.node == id && id !in n.leaving
    case ETrack(_, list, verified) => |verified| == |list|
    case EDisconnectBegin(id) => id in n.connecting + n.connected && id !in n.leaving
    case EDisconnectRead(id) => id in n.leaving && n.leaving[id].Stopped?
    case EDisconnectEnd(id) => id in n.leaving && n.leaving[id].Saw?
    case _ => true
  }

  ghost function Step(n: Net, e: Event): Option<Net>
    requires Allowed(n, e)
  {
    match e
    case EConnected(id, claim) => Some(Connected(n, id, claim))
    case ETrack(peer, list, verified) => Some(Track(n, peer, list, verified).0)
    case EMarkTracked(peer, acks) => Some(MarkTracked(n, peer, acks))
    case EDisconnectBegin(id) => Some(DisconnectBegin(n, id))
    case EDisconnectRead(id) => Some(DisconnectRead(n, id))
    case EDisconnectEnd(id) => DisconnectEnd(n, id)
    case EPeersRead(id) => if PeersRead(n, id).None? then None else Some(n)
    case EManuallyTrack(id, ip) => Some(ManuallyTrack(n, id, ip))
    case EDial(id) => Some(Dial(n, id))
    case EUpgrade(id) => Some(Upgrade(n, id))
    case EStartClose => Some(StartClose(n))
    case EAddValidator(tx) => Some(AddValidator(n, tx))
    case ERemoveValidator(id) => Some(RemoveValidator(n, id))
  }

  // ---------------------------------------------------------------------------
  // The joint invariant

  /** What holds of one node ID. A node is not both connecting and connected; a connected node
      is not tracked and has an entry; an entry belongs to a connected or tracked node; a node
      tracked without an entry was tracked by hand; a leaving peer is where it was seen; the
      gossip tracker has exactly the peers that are not leaving. */
  predicate At(n: Net, id: NodeID) {
    && !(id in n.connecting && id in n.connected)
    && (id in n.connected ==> id !in n.tracked && id in n.peerIPs)
    && (id in n.peerIPs ==> (id in n.connected || id in n.tracked) && n.peerIPs[id].node == id)
    && (id in n.tracked && id !in n.peerIPs ==> id in n.manual)
    && (id in n.leaving && n.leaving[id].Saw? ==> n.leaving[id] == Saw(id in n.connecting, id in n.connected))
    && (id in n.leaving ==> id in n.connecting || id in n.connected)
    && (id in n.known <==> (id in n.connecting || id in n.connected) && id !in n.leaving)
    && (id in n.validators ==> n.validators[id].node == id)
  }

  ghost predicate KnowsValidators(n: Net) {
    forall p, v :: p in n.known && v in n.known[p] ==> v in n.validators
  }

  ghost predicate Inv(n: Net) {
    (forall id :: At(n, id)) && KnowsValidators(n)
  }

  // What each step keeps at one ID.

  lemma StoredIs(n: Net, id: NodeID, claim: Claim, x: NodeID)
    ensures var n1 := Stored(n, id, claim);
            && n1 == n.(peerIPs := n1.peerIPs, known := n1.known) && n1.known.Keys == n.known.Keys
            && (x in n1.peerIPs <==> x in n.peerIPs || x == id)
            && (x in n1.peerIPs ==> (x in n.peerIPs && n1.peerIPs[x] == n.peerIPs[x]) || (x == id && n1.peerIPs[x] == claim))
  {}

  lemma ConnectedAt(n: Net, id: NodeID, claim: Claim, x: NodeID)
    requires At(n, x) && claim.node == id && id !in n.leaving
    ensures At(Connected(n, id, claim), x)
  {
    StoredIs(n, id, claim, x);
  }

  /** An update changes entries, dial targets and knowledge, but not whose there are. */
  lemma UpdatedIs(n: Net, c: Claim, x: NodeID)
    requires c.node in n.peerIPs
    ensures var n' := Updated(n, c);
            && n' == n.(peerIPs := n.peerIPs[c.node := c], tracked := n'.tracked, known := n'.known)
            && n'.known.Keys == n.known.Keys && (x in n'.tracked <==> x in n.tracked)
  {}

  lemma TrackOneAt(t: Tracking, g: Gossip, verified: bool, x: NodeID)
    requires At(t.net, x)
    ensures At(TrackOne(t, g, verified).net, x)
  {
    if g.claim.node in t.net.peerIPs { UpdatedIs(t.net, g.claim, x); }
  }

  lemma AddKnownAt(n: Net, peer: NodeID, txs: seq<TxID>, x: NodeID)
    requires At(n, x) && peer in n.known
    ensures At(AddKnown(n, peer, txs), x)
  {}

  /** A disconnecting peer is still where the read lock saw it, so the entry read for a
      connected one exists. */
  lemma DisconnectEndAt(n: Net, id: NodeID, x: NodeID)
    requires At(n, id) && At(n, x) && id in n.leaving && n.leaving[id].Saw?
    ensures DisconnectEnd(n, id).Some? && At(DisconnectEnd(n, id).value, x)
  {}

  lemma CloseAt(n: Net, x: NodeID)
    requires At(n, x)
    ensures At(StartClose(n), x)
  {}

  lemma ResetKnows(n: Net, id: NodeID)
    requires KnowsValidators(n)
    ensures KnowsValidators(Reset(n, id)) && KnowsValidators(RemoveValidator(n, id))
  {
    var n' := Reset(n, id);
    forall p, v | p in n'.known && v in n'.known[p] ensures v in n'.validators {
      assert v in n.known[p];
    }
  }

  // What each step keeps overall.

  lemma ConnectedKeepsInv(n: Net, id: NodeID, claim: Claim)
    requires Inv(n) && claim.node == id && id !in n.leaving
    ensures Inv(Connected(n, id, claim))
  {
    forall x ensures At(Connected(n, id, claim), x) {
      assert At(n, x);
      ConnectedAt(n, id, claim, x);
    }
    ResetKnows(n.(peerIPs := n.peerIPs[id := claim]), id);
  }

  lemma TrackOneKeepsInv(t: Tracking, g: Gossip, verified: bool)
    requires Inv(t.net)
    ensures Inv(TrackOne(t, g, verified).net)
  {
    forall x ensures At(TrackOne(t, g, verified).net, x) {
      assert At(t.net, x);
      TrackOneAt(t, g, verified, x);
    }
    ResetKnows(t.net.(peerIPs := t.net.peerIPs[g.claim.node := g.claim]), g.claim.node);
  }

  lemma {:induction false} TrackAllKeepsInv(n: Net, list: seq<Gossip>, verified: seq<bool>)
    requires Inv(n) && |verified| == |list|
    ensures Inv(TrackAll(n, list, verified).net)
  {
    if list != [] {
      var k := |list| - 1;
      TrackAllKeepsInv(n, list[..k], verified[..k]);
      TrackOneKeepsInv(TrackAll(n, list[..k], verified[..k]), list[k], verified[k]);
    }
  }

  lemma AddKnownKeepsInv(n: Net, peer: NodeID, txs: seq<TxID>)
    requires Inv(n) && peer in n.known
    ensures Inv(AddKnown(n, peer, txs))
  {
    forall x ensures At(AddKnown(n, peer, txs), x) {
      assert At(n, x);
      AddKnownAt(n, peer, txs, x);
    }
  }

  lemma TrackKeepsInv(n: Net, peer: NodeID, list: seq<Gossip>, verified: seq<bool>)
    requires Inv(n) && |verified| == |list|
    ensures Inv(Track(n, peer, list, verified).0)
  {
    TrackAllKeepsInv(n, list, verified);
    var t := TrackAll(n, list, verified);
    if peer in t.net.known { AddKnownKeepsInv(t.net, peer, t.upToDate); }
  }

  lemma MarkTrackedKeepsInv(n: Net, peer: NodeID, acks: seq<(TxID, nat)>)
    requires Inv(n)
    ensures Inv(MarkTracked(n, peer, acks))
  {
    if peer in n.known { AddKnownKeepsInv(n, peer, Confirmed(n, acks)); }
  }

  lemma DisconnectBeginKeepsInv(n: Net, id: NodeID)
    requires Inv(n) && id in n.connecting + n.connected && id !in n.leaving
    ensures Inv(DisconnectBegin(n, id))
  {
    forall x ensures At(DisconnectBegin(n, id), x) { assert At(n, x); }
  }

  lemma DisconnectReadKeepsInv(n: Net, id: NodeID)
    requires Inv(n) && id in n.leaving && n.leaving[id].Stopped?
    ensures Inv(DisconnectRead(n, id))
  {
    forall x ensures At(DisconnectRead(n, id), x) { assert At(n, x); }
  }

  lemma DisconnectEndKeepsInv(n: Net, id: NodeID)
    requires Inv(n) && id in n.leaving && n.leaving[id].Saw?
    ensures DisconnectEnd(n, id).Some? && Inv(DisconnectEnd(n, id).value)
  {
    assert At(n, id);
    DisconnectEndAt(n, id, id);
    forall x ensures At(DisconnectEnd(n, id).value, x) {
      assert At(n, x);
      DisconnectEndAt(n, id, x);
    }
  }

  lemma PeersReadFinds(n: Net, id: NodeID)
    requires Inv(n)
    ensures PeersRead(n, id).Some?
  {
    assert At(n, id);
  }

  lemma ManuallyTrackKeepsInv(n: Net, id: NodeID, ip: IPPort)
    requires Inv(n)
    ensures Inv(ManuallyTrack(n, id, ip))
  {
    forall x ensures At(ManuallyTrack(n, id, ip), x) { assert At(n, x); }
  }

  lemma DialKeepsInv(n: Net, id: NodeID)
    requires Inv(n)
    ensures Inv(Dial(n, id))
  {
    forall x ensures At(Dial(n, id), x) { assert At(n, x); }
  }

  lemma UpgradeKeepsInv(n: Net, id: NodeID)
    requires Inv(n)
    ensures Inv(Upgrade(n, id))
  {
    forall x ensures At(Upgrade(n, id), x) { assert At(n, x); }
  }

  lemma StartCloseKeepsInv(n: Net)
    requires Inv(n)
    ensures Inv(StartClose(n))
  {
    forall x ensures At(StartClose(n), x) {
      assert At(n, x);
      CloseAt(n, x);
    }
  }

  lemma ValidatorsChangeKeepsInv(n: Net, tx: TxID, id: NodeID)
    requires Inv(n)
    ensures Inv(AddValidator(n, tx)) && Inv(RemoveValidator(n, id))
  {
    forall x ensures At(AddValidator(n, tx), x) && At(RemoveValidator(n, id), x) { assert At(n, x); }
    ResetKnows(n, id);
  }

  lemma StepKeepsInv(n: Net, e: Event)
    requires Inv(n) && Allowed(n, e)
    ensures Step(n, e).Some? && Inv(Step(n, e).value)
  {
    match e
    case EConnected(id, claim) => ConnectedKeepsInv(n, id, claim);
    case ETrack(peer, list, verified) => TrackKeepsInv(n, peer, list, verified);
    case EMarkTracked(peer, acks) => MarkTrackedKeepsInv(n, peer, acks);
    case EDisconnectBegin(id) => DisconnectBeginKeepsInv(n, id);
    case EDisconnectRead(id) => DisconnectReadKeepsInv(n, id);
    case EDisconnectEnd(id) => DisconnectEndKeepsInv(n, id);
    case EPeersRead(id) => PeersReadFinds(n, id);
    case EManuallyTrack(id, ip) => ManuallyTrackKeepsInv(n, id, ip);
    case EDial(id) => DialKeepsInv(n, id);
    case EUpgrade(id) => UpgradeKeepsInv(n, id);
    case EStartClose => StartCloseKeepsInv(n);
    case EAddValidator(tx) => ValidatorsChangeKeepsInv(n, tx, 0);
    case ERemoveValidator(id) => ValidatorsChangeKeepsInv(n, TxID(0, 0), id);
  }

  // ---------------------------------------------------------------------------
  // Whole runs

  ghost predicate Run(states: seq<Net>, events: seq<Event>) {
    && |states| == |events| + 1 && states[0] == NewNet
    && forall i :: 0 <= i < |events| ==> Allowed(states[i], events[i]) && Step(states[i], events[i]) == Some(states[i + 1])
  }

  lemma {:induction false} RunKeepsInv(states: seq<Net>, events: seq<Event>, k: nat)
    requires Run(states, events) && k < |states|
    ensures Inv(states[k])
  {
    if k > 0 {
      RunKeepsInv(states, events, k - 1);
      StepKeepsInv(states[k - 1], events[k - 1]);
    }
  }

  /** In every reachable state every call the peers may make finds the entries it reads. */
  lemma NoMissingEntry(states: seq<Net>, events: seq<Event>, k: nat, e: Event)
    requires Run(states, events) && k < |states| && Allowed(states[k], e)
    ensures Step(states[k], e).Some?
  {
    RunKeepsInv(states, events, k);
    StepKeepsInv(states[k], e);
  }

  // ---------------------------------------------------------------------------
  // How an entry changes

  /** The node has a claim of `v` at least this new. */
  ghost predicate Holds(n: Net, v: NodeID, ts: nat) {
    v in n.peerIPs && ts <= n.peerIPs[v].ts
  }

  /** The peer is taken to know of the validator. */
  ghost predicate Knows(n: Net, b: NodeID, v: NodeID) { b in n.known && v in n.known[b] }

  /** From `n` to `n'` the entry at `id` does not get older. */
  ghost predicate Fresher(n: Net, n': Net, id: NodeID) {
    id in n.peerIPs && id in n'.peerIPs ==> n.peerIPs[id].ts <= n'.peerIPs[id].ts
  }

  /** The entry and the dial target at `id` are the same. */
  ghost predicate SameAt(n: Net, n': Net, id: NodeID) {
    && (id in n'.peerIPs <==> id in n.peerIPs) && (id in n.peerIPs ==> n'.peerIPs[id] == n.peerIPs[id])
    && (id in n'.tracked <==> id in n.tracked) && (id in n.tracked ==> n'.tracked[id] == n.tracked[id])
  }

  /** One gossiped claim replaces an entry by a newer verified claim of that node, or leaves it. */
  lemma TrackOneChange(t: Tracking, g: Gossip, verified: bool, id: NodeID)
    ensures var n' := TrackOne(t, g, verified).net;
            || SameAt(t.net, n', id)
            || (&& verified && g.claim.node == id && id in n'.peerIPs && n'.peerIPs[id] == g.claim
                && (id in t.net.peerIPs ==> t.net.peerIPs[id].ts < g.claim.ts))
  {}

  lemma {:induction false} TrackAllFresher(n: Net, list: seq<Gossip>, verified: seq<bool>, id: NodeID)
    requires |verified| == |list|
    ensures var n' := TrackAll(n, list, verified).net;
            Fresher(n, n', id) && (id in n.peerIPs ==> id in n'.peerIPs)
  {
    if list != [] {
      var k := |list| - 1;
      TrackAllFresher(n, list[..k], verified[..k], id);
      TrackOneChange(TrackAll(n, list[..k], verified[..k]), list[k], verified[k], id);
    }
  }

  ghost predicate KeptOrDropped(n: Net, n': Net, id: NodeID, mayDrop: bool) {
    if id in n'.peerIPs then id in n.peerIPs && n'.peerIPs[id] == n.peerIPs[id]
    else id in n.peerIPs ==> mayDrop
  }

  lemma ConnectedChange(n: Net, id: NodeID, claim: Claim, x: NodeID)
    ensures var n' := Connected(n, id, claim);
            || KeptOrDropped(n, n', x, false)
            || (id == x && x in n'.peerIPs && n'.peerIPs[x] == claim && (x in n.peerIPs ==> n.peerIPs[x].ts < claim.ts))
  {}

  lemma DisconnectEndChange(n: Net, id: NodeID, x: NodeID)
    requires id in n.leaving && n.leaving[id].Saw? && DisconnectEnd(n, id).Some?
    ensures KeptOrDropped(n, DisconnectEnd(n, id).value, x, !n.Wants(x))
  {}

  /** Every other step leaves an entry, drops it for the stated reasons, or stores the newer
      claim of a finished handshake. */
  lemma OtherStepChange(n: Net, e: Event, id: NodeID)
    requires Allowed(n, e) && Step(n, e).Some? && !e.ETrack?
    ensures var n' := Step(n, e).value;
            || KeptOrDropped(n, n', id, !n.Wants(id) || e.EStartClose?)
            || (&& e.EConnected? && id in n'.peerIPs && n'.peerIPs[id] == e.claim
                && (id in n.peerIPs ==> n.peerIPs[id].ts < e.claim.ts))
  {
    match e
    case EConnected(c, claim) => ConnectedChange(n, c, claim, id);
    case EDisconnectEnd(c) => DisconnectEndChange(n, c, id);
    case _ =>
  }

  /** An entry's timestamp never decreases while the entry exists, and the entry goes away only
      when the node is not wanted or the network is closing. */
  lemma StepFresher(n: Net, e: Event, id: NodeID)
    requires Allowed(n, e) && Step(n, e).Some?
    ensures Fresher(n, Step(n, e).value, id)
    ensures id in n.peerIPs && id !in Step(n, e).value.peerIPs ==> !n.Wants(id) || e.EStartClose?
  {
    if e.ETrack? { TrackAllFresher(n, e.list, e.verified, id); } else { OtherStepChange(n, e, id); }
  }

  lemma {:induction false} RunFresher(states: seq<Net>, events: seq<Event>, i: nat, j: nat, id: NodeID)
    requires Run(states, events) && i <= j < |states|
    requires forall k :: i <= k <= j ==> id in states[k].peerIPs
    ensures states[i].peerIPs[id].ts <= states[j].peerIPs[id].ts
  {
    if i < j {
      RunFresher(states, events, i, j - 1, id);
      var k := j - 1;
      assert id in states[k].peerIPs && Step(states[k], events[k]) == Some(states[k + 1]);
      StepFresher(states[k], events[k], id);
    }
  }

  // ---------------------------------------------------------------------------
  // What `Track` may change

  /** The call carried this authenticated claim. */
  ghost predicate Vouched(list: seq<Gossip>, verified: seq<bool>, claim: Claim) {
    exists i :: 0 <= i < |list| && i < |verified| && verified[i] && list[i].claim == claim
  }

  /** `Track` leaves a node's entry and dial target alone, or stores an authenticated claim of
      that node out of the call. */
  lemma {:induction false} TrackNeedsVouching(n: Net, list: seq<Gossip>, verified: seq<bool>, id: NodeID)
    requires |verified| == |list|
    ensures var n' := TrackAll(n, list, verified).net;
            || SameAt(n, n', id)
            || (id in n'.peerIPs && n'.peerIPs[id].node == id && Vouched(list, verified, n'.peerIPs[id]))
  {
    if list != [] {
      var k := |list| - 1;
      var t := TrackAll(n, list[..k], verified[..k]);
      TrackNeedsVouching(n, list[..k], verified[..k], id);
      TrackOneChange(t, list[k], verified[k], id);
      if id in t.net.peerIPs && Vouched(list[..k], verified[..k], t.net.peerIPs[id]) {
        VouchedLonger(list, verified, t.net.peerIPs[id]);
      }
    }
  }

  lemma VouchedLonger(list: seq<Gossip>, verified: seq<bool>, claim: Claim)
    requires 0 < |list| == |verified|
    requires Vouched(list[..|list| - 1], verified[..|list| - 1], claim)
    ensures Vouched(list, verified, claim)
  {
    var k := |list| - 1;
    var i :| 0 <= i < k && verified[..k][i] && list[..k][i].claim == claim;
    assert verified[i] && list[i].claim == claim;
  }

  // ---------------------------------------------------------------------------
  // Which nodes are tracked without an entry

  /** Until the network closes, a node tracked by hand is connected or tracked. */
  ghost predicate ManualAt(n: Net, id: NodeID) {
    !n.closing && id in n.manual ==> id in n.connected || id in n.tracked
  }

  lemma TrackOneKeepsManual(t: Tracking, g: Gossip, verified: bool, id: NodeID)
    ensures var n' := TrackOne(t, g, verified).net;
            && n'.closing == t.net.closing && n'.manual == t.net.manual && n'.connected == t.net.connected
            && (id in t.net.tracked ==> id in n'.tracked)
  {
    if g.claim.node in t.net.peerIPs { UpdatedIs(t.net, g.claim, id); }
  }

  lemma {:induction false} TrackAllKeepsManual(n: Net, list: seq<Gossip>, verified: seq<bool>, id: NodeID)
    requires |verified| == |list|
    ensures var n' := TrackAll(n, list, verified).net;
            && n'.closing == n.closing && n'.manual == n.manual && n'.connected == n.connected
            && (id in n.tracked ==> id in n'.tracked)
  {
    if list != [] {
      var k := |list| - 1;
      TrackAllKeepsManual(n, list[..k], verified[..k], id);
      TrackOneKeepsManual(TrackAll(n, list[..k], verified[..k]), list[k], verified[k], id);
    }
  }

  lemma DisconnectEndKeepsManual(n: Net, id: NodeID, x: NodeID)
    requires id in n.leaving && n.leaving[id].Saw? && DisconnectEnd(n, id).Some? && ManualAt(n, x)
    ensures ManualAt(DisconnectEnd(n, id).value, x)
  {}

  lemma ConnectedKeepsManual(n: Net, id: NodeID, claim: Claim, x: NodeID)
    requires ManualAt(n, x)
    ensures ManualAt(Connected(n, id, claim), x)
  {
    StoredIs(n, id, claim, x);
  }

  lemma StepKeepsManual(n: Net, e: Event, id: NodeID)
    requires Allowed(n, e) && Step(n, e).Some? && ManualAt(n, id)
    ensures ManualAt(Step(n, e).value, id)
  {
    match e
    case EConnected(c, claim) => ConnectedKeepsManual(n, c, claim, id);
    case ETrack(_, list, verified) => TrackAllKeepsManual(n, list, verified, id);
    case EDisconnectEnd(c) => DisconnectEndKeepsManual(n, c, id);
    case _ =>
  }

  lemma {:induction false} RunKeepsManual(states: seq<Net>, events: seq<Event>, k: nat, id: NodeID)
    requires Run(states, events) && k < |states|
    ensures ManualAt(states[k], id)
  {
    if k > 0 {
      var j := k - 1;
      RunKeepsManual(states, events, j, id);
      assert Step(states[j], events[j]) == Some(states[j + 1]);
      StepKeepsManual(states[j], events[j], id);
    }
  }

  /** In every reachable state of an open network, a node without an entry is tracked exactly if
      it was tracked by hand. */
  lemma TrackedAfreshIffManual(states: seq<Net>, events: seq<Event>, k: nat, id: NodeID)
    requires Run(states, events) && k < |states| && id !in states[k].peerIPs && !states[k].closing
    ensures id in states[k].tracked <==> id in states[k].manual
  {
    RunKeepsInv(states, events, k);
    RunKeepsManual(states, events, k, id);
    assert At(states[k], id);
  }

  /** Closing drops every dial target; in a closed network one without an entry is still of a
      node tracked by hand. */
  lemma DialedAfreshUnlessManual(states: seq<Net>, events: seq<Event>, k: nat, id: NodeID)
    requires Run(states, events) && k < |states|
    requires id !in states[k].peerIPs && id in states[k].tracked
    ensures id in states[k].manual
  {
    RunKeepsInv(states, events, k);
    assert At(states[k], id);
  }

  /** And the converse fails once it is closing: the node is marked and not tracked. */
  lemma ClosedManualIsNotTracked(id: NodeID, ip: IPPort)
    ensures var n := ManuallyTrack(NewNet, id, ip);
            && Run([NewNet, n, StartClose(n)], [EManuallyTrack(id, ip), EStartClose])
            && id !in StartClose(n).peerIPs && id in StartClose(n).manual && id !in StartClose(n).tracked
  {
    var states := [NewNet, ManuallyTrack(NewNet, id, ip), StartClose(ManuallyTrack(NewNet, id, ip))];
    var events := [EManuallyTrack(id, ip), EStartClose];
    assert Step(states[0], events[0]) == Some(states[1]) && Step(states[1], events[1]) == Some(states[2]);
  }

  /** And then it is: after `ManuallyTrack` a verified claim is dialed although the node is tracked. */
  lemma ManualNodeIsDialedTwice(id: NodeID, ip: IPPort, g: Gossip)
    requires g.claim.node == id
    ensures var n := ManuallyTrack(NewNet, id, ip);
            && Run([NewNet, n], [EManuallyTrack(id, ip)])
            && id !in n.peerIPs && n.Wants(id) && id in n.tracked
            && TrackOne(Tracking(n, map[], []), g, true).net.peerIPs == map[id := g.claim]
  {}

  // ---------------------------------------------------------------------------
  // Only signed claims are stored

  /** Claims come from handshakes or carry a checked signature. */
  ghost predicate Signed(e: Event, genuine: set<Claim>) {
    match e
    case EConnected(_, claim) => claim in genuine
    case ETrack(_, list, verified) => forall i :: 0 <= i < |list| && i < |verified| && verified[i] ==> list[i].claim in genuine
    case _ => true
  }

  lemma StepStoresSigned(n: Net, e: Event, genuine: set<Claim>, id: NodeID)
    requires Allowed(n, e) && Step(n, e).Some? && Signed(e, genuine)
    requires id in n.peerIPs ==> n.peerIPs[id] in genuine
    ensures id in Step(n, e).value.peerIPs ==> Step(n, e).value.peerIPs[id] in genuine
  {
    if e.ETrack? { TrackNeedsVouching(n, e.list, e.verified, id); } else { OtherStepChange(n, e, id); }
  }

  /** In every run whose claims are checked as the code checks them, every entry is a claim its
      node signed. */
  lemma {:induction false} RunStoresSigned(states: seq<Net>, events: seq<Event>, genuine: set<Claim>, k: nat, id: NodeID)
    requires Run(states, events) && k < |states|
    requires forall i :: 0 <= i < |events| ==> Signed(events[i], genuine)
    ensures id in states[k].peerIPs ==> states[k].peerIPs[id] in genuine && states[k].peerIPs[id].node == id
  {
    RunKeepsInv(states, events, k);
    assert At(states[k], id);
    if k > 0 {
      var j := k - 1;
      RunStoresSigned(states, events, genuine, j, id);
      assert Step(states[j], events[j]) == Some(states[j + 1]);
      StepStoresSigned(states[j], events[j], genuine, id);
    }
  }
}
