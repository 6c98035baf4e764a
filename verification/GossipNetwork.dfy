/** Many nodes gossiping addresses. Honest nodes run the network of PeerNetwork and exchange
    PeerList and PeerListAck messages, which may be delayed, reordered, repeated or lost; any
    other node may say anything (network/network.go, network/peer). */
module GossipNetwork {
  import opened Common
  import opened PeerNetwork
  import opened PeerLaws

  datatype Msg =
    | PeerList(from: NodeID, to: NodeID, list: seq<Gossip>)
    | Ack(from: NodeID, to: NodeID, acks: seq<(TxID, nat)>)

  /** The honest nodes, the claims each has read for messages it is putting together, and every
      message sent so far. */
  datatype World = World(nets: map<NodeID, Net>, drafts: map<NodeID, set<Gossip>>, sent: set<Msg>)

  datatype Act =
    | Local(a: NodeID, e: Event)                                        // any step without a message
    | Read(a: NodeID, tx: TxID)                                         // one read in `Peers`
    | Send(a: NodeID, to: NodeID, list: seq<Gossip>)
    | Receive(a: NodeID, m: Msg, verified: seq<bool>, acks: seq<(TxID, nat)>)   // `Track`, and its answer
    | Marked(a: NodeID, m: Msg)                                         // `MarkTracked`
    | Forge(m: Msg)                                                     // by a node that is not honest

  /** `acks` lists the map, in some order. */
  ghost predicate Lists(acks: seq<(TxID, nat)>, m: map<TxID, nat>) {
    && (forall i :: 0 <= i < |acks| ==> acks[i].0 in m && acks[i].1 == m[acks[i].0])
    && forall tx :: tx in m ==> (tx, m[tx]) in acks
  }

  ghost predicate Enabled(w: World, act: Act) {
    && w.drafts.Keys == w.nets.Keys
    && (act.Forge? || act.a in w.nets)
    && match act
       case Local(a, e) => !e.ETrack? && !e.EMarkTracked? && Allowed(w.nets[a], e) && Step(w.nets[a], e).Some?
       case Read(a, tx) => exists c :: PeersRead(w.nets[a], tx.node) == Some(Some(c))
       case Send(a, _, list) => forall i :: 0 <= i < |list| ==> list[i] in w.drafts[a]
       case Receive(a, m, verified, acks) =>
         && m in w.sent && m.PeerList? && m.to == a && |verified| == |m.list|
         && Lists(acks, Track(w.nets[a], m.from, m.list, verified).1)
       case Marked(a, m) => m in w.sent && m.Ack? && m.to == a
       case Forge(m) => m.from !in w.nets
  }

  ghost function Next(w: World, act: Act): World
    requires Enabled(w, act)
  {
    match act
    case Local(a, e) => w.(nets := w.nets[a := Step(w.nets[a], e).value])
    case Read(a, tx) =>
      w.(drafts := w.drafts[a := w.drafts[a] + {Gossip(PeersRead(w.nets[a], tx.node).value.value, tx)}])
    case Send(a, to, list) => w.(sent := w.sent + {PeerList(a, to, list)})
    case Receive(a, m, verified, acks) =>
      w.(nets := w.nets[a := Track(w.nets[a], m.from, m.list, verified).0], sent := w.sent + {Ack(a, m.from, acks)})
    case Marked(a, m) => w.(nets := w.nets[a := MarkTracked(w.nets[a], m.from, m.acks)])
    case Forge(m) => w.(sent := w.sent + {m})
  }

  /** Every honest node starts with an empty network. */
  ghost predicate Init(w: World) {
    && w.drafts.Keys == w.nets.Keys && w.sent == {}
    && forall a :: a in w.nets ==> w.nets[a] == NewNet && w.drafts[a] == {}
  }

  ghost predicate Runs(ws: seq<World>, acts: seq<Act>) {
    && |ws| == |acts| + 1 && Init(ws[0])
    && forall k :: 0 <= k < |acts| ==> Enabled(ws[k], acts[k]) && Next(ws[k], acts[k]) == ws[k + 1]
  }

  // ---------------------------------------------------------------------------
  // What `Track` tells about a list whose transaction IDs are right

  ghost predicate Honest(list: seq<Gossip>) {
    forall i :: 0 <= i < |list| ==> list[i].tx.node == list[i].claim.node
  }

  lemma TrackOneKeepsHolding(t: Tracking, g: Gossip, verified: bool, v: NodeID, ts: nat)
    requires Holds(t.net, v, ts)
    ensures Holds(TrackOne(t, g, verified).net, v, ts)
  {
    TrackOneChange(t, g, verified, v);
  }

  /** The new acknowledgement, if any, is of a claim now held. */
  lemma TrackOneAcksHeld(t: Tracking, g: Gossip, verified: bool)
    requires g.tx.node == g.claim.node
    ensures var t' := TrackOne(t, g, verified);
            || t'.newest == t.newest
            || exists ts :: t'.newest == t.newest[g.tx := ts] && Holds(t'.net, g.tx.node, ts)
  {
    var t' := TrackOne(t, g, verified);
    if g.tx in t'.newest {
      var ts := t'.newest[g.tx];
      if t'.newest == t.newest[g.tx := ts] && !(t'.newest == t.newest) {
        assert Holds(t'.net, g.tx.node, ts);
      }
    }
  }

  lemma {:induction false} TrackAcksHeld(n: Net, list: seq<Gossip>, verified: seq<bool>, tx: TxID)
    requires |verified| == |list| && Honest(list)
    ensures var t := TrackAll(n, list, verified);
            tx in t.newest ==> Holds(t.net, tx.node, t.newest[tx])
  {
    if list != [] {
      var k := |list| - 1;
      var t := TrackAll(n, list[..k], verified[..k]);
      TrackAcksHeld(n, list[..k], verified[..k], tx);
      TrackOneAcksHeld(t, list[k], verified[k]);
      if tx in t.newest { TrackOneKeepsHolding(t, list[k], verified[k], tx.node, t.newest[tx]); }
    }
  }

  /** The list offers a claim of `v` at least this new. */
  ghost predicate Offers(list: seq<Gossip>, v: NodeID, ts: nat) {
    exists i :: 0 <= i < |list| && list[i].claim.node == v && ts <= list[i].claim.ts
  }

  lemma TrackOneUpToDate(t: Tracking, g: Gossip, verified: bool, tx: TxID)
    requires g.tx.node == g.claim.node && tx in TrackOne(t, g, verified).upToDate
    ensures var n' := TrackOne(t, g, verified).net;
            || (tx in t.upToDate && SameAt(t.net, n', tx.node))
            || (tx.node == g.claim.node && tx.node in n'.peerIPs && n'.peerIPs[tx.node].ts <= g.claim.ts)
  {
    TrackOneChange(t, g, verified, tx.node);
  }

  /** A transaction is taken for up to date only if the list offered what is held at the end. */
  lemma {:induction false} TrackUpToDate(n: Net, list: seq<Gossip>, verified: seq<bool>, tx: TxID)
    requires |verified| == |list| && Honest(list) && tx in TrackAll(n, list, verified).upToDate
    ensures var n' := TrackAll(n, list, verified).net;
            tx.node in n'.peerIPs && Offers(list, tx.node, n'.peerIPs[tx.node].ts)
  {
    var k := |list| - 1;
    var t := TrackAll(n, list[..k], verified[..k]);
    var n' := TrackAll(n, list, verified).net;
    TrackOneUpToDate(t, list[k], verified[k], tx);
    if tx in t.upToDate && SameAt(t.net, n', tx.node) {
      TrackUpToDate(n, list[..k], verified[..k], tx);
      var i :| 0 <= i < k && list[..k][i].claim.node == tx.node && n'.peerIPs[tx.node].ts <= list[..k][i].claim.ts;
      assert list[i].claim.node == tx.node && n'.peerIPs[tx.node].ts <= list[i].claim.ts;
    }
  }

  // ---------------------------------------------------------------------------
  // When a peer is taken to know of a validator

  /** The entry is there in both, with the same address. */
  ghost predicate SameAddress(n: Net, n': Net, v: NodeID) {
    v in n.peerIPs && v in n'.peerIPs && n'.peerIPs[v].ip == n.peerIPs[v].ip
  }

  lemma TrackOneKnows(t: Tracking, g: Gossip, verified: bool, b: NodeID, v: NodeID)
    requires v in t.net.validators && Knows(TrackOne(t, g, verified).net, b, v)
    requires Knows(t.net, b, v) ==> v in t.net.peerIPs
    ensures Knows(t.net, b, v) && SameAddress(t.net, TrackOne(t, g, verified).net, v)
  {
    if g.claim.node in t.net.peerIPs && Knows(Updated(t.net, g.claim), b, v) { UpdatedKnows(t.net, g.claim, b, v); }
  }

  lemma UpdatedKnows(n: Net, c: Claim, b: NodeID, v: NodeID)
    requires c.node in n.peerIPs && v in n.validators && Knows(Updated(n, c), b, v)
    ensures Knows(n, b, v) && (v in n.peerIPs ==> SameAddress(n, Updated(n, c), v))
  {}

  lemma TrackOneFrame(t: Tracking, g: Gossip, verified: bool)
    ensures TrackOne(t, g, verified).net.validators == t.net.validators
    ensures TrackOne(t, g, verified).net.closing == t.net.closing
  {
    if g.claim.node in t.net.peerIPs { UpdatedIs(t.net, g.claim, 0); }
  }

  lemma {:induction false} TrackAllKnows(n: Net, list: seq<Gossip>, verified: seq<bool>, b: NodeID, v: NodeID)
    requires |verified| == |list| && v in n.validators && (Knows(n, b, v) ==> v in n.peerIPs)
    ensures var n' := TrackAll(n, list, verified).net;
            n'.validators == n.validators && (Knows(n', b, v) ==> Knows(n, b, v) && SameAddress(n, n', v))
  {
    if list != [] {
      var k := |list| - 1;
      var t := TrackAll(n, list[..k], verified[..k]);
      TrackAllKnows(n, list[..k], verified[..k], b, v);
      TrackOneFrame(t, list[k], verified[k]);
      if Knows(TrackOne(t, list[k], verified[k]).net, b, v) { TrackOneKnows(t, list[k], verified[k], b, v); }
    }
  }

  /** `Track` keeps what was known of an unchanged address, and adds for the sender only what
      its list offered. */
  lemma TrackKnows(n: Net, peer: NodeID, list: seq<Gossip>, verified: seq<bool>, b: NodeID, v: NodeID)
    requires |verified| == |list| && (b == peer ==> Honest(list))
    requires Inv(n) && (Knows(n, b, v) ==> v in n.peerIPs)
    requires Knows(Track(n, peer, list, verified).0, b, v)
    ensures var n' := Track(n, peer, list, verified).0;
            || (Knows(n, b, v) && SameAddress(n, n', v))
            || (b == peer && v in n'.peerIPs && Offers(list, v, n'.peerIPs[v].ts))
  {
    TrackKeepsInv(n, peer, list, verified);
    var n' := Track(n, peer, list, verified).0;
    var t := TrackAll(n, list, verified);
    TrackAllFrame(n, list, verified);
    assert v in n.validators;
    TrackAllKnows(n, list, verified, b, v);
    if !Knows(t.net, b, v) {
      var i :| 0 <= i < |t.upToDate| && t.net.Registered(t.upToDate[i]) && t.upToDate[i].node == v;
      TrackUpToDate(n, list, verified, t.upToDate[i]);
    }
  }

  lemma {:induction false} TrackAllFrame(n: Net, list: seq<Gossip>, verified: seq<bool>)
    requires |verified| == |list|
    ensures TrackAll(n, list, verified).net.validators == n.validators
    ensures TrackAll(n, list, verified).net.closing == n.closing
  {
    if list != [] {
      var k := |list| - 1;
      TrackAllFrame(n, list[..k], verified[..k]);
      TrackOneFrame(TrackAll(n, list[..k], verified[..k]), list[k], verified[k]);
    }
  }

  /** The acknowledgements say that the sender holds a claim of `v` at least this new. */
  ghost predicate Acknowledges(acks: seq<(TxID, nat)>, v: NodeID, ts: nat) {
    exists i :: 0 <= i < |acks| && acks[i].0.node == v && ts <= acks[i].1
  }

  lemma {:induction false} ConfirmedIsAcknowledged(n: Net, acks: seq<(TxID, nat)>, tx: TxID)
    requires tx in Confirmed(n, acks)
    ensures tx.node in n.peerIPs && Acknowledges(acks, tx.node, n.peerIPs[tx.node].ts)
  {
    var k := |acks| - 1;
    if tx in Confirmed(n, acks[..k]) {
      ConfirmedIsAcknowledged(n, acks[..k], tx);
      var i :| 0 <= i < k && acks[..k][i].0.node == tx.node && n.peerIPs[tx.node].ts <= acks[..k][i].1;
      assert acks[i].0.node == tx.node && n.peerIPs[tx.node].ts <= acks[i].1;
    }
  }

  lemma MarkTrackedKnows(n: Net, peer: NodeID, acks: seq<(TxID, nat)>, b: NodeID, v: NodeID)
    requires Knows(MarkTracked(n, peer, acks), b, v) && !Knows(n, b, v)
    ensures b == peer && v in n.peerIPs && Acknowledges(acks, v, n.peerIPs[v].ts)
  {
    var txs := Confirmed(n, acks);
    var i :| 0 <= i < |txs| && n.Registered(txs[i]) && txs[i].node == v;
    ConfirmedIsAcknowledged(n, acks, txs[i]);
  }

  lemma ConnectedKnows(n: Net, id: NodeID, claim: Claim, b: NodeID, v: NodeID)
    requires v in n.validators && Knows(Connected(n, id, claim), b, v) && (Knows(n, b, v) ==> v in n.peerIPs)
    ensures Knows(n, b, v) && SameAddress(n, Connected(n, id, claim), v)
  {}

  lemma DisconnectEndKnows(n: Net, id: NodeID, b: NodeID, v: NodeID)
    requires id in n.leaving && n.leaving[id].Saw? && DisconnectEnd(n, id).Some? && v in n.validators
    requires Knows(DisconnectEnd(n, id).value, b, v) && (Knows(n, b, v) ==> v in n.peerIPs)
    ensures Knows(n, b, v) && SameAddress(n, DisconnectEnd(n, id).value, v)
  {
    DisconnectEndChange(n, id, v);
  }

  /** No other step makes a peer know of a validator, and an entry known of keeps its address. */
  lemma LocalKnows(n: Net, e: Event, b: NodeID, v: NodeID)
    requires Inv(n) && Allowed(n, e) && !e.ETrack? && !e.EMarkTracked? && !e.EStartClose?
    requires Step(n, e).Some? && Knows(Step(n, e).value, b, v) && (Knows(n, b, v) ==> v in n.peerIPs)
    ensures Knows(n, b, v) && SameAddress(n, Step(n, e).value, v)
  {
    KnownIsValidator(n, e, b, v);
    match e
    case EConnected(id, claim) => ConnectedKnows(n, id, claim, b, v);
    case EDisconnectEnd(id) => DisconnectEndKnows(n, id, b, v);
    case EDial(_) =>
    case EUpgrade(_) =>
    case _ =>
  }

  lemma KnownIsValidator(n: Net, e: Event, b: NodeID, v: NodeID)
    requires Inv(n) && Allowed(n, e) && Step(n, e).Some? && Knows(Step(n, e).value, b, v)
    ensures v in Step(n, e).value.validators && (!e.EAddValidator? ==> v in n.validators)
  {
    StepKeepsInv(n, e);
    if e.ETrack? { TrackAllFrame(n, e.list, e.verified); }
  }

  // ---------------------------------------------------------------------------
  // What a round of gossip achieves

  /** A claim that `a` gossips to `b`, checked and wanted there, is held by `b` afterwards and
      acknowledged with a timestamp at least its own. */
  lemma GossipArrives(b: Net, a: NodeID, list: seq<Gossip>, verified: seq<bool>, i: nat)
    requires |list| == |verified| && i < |list| && Usable(b, list[i].claim, verified[i])
    requires Honest(list) && a in b.known && b.Registered(list[i].tx)
    ensures var (b', acks) := Track(b, a, list, verified);
            && Holds(b', list[i].claim.node, list[i].claim.ts)
            && list[i].tx in acks && list[i].claim.ts <= acks[list[i].tx]
  {
    TrackStores(b, list, verified, i);
    AnsweredWhen(b, list, verified, i);
    AcknowledgedIff(b, a, list, verified, list[i].tx);
    UptoEnds(b, list, verified);
    AnswerIsAtLeast(b, list, verified, |list|, list[i].tx, list[i].tx.node, i);
  }

  /** And when the answer comes back to `a`, which holds nothing newer by then, `a` takes `b` to know
      of the validator: it is not gossiped to `b` again. */
  lemma GossipIsConfirmed(a: Net, b: NodeID, acks: seq<(TxID, nat)>, answer: map<TxID, nat>, tx: TxID)
    requires Lists(acks, answer) && tx in answer && a.Registered(tx) && b in a.known
    requires tx.node in a.peerIPs && a.peerIPs[tx.node].ts <= answer[tx]
    ensures Knows(MarkTracked(a, b, acks), b, tx.node)
  {
    KnowsAfterMarked(a, b, acks, b, tx.node);
    var i :| 0 <= i < |acks| && acks[i] == (tx, answer[tx]);
  }

  // ---------------------------------------------------------------------------
  // Runs of the whole network

  lemma {:induction false} NetsKeepInv(ws: seq<World>, acts: seq<Act>, k: nat)
    requires Runs(ws, acts) && k < |ws|
    ensures ws[k].nets.Keys == ws[0].nets.Keys == ws[k].drafts.Keys
    ensures forall a :: a in ws[k].nets ==> Inv(ws[k].nets[a])
  {
    if k > 0 {
      var j := k - 1;
      NetsKeepInv(ws, acts, j);
      assert Next(ws[j], acts[j]) == ws[j + 1];
      NextKeepsInv(ws[j], acts[j]);
    }
  }

  lemma NextKeepsInv(w: World, act: Act)
    requires Enabled(w, act) && forall a :: a in w.nets ==> Inv(w.nets[a])
    ensures forall a :: a in Next(w, act).nets ==> Inv(Next(w, act).nets[a])
  {
    match act
    case Local(a, e) => StepKeepsInv(w.nets[a], e);
    case Receive(a, m, verified, _) => TrackKeepsInv(w.nets[a], m.from, m.list, verified);
    case Marked(a, m) => MarkTrackedKeepsInv(w.nets[a], m.from, m.acks);
    case _ =>
  }

  /** At some time up to the `k`th, `b` held a claim of `v` at least this new. */
  ghost predicate Once(ws: seq<World>, k: nat, b: NodeID, v: NodeID, ts: nat) {
    exists j :: 0 <= j <= k && j < |ws| && b in ws[j].nets && Holds(ws[j].nets[b], v, ts)
  }

  lemma OnceStays(ws: seq<World>, j: nat, k: nat, b: NodeID, v: NodeID, ts: nat, ts': nat)
    requires Once(ws, j, b, v, ts) && j <= k && ts' <= ts
    ensures Once(ws, k, b, v, ts')
  {
    var i :| 0 <= i <= j && i < |ws| && b in ws[i].nets && Holds(ws[i].nets[b], v, ts);
    assert Holds(ws[i].nets[b], v, ts');
  }

  /** What an honest node reads for a message it held at that time, under the right transaction. */
  lemma {:induction false} DraftsWereHeld(ws: seq<World>, acts: seq<Act>, k: nat, a: NodeID, g: Gossip)
    requires Runs(ws, acts) && k < |ws| && a in ws[k].drafts && g in ws[k].drafts[a]
    ensures g.tx.node == g.claim.node && Once(ws, k, a, g.claim.node, g.claim.ts)
  {
    NetsKeepInv(ws, acts, k);
    if k > 0 {
      var j := k - 1;
      NetsKeepInv(ws, acts, j);
      assert Next(ws[j], acts[j]) == ws[j + 1];
      if g in ws[j].drafts[a] {
        DraftsWereHeld(ws, acts, j, a, g);
        OnceStays(ws, j, k, a, g.claim.node, g.claim.ts, g.claim.ts);
      } else {
        var n := ws[j].nets[a];
        assert At(n, g.tx.node);
        assert Holds(ws[j].nets[a], g.claim.node, g.claim.ts);
      }
    }
  }

  /** An honest node's PeerList holds only what it has read. */
  lemma {:induction false} ListsAreDrafted(ws: seq<World>, acts: seq<Act>, k: nat, m: Msg, i: nat)
    requires Runs(ws, acts) && k < |ws| && m in ws[k].sent && m.PeerList? && m.from in ws[k].nets && i < |m.list|
    ensures m.from in ws[k].drafts && m.list[i] in ws[k].drafts[m.from]
  {
    NetsKeepInv(ws, acts, k);
    var j := k - 1;
    if k > 0 {
      NetsKeepInv(ws, acts, j);
      assert Next(ws[j], acts[j]) == ws[j + 1];
      if m in ws[j].sent { ListsAreDrafted(ws, acts, j, m, i); }
    }
  }

  lemma HonestList(ws: seq<World>, acts: seq<Act>, k: nat, m: Msg)
    requires Runs(ws, acts) && k < |ws| && m in ws[k].sent && m.PeerList? && m.from in ws[k].nets
    ensures Honest(m.list)
    ensures forall i :: 0 <= i < |m.list| ==> Once(ws, k, m.from, m.list[i].claim.node, m.list[i].claim.ts)
  {
    forall i | 0 <= i < |m.list|
      ensures m.list[i].tx.node == m.list[i].claim.node && Once(ws, k, m.from, m.list[i].claim.node, m.list[i].claim.ts)
    {
      ListsAreDrafted(ws, acts, k, m, i);
      DraftsWereHeld(ws, acts, k, m.from, m.list[i]);
    }
  }

  /** The `j`th step sent this acknowledgement. */
  ghost predicate SentAt(acts: seq<Act>, j: nat, m: Msg) {
    j < |acts| && acts[j].Receive? && m == Ack(acts[j].a, acts[j].m.from, acts[j].acks)
  }

  lemma {:induction false} AckWasSent(ws: seq<World>, acts: seq<Act>, k: nat, m: Msg)
    requires Runs(ws, acts) && k < |ws| && m in ws[k].sent && m.Ack? && m.from in ws[k].nets
    ensures exists j :: 0 <= j < k && SentAt(acts, j, m)
  {
    NetsKeepInv(ws, acts, k);
    if k > 0 {
      var j := k - 1;
      NetsKeepInv(ws, acts, j);
      assert Next(ws[j], acts[j]) == ws[j + 1];
      if m in ws[j].sent {
        AckWasSent(ws, acts, j, m);
      } else {
        assert SentAt(acts, j, m);
      }
    }
  }

  /** Whenever an acknowledgement goes out to an honest node, its sender holds what it says. */
  lemma AckIsHeld(ws: seq<World>, acts: seq<Act>, j: nat, m: Msg, i: nat)
    requires Runs(ws, acts) && SentAt(acts, j, m) && m.to in ws[0].nets && i < |m.acks|
    ensures m.from in ws[j + 1].nets && Holds(ws[j + 1].nets[m.from], m.acks[i].0.node, m.acks[i].1)
  {
    NetsKeepInv(ws, acts, j);
    assert Next(ws[j], acts[j]) == ws[j + 1];
    var act := acts[j];
    HonestList(ws, acts, j, act.m);
    TrackAcksHeld(ws[j].nets[act.a], act.m.list, act.verified, m.acks[i].0);
  }

  /** Whenever A marks v as known to B because of an acknowledgement, then whenever B sent that
      acknowledgement, B's claim for v was at least as new as the one A holds when marking. */
  lemma MarkedIsHeld(ws: seq<World>, acts: seq<Act>, j: nat, k: nat, tx: TxID)
    requires Runs(ws, acts) && k < |acts| && acts[k].Marked? && SentAt(acts, j, acts[k].m)
    requires tx in Confirmed(ws[k].nets[acts[k].a], acts[k].m.acks)
    ensures var (a, b, v) := (acts[k].a, acts[k].m.from, tx.node);
            && v in ws[k].nets[a].peerIPs && b in ws[j + 1].nets
            && Holds(ws[j + 1].nets[b], v, ws[k].nets[a].peerIPs[v].ts)
  {
    NetsKeepInv(ws, acts, k);
    var (a, m) := (acts[k].a, acts[k].m);
    var n := ws[k].nets[a];
    ConfirmedIsAcknowledged(n, m.acks, tx);
    var i :| 0 <= i < |m.acks| && m.acks[i].0.node == tx.node && n.peerIPs[tx.node].ts <= m.acks[i].1;
    AckIsHeld(ws, acts, j, m, i);
  }

  // ---------------------------------------------------------------------------
  // A node stops telling a peer about a validator only once the peer had heard

  /** Since the `i`th state `a` has held this address for `v`. */
  ghost predicate Steady(ws: seq<World>, a: NodeID, v: NodeID, i: nat, k: nat) {
    i <= k < |ws| && forall l :: i <= l <= k ==>
      a in ws[l].nets && a in ws[k].nets && SameAddress(ws[l].nets[a], ws[k].nets[a], v)
  }

  /** `b` at some time held a claim no older than the one with which `a` took up its address. */
  ghost predicate Heard(ws: seq<World>, k: nat, a: NodeID, b: NodeID, v: NodeID) {
    exists i: nat :: Steady(ws, a, v, i, k) && Once(ws, k, b, v, ws[i].nets[a].peerIPs[v].ts)
  }

  lemma HeardStays(ws: seq<World>, k: nat, a: NodeID, b: NodeID, v: NodeID)
    requires Heard(ws, k, a, b, v) && k + 1 < |ws| && a in ws[k].nets && a in ws[k + 1].nets
    requires SameAddress(ws[k].nets[a], ws[k + 1].nets[a], v)
    ensures Heard(ws, k + 1, a, b, v)
  {
    var i: nat :| Steady(ws, a, v, i, k) && Once(ws, k, b, v, ws[i].nets[a].peerIPs[v].ts);
    assert Steady(ws, a, v, i, k + 1);
    OnceStays(ws, k, k + 1, b, v, ws[i].nets[a].peerIPs[v].ts, ws[i].nets[a].peerIPs[v].ts);
  }

  lemma HeardNow(ws: seq<World>, k: nat, a: NodeID, b: NodeID, v: NodeID, ts: nat)
    requires k < |ws| && a in ws[k].nets && v in ws[k].nets[a].peerIPs && ws[k].nets[a].peerIPs[v].ts <= ts
    requires Once(ws, k, b, v, ts)
    ensures Heard(ws, k, a, b, v)
  {
    OnceStays(ws, k, k, b, v, ts, ws[k].nets[a].peerIPs[v].ts);
    assert Steady(ws, a, v, k, k);
  }

  /** The `j`th step is A's closing, and it drops A's entry for v. */
  ghost predicate Drops(ws: seq<World>, acts: seq<Act>, j: nat, a: NodeID, v: NodeID) {
    && j < |acts| && j < |ws| && a in ws[j].nets
    && acts[j] == Local(a, EStartClose) && v in ws[j].nets[a].tracked
  }

  /** In every run, for honest A and B: if A takes B to know of v, and so does not gossip v to B,
      then B has held a claim of v no older than the one with which A took up the address it now
      has - unless A's closing has dropped its entry for v. */
  lemma {:induction false} KnownWasHeard(ws: seq<World>, acts: seq<Act>, k: nat, a: NodeID, b: NodeID, v: NodeID)
    requires Runs(ws, acts) && k < |ws| && a in ws[k].nets && b in ws[k].nets && Knows(ws[k].nets[a], b, v)
    requires forall j :: 0 <= j < k ==> !Drops(ws, acts, j, a, v)
    ensures Heard(ws, k, a, b, v)
    decreases k
  {
    if k > 0 {
      var j := k - 1;
      NetsKeepInv(ws, acts, k);
      NetsKeepInv(ws, acts, j);
      assert !Drops(ws, acts, j, a, v);
      if Knows(ws[j].nets[a], b, v) { KnownWasHeard(ws, acts, j, a, b, v); HeardHolds(ws, j, a, b, v); }
      HeardStep(ws, acts, j, a, b, v);
    }
  }

  /** While A is open nothing has been dropped. */
  lemma {:induction false} OpenHasDroppedNothing(ws: seq<World>, acts: seq<Act>, j: nat, k: nat, a: NodeID, v: NodeID)
    requires Runs(ws, acts) && j < k < |ws| && a in ws[k].nets && !ws[k].nets[a].closing
    ensures !Drops(ws, acts, j, a, v)
    decreases k
  {
    var i := k - 1;
    NetsKeepInv(ws, acts, k);
    NetsKeepInv(ws, acts, i);
    assert Next(ws[i], acts[i]) == ws[i + 1];
    NotClosingBefore(ws[i], acts[i], a);
    if j < i { OpenHasDroppedNothing(ws, acts, j, i, a, v); }
  }

  lemma OpenKnownWasHeard(ws: seq<World>, acts: seq<Act>, k: nat, a: NodeID, b: NodeID, v: NodeID)
    requires Runs(ws, acts) && k < |ws| && a in ws[k].nets && b in ws[k].nets && Knows(ws[k].nets[a], b, v)
    requires !ws[k].nets[a].closing
    ensures Heard(ws, k, a, b, v)
  {
    forall j | 0 <= j < k ensures !Drops(ws, acts, j, a, v) { OpenHasDroppedNothing(ws, acts, j, k, a, v); }
    KnownWasHeard(ws, acts, k, a, b, v);
  }

  /** Closing keeps what peers know of. So right after it, A still takes B to know of v, and B has
      heard in that sense exactly if A's entry was not dropped. */
  lemma ClosingForgetsTheDropped(ws: seq<World>, acts: seq<Act>, k: nat, a: NodeID, b: NodeID, v: NodeID)
    requires Runs(ws, acts) && k < |acts| && a in ws[k].nets && b in ws[k].nets && Knows(ws[k].nets[a], b, v)
    requires !ws[k].nets[a].closing && acts[k] == Local(a, EStartClose)
    ensures a in ws[k + 1].nets && Knows(ws[k + 1].nets[a], b, v)
    ensures Heard(ws, k + 1, a, b, v) <==> !Drops(ws, acts, k, a, v)
  {
    NetsKeepInv(ws, acts, k);
    NetsKeepInv(ws, acts, k + 1);
    assert Next(ws[k], acts[k]) == ws[k + 1];
    if Drops(ws, acts, k, a, v) {
      assert v !in ws[k + 1].nets[a].peerIPs;
      if Heard(ws, k + 1, a, b, v) { HeardHolds(ws, k + 1, a, b, v); }
    } else {
      forall j | 0 <= j < k ensures !Drops(ws, acts, j, a, v) { OpenHasDroppedNothing(ws, acts, j, k, a, v); }
      KnownWasHeard(ws, acts, k + 1, a, b, v);
    }
  }

  lemma HeardHolds(ws: seq<World>, k: nat, a: NodeID, b: NodeID, v: NodeID)
    requires Heard(ws, k, a, b, v)
    ensures k < |ws| && a in ws[k].nets && v in ws[k].nets[a].peerIPs
  {
    var i: nat :| Steady(ws, a, v, i, k) && Once(ws, k, b, v, ws[i].nets[a].peerIPs[v].ts);
    assert SameAddress(ws[k].nets[a], ws[k].nets[a], v);
  }

  lemma NotClosingBefore(w: World, act: Act, a: NodeID)
    requires Enabled(w, act) && a in w.nets && !Next(w, act).nets[a].closing
    ensures !w.nets[a].closing && !(act.Local? && act.a == a && act.e.EStartClose?)
  {
    if act.Receive? && act.a == a { TrackAllFrame(w.nets[a], act.m.list, act.verified); }
    if act.Local? && act.a == a { LocalNotClosingBefore(w.nets[a], act.e); }
  }

  lemma LocalNotClosingBefore(n: Net, e: Event)
    requires Allowed(n, e) && !e.ETrack? && Step(n, e).Some? && !Step(n, e).value.closing
    ensures !n.closing && !e.EStartClose?
  {}

  /** What a step has to justify: A's net before and after it. */
  ghost predicate Moves(ws: seq<World>, acts: seq<Act>, j: nat, a: NodeID, b: NodeID, v: NodeID) {
    && Runs(ws, acts) && j < |acts| && a in ws[j].nets && b in ws[j].nets && a in ws[j + 1].nets
    && Knows(ws[j + 1].nets[a], b, v)
    && (Knows(ws[j].nets[a], b, v) ==> Heard(ws, j, a, b, v) && v in ws[j].nets[a].peerIPs)
  }

  lemma HeardStep(ws: seq<World>, acts: seq<Act>, j: nat, a: NodeID, b: NodeID, v: NodeID)
    requires Moves(ws, acts, j, a, b, v) && !Drops(ws, acts, j, a, v)
    ensures Heard(ws, j + 1, a, b, v)
  {
    var act := acts[j];
    if act.Forge? || act.a != a || act.Read? || act.Send? {
      HeardElsewhere(ws, acts, j, a, b, v);
    } else if act.Local? {
      HeardLocal(ws, acts, j, a, b, v);
    } else if act.Receive? {
      HeardReceive(ws, acts, j, b, v);
    } else if Knows(ws[j].nets[a], b, v) {
      HeardMarkedAgain(ws, acts, j, b, v);
    } else {
      HeardMarked(ws, acts, j, b, v);
    }
  }

  lemma HeardElsewhere(ws: seq<World>, acts: seq<Act>, j: nat, a: NodeID, b: NodeID, v: NodeID)
    requires Moves(ws, acts, j, a, b, v) && (acts[j].Forge? || acts[j].a != a || acts[j].Read? || acts[j].Send?)
    ensures Heard(ws, j + 1, a, b, v)
  {
    assert Next(ws[j], acts[j]) == ws[j + 1];
    assert ws[j + 1].nets[a] == ws[j].nets[a];
    HeardStays(ws, j, a, b, v);
  }

  lemma CloseKeepsUntracked(n: Net, b: NodeID, v: NodeID)
    requires v !in n.tracked && (Knows(n, b, v) ==> v in n.peerIPs) && Knows(StartClose(n), b, v)
    ensures Knows(n, b, v) && SameAddress(n, StartClose(n), v)
  {}

  lemma HeardLocal(ws: seq<World>, acts: seq<Act>, j: nat, a: NodeID, b: NodeID, v: NodeID)
    requires Moves(ws, acts, j, a, b, v) && acts[j].Local? && acts[j].a == a && !Drops(ws, acts, j, a, v)
    ensures Heard(ws, j + 1, a, b, v)
  {
    NetsKeepInv(ws, acts, j);
    assert Next(ws[j], acts[j]) == ws[j + 1];
    var n := ws[j].nets[a];
    if acts[j].e.EStartClose? { CloseKeepsUntracked(n, b, v); } else { LocalKnows(n, acts[j].e, b, v); }
    HeardStays(ws, j, a, b, v);
  }

  lemma HeardMarkedAgain(ws: seq<World>, acts: seq<Act>, j: nat, b: NodeID, v: NodeID)
    requires j < |acts| && acts[j].Marked? && Moves(ws, acts, j, acts[j].a, b, v)
    requires Knows(ws[j].nets[acts[j].a], b, v)
    ensures Heard(ws, j + 1, acts[j].a, b, v)
  {
    assert Next(ws[j], acts[j]) == ws[j + 1];
    HeardStays(ws, j, acts[j].a, b, v);
  }

  lemma HeardReceive(ws: seq<World>, acts: seq<Act>, j: nat, b: NodeID, v: NodeID)
    requires Runs(ws, acts) && j < |acts| && acts[j].Receive? && b in ws[j].nets && acts[j].a in ws[j].nets
    requires var n := ws[j].nets[acts[j].a]; Knows(n, b, v) ==> Heard(ws, j, acts[j].a, b, v) && v in n.peerIPs
    requires acts[j].a in ws[j + 1].nets && Knows(ws[j + 1].nets[acts[j].a], b, v)
    ensures Heard(ws, j + 1, acts[j].a, b, v)
  {
    NetsKeepInv(ws, acts, j);
    assert Next(ws[j], acts[j]) == ws[j + 1];
    var (a, m) := (acts[j].a, acts[j].m);
    var n' := ws[j + 1].nets[a];
    if m.from == b { HonestList(ws, acts, j, m); }
    TrackKnows(ws[j].nets[a], m.from, m.list, acts[j].verified, b, v);
    if b == m.from && v in n'.peerIPs && Offers(m.list, v, n'.peerIPs[v].ts) {
      var i :| 0 <= i < |m.list| && m.list[i].claim.node == v && n'.peerIPs[v].ts <= m.list[i].claim.ts;
      OnceStays(ws, j, j + 1, b, v, m.list[i].claim.ts, m.list[i].claim.ts);
      HeardNow(ws, j + 1, a, b, v, m.list[i].claim.ts);
    } else {
      HeardStays(ws, j, a, b, v);
    }
  }

  lemma HeardMarked(ws: seq<World>, acts: seq<Act>, j: nat, b: NodeID, v: NodeID)
    requires Runs(ws, acts) && j < |acts| && acts[j].Marked? && b in ws[j].nets && acts[j].a in ws[j].nets
    requires !Knows(ws[j].nets[acts[j].a], b, v)
    requires acts[j].a in ws[j + 1].nets && Knows(ws[j + 1].nets[acts[j].a], b, v)
    ensures Heard(ws, j + 1, acts[j].a, b, v)
  {
    NetsKeepInv(ws, acts, j);
    assert Next(ws[j], acts[j]) == ws[j + 1];
    var (a, m) := (acts[j].a, acts[j].m);
    var n := ws[j].nets[a];
    MarkTrackedKnows(n, m.from, m.acks, b, v);
    var i :| 0 <= i < |m.acks| && m.acks[i].0.node == v && n.peerIPs[v].ts <= m.acks[i].1;
    AckWasSent(ws, acts, j, m);
    var s :| 0 <= s < j && SentAt(acts, s, m);
    AckIsHeld(ws, acts, s, m, i);
    assert Once(ws, j + 1, b, v, m.acks[i].1);
    HeardNow(ws, j + 1, a, b, v, m.acks[i].1);
  }
}
