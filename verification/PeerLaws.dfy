/** What the steps of PeerNetwork bring about, said of the state before and the state after
    (network/network.go): what is stored, dropped, dialed, acknowledged and taken to be known. */
module PeerLaws {
  import opened Common
  import opened PeerNetwork

  // ---------------------------------------------------------------------------
  // One gossiped claim

  /** The entry keeps its node and changes its address. */
  ghost predicate Moved(n: Net, n': Net, v: NodeID) {
    v in n.peerIPs && v in n'.peerIPs && n'.peerIPs[v].ip != n.peerIPs[v].ip
  }

  /** The entry is new or has a new address. */
  ghost predicate Placed(n: Net, n': Net, v: NodeID) {
    v in n'.peerIPs && (v in n.peerIPs ==> n'.peerIPs[v].ip != n.peerIPs[v].ip)
  }

  /** The claim is to be used: it is verified, and its node has an entry or is wanted. */
  ghost predicate Usable(n: Net, c: Claim, verified: bool) {
    verified && (c.node in n.peerIPs || n.Wants(c.node))
  }

  /** A usable claim is held afterwards; nothing else changes an entry. */
  lemma ClaimIsStored(t: Tracking, g: Gossip, verified: bool, x: NodeID)
    ensures var (n, n', c) := (t.net, TrackOne(t, g, verified).net, g.claim);
            && (Usable(n, c, verified) ==> Holds(n', c.node, c.ts))
            && (x != c.node || !Usable(n, c, verified) ==> SameAt(n, n', x))
            && n' == n.(peerIPs := n'.peerIPs, tracked := n'.tracked, known := n'.known)
  {
    if g.claim.node in t.net.peerIPs { UpdatedIs(t.net, g.claim, x); }
  }

  /** A claim is answered exactly if it is held afterwards, with the timestamp then held, and its
      sender is up to date exactly if it is the one held. */
  lemma ClaimIsAnswered(t: Tracking, g: Gossip, verified: bool)
    ensures var (t', c) := (TrackOne(t, g, verified), g.claim);
            && t'.newest == (if Holds(t'.net, c.node, c.ts) then t.newest[g.tx := t'.net.peerIPs[c.node].ts] else t.newest)
            && t'.upToDate == t.upToDate +
                 if Holds(t'.net, c.node, c.ts) && t'.net.peerIPs[c.node].ts == c.ts then [g.tx] else []
  {
    if g.claim.node in t.net.peerIPs { UpdatedIs(t.net, g.claim, g.claim.node); }
  }

  lemma ResetForgets(n: Net, id: NodeID, b: NodeID, v: NodeID)
    requires v in n.validators
    ensures var n' := Reset(n, id);
            n' == n.(known := n'.known) && n'.known.Keys == n.known.Keys && (Knows(n', b, v) <==> Knows(n, b, v) && v != id)
  {}

  lemma UpdateForgets(n: Net, c: Claim, b: NodeID, v: NodeID)
    requires c.node in n.peerIPs && v in n.validators
    ensures var n' := Updated(n, c);
            n'.known.Keys == n.known.Keys && (Knows(n', b, v) <==> Knows(n, b, v) && !Moved(n, n', v))
  {
    ResetForgets(n.(peerIPs := n.peerIPs[c.node := c]), c.node, b, v);
  }

  /** Every peer forgets a validator exactly if its address changes. */
  lemma ClaimIsForgotten(t: Tracking, g: Gossip, verified: bool, b: NodeID, v: NodeID)
    requires v in t.net.validators
    ensures var (n, n') := (t.net, TrackOne(t, g, verified).net);
            && n'.known.Keys == n.known.Keys
            && (Knows(n', b, v) <==> Knows(n, b, v) && !Moved(n, n', v))
  {
    if g.claim.node in t.net.peerIPs { UpdateForgets(t.net, g.claim, b, v); }
  }

  lemma UpdateIsDialed(n: Net, c: Claim, x: NodeID)
    requires c.node in n.peerIPs
    ensures var n' := Updated(n, c);
            && (x in n'.tracked <==> x in n.tracked) && (x in n'.peerIPs <==> x in n.peerIPs)
            && (x in n.tracked ==> n'.tracked[x] == if Placed(n, n', x) then n'.peerIPs[x].ip else n.tracked[x])
  {}

  /** A node is dialed anew exactly if it gets an entry, and dialed where the entry says if the
      entry is new or has moved. */
  lemma ClaimIsDialed(t: Tracking, g: Gossip, verified: bool, x: NodeID)
    ensures var (n, n') := (t.net, TrackOne(t, g, verified).net);
            && (x in n'.tracked <==> x in n.tracked || (x !in n.peerIPs && x in n'.peerIPs))
            && (x in n'.tracked ==> n'.tracked[x] == if Placed(n, n', x) then n'.peerIPs[x].ip else n.tracked[x])
  {
    var n := t.net;
    if g.claim.node in n.peerIPs {
      UpdateIsDialed(n, g.claim, x);
    } else if !Usable(n, g.claim, verified) || x != g.claim.node {
      ClaimIsStored(t, g, verified, x);
    }
  }

  // ---------------------------------------------------------------------------
  // A list of claims

  /** What the first `i` claims of the list have led to. */
  ghost function Upto(n: Net, list: seq<Gossip>, verified: seq<bool>, i: nat): Tracking
    requires i <= |list| == |verified|
  {
    TrackAll(n, list[..i], verified[..i])
  }

  lemma UptoEnds(n: Net, list: seq<Gossip>, verified: seq<bool>)
    requires |list| == |verified|
    ensures Upto(n, list, verified, 0) == Tracking(n, map[], [])
    ensures Upto(n, list, verified, |list|) == TrackAll(n, list, verified)
  {
    assert list[..|list|] == list && verified[..|list|] == verified;
  }

  lemma UptoStep(n: Net, list: seq<Gossip>, verified: seq<bool>, i: nat)
    requires i < |list| == |verified|
    ensures Upto(n, list, verified, i + 1) == TrackOne(Upto(n, list, verified, i), list[i], verified[i])
  {
    assert list[..i + 1][..i] == list[..i] && verified[..i + 1][..i] == verified[..i];
  }

  /** Only entries, dial targets and knowledge change. */
  lemma {:induction false} UptoFrame(n: Net, list: seq<Gossip>, verified: seq<bool>, i: nat)
    requires i <= |list| == |verified|
    ensures var n' := Upto(n, list, verified, i).net;
            n' == n.(peerIPs := n'.peerIPs, tracked := n'.tracked, known := n'.known)
  {
    if i == 0 {
      UptoEnds(n, list, verified);
    } else {
      UptoFrame(n, list, verified, i - 1);
      UptoStep(n, list, verified, i - 1);
      ClaimIsStored(Upto(n, list, verified, i - 1), list[i - 1], verified[i - 1], 0);
    }
  }

  lemma {:induction false} HeldStays(n: Net, list: seq<Gossip>, verified: seq<bool>, i: nat, j: nat, v: NodeID, ts: nat)
    requires i <= j <= |list| == |verified| && Holds(Upto(n, list, verified, i).net, v, ts)
    ensures Holds(Upto(n, list, verified, j).net, v, ts)
  {
    if i < j {
      HeldStays(n, list, verified, i, j - 1, v, ts);
      UptoStep(n, list, verified, j - 1);
      TrackOneChange(Upto(n, list, verified, j - 1), list[j - 1], verified[j - 1], v);
    }
  }

  /** Whatever is verified and of a node with an entry or wanted is held at the end. */
  lemma TrackStores(n: Net, list: seq<Gossip>, verified: seq<bool>, i: nat)
    requires i < |list| == |verified| && Usable(n, list[i].claim, verified[i])
    ensures Holds(TrackAll(n, list, verified).net, list[i].claim.node, list[i].claim.ts)
  {
    var (c, t) := (list[i].claim, Upto(n, list, verified, i));
    UptoEnds(n, list, verified);
    UptoFrame(n, list, verified, i);
    if c.node in n.peerIPs { HeldStays(n, list, verified, 0, i, c.node, n.peerIPs[c.node].ts); }
    UptoStep(n, list, verified, i);
    ClaimIsStored(t, list[i], verified[i], c.node);
    HeldStays(n, list, verified, i + 1, |list|, c.node, c.ts);
  }

  lemma {:induction false} UnwantedGetsNone(n: Net, list: seq<Gossip>, verified: seq<bool>, i: nat, id: NodeID)
    requires i <= |list| == |verified| && id !in n.peerIPs
    requires n.Wants(id) ==> forall j :: 0 <= j < i ==> !(verified[j] && list[j].claim.node == id)
    ensures id !in Upto(n, list, verified, i).net.peerIPs
  {
    if i == 0 {
      UptoEnds(n, list, verified);
    } else {
      UnwantedGetsNone(n, list, verified, i - 1, id);
      UptoFrame(n, list, verified, i - 1);
      UptoStep(n, list, verified, i - 1);
      ClaimIsStored(Upto(n, list, verified, i - 1), list[i - 1], verified[i - 1], id);
    }
  }

  /** A node has an entry afterwards exactly if it had one, or is wanted and a verified claim of it
      came along; and the entry is the newest of those. */
  lemma EntryAfterTrack(n: Net, list: seq<Gossip>, verified: seq<bool>, id: NodeID)
    requires |list| == |verified|
    ensures var n' := TrackAll(n, list, verified).net;
            && (id in n'.peerIPs <==>
                  id in n.peerIPs || (n.Wants(id) && exists i :: 0 <= i < |list| && verified[i] && list[i].claim.node == id))
            && (id in n'.peerIPs ==>
                  || (id in n.peerIPs && n'.peerIPs[id] == n.peerIPs[id])
                  || (n'.peerIPs[id].node == id && Vouched(list, verified, n'.peerIPs[id])))
            && (id in n.peerIPs ==> Holds(n', id, n.peerIPs[id].ts))
            && (id in n'.peerIPs ==> forall i :: 0 <= i < |list| && verified[i] && list[i].claim.node == id ==>
                  Holds(n', id, list[i].claim.ts))
  {
    var n' := TrackAll(n, list, verified).net;
    UptoEnds(n, list, verified);
    TrackNeedsVouching(n, list, verified, id);
    if id in n.peerIPs { HeldStays(n, list, verified, 0, |list|, id, n.peerIPs[id].ts); }
    if id !in n.peerIPs && !(n.Wants(id) && exists i :: 0 <= i < |list| && verified[i] && list[i].claim.node == id) {
      UnwantedGetsNone(n, list, verified, |list|, id);
    }
    forall i | 0 <= i < |list| && verified[i] && list[i].claim.node == id && (id in n.peerIPs || n.Wants(id))
      ensures Holds(n', id, list[i].claim.ts)
    {
      TrackStores(n, list, verified, i);
    }
  }

  // What is answered.

  /** After the `i`th claim the node holds one at least as new. */
  ghost predicate Answered(n: Net, list: seq<Gossip>, verified: seq<bool>, i: nat)
    requires i < |list| == |verified|
  {
    Holds(Upto(n, list, verified, i + 1).net, list[i].claim.node, list[i].claim.ts)
  }

  /** And exactly that one. */
  ghost predicate Offered(n: Net, list: seq<Gossip>, verified: seq<bool>, i: nat)
    requires i < |list| == |verified|
  {
    Answered(n, list, verified, i) && Upto(n, list, verified, i + 1).net.peerIPs[list[i].claim.node].ts == list[i].claim.ts
  }

  /** The `i`th claim is the last of the first `k` that is answered under its transaction. */
  ghost predicate AnsweredLast(n: Net, list: seq<Gossip>, verified: seq<bool>, k: nat, tx: TxID, i: nat)
    requires k <= |list| == |verified|
  {
    && i < k && list[i].tx == tx && Answered(n, list, verified, i)
    && forall j :: i < j < k && list[j].tx == tx ==> !Answered(n, list, verified, j)
  }

  /** A transaction is answered exactly if a claim under it is. */
  lemma {:induction false} AnsweredIff(n: Net, list: seq<Gossip>, verified: seq<bool>, k: nat, tx: TxID)
    requires k <= |list| == |verified|
    ensures tx in Upto(n, list, verified, k).newest <==> exists i :: 0 <= i < k && list[i].tx == tx && Answered(n, list, verified, i)
  {
    if k == 0 {
      UptoEnds(n, list, verified);
    } else {
      var j := k - 1;
      AnsweredIff(n, list, verified, j, tx);
      UptoStep(n, list, verified, j);
      ClaimIsAnswered(Upto(n, list, verified, j), list[j], verified[j]);
    }
  }

  /** With what was held when the last one was. */
  lemma {:induction false} NewestIsLast(n: Net, list: seq<Gossip>, verified: seq<bool>, k: nat, tx: TxID, i: nat)
    requires k <= |list| == |verified| && AnsweredLast(n, list, verified, k, tx, i)
    ensures tx in Upto(n, list, verified, k).newest
    ensures Upto(n, list, verified, k).newest[tx] == Upto(n, list, verified, i + 1).net.peerIPs[list[i].claim.node].ts
  {
    var j := k - 1;
    UptoStep(n, list, verified, j);
    ClaimIsAnswered(Upto(n, list, verified, j), list[j], verified[j]);
    if i < j {
      assert list[j].tx == tx ==> !Answered(n, list, verified, j);
      NewestIsLast(n, list, verified, j, tx, i);
    }
  }

  lemma {:induction false} UpToDateIffOffered(n: Net, list: seq<Gossip>, verified: seq<bool>, k: nat, tx: TxID)
    requires k <= |list| == |verified|
    ensures tx in Upto(n, list, verified, k).upToDate <==> exists i :: 0 <= i < k && list[i].tx == tx && Offered(n, list, verified, i)
  {
    if k == 0 {
      UptoEnds(n, list, verified);
    } else {
      var j := k - 1;
      UpToDateIffOffered(n, list, verified, j, tx);
      UptoStep(n, list, verified, j);
      ClaimIsAnswered(Upto(n, list, verified, j), list[j], verified[j]);
    }
  }

  // What is forgotten and dialed.

  ghost predicate MovesAt(n: Net, list: seq<Gossip>, verified: seq<bool>, i: nat, v: NodeID)
    requires i < |list| == |verified|
  {
    Moved(Upto(n, list, verified, i).net, Upto(n, list, verified, i + 1).net, v)
  }

  ghost predicate PlacedAt(n: Net, list: seq<Gossip>, verified: seq<bool>, i: nat, v: NodeID)
    requires i < |list| == |verified|
  {
    Placed(Upto(n, list, verified, i).net, Upto(n, list, verified, i + 1).net, v)
  }

  /** What was known of a validator is forgotten exactly if one of the claims changes its address. */
  lemma {:induction false} KnownUpto(n: Net, list: seq<Gossip>, verified: seq<bool>, k: nat, b: NodeID, v: NodeID)
    requires k <= |list| == |verified| && v in n.validators
    ensures Upto(n, list, verified, k).net.known.Keys == n.known.Keys
    ensures Knows(Upto(n, list, verified, k).net, b, v) <==>
            Knows(n, b, v) && forall i :: 0 <= i < k ==> !MovesAt(n, list, verified, i, v)
  {
    if k == 0 {
      UptoEnds(n, list, verified);
    } else {
      var j := k - 1;
      KnownUpto(n, list, verified, j, b, v);
      UptoFrame(n, list, verified, j);
      UptoStep(n, list, verified, j);
      ClaimIsForgotten(Upto(n, list, verified, j), list[j], verified[j], b, v);
      assert MovesAt(n, list, verified, j, v) <==> Moved(Upto(n, list, verified, j).net, Upto(n, list, verified, k).net, v);
    }
  }

  ghost predicate PlacedBy(n: Net, list: seq<Gossip>, verified: seq<bool>, k: nat, v: NodeID)
    requires k <= |list| == |verified|
  {
    exists i :: 0 <= i < k && PlacedAt(n, list, verified, i, v)
  }

  /** A node is dialed that was, or that got an entry; where the entry says if it was placed, and
      otherwise where it was. */
  ghost predicate Dialed(n: Net, n': Net, x: NodeID, placed: bool) {
    && (x in n'.tracked <==> x in n.tracked || (x !in n.peerIPs && x in n'.peerIPs))
    && (placed ==> x in n'.peerIPs)
    && (placed && x in n'.tracked ==> n'.tracked[x] == n'.peerIPs[x].ip)
    && (!placed && x in n'.tracked ==> x in n.tracked && n'.tracked[x] == n.tracked[x])
  }

  lemma DialedOn(n: Net, m: Net, n': Net, x: NodeID, placed: bool)
    requires Dialed(n, m, x, placed) && Dialed(m, n', x, Placed(m, n', x))
    requires (x in n.peerIPs ==> x in m.peerIPs) && (x in m.peerIPs ==> x in n'.peerIPs)
    ensures Dialed(n, n', x, placed || Placed(m, n', x))
  {}

  /** A dial target is where the entry says if one of the claims placed the entry, and otherwise
      where it was. */
  lemma {:induction false} DialedUpto(n: Net, list: seq<Gossip>, verified: seq<bool>, k: nat, x: NodeID)
    requires k <= |list| == |verified|
    ensures Dialed(n, Upto(n, list, verified, k).net, x, PlacedBy(n, list, verified, k, x))
  {
    UptoEnds(n, list, verified);
    if k > 0 {
      var j := k - 1;
      DialedUpto(n, list, verified, j, x);
      UptoStep(n, list, verified, j);
      var (t, n') := (Upto(n, list, verified, j), Upto(n, list, verified, k).net);
      if x in n.peerIPs { HeldStays(n, list, verified, 0, j, x, 0); }
      if x in t.net.peerIPs { HeldStays(n, list, verified, j, k, x, 0); }
      ClaimIsDialed(t, list[j], verified[j], x);
      DialedOn(n, t.net, n', x, PlacedBy(n, list, verified, j, x));
      assert PlacedAt(n, list, verified, j, x) <==> Placed(t.net, n', x);
      assert PlacedBy(n, list, verified, k, x) <==> PlacedBy(n, list, verified, j, x) || PlacedAt(n, list, verified, j, x);
    }
  }

  // ---------------------------------------------------------------------------
  // `Track`

  /** An untracked peer is answered nothing. For a tracked one, exactly those transactions are
      acknowledged that registered a current validator and under which a claim is answered. */
  lemma AcknowledgedIff(n: Net, peer: NodeID, list: seq<Gossip>, verified: seq<bool>, tx: TxID)
    requires |list| == |verified|
    ensures tx in Track(n, peer, list, verified).1 <==>
            peer in n.known && n.Registered(tx) && exists i :: 0 <= i < |list| && list[i].tx == tx && Answered(n, list, verified, i)
    ensures forall i: nat :: AnsweredLast(n, list, verified, |list|, tx, i) && peer in n.known && n.Registered(tx) ==>
              && tx in Track(n, peer, list, verified).1
              && Track(n, peer, list, verified).1[tx] == Upto(n, list, verified, i + 1).net.peerIPs[list[i].claim.node].ts
  {
    UptoEnds(n, list, verified);
    UptoFrame(n, list, verified, |list|);
    TrackKeys(n, list, verified);
    AnsweredIff(n, list, verified, |list|, tx);
    forall i: nat | AnsweredLast(n, list, verified, |list|, tx, i)
      ensures tx in TrackAll(n, list, verified).newest
      ensures TrackAll(n, list, verified).newest[tx] == Upto(n, list, verified, i + 1).net.peerIPs[list[i].claim.node].ts
    {
      NewestIsLast(n, list, verified, |list|, tx, i);
    }
  }

  lemma {:induction false} TrackKeys(n: Net, list: seq<Gossip>, verified: seq<bool>)
    requires |list| == |verified|
    ensures TrackAll(n, list, verified).net.known.Keys == n.known.Keys
  {
    if list != [] {
      var k := |list| - 1;
      TrackKeys(n, list[..k], verified[..k]);
      var t := TrackAll(n, list[..k], verified[..k]);
      if list[k].claim.node in t.net.peerIPs { UpdatedIs(t.net, list[k].claim, 0); }
    }
  }

  /** If all claims under a transaction are of one node, it is acknowledged with a timestamp at least
      that of every answered claim under it. */
  lemma {:induction false} AnswerIsAtLeast(n: Net, list: seq<Gossip>, verified: seq<bool>, k: nat, tx: TxID, v: NodeID, i: nat)
    requires i < k <= |list| == |verified| && list[i].tx == tx && Answered(n, list, verified, i)
    requires forall j :: 0 <= j < |list| && list[j].tx == tx ==> list[j].claim.node == v
    ensures tx in Upto(n, list, verified, k).newest && list[i].claim.ts <= Upto(n, list, verified, k).newest[tx]
  {
    var j := k - 1;
    UptoStep(n, list, verified, j);
    ClaimIsAnswered(Upto(n, list, verified, j), list[j], verified[j]);
    HeldStays(n, list, verified, i + 1, k, v, list[i].claim.ts);
    if i < j { AnswerIsAtLeast(n, list, verified, j, tx, v, i); }
  }

  /** Otherwise it can be less: transactions come unchecked, and the last claim under one decides. */
  lemma AnswerCanBeLess(n: Net, tx: TxID, c: Claim, d: Claim)
    requires c.node in n.peerIPs && n.peerIPs[c.node] == c && d.node in n.peerIPs && n.peerIPs[d.node] == d && d.ts < c.ts
    ensures var list := [Gossip(c, tx), Gossip(d, tx)];
            && Answered(n, list, [false, false], 0)
            && tx in TrackAll(n, list, [false, false]).newest && TrackAll(n, list, [false, false]).newest[tx] < c.ts
  {
    var (list, verified) := ([Gossip(c, tx), Gossip(d, tx)], [false, false]);
    UptoEnds(n, list, verified);
    UptoStep(n, list, verified, 0);
    UptoStep(n, list, verified, 1);
  }

  /** The peer that sent the list knows of a validator afterwards exactly if it offered the claim
      then held under the validator's own transaction, or knew of it and the address did not
      change; any other peer exactly in the second case. */
  lemma KnowsAfterTrack(n: Net, peer: NodeID, list: seq<Gossip>, verified: seq<bool>, b: NodeID, v: NodeID)
    requires |list| == |verified| && v in n.validators && n.validators[v].node == v
    ensures Knows(Track(n, peer, list, verified).0, b, v) <==>
            || (Knows(n, b, v) && forall i :: 0 <= i < |list| ==> !MovesAt(n, list, verified, i, v))
            || (b == peer && peer in n.known &&
                exists i :: 0 <= i < |list| && list[i].tx == n.validators[v] && Offered(n, list, verified, i))
  {
    var t := TrackAll(n, list, verified);
    UptoEnds(n, list, verified);
    UptoFrame(n, list, verified, |list|);
    TrackKeys(n, list, verified);
    KnownUpto(n, list, verified, |list|, b, v);
    UpToDateIffOffered(n, list, verified, |list|, n.validators[v]);
    assert v in RegisteredNodes(t.net, t.upToDate) <==> n.validators[v] in t.upToDate by {
      if n.validators[v] in t.upToDate {
        var i :| 0 <= i < |t.upToDate| && t.upToDate[i] == n.validators[v];
        assert t.net.Registered(t.upToDate[i]);
      }
    }
  }

  /** Every tracked node whose entry the call changed or made is dialed where its entry says. */
  lemma DialedAfterTrack(n: Net, peer: NodeID, list: seq<Gossip>, verified: seq<bool>, x: NodeID)
    requires |list| == |verified|
    ensures var n' := Track(n, peer, list, verified).0;
            && (x in n'.tracked <==> x in n.tracked || (x !in n.peerIPs && x in n'.peerIPs))
            && (x in n'.tracked && Placed(n, n', x) ==> n'.tracked[x] == n'.peerIPs[x].ip)
            && (x in n'.tracked && x in n.tracked && !(x in n'.peerIPs) ==> n'.tracked[x] == n.tracked[x])
  {
    UptoEnds(n, list, verified);
    DialedUpto(n, list, verified, |list|, x);
    PlacedSomewhere(n, list, verified, |list|, x);
  }

  lemma {:induction false} PlacedSomewhere(n: Net, list: seq<Gossip>, verified: seq<bool>, k: nat, x: NodeID)
    requires k <= |list| == |verified|
    ensures Placed(n, Upto(n, list, verified, k).net, x) ==> PlacedBy(n, list, verified, k, x)
  {
    if k == 0 {
      UptoEnds(n, list, verified);
    } else {
      var j := k - 1;
      PlacedSomewhere(n, list, verified, j, x);
      if Placed(n, Upto(n, list, verified, k).net, x) && !PlacedAt(n, list, verified, j, x) {
        assert Placed(n, Upto(n, list, verified, j).net, x);
        var i :| 0 <= i < j && PlacedAt(n, list, verified, i, x);
      }
    }
  }

  /** A claim is answered exactly if one at least as new was held or came along, verified and of
      use, up to it. */
  lemma AnsweredWhen(n: Net, list: seq<Gossip>, verified: seq<bool>, i: nat)
    requires i < |list| == |verified|
    ensures Answered(n, list, verified, i) <==>
            || Holds(n, list[i].claim.node, list[i].claim.ts)
            || exists j :: 0 <= j <= i && Usable(n, list[j].claim, verified[j]) &&
                 list[j].claim.node == list[i].claim.node && list[i].claim.ts <= list[j].claim.ts
  {
    var (c, first, flags) := (list[i].claim, list[..i + 1], verified[..i + 1]);
    var n' := TrackAll(n, first, flags).net;
    EntryAfterTrack(n, first, flags, c.node);
    if Answered(n, list, verified, i) && !Holds(n, c.node, c.ts) {
      var j :| 0 <= j < |first| && flags[j] && first[j].claim == n'.peerIPs[c.node];
      assert Usable(n, list[j].claim, verified[j]) && list[j].claim.node == c.node;
    }
    if j :| 0 <= j <= i && Usable(n, list[j].claim, verified[j]) && list[j].claim.node == c.node && c.ts <= list[j].claim.ts {
      assert flags[j] && first[j].claim == list[j].claim;
      assert Holds(n', c.node, list[j].claim.ts);
    }
  }

  // ---------------------------------------------------------------------------
  // The other steps

  /** A finished handshake leaves the newer of the two claims, takes the node from the connecting to
      the connected ones and stops dialing it; the peers forget it exactly if it has moved. */
  lemma ConnectedStores(n: Net, id: NodeID, claim: Claim, x: NodeID, b: NodeID, v: NodeID)
    requires id in n.connecting
    ensures var n' := Connected(n, id, claim);
            && Holds(n', id, claim.ts) && (id in n.peerIPs ==> Holds(n', id, n.peerIPs[id].ts))
            && n'.peerIPs[id] == (if Holds(n, id, claim.ts) then n.peerIPs[id] else claim)
            && (x in n'.connecting <==> x in n.connecting && x != id) && (x in n'.connected <==> x in n.connected || x == id)
            && id !in n'.tracked && (x != id ==> SameAt(n, n', x))
            && n'.known.Keys == n.known.Keys
            && (v in n.validators ==> (Knows(n', b, v) <==> Knows(n, b, v) && !Moved(n, n', v)))
            && n'.manual == n.manual && n'.validators == n.validators && n'.leaving == n.leaving && n'.closing == n.closing
  {
    StoredIs(n, id, claim, x);
    if v in n.validators { ResetForgets(n.(peerIPs := n.peerIPs[id := claim]), id, b, v); }
  }

  /** A handshake of a node that is not connecting is ignored. */
  lemma ConnectedIgnores(n: Net, id: NodeID, claim: Claim)
    requires id !in n.connecting
    ensures Connected(n, id, claim) == n
  {}

  lemma {:induction false} ConfirmedIff(n: Net, acks: seq<(TxID, nat)>, tx: TxID)
    ensures tx in Confirmed(n, acks) <==>
            n.Registered(tx) && tx.node in n.peerIPs && exists i :: 0 <= i < |acks| && acks[i].0 == tx && n.peerIPs[tx.node].ts <= acks[i].1
  {
    if acks != [] { ConfirmedIff(n, acks[..|acks| - 1], tx); }
  }

  /** A peer comes to know of exactly the validators it acknowledges, under their own transaction,
      with a claim at least as new as the one held. */
  lemma KnowsAfterMarked(n: Net, peer: NodeID, acks: seq<(TxID, nat)>, b: NodeID, v: NodeID)
    requires v in n.validators && n.validators[v].node == v
    ensures var n' := MarkTracked(n, peer, acks);
            && n' == n.(known := n'.known) && n'.known.Keys == n.known.Keys
            && (Knows(n', b, v) <==>
                  || Knows(n, b, v)
                  || (b == peer && peer in n.known && v in n.peerIPs &&
                      exists i :: 0 <= i < |acks| && acks[i].0 == n.validators[v] && n.peerIPs[v].ts <= acks[i].1))
  {
    var txs := Confirmed(n, acks);
    ConfirmedIff(n, acks, n.validators[v]);
    assert v in RegisteredNodes(n, txs) <==> n.validators[v] in txs by {
      if n.validators[v] in txs {
        var i :| 0 <= i < |txs| && txs[i] == n.validators[v];
        assert n.Registered(txs[i]);
      }
    }
  }

  /** A dialing attempt drops the node, entry and target, exactly if it is tracked and not wanted. */
  lemma DialDrops(n: Net, id: NodeID, x: NodeID)
    ensures var n' := Dial(n, id);
            && n' == n.(peerIPs := n'.peerIPs, tracked := n'.tracked)
            && (if x == id && id in n.tracked && !n.Wants(id) then x !in n'.peerIPs && x !in n'.tracked else SameAt(n, n', x))
  {}

  /** Once a peer has disconnected it is neither connecting nor connected. If it is wanted it keeps its
      entry, and is dialed where that says if it was connected; if not, entry and target are gone. */
  lemma DisconnectSettles(n: Net, id: NodeID)
    requires At(n, id) && id in n.leaving && n.leaving[id].Saw? && DisconnectEnd(n, id).Some?
    ensures var n' := DisconnectEnd(n, id).value;
            && n'.connecting == n.connecting - {id} && n'.connected == n.connected - {id} && n'.leaving == n.leaving - {id}
            && (!n.Wants(id) ==> id !in n'.peerIPs && id !in n'.tracked)
            && (n.Wants(id) && id in n.connecting ==> SameAt(n, n', id))
            && (n.Wants(id) && id in n.connected ==>
                  id in n'.peerIPs && n'.peerIPs[id] == n.peerIPs[id] && id in n'.tracked && n'.tracked[id] == n.peerIPs[id].ip)
            && n'.known == n.known && n'.manual == n.manual && n'.validators == n.validators && n'.closing == n.closing
  {}

  lemma DisconnectSparesOthers(n: Net, id: NodeID, x: NodeID)
    requires id in n.leaving && n.leaving[id].Saw? && DisconnectEnd(n, id).Some? && x != id
    ensures SameAt(n, DisconnectEnd(n, id).value, x)
  {
    var n0 := n.(leaving := n.leaving - {id});
    HelpersSpareOthers(n0, id, x);
    HelpersSpareOthers(DisconnectedFromConnecting(n0, id), id, x);
  }

  lemma HelpersSpareOthers(n: Net, id: NodeID, x: NodeID)
    requires x != id
    ensures SameAt(n, DisconnectedFromConnecting(n, id), x)
    ensures DisconnectedFromConnected(n, id).Some? ==> SameAt(n, DisconnectedFromConnected(n, id).value, x)
  {}

  lemma DisconnectStarts(n: Net, id: NodeID)
    ensures var n' := DisconnectBegin(n, id);
            && n' == n.(known := n'.known, leaving := n'.leaving) && n'.known == n.known - {id}
            && n'.leaving == n.leaving[id := Stopped]
    ensures var n' := DisconnectRead(n, id);
            n' == n.(leaving := n'.leaving) && n'.leaving == n.leaving[id := Saw(id in n.connecting, id in n.connected)]
  {}

  /** A connection is taken up exactly if the network is open and there is none, and its peer is
      then tracked and knows of nobody. */
  lemma UpgradeTakes(n: Net, id: NodeID, x: NodeID)
    ensures var n' := Upgrade(n, id);
            && n' == n.(connecting := n'.connecting, known := n'.known)
            && (x in n'.connecting <==> x in n.connecting || (x == id && !n.closing && id !in n.connected))
            && (x in n'.known <==> x in n.known || (x == id && !n.closing && id !in n.connecting + n.connected))
            && (x in n'.known ==> n'.known[x] == if x in n.known then n.known[x] else {})
  {}

  /** A node tracked by hand is connected or dialed, and keeps a dial target it had. */
  lemma ManuallyTracks(n: Net, id: NodeID, ip: IPPort, x: NodeID)
    ensures var n' := ManuallyTrack(n, id, ip);
            && n' == n.(manual := n'.manual, tracked := n'.tracked) && (x in n'.manual <==> x in n.manual || x == id)
            && (x in n'.tracked <==> x in n.tracked || (x == id && id !in n.connected))
            && (x in n'.tracked ==> n'.tracked[x] == if x in n.tracked then n.tracked[x] else ip)
  {}

  /** Closing drops exactly the nodes that are dialed. */
  lemma ClosingDrops(n: Net, x: NodeID)
    ensures var n' := StartClose(n);
            && n' == n.(closing := true, peerIPs := n'.peerIPs, tracked := map[])
            && (x in n'.peerIPs <==> x in n.peerIPs && x !in n.tracked)
            && (x in n'.peerIPs ==> n'.peerIPs[x] == n.peerIPs[x])
  {}

  /** A validator keeps the transaction it came with; one that goes is forgotten by every peer. */
  lemma ValidatorsChange(n: Net, tx: TxID, id: NodeID, b: NodeID, v: NodeID)
    ensures var n' := AddValidator(n, tx);
            && n' == n.(validators := n'.validators) && (v in n'.validators <==> v in n.validators || v == tx.node)
            && (v in n'.validators ==> n'.validators[v] == if v in n.validators then n.validators[v] else tx)
    ensures var n' := RemoveValidator(n, id);
            && n' == n.(validators := n.validators - {id}, known := n'.known) && n'.known.Keys == n.known.Keys
            && (Knows(n', b, v) <==> Knows(n, b, v) && v != id)
  {}
}
