/** A run in which a node's closing drops an address that a peer is taken to know of
    (network/network.go). */
module GossipClosing {
  import opened Common
  import opened PeerNetwork
  import opened GossipNetwork

  const SomeClaim := Claim(2, 7, 5, 0)
  const SomeTx := TxID(2, 0)

  lemma Extend(ws: seq<World>, acts: seq<Act>, act: Act) returns (ws': seq<World>, acts': seq<Act>)
    requires Runs(ws, acts) && Enabled(ws[|acts|], act)
    ensures |ws'| == |ws| + 1 && ws'[..|ws|] == ws && ws'[|ws|] == Next(ws[|acts|], act)
    ensures acts' == acts + [act] && Runs(ws', acts')
  {
    ws', acts' := ws + [Next(ws[|acts|], act)], acts + [act];
    forall k | 0 <= k < |acts'| ensures Enabled(ws'[k], acts'[k]) && Next(ws'[k], acts'[k]) == ws'[k + 1] {
      if k < |acts| { assert ws'[k] == ws[k] && ws'[k + 1] == ws[k + 1] && acts'[k] == acts[k]; }
    }
  }

  lemma ExtendLocal(ws: seq<World>, acts: seq<Act>, a: NodeID, e: Event, n: Net) returns (ws': seq<World>, acts': seq<Act>)
    requires Runs(ws, acts) && a in ws[|acts|].nets && !e.ETrack? && !e.EMarkTracked?
    requires Allowed(ws[|acts|].nets[a], e) && Step(ws[|acts|].nets[a], e) == Some(n)
    ensures |ws'| == |ws| + 1 && acts' == acts + [Local(a, e)] && Runs(ws', acts') && ws'[|acts|] == ws[|acts|]
    ensures ws'[|acts'|] == ws[|acts|].(nets := ws[|acts|].nets[a := n])
  {
    NetsKeepInv(ws, acts, |acts|);
    ws', acts' := Extend(ws, acts, Local(a, e));
    assert ws'[|acts|] == ws'[..|ws|][|acts|];
  }

  /** Node 1 is connected to validator 2. */
  lemma OneConnected() returns (ws: seq<World>, acts: seq<Act>)
    ensures Runs(ws, acts) && ws[|acts|].nets.Keys == {0, 1} && ws[|acts|].nets[0] == NewNet
    ensures PeersRead(ws[|acts|].nets[1], 2) == Some(Some(SomeClaim))
  {
    ws, acts := [World(map[0 := NewNet, 1 := NewNet], map[0 := {}, 1 := {}], {})], [];
    var n := Upgrade(NewNet, 2);
    ws, acts := ExtendLocal(ws, acts, 1, EUpgrade(2), n);
    ws, acts := ExtendLocal(ws, acts, 1, EConnected(2, SomeClaim), Connected(n, 2, SomeClaim));
  }

  /** And gossips its claim to node 0. */
  lemma GossipSent() returns (ws: seq<World>, acts: seq<Act>)
    ensures Runs(ws, acts) && ws[|acts|].nets.Keys == {0, 1} && ws[|acts|].nets[0] == NewNet
    ensures PeerList(1, 0, [Gossip(SomeClaim, SomeTx)]) in ws[|acts|].sent
  {
    ws, acts := OneConnected();
    NetsKeepInv(ws, acts, |acts|);
    ws, acts := Extend(ws, acts, Read(1, SomeTx));
    ws, acts := Extend(ws, acts, Send(1, 0, [Gossip(SomeClaim, SomeTx)]));
  }

  /** What node 0 makes of it, once 2 is its validator and 1 its peer. */
  lemma GossipTaken(n: Net)
    requires n == Upgrade(AddValidator(NewNet, SomeTx), 1)
    ensures var (n', acks) := Track(n, 1, [Gossip(SomeClaim, SomeTx)], [true]);
            acks == map[SomeTx := 5] && Knows(n', 1, 2) && 2 in n'.tracked && !n'.closing
  {
    var (list, verified) := ([Gossip(SomeClaim, SomeTx)], [true]);
    assert list[..0] == [] && verified[..0] == [];
    var t := TrackAll(n, list, verified);
    assert t == TrackOne(TrackAll(n, [], []), list[0], true);
    assert TrackAll(n, [], []) == Tracking(n, map[], []);
    assert t.upToDate == [SomeTx] && t.net.Registered(t.upToDate[0]);
  }

  /** Node 0 has the message, the validator and the peer. */
  lemma PeerReady() returns (ws: seq<World>, acts: seq<Act>)
    ensures Runs(ws, acts) && ws[|acts|].nets.Keys == {0, 1}
    ensures ws[|acts|].nets[0] == Upgrade(AddValidator(NewNet, SomeTx), 1)
    ensures PeerList(1, 0, [Gossip(SomeClaim, SomeTx)]) in ws[|acts|].sent
  {
    ws, acts := GossipSent();
    var n := AddValidator(NewNet, SomeTx);
    ws, acts := ExtendLocal(ws, acts, 0, EAddValidator(SomeTx), n);
    ws, acts := ExtendLocal(ws, acts, 0, EUpgrade(1), Upgrade(n, 1));
  }

  lemma GossipReceived() returns (ws: seq<World>, acts: seq<Act>)
    ensures Runs(ws, acts) && ws[|acts|].nets.Keys == {0, 1}
    ensures var n := ws[|acts|].nets[0]; Knows(n, 1, 2) && 2 in n.tracked && !n.closing
  {
    ws, acts := PeerReady();
    GossipTaken(ws[|acts|].nets[0]);
    NetsKeepInv(ws, acts, |acts|);
    ws, acts := Extend(ws, acts, Receive(0, PeerList(1, 0, [Gossip(SomeClaim, SomeTx)]), [true], [(SomeTx, 5)]));
  }

  /** A run that ends in A's closing, with B taken to know of an address A no longer has: the
      exception is reached. */
  lemma ClosingCanForget() returns (ws: seq<World>, acts: seq<Act>)
    ensures Runs(ws, acts) && 0 in ws[|acts|].nets && 1 in ws[|acts|].nets
    ensures Knows(ws[|acts|].nets[0], 1, 2) && !Heard(ws, |acts|, 0, 1, 2)
  {
    ws, acts := GossipReceived();
    var k := |acts|;
    ws, acts := ExtendLocal(ws, acts, 0, EStartClose, StartClose(ws[k].nets[0]));
    assert Drops(ws, acts, k, 0, 2);
    ClosingForgetsTheDropped(ws, acts, k, 0, 1, 2);
  }
}
