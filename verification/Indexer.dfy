/** The flags that keep an index with a gap from being served as complete, across runs of the node
    with different settings (indexer/indexer.go), together with the index they guard. */
module Indexer {
  import opened Common
  import AcceptedIndex

  /** What is persisted: that a run was made, which chains ran unindexed, which were indexed. */
  datatype Flags = Flags(hasRun: bool, incomplete: set<ID>, indexed: set<ID>)

  /** The indexer of one run. */
  datatype Proc = Proc(hasRunBefore: bool, enabled: bool, allow: bool, closed: bool,
                       blocks: set<ID>, vertices: set<ID>, txs: set<ID>)

  datatype VM = Dag | Linear | Unexpected

  /** Where a registration runs into a database, acceptor or route error. */
  datatype Fault = NoFault | ReadingIncomplete | ReadingIndexed | MarkingIncomplete | MarkingIndexed
                 | MakingBlocks | MakingVertices | MakingTxs

  function Start(f: Flags, enabled: bool, allow: bool): (Flags, Proc) {
    (f.(hasRun := true), Proc(f.hasRun, enabled, allow, false, {}, {}, {}))
  }

  function Close(p: Proc): Proc { p.(closed := true) }

  /** `RegisterChain`. */
  function Register(f: Flags, p: Proc, c: ID, primary: bool, vm: VM, fault: Fault): (Flags, Proc) {
    if p.closed || !primary then (f, p)
    else if c in p.blocks || c in p.txs || c in p.vertices then (f, p)
    else if fault.ReadingIncomplete? || fault.ReadingIndexed? then (f, Close(p))
    else if !p.enabled then
      if c in f.indexed && !p.allow then (f, Close(p))
      else if fault.MarkingIncomplete? then (f, Close(p))
      else (f.(incomplete := f.incomplete + {c}), p)
    else if !p.allow && c in f.incomplete && (c in f.indexed || p.hasRunBefore) then (f, Close(p))
    else if fault.MarkingIndexed? then (f, Close(p))
    else (f.(indexed := f.indexed + {c}), MakeIndices(p, c, vm, fault))
  }

  function MakeIndices(p: Proc, c: ID, vm: VM, fault: Fault): Proc {
    if fault.MakingBlocks? then Close(p)
    else
      var p1 := p.(blocks := p.blocks + {c});
      match vm
      case Linear => p1
      case Unexpected => Close(p1)
      case Dag =>
        if fault.MakingVertices? then Close(p1)
        else
          var p2 := p1.(vertices := p1.vertices + {c});
          if fault.MakingTxs? then Close(p2) else p2.(txs := p2.txs + {c})
  }

  // ---------------------------------------------------------------------------
  // The node around it

  /** The flags; the indexer while the node is up; the chains whose registration returned in this
      run; those whose index failed; each chain's persisted index, as container IDs; and how many
      containers its VM has committed. */
  datatype World = World(flags: Flags, proc: Option<Proc>, running: set<ID>, halted: set<ID>,
                         saved: map<ID, seq<ID>>, height: map<ID, nat>)
  {
    function Log(c: ID): seq<ID> { if c in saved then saved[c] else [] }
    function Height(c: ID): nat { if c in height then height[c] else 0 }
  }

  const NewWorld := World(Flags(false, {}, {}), None, {}, {}, map[], map[])

  /** What the environment fixes: the chains of the primary network, and the order in which
      each chain's containers are decided, the same whenever they are delivered. */
  datatype Env = Env(primary: set<ID>, order: map<ID, seq<ID>>)
  {
    function Order(c: ID): seq<ID> { if c in order then order[c] else [] }
    ghost predicate Valid() { forall c :: NoDuplicates(Order(c)) }
  }

  datatype Act =
    | Boot(enabled: bool, allow: bool)
    | RegisterChain(c: ID, vm: VM, fault: Fault)
    | Accept(c: ID, commits: bool)      // the index is told of the next container
    | Commit(c: ID)                     // then the VM commits it
    | CommitClosed(c: ID)               // the VM commits on while the closed indexer shuts the node down
    | CloseIndexer
    | Stop                              // a shutdown or a crash, at any point

  function LogAfter(log: seq<ID>, id: ID): seq<ID> { if id in log then log else log + [id] }

  /** A chain accepts only after its registration returned, and not after its index failed. While
      the indexer is open its VM commits only what its index, if it has one, has taken; closing
      the indexer takes the index out of the way. */
  ghost predicate Enabled(env: Env, w: World, act: Act) {
    match act
    case Boot(_, _) => w.proc.None?
    case RegisterChain(_, _, _) => w.proc.Some?
    case Accept(c, _) => Accepting(env, w, c) && !w.proc.value.closed && c in w.proc.value.blocks
    case Commit(c) =>
      && Accepting(env, w, c) && !w.proc.value.closed
      && (c in w.proc.value.blocks ==> env.Order(c)[w.Height(c)] in w.Log(c))
    case CommitClosed(c) => Accepting(env, w, c) && w.proc.value.closed
    case CloseIndexer => w.proc.Some?
    case Stop => w.proc.Some?
  }

  ghost predicate Accepting(env: Env, w: World, c: ID) {
    w.proc.Some? && c in w.running && c !in w.halted && w.Height(c) < |env.Order(c)|
  }

  ghost function Next(env: Env, w: World, act: Act): World
    requires Enabled(env, w, act)
  {
    match act
    case Boot(enabled, allow) =>
      var (f, p) := Start(w.flags, enabled, allow);
      w.(flags := f, proc := Some(p), running := {}, halted := {})
    case RegisterChain(c, vm, fault) =>
      var (f, p) := Register(w.flags, w.proc.value, c, c in env.primary, vm, fault);
      w.(flags := f, proc := Some(p), running := w.running + {c})
    case Accept(c, commits) =>
      if env.Order(c)[w.Height(c)] in w.Log(c) then w
      else if commits then w.(saved := w.saved[c := LogAfter(w.Log(c), env.Order(c)[w.Height(c)])])
      else w.(halted := w.halted + {c})
    case Commit(c) => w.(height := w.height[c := w.Height(c) + 1])
    case CommitClosed(c) => w.(height := w.height[c := w.Height(c) + 1])
    case CloseIndexer => w.(proc := Some(Close(w.proc.value)))
    case Stop => w.(proc := None)
  }

  ghost predicate Run(env: Env, ws: seq<World>, acts: seq<Act>) {
    && |ws| == |acts| + 1 && ws[0] == NewWorld && env.Valid()
    && forall k :: 0 <= k < |acts| ==> Enabled(env, ws[k], acts[k]) && Next(env, ws[k], acts[k]) == ws[k + 1]
  }

  // ---------------------------------------------------------------------------
  // No gap

  /** The index holds the first containers of the chain, at most one more than the VM. */
  ghost predicate Gapless(env: Env, w: World, c: ID) {
    && w.Height(c) <= |w.Log(c)| <= w.Height(c) + 1
    && w.Log(c) <= env.Order(c)
  }

  /** The step commits the chain's next container while its index lacks it. */
  ghost predicate Slips(env: Env, w: World, act: Act, c: ID) {
    && (act == Commit(c) || act == CommitClosed(c))
    && w.Height(c) < |env.Order(c)| && env.Order(c)[w.Height(c)] !in w.Log(c)
  }

  /** The next container extends an index that lacks it, and is the last of one that has it. */
  lemma AcceptKeepsGapless(env: Env, w: World, c: ID, commits: bool)
    requires env.Valid() && Enabled(env, w, Accept(c, commits)) && Gapless(env, w, c)
    ensures Gapless(env, Next(env, w, Accept(c, commits)), c)
  {
    var (log, order, h) := (w.Log(c), env.Order(c), w.Height(c));
    if |log| == h + 1 { assert log[h] == order[h]; }
  }

  lemma CommitKeepsGapless(env: Env, w: World, act: Act, c: ID)
    requires env.Valid() && Enabled(env, w, act) && (act == Commit(c) || act == CommitClosed(c))
    requires Gapless(env, w, c) && !Slips(env, w, act, c)
    ensures Gapless(env, Next(env, w, act), c)
  {
    var (log, order, h) := (w.Log(c), env.Order(c), w.Height(c));
    var i :| 0 <= i < |log| && log[i] == order[h];
    assert log[i] == order[i];
    assert i == h;
  }

  lemma StepKeepsGapless(env: Env, w: World, act: Act, c: ID)
    requires env.Valid() && Enabled(env, w, act) && Gapless(env, w, c) && !Slips(env, w, act, c)
    ensures Gapless(env, Next(env, w, act), c)
  {
    if act.Accept? && act.c == c {
      AcceptKeepsGapless(env, w, c, act.commits);
    } else if act == Commit(c) || act == CommitClosed(c) {
      CommitKeepsGapless(env, w, act, c);
    }
  }

  /** A container the VM has committed and the index lacks. */
  ghost predicate Lacks(env: Env, w: World, c: ID, h: nat) {
    h < w.Height(c) && h < |env.Order(c)| && env.Order(c)[h] !in w.Log(c)
  }

  /** It is never made good: the index is only told of the containers to come. */
  lemma StepKeepsLacking(env: Env, w: World, act: Act, c: ID, h: nat)
    requires env.Valid() && Enabled(env, w, act) && Lacks(env, w, c, h)
    ensures Lacks(env, Next(env, w, act), c, h)
  {
    if act.Accept? && act.c == c {
      assert NoDuplicates(env.Order(c));
      assert env.Order(c)[w.Height(c)] != env.Order(c)[h];
    }
  }

  lemma LackingIsAGap(env: Env, w: World, c: ID, h: nat)
    requires Lacks(env, w, c, h)
    ensures !Gapless(env, w, c)
  {
    var log := w.Log(c);
    if |log| > h { assert log[h] in log; }
  }

  /** In every run, whatever the settings and faults: a chain's index has no gap exactly if its VM
      never committed a container that its index lacked. */
  lemma {:induction false} GaplessIffNothingSlipped(env: Env, ws: seq<World>, acts: seq<Act>, k: nat, c: ID)
    requires Run(env, ws, acts) && k < |ws|
    ensures Gapless(env, ws[k], c) <==> forall j :: 0 <= j < k ==> !Slips(env, ws[j], acts[j], c)
  {
    if forall j :: 0 <= j < k ==> !Slips(env, ws[j], acts[j], c) {
      if k > 0 {
        GaplessIffNothingSlipped(env, ws, acts, k - 1, c);
        assert Next(env, ws[k - 1], acts[k - 1]) == ws[k - 1 + 1];
        StepKeepsGapless(env, ws[k - 1], acts[k - 1], c);
      }
    } else {
      var j :| 0 <= j < k && Slips(env, ws[j], acts[j], c);
      SlippedStaysLacking(env, ws, acts, j, k, c);
      LackingIsAGap(env, ws[k], c, ws[j].Height(c));
    }
  }

  lemma {:induction false} SlippedStaysLacking(env: Env, ws: seq<World>, acts: seq<Act>, j: nat, k: nat, c: ID)
    requires Run(env, ws, acts) && j < k < |ws| && Slips(env, ws[j], acts[j], c)
    ensures Lacks(env, ws[k], c, ws[j].Height(c))
    decreases k
  {
    var i := k - 1;
    assert Next(env, ws[i], acts[i]) == ws[i + 1];
    if j < i {
      SlippedStaysLacking(env, ws, acts, j, i, c);
      StepKeepsLacking(env, ws[i], acts[i], c, ws[j].Height(c));
    }
  }

  // ---------------------------------------------------------------------------
  // What the flags know

  /** In a run with indexing only chains marked in an earlier run are marked; a chain that runs
      unindexed is marked; and where no gap is allowed no indexed chain is. */
  ghost predicate ProcInv(env: Env, w: World, p: Proc, c: ID) {
    && (c in w.flags.incomplete && p.enabled ==> p.hasRunBefore)
    && (c in p.blocks || c in p.vertices || c in p.txs ==> p.enabled && c in env.primary)
    && (!p.closed ==>
          && (c in p.vertices || c in p.txs ==> c in p.blocks)
          && (c in env.primary && c in w.running && c !in p.blocks ==> c in w.flags.incomplete)
          && (!p.allow && c in p.blocks ==> c !in w.flags.incomplete))
  }

  ghost predicate Inv(env: Env, w: World, c: ID) {
    && (c in w.flags.incomplete ==> w.flags.hasRun)
    && (w.proc.Some? ==> ProcInv(env, w, w.proc.value, c) && w.flags.hasRun)
  }

  lemma RegisterKeepsInv(env: Env, w: World, c: ID, vm: VM, fault: Fault, x: ID)
    requires w.proc.Some? && Inv(env, w, x)
    ensures Inv(env, Next(env, w, RegisterChain(c, vm, fault)), x)
  {}

  lemma StepKeepsInv(env: Env, w: World, act: Act, x: ID)
    requires Enabled(env, w, act) && Inv(env, w, x)
    ensures Inv(env, Next(env, w, act), x)
  {
    match act
    case RegisterChain(c, vm, fault) => RegisterKeepsInv(env, w, c, vm, fault, x);
    case _ =>
  }

  lemma {:induction false} RunKeepsInv(env: Env, ws: seq<World>, acts: seq<Act>, k: nat, c: ID)
    requires Run(env, ws, acts) && k < |ws|
    ensures Inv(env, ws[k], c)
  {
    if k > 0 {
      var j := k - 1;
      RunKeepsInv(env, ws, acts, j, c);
      assert Next(env, ws[j], acts[j]) == ws[j + 1];
      StepKeepsInv(env, ws[j], acts[j], c);
    }
  }

  /** A mark stays. */
  lemma {:induction false} MarksStay(env: Env, ws: seq<World>, acts: seq<Act>, j: nat, k: nat, c: ID)
    requires Run(env, ws, acts) && j <= k < |ws| && c in ws[j].flags.incomplete
    ensures c in ws[k].flags.incomplete
  {
    if j < k {
      MarksStay(env, ws, acts, j, k - 1, c);
      assert Next(env, ws[k - 1], acts[k - 1]) == ws[k - 1 + 1];
    }
  }

  /** A chain that is not marked never slipped while the indexer was open. */
  lemma UnmarkedSlipsOnlyClosed(env: Env, ws: seq<World>, acts: seq<Act>, j: nat, k: nat, c: ID)
    requires Run(env, ws, acts) && j < k < |ws| && c in env.primary && c !in ws[k].flags.incomplete
    requires Slips(env, ws[j], acts[j], c)
    ensures acts[j] == CommitClosed(c)
  {
    RunKeepsInv(env, ws, acts, j, c);
    assert Enabled(env, ws[j], acts[j]);
    if c in ws[j].flags.incomplete { MarksStay(env, ws, acts, j, k, c); }
  }

  /** Over any runs with any settings and faults: a chain indexed while incomplete indices are
      disallowed is indexed from its first container on without a gap, exactly if in no run its
      VM went on, after the indexer had closed, to commit a container its index lacked. */
  lemma ServedIndexHasNoGap(env: Env, ws: seq<World>, acts: seq<Act>, k: nat, c: ID)
    requires Run(env, ws, acts) && k < |ws| && ws[k].proc.Some?
    requires !ws[k].proc.value.closed && !ws[k].proc.value.allow && c in ws[k].proc.value.blocks
    ensures Gapless(env, ws[k], c) <==>
              forall j :: 0 <= j < k && acts[j] == CommitClosed(c) ==> !Slips(env, ws[j], acts[j], c)
  {
    RunKeepsInv(env, ws, acts, k, c);
    GaplessIffNothingSlipped(env, ws, acts, k, c);
    forall j | 0 <= j < k && Slips(env, ws[j], acts[j], c) ensures acts[j] == CommitClosed(c) {
      UnmarkedSlipsOnlyClosed(env, ws, acts, j, k, c);
    }
  }

  // A run in which it happens.

  lemma Extend(env: Env, ws: seq<World>, acts: seq<Act>, act: Act) returns (ws': seq<World>, acts': seq<Act>)
    requires Run(env, ws, acts) && Enabled(env, ws[|acts|], act)
    ensures |ws'| == |ws| + 1 && ws'[|ws|] == Next(env, ws[|acts|], act) && acts' == acts + [act] && Run(env, ws', acts')
  {
    ws', acts' := ws + [Next(env, ws[|acts|], act)], acts + [act];
    forall k | 0 <= k < |acts'| ensures Enabled(env, ws'[k], acts'[k]) && Next(env, ws'[k], acts'[k]) == ws'[k + 1] {
      if k < |acts| { assert ws'[k] == ws[k] && ws'[k + 1] == ws[k + 1] && acts'[k] == acts[k]; }
    }
  }

  const OneChain := Env({1, 2}, map[1 := [7]])

  /** Another chain's index cannot be made, which closes the indexer; the first chain commits its
      container meanwhile. */
  lemma CommitsWhileClosed() returns (ws: seq<World>, acts: seq<Act>)
    ensures Run(OneChain, ws, acts)
    ensures ws[|acts|] == World(Flags(true, {}, {1, 2}), None, {1, 2}, {}, map[], map[1 := 1])
  {
    assert OneChain.Order(1) == [7] && forall c :: c != 1 ==> OneChain.Order(c) == [];
    ws, acts := [NewWorld], [];
    ws, acts := Extend(OneChain, ws, acts, Boot(true, false));
    ws, acts := Extend(OneChain, ws, acts, RegisterChain(1, Linear, NoFault));
    ws, acts := Extend(OneChain, ws, acts, RegisterChain(2, Linear, MakingBlocks));
    assert ws[|acts|].running == {1, 2} && ws[|acts|].proc.value.closed;
    ws, acts := Extend(OneChain, ws, acts, CommitClosed(1));
    ws, acts := Extend(OneChain, ws, acts, Stop);
    assert ws[|acts|].flags.indexed == {1, 2} && ws[|acts|].height == map[1 := 1];
  }

  /** The next run serves the chain's index, with incomplete indices disallowed and a gap. */
  lemma GapIsServed() returns (ws: seq<World>, acts: seq<Act>)
    ensures Run(OneChain, ws, acts) && ws[|acts|].proc.Some?
    ensures var p := ws[|acts|].proc.value; !p.closed && !p.allow && 1 in p.blocks && !Gapless(OneChain, ws[|acts|], 1)
  {
    ws, acts := CommitsWhileClosed();
    ws, acts := Extend(OneChain, ws, acts, Boot(true, false));
    ws, acts := Extend(OneChain, ws, acts, RegisterChain(1, Linear, NoFault));
  }

  // ---------------------------------------------------------------------------
  // The mark is exact

  /** In the `j`th step an open indexer with indexing off let the chain run. */
  ghost predicate Missed(env: Env, ws: seq<World>, acts: seq<Act>, j: nat, c: ID) {
    && j < |acts| && j + 1 < |ws|
    && acts[j].RegisterChain? && acts[j].c == c && c in env.primary
    && ws[j].proc.Some? && !ws[j].proc.value.enabled
    && ws[j + 1].proc.Some? && !ws[j + 1].proc.value.closed
  }

  lemma MarkStep(env: Env, w: World, act: Act, c: ID)
    requires Enabled(env, w, act) && Inv(env, w, c)
    ensures var w' := Next(env, w, act);
            c in w'.flags.incomplete <==>
              || c in w.flags.incomplete
              || (&& act.RegisterChain? && act.c == c && c in env.primary && !w.proc.value.enabled
                  && !w'.proc.value.closed)
  {}

  /** A chain is marked exactly if it was let run unindexed. */
  lemma {:induction false} MarkedIffMissed(env: Env, ws: seq<World>, acts: seq<Act>, k: nat, c: ID)
    requires Run(env, ws, acts) && k < |ws|
    ensures c in ws[k].flags.incomplete <==> exists j :: 0 <= j < k && Missed(env, ws, acts, j, c)
  {
    if k > 0 {
      var j := k - 1;
      MarkedIffMissed(env, ws, acts, j, c);
      RunKeepsInv(env, ws, acts, j, c);
      assert Next(env, ws[j], acts[j]) == ws[j + 1];
      MarkStep(env, ws[j], acts[j], c);
      if c in ws[k].flags.incomplete && c !in ws[j].flags.incomplete { assert Missed(env, ws, acts, j, c); }
    }
  }

  /** Registering with indexing on, gaps disallowed and nothing failing shuts the node down
      exactly if the chain was let run unindexed before. */
  lemma RefusedIffMissed(env: Env, ws: seq<World>, acts: seq<Act>, k: nat, c: ID, vm: VM)
    requires Run(env, ws, acts) && k < |ws| && ws[k].proc.Some? && c in env.primary && vm != Unexpected
    requires var p := ws[k].proc.value; p.enabled && !p.allow && !p.closed && c !in p.blocks
    ensures Register(ws[k].flags, ws[k].proc.value, c, true, vm, NoFault).1.closed <==>
              exists j :: 0 <= j < k && Missed(env, ws, acts, j, c)
  {
    RunKeepsInv(env, ws, acts, k, c);
    MarkedIffMissed(env, ws, acts, k, c);
  }

  // ---------------------------------------------------------------------------
  // An index is not spoiled

  /** In the `j`th step an open indexer with indexing on took the chain: nothing failed before it was
      marked as indexed, and it was not refused for being incomplete. */
  ghost predicate Took(env: Env, ws: seq<World>, acts: seq<Act>, j: nat, c: ID) {
    && j < |acts| && j < |ws| && acts[j].RegisterChain? && acts[j].c == c && c in env.primary
    && ws[j].proc.Some?
    && var (p, fault) := (ws[j].proc.value, acts[j].fault);
    && p.enabled && !p.closed && c !in p.blocks
    && (p.allow || c !in ws[j].flags.incomplete)
    && !fault.ReadingIncomplete? && !fault.ReadingIndexed? && !fault.MarkingIndexed?
  }

  lemma TakeStep(env: Env, ws: seq<World>, acts: seq<Act>, j: nat, c: ID)
    requires Run(env, ws, acts) && j < |acts| && Inv(env, ws[j], c)
    ensures c in ws[j + 1].flags.indexed <==> c in ws[j].flags.indexed || Took(env, ws, acts, j, c)
  {
    assert Next(env, ws[j], acts[j]) == ws[j + 1];
  }

  /** A chain is recorded as indexed exactly if it was taken. */
  lemma {:induction false} IndexedIffTook(env: Env, ws: seq<World>, acts: seq<Act>, k: nat, c: ID)
    requires Run(env, ws, acts) && k < |ws|
    ensures c in ws[k].flags.indexed <==> exists j :: 0 <= j < k && Took(env, ws, acts, j, c)
  {
    if k > 0 {
      var j := k - 1;
      IndexedIffTook(env, ws, acts, j, c);
      RunKeepsInv(env, ws, acts, j, c);
      TakeStep(env, ws, acts, j, c);
      if c in ws[k].flags.indexed && c !in ws[j].flags.indexed { assert Took(env, ws, acts, j, c); }
    }
  }

  /** Registering with indexing off, gaps disallowed and nothing failing shuts the node down
      exactly if the chain was ever taken, and then writes nothing; otherwise it marks the chain. */
  lemma ShutDownIffTook(env: Env, ws: seq<World>, acts: seq<Act>, k: nat, c: ID, vm: VM)
    requires Run(env, ws, acts) && k < |ws| && ws[k].proc.Some? && c in env.primary
    requires var p := ws[k].proc.value; !p.enabled && !p.allow && !p.closed
    ensures var (f, p) := Register(ws[k].flags, ws[k].proc.value, c, true, vm, NoFault);
            && (p.closed <==> exists j :: 0 <= j < k && Took(env, ws, acts, j, c))
            && f == if p.closed then ws[k].flags else ws[k].flags.(incomplete := ws[k].flags.incomplete + {c})
  {
    RunKeepsInv(env, ws, acts, k, c);
    IndexedIffTook(env, ws, acts, k, c);
  }

  /** So while gaps are disallowed an index without a mark gets none. */
  lemma {:induction false} IndexStaysUnmarked(env: Env, ws: seq<World>, acts: seq<Act>, i: nat, k: nat, c: ID)
    requires Run(env, ws, acts) && i <= k < |ws|
    requires c in ws[i].flags.indexed && c !in ws[i].flags.incomplete
    requires forall j :: i <= j < k && ws[j].proc.Some? ==> !ws[j].proc.value.allow
    ensures c in ws[k].flags.indexed && c !in ws[k].flags.incomplete
  {
    if i < k {
      var j := k - 1;
      IndexStaysUnmarked(env, ws, acts, i, j, c);
      assert Next(env, ws[j], acts[j]) == ws[j + 1];
    }
  }

  // ---------------------------------------------------------------------------
  // What a run is told of earlier ones

  /** A run is on record from its start on. */
  lemma {:induction false} HasRunIff(env: Env, ws: seq<World>, acts: seq<Act>, k: nat)
    requires Run(env, ws, acts) && k < |ws|
    ensures ws[k].flags.hasRun <==> exists j :: 0 <= j < k && acts[j].Boot?
  {
    if k > 0 {
      HasRunIff(env, ws, acts, k - 1);
      assert Next(env, ws[k - 1], acts[k - 1]) == ws[k - 1 + 1];
    }
  }

  lemma SettingsStay(env: Env, w: World, act: Act)
    requires Enabled(env, w, act) && w.proc.Some? && !act.Boot? && !act.Stop?
    ensures var w' := Next(env, w, act);
            && w'.proc.Some? && w'.proc.value.enabled == w.proc.value.enabled && w'.proc.value.allow == w.proc.value.allow
            && w'.proc.value.hasRunBefore == w.proc.value.hasRunBefore
  {}

  /** The indexer of a run knows whether there was an earlier one, and keeps its settings. */
  lemma {:induction false} BootedWith(env: Env, ws: seq<World>, acts: seq<Act>, b: nat, k: nat)
    requires Run(env, ws, acts) && b < k < |ws| && acts[b].Boot?
    requires forall j :: b < j < k ==> !acts[j].Boot? && !acts[j].Stop?
    ensures ws[k].proc.Some?
    ensures var p := ws[k].proc.value;
            && p.enabled == acts[b].enabled && p.allow == acts[b].allow
            && (p.hasRunBefore <==> exists j :: 0 <= j < b && acts[j].Boot?)
  {
    assert Next(env, ws[k - 1], acts[k - 1]) == ws[k - 1 + 1];
    if k - 1 == b {
      HasRunIff(env, ws, acts, b);
    } else {
      BootedWith(env, ws, acts, b, k - 1);
      SettingsStay(env, ws[k - 1], acts[k - 1]);
    }
  }

  /** An open indexer's registration of a new chain of the primary network closes the indexer exactly
      if something fails on its way or a gap would be served or made. */
  lemma ClosesIff(f: Flags, p: Proc, c: ID, vm: VM, fault: Fault)
    requires !p.closed && c !in p.blocks && c !in p.vertices && c !in p.txs
    ensures Register(f, p, c, true, vm, fault).1.closed <==>
            || fault.ReadingIncomplete? || fault.ReadingIndexed?
            || (!p.enabled && (fault.MarkingIncomplete? || (c in f.indexed && !p.allow)))
            || (p.enabled && (fault.MarkingIndexed? || fault.MakingBlocks? || vm.Unexpected?))
            || (p.enabled && vm.Dag? && (fault.MakingVertices? || fault.MakingTxs?))
            || (p.enabled && !p.allow && c in f.incomplete && (c in f.indexed || p.hasRunBefore))
  {}

  /** If it does not, the chain has the indices of its kind, or is marked. */
  lemma OpenAfter(f: Flags, p: Proc, c: ID, vm: VM, fault: Fault)
    requires !p.closed && c !in p.blocks && c !in p.vertices && c !in p.txs
    requires !Register(f, p, c, true, vm, fault).1.closed
    ensures var (f', p') := Register(f, p, c, true, vm, fault);
            && (c in p'.blocks <==> p.enabled) && (c in p'.vertices <==> p.enabled && vm.Dag?)
            && (c in p'.txs <==> p.enabled && vm.Dag?)
            && (c in f'.indexed <==> c in f.indexed || p.enabled)
            && (c in f'.incomplete <==> c in f.incomplete || !p.enabled)
    ensures var (f', p') := Register(f, p, c, true, vm, fault);
            forall x :: x != c ==>
              && (x in p'.blocks <==> x in p.blocks) && (x in p'.vertices <==> x in p.vertices)
              && (x in p'.txs <==> x in p.txs)
              && (x in f'.indexed <==> x in f.indexed) && (x in f'.incomplete <==> x in f.incomplete)
  {}

  /** A closed indexer, a chain outside the primary network and a chain with an index: nothing happens. */
  lemma RegisterIgnores(f: Flags, p: Proc, c: ID, primary: bool, vm: VM, fault: Fault)
    requires p.closed || !primary || c in p.blocks || c in p.vertices || c in p.txs
    ensures Register(f, p, c, primary, vm, fault) == (f, p)
  {}

  // ---------------------------------------------------------------------------
  // The index that is guarded, and the object

  ghost function IDs(log: seq<AcceptedIndex.Container>): seq<ID> { seq(|log|, i requires 0 <= i < |log| => log[i].id) }

  /** On container IDs the index's own `Accept` is the one used here. */
  lemma IndexAccepts(log: seq<AcceptedIndex.Container>, c: AcceptedIndex.Container)
    ensures IDs(AcceptedIndex.LogAfter(log, c)) == LogAfter(IDs(log), c.id)
  {
    if exists i :: 0 <= i < |log| && log[i].id == c.id {
      var i :| 0 <= i < |log| && log[i].id == c.id;
      assert IDs(log)[i] == c.id;
    } else {
      assert forall i :: 0 <= i < |log| ==> IDs(log)[i] == log[i].id;
      assert IDs(log + [c]) == IDs(log) + [c.id];
    }
  }

  class IndexerObject {
    // persisted
    var hasRun: bool
    var incomplete: set<ID>
    var indexed: set<ID>
    // of this run
    const hasRunBefore: bool
    const enabled: bool
    const allow: bool
    var closed: bool
    var blocks: set<ID>
    var vertices: set<ID>
    var txs: set<ID>

    ghost function State(): (Flags, Proc)
      reads this
    {
      (Flags(hasRun, incomplete, indexed), Proc(hasRunBefore, enabled, allow, closed, blocks, vertices, txs))
    }

    constructor (f: Flags, indexingEnabled: bool, allowIncomplete: bool)
      ensures State() == Start(f, indexingEnabled, allowIncomplete)
    {
      hasRunBefore := f.hasRun;
      enabled, allow := indexingEnabled, allowIncomplete;
      hasRun, incomplete, indexed := true, f.incomplete, f.indexed;
      closed, blocks, vertices, txs := false, {}, {}, {};
    }

    method CloseAll()
      modifies this`closed
      ensures State() == (old(State()).0, Close(old(State()).1))
    {
      closed := true;
    }

    method RegisterChain(c: ID, primary: bool, vm: VM, fault: Fault)
      modifies this
      ensures State() == Register(old(State()).0, old(State()).1, c, primary, vm, fault)
    {
      if closed || !primary { return; }
      if c in blocks || c in txs || c in vertices { return; }
      if fault.ReadingIncomplete? { CloseAll(); return; }
      var isIncomplete := c in incomplete;
      if fault.ReadingIndexed? { CloseAll(); return; }
      var previouslyIndexed := c in indexed;
      if !enabled {
        RunUnindexed(c, previouslyIndexed, fault);
        return;
      }
      if !allow && isIncomplete && (previouslyIndexed || hasRunBefore) { CloseAll(); return; }
      if fault.MarkingIndexed? { CloseAll(); return; }
      indexed := indexed + {c};
      CreateIndices(c, vm, fault);
    }

    /** With indexing off the chain is marked, unless that would spoil an index. */
    method RunUnindexed(c: ID, previouslyIndexed: bool, fault: Fault)
      modifies this`incomplete, this`closed
      ensures var (f, p) := old(State());
              State() == if (previouslyIndexed && !allow) || fault.MarkingIncomplete? then (f, Close(p))
                         else (f.(incomplete := f.incomplete + {c}), p)
    {
      if previouslyIndexed && !allow { CloseAll(); return; }
      if fault.MarkingIncomplete? { CloseAll(); return; }
      incomplete := incomplete + {c};
    }

    method CreateIndices(c: ID, vm: VM, fault: Fault)
      modifies this`blocks, this`vertices, this`txs, this`closed
      ensures State() == (old(State()).0, MakeIndices(old(State()).1, c, vm, fault))
    {
      if fault.MakingBlocks? { CloseAll(); return; }
      blocks := blocks + {c};
      match vm
      case Linear =>
      case Unexpected => CloseAll();
      case Dag =>
        if fault.MakingVertices? { CloseAll(); return; }
        vertices := vertices + {c};
        if fault.MakingTxs? { CloseAll(); return; }
        txs := txs + {c};
    }
  }
}
