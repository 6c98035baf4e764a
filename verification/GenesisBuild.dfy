/** The money in a genesis: what `FromConfig` puts on the A-chain, what it leaves unstaked and what
    it stakes adds up to the initial supply (genesis/genesis.go, genesis/config.go). */
module GenesisBuild {
  import opened Common
  import opened GenesisSplit

  datatype Config = Config(allocations: seq<Allocation>, stakedFunds: seq<ID>, stakers: nat)

  datatype Holder = Holder(address: ID, amount: uint64)
  datatype UTXO = UTXO(locktime: uint64, amount: uint64, address: ID, message: ID)

  /** The holders on the A-chain, the unstaked outputs, and each validator's staked outputs. */
  datatype Genesis = Genesis(holders: seq<Holder>, unstaked: seq<UTXO>, staked: seq<seq<UTXO>>, amount: uint64)

  /** Why `BuildGenesis` of the omega chain refuses its arguments. */
  datatype Fault = UTXOHasNoValue | StakeOverflow | ValidatorHasNoWeight

  datatype Outcome = Built(genesis: Genesis) | SupplyOverflow | Panic | Refused(fault: Fault)

  // ---------------------------------------------------------------------------
  // The supply

  ghost function InitialTotal(allocs: seq<Allocation>): nat {
    if allocs == [] then 0 else InitialTotal(allocs[..|allocs| - 1]) + allocs[|allocs| - 1].initial
  }

  /** Everything the allocations promise. */
  ghost function Supply(allocs: seq<Allocation>): nat { InitialTotal(allocs) + |Coins(allocs)| }

  lemma InitialSnoc(allocs: seq<Allocation>, a: Allocation)
    ensures InitialTotal(allocs + [a]) == InitialTotal(allocs) + a.initial
  {
    assert (allocs + [a])[..|allocs|] == allocs;
  }

  /** A prefix promises no more. */
  lemma {:induction false} SupplyPrefix(allocs: seq<Allocation>, i: nat)
    requires i <= |allocs|
    ensures InitialTotal(allocs[..i]) <= InitialTotal(allocs) && Supply(allocs[..i]) <= Supply(allocs)
    decreases |allocs| - i
  {
    CoinsPrefix(allocs, i);
    if i == |allocs| {
      assert allocs[..i] == allocs;
    } else {
      SupplyPrefix(allocs, i + 1);
      InitialSnoc(allocs[..i], allocs[i]);
      assert allocs[..i + 1] == allocs[..i] + [allocs[i]];
    }
  }

  function Add64(a: uint64, b: uint64): (r: Option<uint64>)
    ensures r.Some? <==> a + b < TWO_64
  {
    if a > TWO_64 - 1 - b then None else Some(a + b)
  }

  /** The checked sum of one schedule onto `start`. */
  method AddUnlocks(start: uint64, a: Allocation) returns (r: Option<uint64>)
    ensures r == if start + |UnlockCoins(a, a.unlocks)| < TWO_64 then Some(start + |UnlockCoins(a, a.unlocks)|) else None
  {
    var supply := start;
    for j := 0 to |a.unlocks|
      invariant supply == start + |UnlockCoins(a, a.unlocks[..j])|
    {
      UnlockPrefix(a, j + 1);
      UnlockSnoc(a, a.unlocks[..j], a.unlocks[j]);
      assert a.unlocks[..j + 1] == a.unlocks[..j] + [a.unlocks[j]];
      var next := Add64(supply, a.unlocks[j].amount);
      if next.None? { return None; }
      supply := next.value;
    }
    assert a.unlocks[..|a.unlocks|] == a.unlocks;
    return Some(supply);
  }

  /** `InitialSupply` fails exactly when the sum does not fit in 64 bits. */
  method InitialSupply(allocs: seq<Allocation>) returns (r: Option<uint64>)
    ensures r == if Supply(allocs) < TWO_64 then Some(Supply(allocs)) else None
  {
    var supply: uint64 := 0;
    for i := 0 to |allocs|
      invariant supply == Supply(allocs[..i])
    {
      SupplyPrefix(allocs, i + 1);
      InitialSnoc(allocs[..i], allocs[i]);
      CoinsSnoc(allocs[..i], allocs[i]);
      assert allocs[..i + 1] == allocs[..i] + [allocs[i]];
      var first := Add64(supply, allocs[i].initial);
      if first.None? { return None; }
      var next := AddUnlocks(first.value, allocs[i]);
      if next.None? { return None; }
      supply := next.value;
    }
    assert allocs[..|allocs|] == allocs;
    return Some(supply);
  }

  // ---------------------------------------------------------------------------
  // The A-chain

  predicate Less(a: Allocation, b: Allocation) {
    a.initial < b.initial || (a.initial == b.initial && a.addr < b.addr)
  }

  ghost predicate Ordered(s: seq<Allocation>) {
    forall i, j :: 0 <= i < j < |s| ==> !Less(s[j], s[i])
  }

  /** Into its place in an ordered sequence. */
  function Insert(s: seq<Allocation>, a: Allocation): seq<Allocation> {
    if s == [] || !Less(a, s[|s| - 1]) then s + [a]
    else Insert(s[..|s| - 1], a) + [s[|s| - 1]]
  }

  /** In order of amount, then address, as `utils.Sort` leaves them. */
  function Sorted(s: seq<Allocation>): seq<Allocation> {
    if s == [] then [] else Insert(Sorted(s[..|s| - 1]), s[|s| - 1])
  }

  lemma {:induction false} InsertMembers(s: seq<Allocation>, a: Allocation)
    ensures multiset(Insert(s, a)) == multiset(s) + multiset{a}
  {
    if s != [] && Less(a, s[|s| - 1]) {
      var k := |s| - 1;
      InsertMembers(s[..k], a);
      SnocMembers(s, k);
    }
  }

  lemma {:induction false} InsertTotal(s: seq<Allocation>, a: Allocation)
    ensures InitialTotal(Insert(s, a)) == InitialTotal(s) + a.initial
  {
    if s == [] || !Less(a, s[|s| - 1]) {
      InitialSnoc(s, a);
    } else {
      InsertTotal(s[..|s| - 1], a);
      InitialSnoc(Insert(s[..|s| - 1], a), s[|s| - 1]);
    }
  }

  lemma {:induction false} InsertHasOnly(s: seq<Allocation>, a: Allocation, x: Allocation)
    requires x in Insert(s, a)
    ensures x == a || x in s
  {
    if s != [] && Less(a, s[|s| - 1]) && x in Insert(s[..|s| - 1], a) { InsertHasOnly(s[..|s| - 1], a, x); }
  }

  lemma OrderedSnoc(s: seq<Allocation>, x: Allocation)
    requires Ordered(s) && forall y :: y in s ==> !Less(x, y)
    ensures Ordered(s + [x])
  {}

  lemma {:induction false} InsertKeepsOrder(s: seq<Allocation>, a: Allocation)
    requires Ordered(s)
    ensures Ordered(Insert(s, a))
  {
    var k := |s| - 1;
    if s == [] {
    } else if Less(a, s[k]) {
      InsertKeepsOrder(s[..k], a);
      forall y | y in Insert(s[..k], a) ensures !Less(s[k], y) { InsertHasOnly(s[..k], a, y); }
      OrderedSnoc(Insert(s[..k], a), s[k]);
    } else {
      OrderedSnoc(s, a);
    }
  }

  lemma {:induction false} SortedIsOrdered(s: seq<Allocation>)
    ensures Ordered(Sorted(s))
  {
    if s != [] {
      SortedIsOrdered(s[..|s| - 1]);
      InsertKeepsOrder(Sorted(s[..|s| - 1]), s[|s| - 1]);
    }
  }

  lemma {:induction false} SortedPermutes(s: seq<Allocation>)
    ensures multiset(Sorted(s)) == multiset(s)
  {
    if s != [] {
      var k := |s| - 1;
      SortedPermutes(s[..k]);
      InsertMembers(Sorted(s[..k]), s[k]);
      SnocMembers(s, k);
    }
  }

  lemma SnocMembers(s: seq<Allocation>, k: nat)
    requires |s| == k + 1
    ensures multiset(s) == multiset(s[..k]) + multiset{s[k]}
  {
    assert s == s[..k] + [s[k]];
  }

  /** Sorting moves no money. */
  lemma {:induction false} SortedTotal(s: seq<Allocation>)
    ensures InitialTotal(Sorted(s)) == InitialTotal(s)
  {
    if s != [] {
      SortedTotal(s[..|s| - 1]);
      InsertTotal(Sorted(s[..|s| - 1]), s[|s| - 1]);
    }
  }

  ghost function HolderTotal(holders: seq<Holder>): nat {
    if holders == [] then 0 else HolderTotal(holders[..|holders| - 1]) + holders[|holders| - 1].amount
  }

  /** Who is to hold how much on the A-chain. */
  ghost function Promised(allocs: seq<Allocation>): multiset<Holder> {
    if allocs == [] then multiset{} else Promised(allocs[..|allocs| - 1]) + PromiseOf(allocs[|allocs| - 1])
  }

  ghost function PromiseOf(a: Allocation): multiset<Holder> {
    if a.initial > 0 then multiset{Holder(a.addr, a.initial)} else multiset{}
  }

  lemma PromisedSnoc(allocs: seq<Allocation>, a: Allocation)
    ensures Promised(allocs + [a]) == Promised(allocs) + PromiseOf(a)
  {
    assert (allocs + [a])[..|allocs|] == allocs;
  }

  lemma {:induction false} InsertPromised(s: seq<Allocation>, a: Allocation)
    ensures Promised(Insert(s, a)) == Promised(s) + PromiseOf(a)
  {
    if s == [] || !Less(a, s[|s| - 1]) {
      PromisedSnoc(s, a);
    } else {
      InsertPromised(s[..|s| - 1], a);
      PromisedSnoc(Insert(s[..|s| - 1], a), s[|s| - 1]);
    }
  }

  /** Sorting changes no promise. */
  lemma {:induction false} SortedPromised(s: seq<Allocation>)
    ensures Promised(Sorted(s)) == Promised(s)
  {
    if s != [] {
      SortedPromised(s[..|s| - 1]);
      InsertPromised(Sorted(s[..|s| - 1]), s[|s| - 1]);
    }
  }

  lemma {:induction false} HoldersArePromised(sorted: seq<Allocation>, holders: seq<Holder>)
    requires |holders| == |sorted| && forall i :: 0 <= i < |sorted| ==> holders[i] == Holder(sorted[i].addr, sorted[i].initial)
    requires forall i :: 0 <= i < |sorted| ==> sorted[i].initial > 0
    ensures multiset(holders) == Promised(sorted) && HolderTotal(holders) == InitialTotal(sorted)
  {
    if sorted != [] {
      var k := |sorted| - 1;
      HoldersArePromised(sorted[..k], holders[..k]);
      assert holders == holders[..k] + [holders[k]];
    }
  }

  lemma PromiseStep(allocs: seq<Allocation>, i: nat)
    requires i < |allocs|
    ensures InitialTotal(allocs[..i + 1]) == InitialTotal(allocs[..i]) + allocs[i].initial
    ensures Promised(allocs[..i + 1]) == Promised(allocs[..i]) + PromiseOf(allocs[i])
  {
    assert allocs[..i + 1][..i] == allocs[..i];
  }

  /** The allocations with something to pay out. */
  method Paying(allocs: seq<Allocation>) returns (paying: seq<Allocation>)
    ensures InitialTotal(paying) == InitialTotal(allocs) && Promised(paying) == Promised(allocs)
    ensures forall x :: x in paying ==> x.initial > 0
  {
    paying := [];
    for i := 0 to |allocs|
      invariant InitialTotal(paying) == InitialTotal(allocs[..i]) && Promised(paying) == Promised(allocs[..i])
      invariant forall x :: x in paying ==> x.initial > 0
    {
      PromiseStep(allocs, i);
      if allocs[i].initial > 0 {
        InitialSnoc(paying, allocs[i]);
        PromisedSnoc(paying, allocs[i]);
        paying := paying + [allocs[i]];
      }
    }
    assert allocs[..|allocs|] == allocs;
  }

  /** Everyone promised something on the A-chain holds exactly that, in order of amount. The
      running `amount` wraps around: the supply has not been checked yet. */
  method AChain(allocs: seq<Allocation>) returns (holders: seq<Holder>, amount: uint64)
    ensures multiset(holders) == Promised(allocs) && HolderTotal(holders) == InitialTotal(allocs)
    ensures amount == Wrap(InitialTotal(allocs))
    ensures forall i, j :: 0 <= i < j < |holders| ==>
              holders[i].amount < holders[j].amount || (holders[i].amount == holders[j].amount && holders[i].address <= holders[j].address)
  {
    var paying := Paying(allocs);
    SortedIsOrdered(paying);
    SortedTotal(paying);
    SortedPromised(paying);
    var sorted := Sorted(paying);
    forall i | 0 <= i < |sorted| ensures sorted[i].initial > 0 {
      SortedPermutes(paying);
      assert sorted[i] in multiset(sorted);
    }
    holders, amount := Pay(sorted);
    HoldersArePromised(sorted, holders);
  }

  method Pay(sorted: seq<Allocation>) returns (holders: seq<Holder>, amount: uint64)
    ensures |holders| == |sorted| && forall i :: 0 <= i < |sorted| ==> holders[i] == Holder(sorted[i].addr, sorted[i].initial)
    ensures amount == Wrap(InitialTotal(sorted))
  {
    holders, amount := [], 0;
    for i := 0 to |sorted|
      invariant |holders| == i && forall j :: 0 <= j < i ==> holders[j] == Holder(sorted[j].addr, sorted[j].initial)
      invariant amount == Wrap(InitialTotal(sorted[..i]))
    {
      InitialSnoc(sorted[..i], sorted[i]);
      assert sorted[..i + 1] == sorted[..i] + [sorted[i]];
      WrapAdd(InitialTotal(sorted[..i]), sorted[i].initial);
      holders := holders + [Holder(sorted[i].addr, sorted[i].initial)];
      amount := Wrap(amount + sorted[i].initial);
    }
    assert sorted[..|sorted|] == sorted;
  }

  // ---------------------------------------------------------------------------
  // The outputs

  /** The coins an output stands for. */
  ghost function OutputCoins(utxos: seq<UTXO>): seq<Coin> {
    if utxos == [] then []
    else
      var u := utxos[|utxos| - 1];
      OutputCoins(utxos[..|utxos| - 1]) + Copies(u.amount, Coin(u.message, u.address, u.locktime))
  }

  lemma OutputSnoc(utxos: seq<UTXO>, u: UTXO)
    ensures OutputCoins(utxos + [u]) == OutputCoins(utxos) + Copies(u.amount, Coin(u.message, u.address, u.locktime))
  {
    assert (utxos + [u])[..|utxos|] == utxos;
  }

  /** No output is of nothing. */
  ghost predicate AllWorth(utxos: seq<UTXO>) {
    forall i :: 0 <= i < |utxos| ==> utxos[i].amount > 0
  }

  lemma OutputStep(utxos0: seq<UTXO>, utxos: seq<UTXO>, a: Allocation, j: nat)
    requires j < |a.unlocks| && OutputCoins(utxos) == OutputCoins(utxos0) + UnlockCoins(a, a.unlocks[..j])
    ensures var (u, next) := (a.unlocks[j], UnlockCoins(a, a.unlocks[..j + 1]));
            && |next| == |UnlockCoins(a, a.unlocks[..j])| + u.amount
            && OutputCoins(utxos + [UTXO(u.locktime, u.amount, a.addr, a.eth)]) == OutputCoins(utxos0) + next
            && (u.amount == 0 ==> OutputCoins(utxos) == OutputCoins(utxos0) + next)
  {
    var u := a.unlocks[j];
    UnlockSnoc(a, a.unlocks[..j], u);
    assert a.unlocks[..j + 1] == a.unlocks[..j] + [u];
    OutputSnoc(utxos, UTXO(u.locktime, u.amount, a.addr, a.eth));
  }

  /** One allocation's schedule as outputs; entries of nothing are skipped if `skipZero`. */
  method Outputs(utxos0: seq<UTXO>, amount0: uint64, a: Allocation, skipZero: bool) returns (utxos: seq<UTXO>, amount: uint64)
    requires amount0 + |UnlockCoins(a, a.unlocks)| < TWO_64
    ensures OutputCoins(utxos) == OutputCoins(utxos0) + UnlockCoins(a, a.unlocks)
    ensures amount == amount0 + |UnlockCoins(a, a.unlocks)|
    ensures skipZero && AllWorth(utxos0) ==> AllWorth(utxos)
  {
    utxos, amount := utxos0, amount0;
    assert OutputCoins(utxos0) == OutputCoins(utxos0) + UnlockCoins(a, []);
    for j := 0 to |a.unlocks|
      invariant OutputCoins(utxos) == OutputCoins(utxos0) + UnlockCoins(a, a.unlocks[..j])
      invariant amount == amount0 + |UnlockCoins(a, a.unlocks[..j])|
      invariant skipZero && AllWorth(utxos0) ==> AllWorth(utxos)
    {
      var u := a.unlocks[j];
      UnlockPrefix(a, j + 1);
      OutputStep(utxos0, utxos, a, j);
      if u.amount > 0 || !skipZero {
        utxos := utxos + [UTXO(u.locktime, u.amount, a.addr, a.eth)];
        amount := amount + u.amount;
      }
    }
    assert a.unlocks[..|a.unlocks|] == a.unlocks;
  }

  // ---------------------------------------------------------------------------
  // The whole genesis

  /** The allocations of the staked addresses, and the others. */
  ghost function Staked(allocs: seq<Allocation>, funds: seq<ID>): seq<Allocation> {
    if allocs == [] then []
    else
      var (rest, a) := (Staked(allocs[..|allocs| - 1], funds), allocs[|allocs| - 1]);
      if a.addr in funds then rest + [a] else rest
  }

  ghost function Unstaked(allocs: seq<Allocation>, funds: seq<ID>): seq<Allocation> {
    if allocs == [] then []
    else
      var (rest, a) := (Unstaked(allocs[..|allocs| - 1], funds), allocs[|allocs| - 1]);
      if a.addr in funds then rest else rest + [a]
  }

  /** `picked` are the entries of `allocs` at these places, in order. */
  ghost predicate Picks(allocs: seq<Allocation>, at: seq<nat>, picked: seq<Allocation>) {
    && |at| == |picked| && (forall i, j :: 0 <= i < j < |at| ==> at[i] < at[j])
    && forall i :: 0 <= i < |at| ==> at[i] < |allocs| && picked[i] == allocs[at[i]]
  }

  lemma PicksMore(allocs: seq<Allocation>, at: seq<nat>, picked: seq<Allocation>)
    requires allocs != [] && Picks(allocs[..|allocs| - 1], at, picked)
    ensures Picks(allocs, at, picked) && Picks(allocs, at + [|allocs| - 1], picked + [allocs[|allocs| - 1]])
  {}

  /** The staked allocations are those whose address is among the funds, the unstaked ones those
      whose address is not, each in the order of the configuration. */
  lemma {:induction false} StakedInOrder(allocs: seq<Allocation>, funds: seq<ID>) returns (at: seq<nat>, off: seq<nat>)
    ensures Picks(allocs, at, Staked(allocs, funds)) && Picks(allocs, off, Unstaked(allocs, funds))
    ensures forall j :: 0 <= j < |allocs| ==> (j in at <==> allocs[j].addr in funds) && (j in off <==> allocs[j].addr !in funds)
  {
    at, off := [], [];
    if allocs != [] {
      var k := |allocs| - 1;
      at, off := StakedInOrder(allocs[..k], funds);
      PicksMore(allocs, at, Staked(allocs[..k], funds));
      PicksMore(allocs, off, Unstaked(allocs[..k], funds));
      assert k !in at && k !in off;
      if allocs[k].addr in funds { at := at + [k]; } else { off := off + [k]; }
    }
  }

  /** Every allocation is staked or unstaked, once. */
  lemma {:induction false} StakedOrUnstaked(allocs: seq<Allocation>, funds: seq<ID>)
    ensures multiset(Staked(allocs, funds)) + multiset(Unstaked(allocs, funds)) == multiset(allocs)
  {
    if allocs != [] {
      var k := |allocs| - 1;
      StakedOrUnstaked(allocs[..k], funds);
      SnocMembers(allocs, k);
    }
  }

  lemma {:induction false} StakedAndUnstaked(allocs: seq<Allocation>, funds: seq<ID>)
    ensures |Coins(Staked(allocs, funds))| + |Coins(Unstaked(allocs, funds))| == |Coins(allocs)|
  {
    if allocs != [] {
      var (k, a) := (|allocs| - 1, allocs[|allocs| - 1]);
      StakedAndUnstaked(allocs[..k], funds);
      CoinsSnoc(Staked(allocs[..k], funds), a);
      CoinsSnoc(Unstaked(allocs[..k], funds), a);
    }
  }

  lemma {:induction false} UnstakedPrefix(allocs: seq<Allocation>, funds: seq<ID>, i: nat)
    requires i <= |allocs|
    ensures |Coins(Unstaked(allocs[..i], funds))| <= |Coins(Unstaked(allocs, funds))|
    decreases |allocs| - i
  {
    if i == |allocs| {
      assert allocs[..i] == allocs;
    } else {
      UnstakedPrefix(allocs, funds, i + 1);
      assert allocs[..i + 1][..i] == allocs[..i];
      CoinsSnoc(Unstaked(allocs[..i], funds), allocs[i]);
    }
  }

  /** The outputs of everything that is not staked; the staked allocations are set aside. */
  method UnstakedOutputs(allocs: seq<Allocation>, funds: seq<ID>, amount0: uint64)
    returns (utxos: seq<UTXO>, skipped: seq<Allocation>, amount: uint64)
    requires amount0 + |Coins(Unstaked(allocs, funds))| < TWO_64
    ensures OutputCoins(utxos) == Coins(Unstaked(allocs, funds)) && skipped == Staked(allocs, funds)
    ensures AllWorth(utxos)
    ensures amount == amount0 + |Coins(Unstaked(allocs, funds))|
  {
    utxos, skipped, amount := [], [], amount0;
    for i := 0 to |allocs|
      invariant OutputCoins(utxos) == Coins(Unstaked(allocs[..i], funds)) && skipped == Staked(allocs[..i], funds)
      invariant amount == amount0 + |Coins(Unstaked(allocs[..i], funds))| && AllWorth(utxos)
    {
      UnstakedPrefix(allocs, funds, i + 1);
      assert allocs[..i + 1][..i] == allocs[..i];
      if allocs[i].addr in funds {
        skipped := skipped + [allocs[i]];
      } else {
        CoinsSnoc(Unstaked(allocs[..i], funds), allocs[i]);
        utxos, amount := Outputs(utxos, amount, allocs[i], true);
      }
    }
    assert allocs[..|allocs|] == allocs;
  }

  /** One validator's staked outputs. */
  method BucketOutputs(bucket: seq<Allocation>, amount0: uint64) returns (utxos: seq<UTXO>, amount: uint64)
    requires amount0 + |Coins(bucket)| < TWO_64
    ensures OutputCoins(utxos) == Coins(bucket) && amount == amount0 + |Coins(bucket)|
  {
    utxos, amount := [], amount0;
    for i := 0 to |bucket|
      invariant OutputCoins(utxos) == Coins(bucket[..i]) && amount == amount0 + |Coins(bucket[..i])|
    {
      CoinsPrefix(bucket, i + 1);
      CoinsSnoc(bucket[..i], bucket[i]);
      assert bucket[..i + 1] == bucket[..i] + [bucket[i]];
      utxos, amount := Outputs(utxos, amount, bucket[i], false);
    }
    assert bucket[..|bucket|] == bucket;
  }

  ghost function StakedCoins(staked: seq<seq<UTXO>>): seq<Coin> {
    if staked == [] then [] else StakedCoins(staked[..|staked| - 1]) + OutputCoins(staked[|staked| - 1])
  }

  ghost predicate Matches(staked: seq<seq<UTXO>>, buckets: seq<seq<Allocation>>) {
    |staked| <= |buckets| && forall i :: 0 <= i < |staked| ==> OutputCoins(staked[i]) == Coins(buckets[i])
  }

  lemma {:induction false} MatchingCoins(staked: seq<seq<UTXO>>, buckets: seq<seq<Allocation>>)
    requires Matches(staked, buckets) && |staked| == |buckets|
    ensures StakedCoins(staked) == Flat(buckets)
  {
    if staked != [] { MatchingCoins(staked[..|staked| - 1], buckets[..|buckets| - 1]); }
  }

  lemma {:induction false} FlatPrefix(buckets: seq<seq<Allocation>>, i: nat)
    requires i <= |buckets|
    ensures |Flat(buckets[..i])| <= |Flat(buckets)|
    decreases |buckets| - i
  {
    if i == |buckets| {
      assert buckets[..i] == buckets;
    } else {
      FlatPrefix(buckets, i + 1);
      FlatSnoc(buckets[..i], buckets[i]);
      assert buckets[..i + 1] == buckets[..i] + [buckets[i]];
    }
  }

  method StakedOutputs(buckets: seq<seq<Allocation>>, amount0: uint64) returns (staked: seq<seq<UTXO>>, amount: uint64)
    requires amount0 + |Flat(buckets)| < TWO_64
    ensures |staked| == |buckets| && Matches(staked, buckets)
    ensures StakedCoins(staked) == Flat(buckets) && amount == amount0 + |Flat(buckets)|
  {
    staked, amount := [], amount0;
    for i := 0 to |buckets|
      invariant |staked| == i && Matches(staked, buckets) && amount == amount0 + |Flat(buckets[..i])|
    {
      FlatStep(buckets, i);
      var utxos;
      utxos, amount := BucketOutputs(buckets[i], amount);
      MatchesMore(staked, buckets, utxos);
      staked := staked + [utxos];
    }
    assert buckets[..|buckets|] == buckets;
    MatchingCoins(staked, buckets);
  }

  lemma FlatStep(buckets: seq<seq<Allocation>>, i: nat)
    requires i < |buckets|
    ensures |Flat(buckets[..i + 1])| == |Flat(buckets[..i])| + |Coins(buckets[i])| <= |Flat(buckets)|
  {
    FlatPrefix(buckets, i + 1);
    FlatSnoc(buckets[..i], buckets[i]);
    assert buckets[..i + 1] == buckets[..i] + [buckets[i]];
  }

  lemma MatchesMore(staked: seq<seq<UTXO>>, buckets: seq<seq<Allocation>>, utxos: seq<UTXO>)
    requires Matches(staked, buckets) && |staked| < |buckets| && OutputCoins(utxos) == Coins(buckets[|staked|])
    ensures Matches(staked + [utxos], buckets)
  {}

  /** No validator, or several with nothing to stake between them. */
  ghost predicate Unsplittable(c: Config) {
    c.stakers == 0 || (c.stakers > 1 && Coins(Staked(c.allocations, c.stakedFunds)) == [])
  }

  /** Every validator stakes its share of the coins. */
  ghost predicate StakesShares(staked: seq<seq<UTXO>>, coins: seq<Coin>, n: nat) {
    |staked| == n && forall i :: 0 <= i < n ==> OutputCoins(staked[i]) == Share(coins, n, i)
  }

  /** The set-aside allocations split among the validators; the index of a missing bucket and
      a split among none are panics. */
  method Stake(skipped: seq<Allocation>, n: nat, amount0: uint64) returns (r: Option<seq<seq<UTXO>>>, amount: uint64)
    requires amount0 + |Coins(skipped)| < TWO_64
    ensures r.None? <==> n == 0 || (n > 1 && Coins(skipped) == [])
    ensures r.Some? ==> StakesShares(r.value, Coins(skipped), n) && StakedCoins(r.value) == Coins(skipped)
    ensures r.Some? ==> amount == amount0 + |Coins(skipped)|
  {
    amount := amount0;
    var buckets := SplitAllocations(skipped, n);
    if buckets.None? || |buckets.value| < n { return None, amount; }
    var staked;
    staked, amount := StakedOutputs(buckets.value, amount);
    return Some(staked), amount;
  }

  // ---------------------------------------------------------------------------
  // The omega chain

  lemma {:induction false} OutputPrefix(utxos: seq<UTXO>, i: nat)
    requires i <= |utxos|
    ensures |OutputCoins(utxos[..i])| <= |OutputCoins(utxos)|
    decreases |utxos| - i
  {
    if i == |utxos| {
      assert utxos[..i] == utxos;
    } else {
      OutputPrefix(utxos, i + 1);
      OutputSnoc(utxos[..i], utxos[i]);
      assert utxos[..i + 1] == utxos[..i] + [utxos[i]];
    }
  }

  /** A validator's weight: the checked sum of its outputs. */
  method Weigh(utxos: seq<UTXO>) returns (r: Option<uint64>)
    ensures r == if |OutputCoins(utxos)| < TWO_64 then Some(|OutputCoins(utxos)|) else None
  {
    var weight: uint64 := 0;
    for i := 0 to |utxos|
      invariant weight == |OutputCoins(utxos[..i])|
    {
      OutputPrefix(utxos, i + 1);
      OutputSnoc(utxos[..i], utxos[i]);
      assert utxos[..i + 1] == utxos[..i] + [utxos[i]];
      var next := Add64(weight, utxos[i].amount);
      if next.None? { return None; }
      weight := next.value;
    }
    assert utxos[..|utxos|] == utxos;
    return Some(weight);
  }

  /** A weight above nothing that fits in 64 bits. */
  ghost predicate Weighs(utxos: seq<UTXO>) { 0 < |OutputCoins(utxos)| < TWO_64 }

  /** Fault of the first validator that has one. */
  ghost predicate FirstFault(staked: seq<seq<UTXO>>, f: Fault) {
    exists i :: 0 <= i < |staked| && (forall j :: 0 <= j < i ==> Weighs(staked[j])) && !Weighs(staked[i])
      && f == (if |OutputCoins(staked[i])| == 0 then ValidatorHasNoWeight else StakeOverflow)
  }

  /** The omega chain's `BuildGenesis`, as far as money goes: an output of nothing is refused
      first, then the first validator without a weight or with one beyond 64 bits. */
  method OmegaGenesis(utxos: seq<UTXO>, staked: seq<seq<UTXO>>) returns (fault: Option<Fault>)
    ensures fault.None? <==> AllWorth(utxos) && forall i :: 0 <= i < |staked| ==> Weighs(staked[i])
    ensures fault.Some? && AllWorth(utxos) ==> FirstFault(staked, fault.value)
    ensures fault == Some(UTXOHasNoValue) <==> !AllWorth(utxos)
  {
    for i := 0 to |utxos|
      invariant forall j :: 0 <= j < i ==> utxos[j].amount > 0
    {
      if utxos[i].amount == 0 { return Some(UTXOHasNoValue); }
    }
    for i := 0 to |staked|
      invariant forall j :: 0 <= j < i ==> Weighs(staked[j])
    {
      var weight := Weigh(staked[i]);
      if weight.None? { return Some(StakeOverflow); }
      if weight.value == 0 { return Some(ValidatorHasNoWeight); }
    }
    return None;
  }

  lemma Quotient(total: nat, n: nat)
    requires n > 0
    ensures total / n + total % n <= total && (n <= total <==> total / n > 0)
  {
    Division(total, n);
    TimesGrows(1, n, total / n);
    if n <= total && total / n == 0 { TimesIsProduct(n, 0); }
  }

  lemma StakedWeight(staked: seq<seq<UTXO>>, coins: seq<Coin>, n: nat, i: nat)
    requires i < n && |coins| < TWO_64 && StakesShares(staked, coins, n)
    ensures |OutputCoins(staked[i])| < TWO_64
    ensures n <= |coins| ==> Weighs(staked[i])
    ensures |coins| < n && i < n - 1 ==> !Weighs(staked[i])
  {
    Quotient(|coins|, n);
    ShareWeights(coins, n, i);
  }

  /** Every validator has a weight exactly if there is a coin for each. */
  lemma SharesWeigh(staked: seq<seq<UTXO>>, coins: seq<Coin>, n: nat)
    requires n > 0 && |coins| < TWO_64 && StakesShares(staked, coins, n)
    ensures (forall i :: 0 <= i < |staked| ==> Weighs(staked[i])) <==> n <= |coins|
    ensures forall i :: 0 <= i < |staked| ==> |OutputCoins(staked[i])| < TWO_64
  {
    forall i | 0 <= i < n
      ensures |OutputCoins(staked[i])| < TWO_64 && (n <= |coins| ==> Weighs(staked[i]))
    {
      StakedWeight(staked, coins, n, i);
    }
    if |coins| < n {
      StakedWeight(staked, coins, n, 0);
      ShareWeights(coins, n, 0);
      Quotient(|coins|, n);
      assert !Weighs(staked[0]);
    }
  }

  ghost predicate Fits(c: Config) { Supply(c.allocations) < TWO_64 }

  /** How many coins there are to stake. */
  ghost function ToStake(c: Config): nat { |Coins(Staked(c.allocations, c.stakedFunds))| }

  /** `FromConfig`, as far as money goes. It fails exactly when the supply does not fit, it
      panics exactly on the unsplittable configurations, and it is refused exactly if there
      are fewer coins to stake than validators, each time for a validator without weight.
      Otherwise, so exactly if every validator can have a coin, everything promised is there
      once: A-chain holdings, unstaked and staked outputs add up to the supply, and each
      validator stakes its share. */
  method FromConfig(c: Config) returns (r: Outcome)
    ensures r.SupplyOverflow? <==> !Fits(c)
    ensures r.Panic? <==> Fits(c) && Unsplittable(c)
    ensures r.Refused? <==> Fits(c) && !Unsplittable(c) && ToStake(c) < c.stakers
    ensures r.Refused? ==> r.fault == ValidatorHasNoWeight
    ensures r.Built? <==> Fits(c) && 0 < c.stakers <= ToStake(c)
    ensures r.Built? ==> multiset(r.genesis.holders) == Promised(c.allocations)
    ensures r.Built? ==> OutputCoins(r.genesis.unstaked) == Coins(Unstaked(c.allocations, c.stakedFunds))
    ensures r.Built? ==> StakedCoins(r.genesis.staked) == Coins(Staked(c.allocations, c.stakedFunds))
    ensures r.Built? ==> StakesShares(r.genesis.staked, Coins(Staked(c.allocations, c.stakedFunds)), c.stakers)
    ensures r.Built? ==> r.genesis.amount == Supply(c.allocations)
    ensures r.Built? ==> var g := r.genesis;
              Supply(c.allocations) == HolderTotal(g.holders) + |OutputCoins(g.unstaked)| + |StakedCoins(g.staked)|
  {
    var holders, amount := AChain(c.allocations);
    var supply := InitialSupply(c.allocations);
    if supply.None? { return SupplyOverflow; }
    WrapSmall(InitialTotal(c.allocations));
    StakedAndUnstaked(c.allocations, c.stakedFunds);
    var utxos, skipped;
    utxos, skipped, amount := UnstakedOutputs(c.allocations, c.stakedFunds, amount);
    var staked;
    staked, amount := Stake(skipped, c.stakers, amount);
    if staked.None? { return Panic; }
    SharesWeigh(staked.value, Coins(skipped), c.stakers);
    var fault := OmegaGenesis(utxos, staked.value);
    if fault.Some? { return Refused(fault.value); }
    return Built(Genesis(holders, utxos, staked.value, amount));
  }

  // ---------------------------------------------------------------------------
  // The validation beforehand does not rule the panic out

  /** What `validateConfig` asks of the money: a supply that fits and is not nothing, a staker,
      and staked addresses that are distinct and have an allocation. */
  ghost predicate Validated(c: Config) {
    && 0 < Supply(c.allocations) < TWO_64 && c.stakers > 0
    && c.stakedFunds != [] && NoDuplicates(c.stakedFunds)
    && forall i :: 0 <= i < |c.stakedFunds| ==>
         exists j :: 0 <= j < |c.allocations| && c.allocations[j].addr == c.stakedFunds[i]
  }

  lemma OneAllocation(a: Allocation, funds: seq<ID>)
    ensures InitialTotal([a]) == a.initial && Coins([a]) == UnlockCoins(a, a.unlocks)
    ensures a.addr in funds ==> Staked([a], funds) == [a]
  {
    assert [a][..0] == [];
    assert Coins([a]) == Coins([]) + UnlockCoins(a, a.unlocks);
  }

  /** The configuration with a single allocation, all of it staked. */
  ghost function AllStaked(a: Allocation, stakers: nat): Config { Config([a], [a.addr], stakers) }

  /** With a single allocation whose schedule unlocks less than there are stakers, the
      validation passes and the genesis is never built: with a schedule of nothing one staker
      is refused and several panic, with a coin or more it is always a refusal. */
  lemma ValidatedCanFail(a: Allocation, stakers: nat)
    requires 0 < a.initial + |UnlockCoins(a, a.unlocks)| < TWO_64
    requires |UnlockCoins(a, a.unlocks)| < stakers
    ensures Validated(AllStaked(a, stakers)) && ToStake(AllStaked(a, stakers)) < stakers
    ensures Unsplittable(AllStaked(a, stakers)) <==> UnlockCoins(a, a.unlocks) == [] && stakers > 1
  {
    var c := AllStaked(a, stakers);
    OneAllocation(a, c.stakedFunds);
    assert c.allocations[0].addr == c.stakedFunds[0];
  }
}
