/** Cutting the initially staked allocations into one bucket of equal weight per validator
    (genesis/genesis.go, splitAllocations). What a schedule is worth is a stream of coins, each
    marked with its owner and the time it unlocks. */
module GenesisSplit {
  import opened Common

  type uint64 = x: int | 0 <= x < TWO_64

  datatype LockedAmount = LockedAmount(amount: uint64, locktime: uint64)
  datatype Allocation = Allocation(eth: ID, addr: ID, initial: uint64, unlocks: seq<LockedAmount>)

  /** One unit of money: whose it is and when it unlocks. */
  datatype Coin = Coin(eth: ID, addr: ID, locktime: uint64)

  ghost function Copies(n: nat, c: Coin): seq<Coin> { seq(n, _ => c) }

  /** The coins of a schedule of this owner, in order. */
  ghost function UnlockCoins(a: Allocation, us: seq<LockedAmount>): seq<Coin> {
    if us == [] then []
    else
      var u := us[|us| - 1];
      UnlockCoins(a, us[..|us| - 1]) + Copies(u.amount, Coin(a.eth, a.addr, u.locktime))
  }

  ghost function Coins(allocs: seq<Allocation>): seq<Coin> {
    if allocs == [] then []
    else
      var a := allocs[|allocs| - 1];
      Coins(allocs[..|allocs| - 1]) + UnlockCoins(a, a.unlocks)
  }

  /** The coins of all buckets, in order. */
  ghost function Flat(buckets: seq<seq<Allocation>>): seq<Coin> {
    if buckets == [] then []
    else Flat(buckets[..|buckets| - 1]) + Coins(buckets[|buckets| - 1])
  }

  lemma UnlockSnoc(a: Allocation, us: seq<LockedAmount>, u: LockedAmount)
    ensures UnlockCoins(a, us + [u]) == UnlockCoins(a, us) + Copies(u.amount, Coin(a.eth, a.addr, u.locktime))
  {
    assert (us + [u])[..|us|] == us;
  }

  lemma CoinsSnoc(allocs: seq<Allocation>, a: Allocation)
    ensures Coins(allocs + [a]) == Coins(allocs) + UnlockCoins(a, a.unlocks)
  {
    assert (allocs + [a])[..|allocs|] == allocs;
  }

  lemma FlatSnoc(buckets: seq<seq<Allocation>>, b: seq<Allocation>)
    ensures Flat(buckets + [b]) == Flat(buckets) + Coins(b)
  {
    assert (buckets + [b])[..|buckets|] == buckets;
  }

  /** Only the owner of an allocation matters for the coins of a schedule. */
  lemma {:induction false} SameOwner(a: Allocation, b: Allocation, us: seq<LockedAmount>)
    requires a.eth == b.eth && a.addr == b.addr
    ensures UnlockCoins(a, us) == UnlockCoins(b, us)
  {
    if us != [] { SameOwner(a, b, us[..|us| - 1]); }
  }

  // ---------------------------------------------------------------------------
  // The cut so far

  /** The loop's variables: finished buckets, the bucket being filled, the schedule of its last
      allocation, and the amount in it. */
  datatype Cut = Cut(finished: seq<seq<Allocation>>, bucket: seq<Allocation>, open: seq<LockedAmount>, amount: uint64)

  /** The coins cut so far are `stream`; every finished bucket weighs `w`; the one being filled
      weighs `amount`, and no more than `w` unless it is the last. */
  ghost predicate Cutting(c: Cut, a: Allocation, w: nat, n: nat, stream: seq<Coin>) {
    && |c.finished| < n
    && (forall i :: 0 <= i < |c.finished| ==> |Coins(c.finished[i])| == w)
    && Flat(c.finished) + Coins(c.bucket) + UnlockCoins(a, c.open) == stream
    && c.amount == |Coins(c.bucket)| + |UnlockCoins(a, c.open)|
    && (|c.finished| < n - 1 ==> c.amount <= w)
    && (forall i :: 0 <= i < |c.finished| ==> NoInitial(c.finished[i]))
    && NoInitial(c.bucket)
  }

  /** A bucket is finished only when there is more to come. */
  ghost predicate Needed(c: Cut, stream: seq<Coin>) {
    |c.finished| > 0 ==> |stream| > 0
  }

  /** What was already paid out on the A-chain is not paid again. */
  ghost predicate NoInitial(allocs: seq<Allocation>) {
    forall i :: 0 <= i < |allocs| ==> allocs[i].initial == 0
  }

  /** The open schedule gets an entry. */
  lemma AddEntry(c: Cut, a: Allocation, w: nat, n: nat, stream: seq<Coin>, u: LockedAmount)
    requires Cutting(c, a, w, n, stream) && c.amount + u.amount < TWO_64
    requires c.amount + u.amount <= w || |c.finished| == n - 1
    ensures Cutting(c.(open := c.open + [u], amount := c.amount + u.amount), a, w, n,
                    stream + Copies(u.amount, Coin(a.eth, a.addr, u.locktime)))
  {
    UnlockSnoc(a, c.open, u);
    assert Flat(c.finished) + Coins(c.bucket) + UnlockCoins(a, c.open + [u])
        == stream + Copies(u.amount, Coin(a.eth, a.addr, u.locktime));
  }

  /** The open allocation joins its bucket. */
  lemma CloseAllocation(c: Cut, a: Allocation, w: nat, n: nat, stream: seq<Coin>, b: Allocation)
    requires Cutting(c, a, w, n, stream) && b == a.(initial := 0, unlocks := c.open)
    ensures Cutting(c.(bucket := c.bucket + [b], open := []), a, w, n, stream)
  {
    CoinsSnoc(c.bucket, b);
    SameOwner(b, a, c.open);
    assert Flat(c.finished) + Coins(c.bucket + [b]) + UnlockCoins(a, []) == stream;
  }

  /** A bucket of the right weight is finished. */
  lemma FinishBucket(c: Cut, a: Allocation, w: nat, n: nat, stream: seq<Coin>)
    requires Cutting(c, a, w, n, stream) && c.open == [] && c.amount == w && |c.finished| < n - 1
    ensures Cutting(Cut(c.finished + [c.bucket], [], [], 0), a, w, n, stream)
  {
    FlatSnoc(c.finished, c.bucket);
    assert Flat(c.finished + [c.bucket]) + Coins([]) + UnlockCoins(a, []) == stream;
  }

  /** An entry that fills the bucket finishes it. */
  lemma FillBucket(c: Cut, a: Allocation, w: nat, n: nat, stream: seq<Coin>, u: LockedAmount)
    requires Cutting(c, a, w, n, stream) && c.amount + u.amount == w < TWO_64 && |c.finished| < n - 1
    ensures Cutting(Cut(c.finished + [c.bucket + [a.(initial := 0, unlocks := c.open + [u])]], [], [], 0), a, w, n,
                    stream + Copies(u.amount, Coin(a.eth, a.addr, u.locktime)))
  {
    var stream' := stream + Copies(u.amount, Coin(a.eth, a.addr, u.locktime));
    AddEntry(c, a, w, n, stream, u);
    var c1 := c.(open := c.open + [u], amount := c.amount + u.amount);
    CloseAllocation(c1, a, w, n, stream', a.(initial := 0, unlocks := c1.open));
    FinishBucket(c1.(bucket := c1.bucket + [a.(initial := 0, unlocks := c1.open)], open := []), a, w, n, stream');
  }

  lemma CopiesAdd(m: nat, n: nat, coin: Coin)
    ensures Copies(m, coin) + Copies(n, coin) == Copies(m + n, coin)
  {}

  // ---------------------------------------------------------------------------
  // The loops

  /** One entry of a schedule: it is cut at every full bucket on the way. */
  method CutUnlock(c0: Cut, a: Allocation, u: LockedAmount, w: uint64, n: nat, ghost stream: seq<Coin>) returns (c: Cut)
    requires n >= 1 && Cutting(c0, a, w, n, stream) && Needed(c0, stream) && |stream| + u.amount < TWO_64
    ensures Cutting(c, a, w, n, stream + Copies(u.amount, Coin(a.eth, a.addr, u.locktime)))
    ensures Needed(c, stream + Copies(u.amount, Coin(a.eth, a.addr, u.locktime)))
  {
    c := c0;
    var left: uint64 := u.amount;
    ghost var coin := Coin(a.eth, a.addr, u.locktime);
    ghost var now := stream;
    assert now + Copies(left, coin) == stream + Copies(u.amount, coin);
    while c.amount + left > w && |c.finished| < n - 1
      invariant now + Copies(left, coin) == stream + Copies(u.amount, coin)
      invariant Cutting(c, a, w, n, now) && c.amount + left < TWO_64
      invariant c == c0 || left > 0
      decreases n - |c.finished|
    {
      var amountToAdd: uint64 := w - c.amount;
      var entry := LockedAmount(amountToAdd, u.locktime);
      FillBucket(c, a, w, n, now, entry);
      c := Cut(c.finished + [c.bucket + [a.(initial := 0, unlocks := c.open + [entry])]], [], [], 0);
      CopiesAdd(amountToAdd, left - amountToAdd, coin);
      now := now + Copies(amountToAdd, coin);
      left := left - amountToAdd;
    }
    if left == 0 {
      assert now == now + Copies(left, coin);
      return;
    }
    var entry := LockedAmount(left, u.locktime);
    AddEntry(c, a, w, n, now, entry);
    c := c.(open := c.open + [entry], amount := c.amount + left);
  }

  /** One allocation. */
  method CutAllocation(c0: Cut, a: Allocation, w: uint64, n: nat, ghost stream: seq<Coin>) returns (c: Cut)
    requires n >= 1 && Cutting(c0, a, w, n, stream) && Needed(c0, stream) && c0.open == []
    requires |stream + UnlockCoins(a, a.unlocks)| < TWO_64
    ensures Cutting(c, a, w, n, stream + UnlockCoins(a, a.unlocks)) && c.open == []
    ensures Needed(c, stream + UnlockCoins(a, a.unlocks))
  {
    c := c0;
    assert stream + UnlockCoins(a, a.unlocks[..0]) == stream;
    for i := 0 to |a.unlocks|
      invariant Cutting(c, a, w, n, stream + UnlockCoins(a, a.unlocks[..i]))
      invariant Needed(c, stream + UnlockCoins(a, a.unlocks[..i]))
    {
      StreamStep(a, stream, i);
      c := CutUnlock(c, a, a.unlocks[i], w, n, stream + UnlockCoins(a, a.unlocks[..i]));
    }
    assert a.unlocks[..|a.unlocks|] == a.unlocks;
    c := CloseOpen(c, a, w, n, stream + UnlockCoins(a, a.unlocks));
  }

  /** The `i`th entry continues the stream. */
  lemma StreamStep(a: Allocation, stream: seq<Coin>, i: nat)
    requires i < |a.unlocks|
    ensures var u := a.unlocks[i];
            var before := stream + UnlockCoins(a, a.unlocks[..i]);
            && before + Copies(u.amount, Coin(a.eth, a.addr, u.locktime)) == stream + UnlockCoins(a, a.unlocks[..i + 1])
            && |before| + u.amount <= |stream + UnlockCoins(a, a.unlocks)|
  {
    UnlockPrefix(a, i + 1);
    UnlockSnoc(a, a.unlocks[..i], a.unlocks[i]);
    assert a.unlocks[..i + 1] == a.unlocks[..i] + [a.unlocks[i]];
  }

  /** An allocation that got something joins the bucket. */
  method CloseOpen(c0: Cut, a: Allocation, w: uint64, n: nat, ghost stream: seq<Coin>) returns (c: Cut)
    requires Cutting(c0, a, w, n, stream) && Needed(c0, stream)
    ensures Cutting(c, a, w, n, stream) && Needed(c, stream) && c.open == []
  {
    c := c0;
    if |c.open| > 0 {
      var piece := a.(initial := 0, unlocks := c.open);
      CloseAllocation(c, a, w, n, stream, piece);
      c := c.(bucket := c.bucket + [piece], open := []);
    }
  }

  /** A schedule's prefix is worth no more. */
  lemma {:induction false} UnlockPrefix(a: Allocation, i: nat)
    requires i <= |a.unlocks|
    ensures |UnlockCoins(a, a.unlocks[..i])| <= |UnlockCoins(a, a.unlocks)|
    decreases |a.unlocks| - i
  {
    if i == |a.unlocks| {
      assert a.unlocks[..i] == a.unlocks;
    } else {
      UnlockPrefix(a, i + 1);
      UnlockSnoc(a, a.unlocks[..i], a.unlocks[i]);
      assert a.unlocks[..i + 1] == a.unlocks[..i] + [a.unlocks[i]];
    }
  }

  lemma {:induction false} CoinsPrefix(allocs: seq<Allocation>, i: nat)
    requires i <= |allocs|
    ensures |Coins(allocs[..i])| <= |Coins(allocs)|
    decreases |allocs| - i
  {
    if i == |allocs| {
      assert allocs[..i] == allocs;
    } else {
      CoinsPrefix(allocs, i + 1);
      CoinsSnoc(allocs[..i], allocs[i]);
      assert allocs[..i + 1] == allocs[..i] + [allocs[i]];
    }
  }

  /** With nothing open the owner does not matter. */
  lemma ChangeOwner(c: Cut, a: Allocation, b: Allocation, w: nat, n: nat, stream: seq<Coin>)
    requires Cutting(c, a, w, n, stream) && c.open == []
    ensures Cutting(c, b, w, n, stream)
  {}

  /** 64-bit addition wraps around. */
  function Wrap(x: nat): uint64 { x % TWO_64 }

  lemma WrapSmall(x: nat)
    requires x < TWO_64
    ensures Wrap(x) == x
  {}

  lemma WrapAdd(x: nat, y: uint64)
    ensures Wrap(Wrap(x) + y) == Wrap(x + y)
  {}

  /** One schedule added onto a 64-bit sum. */
  method AddAmounts(a: Allocation, total0: uint64, ghost sum: nat) returns (total: uint64)
    requires total0 == Wrap(sum)
    ensures total == Wrap(sum + |UnlockCoins(a, a.unlocks)|)
  {
    total := total0;
    for j := 0 to |a.unlocks|
      invariant total == Wrap(sum + |UnlockCoins(a, a.unlocks[..j])|)
    {
      UnlockSnoc(a, a.unlocks[..j], a.unlocks[j]);
      assert a.unlocks[..j + 1] == a.unlocks[..j] + [a.unlocks[j]];
      WrapAdd(sum + |UnlockCoins(a, a.unlocks[..j])|, a.unlocks[j].amount);
      total := Wrap(total + a.unlocks[j].amount);
    }
    assert a.unlocks[..|a.unlocks|] == a.unlocks;
  }

  /** The sum of all amounts, in 64 bits. */
  method TotalAmount(allocs: seq<Allocation>) returns (total: uint64)
    ensures total == Wrap(|Coins(allocs)|)
  {
    total := 0;
    for i := 0 to |allocs|
      invariant total == Wrap(|Coins(allocs[..i])|)
    {
      CoinsSnoc(allocs[..i], allocs[i]);
      assert allocs[..i + 1] == allocs[..i] + [allocs[i]];
      total := AddAmounts(allocs[i], total, |Coins(allocs[..i])|);
    }
    assert allocs[..|allocs|] == allocs;
  }

  // ---------------------------------------------------------------------------
  // The shares

  /** `i * w`, unrolled. */
  ghost function Times(i: nat, w: nat): (r: nat) { if i == 0 then 0 else Times(i - 1, w) + w }

  lemma {:induction false} TimesIsProduct(i: nat, w: nat)
    ensures Times(i, w) == i * w
  {
    if i > 0 { TimesIsProduct(i - 1, w); }
  }

  lemma {:induction false} TimesGrows(i: nat, j: nat, w: nat)
    requires i <= j
    ensures Times(i, w) <= Times(j, w)
  {
    if i < j { TimesGrows(i, j - 1, w); }
  }

  lemma Division(total: nat, n: nat)
    requires n >= 1
    ensures total == Times(n, total / n) + total % n
  {
    TimesIsProduct(n, total / n);
  }

  /** The `i`th of `n` equal shares of a stream; the last takes what is left over. */
  ghost function Share(coins: seq<Coin>, n: nat, i: nat): seq<Coin>
    requires i < n
  {
    var w := |coins| / n;
    Division(|coins|, n);
    TimesGrows(i + 1, n, w);
    if i < n - 1 then coins[Times(i, w)..Times(i + 1, w)] else coins[Times(i, w)..]
  }

  /** The first `n - 1` shares are equal, the last has the remainder more. */
  lemma ShareWeights(coins: seq<Coin>, n: nat, i: nat)
    requires i < n
    ensures |Share(coins, n, i)| == |coins| / n + if i == n - 1 then |coins| % n else 0
  {
    Division(|coins|, n);
    TimesGrows(i + 1, n, |coins| / n);
  }

  lemma {:induction false} FlatLength(buckets: seq<seq<Allocation>>, w: nat)
    requires forall k :: 0 <= k < |buckets| ==> |Coins(buckets[k])| == w
    ensures |Flat(buckets)| == Times(|buckets|, w)
  {
    if buckets != [] {
      var m := |buckets| - 1;
      FlatLength(buckets[..m], w);
      assert |Coins(buckets[m])| == w;
    }
  }

  lemma SliceOfPrefix(a: seq<Coin>, b: seq<Coin>, i: nat, j: nat)
    requires i <= j <= |a|
    ensures (a + b)[i..j] == a[i..j]
  {}

  lemma SliceOfSuffix(a: seq<Coin>, b: seq<Coin>)
    ensures (a + b)[|a|..|a| + |b|] == b
  {}

  lemma {:induction false} BucketIsSlice(buckets: seq<seq<Allocation>>, w: nat, i: nat)
    requires i < |buckets| && forall k :: 0 <= k < |buckets| ==> |Coins(buckets[k])| == w
    ensures Times(i + 1, w) <= |Flat(buckets)| && Coins(buckets[i]) == Flat(buckets)[Times(i, w)..Times(i + 1, w)]
  {
    var m := |buckets| - 1;
    var (init, last) := (Flat(buckets[..m]), Coins(buckets[m]));
    if i < m {
      BucketIsSlice(buckets[..m], w, i);
      SliceOfPrefix(init, last, Times(i, w), Times(i + 1, w));
    } else {
      FlatLength(buckets[..m], w);
      SliceOfSuffix(init, last);
    }
  }

  /** How many buckets come out: one per validator, but a single one if there is nothing to split. */
  function BucketCount(total: nat, n: nat): nat { if total > 0 then n else 1 }

  const NOBODY := Allocation(0, 0, 0, [])

  lemma AllBucketsFinished(c: Cut, n: nat, coins: seq<Coin>)
    requires n >= 1 && Cutting(c, NOBODY, |coins| / n, n, coins) && c.open == [] && |coins| > 0
    ensures |c.finished| == n - 1
  {
    var w := |coins| / n;
    FlatLength(c.finished, w);
    if |c.finished| < n - 1 {
      assert |coins| == Times(|c.finished|, w) + c.amount <= Times(|c.finished| + 1, w);
      TimesGrows(|c.finished| + 2, n, w);
      Division(|coins|, n);
    }
  }

  /** The outer loop, for a given weight. */
  method CutAll(allocs: seq<Allocation>, w: uint64, n: nat) returns (c: Cut)
    requires n >= 1 && |Coins(allocs)| < TWO_64
    ensures c.open == [] && Needed(c, Coins(allocs)) && Cutting(c, NOBODY, w, n, Coins(allocs))
  {
    c := Cut([], [], [], 0);
    for i := 0 to |allocs|
      invariant c.open == [] && Needed(c, Coins(allocs[..i])) && Cutting(c, NOBODY, w, n, Coins(allocs[..i]))
    {
      CoinsPrefix(allocs, i + 1);
      CoinsSnoc(allocs[..i], allocs[i]);
      assert allocs[..i + 1] == allocs[..i] + [allocs[i]];
      ChangeOwner(c, NOBODY, allocs[i], w, n, Coins(allocs[..i]));
      c := CutAllocation(c, allocs[i], w, n, Coins(allocs[..i]));
      ChangeOwner(c, allocs[i], NOBODY, w, n, Coins(allocs[..i + 1]));
    }
    assert allocs[..|allocs|] == allocs;
  }

  /** `splitAllocations`: no arithmetic leaves the 64-bit range, the coins of the buckets are
      the coins of the input in order, and each bucket holds its share. No validators is a
      division by zero. */
  method SplitAllocations(allocs: seq<Allocation>, n: nat) returns (r: Option<seq<seq<Allocation>>>)
    requires |Coins(allocs)| < TWO_64
    ensures r.None? <==> n == 0
    ensures r.Some? ==> Flat(r.value) == Coins(allocs) && |r.value| == BucketCount(|Coins(allocs)|, n)
    ensures r.Some? ==> forall i :: 0 <= i < |r.value| ==> NoInitial(r.value[i])
    ensures r.Some? ==> forall i :: 0 <= i < |r.value| ==> Coins(r.value[i]) == Share(Coins(allocs), n, i)
  {
    var total := TotalAmount(allocs);
    if n == 0 { return None; }
    WrapSmall(|Coins(allocs)|);
    var c := CutAll(allocs, total / n, n);
    r := Some(c.finished + [c.bucket]);
    CutIsShares(c, n, Coins(allocs));
  }

  /** The finished cut is the shares. */
  lemma CutIsShares(c: Cut, n: nat, coins: seq<Coin>)
    requires n >= 1 && c.open == [] && Needed(c, coins) && Cutting(c, NOBODY, |coins| / n, n, coins)
    ensures Flat(c.finished + [c.bucket]) == coins && |c.finished| + 1 == BucketCount(|coins|, n)
    ensures forall i :: 0 <= i <= |c.finished| ==> Coins((c.finished + [c.bucket])[i]) == Share(coins, n, i)
  {
    FlatSnoc(c.finished, c.bucket);
    if |coins| > 0 { AllBucketsFinished(c, n, coins); }
    forall i | 0 <= i <= |c.finished| ensures Coins((c.finished + [c.bucket])[i]) == Share(coins, n, i) {
      if i < |c.finished| { FinishedIsShare(c, n, coins, i); } else { LastIsShare(c, n, coins); }
    }
  }

  lemma FinishedIsShare(c: Cut, n: nat, coins: seq<Coin>, i: nat)
    requires n >= 1 && c.open == [] && Cutting(c, NOBODY, |coins| / n, n, coins) && i < |c.finished|
    ensures Coins(c.finished[i]) == Share(coins, n, i)
  {
    var w := |coins| / n;
    BucketIsSlice(c.finished, w, i);
    assert Flat(c.finished)[Times(i, w)..Times(i + 1, w)] == coins[Times(i, w)..Times(i + 1, w)];
  }

  lemma LastIsShare(c: Cut, n: nat, coins: seq<Coin>)
    requires n >= 1 && c.open == [] && Cutting(c, NOBODY, |coins| / n, n, coins)
    requires |c.finished| == n - 1 || coins == []
    ensures Coins(c.bucket) == Share(coins, n, |c.finished|)
  {
    FlatLength(c.finished, |coins| / n);
  }

  // ---------------------------------------------------------------------------
  // What each owner gets

  /** The money of this mark in one schedule, and in many allocations. */
  ghost function ScheduleHolds(a: Allocation, us: seq<LockedAmount>, c: Coin): nat {
    if us == [] then 0
    else
      var u := us[|us| - 1];
      ScheduleHolds(a, us[..|us| - 1], c) + if c == Coin(a.eth, a.addr, u.locktime) then u.amount else 0
  }

  ghost function AllocationsHold(allocs: seq<Allocation>, c: Coin): nat {
    if allocs == [] then 0
    else
      var a := allocs[|allocs| - 1];
      AllocationsHold(allocs[..|allocs| - 1], c) + ScheduleHolds(a, a.unlocks, c)
  }

  ghost function BucketsHold(buckets: seq<seq<Allocation>>, c: Coin): nat {
    if buckets == [] then 0
    else BucketsHold(buckets[..|buckets| - 1], c) + AllocationsHold(buckets[|buckets| - 1], c)
  }

  lemma {:induction false} CountCopies(n: nat, d: Coin, c: Coin)
    ensures multiset(Copies(n, d))[c] == if c == d then n else 0
  {
    if n > 0 {
      CountCopies(n - 1, d, c);
      assert Copies(n, d) == Copies(n - 1, d) + [d];
    }
  }

  lemma {:induction false} ScheduleIsCount(a: Allocation, us: seq<LockedAmount>, c: Coin)
    ensures ScheduleHolds(a, us, c) == multiset(UnlockCoins(a, us))[c]
  {
    if us != [] {
      var u := us[|us| - 1];
      ScheduleIsCount(a, us[..|us| - 1], c);
      CountCopies(u.amount, Coin(a.eth, a.addr, u.locktime), c);
    }
  }

  lemma {:induction false} AllocationsAreCount(allocs: seq<Allocation>, c: Coin)
    ensures AllocationsHold(allocs, c) == multiset(Coins(allocs))[c]
  {
    if allocs != [] {
      AllocationsAreCount(allocs[..|allocs| - 1], c);
      ScheduleIsCount(allocs[|allocs| - 1], allocs[|allocs| - 1].unlocks, c);
    }
  }

  /** Buckets whose coins are those of the input give every owner, at every time, what the
      input gives. */
  lemma OwnersKeepEverything(buckets: seq<seq<Allocation>>, allocs: seq<Allocation>, c: Coin)
    requires Flat(buckets) == Coins(allocs)
    ensures BucketsHold(buckets, c) == AllocationsHold(allocs, c)
  {
    BucketsAreCount(buckets, c);
    AllocationsAreCount(allocs, c);
  }

  lemma {:induction false} BucketsAreCount(buckets: seq<seq<Allocation>>, c: Coin)
    ensures BucketsHold(buckets, c) == multiset(Flat(buckets))[c]
  {
    if buckets != [] {
      BucketsAreCount(buckets[..|buckets| - 1], c);
      AllocationsAreCount(buckets[|buckets| - 1], c);
    }
  }
}
