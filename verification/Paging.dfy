/** Paginated lookup by traits: `getKeys` and `appendTraitKeys` (chains/atomic/state.go) over the
    linked lists of database/linkeddb. */
module Paging {
  import opened Common
  import opened AtomicState

  type Lists = map<Bytes, seq<Bytes>>

  /** One step of the iteration: a key met in the list of a trait. */
  datatype Visit = Visit(tag: Bytes, key: Bytes)

  /** `NewIteratorWithStart`: the list from the start key on, or all of it if the key is not listed.
      A missing start key is the empty key. */
  function From(list: seq<Bytes>, start: Bytes): seq<Bytes> {
    if start in list then Suffix(list, start) else list
  }

  function Suffix(list: seq<Bytes>, start: Bytes): (r: seq<Bytes>)
    requires start in list
    ensures 0 < |r| <= |list| && r == list[|list| - |r|..] && r[0] == start
    ensures start !in list[..|list| - |r|]
  {
    if list[0] == start then list
    else
      var r := Suffix(list[1..], start);
      assert list[..|list| - |r|] == [list[0]] + list[1..][..|list[1..]| - |r|];
      r
  }

  /** The keys visited in one trait's list: none if the trait lies before the start, from the
      start key if it is the start trait, and otherwise from no start key. */
  function Block(lists: Lists, tag: Bytes, startTrait: Bytes, startKey: Bytes): seq<Bytes> {
    if BytesLess(tag, startTrait) then []
    else From(Listed(lists, tag), if tag == startTrait then startKey else [])
  }

  function Mark(tag: Bytes, keys: seq<Bytes>): (r: seq<Visit>)
    ensures |r| == |keys| && forall i :: 0 <= i < |r| ==> r[i] == Visit(tag, keys[i])
  {
    seq(|keys|, i requires 0 <= i < |keys| => Visit(tag, keys[i]))
  }

  function Flat(blocks: seq<seq<Visit>>): seq<Visit> {
    if blocks == [] then [] else Flat(blocks[..|blocks| - 1]) + blocks[|blocks| - 1]
  }

  function Blocks(lists: Lists, traits: seq<Bytes>, startTrait: Bytes, startKey: Bytes): (r: seq<seq<Visit>>)
    ensures |r| == |traits|
    ensures forall i :: 0 <= i < |r| ==> r[i] == Mark(traits[i], Block(lists, traits[i], startTrait, startKey))
  {
    seq(|traits|, i requires 0 <= i < |traits| => Mark(traits[i], Block(lists, traits[i], startTrait, startKey)))
  }

  /** Every visit of an unlimited lookup, trait by trait. */
  function Visits(lists: Lists, traits: seq<Bytes>, startTrait: Bytes, startKey: Bytes): seq<Visit> {
    Flat(Blocks(lists, traits, startTrait, startKey))
  }

  /** The keys of the visits, each at its first occurrence. */
  function Distinct(visits: seq<Visit>): seq<Bytes> {
    if visits == [] then []
    else
      var before := Distinct(visits[..|visits| - 1]);
      var key := visits[|visits| - 1].key;
      if key in before then before else before + [key]
  }

  ghost predicate Visited(visits: seq<Visit>, key: Bytes) {
    exists i :: 0 <= i < |visits| && visits[i].key == key
  }

  lemma {:induction false} DistinctKeys(visits: seq<Visit>)
    ensures |Distinct(visits)| <= |visits| && NoDuplicates(Distinct(visits))
    ensures forall k :: k in Distinct(visits) <==> Visited(visits, k)
  {
    if visits != [] {
      var n := |visits| - 1;
      DistinctKeys(visits[..n]);
      forall k ensures Visited(visits, k) <==> Visited(visits[..n], k) || k == visits[n].key {
        if Visited(visits[..n], k) {
          var i :| 0 <= i < n && visits[..n][i].key == k;
          assert visits[i].key == k;
        }
        if Visited(visits, k) && k != visits[n].key {
          var i :| 0 <= i < |visits| && visits[i].key == k;
          assert visits[..n][i].key == k;
        }
      }
    }
  }

  lemma DistinctSnoc(visits: seq<Visit>, v: Visit)
    ensures Distinct(visits + [v]) ==
            if v.key in Distinct(visits) then Distinct(visits) else Distinct(visits) + [v.key]
  {
    assert (visits + [v])[..|visits + [v]| - 1] == visits;
  }

  /** The place of a key's first visit. */
  function FirstVisit(visits: seq<Visit>, key: Bytes): (p: nat)
    requires Visited(visits, key)
    ensures p < |visits| && visits[p].key == key
    ensures forall i :: 0 <= i < p ==> visits[i].key != key
  {
    if visits[0].key == key then 0
    else
      assert Visited(visits[1..], key) by {
        var i :| 0 <= i < |visits| && visits[i].key == key;
        assert visits[1..][i - 1] == visits[i];
      }
      1 + FirstVisit(visits[1..], key)
  }

  function Sorted(traits: seq<Bytes>): bool {
    forall i, j :: 0 <= i < j < |traits| ==> !BytesLess(traits[j], traits[i])
  }

  datatype Page = Page(keys: seq<Bytes>, lastTrait: Bytes, lastKey: Bytes)

  lemma {:induction false} DistinctExtends(visits: seq<Visit>, n: nat)
    requires n <= |visits|
    ensures Distinct(visits[..n]) <= Distinct(visits)
  {
    if n < |visits| {
      DistinctExtends(visits[..|visits| - 1], n);
      assert visits[..|visits| - 1][..n] == visits[..n];
    } else {
      assert visits[..n] == visits;
    }
  }

  /** One key of a list: taken if it is unseen. */
  method TakeKey(key: Bytes, keys: seq<Bytes>, keySet: set<Bytes>, limit: int, ghost tag: Bytes, ghost seen: seq<Visit>)
    returns (keys': seq<Bytes>, keySet': set<Bytes>, limit': int)
    requires keys == Distinct(seen) && (forall k :: k in keySet <==> k in keys) && limit > 0
    ensures keys' == Distinct(seen + [Visit(tag, key)]) && forall k :: k in keySet' <==> k in keys'
    ensures |keys'| + limit' == |keys| + limit && limit' >= 0
    ensures limit' == 0 ==> FilledBy(seen + [Visit(tag, key)], Visit(tag, key))
  {
    keys', keySet', limit' := keys, keySet, limit;
    DistinctSnoc(seen, Visit(tag, key));
    if key !in keySet {
      keySet', keys', limit' := keySet + {key}, keys + [key], limit - 1;
      assert (seen + [Visit(tag, key)])[..|seen|] == seen;
    }
  }

  /** The inner loop: walks one list, adding unseen keys until the limit is used up. `n` is the
      number of keys it meets, `seen` all visits so far. */
  method AppendTraitKeys(iter: seq<Bytes>, startKey: Bytes, keys: seq<Bytes>, keySet: set<Bytes>, limit: int,
                         ghost tag: Bytes, ghost before: seq<Visit>)
    returns (keys': seq<Bytes>, keySet': set<Bytes>, limit': int, lastKey: Bytes, n: nat, ghost seen: seq<Visit>)
    requires keys == Distinct(before) && forall k :: k in keySet <==> k in keys
    ensures n <= |iter| && (limit' > 0 ==> n == |iter|) && (limit <= 0 ==> n == 0)
    ensures seen == before + Mark(tag, iter)[..n]
    ensures keys' == Distinct(seen) && forall k :: k in keySet' <==> k in keys'
    ensures |keys'| + limit' == |keys| + limit && (limit >= 0 ==> limit' >= 0)
    ensures limit > 0 && limit' == 0 ==> FilledBy(seen, Visit(tag, lastKey))
    ensures limit' > 0 ==> lastKey == LastOr(iter, startKey)
  {
    keys', keySet', limit', lastKey := keys, keySet, limit, startKey;
    n, seen := 0, before;
    ghost var marks := Mark(tag, iter);
    while n < |iter| && limit' > 0
      invariant n <= |iter| && (limit <= 0 ==> n == 0)
      invariant seen == before + marks[..n]
      invariant keys' == Distinct(seen) && forall k :: k in keySet' <==> k in keys'
      invariant |keys'| + limit' == |keys| + limit && (limit >= 0 ==> limit' >= 0)
      invariant limit > 0 && limit' == 0 ==> FilledBy(seen, Visit(tag, lastKey))
      invariant lastKey == LastOr(iter[..n], startKey)
    {
      lastKey := iter[n];
      assert before + marks[..n + 1] == (before + marks[..n]) + [Visit(tag, lastKey)];
      keys', keySet', limit' := TakeKey(lastKey, keys', keySet', limit', tag, seen);
      n, seen := n + 1, seen + [Visit(tag, lastKey)];
    }
    assert iter[..|iter|] == iter;
  }

  function LastOr(list: seq<Bytes>, other: Bytes): Bytes { if list == [] then other else list[|list| - 1] }

  /** The last visit met a key that no earlier visit had met. */
  ghost predicate FilledBy(visits: seq<Visit>, last: Visit) {
    |visits| > 0 && visits[|visits| - 1] == last && last.key !in Distinct(visits[..|visits| - 1])
  }

  /** What a lookup that met `visits` may return: the distinct keys cut at the limit, and on a
      full page the place of the last of them. */
  ghost predicate IsPage(visits: seq<Visit>, limit: int, page: Page) {
    var all := Distinct(visits);
    if limit <= 0 then page.keys == []
    else if |all| < limit then page.keys == all
    else
      && page.keys == all[..limit]
      && Visited(visits, all[limit - 1])
      && Visit(page.lastTrait, page.lastKey) == visits[FirstVisit(visits, all[limit - 1])]
  }

  /** Stopping right after the visit that filled the page. */
  lemma StoppedWhenFull(visits: seq<Visit>, seen: seq<Visit>, page: Page)
    requires seen <= visits && FilledBy(seen, Visit(page.lastTrait, page.lastKey))
    requires page.keys == Distinct(seen)
    ensures IsPage(visits, |page.keys|, page)
  {
    var n := |seen| - 1;
    assert seen == seen[..n] + [seen[n]] && visits[..n + 1] == seen;
    DistinctSnoc(seen[..n], seen[n]);
    DistinctExtends(visits, n + 1);
    DistinctKeys(seen[..n]);
    assert Visited(visits, page.lastKey);
    assert forall i :: 0 <= i < n ==> seen[..n][i] == visits[i];
    assert forall i :: 0 <= i < n ==> visits[i].key != page.lastKey;
    assert FirstVisit(visits, page.lastKey) == n;
  }

  /** A walk that stops inside the i-th block has met a prefix of all visits. */
  lemma {:induction false} StoppedIsPrefix(blocks: seq<seq<Visit>>, i: nat, n: nat)
    requires i < |blocks| && n <= |blocks[i]|
    ensures Flat(blocks[..i]) + blocks[i][..n] <= Flat(blocks)
  {
    var m := |blocks| - 1;
    if i < m {
      assert blocks[..m][..i] == blocks[..i];
      StoppedIsPrefix(blocks[..m], i, n);
    }
  }

  function InsertTrait(traits: seq<Bytes>, x: Bytes): (r: seq<Bytes>)
    ensures multiset(r) == multiset(traits) + multiset{x}
  {
    if traits == [] || !BytesLess(traits[0], x) then
      assert multiset([x] + traits) == multiset{x} + multiset(traits);
      [x] + traits
    else
      assert traits == [traits[0]] + traits[1..];
      [traits[0]] + InsertTrait(traits[1..], x)
  }

  function SortTraits(traits: seq<Bytes>): (r: seq<Bytes>)
    ensures multiset(r) == multiset(traits)
  {
    if traits == [] then []
    else
      assert traits == [traits[0]] + traits[1..];
      InsertTrait(SortTraits(traits[1..]), traits[0])
  }

  lemma {:induction false} InsertKeepsSorted(traits: seq<Bytes>, x: Bytes)
    requires Sorted(traits)
    ensures Sorted(InsertTrait(traits, x))
  {
    var r := InsertTrait(traits, x);
    if traits == [] {
    } else if !BytesLess(traits[0], x) {
      forall j | 0 <= j < |traits| ensures !BytesLess(traits[j], x) {
        BytesLessTotal(traits[0], traits[j]);
        if BytesLess(traits[j], x) && BytesLess(traits[0], traits[j]) { BytesLessTransitive(traits[0], traits[j], x); }
      }
    } else {
      InsertKeepsSorted(traits[1..], x);
      var rest := InsertTrait(traits[1..], x);
      forall j | 0 <= j < |rest| ensures !BytesLess(rest[j], traits[0]) {
        assert rest[j] in multiset(rest);
        if rest[j] == x {
          if BytesLess(x, traits[0]) { BytesLessTransitive(x, traits[0], x); BytesLessIrreflexive(x); }
        }
      }
    }
  }

  lemma {:induction false} SortedTraits(traits: seq<Bytes>)
    ensures Sorted(SortTraits(traits))
    ensures forall t :: t in SortTraits(traits) <==> t in traits
  {
    if traits != [] {
      SortedTraits(traits[1..]);
      InsertKeepsSorted(SortTraits(traits[1..]), traits[0]);
    }
    forall t ensures t in SortTraits(traits) <==> t in traits {
      assert t in SortTraits(traits) <==> t in multiset(SortTraits(traits));
      assert t in traits <==> t in multiset(traits);
    }
  }

  lemma AboveStaysAbove(sorted: seq<Bytes>, i: nat, startTrait: Bytes)
    requires Sorted(sorted) && i < |sorted| && BytesLess(startTrait, sorted[i])
    ensures forall j :: i <= j < |sorted| ==> BytesLess(startTrait, sorted[j])
  {
    forall j | i < j < |sorted| ensures BytesLess(startTrait, sorted[j]) {
      BytesLessTotal(sorted[i], sorted[j]);
      if BytesLess(sorted[i], sorted[j]) { BytesLessTransitive(startTrait, sorted[i], sorted[j]); }
    }
  }

  lemma BelowStaysBelow(sorted: seq<Bytes>, i: nat, startTrait: Bytes)
    requires Sorted(sorted) && 0 < i < |sorted| && BytesLess(sorted[i], startTrait)
    ensures BytesLess(sorted[i - 1], startTrait)
  {
    BytesLessTotal(sorted[i - 1], sorted[i]);
    if BytesLess(sorted[i - 1], sorted[i]) { BytesLessTransitive(sorted[i - 1], sorted[i], startTrait); }
  }

  method GetKeys(lists: Lists, traits: seq<Bytes>, startTrait: Bytes, startKey: Bytes, limit: int) returns (page: Page)
    ensures IsPage(Visits(lists, SortTraits(traits), startTrait, startKey), limit, page)
    ensures |page.keys| < limit ==> forall k :: k in page.keys <==> Wanted(lists, traits, startTrait, startKey, k)
    ensures |page.keys| < limit ==> ShortCursor(lists, traits, startTrait, startKey, page)
  {
    var sorted := SortTraits(traits);
    SortedTraits(traits);
    page := WalkTraits(lists, sorted, startTrait, startKey, limit);
    if |page.keys| < limit { CursorOfShortPage(lists, traits, startTrait, startKey, page); }
    forall k | |page.keys| < limit ensures k in page.keys <==> Wanted(lists, traits, startTrait, startKey, k) {
      StartedPage(lists, traits, startTrait, startKey, limit, page, k);
    }
  }

  /** The start key is dropped once a trait beyond the start trait has come up. */
  ghost predicate StartFits(sorted: seq<Bytes>, i: nat, startTrait: Bytes, startKey: Bytes, start: Bytes) {
    start == startKey || (start == [] && forall j :: i <= j < |sorted| ==> BytesLess(startTrait, sorted[j]))
  }

  /** The comparison of a trait with the start trait. */
  method StartFor(sorted: seq<Bytes>, i: nat, startTrait: Bytes, startKey: Bytes, start: Bytes)
    returns (skip: bool, start': Bytes)
    requires Sorted(sorted) && i < |sorted| && StartFits(sorted, i, startTrait, startKey, start)
    ensures skip <==> BytesLess(sorted[i], startTrait)
    ensures !skip ==> start' == if sorted[i] == startTrait then startKey else []
    ensures StartFits(sorted, i + 1, startTrait, startKey, start')
  {
    BytesLessTotal(sorted[i], startTrait);
    BytesLessIrreflexive(startTrait);
    skip, start' := BytesLess(sorted[i], startTrait), start;
    if !skip && BytesLess(startTrait, sorted[i]) {
      start' := [];
      AboveStaysAbove(sorted, i, startTrait);
    }
  }

  /** The variables of the walk over the traits. */
  datatype Walk = Walk(keys: seq<Bytes>, keySet: set<Bytes>, left: int, lastTrait: Bytes, lastKey: Bytes, start: Bytes)

  /** Before the i-th trait: everything earlier has been met and the limit is not used up. */
  ghost predicate Walking(w: Walk, limit: int, blocks: seq<seq<Visit>>, i: nat) {
    && i <= |blocks|
    && (forall k :: k in w.keySet <==> k in w.keys)
    && |w.keys| + w.left == limit
    && (if limit > 0 then w.left > 0 && w.keys == Distinct(Flat(blocks[..i])) else w.keys == [])
  }

  lemma LastWalked(list: seq<Bytes>, start: Bytes)
    ensures LastOr(From(list, start), start) == LastOr(list, start)
  {}

  /** One round of the outer loop; `stop` is its `break`. */
  method VisitTrait(lists: Lists, tag: Bytes, start: Bytes, w: Walk, limit: int, ghost blocks: seq<seq<Visit>>, ghost i: nat)
    returns (w': Walk, stop: bool)
    requires Walking(w, limit, blocks, i) && i < |blocks| && blocks[i] == Mark(tag, From(Listed(lists, tag), start))
    ensures w'.start == start
    ensures stop ==> IsPage(Flat(blocks), limit, Page(w'.keys, w'.lastTrait, w'.lastKey))
    ensures !stop ==> Walking(w', limit, blocks, i + 1)
    ensures stop && limit > 0 ==> |w'.keys| == limit
    ensures !stop && limit > 0 ==> w'.lastTrait == tag && w'.lastKey == LastOr(Listed(lists, tag), start)
  {
    ghost var before := if limit > 0 then Flat(blocks[..i]) else [];
    var keys, keySet, left, lastKey, n;
    ghost var seen;
    keys, keySet, left, lastKey, n, seen :=
      AppendTraitKeys(From(Listed(lists, tag), start), start, w.keys, w.keySet, w.left, tag, before);
    w' := Walk(keys, keySet, left, tag, lastKey, start);
    stop := left == 0;
    LastWalked(Listed(lists, tag), start);
    if stop && limit > 0 {
      StoppedIsPrefix(blocks, i, n);
      StoppedWhenFull(Flat(blocks), seen, Page(keys, tag, lastKey));
    } else {
      assert blocks[..i + 1][..i] == blocks[..i] && blocks[i][..|blocks[i]|] == blocks[i];
    }
  }

  /** Where the walk over the first `i` sorted traits is: at the last key of the last list, or where that
      list starts if it is empty; at the start if all these traits are below the start trait. */
  ghost predicate EndsAt(lists: Lists, sorted: seq<Bytes>, i: nat, startTrait: Bytes, startKey: Bytes, lastTrait: Bytes, lastKey: Bytes)
    requires i <= |sorted|
  {
    if i == 0 || BytesLess(sorted[i - 1], startTrait) then lastTrait == startTrait && lastKey == startKey
    else lastTrait == sorted[i - 1] && lastKey == LastOr(Listed(lists, lastTrait), if lastTrait == startTrait then startKey else [])
  }

  /** The outer loop, over the sorted traits. */
  method WalkTraits(lists: Lists, sorted: seq<Bytes>, startTrait: Bytes, startKey: Bytes, limit: int) returns (page: Page)
    requires Sorted(sorted)
    ensures IsPage(Visits(lists, sorted, startTrait, startKey), limit, page)
    ensures 0 <= |page.keys| < limit ==> EndsAt(lists, sorted, |sorted|, startTrait, startKey, page.lastTrait, page.lastKey)
  {
    ghost var blocks := Blocks(lists, sorted, startTrait, startKey);
    var w := Walk([], {}, limit, startTrait, startKey, startKey);
    for i := 0 to |sorted|
      invariant Walking(w, limit, blocks, i)
      invariant StartFits(sorted, i, startTrait, startKey, w.start)
      invariant limit > 0 ==> EndsAt(lists, sorted, i, startTrait, startKey, w.lastTrait, w.lastKey)
    {
      var skip, start := StartFor(sorted, i, startTrait, startKey, w.start);
      if skip {
        assert blocks[..i + 1][..i] == blocks[..i] && blocks[i] == [];
        assert Flat(blocks[..i + 1]) == Flat(blocks[..i]);
        if i > 0 { BelowStaysBelow(sorted, i, startTrait); }
      } else {
        var stop;
        w, stop := VisitTrait(lists, sorted[i], start, w, limit, blocks, i);
        if stop { return Page(w.keys, w.lastTrait, w.lastKey); }
      }
      w := w.(start := start);
    }
    assert blocks[..|sorted|] == blocks;
    return Page(w.keys, w.lastTrait, w.lastKey);
  }

  // ---------------------------------------------------------------------------
  // What one page holds

  /** A page never exceeds its limit, repeats no key and holds only keys that were met; a page
      below its limit holds all of them. */
  lemma PageIsSound(visits: seq<Visit>, limit: int, page: Page)
    requires IsPage(visits, limit, page)
    ensures |page.keys| <= if limit <= 0 then 0 else limit
    ensures NoDuplicates(page.keys)
    ensures forall k :: k in page.keys ==> Visited(visits, k)
    ensures |page.keys| < limit ==> forall k :: Visited(visits, k) ==> k in page.keys
  {
    DistinctKeys(visits);
    var all := Distinct(visits);
    if 0 < limit <= |all| { assert forall k :: k in all[..limit] ==> k in all; }
  }

  lemma {:induction false} FlatAt(blocks: seq<seq<Visit>>, p: nat) returns (i: nat, j: nat)
    requires p < |Flat(blocks)|
    ensures i < |blocks| && j < |blocks[i]| && p == |Flat(blocks[..i])| + j
    ensures Flat(blocks)[p] == blocks[i][j]
  {
    var m := |blocks| - 1;
    if p >= |Flat(blocks[..m])| {
      i, j := m, p - |Flat(blocks[..m])|;
    } else {
      i, j := FlatAt(blocks[..m], p);
      assert blocks[..m][..i] == blocks[..i];
    }
  }

  lemma FlatHas(blocks: seq<seq<Visit>>, i: nat, j: nat)
    requires i < |blocks| && j < |blocks[i]|
    ensures |Flat(blocks[..i])| + j < |Flat(blocks)| && Flat(blocks)[|Flat(blocks[..i])| + j] == blocks[i][j]
  {
    StoppedIsPrefix(blocks, i, j + 1);
    assert (Flat(blocks[..i]) + blocks[i][..j + 1])[|Flat(blocks[..i])| + j] == blocks[i][j];
  }

  /** A key is met exactly when it is in the part walked of some requested trait's list. */
  lemma VisitedWhere(lists: Lists, traits: seq<Bytes>, startTrait: Bytes, startKey: Bytes, k: Bytes)
    ensures Visited(Visits(lists, traits, startTrait, startKey), k) <==>
            exists i :: 0 <= i < |traits| && k in Block(lists, traits[i], startTrait, startKey)
  {
    var blocks := Blocks(lists, traits, startTrait, startKey);
    var visits := Flat(blocks);
    if Visited(visits, k) {
      var p :| 0 <= p < |visits| && visits[p].key == k;
      var i, j := FlatAt(blocks, p);
      assert Block(lists, traits[i], startTrait, startKey)[j] == k;
    }
    if i :| 0 <= i < |traits| && k in Block(lists, traits[i], startTrait, startKey) {
      var j :| 0 <= j < |Block(lists, traits[i], startTrait, startKey)| && Block(lists, traits[i], startTrait, startKey)[j] == k;
      FlatHas(blocks, i, j);
    }
  }

  lemma BlockIsListed(lists: Lists, tag: Bytes, startTrait: Bytes, startKey: Bytes, k: Bytes)
    requires k in Block(lists, tag, startTrait, startKey)
    ensures k in Listed(lists, tag)
  {}

  lemma VisitedCarries(s: Store, traits: seq<Bytes>, startTrait: Bytes, startKey: Bytes, k: Bytes) returns (t: Bytes)
    requires IndexExact(s) && Visited(Visits(s.lists, traits, startTrait, startKey), k)
    ensures t in traits && Carries(s, k, t)
  {
    VisitedWhere(s.lists, traits, startTrait, startKey, k);
    var i :| 0 <= i < |traits| && k in Block(s.lists, traits[i], startTrait, startKey);
    t := traits[i];
    BlockIsListed(s.lists, t, startTrait, startKey, k);
  }

  /** Every key on a page possesses one of the requested traits. */
  lemma PageKeysCarryTraits(s: Store, traits: seq<Bytes>, startTrait: Bytes, startKey: Bytes, limit: int, page: Page, k: Bytes)
    requires IndexExact(s) && IsPage(Visits(s.lists, SortTraits(traits), startTrait, startKey), limit, page) && k in page.keys
    ensures exists t :: t in traits && Carries(s, k, t)
  {
    var sorted := SortTraits(traits);
    SortedTraits(traits);
    PageIsSound(Visits(s.lists, sorted, startTrait, startKey), limit, page);
    var t := VisitedCarries(s, sorted, startTrait, startKey, k);
  }

  // ---------------------------------------------------------------------------
  // Where a started lookup looks

  /** The key stands in the list, and not before the start key if that one is listed. */
  ghost predicate StandsFrom(list: seq<Bytes>, start: Bytes, k: Bytes) {
    exists j :: 0 <= j < |list| && list[j] == k && (start in list ==> start in list[..j + 1])
  }

  /** A requested trait that is not below the start trait lists the key from the start on; only the
      start trait has a start key, any other starts at the empty key. */
  ghost predicate Wanted(lists: Lists, traits: seq<Bytes>, startTrait: Bytes, startKey: Bytes, k: Bytes) {
    exists t :: t in traits && !BytesLess(t, startTrait) && StandsFrom(Listed(lists, t), if t == startTrait then startKey else [], k)
  }

  /** The start key first stands at `at`. */
  lemma StartAtOrBefore(list: seq<Bytes>, start: Bytes, at: nat, j: nat)
    requires at < |list| && j < |list| && list[at] == start && start !in list[..at]
    ensures start in list[..j + 1] <==> at <= j
  {
    if at <= j {
      assert list[..j + 1][at] == start;
    } else {
      assert list[..j + 1] <= list[..at];
    }
  }

  lemma StandsInRest(list: seq<Bytes>, start: Bytes, at: nat, k: Bytes)
    requires at < |list| && list[at] == start && start !in list[..at]
    ensures k in list[at..] <==> StandsFrom(list, start, k)
  {
    if k in list[at..] {
      var i :| 0 <= i < |list[at..]| && list[at..][i] == k;
      StartAtOrBefore(list, start, at, at + i);
      assert list[at + i] == k;
    }
    if StandsFrom(list, start, k) {
      var j :| 0 <= j < |list| && list[j] == k && (start in list ==> start in list[..j + 1]);
      StartAtOrBefore(list, start, at, j);
      assert list[at..][j - at] == k;
    }
  }

  lemma WalkedFrom(list: seq<Bytes>, start: Bytes, k: Bytes)
    ensures k in From(list, start) <==> StandsFrom(list, start, k)
  {
    if start in list {
      var at := |list| - |Suffix(list, start)|;
      assert list[at] == Suffix(list, start)[0];
      StandsInRest(list, start, at, k);
    }
  }

  /** A lookup with any start meets exactly the keys that stand from its start on. */
  lemma VisitedIffWanted(lists: Lists, traits: seq<Bytes>, startTrait: Bytes, startKey: Bytes, k: Bytes)
    ensures Visited(Visits(lists, SortTraits(traits), startTrait, startKey), k) <==> Wanted(lists, traits, startTrait, startKey, k)
  {
    var sorted := SortTraits(traits);
    SortedTraits(traits);
    VisitedWhere(lists, sorted, startTrait, startKey, k);
    forall t ensures k in Block(lists, t, startTrait, startKey) <==>
        !BytesLess(t, startTrait) && StandsFrom(Listed(lists, t), if t == startTrait then startKey else [], k)
    {
      WalkedFrom(Listed(lists, t), if t == startTrait then startKey else [], k);
    }
    if t :| t in traits && k in Block(lists, t, startTrait, startKey) {
      var i :| 0 <= i < |sorted| && sorted[i] == t;
    }
  }

  /** So a page holds only such keys, and below its limit all of them. */
  lemma StartedPage(lists: Lists, traits: seq<Bytes>, startTrait: Bytes, startKey: Bytes, limit: int, page: Page, k: Bytes)
    requires IsPage(Visits(lists, SortTraits(traits), startTrait, startKey), limit, page)
    ensures k in page.keys ==> Wanted(lists, traits, startTrait, startKey, k)
    ensures |page.keys| < limit ==> (k in page.keys <==> Wanted(lists, traits, startTrait, startKey, k))
  {
    PageIsSound(Visits(lists, SortTraits(traits), startTrait, startKey), limit, page);
    VisitedIffWanted(lists, traits, startTrait, startKey, k);
  }

  /** The cursor of a short page: the greatest requested trait not below the start trait with the last
      key it lists, or its start key if it lists none; the start itself if there is no such trait. */
  ghost predicate ShortCursor(lists: Lists, traits: seq<Bytes>, startTrait: Bytes, startKey: Bytes, page: Page) {
    if forall t :: t in traits ==> BytesLess(t, startTrait) then page.lastTrait == startTrait && page.lastKey == startKey
    else
      && page.lastTrait in traits && !BytesLess(page.lastTrait, startTrait)
      && (forall t :: t in traits ==> !BytesLess(page.lastTrait, t))
      && page.lastKey == LastOr(Listed(lists, page.lastTrait), if page.lastTrait == startTrait then startKey else [])
  }

  lemma CursorOfShortPage(lists: Lists, traits: seq<Bytes>, startTrait: Bytes, startKey: Bytes, page: Page)
    requires var sorted := SortTraits(traits); EndsAt(lists, sorted, |sorted|, startTrait, startKey, page.lastTrait, page.lastKey)
    ensures ShortCursor(lists, traits, startTrait, startKey, page)
  {
    var sorted := SortTraits(traits);
    SortedTraits(traits);
    if sorted != [] {
      var n := |sorted| - 1;
      assert sorted[n] in sorted;
      forall t | t in traits ensures !BytesLess(sorted[n], t) {
        var j :| 0 <= j < |sorted| && sorted[j] == t;
        if j == n { BytesLessIrreflexive(t); }
      }
      if BytesLess(sorted[n], startTrait) {
        forall t | t in traits ensures BytesLess(t, startTrait) {
          BytesLessTotal(t, sorted[n]);
          if t != sorted[n] { BytesLessTransitive(t, sorted[n], startTrait); }
        }
      }
    } else {
      assert forall t :: t in traits ==> t in sorted;
    }
  }

  /** A visit's key has its place among the distinct keys at the end of those met before, or earlier. */
  lemma DistinctPlace(visits: seq<Visit>, p: nat) returns (c: nat)
    requires p < |visits|
    ensures c < |Distinct(visits)| && Distinct(visits)[c] == visits[p].key
    ensures c <= |Distinct(visits[..p])| && Distinct(visits[..p]) <= Distinct(visits)
  {
    var (upTo, before) := (visits[..p + 1], visits[..p]);
    DistinctExtends(visits, p);
    DistinctExtends(visits, p + 1);
    DistinctSnoc(before, visits[p]);
    assert upTo == before + [visits[p]];
    if visits[p].key in Distinct(before) {
      c :| 0 <= c < |Distinct(before)| && Distinct(before)[c] == visits[p].key;
    } else {
      c := |Distinct(before)|;
      assert Distinct(upTo)[c] == visits[p].key;
    }
  }

  lemma DistinctInOrder(visits: seq<Visit>, a: nat, p: nat)
    requires a < |Distinct(visits)| && p < |visits| && visits[p].key !in Distinct(visits)[..a + 1]
    ensures MetBefore(visits, p, Distinct(visits)[a])
  {
    forall d | 0 <= d <= a ensures Distinct(visits)[d] != visits[p].key {
      assert Distinct(visits)[..a + 1][d] == Distinct(visits)[d];
    }
    var c := DistinctPlace(visits, p);
    MetAmong(visits, p, Distinct(visits)[a]);
  }

  lemma MetAmong(visits: seq<Visit>, p: nat, key: Bytes)
    requires p <= |visits| && key in Distinct(visits[..p])
    ensures MetBefore(visits, p, key)
  {
    DistinctKeys(visits[..p]);
    var q :| 0 <= q < p && visits[..p][q].key == key;
    assert visits[q].key == key;
  }

  /** A page holds its keys in the order in which they are met: what is met under another key, on
      a later place of the page or not on it at all, comes after them. */
  lemma PageInOrder(visits: seq<Visit>, limit: int, page: Page, a: nat, p: nat)
    requires IsPage(visits, limit, page) && a < |page.keys| && p < |visits| && visits[p].key !in page.keys[..a + 1]
    ensures MetBefore(visits, p, page.keys[a])
  {
    assert page.keys[..a + 1] == Distinct(visits)[..a + 1];
    DistinctInOrder(visits, a, p);
  }

  // ---------------------------------------------------------------------------
  // The empty key as a start key

  /** Before the empty key in a list that has one. */
  ghost predicate Hidden(list: seq<Bytes>, k: Bytes) {
    [] in list && k !in Suffix(list, [])
  }

  /** An unstarted page below its limit is the full union of the requested lists - except for
      keys that lie before the empty key in every requested list that has them. */
  lemma UnstartedShortPage(lists: Lists, traits: seq<Bytes>, limit: int, page: Page, k: Bytes)
    requires IsPage(Visits(lists, SortTraits(traits), [], []), limit, page) && |page.keys| < limit
    ensures k in page.keys <==> exists t :: t in traits && k in Listed(lists, t) && !Hidden(Listed(lists, t), k)
  {
    var sorted := SortTraits(traits);
    SortedTraits(traits);
    PageIsSound(Visits(lists, sorted, [], []), limit, page);
    VisitedWhere(lists, sorted, [], [], k);
    forall t ensures k in Block(lists, t, [], []) <==> k in Listed(lists, t) && !Hidden(Listed(lists, t), k) {}
    if t :| t in traits && k in Listed(lists, t) && !Hidden(Listed(lists, t), k) {
      var i :| 0 <= i < |sorted| && sorted[i] == t;
    }
  }

  /** A lookup of one trait misses nothing exactly when the empty key does not carry the trait
      or is its newest key. */
  lemma OneTraitComplete(list: seq<Bytes>)
    requires NoDuplicates(list)
    ensures From(list, []) == list <==> [] !in list || list[0] == []
  {}

  lemma OneTraitLists(lists: Lists, tag: Bytes, key: Bytes)
    ensures AddKey(lists, [tag], key) == lists[tag := LinkPut(Listed(lists, tag), key)]
  {
    assert [tag][..0] == [];
    assert AddKey(lists, [], key) == lists;
  }

  lemma TwoPutsStore(tag: Bytes, k: Bytes, ops: seq<Op>)
    requires k != [] && ops == [PutOp(Element([], [], [tag])), PutOp(Element(k, [], [tag]))]
    ensures var s := After(EmptyStore, ops);
            Carries(s, k, tag) && Listed(s.lists, tag) == [k, []]
  {
    assert ops[..1][..0] == [] && ops[..1][0] == ops[0];
    var s1 := After(EmptyStore, ops[..1]);
    assert After(EmptyStore, []) == EmptyStore;
    var e := ops[0].e;
    assert s1 == Put(EmptyStore, e).value;
    OneTraitLists(EmptyStore.lists, tag, e.key);
    assert LinkPut([], e.key) == [e.key];
    assert s1.lists == map[tag := [e.key]] && s1.values.Keys == {e.key};
    OneTraitLists(s1.lists, tag, k);
    assert After(EmptyStore, ops) == Put(s1, ops[1].e).value;
  }

  lemma OneVisit(blocks: seq<seq<Visit>>, v: Visit)
    requires |blocks| == 1 && blocks[0] == [v]
    ensures Flat(blocks) == [v] && Distinct(Flat(blocks)) == [v.key]
  {
    assert Flat(blocks[..0]) == [];
    assert Flat(blocks)[..0] == [];
    assert Distinct(Flat(blocks)[..0]) == [];
  }

  lemma WalkFromEmptyKey(list: seq<Bytes>, k: Bytes)
    requires k != [] && list == [k, []]
    ensures From(list, []) == [[]]
  {
    assert list[1] == [];
    assert |Suffix(list, [])| == 1;
  }

  /** Put an element with the empty key and then any other with the same trait: a lookup of the
      trait with room for both finds only the first. */
  lemma EmptyKeyHidesNewerKeys(tag: Bytes, k: Bytes, ops: seq<Op>, limit: int, page: Page)
    requires k != [] && ops == [PutOp(Element([], [], [tag])), PutOp(Element(k, [], [tag]))] && limit >= 2
    requires IsPage(Visits(After(EmptyStore, ops).lists, [tag], [], []), limit, page)
    ensures Carries(After(EmptyStore, ops), k, tag) && page.keys == [[]]
  {
    TwoPutsStore(tag, k, ops);
    var lists := After(EmptyStore, ops).lists;
    WalkFromEmptyKey(Listed(lists, tag), k);
    var blocks := Blocks(lists, [tag], [], []);
    assert Block(lists, tag, [], []) == [[]];
    assert blocks[0] == Mark(tag, [[]]);
    OneVisit(blocks, Visit(tag, []));
  }

  // ---------------------------------------------------------------------------
  // Page after page

  ghost predicate ListsDistinct(lists: Lists) {
    forall tag :: NoDuplicates(Listed(lists, tag))
  }

  /** Restarting at a key of a walked list walks the rest of it. */
  lemma RestartInList(list: seq<Bytes>, start: Bytes, j: nat)
    requires NoDuplicates(list) && j < |From(list, start)|
    ensures From(list, From(list, start)[j]) == From(list, start)[j..]
  {
    var walked := From(list, start);
    var k := walked[j];
    var at := |list| - |walked| + j;
    assert list[at] == k;
    var rest := Suffix(list, k);
    assert list[|list| - |rest|] == k;
  }

  /** How a block changes when the lookup restarts at the j-th key of trait `from`. */
  lemma RestartBlock(lists: Lists, tag: Bytes, from: Bytes, startTrait: Bytes, startKey: Bytes, j: nat)
    requires ListsDistinct(lists) && j < |Block(lists, from, startTrait, startKey)|
    ensures var old_ := Block(lists, tag, startTrait, startKey);
            var new_ := Block(lists, tag, from, Block(lists, from, startTrait, startKey)[j]);
            new_ == if BytesLess(tag, from) then [] else if tag == from then old_[j..] else old_
  {
    BytesLessTotal(tag, from);
    BytesLessTotal(from, startTrait);
    BytesLessIrreflexive(from);
    if tag == from {
      RestartInList(Listed(lists, from), if from == startTrait then startKey else [], j);
    } else if BytesLess(from, tag) {
      if BytesLess(tag, startTrait) { BytesLessTransitive(from, tag, startTrait); }
      if BytesLess(tag, from) { BytesLessTransitive(from, tag, from); }
      if from != startTrait { BytesLessTransitive(startTrait, from, tag); }
      BytesLessIrreflexive(tag);
    }
  }

  /** The blocks of a lookup restarted at place j of the i-th block. */
  ghost predicate Restarted(traits: seq<Bytes>, i: nat, j: nat, blocks: seq<seq<Visit>>, blocks': seq<seq<Visit>>) {
    && |traits| == |blocks| == |blocks'| && i < |traits| && j < |blocks[i]|
    && (forall a :: 0 <= a < |traits| ==>
          && (traits[a] == traits[i] ==> |blocks[a]| == |blocks[i]|)
          && blocks'[a] == if BytesLess(traits[a], traits[i]) then [] else if traits[a] == traits[i] then blocks[a][j..] else blocks[a])
    && (forall a, b :: 0 <= a < |traits| && traits[a] == traits[i] && 0 <= b < |blocks[a]| ==> blocks[a][b] == blocks[i][b])
  }

  lemma MarkTail(tag: Bytes, keys: seq<Bytes>, j: nat)
    requires j <= |keys|
    ensures Mark(tag, keys[j..]) == Mark(tag, keys)[j..]
  {}

  lemma RestartBlocks(lists: Lists, traits: seq<Bytes>, startTrait: Bytes, startKey: Bytes, p: nat)
    returns (i: nat, j: nat)
    requires ListsDistinct(lists) && p < |Visits(lists, traits, startTrait, startKey)|
    ensures var blocks := Blocks(lists, traits, startTrait, startKey);
            var v := Flat(blocks)[p];
            && Restarted(traits, i, j, blocks, Blocks(lists, traits, v.tag, v.key))
            && p == |Flat(blocks[..i])| + j && v == blocks[i][j]
  {
    var blocks := Blocks(lists, traits, startTrait, startKey);
    i, j := FlatAt(blocks, p);
    var v := Flat(blocks)[p];
    var blocks' := Blocks(lists, traits, v.tag, v.key);
    forall a | 0 <= a < |traits|
      ensures blocks'[a] ==
        if BytesLess(traits[a], traits[i]) then [] else if traits[a] == traits[i] then blocks[a][j..] else blocks[a]
    {
      RestartBlock(lists, traits[a], traits[i], startTrait, startKey, j);
      if traits[a] == traits[i] { MarkTail(traits[a], Block(lists, traits[a], startTrait, startKey), j); }
    }
  }

  ghost predicate MetBefore(visits: seq<Visit>, p: nat, k: Bytes) {
    exists q :: 0 <= q < p && q < |visits| && visits[q].key == k
  }

  lemma LaterIsMetAgain(traits: seq<Bytes>, i: nat, j: nat, blocks: seq<seq<Visit>>, blocks': seq<seq<Visit>>, a: nat, b: nat)
    requires Sorted(traits) && Restarted(traits, i, j, blocks, blocks')
    requires i <= a < |traits| && b < |blocks[a]| && (traits[a] == traits[i] ==> j <= b)
    ensures Visited(Flat(blocks'), blocks[a][b].key)
  {
    BytesLessIrreflexive(traits[i]);
    assert !BytesLess(traits[a], traits[i]);
    FlatHas(blocks', a, if traits[a] == traits[i] then b - j else b);
  }

  /** Whatever a lookup meets, it meets before a given place or again after a restart there. */
  lemma EarlierIsMet(i: nat, j: nat, blocks: seq<seq<Visit>>, a: nat, b: nat)
    requires i < |blocks| && j < |blocks[i]| && a < |blocks| && b < |blocks[a]|
    requires a < i || (b < j && blocks[a][b] == blocks[i][b])
    ensures MetBefore(Flat(blocks), |Flat(blocks[..i])| + j, blocks[a][b].key)
  {
    if a < i {
      EarlierBlock(blocks, a, b, i);
      FlatHas(blocks, a, b);
    } else {
      FlatHas(blocks, i, b);
    }
  }

  lemma VisitIsMet(traits: seq<Bytes>, i: nat, j: nat, blocks: seq<seq<Visit>>, blocks': seq<seq<Visit>>, a: nat, b: nat)
    requires Sorted(traits) && Restarted(traits, i, j, blocks, blocks') && a < |blocks| && b < |blocks[a]|
    ensures MetBefore(Flat(blocks), |Flat(blocks[..i])| + j, blocks[a][b].key) || Visited(Flat(blocks'), blocks[a][b].key)
  {
    if a < i || (traits[a] == traits[i] && b < j) {
      EarlierIsMet(i, j, blocks, a, b);
    } else {
      LaterIsMetAgain(traits, i, j, blocks, blocks', a, b);
    }
  }

  lemma NothingSkipped(traits: seq<Bytes>, i: nat, j: nat, blocks: seq<seq<Visit>>, blocks': seq<seq<Visit>>, k: Bytes)
    requires Sorted(traits) && Restarted(traits, i, j, blocks, blocks') && Visited(Flat(blocks), k)
    ensures MetBefore(Flat(blocks), |Flat(blocks[..i])| + j, k) || Visited(Flat(blocks'), k)
  {
    var q :| 0 <= q < |Flat(blocks)| && Flat(blocks)[q].key == k;
    var a, b := FlatAt(blocks, q);
    VisitIsMet(traits, i, j, blocks, blocks', a, b);
  }

  lemma EarlierBlock(blocks: seq<seq<Visit>>, a: nat, b: nat, i: nat)
    requires a < i < |blocks| && b < |blocks[a]|
    ensures |Flat(blocks[..a])| + b < |Flat(blocks[..i])|
  {
    assert blocks[..i][..a] == blocks[..a];
    FlatHas(blocks[..i], a, b);
  }

  lemma NothingNew(traits: seq<Bytes>, i: nat, j: nat, blocks: seq<seq<Visit>>, blocks': seq<seq<Visit>>, k: Bytes)
    requires Restarted(traits, i, j, blocks, blocks') && Visited(Flat(blocks'), k)
    ensures Visited(Flat(blocks), k)
  {
    var q :| 0 <= q < |Flat(blocks')| && Flat(blocks')[q].key == k;
    var a, b := FlatAt(blocks', q);
    if traits[a] == traits[i] { FlatHas(blocks, a, b + j); } else { FlatHas(blocks, a, b); }
  }

  lemma {:induction false} ShorterBlocks(blocks: seq<seq<Visit>>, blocks': seq<seq<Visit>>)
    requires |blocks| == |blocks'| && forall a :: 0 <= a < |blocks| ==> |blocks'[a]| <= |blocks[a]|
    ensures |Flat(blocks')| <= |Flat(blocks)|
    ensures (exists a :: 0 <= a < |blocks| && |blocks'[a]| < |blocks[a]|) ==> |Flat(blocks')| < |Flat(blocks)|
  {
    if blocks != [] { ShorterBlocks(blocks[..|blocks| - 1], blocks'[..|blocks| - 1]); }
  }

  /** A restart at a later, newly met key has fewer visits to go. */
  lemma RestartAdvances(traits: seq<Bytes>, i: nat, j: nat, blocks: seq<seq<Visit>>, blocks': seq<seq<Visit>>)
    requires Sorted(traits) && Restarted(traits, i, j, blocks, blocks') && 0 < |Flat(blocks[..i])| + j
    requires !MetBefore(Flat(blocks), |Flat(blocks[..i])| + j, blocks[i][j].key)
    ensures |Flat(blocks')| < |Flat(blocks)|
  {
    BytesLessIrreflexive(traits[i]);
    if j > 0 {
      assert |blocks'[i]| < |blocks[i]|;
    } else {
      var a, b := FlatAt(blocks[..i], 0);
      FlatHas(blocks, a, 0);
      EarlierBlock(blocks, a, 0, i);
      assert traits[a] != traits[i];
      BytesLessTotal(traits[a], traits[i]);
      assert |blocks'[a]| < |blocks[a]|;
    }
    ShorterBlocks(blocks, blocks');
  }

  // Runs of pages over an unchanging index, each started where the one before ended.

  ghost predicate PageAt(lists: Lists, traits: seq<Bytes>, limit: int, startTrait: Bytes, startKey: Bytes, page: Page) {
    IsPage(Visits(lists, traits, startTrait, startKey), limit, page)
  }

  /** Full pages followed by one that is not full. */
  ghost predicate PageRun(lists: Lists, traits: seq<Bytes>, limit: int, startTrait: Bytes, startKey: Bytes, pages: seq<Page>)
    decreases |pages|
  {
    && pages != [] && PageAt(lists, traits, limit, startTrait, startKey, pages[0])
    && if |pages| == 1 then |pages[0].keys| < limit
       else |pages[0].keys| == limit && PageRun(lists, traits, limit, pages[0].lastTrait, pages[0].lastKey, pages[1..])
  }

  /** Any number of full pages. */
  ghost predicate FullPages(lists: Lists, traits: seq<Bytes>, limit: int, startTrait: Bytes, startKey: Bytes, pages: seq<Page>)
    decreases |pages|
  {
    pages != [] ==>
      && PageAt(lists, traits, limit, startTrait, startKey, pages[0]) && |pages[0].keys| == limit
      && FullPages(lists, traits, limit, pages[0].lastTrait, pages[0].lastKey, pages[1..])
  }

  ghost predicate OnSomePage(pages: seq<Page>, k: Bytes) {
    exists i :: 0 <= i < |pages| && k in pages[i].keys
  }

  /** A full page holds what was met before its last key, and its last key. */
  lemma FullPageHolds(visits: seq<Visit>, limit: int, page: Page, k: Bytes)
    requires IsPage(visits, limit, page) && limit > 0 && |page.keys| == limit
    requires Visited(visits, Distinct(visits)[limit - 1])
    requires MetBefore(visits, FirstVisit(visits, Distinct(visits)[limit - 1]), k)
    ensures k in page.keys
  {
    DistinctKeys(visits);
    var p := FirstVisit(visits, Distinct(visits)[limit - 1]);
    DistinctExtends(visits, p);
    DistinctKeys(visits[..p]);
    var q :| 0 <= q < p && visits[q].key == k;
    assert visits[..p][q].key == k;
    var early := Distinct(visits[..p]);
    assert k in early;
    assert Distinct(visits)[limit - 1] !in early by {
      assert forall r :: 0 <= r < p ==> visits[..p][r] == visits[r];
    }
    assert |early| < limit;
    var r :| 0 <= r < |early| && early[r] == k;
    assert page.keys[r] == k;
  }

  /** Blocks and blocks after a restart at the visit that filled the page. */
  ghost predicate RestartedAfter(traits: seq<Bytes>, i: nat, j: nat, blocks: seq<seq<Visit>>, blocks': seq<seq<Visit>>,
                                 limit: int, page: Page) {
    && Restarted(traits, i, j, blocks, blocks')
    && 0 < limit <= |Distinct(Flat(blocks))| && IsPage(Flat(blocks), limit, page) && |page.keys| == limit
    && Visited(Flat(blocks), Distinct(Flat(blocks))[limit - 1])
    && |Flat(blocks[..i])| + j == FirstVisit(Flat(blocks), Distinct(Flat(blocks))[limit - 1])
    && blocks[i][j].key == Distinct(Flat(blocks))[limit - 1]
  }

  /** What comes after the visit `p` is met again, and nothing else is. */
  ghost predicate Resumes(visits: seq<Visit>, visits': seq<Visit>, p: nat) {
    && (forall k :: Visited(visits, k) ==> MetBefore(visits, p, k) || Visited(visits', k))
    && (forall k :: Visited(visits', k) ==> Visited(visits, k))
  }

  lemma RestartResumes(traits: seq<Bytes>, i: nat, j: nat, blocks: seq<seq<Visit>>, blocks': seq<seq<Visit>>)
    requires Sorted(traits) && Restarted(traits, i, j, blocks, blocks')
    ensures Resumes(Flat(blocks), Flat(blocks'), |Flat(blocks[..i])| + j)
  {
    forall k | Visited(Flat(blocks), k) ensures MetBefore(Flat(blocks), |Flat(blocks[..i])| + j, k) || Visited(Flat(blocks'), k) {
      NothingSkipped(traits, i, j, blocks, blocks', k);
    }
    forall k | Visited(Flat(blocks'), k) ensures Visited(Flat(blocks), k) { NothingNew(traits, i, j, blocks, blocks', k); }
  }

  /** A walk that resumes at the cursor of a full page meets what the page does not hold. */
  lemma RestartMeets(visits: seq<Visit>, visits': seq<Visit>, limit: int, page: Page, k: Bytes)
    requires 0 < limit <= |Distinct(visits)| && IsPage(visits, limit, page) && |page.keys| == limit
    requires Visited(visits, Distinct(visits)[limit - 1])
    requires Resumes(visits, visits', FirstVisit(visits, Distinct(visits)[limit - 1]))
    ensures Visited(visits, k) <==> k in page.keys || Visited(visits', k)
  {
    PageIsSound(visits, limit, page);
    if MetBefore(visits, FirstVisit(visits, Distinct(visits)[limit - 1]), k) { FullPageHolds(visits, limit, page, k); }
  }

  lemma RestartShrinks(traits: seq<Bytes>, i: nat, j: nat, blocks: seq<seq<Visit>>, blocks': seq<seq<Visit>>,
                       limit: int, page: Page)
    requires Sorted(traits) && RestartedAfter(traits, i, j, blocks, blocks', limit, page) && limit >= 2
    ensures |Flat(blocks')| < |Flat(blocks)|
  {
    TwoKeysTwoVisits(Flat(blocks), limit);
    RestartAdvances(traits, i, j, blocks, blocks');
  }

  /** A full page's cursor is the visit that filled it. */
  lemma FullPageCursor(lists: Lists, traits: seq<Bytes>, limit: int, startTrait: Bytes, startKey: Bytes, page: Page)
    returns (i: nat, j: nat)
    requires ListsDistinct(lists) && limit > 0
    requires PageAt(lists, traits, limit, startTrait, startKey, page) && |page.keys| == limit
    ensures RestartedAfter(traits, i, j, Blocks(lists, traits, startTrait, startKey),
                           Blocks(lists, traits, page.lastTrait, page.lastKey), limit, page)
  {
    var visits := Visits(lists, traits, startTrait, startKey);
    DistinctKeys(visits);
    var p := FirstVisit(visits, Distinct(visits)[limit - 1]);
    i, j := RestartBlocks(lists, traits, startTrait, startKey, p);
  }

  /** The walk restarts at the page's last key, and what it has left to meet is what it had not
      met, and - if the page held two keys - less than before. */
  lemma FullPageRestart(lists: Lists, traits: seq<Bytes>, limit: int, startTrait: Bytes, startKey: Bytes, page: Page)
    requires ListsDistinct(lists) && Sorted(traits) && limit > 0
    requires PageAt(lists, traits, limit, startTrait, startKey, page) && |page.keys| == limit
    ensures forall k :: Visited(Visits(lists, traits, startTrait, startKey), k) <==>
              k in page.keys || Visited(Visits(lists, traits, page.lastTrait, page.lastKey), k)
    ensures limit >= 2 ==>
              |Visits(lists, traits, page.lastTrait, page.lastKey)| < |Visits(lists, traits, startTrait, startKey)|
  {
    var i, j := FullPageCursor(lists, traits, limit, startTrait, startKey, page);
    var blocks := Blocks(lists, traits, startTrait, startKey);
    var blocks' := Blocks(lists, traits, page.lastTrait, page.lastKey);
    RestartResumes(traits, i, j, blocks, blocks');
    forall k ensures Visited(Flat(blocks), k) <==> k in page.keys || Visited(Flat(blocks'), k) {
      RestartMeets(Flat(blocks), Flat(blocks'), limit, page, k);
    }
    if limit >= 2 { RestartShrinks(traits, i, j, blocks, blocks', limit, page); }
  }

  lemma TwoKeysTwoVisits(visits: seq<Visit>, limit: int)
    requires 2 <= limit <= |Distinct(visits)| && Visited(visits, Distinct(visits)[limit - 1])
    ensures FirstVisit(visits, Distinct(visits)[limit - 1]) > 0
  {
    DistinctKeys(visits);
    FirstOfMany(visits);
  }

  /** Read to the end, the pages hold exactly the keys an unlimited lookup meets. */
  lemma {:induction false} PagesCoverEverything(
    lists: Lists, traits: seq<Bytes>, limit: int, startTrait: Bytes, startKey: Bytes, pages: seq<Page>, k: Bytes)
    requires ListsDistinct(lists) && Sorted(traits) && limit > 0
    requires PageRun(lists, traits, limit, startTrait, startKey, pages)
    ensures Visited(Visits(lists, traits, startTrait, startKey), k) <==> OnSomePage(pages, k)
    decreases |pages|
  {
    var page := pages[0];
    if |pages| == 1 {
      PageIsSound(Visits(lists, traits, startTrait, startKey), limit, page);
    } else {
      FullPageRestart(lists, traits, limit, startTrait, startKey, page);
      PagesCoverEverything(lists, traits, limit, page.lastTrait, page.lastKey, pages[1..], k);
      if OnSomePage(pages[1..], k) {
        var i :| 0 <= i < |pages[1..]| && k in pages[1..][i].keys;
        assert k in pages[i + 1].keys;
      }
      if OnSomePage(pages, k) && k !in page.keys {
        var i :| 0 <= i < |pages| && k in pages[i].keys;
        assert k in pages[1..][i - 1].keys;
      }
    }
  }

  /** With a limit of two or more the end is reached: there are fewer full pages than visits. */
  lemma {:induction false} PagesEnd(
    lists: Lists, traits: seq<Bytes>, limit: int, startTrait: Bytes, startKey: Bytes, pages: seq<Page>)
    requires ListsDistinct(lists) && Sorted(traits) && limit >= 2
    requires FullPages(lists, traits, limit, startTrait, startKey, pages)
    ensures |pages| <= |Visits(lists, traits, startTrait, startKey)|
    decreases |pages|
  {
    if pages != [] {
      FullPageRestart(lists, traits, limit, startTrait, startKey, pages[0]);
      PagesEnd(lists, traits, limit, pages[0].lastTrait, pages[0].lastKey, pages[1..]);
    }
  }

  lemma {:induction false} NoBlocks(blocks: seq<seq<Visit>>)
    requires forall a :: 0 <= a < |blocks| ==> blocks[a] == []
    ensures Flat(blocks) == []
  {
    if blocks != [] { NoBlocks(blocks[..|blocks| - 1]); }
  }

  lemma RestartAtFirst(traits: seq<Bytes>, i: nat, j: nat, blocks: seq<seq<Visit>>, blocks': seq<seq<Visit>>)
    requires Restarted(traits, i, j, blocks, blocks') && |Flat(blocks[..i])| + j == 0
    ensures |Flat(blocks')| > 0 && Flat(blocks')[0] == blocks[i][0]
  {
    BytesLessIrreflexive(traits[i]);
    forall a | 0 <= a < i ensures blocks'[a] == [] {
      if blocks[a] != [] { EarlierBlock(blocks, a, 0, i); }
    }
    NoBlocks(blocks'[..i]);
    FlatHas(blocks', i, 0);
  }

  lemma FirstOfMany(visits: seq<Visit>)
    requires |visits| > 0
    ensures |Distinct(visits)| > 0 && Distinct(visits)[0] == visits[0].key
    ensures Visited(visits, Distinct(visits)[0]) && FirstVisit(visits, Distinct(visits)[0]) == 0
  {
    DistinctExtends(visits, 1);
    assert visits[..1] == [visits[0]] && visits[..1][..0] == [];
    assert Distinct(visits[..1]) == [visits[0].key];
    assert Visited(visits, visits[0].key);
  }

  lemma OneKeyPage(visits: seq<Visit>, page: Page)
    requires |visits| > 0 && IsPage(visits, 1, page)
    ensures page == Page([visits[0].key], visits[0].tag, visits[0].key)
  {
    FirstOfMany(visits);
  }

  lemma FirstMetAgain(lists: Lists, traits: seq<Bytes>, startTrait: Bytes, startKey: Bytes)
    requires ListsDistinct(lists) && |Visits(lists, traits, startTrait, startKey)| > 0
    ensures var v := Visits(lists, traits, startTrait, startKey)[0];
            |Visits(lists, traits, v.tag, v.key)| > 0 && Visits(lists, traits, v.tag, v.key)[0] == v
  {
    var v := Visits(lists, traits, startTrait, startKey)[0];
    var i, j := RestartBlocks(lists, traits, startTrait, startKey, 0);
    RestartAtFirst(traits, i, j, Blocks(lists, traits, startTrait, startKey), Blocks(lists, traits, v.tag, v.key));
  }

  /** With a limit of one the cursor never moves: the next page is the same page again. */
  lemma OneKeyPagesRepeat(lists: Lists, traits: seq<Bytes>, startTrait: Bytes, startKey: Bytes, page: Page, next: Page)
    requires ListsDistinct(lists) && |Visits(lists, traits, startTrait, startKey)| > 0
    requires PageAt(lists, traits, 1, startTrait, startKey, page)
    requires PageAt(lists, traits, 1, page.lastTrait, page.lastKey, next)
    ensures next == page
  {
    FirstMetAgain(lists, traits, startTrait, startKey);
    OneKeyPage(Visits(lists, traits, startTrait, startKey), page);
    OneKeyPage(Visits(lists, traits, page.lastTrait, page.lastKey), next);
  }
}
