/** Exactly when adding a route or an alias finds a route taken (api/server/router.go). The names
    reached through aliases decide, and an alias belongs to one name, so that what two aliases
    both reach lies above them. */
module RouterErrors {
  import opened Router

  ghost predicate Repeatless(names: seq<Name>) {
    forall i, j :: 0 <= i < j < |names| ==> names[i] != names[j]
  }

  /** `y` is `n` aliases away from `x`. */
  ghost predicate Reaches(al: Aliases, x: Name, y: Name, n: nat)
    decreases n
  {
    if n == 0 then x == y else exists z :: Reaches(al, x, z, n - 1) && y in List(al, z)
  }

  /** Nothing reached from `x` serves the endpoint, and no list on the way repeats an alias. */
  ghost predicate Unserved(al: Aliases, col: Column, x: Name) {
    forall y, n: nat :: Reaches(al, x, y, n) ==> y !in col && Repeatless(List(al, y))
  }

  lemma {:induction false} ReachesFromAlias(al: Aliases, x: Name, y: Name, z: Name, n: nat)
    requires y in List(al, x) && Reaches(al, y, z, n)
    ensures Reaches(al, x, z, n + 1)
    decreases n
  {
    if n == 0 {
      assert Reaches(al, x, x, 0);
    } else {
      var z' :| Reaches(al, y, z', n - 1) && z in List(al, z');
      ReachesFromAlias(al, x, y, z', n - 1);
    }
  }

  /** What two aliases of one name both reach, is reached through that name. */
  lemma {:induction false} CommonIsAbove(al: Aliases, p: Name, u: Name, v: Name, z: Name, m: nat, n: nat)
    requires OneBase(al) && u in List(al, p) && v in List(al, p) && u != v
    requires Reaches(al, u, z, m) && Reaches(al, v, z, n)
    ensures (exists k: nat :: Reaches(al, u, p, k)) || (exists k: nat :: Reaches(al, v, p, k))
    decreases m
  {
    if m == 0 {
      var z' :| Reaches(al, v, z', n - 1) && z in List(al, z');
      assert Reaches(al, v, p, n - 1);
    } else {
      var y :| Reaches(al, u, y, m - 1) && z in List(al, y);
      if n == 0 {
        assert Reaches(al, u, p, m - 1);
      } else {
        var y' :| Reaches(al, v, y', n - 1) && z in List(al, y');
        CommonIsAbove(al, p, u, v, y, m - 1, n - 1);
      }
    }
  }

  /** The recursion adds only what it reaches. */
  lemma {:induction false} ForceAdds(al: Aliases, col: Column, base: Name, h: Handler, x: Name)
    requires x in Force(al, col, base, h).0 && x !in col
    ensures exists n: nat :: Reaches(al, base, x, n)
    decreases Open(al, col) + ({base} - col.Keys), 0
  {
    if x == base {
      assert Reaches(al, base, x, 0);
    } else {
      ListIsTargets(al, base);
      OpenShrinks(al, col, base, h);
      var i, n := ForceAllAdds(al, col[base := h], List(al, base), h, x);
      ReachesFromAlias(al, base, List(al, base)[i], x, n);
    }
  }

  lemma {:induction false} ForceAllAdds(al: Aliases, col: Column, names: seq<Name>, h: Handler, x: Name) returns (i: nat, n: nat)
    requires AllTargets(al, names) && x in ForceAll(al, col, names, h).0 && x !in col
    ensures i < |names| && Reaches(al, names[i], x, n)
    decreases Open(al, col), |names| + 1
  {
    assert names[0] in Targets(al);
    assert Open(al, col) + ({names[0]} - col.Keys) == Open(al, col);
    var col1 := Force(al, col, names[0], h).0;
    if x in col1 {
      ForceAdds(al, col, names[0], h, x);
      n :| Reaches(al, names[0], x, n);
      i := 0;
    } else {
      assert Open(al, col1) <= Open(al, col);
      i, n := ForceAllAdds(al, col1, names[1..], h, x);
      i := i + 1;
    }
  }

  /** Without an error, no list of a name added to repeats an alias or had one in the column. */
  lemma {:induction false} ForceOkLists(al: Aliases, col: Column, base: Name, h: Handler, x: Name)
    requires Force(al, col, base, h).1
    ensures x in Force(al, col, base, h).0 && x !in col ==>
              Repeatless(List(al, x)) && forall y :: y in List(al, x) ==> y !in col
    decreases Open(al, col) + ({base} - col.Keys), 0
  {
    ListIsTargets(al, base);
    OpenShrinks(al, col, base, h);
    ForceAllOkLists(al, col[base := h], List(al, base), h, x);
  }

  lemma {:induction false} ForceAllOkLists(al: Aliases, col: Column, names: seq<Name>, h: Handler, x: Name)
    requires AllTargets(al, names) && ForceAll(al, col, names, h).1
    ensures Repeatless(names) && forall y :: y in names ==> y !in col
    ensures x in ForceAll(al, col, names, h).0 && x !in col ==>
              Repeatless(List(al, x)) && forall y :: y in List(al, x) ==> y !in col
    decreases Open(al, col), |names| + 1
  {
    if names != [] {
      assert names[0] in Targets(al);
      assert Open(al, col) + ({names[0]} - col.Keys) == Open(al, col);
      var col1 := Force(al, col, names[0], h).0;
      ForceOkLists(al, col, names[0], h, x);
      assert Open(al, col1) <= Open(al, col);
      ForceAllOkLists(al, col1, names[1..], h, x);
      assert names == [names[0]] + names[1..];
    }
  }

  /** So nothing it reached served the endpoint. */
  lemma {:induction false} ForceOkReaches(al: Aliases, col: Column, base: Name, h: Handler, y: Name, n: nat)
    requires Force(al, col, base, h).1 && Reaches(al, base, y, n)
    ensures y in Force(al, col, base, h).0 && y !in col && Repeatless(List(al, y))
    decreases n
  {
    var col' := Force(al, col, base, h).0;
    if n > 0 {
      var z :| Reaches(al, base, z, n - 1) && y in List(al, z);
      ForceOkReaches(al, col, base, h, z, n - 1);
      ForceOkLists(al, col, base, h, z);
      ForceCloses(al, col, base, h, z);
      var i :| 0 <= i < |List(al, z)| && List(al, z)[i] == y;
    }
    ForceOkLists(al, col, base, h, y);
  }

  /** The name stands on its own, or is an alias of a name that serves the endpoint. */
  ghost predicate Rooted(al: Aliases, col: Column, x: Name) {
    forall p :: x in List(al, p) ==> p in col
  }

  lemma BelowIsUnserved(al: Aliases, col: Column, base: Name, h: Handler, y: Name)
    requires OneBase(al) && Unserved(al, col, base) && Rooted(al, col, base) && y in List(al, base)
    ensures Unserved(al, col[base := h], y)
  {
    assert Reaches(al, base, base, 0) && base !in List(al, base);
    forall z, n: nat | Reaches(al, y, z, n) ensures z !in col && Repeatless(List(al, z)) && base !in List(al, z) {
      ReachesFromAlias(al, base, y, z, n);
    }
    forall z, n: nat | Reaches(al, y, z, n) ensures z != base {
      if n > 0 { var z' :| Reaches(al, y, z', n - 1) && z in List(al, z'); }
    }
  }

  lemma {:induction false} UnservedForceOk(al: Aliases, col: Column, base: Name, h: Handler)
    requires OneBase(al) && Unserved(al, col, base) && Rooted(al, col, base)
    ensures Force(al, col, base, h).1
    decreases Open(al, col) + ({base} - col.Keys), 0
  {
    assert Reaches(al, base, base, 0);
    ListIsTargets(al, base);
    OpenShrinks(al, col, base, h);
    forall y | y in List(al, base) ensures Unserved(al, col[base := h], y) { BelowIsUnserved(al, col, base, h, y); }
    UnservedForceAllOk(al, col[base := h], base, List(al, base), h);
  }

  lemma {:induction false} UnservedForceAllOk(al: Aliases, col: Column, p: Name, names: seq<Name>, h: Handler)
    requires AllTargets(al, names) && OneBase(al) && p in col && Repeatless(names)
    requires forall y :: y in names ==> y in List(al, p) && Unserved(al, col, y)
    ensures ForceAll(al, col, names, h).1
    decreases Open(al, col), |names| + 1
  {
    if names != [] {
      assert names[0] in Targets(al);
      assert Open(al, col) + ({names[0]} - col.Keys) == Open(al, col);
      var col1 := Force(al, col, names[0], h).0;
      UnservedForceOk(al, col, names[0], h);
      assert Open(al, col1) <= Open(al, col);
      forall y | y in names[1..] ensures y in List(al, p) && Unserved(al, col1, y) {
        SiblingStaysUnserved(al, col, p, names[0], y, h);
      }
      UnservedForceAllOk(al, col1, p, names[1..], h);
    }
  }

  lemma SiblingStaysUnserved(al: Aliases, col: Column, p: Name, u: Name, v: Name, h: Handler)
    requires OneBase(al) && p in col && u in List(al, p) && v in List(al, p) && u != v
    requires Unserved(al, col, u) && Unserved(al, col, v)
    ensures Unserved(al, Force(al, col, u, h).0, v)
  {
    var col1 := Force(al, col, u, h).0;
    forall z, n: nat | Reaches(al, v, z, n) ensures z !in col1 && Repeatless(List(al, z)) {
      if z in col1 {
        ForceAdds(al, col, u, h, z);
        var m: nat :| Reaches(al, u, z, m);
        CommonIsAbove(al, p, u, v, z, m, n);
      }
    }
  }

  /** In every reachable state `AddRouter` on a name that is not reserved succeeds exactly if
      nothing reached from the name through aliases serves the endpoint and no alias list on the
      way repeats a name. */
  lemma AddRouterOkIff(states: seq<State>, calls: seq<Call>, answers: seq<Answer>, k: nat, s': State,
                       base: Name, e: Name, h: Handler, r: Answer)
    requires Run(states, calls, answers) && k < |states| && base !in states[k].reserved
    requires RouterStep(states[k], s', base, e, h, r)
    ensures r == Ok <==> Unserved(states[k].aliases, ColumnOf(states[k].routes, e), base)
  {
    AliasesAreReserved(states, calls, answers, k);
    var (al, col) := (states[k].aliases, ColumnOf(states[k].routes, e));
    if r == Ok {
      forall y, n: nat | Reaches(al, base, y, n) ensures y !in col && Repeatless(List(al, y)) {
        ForceOkReaches(al, col, base, h, y, n);
      }
    }
    if Unserved(al, col, base) {
      forall p ensures base !in List(al, p) { ListIsTargets(al, p); }
      UnservedForceOk(al, col, base, h);
    }
  }

  /** And `AddAlias`, unless an alias is reserved, exactly if for every endpoint of the base
      nothing reached from the new aliases serves it, without repetitions. */
  lemma AddAliasOkIff(states: seq<State>, calls: seq<Call>, answers: seq<Answer>, k: nat, s': State,
                      base: Name, names: seq<Name>, r: Answer)
    requires Run(states, calls, answers) && k < |states|
    requires AliasStep(states[k], s', base, names, r) && r != AlreadyReserved
    ensures r == Ok <==> forall e :: base in ColumnOf(states[k].routes, e) ==> Spreadable(s'.aliases, ColumnOf(states[k].routes, e), names)
  {
    AliasesAreReserved(states, calls, answers, k);
    StepKeepsReserved(states[k], s', CallAddAlias(base, names), r);
    forall e ensures Smooth(s'.aliases, states[k].routes, base, names, e) <==>
              (base in ColumnOf(states[k].routes, e) ==> Spreadable(s'.aliases, ColumnOf(states[k].routes, e), names))
    {
      if base in ColumnOf(states[k].routes, e) {
        SpreadOkIff(s'.aliases, ColumnOf(states[k].routes, e), base, names);
      }
    }
  }

  ghost predicate Spreadable(al: Aliases, col: Column, names: seq<Name>) {
    Repeatless(names) && forall i :: 0 <= i < |names| ==> Unserved(al, col, names[i])
  }

  lemma SpreadOkIff(al: Aliases, col: Column, base: Name, names: seq<Name>)
    requires OneBase(al) && AllTargets(al, names) && base in col && forall y :: y in names ==> y in List(al, base)
    ensures ForceAll(al, col, names, col[base]).1 <==> Spreadable(al, col, names)
  {
    if Spreadable(al, col, names) { UnservedForceAllOk(al, col, base, names, col[base]); }
    if ForceAll(al, col, names, col[base]).1 {
      ForceAllOkLists(al, col, names, col[base], base);
      forall i | 0 <= i < |names| ensures Unserved(al, col, names[i]) { ForceAllOkUnserved(al, col, names, col[base], i); }
    }
  }

  lemma {:induction false} ForceAllOkUnserved(al: Aliases, col: Column, names: seq<Name>, h: Handler, i: nat)
    requires AllTargets(al, names) && ForceAll(al, col, names, h).1 && i < |names|
    ensures Unserved(al, col, names[i])
    decreases |names|
  {
    var col1 := Force(al, col, names[0], h).0;
    if i == 0 {
      forall y, n: nat | Reaches(al, names[0], y, n) ensures y !in col && Repeatless(List(al, y)) {
        ForceOkReaches(al, col, names[0], h, y, n);
      }
    } else {
      ForceAllOkUnserved(al, col1, names[1..], h, i - 1);
      assert Unserved(al, col1, names[i]);
    }
  }

  // ---------------------------------------------------------------------------
  // Who serves an endpoint afterwards

  lemma {:induction false} ReachedServes(al: Aliases, col: Column, x: Name, y: Name, n: nat)
    requires Reaches(al, x, y, n) && x in col && forall z :: Closed(al, col, z)
    ensures y in col
    decreases n
  {
    if n > 0 {
      var z :| Reaches(al, x, z, n - 1) && y in List(al, z);
      ReachedServes(al, col, x, z, n - 1);
      assert Closed(al, col, z);
    }
  }

  /** After `AddRouter` on a name that is not reserved an endpoint is served by exactly those that
      served it, and the name with everything it reaches. */
  lemma AddRouterServes(states: seq<State>, calls: seq<Call>, answers: seq<Answer>, k: nat, s': State,
                        base: Name, e: Name, h: Handler, r: Answer, x: Name)
    requires Run(states, calls, answers) && k < |states| && base !in states[k].reserved
    requires RouterStep(states[k], s', base, e, h, r)
    ensures x in ColumnOf(s'.routes, e) <==>
            x in ColumnOf(states[k].routes, e) || exists n: nat :: Reaches(states[k].aliases, base, x, n)
  {
    var (al, col, col') := (states[k].aliases, ColumnOf(states[k].routes, e), ColumnOf(s'.routes, e));
    forall z ensures Closed(al, col', z) {
      AliasesServeEverything(states, calls, answers, k, e, z);
      StepKeepsClosed(states[k], s', CallAddRouter(base, e, h), r, e, z);
    }
    if x in col' && x !in col { ForceAdds(al, col, base, h, x); }
    if n: nat :| Reaches(al, base, x, n) { ReachedServes(al, col', base, x, n); }
  }

  /** Some of the names reaches `x`. */
  ghost predicate ReachedFrom(al: Aliases, names: seq<Name>, x: Name) {
    exists y, n: nat :: y in names && Reaches(al, y, x, n)
  }

  lemma SpreadServes(al: Aliases, col: Column, names: seq<Name>, h: Handler, x: Name)
    requires AllTargets(al, names) && forall z :: Closed(al, ForceAll(al, col, names, h).0, z)
    ensures x in ForceAll(al, col, names, h).0 <==> x in col || ReachedFrom(al, names, x)
  {
    var col' := ForceAll(al, col, names, h).0;
    assert Extends(col, col', h);
    ForceAllCloses(al, col, names, h, x);
    if x in col' && x !in col {
      var i, n := ForceAllAdds(al, col, names, h, x);
      assert names[i] in names && Reaches(al, names[i], x, n);
    }
    if ReachedFrom(al, names, x) {
      var y, n: nat :| y in names && Reaches(al, y, x, n);
      ReachedServes(al, col', y, x, n);
    }
  }

  /** After `AddAlias` an endpoint of the base is served by exactly those that served it, and the new
      aliases with everything they reach. */
  lemma AddAliasServes(states: seq<State>, calls: seq<Call>, answers: seq<Answer>, k: nat, s': State,
                       base: Name, names: seq<Name>, r: Answer, e: Name, x: Name)
    requires Run(states, calls, answers) && k < |states| && base in ColumnOf(states[k].routes, e)
    requires AliasStep(states[k], s', base, names, r) && r != AlreadyReserved
    ensures x in ColumnOf(s'.routes, e) <==>
            || x in ColumnOf(states[k].routes, e)
            || ReachedFrom(s'.aliases, names, x)
  {
    var (al, col) := (s'.aliases, ColumnOf(states[k].routes, e));
    assert SpreadTo(al, states[k].routes, s'.routes, base, names, e);
    forall z ensures Closed(al, ForceAll(al, col, names, col[base]).0, z) {
      AliasesServeEverything(states, calls, answers, k, e, z);
      StepKeepsClosed(states[k], s', CallAddAlias(base, names), r, e, z);
    }
    SpreadServes(al, col, names, col[base], x);
  }
}
