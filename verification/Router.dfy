/** Routes and their aliases (api/server/router.go). Adding an endpoint to a name adds it to the
    name's aliases, to theirs, and so on; the aliases may form a cycle. An endpoint never
    touches another one, so the routes are looked at one endpoint at a time. */
module Router {
  /** The name of a route, or of an endpoint under it. */
  datatype Name = Name(text: string)
  type Handler = nat
  type Aliases = map<Name, seq<Name>>

  /** The names that serve one endpoint, and by which handler. */
  type Column = map<Name, Handler>

  /** Every name that is somebody's alias. */
  function Targets(al: Aliases): set<Name> {
    set n, i | n in al && 0 <= i < |al[n]| :: al[n][i]
  }

  function List(al: Aliases, name: Name): seq<Name> { if name in al then al[name] else [] }

  ghost predicate AllTargets(al: Aliases, names: seq<Name>) {
    forall i :: 0 <= i < |names| ==> names[i] in Targets(al)
  }

  /** The names the recursion may still add to. */
  ghost function Open(al: Aliases, col: Column): set<Name> { Targets(al) - col.Keys }

  lemma ListIsTargets(al: Aliases, name: Name)
    ensures AllTargets(al, List(al, name))
  {}

  lemma OpenShrinks(al: Aliases, col: Column, base: Name, h: Handler)
    requires base !in col
    ensures Open(al, col[base := h]) < Open(al, col) + ({base} - col.Keys)
  {
    assert base in Open(al, col) + ({base} - col.Keys) && base !in Open(al, col[base := h]);
  }

  /** From `col` on entries were only added, all with handler `h`. */
  ghost predicate Extends(col: Column, col': Column, h: Handler) {
    && (forall x :: x in col ==> x in col' && col'[x] == col[x])
    && (forall x :: x in col' && x !in col ==> col'[x] == h)
  }

  /** `forceAddRouter` for one endpoint: the new column, and whether no error came up. */
  ghost function Force(al: Aliases, col: Column, base: Name, h: Handler): (r: (Column, bool))
    ensures Extends(col, r.0, h) && base in r.0
    decreases Open(al, col) + ({base} - col.Keys), 0
  {
    if base in col then (col, false)
    else
      ListIsTargets(al, base);
      OpenShrinks(al, col, base, h);
      ForceAll(al, col[base := h], List(al, base), h)
  }

  /** The same for a list of aliases; every one is tried. */
  ghost function ForceAll(al: Aliases, col: Column, names: seq<Name>, h: Handler): (r: (Column, bool))
    requires AllTargets(al, names)
    ensures Extends(col, r.0, h)
    decreases Open(al, col), |names| + 1
  {
    if names == [] then (col, true)
    else
      assert names[0] in Targets(al);
      assert Open(al, col) + ({names[0]} - col.Keys) == Open(al, col);
      var (col1, ok1) := Force(al, col, names[0], h);
      assert Open(al, col1) <= Open(al, col);
      var (col2, ok2) := ForceAll(al, col1, names[1..], h);
      (col2, ok1 && ok2)
  }

  // ---------------------------------------------------------------------------
  // What the recursion leaves behind

  /** If the name serves the endpoint, all its aliases do. */
  ghost predicate Closed(al: Aliases, col: Column, x: Name) {
    x in col ==> forall i :: 0 <= i < |List(al, x)| ==> List(al, x)[i] in col
  }

  /** And by the same handler. */
  ghost predicate Same(al: Aliases, col: Column, x: Name) {
    x in col ==> forall i :: 0 <= i < |List(al, x)| ==> List(al, x)[i] in col && col[List(al, x)[i]] == col[x]
  }

  lemma ClosedStays(al: Aliases, col: Column, col': Column, h: Handler, x: Name)
    requires Extends(col, col', h) && x in col && Closed(al, col, x)
    ensures Closed(al, col', x)
  {}

  lemma SameStays(al: Aliases, col: Column, col': Column, h: Handler, x: Name)
    requires Extends(col, col', h) && x in col && Same(al, col, x)
    ensures Same(al, col', x)
  {}

  /** Every name the recursion adds to ends up closed. */
  lemma {:induction false} ForceCloses(al: Aliases, col: Column, base: Name, h: Handler, x: Name)
    ensures var col' := Force(al, col, base, h).0; x in col' && x !in col ==> Closed(al, col', x)
    decreases Open(al, col) + ({base} - col.Keys), 0
  {
    if base !in col {
      ListIsTargets(al, base);
      OpenShrinks(al, col, base, h);
      ForceAllCloses(al, col[base := h], List(al, base), h, x);
    }
  }

  lemma {:induction false} ForceAllCloses(al: Aliases, col: Column, names: seq<Name>, h: Handler, x: Name)
    requires AllTargets(al, names)
    ensures var col' := ForceAll(al, col, names, h).0;
            && (forall i :: 0 <= i < |names| ==> names[i] in col')
            && (x in col' && x !in col ==> Closed(al, col', x))
    decreases Open(al, col), |names| + 1
  {
    if names != [] {
      assert names[0] in Targets(al);
      assert Open(al, col) + ({names[0]} - col.Keys) == Open(al, col);
      var col1 := Force(al, col, names[0], h).0;
      ForceCloses(al, col, names[0], h, x);
      assert Open(al, col1) <= Open(al, col);
      ForceAllCloses(al, col1, names[1..], h, x);
      var col' := ForceAll(al, col1, names[1..], h).0;
      if x in col1 && x !in col { ClosedStays(al, col1, col', h, x); }
      forall i | 0 <= i < |names| ensures names[i] in col' {
        if i > 0 { assert names[i] == names[1..][i - 1]; }
      }
    }
  }

  /** Without an error they also serve it by one handler. */
  lemma {:induction false} ForceSame(al: Aliases, col: Column, base: Name, h: Handler, x: Name)
    requires Force(al, col, base, h).1
    ensures var col' := Force(al, col, base, h).0; x in col' && x !in col ==> Same(al, col', x)
    ensures base !in col && Force(al, col, base, h).0[base] == h
    decreases Open(al, col) + ({base} - col.Keys), 0
  {
    ListIsTargets(al, base);
    OpenShrinks(al, col, base, h);
    ForceAllSame(al, col[base := h], List(al, base), h, x);
  }

  lemma {:induction false} ForceAllSame(al: Aliases, col: Column, names: seq<Name>, h: Handler, x: Name)
    requires AllTargets(al, names) && ForceAll(al, col, names, h).1
    ensures var col' := ForceAll(al, col, names, h).0;
            && (forall i :: 0 <= i < |names| ==> names[i] in col' && col'[names[i]] == h)
            && (x in col' && x !in col ==> Same(al, col', x))
    decreases Open(al, col), |names| + 1
  {
    if names != [] {
      assert names[0] in Targets(al);
      assert Open(al, col) + ({names[0]} - col.Keys) == Open(al, col);
      var col1 := Force(al, col, names[0], h).0;
      ForceSame(al, col, names[0], h, x);
      assert Open(al, col1) <= Open(al, col);
      ForceAllSame(al, col1, names[1..], h, x);
      var col' := ForceAll(al, col1, names[1..], h).0;
      if x in col1 && x !in col { SameStays(al, col1, col', h, x); }
      forall i | 0 <= i < |names| ensures names[i] in col' && col'[names[i]] == h {
        if i > 0 { assert names[i] == names[1..][i - 1]; }
      }
    }
  }

  // ---------------------------------------------------------------------------
  // The object

  datatype Answer = Ok | AlreadyReserved | AlreadyExists

  type Routes = map<Name, map<Name, Handler>>

  ghost function ColumnOf(routes: Routes, e: Name): Column {
    map x | x in routes && e in routes[x] :: routes[x][e]
  }

  class Router {
    var reserved: set<Name>
    var aliases: Aliases
    var routes: Routes

    constructor ()
      ensures reserved == {} && aliases == map[] && routes == map[]
    {
      reserved, aliases, routes := {}, map[], map[];
    }

    method GetHandler(base: Name, endpoint: Name) returns (found: bool, h: Handler)
      ensures found <==> base in ColumnOf(routes, endpoint)
      ensures found ==> h == ColumnOf(routes, endpoint)[base]
    {
      if base in routes && endpoint in routes[base] { return true, routes[base][endpoint]; }
      return false, 0;
    }

    /** The route and, recursively, the routes of all aliases; other endpoints stay as they are. */
    method ForceAddRouter(base: Name, endpoint: Name, h: Handler) returns (ok: bool)
      modifies this`routes
      ensures (ColumnOf(routes, endpoint), ok) == Force(aliases, ColumnOf(old(routes), endpoint), base, h)
      ensures forall e :: e != endpoint ==> ColumnOf(routes, e) == ColumnOf(old(routes), e)
      decreases Open(aliases, ColumnOf(routes, endpoint)) + ({base} - ColumnOf(routes, endpoint).Keys), 0
    {
      ghost var col := ColumnOf(routes, endpoint);
      var endpoints: map<Name, Handler> := if base in routes then routes[base] else map[];
      if endpoint in endpoints { return false; }
      routes := routes[base := endpoints[endpoint := h]];
      AddOne(old(routes), base, endpoint, h);
      OpenShrinks(aliases, col, base, h);
      ListIsTargets(aliases, base);
      ok := ForceAddAll(List(aliases, base), endpoint, h);
    }

    method ForceAddAll(names: seq<Name>, endpoint: Name, h: Handler) returns (ok: bool)
      requires AllTargets(aliases, names)
      modifies this`routes
      ensures (ColumnOf(routes, endpoint), ok) == ForceAll(aliases, ColumnOf(old(routes), endpoint), names, h)
      ensures forall e :: e != endpoint ==> ColumnOf(routes, e) == ColumnOf(old(routes), e)
      decreases Open(aliases, ColumnOf(routes, endpoint)), |names| + 1
    {
      ok := true;
      ghost var col := ColumnOf(routes, endpoint);
      ghost var whole := ForceAll(aliases, col, names, h);
      for i := 0 to |names|
        invariant Open(aliases, ColumnOf(routes, endpoint)) <= Open(aliases, col)
        invariant AllTargets(aliases, names[i..])
        invariant var rest := ForceAll(aliases, ColumnOf(routes, endpoint), names[i..], h);
                  rest.0 == whole.0 && (ok && rest.1) == whole.1
        invariant forall e :: e != endpoint ==> ColumnOf(routes, e) == ColumnOf(old(routes), e)
      {
        ghost var before := ColumnOf(routes, endpoint);
        assert names[i] in Targets(aliases);
        assert names[i..][1..] == names[i + 1..];
        assert Open(aliases, before) + ({names[i]} - before.Keys) == Open(aliases, before);
        var inner := ForceAddRouter(names[i], endpoint, h);
        ok := ok && inner;
      }
    }

    method AddRouter(base: Name, endpoint: Name, h: Handler) returns (r: Answer)
      modifies this`routes
      ensures r == AlreadyReserved <==> base in reserved
      ensures base in reserved ==> routes == old(routes)
      ensures base !in reserved ==>
                var f := Force(aliases, ColumnOf(old(routes), endpoint), base, h);
                ColumnOf(routes, endpoint) == f.0 && (r == Ok <==> f.1)
      ensures forall e :: e != endpoint ==> ColumnOf(routes, e) == ColumnOf(old(routes), e)
    {
      if base in reserved { return AlreadyReserved; }
      var ok := ForceAddRouter(base, endpoint, h);
      return if ok then Ok else AlreadyExists;
    }

    /** Nothing changes if an alias is taken. Otherwise every endpoint of the base goes to the
        aliases, in whatever order the endpoints come up. */
    method AddAlias(base: Name, names: seq<Name>) returns (r: Answer)
      modifies this
      ensures AliasStep(State(old(reserved), old(aliases), old(routes)), State(reserved, aliases, routes), base, names, r)
    {
      for i := 0 to |names|
        invariant forall j :: 0 <= j < i ==> names[j] !in reserved
      {
        if names[i] in reserved { return AlreadyReserved; }
      }
      reserved := reserved + set i | 0 <= i < |names| :: names[i];
      aliases := aliases[base := List(aliases, base) + names];
      NewTargets(old(aliases), base, names);
      ghost var s' := aliases;
      ghost var was := routes;
      assert was == old(routes);
      var ok := SpreadEndpoints(base, names);
      assert s' == aliases;
      assert forall e :: SpreadTo(aliases, was, routes, base, names, e);
      r := if ok then Ok else AlreadyExists;
    }

    method SpreadEndpoints(base: Name, names: seq<Name>) returns (ok: bool)
      requires AllTargets(aliases, names)
      modifies this`routes
      ensures forall e :: SpreadTo(aliases, old(routes), routes, base, names, e)
      ensures ok <==> forall e :: Smooth(aliases, old(routes), base, names, e)
    {
      ghost var goal := imap e: Name :: Spread(aliases, ColumnOf(routes, e), base, names);
      ok := SpreadToGoal(base, names, goal);
      forall e ensures SpreadTo(aliases, old(routes), routes, base, names, e) {
        assert Reached(routes, e, goal[e]);
      }
      forall e ensures goal[e].1 <==> Smooth(aliases, old(routes), base, names, e) {}
    }

    /** Each endpoint of the base is taken to its goal; the others are there. */
    method SpreadToGoal(base: Name, names: seq<Name>, ghost goal: imap<Name, (Column, bool)>) returns (ok: bool)
      requires AllTargets(aliases, names)
      requires forall e :: e in goal && goal[e] == Spread(aliases, ColumnOf(routes, e), base, names)
      modifies this`routes
      ensures forall e :: Reached(routes, e, goal[e])
      ensures ok <==> forall e :: goal[e].1
    {
      if base !in routes { return true; }
      var endpoints := routes[base];
      forall e ensures e in endpoints <==> base in ColumnOf(routes, e) {}
      var todo, failed := endpoints.Keys, {};
      ghost var was := routes;
      while todo != {}
        invariant todo <= endpoints.Keys
        invariant forall e :: e in todo ==> ColumnOf(routes, e) == ColumnOf(was, e)
        invariant forall e :: e !in todo ==> Reached(routes, e, goal[e])
        invariant forall e :: e in failed <==> e !in todo && !goal[e].1
        decreases todo
      {
        var e :| e in todo;
        ghost var before := routes;
        var inner := SpreadOne(names, e, endpoints[e], goal[e]);
        ReachedMore(before, routes, todo, e, goal);
        if !inner { failed := failed + {e}; }
        todo := todo - {e};
      }
      return failed == {};
    }

    method SpreadOne(names: seq<Name>, e: Name, h: Handler, ghost goal: (Column, bool)) returns (ok: bool)
      requires AllTargets(aliases, names) && goal == ForceAll(aliases, ColumnOf(routes, e), names, h)
      modifies this`routes
      ensures (ColumnOf(routes, e), ok) == goal
      ensures forall e' :: e' != e ==> ColumnOf(routes, e') == ColumnOf(old(routes), e')
    {
      ok := ForceAddAll(names, e, h);
    }
  }

  ghost predicate Reached(routes: Routes, e: Name, goal: (Column, bool)) { ColumnOf(routes, e) == goal.0 }

  lemma ReachedMore(before: Routes, after: Routes, todo: set<Name>, e: Name, goal: imap<Name, (Column, bool)>)
    requires forall x :: x in goal
    requires forall x :: x !in todo ==> Reached(before, x, goal[x])
    requires forall x :: x != e ==> ColumnOf(after, x) == ColumnOf(before, x)
    requires Reached(after, e, goal[e])
    ensures forall x :: x !in todo - {e} ==> Reached(after, x, goal[x])
  {
    forall x | x !in todo - {e} ensures Reached(after, x, goal[x]) {
      assert x == e || Reached(before, x, goal[x]);
    }
  }

  ghost predicate SpreadTo(al: Aliases, was: Routes, now: Routes, base: Name, names: seq<Name>, e: Name)
    requires AllTargets(al, names)
  {
    ColumnOf(now, e) == Spread(al, ColumnOf(was, e), base, names).0
  }

  ghost predicate Smooth(al: Aliases, was: Routes, base: Name, names: seq<Name>, e: Name)
    requires AllTargets(al, names)
  {
    Spread(al, ColumnOf(was, e), base, names).1
  }

  /** What giving `base` the aliases `names` does to one endpoint. */
  ghost function Spread(al: Aliases, col: Column, base: Name, names: seq<Name>): (Column, bool)
    requires AllTargets(al, names)
  {
    if base in col then ForceAll(al, col, names, col[base]) else (col, true)
  }

  lemma NewTargets(al: Aliases, base: Name, names: seq<Name>)
    ensures var al' := al[base := List(al, base) + names];
            && AllTargets(al', names)
            && Targets(al') == Targets(al) + set i | 0 <= i < |names| :: names[i]
  {
    var al' := al[base := List(al, base) + names];
    forall i | 0 <= i < |names| ensures names[i] in Targets(al') {
      assert al'[base][|List(al, base)| + i] == names[i];
    }
    forall n, i | n in al && 0 <= i < |al[n]| ensures al[n][i] in Targets(al') {
      assert al'[n][i] == al[n][i];
    }
  }

  // ---------------------------------------------------------------------------
  // Any sequence of calls

  datatype State = State(reserved: set<Name>, aliases: Aliases, routes: Routes)

  /** The contract of `AddRouter`. */
  ghost predicate RouterStep(s: State, s': State, base: Name, endpoint: Name, h: Handler, r: Answer) {
    && s'.reserved == s.reserved && s'.aliases == s.aliases
    && (r == AlreadyReserved <==> base in s.reserved)
    && (base in s.reserved ==> s' == s)
    && (base !in s.reserved ==>
          var f := Force(s.aliases, ColumnOf(s.routes, endpoint), base, h);
          ColumnOf(s'.routes, endpoint) == f.0 && (r == Ok <==> f.1))
    && forall e :: e != endpoint ==> ColumnOf(s'.routes, e) == ColumnOf(s.routes, e)
  }

  /** The contract of `AddAlias`. */
  ghost predicate AliasStep(s: State, s': State, base: Name, names: seq<Name>, r: Answer) {
    if exists i :: 0 <= i < |names| && names[i] in s.reserved then s' == s && r == AlreadyReserved
    else
      && s'.reserved == s.reserved + (set i | 0 <= i < |names| :: names[i])
      && s'.aliases == s.aliases[base := List(s.aliases, base) + names]
      && AllTargets(s'.aliases, names)
      && (forall e :: SpreadTo(s'.aliases, s.routes, s'.routes, base, names, e))
      && r != AlreadyReserved
      && (r == Ok <==> forall e :: Smooth(s'.aliases, s.routes, base, names, e))
  }

  datatype Call =
    | CallAddRouter(base: Name, endpoint: Name, h: Handler)
    | CallAddAlias(base: Name, names: seq<Name>)

  ghost predicate Step(s: State, s': State, call: Call, r: Answer) {
    match call
    case CallAddRouter(base, endpoint, h) => RouterStep(s, s', base, endpoint, h, r)
    case CallAddAlias(base, names) => AliasStep(s, s', base, names, r)
  }

  const NewRouter := State({}, map[], map[])

  ghost predicate Run(states: seq<State>, calls: seq<Call>, answers: seq<Answer>) {
    && |states| == |calls| + 1 && |answers| == |calls| && states[0] == NewRouter
    && forall k :: 0 <= k < |calls| ==> Step(states[k], states[k + 1], calls[k], answers[k])
  }

  /** The base keeps its old aliases and gets the new ones. */
  lemma ClosedAfterSpread(al: Aliases, col: Column, base: Name, names: seq<Name>, x: Name)
    requires Closed(al, col, x) && AllTargets(al[base := List(al, base) + names], names)
    ensures var al' := al[base := List(al, base) + names]; Closed(al', Spread(al', col, base, names).0, x)
  {
    var al' := al[base := List(al, base) + names];
    var col' := Spread(al', col, base, names).0;
    if base in col { ForceAllCloses(al', col, names, col[base], x); }
    if x in col {
      forall i | 0 <= i < |List(al', x)| ensures List(al', x)[i] in col' {
        if i < |List(al, x)| { assert List(al, x)[i] in col; } else { assert List(al', x)[i] == names[i - |List(al, x)|]; }
      }
    }
  }

  lemma SameAfterSpread(al: Aliases, col: Column, base: Name, names: seq<Name>, x: Name)
    requires Same(al, col, x) && AllTargets(al[base := List(al, base) + names], names)
    requires Spread(al[base := List(al, base) + names], col, base, names).1
    ensures var al' := al[base := List(al, base) + names]; Same(al', Spread(al', col, base, names).0, x)
  {
    var al' := al[base := List(al, base) + names];
    var col' := Spread(al', col, base, names).0;
    if base in col { ForceAllSame(al', col, names, col[base], x); }
    if x in col {
      forall i | 0 <= i < |List(al', x)| ensures List(al', x)[i] in col' && col'[List(al', x)[i]] == col'[x] {
        if i < |List(al, x)| { assert List(al, x)[i] in col; } else { assert List(al', x)[i] == names[i - |List(al, x)|]; }
      }
    }
  }

  lemma StepKeepsClosed(s: State, s': State, call: Call, r: Answer, e: Name, x: Name)
    requires Step(s, s', call, r) && Closed(s.aliases, ColumnOf(s.routes, e), x)
    ensures Closed(s'.aliases, ColumnOf(s'.routes, e), x)
  {
    var (al, col) := (s.aliases, ColumnOf(s.routes, e));
    match call
    case CallAddRouter(base, endpoint, h) =>
      if base !in s.reserved && e == endpoint {
        ForceCloses(al, col, base, h, x);
        if x in col { ClosedStays(al, col, Force(al, col, base, h).0, h, x); }
      }
    case CallAddAlias(base, names) =>
      if s' != s {
        assert SpreadTo(s'.aliases, s.routes, s'.routes, base, names, e);
        ClosedAfterSpread(al, col, base, names, x);
      }
  }

  lemma StepKeepsSame(s: State, s': State, call: Call, r: Answer, e: Name, x: Name)
    requires Step(s, s', call, r) && Same(s.aliases, ColumnOf(s.routes, e), x) && r != AlreadyExists
    ensures Same(s'.aliases, ColumnOf(s'.routes, e), x)
  {
    var (al, col) := (s.aliases, ColumnOf(s.routes, e));
    match call
    case CallAddRouter(base, endpoint, h) =>
      if base !in s.reserved && e == endpoint {
        ForceSame(al, col, base, h, x);
        if x in col { SameStays(al, col, Force(al, col, base, h).0, h, x); }
      }
    case CallAddAlias(base, names) =>
      if s' != s {
        assert SpreadTo(s'.aliases, s.routes, s'.routes, base, names, e) && Smooth(s'.aliases, s.routes, base, names, e);
        SameAfterSpread(al, col, base, names, x);
      }
  }

  /** After any calls, failing ones included, every endpoint of a name is on all its aliases. */
  lemma {:induction false} AliasesServeEverything(states: seq<State>, calls: seq<Call>, answers: seq<Answer>, k: nat, e: Name, x: Name)
    requires Run(states, calls, answers) && k < |states|
    ensures Closed(states[k].aliases, ColumnOf(states[k].routes, e), x)
  {
    if k > 0 {
      var j := k - 1;
      AliasesServeEverything(states, calls, answers, j, e, x);
      assert Step(states[j], states[j + 1], calls[j], answers[j]);
      StepKeepsClosed(states[j], states[j + 1], calls[j], answers[j], e, x);
    }
  }

  /** And if no call found a route taken, by the same handler. */
  lemma {:induction false} AliasesServeAlike(states: seq<State>, calls: seq<Call>, answers: seq<Answer>, k: nat, e: Name, x: Name)
    requires Run(states, calls, answers) && k < |states|
    requires forall i :: 0 <= i < k ==> answers[i] != AlreadyExists
    ensures Same(states[k].aliases, ColumnOf(states[k].routes, e), x)
  {
    if k > 0 {
      var j := k - 1;
      AliasesServeAlike(states, calls, answers, j, e, x);
      assert Step(states[j], states[j + 1], calls[j], answers[j]);
      StepKeepsSame(states[j], states[j + 1], calls[j], answers[j], e, x);
    }
  }

  /** `y` can be reached from `x` by taking aliases along `path`. */
  ghost predicate Path(al: Aliases, path: seq<Name>) {
    |path| > 0 && forall i :: 0 <= i < |path| - 1 ==> path[i + 1] in List(al, path[i])
  }

  lemma {:induction false} PathServes(al: Aliases, col: Column, path: seq<Name>, i: nat)
    requires Path(al, path) && path[0] in col && i < |path| && forall x :: Closed(al, col, x)
    ensures path[i] in col
  {
    if i > 0 {
      PathServes(al, col, path, i - 1);
      assert Closed(al, col, path[i - 1]) && path[i - 1 + 1] in List(al, path[i - 1]);
    }
  }

  /** So whatever is reached from a name through aliases serves the name's endpoints. */
  lemma ReachableServes(states: seq<State>, calls: seq<Call>, answers: seq<Answer>, k: nat, e: Name, path: seq<Name>)
    requires Run(states, calls, answers) && k < |states| && Path(states[k].aliases, path)
    requires path[0] in ColumnOf(states[k].routes, e)
    ensures path[|path| - 1] in ColumnOf(states[k].routes, e)
  {
    var (al, col) := (states[k].aliases, ColumnOf(states[k].routes, e));
    forall x ensures Closed(al, col, x) { AliasesServeEverything(states, calls, answers, k, e, x); }
    PathServes(al, col, path, |path| - 1);
  }

  // ---------------------------------------------------------------------------
  // Names are reserved once

  /** An alias belongs to one name. */
  ghost predicate OneBase(al: Aliases) {
    forall x, x', y :: y in List(al, x) && y in List(al, x') ==> x == x'
  }

  /** Exactly the aliases are reserved, and an alias belongs to one name. */
  ghost predicate Reserved(s: State) {
    s.reserved == Targets(s.aliases) && OneBase(s.aliases)
  }

  lemma StepKeepsReserved(s: State, s': State, call: Call, r: Answer)
    requires Step(s, s', call, r) && Reserved(s)
    ensures Reserved(s')
  {
    if call.CallAddAlias? && s' != s {
      var (base, names) := (call.base, call.names);
      NewTargets(s.aliases, base, names);
      forall x, x', y | y in List(s'.aliases, x) && y in List(s'.aliases, x') ensures x == x' {
        if y in names {
          var i :| 0 <= i < |names| && names[i] == y;
          assert y !in Targets(s.aliases);
          assert y !in List(s.aliases, x) && y !in List(s.aliases, x');
        } else {
          assert y in List(s.aliases, x) && y in List(s.aliases, x');
        }
      }
    }
  }

  lemma {:induction false} AliasesAreReserved(states: seq<State>, calls: seq<Call>, answers: seq<Answer>, k: nat)
    requires Run(states, calls, answers) && k < |states|
    ensures Reserved(states[k])
  {
    if k > 0 {
      var j := k - 1;
      AliasesAreReserved(states, calls, answers, j);
      assert Step(states[j], states[j + 1], calls[j], answers[j]);
      StepKeepsReserved(states[j], states[j + 1], calls[j], answers[j]);
    }
  }

  // ---------------------------------------------------------------------------
  // When a route is taken

  lemma {:induction false} TakenFails(al: Aliases, col: Column, names: seq<Name>, h: Handler, i: nat)
    requires AllTargets(al, names) && i < |names| && names[i] in col
    ensures !ForceAll(al, col, names, h).1
    decreases |names|
  {
    if i > 0 {
      assert names[1..][i - 1] == names[i];
      TakenFails(al, Force(al, col, names[0], h).0, names[1..], h, i - 1);
    }
  }

  /** What a call that gives aliases does to one endpoint of the base: `AddAlias` reserves the
      aliases whether or not they serve the endpoint already. */
  lemma AliasesAfterStep(s: State, s': State, base: Name, names: seq<Name>, r: Answer, e: Name)
    requires AliasStep(s, s', base, names, r) && r != AlreadyReserved && base in ColumnOf(s.routes, e)
    ensures var (col, col') := (ColumnOf(s.routes, e), ColumnOf(s'.routes, e));
            && Extends(col, col', col[base])
            && forall i :: 0 <= i < |names| ==> names[i] in col' && names[i] in s'.reserved
  {
    var col := ColumnOf(s.routes, e);
    assert SpreadTo(s'.aliases, s.routes, s'.routes, base, names, e);
    ForceAllCloses(s'.aliases, col, names, col[base], base);
  }

  /** An endpoint that the base does not serve is left as it was. */
  lemma AliasSparesOthers(s: State, s': State, base: Name, names: seq<Name>, r: Answer, e: Name)
    requires AliasStep(s, s', base, names, r) && base !in ColumnOf(s.routes, e)
    ensures ColumnOf(s'.routes, e) == ColumnOf(s.routes, e)
  {
    if r != AlreadyReserved { assert SpreadTo(s'.aliases, s.routes, s'.routes, base, names, e); }
  }

  /** On one endpoint: a base whose old aliases serve it alike has all its aliases serve it alike
      exactly if the new ones that served it before did so by the base's handler. */
  lemma SameAfterExtending(al: Aliases, al': Aliases, col: Column, col': Column, base: Name, names: seq<Name>)
    requires List(al', base) == List(al, base) + names && base in col && Extends(col, col', col[base])
    requires Same(al, col, base) && forall i :: 0 <= i < |names| ==> names[i] in col'
    ensures Same(al', col', base) <==> forall i :: 0 <= i < |names| && names[i] in col ==> col[names[i]] == col[base]
  {
    var (was, now) := (List(al, base), List(al', base));
    if Same(al', col', base) {
      forall i | 0 <= i < |names| && names[i] in col ensures col[names[i]] == col[base] {
        assert now[|was| + i] == names[i];
      }
    }
    if forall i :: 0 <= i < |names| && names[i] in col ==> col[names[i]] == col[base] {
      forall i | 0 <= i < |now| ensures now[i] in col' && col'[now[i]] == col'[base] {
        if i < |was| { assert was[i] in col; } else { assert now[i] == names[i - |was|]; }
      }
    }
  }

  /** Afterwards the base and its aliases serve an endpoint by one handler exactly if every new
      alias that served it before did so by the base's handler. */
  lemma SameAfterAliasIff(s: State, s': State, base: Name, names: seq<Name>, r: Answer, e: Name)
    requires AliasStep(s, s', base, names, r) && r != AlreadyReserved
    requires base in ColumnOf(s.routes, e) && Same(s.aliases, ColumnOf(s.routes, e), base)
    ensures var col := ColumnOf(s.routes, e);
            Same(s'.aliases, ColumnOf(s'.routes, e), base) <==>
              forall i :: 0 <= i < |names| && names[i] in col ==> col[names[i]] == col[base]
  {
    AliasesAfterStep(s, s', base, names, r, e);
    assert List(s'.aliases, base) == List(s.aliases, base) + names;
    SameAfterExtending(s.aliases, s'.aliases, ColumnOf(s.routes, e), ColumnOf(s'.routes, e), base, names);
  }

  /** A new alias that serves an endpoint of the base already, as one that closes a cycle does,
      is an error; it is reserved all the same and keeps its handler. */
  lemma TakenAliasIsError(s: State, s': State, base: Name, names: seq<Name>, r: Answer, e: Name, i: nat)
    requires AliasStep(s, s', base, names, r) && r != AlreadyReserved && i < |names|
    requires base in ColumnOf(s.routes, e) && names[i] in ColumnOf(s.routes, e)
    ensures r == AlreadyExists && names[i] in s'.reserved
    ensures names[i] in ColumnOf(s'.routes, e) && ColumnOf(s'.routes, e)[names[i]] == ColumnOf(s.routes, e)[names[i]]
    ensures var col := ColumnOf(s.routes, e);
            col[names[i]] != col[base] ==> !Same(s'.aliases, ColumnOf(s'.routes, e), base)
  {
    var col := ColumnOf(s.routes, e);
    TakenFails(s'.aliases, col, names, col[base], i);
    assert !Smooth(s'.aliases, s.routes, base, names, e);
    AliasesAfterStep(s, s', base, names, r, e);
    assert List(s'.aliases, base)[|List(s.aliases, base)| + i] == names[i];
  }

  /** One more route is one more entry in its column. */
  lemma AddOne(routes: Routes, base: Name, endpoint: Name, h: Handler)
    ensures var endpoints: map<Name, Handler> := if base in routes then routes[base] else map[];
            var routes' := routes[base := endpoints[endpoint := h]];
            && ColumnOf(routes', endpoint) == ColumnOf(routes, endpoint)[base := h]
            && forall e :: e != endpoint ==> ColumnOf(routes', e) == ColumnOf(routes, e)
  {}
}
