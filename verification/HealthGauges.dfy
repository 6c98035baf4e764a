/** Health checks and the gauges that count the failing ones per tag (api/health/worker.go). The
    gauges are kept up to date step by step; `Results` counts afresh. */
module HealthGauges {
  import opened Common

  datatype Tag = Tag(text: string)
  datatype Name = Name(text: string)

  const ALL := Tag("all")
  const APPLICATION := Tag("application")

  datatype Check = Check(application: bool, tags: seq<Tag>)

  /** `failing` says of each check whether its last result was an error. */
  datatype Worker = Worker(
    checks: map<Name, Check>,
    failing: map<Name, bool>,
    numFailingApplication: int,
    tags: map<Tag, set<Name>>,
    gauges: map<Tag, int>)

  datatype Error = RestrictedTag | DuplicateCheck

  const NewWorker := Worker(map[], map[], 0, map[], map[ALL := 0, APPLICATION := 0])

  function Names(tags: map<Tag, set<Name>>, t: Tag): set<Name> { if t in tags then tags[t] else {} }

  function Gauge(gauges: map<Tag, int>, t: Tag): int { if t in gauges then gauges[t] else 0 }

  lemma TagsDiffer()
    ensures ALL != APPLICATION
  {
    assert |ALL.text| != |APPLICATION.text|;
  }

  // ---------------------------------------------------------------------------
  // The gauges, step by step

  function Bump(gauges: map<Tag, int>, t: Tag, d: int): map<Tag, int> { gauges[t := Gauge(gauges, t) + d] }

  /** What an ordinary check adds to the gauge of one of its tags. A tag met for the first time
      also gets the failing application checks. */
  function Delta(w: Worker, t: Tag, healthy: bool, register: bool): int {
    if healthy then -1
    else 1 + if register && |Names(w.tags, t)| == 1 then w.numFailingApplication else 0
  }

  function BumpTags(w: Worker, ts: seq<Tag>, healthy: bool, register: bool): map<Tag, int> {
    if ts == [] then w.gauges
    else
      var t := ts[|ts| - 1];
      Bump(BumpTags(w, ts[..|ts| - 1], healthy, register), t, Delta(w, t, healthy, register))
  }

  /** An application check counts for every tag there is. */
  function BumpAll(w: Worker, d: int): map<Tag, int> {
    map t | t in w.gauges.Keys + w.tags.Keys :: Gauge(w.gauges, t) + if t in w.tags then d else 0
  }

  function UpdateMetrics(w: Worker, c: Check, healthy: bool, register: bool): Worker {
    var d := if healthy then -1 else 1;
    if c.application then
      w.(gauges := BumpAll(w, d), numFailingApplication := w.numFailingApplication + d)
    else
      w.(gauges := Bump(BumpTags(w, c.tags, healthy, register), ALL, d))
  }

  /** The check's name under each of its tags and under the tag of all checks. */
  function Tagged(tags: map<Tag, set<Name>>, ts: seq<Tag>, name: Name): map<Tag, set<Name>> {
    map t | t in tags.Keys + (set i | 0 <= i < |ts| :: ts[i]) + {ALL} ::
      Names(tags, t) + if t in ts || t == ALL then {name} else {}
  }

  /** `RegisterCheck`: a new check is failing until it has run. */
  function Register(w: Worker, name: Name, ts: seq<Tag>): Result<Worker, Error> {
    if ALL in ts then Failure(RestrictedTag)
    else if name in w.checks then Failure(DuplicateCheck)
    else
      var c := Check(APPLICATION in ts, ts);
      var w1 := w.(checks := w.checks[name := c], failing := w.failing[name := true], tags := Tagged(w.tags, ts, name));
      Success(UpdateMetrics(w1, c, false, true))
  }

  /** `runCheck`, with the outcome of the check. */
  function RunCheck(w: Worker, name: Name, error: bool): Worker
    requires name in w.checks && name in w.failing
  {
    var w1 := if error != w.failing[name] then UpdateMetrics(w, w.checks[name], !error, false) else w;
    w1.(failing := w1.failing[name := error])
  }

  // ---------------------------------------------------------------------------
  // What the gauges should show

  /** The failing checks `Results` reports for a tag. */
  ghost function FailingFor(w: Worker, t: Tag): set<Name> {
    FailingOf(Names(w.tags, t) + Names(w.tags, APPLICATION), w.failing)
  }

  ghost function FailingOf(names: set<Name>, failing: map<Name, bool>): set<Name> {
    set n | n in names && n in failing && failing[n]
  }

  ghost predicate Accurate(w: Worker, t: Tag) {
    Gauge(w.gauges, t) == |FailingFor(w, t)|
  }

  /** A check is listed exactly under its tags and under the tag of all checks. */
  ghost predicate Listed(w: Worker, t: Tag, n: Name) {
    n in Names(w.tags, t) <==> n in w.checks && (t in w.checks[n].tags || t == ALL)
  }

  ghost predicate CheckFits(c: Check) {
    (c.application <==> APPLICATION in c.tags) && ALL !in c.tags
  }

  /** The maps fit together. */
  ghost predicate NamesFit(w: Worker) {
    && w.failing.Keys == w.checks.Keys
    && (forall t, n :: Listed(w, t, n))
    && (forall n :: n in w.checks ==> CheckFits(w.checks[n]))
    && (forall t :: t in w.tags ==> w.tags[t] != {})
  }

  ghost predicate Fits(w: Worker) {
    && NamesFit(w)
    && (forall t :: t !in w.tags ==> Gauge(w.gauges, t) == 0)
    && w.numFailingApplication == |FailingFor(w, APPLICATION)|
  }

  ghost predicate Distinct(w: Worker) {
    forall n :: n in w.checks && !w.checks[n].application ==> NoDuplicates(w.checks[n].tags)
  }

  ghost predicate AllAccurate(w: Worker) { forall t :: t in w.tags ==> Accurate(w, t) }

  ghost predicate Inv(w: Worker) { Fits(w) && Distinct(w) && AllAccurate(w) }

  // ---------------------------------------------------------------------------
  // Bumping a list of tags

  lemma {:induction false} BumpAbsent(w: Worker, ts: seq<Tag>, healthy: bool, register: bool, t: Tag)
    requires t !in ts
    ensures Gauge(BumpTags(w, ts, healthy, register), t) == Gauge(w.gauges, t)
  {
    if ts != [] { BumpAbsent(w, ts[..|ts| - 1], healthy, register, t); }
  }

  lemma {:induction false} BumpOnce(w: Worker, ts: seq<Tag>, healthy: bool, register: bool, t: Tag)
    requires t in ts && NoDuplicates(ts)
    ensures Gauge(BumpTags(w, ts, healthy, register), t) == Gauge(w.gauges, t) + Delta(w, t, healthy, register)
  {
    var k := |ts| - 1;
    if ts[k] == t { BumpAbsent(w, ts[..k], healthy, register, t); } else { BumpOnce(w, ts[..k], healthy, register, t); }
  }

  lemma {:induction false} BumpAtLeast(w: Worker, ts: seq<Tag>, t: Tag)
    requires w.numFailingApplication >= 0
    ensures Gauge(BumpTags(w, ts, false, true), t) >= Gauge(w.gauges, t) + if t in ts then Delta(w, t, false, true) else 0
  {
    if ts != [] { BumpAtLeast(w, ts[..|ts| - 1], t); }
  }

  lemma {:induction false} BumpTwice(w: Worker, ts: seq<Tag>, i: nat, j: nat)
    requires w.numFailingApplication >= 0 && i < j < |ts| && ts[i] == ts[j]
    ensures Gauge(BumpTags(w, ts, false, true), ts[i]) > Gauge(w.gauges, ts[i]) + Delta(w, ts[i], false, true)
  {
    var k := |ts| - 1;
    if j < k {
      BumpTwice(w, ts[..k], i, j);
    } else {
      BumpAtLeast(w, ts[..k], ts[i]);
      assert ts[..k][i] == ts[i];
    }
  }

  // ---------------------------------------------------------------------------
  // Registering

  lemma TaggedNames(tags: map<Tag, set<Name>>, ts: seq<Tag>, name: Name, t: Tag)
    ensures t in Tagged(tags, ts, name) <==> t in tags || t in ts || t == ALL
    ensures Names(Tagged(tags, ts, name), t) == Names(tags, t) + if t in ts || t == ALL then {name} else {}
  {}

  lemma FailingWith(names: set<Name>, failing: map<Name, bool>, name: Name)
    requires name !in failing && name !in names
    ensures name !in FailingOf(names, failing)
    ensures FailingOf(names, failing[name := true]) == FailingOf(names, failing)
    ensures FailingOf(names + {name}, failing[name := true]) == FailingOf(names, failing) + {name}
  {}

  ghost function Added(w: Worker, name: Name, ts: seq<Tag>): Worker {
    w.(checks := w.checks[name := Check(APPLICATION in ts, ts)], failing := w.failing[name := true],
       tags := Tagged(w.tags, ts, name))
  }

  /** The new check fails for its tags, or for every tag if it is an application check. */
  lemma AddedFailing(w: Worker, name: Name, ts: seq<Tag>, t: Tag)
    requires name !in w.failing && name !in Names(w.tags, t) && name !in Names(w.tags, APPLICATION)
    ensures name !in FailingFor(w, t)
    ensures FailingFor(Added(w, name, ts), t) ==
              FailingFor(w, t) + if APPLICATION in ts || t in ts || t == ALL then {name} else {}
  {
    TagsDiffer();
    TaggedNames(w.tags, ts, name, t);
    TaggedNames(w.tags, ts, name, APPLICATION);
    var (w1, names) := (Added(w, name, ts), Names(w.tags, t) + Names(w.tags, APPLICATION));
    FailingWith(names, w.failing, name);
    assert Names(w1.tags, t) + Names(w1.tags, APPLICATION)
        == names + if APPLICATION in ts || t in ts || t == ALL then {name} else {};
  }

  lemma AddedSize(w: Worker, name: Name, ts: seq<Tag>, t: Tag)
    requires name !in w.failing && name !in Names(w.tags, t) && name !in Names(w.tags, APPLICATION)
    ensures |FailingFor(Added(w, name, ts), t)| ==
              |FailingFor(w, t)| + if APPLICATION in ts || t in ts || t == ALL then 1 else 0
  {
    AddedFailing(w, name, ts, t);
  }

  /** For a tag that is not there only the application checks fail. */
  lemma NewTagFailing(w: Worker, t: Tag)
    requires t !in w.tags
    ensures FailingFor(w, t) == FailingFor(w, APPLICATION)
  {
    assert Names(w.tags, t) + Names(w.tags, APPLICATION) == Names(w.tags, APPLICATION) + Names(w.tags, APPLICATION);
  }

  /** A new name is nowhere. */
  lemma NewName(w: Worker, name: Name, t: Tag)
    requires Fits(w) && name !in w.checks
    ensures name !in w.failing && name !in Names(w.tags, t)
  {
    assert Listed(w, t, name);
  }

  /** What is known of one tag of a worker whose maps fit and whose gauges are right. */
  ghost predicate Before(w: Worker, t: Tag) {
    && (t in w.tags ==> Accurate(w, t) && w.tags[t] != {})
    && (t !in w.tags ==> Gauge(w.gauges, t) == 0)
    && w.numFailingApplication == |FailingFor(w, APPLICATION)|
    && (t == ALL && t !in w.tags ==> w.numFailingApplication == 0)
  }

  lemma InvBefore(w: Worker, t: Tag)
    requires Inv(w)
    ensures Before(w, t)
  {
    if t in w.tags { assert Accurate(w, t); }
    if t == ALL && t !in w.tags {
      forall n ensures n !in Names(w.tags, APPLICATION) { assert Listed(w, APPLICATION, n) && Listed(w, ALL, n); }
      assert FailingFor(w, APPLICATION) == {};
    }
  }

  /** When registering keeps the gauges right: a list of tags without repetition, and for an
      application check no new tag while another one fails. */
  predicate Sound(w: Worker, ts: seq<Tag>) {
    if APPLICATION in ts then w.numFailingApplication == 0 || forall i :: 0 <= i < |ts| ==> ts[i] in w.tags
    else forall i, j :: 0 <= i < j < |ts| ==> ts[i] != ts[j]
  }

  /** The registered worker, before looking at its gauges. */
  lemma RegisteredIs(w: Worker, name: Name, ts: seq<Tag>)
    requires Register(w, name, ts).Success?
    ensures var (w1, w') := (Added(w, name, ts), Register(w, name, ts).value);
            && w'.tags == w1.tags && w'.failing == w1.failing && w'.checks == w1.checks
            && w'.gauges == (if APPLICATION in ts then BumpAll(w1, 1) else Bump(BumpTags(w1, ts, false, true), ALL, 1))
            && w'.numFailingApplication == w.numFailingApplication + if APPLICATION in ts then 1 else 0
  {}

  lemma RegisterApplicationAt(w: Worker, name: Name, ts: seq<Tag>, t: Tag)
    requires Before(w, t) && name !in w.failing && name !in Names(w.tags, t) && name !in Names(w.tags, APPLICATION)
    requires Register(w, name, ts).Success? && APPLICATION in ts && t in Register(w, name, ts).value.tags
    ensures Accurate(Register(w, name, ts).value, t) <==> t in w.tags || w.numFailingApplication == 0
  {
    RegisteredIs(w, name, ts);
    AddedSize(w, name, ts, t);
    if t !in w.tags { NewTagFailing(w, t); }
  }

  /** A tag of an ordinary check gets exactly the checks now failing for it. */
  lemma DeltaIsRight(w: Worker, name: Name, ts: seq<Tag>, t: Tag)
    requires Before(w, t) && name !in w.failing && name !in Names(w.tags, t) && name !in Names(w.tags, APPLICATION)
    requires t in ts
    ensures Gauge(w.gauges, t) + Delta(Added(w, name, ts), t, false, true) == |FailingFor(Added(w, name, ts), t)|
  {
    AddedSize(w, name, ts, t);
    TaggedNames(w.tags, ts, name, t);
    if t !in w.tags { NewTagFailing(w, t); }
    assert |Names(w.tags, t) + {name}| == |Names(w.tags, t)| + 1;
    assert Names(w.tags, t) == {} <==> t !in w.tags;
  }

  /** The gauge of one tag after an ordinary check was registered. */
  lemma PlainGauge(w1: Worker, ts: seq<Tag>, t: Tag)
    requires NoDuplicates(ts) && ALL !in ts
    ensures Gauge(Bump(BumpTags(w1, ts, false, true), ALL, 1), t) ==
              Gauge(w1.gauges, t) + if t in ts then Delta(w1, t, false, true) else if t == ALL then 1 else 0
  {
    if t in ts { BumpOnce(w1, ts, false, true, t); } else { BumpAbsent(w1, ts, false, true, t); }
  }

  lemma RegisterPlainAt(w: Worker, name: Name, ts: seq<Tag>, t: Tag)
    requires Before(w, t) && name !in w.failing && name !in Names(w.tags, t) && name !in Names(w.tags, APPLICATION)
    requires Register(w, name, ts).Success? && APPLICATION !in ts && t in Register(w, name, ts).value.tags
    requires NoDuplicates(ts)
    ensures Accurate(Register(w, name, ts).value, t)
  {
    RegisteredIs(w, name, ts);
    PlainGauge(Added(w, name, ts), ts, t);
    if t in ts { DeltaIsRight(w, name, ts, t); } else { OtherTag(w, name, ts, t); }
  }

  /** A tag that is not one of the check's is right as it was, and that of all checks one more. */
  lemma OtherTag(w: Worker, name: Name, ts: seq<Tag>, t: Tag)
    requires Before(w, t) && name !in w.failing && name !in Names(w.tags, t) && name !in Names(w.tags, APPLICATION)
    requires APPLICATION !in ts && t !in ts && t in Added(w, name, ts).tags
    ensures Gauge(w.gauges, t) + (if t == ALL then 1 else 0) == |FailingFor(Added(w, name, ts), t)|
  {
    AddedSize(w, name, ts, t);
    TaggedNames(w.tags, ts, name, t);
    if t !in w.tags { NewTagFailing(w, t); }
  }

  lemma RepeatedTagOvercounts(w: Worker, name: Name, ts: seq<Tag>, i: nat, j: nat)
    requires Register(w, name, ts).Success? && APPLICATION !in ts && i < j < |ts| && ts[i] == ts[j]
    requires Before(w, ts[i]) && name !in w.failing && name !in Names(w.tags, ts[i]) && name !in Names(w.tags, APPLICATION)
    ensures var w' := Register(w, name, ts).value; ts[i] in w'.tags && !Accurate(w', ts[i])
  {
    RegisteredIs(w, name, ts);
    BumpTwice(Added(w, name, ts), ts, i, j);
    DeltaIsRight(w, name, ts, ts[i]);
    TaggedNames(w.tags, ts, name, ts[i]);
  }

  lemma RegisterApplication(w: Worker, name: Name, ts: seq<Tag>)
    requires Inv(w) && Register(w, name, ts).Success? && APPLICATION in ts
    ensures AllAccurate(Register(w, name, ts).value) <==> Sound(w, ts)
  {
    var w' := Register(w, name, ts).value;
    forall t | t in w'.tags ensures Accurate(w', t) <==> t in w.tags || w.numFailingApplication == 0 {
      InvBefore(w, t);
      NewName(w, name, t);
      NewName(w, name, APPLICATION);
      RegisterApplicationAt(w, name, ts, t);
    }
    RegisteredIs(w, name, ts);
    InvBefore(w, ALL);
    forall t ensures t in w'.tags <==> t in w.tags || t in ts || t == ALL { TaggedNames(w.tags, ts, name, t); }
    if !Sound(w, ts) {
      var i :| 0 <= i < |ts| && ts[i] !in w.tags;
      assert ts[i] in w'.tags && !Accurate(w', ts[i]);
    }
  }

  lemma RegisterPlain(w: Worker, name: Name, ts: seq<Tag>)
    requires Inv(w) && Register(w, name, ts).Success? && APPLICATION !in ts
    ensures AllAccurate(Register(w, name, ts).value) <==> Sound(w, ts)
  {
    var w' := Register(w, name, ts).value;
    NewName(w, name, APPLICATION);
    if NoDuplicates(ts) {
      forall t | t in w'.tags ensures Accurate(w', t) {
        InvBefore(w, t);
        NewName(w, name, t);
        RegisterPlainAt(w, name, ts, t);
      }
    } else {
      var i, j :| 0 <= i < j < |ts| && ts[i] == ts[j];
      InvBefore(w, ts[i]);
      NewName(w, name, ts[i]);
      RepeatedTagOvercounts(w, name, ts, i, j);
    }
  }

  /** From right gauges, registering leaves right gauges exactly if the call is sound. */
  lemma RegisterAccurateIffSound(w: Worker, name: Name, ts: seq<Tag>)
    requires Inv(w) && Register(w, name, ts).Success?
    ensures AllAccurate(Register(w, name, ts).value) <==> Sound(w, ts)
  {
    if APPLICATION in ts { RegisterApplication(w, name, ts); } else { RegisterPlain(w, name, ts); }
  }

  lemma RegisterLists(w: Worker, name: Name, ts: seq<Tag>, t: Tag, n: Name)
    requires name !in w.checks && Listed(w, t, n)
    ensures Listed(Added(w, name, ts), t, n)
  {
    TaggedNames(w.tags, ts, name, t);
  }

  lemma RegisterNamesFit(w: Worker, name: Name, ts: seq<Tag>)
    requires NamesFit(w) && Register(w, name, ts).Success?
    ensures NamesFit(Register(w, name, ts).value)
  {
    RegisteredIs(w, name, ts);
    var w' := Register(w, name, ts).value;
    forall t, n ensures Listed(w', t, n) {
      assert Listed(w, t, n);
      RegisterLists(w, name, ts, t, n);
    }
    forall t | t in w'.tags ensures w'.tags[t] != {} {
      TaggedNames(w.tags, ts, name, t);
      assert Names(w'.tags, t) == w'.tags[t];
    }
  }

  lemma RegisterFits(w: Worker, name: Name, ts: seq<Tag>)
    requires Fits(w) && Register(w, name, ts).Success?
    ensures Fits(Register(w, name, ts).value)
  {
    RegisterNamesFit(w, name, ts);
    RegisteredIs(w, name, ts);
    var w' := Register(w, name, ts).value;
    NewName(w, name, APPLICATION);
    AddedSize(w, name, ts, APPLICATION);
    TagsDiffer();
    forall t | t !in w'.tags ensures Gauge(w'.gauges, t) == 0 {
      TaggedNames(w.tags, ts, name, t);
      if APPLICATION !in ts { BumpAbsent(Added(w, name, ts), ts, false, true, t); }
    }
  }

  lemma RegisterKeepsInv(w: Worker, name: Name, ts: seq<Tag>)
    requires Inv(w) && Register(w, name, ts).Success? && Sound(w, ts)
    ensures Inv(Register(w, name, ts).value)
  {
    RegisterFits(w, name, ts);
    RegisterAccurateIffSound(w, name, ts);
    RegisteredIs(w, name, ts);
  }

  // ---------------------------------------------------------------------------
  // Running a check

  lemma FailingTurned(names: set<Name>, failing: map<Name, bool>, name: Name, error: bool)
    requires name in failing && failing[name] == !error
    ensures FailingOf(names, failing[name := error]) ==
              if name !in names then FailingOf(names, failing)
              else if error then FailingOf(names, failing) + {name} else FailingOf(names, failing) - {name}
    ensures name in FailingOf(names, failing) <==> name in names && !error
  {}

  /** How many more checks fail for a tag after this one turned. */
  lemma TurnedSize(w: Worker, name: Name, error: bool, t: Tag)
    requires name in w.checks && name in w.failing && w.failing[name] == !error
    ensures var names := Names(w.tags, t) + Names(w.tags, APPLICATION);
            |FailingFor(RunCheck(w, name, error), t)| ==
              |FailingFor(w, t)| + if name !in names then 0 else if error then 1 else -1
  {
    FailingTurned(Names(w.tags, t) + Names(w.tags, APPLICATION), w.failing, name, error);
  }

  lemma RunGaugeAt(w: Worker, name: Name, error: bool, t: Tag)
    requires name in w.checks && name in w.failing && w.failing[name] == !error && t in w.tags
    requires var c := w.checks[name]; !c.application ==> NoDuplicates(c.tags) && ALL !in c.tags
    ensures var (c, d) := (w.checks[name], if error then 1 else -1);
            Gauge(RunCheck(w, name, error).gauges, t) ==
              Gauge(w.gauges, t) + if c.application || t in c.tags || t == ALL then d else 0
  {
    var c := w.checks[name];
    if !c.application {
      if t in c.tags { BumpOnce(w, c.tags, !error, false, t); } else { BumpAbsent(w, c.tags, !error, false, t); }
    }
  }

  lemma RunUnregisteredAt(w: Worker, name: Name, error: bool, t: Tag)
    requires name in w.checks && name in w.failing && t !in w.tags && Gauge(w.gauges, t) == 0 && t != ALL
    requires !w.checks[name].application ==> t !in w.checks[name].tags
    ensures Gauge(RunCheck(w, name, error).gauges, t) == 0
  {
    var c := w.checks[name];
    if !c.application { BumpAbsent(w, c.tags, !error, false, t); }
  }

  lemma RunCheckFrame(w: Worker, name: Name, error: bool)
    requires name in w.checks && name in w.failing
    ensures var w' := RunCheck(w, name, error);
            w'.tags == w.tags && w'.checks == w.checks && w'.failing == w.failing[name := error]
  {}

  lemma RunCheckKeepsNames(w: Worker, name: Name, error: bool)
    requires NamesFit(w) && name in w.checks
    ensures NamesFit(RunCheck(w, name, error))
  {
    RunCheckFrame(w, name, error);
    forall t, n ensures Listed(RunCheck(w, name, error), t, n) { assert Listed(w, t, n); }
  }

  lemma RunCheckCount(w: Worker, name: Name, error: bool)
    requires Fits(w) && name in w.checks
    ensures var w' := RunCheck(w, name, error); w'.numFailingApplication == |FailingFor(w', APPLICATION)|
  {
    RunCheckFrame(w, name, error);
    TagsDiffer();
    assert Listed(w, APPLICATION, name) && CheckFits(w.checks[name]);
    if error != w.failing[name] {
      TurnedSize(w, name, error, APPLICATION);
    } else {
      assert w.failing[name := error] == w.failing;
    }
  }

  lemma RunCheckKeepsFits(w: Worker, name: Name, error: bool)
    requires Fits(w) && name in w.checks
    ensures Fits(RunCheck(w, name, error))
  {
    RunCheckFrame(w, name, error);
    RunCheckKeepsNames(w, name, error);
    RunCheckCount(w, name, error);
    assert Listed(w, ALL, name);
    forall t | t !in w.tags ensures Gauge(RunCheck(w, name, error).gauges, t) == 0 {
      assert Listed(w, t, name);
      RunUnregisteredAt(w, name, error, t);
    }
  }

  /** Running a check keeps every gauge right. */
  lemma RunCheckKeepsInv(w: Worker, name: Name, error: bool)
    requires Inv(w) && name in w.checks
    ensures name in w.failing && Inv(RunCheck(w, name, error))
  {
    var w' := RunCheck(w, name, error);
    RunCheckKeepsFits(w, name, error);
    RunCheckFrame(w, name, error);
    TagsDiffer();
    if error != w.failing[name] {
      assert Listed(w, APPLICATION, name) && CheckFits(w.checks[name]);
      forall t | t in w'.tags ensures Accurate(w', t) {
        assert Accurate(w, t) && Listed(w, t, name);
        TurnedSize(w, name, error, t);
        RunGaugeAt(w, name, error, t);
      }
    } else {
      assert w'.failing == w.failing;
      forall t | t in w'.tags ensures Accurate(w', t) { assert Accurate(w, t); }
    }
  }

  // ---------------------------------------------------------------------------
  // What the calls say of a check

  /** The tag of all checks is refused first, then a name that is taken; otherwise the check is there
      with its tags, it fails until it has run, and no other check changes. */
  lemma RegisterIff(w: Worker, name: Name, ts: seq<Tag>, n: Name)
    ensures var r := Register(w, name, ts);
            && (r == Failure(RestrictedTag) <==> ALL in ts)
            && (r == Failure(DuplicateCheck) <==> ALL !in ts && name in w.checks)
            && (r.Success? ==>
                  && name in r.value.checks && r.value.checks[name].tags == ts
                  && (r.value.checks[name].application <==> APPLICATION in ts)
                  && name in r.value.failing && r.value.failing[name])
            && (r.Success? && n != name ==>
                  && (n in r.value.checks <==> n in w.checks) && (n in w.checks ==> r.value.checks[n] == w.checks[n])
                  && (n in r.value.failing <==> n in w.failing) && (n in w.failing ==> r.value.failing[n] == w.failing[n]))
  {
    if Register(w, name, ts).Success? { RegisteredIs(w, name, ts); }
  }

  /** A result is what the check last said, and of no other check. */
  lemma ResultIsLast(w: Worker, name: Name, error: bool, n: Name)
    requires name in w.checks && name in w.failing
    ensures var w' := RunCheck(w, name, error);
            && w'.checks == w.checks && w'.tags == w.tags
            && name in w'.failing && w'.failing[name] == error
            && (n != name ==> (n in w'.failing <==> n in w.failing) && (n in w.failing ==> w'.failing[n] == w.failing[n]))
  {
    RunCheckFrame(w, name, error);
  }

  // ---------------------------------------------------------------------------
  // Any run, and what `Results` says

  datatype Event = DoRegister(name: Name, tags: seq<Tag>) | DoRun(name: Name, error: bool)

  ghost predicate Step(w: Worker, w': Worker, e: Event) {
    match e
    case DoRegister(name, ts) =>
      var r := Register(w, name, ts);
      w' == if r.Failure? then w else r.value
    case DoRun(name, error) => name in w.checks && name in w.failing && w' == RunCheck(w, name, error)
  }

  ghost predicate Run(ws: seq<Worker>, events: seq<Event>) {
    && |ws| == |events| + 1 && ws[0] == NewWorker
    && forall k :: 0 <= k < |events| ==> Step(ws[k], ws[k + 1], events[k])
  }

  /** Anything but a registration that is accepted and not sound. */
  predicate SoundEvent(w: Worker, e: Event) {
    e.DoRegister? && Register(w, e.name, e.tags).Success? ==> Sound(w, e.tags)
  }

  /** No unsound registration among the first `k` events. */
  ghost predicate SoundSoFar(ws: seq<Worker>, events: seq<Event>, k: nat)
    requires k <= |events| < |ws|
  {
    forall j :: 0 <= j < k ==> SoundEvent(ws[j], events[j])
  }

  lemma SoundStepKeepsInv(w: Worker, w': Worker, e: Event)
    requires Inv(w) && Step(w, w', e) && SoundEvent(w, e)
    ensures Inv(w')
  {
    match e
    case DoRegister(name, ts) => if Register(w, name, ts).Success? { RegisterKeepsInv(w, name, ts); }
    case DoRun(name, error) => RunCheckKeepsInv(w, name, error);
  }

  /** Through any sound registrations, refused ones and check results, every gauge shows the
      number of failing checks. */
  lemma {:induction false} GaugesStayRight(ws: seq<Worker>, events: seq<Event>, k: nat)
    requires Run(ws, events) && k < |ws| && SoundSoFar(ws, events, k)
    ensures Inv(ws[k])
  {
    if k == 0 {
      assert FailingFor(NewWorker, APPLICATION) == {};
    } else {
      var j := k - 1;
      GaugesStayRight(ws, events, j);
      assert Step(ws[j], ws[j + 1], events[j]);
      SoundStepKeepsInv(ws[j], ws[j + 1], events[j]);
    }
  }

  /** The first event that is not sound. */
  lemma {:induction false} FirstUnsound(ws: seq<Worker>, events: seq<Event>, k: nat) returns (j: nat)
    requires k <= |events| < |ws| && !SoundSoFar(ws, events, k)
    ensures j < k && SoundSoFar(ws, events, j) && !SoundEvent(ws[j], events[j])
  {
    j := k - 1;
    if !SoundSoFar(ws, events, j) { j := FirstUnsound(ws, events, j); }
  }

  /** In a run with any registrations the gauges have been right all along exactly if none of
      the accepted ones was unsound. */
  lemma RightThroughoutIffSound(ws: seq<Worker>, events: seq<Event>, k: nat)
    requires Run(ws, events) && k < |ws|
    ensures (forall j :: 0 <= j <= k ==> AllAccurate(ws[j])) <==> SoundSoFar(ws, events, k)
  {
    if SoundSoFar(ws, events, k) {
      forall j | 0 <= j <= k ensures AllAccurate(ws[j]) { GaugesStayRight(ws, events, j); }
    } else {
      var j := FirstUnsound(ws, events, k);
      GaugesStayRight(ws, events, j);
      assert Step(ws[j], ws[j + 1], events[j]);
      RegisterAccurateIffSound(ws[j], events[j].name, events[j].tags);
      assert !AllAccurate(ws[j + 1]);
    }
  }

  /** The verdict of `Results` for one tag. */
  ghost predicate Healthy(w: Worker, t: Tag) { FailingFor(w, t) == {} }

  /** So a registered tag's gauge is zero exactly if `Results` says healthy. */
  lemma ZeroIffHealthy(ws: seq<Worker>, events: seq<Event>, k: nat, t: Tag)
    requires Run(ws, events) && k < |ws| && SoundSoFar(ws, events, k) && t in ws[k].tags
    ensures Gauge(ws[k].gauges, t) == 0 <==> Healthy(ws[k], t)
  {
    GaugesStayRight(ws, events, k);
    assert Accurate(ws[k], t);
  }

  /** Two application checks, the second with a tag of its own, and then the first one passes. */
  ghost function SecondBringsTag(a: Name, b: Name, t: Tag): seq<Event> {
    [DoRegister(a, [APPLICATION]), DoRegister(b, [APPLICATION, t]), DoRun(a, false)]
  }

  lemma FirstRegistered(a: Name, t: Tag)
    requires t != ALL && t != APPLICATION
    ensures var r := Register(NewWorker, a, [APPLICATION]);
            && r.Success? && r.value.checks.Keys == {a} && r.value.checks[a].application
            && a in r.value.failing && r.value.failing[a] && t !in r.value.tags && Gauge(r.value.gauges, t) == 0
  {
    TagsDiffer();
    RegisteredIs(NewWorker, a, [APPLICATION]);
    TaggedNames(NewWorker.tags, [APPLICATION], a, t);
  }

  lemma SecondRegistered(w: Worker, b: Name, t: Tag)
    requires b !in w.checks && t != ALL && t != APPLICATION && t !in w.tags && Gauge(w.gauges, t) == 0
    ensures var r := Register(w, b, [APPLICATION, t]);
            && r.Success? && r.value.checks == w.checks[b := Check(true, [APPLICATION, t])]
            && r.value.failing == w.failing[b := true]
            && t in r.value.tags && b in r.value.tags[t] && Gauge(r.value.gauges, t) == 1
  {
    TagsDiffer();
    var ts := [APPLICATION, t];
    assert ts[1] == t && ts[0] == APPLICATION;
    RegisteredIs(w, b, ts);
    TaggedNames(w.tags, ts, b, t);
  }

  lemma FirstPasses(w: Worker, a: Name, b: Name, t: Tag)
    requires a != b && a in w.checks && w.checks[a].application && a in w.failing && w.failing[a]
    requires b in w.failing && w.failing[b] && t in w.tags && b in w.tags[t] && Gauge(w.gauges, t) == 1
    ensures var w' := RunCheck(w, a, false); t in w'.tags && Gauge(w'.gauges, t) == 0 && !Healthy(w', t)
  {
    assert b in FailingFor(RunCheck(w, a, false), t);
  }

  lemma RunOfThree(w1: Worker, w2: Worker, w3: Worker, events: seq<Event>)
    requires |events| == 3
    requires Step(NewWorker, w1, events[0]) && Step(w1, w2, events[1]) && Step(w2, w3, events[2])
    ensures Run([NewWorker, w1, w2, w3], events)
  {}

  /** That is a run, and it ends with the tag's gauge at zero while a check fails for it. */
  lemma UnsoundRun(a: Name, b: Name, t: Tag) returns (ws: seq<Worker>)
    requires a != b && t != ALL && t != APPLICATION
    ensures Run(ws, SecondBringsTag(a, b, t)) && t in ws[3].tags
    ensures Gauge(ws[3].gauges, t) == 0 && !Healthy(ws[3], t)
  {
    FirstRegistered(a, t);
    var w1 := Register(NewWorker, a, [APPLICATION]).value;
    SecondRegistered(w1, b, t);
    var w2 := Register(w1, b, [APPLICATION, t]).value;
    FirstPasses(w2, a, b, t);
    ws := [NewWorker, w1, w2, RunCheck(w2, a, false)];
    RunOfThree(w1, w2, ws[3], SecondBringsTag(a, b, t));
  }

  // ---------------------------------------------------------------------------
  // The object

  class HealthWorker {
    var checks: map<Name, Check>
    var failing: map<Name, bool>
    var numFailingApplication: int
    var tags: map<Tag, set<Name>>
    var gauges: map<Tag, int>

    ghost function State(): Worker
      reads this
    {
      Worker(checks, failing, numFailingApplication, tags, gauges)
    }

    constructor ()
      ensures State() == NewWorker
    {
      checks, failing, numFailingApplication, tags := map[], map[], 0, map[];
      gauges := map[ALL := 0, APPLICATION := 0];
    }

    method AddToGauge(t: Tag, d: int)
      modifies this`gauges
      ensures gauges == Bump(old(gauges), t, d)
    {
      gauges := gauges[t := d + if t in gauges then gauges[t] else 0];
    }

    method AddToEveryTag(d: int)
      modifies this`gauges
      ensures gauges == BumpAll(old(State()), d)
    {
      var todo := tags.Keys;
      while todo != {}
        invariant todo <= tags.Keys
        invariant gauges.Keys == old(gauges).Keys + (tags.Keys - todo)
        invariant forall t :: Gauge(gauges, t) == Gauge(old(gauges), t) + if t in tags && t !in todo then d else 0
        decreases todo
      {
        var t :| t in todo;
        AddToGauge(t, d);
        todo := todo - {t};
      }
      assert forall t :: t in gauges ==> gauges[t] == Gauge(gauges, t);
      assert gauges == BumpAll(old(State()), d);
    }

    method AddToTags(ts: seq<Tag>, healthy: bool, register: bool)
      modifies this`gauges
      ensures gauges == BumpTags(old(State()), ts, healthy, register)
    {
      for i := 0 to |ts|
        invariant gauges == BumpTags(old(State()), ts[..i], healthy, register)
      {
        assert ts[..i + 1][..i] == ts[..i];
        var t := ts[i];
        var first := register && t in tags && |tags[t]| == 1;
        AddToGauge(t, if healthy then -1 else if first then 1 + numFailingApplication else 1);
      }
      assert ts[..|ts|] == ts;
    }

    method UpdateGauges(c: Check, healthy: bool, register: bool)
      modifies this`gauges, this`numFailingApplication
      ensures State() == UpdateMetrics(old(State()), c, healthy, register)
    {
      var d := if healthy then -1 else 1;
      if c.application {
        AddToEveryTag(d);
        numFailingApplication := numFailingApplication + d;
      } else {
        AddToTags(c.tags, healthy, register);
        AddToGauge(ALL, d);
      }
    }

    method AddName(t: Tag, name: Name)
      modifies this`tags
      ensures tags == old(tags)[t := Names(old(tags), t) + {name}]
    {
      var names := if t in tags then tags[t] else {};
      tags := tags[t := names + {name}];
    }

    method TagCheck(ts: seq<Tag>, name: Name)
      modifies this`tags
      ensures tags == Tagged(old(tags), ts, name)
    {
      for i := 0 to |ts|
        invariant forall t :: t in tags <==> t in old(tags) || t in ts[..i]
        invariant forall t :: Names(tags, t) == Names(old(tags), t) + if t in ts[..i] then {name} else {}
      {
        AddName(ts[i], name);
      }
      assert ts[..|ts|] == ts;
      AddName(ALL, name);
      forall t
        ensures t in tags <==> t in Tagged(old(tags), ts, name)
        ensures Names(tags, t) == Names(Tagged(old(tags), ts, name), t)
      {
        TaggedNames(old(tags), ts, name, t);
      }
      assert forall t :: t in tags ==> tags[t] == Names(tags, t);
    }

    method RegisterCheck(name: Name, ts: seq<Tag>) returns (r: Option<Error>)
      modifies this
      ensures var s := Register(old(State()), name, ts);
              if s.Success? then r.None? && State() == s.value else r == Some(s.error) && State() == old(State())
    {
      if ALL in ts { return Some(RestrictedTag); }
      if name in checks { return Some(DuplicateCheck); }
      TagCheck(ts, name);
      TaggedNames(old(tags), ts, name, APPLICATION);
      TagsDiffer();
      var c := Check(APPLICATION in ts, ts);
      checks := checks[name := c];
      failing := failing[name := true];
      UpdateGauges(c, false, true);
      return None;
    }

    /** One result of a check comes in. */
    method RunOne(name: Name, error: bool)
      requires name in checks && name in failing
      modifies this
      ensures State() == RunCheck(old(State()), name, error)
    {
      var before := failing[name];
      if error {
        if !before { UpdateGauges(checks[name], false, false); }
      } else if before {
        UpdateGauges(checks[name], true, false);
      }
      failing := failing[name := error];
    }

    /** The checks under any of the tags or under the application tag, and whether all pass. No
        tags stands for the tag of all checks. */
    method Results(ts: seq<Tag>) returns (results: map<Name, bool>, healthy: bool)
      ensures var asked := (if ts == [] then [ALL] else ts) + [APPLICATION];
              forall n :: n in results <==> n in failing && exists i :: 0 <= i < |asked| && n in Names(tags, asked[i])
      ensures forall n :: n in results ==> results[n] == failing[n]
      ensures healthy <==> forall n :: n in results ==> !results[n]
      ensures |ts| == 1 ==> (healthy <==> Healthy(State(), ts[0]))
    {
      var asked := (if ts == [] then [ALL] else ts) + [APPLICATION];
      var names: set<Name> := {};
      for i := 0 to |asked|
        invariant forall n :: n in names <==> exists j :: 0 <= j < i && n in Names(tags, asked[j])
      {
        if asked[i] in tags { names := names + tags[asked[i]]; }
      }
      results := map n | n in names && n in failing :: failing[n];
      healthy := true;
      var todo := names;
      while todo != {}
        invariant todo <= names
        invariant healthy <==> forall n :: n in results && n !in todo ==> !results[n]
        decreases todo
      {
        var n :| n in todo;
        if n in failing { healthy := healthy && !failing[n]; }
        todo := todo - {n};
      }
      if |ts| == 1 {
        assert asked == [ts[0], APPLICATION];
        forall n ensures n in FailingFor(State(), ts[0]) <==> n in results && results[n] {
          assert n in Names(tags, asked[0]) || n in Names(tags, asked[1]) <==> n in Names(tags, ts[0]) + Names(tags, APPLICATION);
        }
      }
    }
  }
}
