/** `buildManifest`: from retained evidence to the combinations a release certifies. Times are in milliseconds. */
module Manifest {
  import opened Assoc
  import opened Runner
  import opened Differential

  /** The identity a report carries; each part may be missing. */
  datatype Bound = Bound(buildHash: Option<string>, sourceFingerprint: Option<string>, node: Option<string>,
                         scenarioIds: Option<seq<string>>)

  datatype LiveTarget = LiveTarget(ok: bool, count: int, steps: int, realtime: bool)

  /** A time is `None` when it is not a string or does not parse. */
  datatype Certification =
    Certification(bound: Bound, at: Option<int>, certified: bool, targets: seq<Entry<LiveTarget>>)

  datatype LocalProfile =
    LocalProfile(name: string, ran: bool, reason: Option<string>, failures: int, scenarios: Option<int>)

  datatype LocalPair = LocalPair(a: string, b: string, compared: int, unexplained: int)

  datatype LocalEvidence = LocalEvidence(
    bound: Bound, at: Option<int>, suitePassed: bool, driftNone: bool, profiles: seq<LocalProfile>,
    pairs: Option<seq<LocalPair>>)

  datatype Evidence = Evidence(
    identity: Identity, currentBuild: Option<string>, certification: Option<Certification>,
    differential: Option<LocalEvidence>)

  datatype Reason =
    | NoLiveRun | LiveRunFailed | OtherBuild | LiveTimeStale | LiveUnbound
    | NoLocalEvidence | DidNotRun(why: string) | LocalFailedOrDrift | SuiteNotPassed | LocalUnbound | LocalTimeStale
    | CoverageIncomplete | NoComparison

  datatype Combo = Combo(profile: string, reason: Option<Reason>)

  datatype ReleaseManifest =
    ReleaseManifest(combos: seq<Combo>, requiredMissing: seq<string>, allRequiredProfilesCertified: bool)

  const LIVE: seq<string> := ["cloudflare-d1", "aws-dynamodb"]
  const LOCAL: seq<string> := ["node-postgres", "sqlite-node", "runtime-memory"]
  const REQUIRED: seq<string> := ["cloudflare-d1", "aws-dynamodb", "node-postgres", "sqlite-node", "runtime-memory"]
  const MINUTE: int := 60_000
  const NINETY_DAYS: int := 90 * 86_400_000

  predicate Fresh(at: Option<int>, now: Option<int>) {
    at.Some? && now.Some? && at.value <= now.value + MINUTE && now.value - at.value <= NINETY_DAYS
  }

  predicate IsBound(b: Bound, identity: Identity) {
    && b.buildHash == Some(identity.buildHash)
    && b.sourceFingerprint == Some(identity.sourceFingerprint)
    && b.node == Some(identity.node)
    && b.scenarioIds == Some(identity.scenarioIds)
  }

  predicate LivePassed(t: LiveTarget, c: Certification, identity: Identity) {
    t.ok && t.count == |identity.scenarioIds| && t.steps > 0 && t.realtime && c.certified
  }

  function LiveReason(e: Evidence, now: Option<int>, name: string): Option<Reason> {
    if e.certification.None? then Some(NoLiveRun)
    else
      var c := e.certification.value;
      var t := Find(c.targets, name);
      if t.None? then Some(NoLiveRun)
      else if !LivePassed(t.value, c, e.identity) then Some(LiveRunFailed)
      else if !(e.currentBuild.Some? && c.bound.buildHash == e.currentBuild) then Some(OtherBuild)
      else if !Fresh(c.at, now) then Some(LiveTimeStale)
      else if !IsBound(c.bound, e.identity) then Some(LiveUnbound)
      else None
  }

  function FindProfile(ps: seq<LocalProfile>, name: string): Option<LocalProfile> {
    if ps == [] then None else if ps[0].name == name then Some(ps[0]) else FindProfile(ps[1..], name)
  }

  /** A profile of that name ran every scenario without a failure. */
  predicate RanClean(d: LocalEvidence, name: string, n: int) {
    exists i :: 0 <= i < |d.profiles| && d.profiles[i].name == name && d.profiles[i].ran && d.profiles[i].failures == 0
      && d.profiles[i].scenarios == Some(n)
  }

  predicate CompletedPair(d: LocalEvidence, p: LocalPair, name: string, n: int) {
    && (p.a == name || p.b == name) && p.a != p.b
    && RanClean(d, p.a, n) && RanClean(d, p.b, n)
    && p.compared > 0 && p.unexplained == 0
  }

  predicate Compared(d: LocalEvidence, name: string, n: int) {
    d.pairs.Some? && exists k :: 0 <= k < |d.pairs.value| && CompletedPair(d, d.pairs.value[k], name, n)
  }

  function LocalReason(e: Evidence, now: Option<int>, name: string): Option<Reason> {
    if e.differential.None? || FindProfile(e.differential.value.profiles, name).None? then Some(NoLocalEvidence)
    else
      var d, n := e.differential.value, |e.identity.scenarioIds|;
      var p := FindProfile(d.profiles, name).value;
      if !p.ran then Some(DidNotRun(OrElse(p.reason, "profile did not run")))
      else if p.failures != 0 || !d.driftNone then Some(LocalFailedOrDrift)
      else if !d.suitePassed then Some(SuiteNotPassed)
      else if !IsBound(d.bound, e.identity) then Some(LocalUnbound)
      else if !Fresh(d.at, now) then Some(LocalTimeStale)
      else if p.scenarios != Some(n) then Some(CoverageIncomplete)
      else if !Compared(d, name, n) then Some(NoComparison)
      else None
  }

  function CombosOf(e: Evidence, now: Option<int>): seq<Combo> {
    seq(|LIVE|, i requires 0 <= i < |LIVE| => Combo(LIVE[i], LiveReason(e, now, LIVE[i])))
    + seq(|LOCAL|, i requires 0 <= i < |LOCAL| => Combo(LOCAL[i], LocalReason(e, now, LOCAL[i])))
  }

  predicate Certified(combos: seq<Combo>, name: string) {
    match FindCombo(combos, name) case Some(c) => c.reason.None? case None => false
  }

  function FindCombo(combos: seq<Combo>, name: string): Option<Combo> {
    if combos == [] then None else if combos[0].profile == name then Some(combos[0]) else FindCombo(combos[1..], name)
  }

  function Missing(combos: seq<Combo>, names: seq<string>): seq<string> {
    if names == [] then []
    else (if Certified(combos, names[0]) then [] else [names[0]]) + Missing(combos, names[1..])
  }

  // ------------------------------------------------ what certification rests on

  /** Evidence of this time counts from a minute before it to ninety days after it. */
  ghost predicate InTime(at: Option<int>, now: Option<int>) {
    at.Some? && now.Some? && at.value - 60_000 <= now.value <= at.value + 7_776_000_000
  }

  /** The evidence is about this build, source, runtime and list of scenarios. */
  ghost predicate About(b: Bound, build: string, source: string, node: string, scenarios: seq<string>) {
    && b.buildHash == Some(build) && b.sourceFingerprint == Some(source)
    && b.node == Some(node) && b.scenarioIds == Some(scenarios)
  }

  /** `t` is what the run retained for the target. */
  ghost predicate Retains(c: Certification, name: string, t: LiveTarget) {
    exists i :: 0 <= i < |c.targets| && c.targets[i] == Entry(name, t) && FirstTarget(c.targets, i)
  }

  ghost predicate FirstTarget(targets: seq<Entry<LiveTarget>>, i: nat)
    requires i < |targets|
  {
    forall j :: 0 <= j < i ==> targets[j].key != targets[i].key
  }

  /**
   * A live profile stands: a certified run of the current build, of the current identity and in time, retained the
   * target with all scenarios passed, some step taken, and realtime passed.
   */
  ghost predicate LiveStands(e: Evidence, now: Option<int>, name: string) {
    && e.certification.Some?
    && var c, id := e.certification.value, e.identity;
       && (exists t :: Retains(c, name, t) && t.ok && t.count == |id.scenarioIds| && t.steps > 0 && t.realtime)
       && c.certified
       && e.currentBuild.Some? && c.bound.buildHash == e.currentBuild
       && About(c.bound, id.buildHash, id.sourceFingerprint, id.node, id.scenarioIds)
       && InTime(c.at, now)
  }

  /** `p` is the report's profile of that name. */
  ghost predicate Lists(d: LocalEvidence, name: string, p: LocalProfile) {
    exists i :: 0 <= i < |d.profiles| && d.profiles[i] == p && p.name == name && FirstProfile(d.profiles, i)
  }

  ghost predicate FirstProfile(ps: seq<LocalProfile>, i: nat)
    requires i < |ps|
  {
    forall j :: 0 <= j < i ==> ps[j].name != ps[i].name
  }

  /** A profile of that name ran all `n` scenarios and had no failure. */
  ghost predicate RanAll(d: LocalEvidence, name: string, n: nat) {
    exists p :: p in d.profiles && p.name == name && p.ran && p.failures == 0 && p.scenarios == Some(n)
  }

  /** A comparison with another profile, both of which ran everything, recorded something and left no drift. */
  ghost predicate ComparedWell(d: LocalEvidence, p: LocalPair, name: string, n: nat) {
    && p.a != p.b && (p.a == name || p.b == name)
    && RanAll(d, p.a, n) && RanAll(d, p.b, n)
    && p.compared > 0 && p.unexplained == 0
  }

  /**
   * A local profile stands: the whole suite passed, in time and on the current identity, without drift; the profile
   * ran every scenario without a failure, and was compared.
   */
  ghost predicate LocalStands(e: Evidence, now: Option<int>, name: string) {
    && e.differential.Some?
    && var d, id := e.differential.value, e.identity;
       && (exists p :: Lists(d, name, p) && p.ran && p.failures == 0 && p.scenarios == Some(|id.scenarioIds|))
       && d.driftNone && d.suitePassed
       && About(d.bound, id.buildHash, id.sourceFingerprint, id.node, id.scenarioIds)
       && InTime(d.at, now)
       && d.pairs.Some? && exists p :: p in d.pairs.value && ComparedWell(d, p, name, |id.scenarioIds|)
  }

  lemma {:induction false} TargetFound(targets: seq<Entry<LiveTarget>>, name: string, i: nat)
    requires i < |targets| && targets[i].key == name && FirstTarget(targets, i)
    ensures Find(targets, name) == Some(targets[i].value)
  {
    if i > 0 {
      assert targets[0].key != targets[i].key;
      forall j | 0 <= j < i - 1 ensures targets[1..][j].key != targets[1..][i - 1].key {
        assert targets[1..][j] == targets[j + 1];
      }
      TargetFound(targets[1..], name, i - 1);
    }
  }

  lemma {:induction false} TargetPlace(targets: seq<Entry<LiveTarget>>, name: string) returns (i: nat)
    requires Find(targets, name).Some?
    ensures i < |targets| && targets[i] == Entry(name, Find(targets, name).value) && FirstTarget(targets, i)
  {
    if targets[0].key == name {
      i := 0;
    } else {
      i := TargetPlace(targets[1..], name);
      i := i + 1;
      assert forall j :: 0 < j < |targets| ==> targets[j] == targets[1..][j - 1];
    }
  }

  /** The run's entry for a target is the first of that name. */
  lemma {:induction false} RetainsExact(c: Certification, name: string, t: LiveTarget)
    ensures Retains(c, name, t) <==> Find(c.targets, name) == Some(t)
  {
    if i :| 0 <= i < |c.targets| && c.targets[i] == Entry(name, t) && FirstTarget(c.targets, i) {
      TargetFound(c.targets, name, i);
    }
    if Find(c.targets, name) == Some(t) {
      var i := TargetPlace(c.targets, name);
    }
  }

  /** No reason against a live profile means that it stands. */
  lemma {:induction false} LiveExact(e: Evidence, now: Option<int>, name: string)
    ensures LiveReason(e, now, name).None? <==> LiveStands(e, now, name)
  {
    if e.certification.Some? {
      var c := e.certification.value;
      forall t ensures Retains(c, name, t) <==> Find(c.targets, name) == Some(t) {
        RetainsExact(c, name, t);
      }
      assert Fresh(c.at, now) <==> InTime(c.at, now);
      if Find(c.targets, name).Some? {
        assert Retains(c, name, Find(c.targets, name).value);
      }
    }
  }

  lemma {:induction false} ProfileAt(ps: seq<LocalProfile>, name: string, i: nat)
    requires i < |ps| && ps[i].name == name && FirstProfile(ps, i)
    ensures FindProfile(ps, name) == Some(ps[i])
  {
    if i > 0 {
      assert ps[0].name != ps[i].name;
      forall j | 0 <= j < i - 1 ensures ps[1..][j].name != ps[1..][i - 1].name {
        assert ps[1..][j] == ps[j + 1];
      }
      ProfileAt(ps[1..], name, i - 1);
    }
  }

  lemma {:induction false} ProfilePlace(ps: seq<LocalProfile>, name: string) returns (i: nat)
    requires FindProfile(ps, name).Some?
    ensures i < |ps| && ps[i].name == name && FindProfile(ps, name) == Some(ps[i]) && FirstProfile(ps, i)
  {
    if ps[0].name == name {
      i := 0;
    } else {
      i := ProfilePlace(ps[1..], name);
      i := i + 1;
      assert forall j :: 0 < j < |ps| ==> ps[j] == ps[1..][j - 1];
    }
  }

  lemma {:induction false} ListsExact(d: LocalEvidence, name: string, p: LocalProfile)
    ensures Lists(d, name, p) <==> FindProfile(d.profiles, name) == Some(p)
  {
    if i :| 0 <= i < |d.profiles| && d.profiles[i] == p && p.name == name && FirstProfile(d.profiles, i) {
      ProfileAt(d.profiles, name, i);
    }
    if FindProfile(d.profiles, name) == Some(p) {
      var i := ProfilePlace(d.profiles, name);
    }
  }

  lemma {:induction false} ComparedExact(d: LocalEvidence, name: string, n: nat)
    ensures Compared(d, name, n) <==> d.pairs.Some? && exists p :: p in d.pairs.value && ComparedWell(d, p, name, n)
  {
    forall p: LocalPair ensures CompletedPair(d, p, name, n) <==> ComparedWell(d, p, name, n) {
      RanAllExact(d, p.a, n);
      RanAllExact(d, p.b, n);
    }
  }

  lemma {:induction false} RanAllExact(d: LocalEvidence, name: string, n: nat)
    ensures RanClean(d, name, n) <==> RanAll(d, name, n)
  {
  }

  /** No reason against a local profile means that it stands. */
  lemma {:induction false} LocalExact(e: Evidence, now: Option<int>, name: string)
    ensures LocalReason(e, now, name).None? <==> LocalStands(e, now, name)
  {
    if e.differential.Some? {
      var d := e.differential.value;
      forall p ensures Lists(d, name, p) <==> FindProfile(d.profiles, name) == Some(p) {
        ListsExact(d, name, p);
      }
      assert Fresh(d.at, now) <==> InTime(d.at, now);
      ComparedExact(d, name, |e.identity.scenarioIds|);
      if FindProfile(d.profiles, name).Some? {
        assert Lists(d, name, FindProfile(d.profiles, name).value);
      }
    }
  }

  // ------------------------------------------------------------------ the method

  /** The two live profiles and the three local ones. */
  ghost predicate Stands(e: Evidence, now: Option<int>, name: string) {
    || ((name == "cloudflare-d1" || name == "aws-dynamodb") && LiveStands(e, now, name))
    || ((name == "node-postgres" || name == "sqlite-node" || name == "runtime-memory") && LocalStands(e, now, name))
  }

  method BuildManifest(e: Evidence, now: Option<int>) returns (m: ReleaseManifest)
    ensures m.combos == CombosOf(e, now)
    ensures |m.combos| == |REQUIRED| && forall i :: 0 <= i < |REQUIRED| ==>
              m.combos[i].profile == REQUIRED[i] && (m.combos[i].reason.None? <==> Stands(e, now, REQUIRED[i]))
    ensures m.requiredMissing == Missing(m.combos, REQUIRED)
    ensures forall name :: name in m.requiredMissing <==> name in REQUIRED && !Stands(e, now, name)
    ensures m.allRequiredProfilesCertified <==> forall name :: name in REQUIRED ==> Stands(e, now, name)
  {
    CombosStand(e, now);
    forall name ensures name in Missing(CombosOf(e, now), REQUIRED) <==> name in REQUIRED && !Stands(e, now, name) {
      MissingExactly(e, now, name);
    }
    var combos := [];
    var all := CombosOf(e, now);
    for i := 0 to |LIVE|
      invariant combos == all[..i]
    {
      combos := combos + [Combo(LIVE[i], LiveReason(e, now, LIVE[i]))];
    }
    for i := 0 to |LOCAL|
      invariant combos == all[..|LIVE| + i]
    {
      combos := combos + [Combo(LOCAL[i], LocalReason(e, now, LOCAL[i]))];
    }
    assert all[..|all|] == all;
    var missing := Missing(combos, REQUIRED);
    assert missing != [] ==> missing[0] in missing;
    m := ReleaseManifest(combos, missing, |missing| == 0);
  }

  /** Each combination is certified if and only if its profile stands. */
  lemma {:induction false} CombosStand(e: Evidence, now: Option<int>)
    ensures var combos := CombosOf(e, now);
            |combos| == |REQUIRED| && forall i :: 0 <= i < |REQUIRED| ==>
              combos[i].profile == REQUIRED[i] && (combos[i].reason.None? <==> Stands(e, now, REQUIRED[i]))
  {
    NamesDiffer();
    var combos := CombosOf(e, now);
    assert REQUIRED == LIVE + LOCAL;
    forall i | 0 <= i < |REQUIRED|
      ensures combos[i].profile == REQUIRED[i] && (combos[i].reason.None? <==> Stands(e, now, REQUIRED[i]))
    {
      LiveExact(e, now, REQUIRED[i]);
      LocalExact(e, now, REQUIRED[i]);
    }
  }

  /** The names listed as missing are those of the required profiles that do not stand. */
  lemma {:induction false} MissingExactly(e: Evidence, now: Option<int>, name: string)
    ensures name in Missing(CombosOf(e, now), REQUIRED) <==> name in REQUIRED && !Stands(e, now, name)
  {
    var combos := CombosOf(e, now);
    CombosStand(e, now);
    InMissing(combos, REQUIRED, name);
    if k :| 0 <= k < |REQUIRED| && REQUIRED[k] == name {
      NamesDiffer();
      forall i, j | 0 <= i < j < |combos| ensures combos[i].profile != combos[j].profile {
        assert REQUIRED[i] != REQUIRED[j];
      }
      ComboFound(combos, k);
    }
  }

  lemma {:induction false} InMissing(combos: seq<Combo>, names: seq<string>, name: string)
    ensures name in Missing(combos, names) <==> name in names && !Certified(combos, name)
  {
    if names != [] {
      InMissing(combos, names[1..], name);
    }
  }

  /** What `allRequiredProfilesCertified` reports. */
  predicate AllRequired(e: Evidence, now: Option<int>) {
    Missing(CombosOf(e, now), REQUIRED) == []
  }

  // ------------------------------------------------------------------ verdict

  lemma {:induction false} MissingNone(combos: seq<Combo>, names: seq<string>)
    ensures Missing(combos, names) == [] <==> forall i :: 0 <= i < |names| ==> Certified(combos, names[i])
  {
    if names != [] {
      MissingNone(combos, names[1..]);
      assert forall i :: 0 < i < |names| ==> names[i] == names[1..][i - 1];
    }
  }

  lemma {:induction false} ComboFound(combos: seq<Combo>, k: nat)
    requires k < |combos| && forall i, j :: 0 <= i < j < |combos| ==> combos[i].profile != combos[j].profile
    ensures FindCombo(combos, combos[k].profile) == Some(combos[k])
  {
    if k > 0 {
      ComboFound(combos[1..], k - 1);
    }
  }

  /** The claim of full support is made exactly when no required profile has a reason against it. */
  lemma {:induction false} AllRequiredExact(e: Evidence, now: Option<int>)
    ensures AllRequired(e, now) <==>
            && (forall i :: 0 <= i < |LIVE| ==> LiveReason(e, now, LIVE[i]).None?)
            && (forall i :: 0 <= i < |LOCAL| ==> LocalReason(e, now, LOCAL[i]).None?)
  {
    var combos := CombosOf(e, now);
    MissingNone(combos, REQUIRED);
    assert REQUIRED == LIVE + LOCAL;
    NamesDiffer();
    forall i | 0 <= i < |REQUIRED|
      ensures combos[i].profile == REQUIRED[i] && FindCombo(combos, REQUIRED[i]) == Some(combos[i])
    {
      assert forall j :: 0 <= j < |combos| ==> combos[j].profile == REQUIRED[j];
      ComboFound(combos, i);
    }
    assert forall i :: 0 <= i < |LOCAL| ==> combos[|LIVE| + i] == Combo(LOCAL[i], LocalReason(e, now, LOCAL[i]));
  }

  lemma {:induction false} NamesDiffer()
    ensures Distinct(REQUIRED)
  {
    assert REQUIRED[0][0] == 'c' && REQUIRED[1][0] == 'a' && REQUIRED[2][0] == 'n' && REQUIRED[3][0] == 's'
      && REQUIRED[4][0] == 'r';
  }

  // ------------------------------------------------------------------- window

  function Max(a: int, b: int): int { if a < b then b else a }
  function Min(a: int, b: int): int { if a < b then a else b }

  predicate InWindow(live: int, local: int, now: int) {
    Max(live, local) - MINUTE <= now <= Min(live, local) + NINETY_DAYS
  }

  /**
   * For fixed evidence the moments at which every required profile is certified are none at all, or exactly
   * those from a minute before the later evidence to ninety days after the earlier one.
   */
  lemma {:induction false} CertificationWindow(e: Evidence, t: int, now: int)
    requires AllRequired(e, Some(t))
    ensures e.certification.Some? && e.certification.value.at.Some? && e.differential.Some?
            && e.differential.value.at.Some?
    ensures AllRequired(e, Some(now)) <==> InWindow(e.certification.value.at.value, e.differential.value.at.value, now)
  {
    AllRequiredExact(e, Some(t));
    AllRequiredExact(e, Some(now));
    assert LiveReason(e, Some(t), LIVE[0]).None? && LocalReason(e, Some(t), LOCAL[0]).None?;
    var live, local := e.certification.value.at, e.differential.value.at;
    assert InWindow(live.value, local.value, now) <==> Fresh(live, Some(now)) && Fresh(local, Some(now));
    forall i | 0 <= i < |LIVE| ensures LiveReason(e, Some(now), LIVE[i]).None? <==> Fresh(live, Some(now)) {
      assert LiveReason(e, Some(t), LIVE[i]).None?;
    }
    forall i | 0 <= i < |LOCAL| ensures LocalReason(e, Some(now), LOCAL[i]).None? <==> Fresh(local, Some(now)) {
      assert LocalReason(e, Some(t), LOCAL[i]).None?;
    }
    if AllRequired(e, Some(now)) {
      assert LiveReason(e, Some(now), LIVE[0]).None? && LocalReason(e, Some(now), LOCAL[0]).None?;
    }
  }

  /** Evidence gathered more than ninety days and a minute apart never certifies all five profiles. */
  lemma {:induction false} EvidenceTooFarApart(e: Evidence, now: Option<int>)
    requires e.certification.Some? && e.certification.value.at.Some? && e.differential.Some?
             && e.differential.value.at.Some?
    requires Max(e.certification.value.at.value, e.differential.value.at.value)
           - Min(e.certification.value.at.value, e.differential.value.at.value) > NINETY_DAYS + MINUTE
    ensures !AllRequired(e, now)
  {
    AllRequiredExact(e, now);
    assert !Fresh(e.certification.value.at, now) || !Fresh(e.differential.value.at, now);
    assert LiveReason(e, now, LIVE[0]).Some? || LocalReason(e, now, LOCAL[0]).Some?;
  }
}
