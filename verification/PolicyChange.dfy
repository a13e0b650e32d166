/**
 Of a source policy, a secure build and the run around it use nothing but where each declared name is bound: another
 policy that decides those names alike, and another world that answers alike for what they are bound to, give the
 same ledger, audit records, requests and report.
 */
module PolicyChange {
  import opened Prelude
  import opened Network
  import opened Fixtures
  import opened Ledger
  import opened SourcePolicy
  import opened Resolver
  import opened ReleaseGate
  import opened BuildLaws
  import opened GateLaws
  import BuildManifest

  // ----- builds -----

  ghost predicate DecideAllAlike(p: Policy, q: Policy, deps: seq<BuildManifest.Dependency>)
  {
    forall dep :: dep in deps ==> DecideAlike(p, q, dep.name)
  }

  /* Two builds accept the same content, ask the same, and stop, if they do, on the same alias for the same reason. */
  ghost predicate BuiltAlike(b: Built, b': Built)
  {
    && Essences(b.resolutions) == Essences(b'.resolutions) && b.calls == b'.calls
    && match (b.stopped, b'.stopped)
       case (None, None) => true
       case (Some(s), Some(t)) => s.alias == t.alias && s.failure == t.failure
       case _ => false
  }

  lemma OneIgnoresRestOfPolicy(job: Job, other: Job, dep: BuildManifest.Dependency, before: seq<Call>)
    requires job.secure && other == job.(policy := other.policy) && DecideAlike(job.policy, other.policy, dep.name)
    ensures var r, r' := ResolveOne(job, dep, before), ResolveOne(other, dep, before);
            && r.failure == r'.failure && r.calls == r'.calls
            && (r.failure == None ==> Essence(r.record) == Essence(r'.record))
  {
    DecidedAlikeResolvesAlike(DepInputs(job, dep, before), DepInputs(other, dep, before));
  }

  /* A secure build comes out alike under any two policies that decide every declared name alike. */
  lemma {:induction false} BuildIgnoresRestOfPolicy(job: Job, other: Job, deps: seq<BuildManifest.Dependency>,
                                                    before: seq<Call>)
    requires job.secure && other == job.(policy := other.policy) && DecideAllAlike(job.policy, other.policy, deps)
    ensures BuiltAlike(Build(job, deps, before), Build(other, deps, before))
  {
    if deps != [] {
      assert deps[0] in deps && forall dep :: dep in deps[1..] ==> dep in deps;
      OneIgnoresRestOfPolicy(job, other, deps[0], before);
      var r, r' := ResolveOne(job, deps[0], before), ResolveOne(other, deps[0], before);
      if r.failure == None {
        BuildIgnoresRestOfPolicy(job, other, deps[1..], before + r.calls);
        EssencesCons(r.record, Build(job, deps[1..], before + r.calls).resolutions);
        EssencesCons(r'.record, Build(other, deps[1..], before + r.calls).resolutions);
      }
    }
  }

  // ----- runs -----

  /* What a run does to ledger and audit log, what it asks, and what it reports. */
  ghost predicate SameEffect(e: Effect, f: Effect)
  {
    e.ledger == f.ledger && e.records == f.records && e.calls == f.calls && VisibleOf(e.result) == VisibleOf(f.result)
  }

  lemma ConcludeIgnoresWorld(r: Run, s: Run, current: Ledger, project: string, built: Built)
    requires s == r.(world := s.world)
    ensures Conclude(r, current, project, built) == Conclude(s, current, project, built)
  {
  }

  /* A secure run in two worlds that answer alike whatever a source is asked about a name the policy binds to it is
     one and the same run: result, records of every resolution, ledger, audit log and requests. */
  lemma RunNonInterference(r: Run, s: Run, file: LedgerFile)
    requires s == r.(world := s.world) && r.scenario.resolver == RESOLVER_SECURE
    requires PolicyLoads(r.store, r.scenario.sourcePolicy) ==>
               AgreeOnBound(r.store.policies[r.scenario.sourcePolicy], r.world, s.world)
    ensures EffectOf(r, file) == EffectOf(s, file)
  {
    SameObstacle(r, s, file);
    if Starts(r, file) {
      BuildNonInterference(JobOf(r), JobOf(s), r.store.manifests[r.scenario.manifest].dependencies, r.before);
      ConcludeIgnoresWorld(r, s, LoadedFrom(file).value, r.store.manifests[r.scenario.manifest].project, BuiltBy(r));
    }
  }

  lemma ConcludeStopped(r: Run, s: Run, current: Ledger, project: string, built: Built, built': Built)
    requires SameScenario(r, s) && built.stopped.Some? && built'.stopped.Some?
    requires built.stopped.value.alias == built'.stopped.value.alias
    requires built.stopped.value.failure == built'.stopped.value.failure
    ensures var e, f := Conclude(r, current, project, built), Conclude(s, current, project, built');
            e.ledger == f.ledger && e.records == f.records && VisibleOf(e.result) == VisibleOf(f.result)
  {
  }

  /* The same run under another policy: both load or neither does, and every declared name is decided alike. */
  ghost predicate PolicyChanged(r: Run, s: Run)
  {
    && s == r.(store := r.store.(policies := s.store.policies))
    && (PolicyLoads(r.store, r.scenario.sourcePolicy) <==> PolicyLoads(s.store, s.scenario.sourcePolicy))
    && (PolicyLoads(r.store, r.scenario.sourcePolicy) && ManifestLoads(r.store, r.scenario.manifest) ==>
          DecideAllAlike(r.store.policies[r.scenario.sourcePolicy], s.store.policies[s.scenario.sourcePolicy],
                         r.store.manifests[r.scenario.manifest].dependencies))
  }

  lemma PolicyChangedBuilds(r: Run, s: Run, file: LedgerFile)
    requires PolicyChanged(r, s) && r.scenario.resolver == RESOLVER_SECURE && Starts(r, file)
    ensures Starts(s, file) && BuiltAlike(BuiltBy(r), BuiltBy(s))
    ensures BuiltBy(r).stopped == None ==> SameConsulted(BuiltBy(r), BuiltBy(s))
  {
    SameObstacle(r, s, file);
    var deps := r.store.manifests[r.scenario.manifest].dependencies;
    BuildIgnoresRestOfPolicy(JobOf(r), JobOf(s), deps, r.before);
    if BuiltBy(r).stopped == None {
      EssencesDetermineConsulted(JobOf(r), JobOf(s), deps, r.before, s.before);
    }
  }

  /* A secure run does, asks and reports the same under any two policies that decide every declared name alike. */
  lemma RunIgnoresRestOfPolicy(r: Run, s: Run, file: LedgerFile)
    requires PolicyChanged(r, s) && r.scenario.resolver == RESOLVER_SECURE
    ensures SameEffect(EffectOf(r, file), EffectOf(s, file))
  {
    SameObstacle(r, s, file);
    if Starts(r, file) {
      PolicyChangedBuilds(r, s, file);
      StartedRunIgnoresPolicy(r, s, file);
    }
  }

  lemma StartedRunIgnoresPolicy(r: Run, s: Run, file: LedgerFile)
    requires SameScenario(r, s) && Starts(r, file) && Starts(s, file) && BuiltAlike(BuiltBy(r), BuiltBy(s))
    requires BuiltBy(r).stopped == None ==> SameConsulted(BuiltBy(r), BuiltBy(s))
    ensures SameEffect(EffectOf(r, file), EffectOf(s, file))
  {
    var project, current := r.store.manifests[r.scenario.manifest].project, LoadedLedger(file);
    EffectWhenStarted(r, file);
    EffectWhenStarted(s, file);
    ConcludeCalls(r, current, project, BuiltBy(r));
    ConcludeCalls(s, current, project, BuiltBy(s));
    if BuiltBy(r).stopped == None {
      RunDetermined(r, s, file);
    } else {
      ConcludeStopped(r, s, current, project, BuiltBy(r), BuiltBy(s));
    }
  }

  /* In particular, listing the sources and mappings of the policy in another order changes nothing of a secure run. */
  lemma RunIgnoresPolicyOrder(r: Run, s: Run, file: LedgerFile)
    requires s == r.(store := r.store.(policies := s.store.policies)) && r.scenario.resolver == RESOLVER_SECURE
    requires r.scenario.sourcePolicy in r.store.policies && r.scenario.sourcePolicy in s.store.policies
    requires Widened(r.store.policies[r.scenario.sourcePolicy], s.store.policies[r.scenario.sourcePolicy], [], [])
    ensures SameEffect(EffectOf(r, file), EffectOf(s, file))
  {
    var p, q := r.store.policies[r.scenario.sourcePolicy], s.store.policies[r.scenario.sourcePolicy];
    forall name ensures DecideAlike(p, q, name) {
      ReorderedDecidesAlike(p, q, name);
    }
    assert DecideAlike(p, q, "");
    RunIgnoresRestOfPolicy(r, s, file);
  }
}
