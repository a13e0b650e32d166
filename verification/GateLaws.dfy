/** What one run of internal/releasegate promises, and what any sequence of runs does to ledger and audit log. */
module GateLaws {
  import opened Prelude
  import opened Network
  import opened Ledger
  import opened Audit
  import opened Fixtures
  import opened Resolver
  import opened ReleaseGate
  import opened BuildLaws
  import BuildManifest
  import Lockfile
  import PkgArchive

  // ----- what the audit log lets through -----

  /* The leak filter passes the program's own alias and candidate ids, and correlation ids are not empty. */
  ghost predicate SpeaksCleanly(t: Text)
  {
    && (forall s :: t.correlation(s) != "")
    && t.clean("") && t.clean(ALIAS_RELEASE_POLICY)
    && forall key :: PkgArchive.AcceptedValues(PkgArchive.KIND_RELEASE_POLICY, key) != [] ==> t.clean(key)
  }

  ghost predicate Reportable(t: Text, scenarioId: string, alias: string, candidateId: string)
  {
    scenarioId != "" && t.clean(scenarioId) && t.clean(alias) && t.clean(candidateId)
  }

  // ----- one run -----

  function Rows(f: LedgerFile): seq<Entry>
  {
    if f.Stored? then f.ledger.entries else []
  }

  function LoadedLedger(file: LedgerFile): Ledger
  {
    match LoadedFrom(file) case Some(l) => l case None => FRESH
  }

  /* The release-policy record a build leaves for the gate to consult, if it finishes. */
  function ConsultedIn(built: Built): Option<Resolution>
  {
    if built.stopped.Some? then None else WithAlias(built.resolutions, ALIAS_RELEASE_POLICY)
  }

  /* What a record says about a candidate, if it is a release policy that mentions it. */
  function VerdictIn(consulted: Option<Resolution>, candidate: string): Option<string>
  {
    match consulted
    case None => None
    case Some(res) =>
      if res.pkg.None? || res.pkg.value.policy.kind != PkgArchive.KIND_RELEASE_POLICY then None
      else PkgArchive.LookupIn(res.pkg.value.policy.entries, candidate)
  }

  ghost function Consulted(r: Run, file: LedgerFile): Option<Resolution>
  {
    if Obstacle(r, file).Some? then None else ConsultedIn(BuiltBy(r))
  }

  ghost function Verdict(r: Run, file: LedgerFile): Option<string>
  {
    VerdictIn(Consulted(r, file), r.scenario.candidate)
  }

  ghost predicate ApprovesFresh(r: Run, file: LedgerFile)
  {
    Verdict(r, file) == Some(PkgArchive.VERDICT_APPROVE) && !Approved(LoadedLedger(file), r.scenario.candidate)
  }

  /* The row a fresh approval writes. */
  ghost function RowOf(r: Run, file: LedgerFile): Entry
    requires Consulted(r, file).Some?
  {
    NewRow(r.scenario.candidate, Consulted(r, file).value)
  }

  /* A consulted record carries a package with a valid table. */
  ghost predicate Sound(consulted: Option<Resolution>)
  {
    consulted.Some? ==> consulted.value.pkg.Some? && PkgArchive.ValidTable(consulted.value.pkg.value.policy)
  }

  lemma ConsultedHasPackage(r: Run, file: LedgerFile)
    ensures Sound(Consulted(r, file))
    ensures Consulted(r, file).Some? ==>
              && Consulted(r, file).value in BuiltBy(r).resolutions
              && Consulted(r, file).value.alias == ALIAS_RELEASE_POLICY
  {
    if Consulted(r, file).Some? {
      BuiltPackagesAreValid(JobOf(r), r.store.manifests[r.scenario.manifest].dependencies, r.before);
      WithAliasFinds(BuiltBy(r).resolutions, ALIAS_RELEASE_POLICY);
    }
  }

  /* What a finished dependency loop leads to, case by case. */
  lemma ConcludeShape(r: Run, current: Ledger, project: string, built: Built)
    requires Sound(ConsultedIn(built))
    ensures var e, consulted := Conclude(r, current, project, built), ConsultedIn(built);
            var verdict := VerdictIn(consulted, r.scenario.candidate);
            var approves := verdict == Some(PkgArchive.VERDICT_APPROVE) && !Approved(current, r.scenario.candidate);
            && e.ledger == Stored(if approves then Grown(current, NewRow(r.scenario.candidate, consulted.value))
                                  else current)
            && |e.records| == (if e.result.Completed? then 1 else 0)
            && (e.result.Completed? ==> e.result.outcome.auditEvents == e.records)
            && (e.records != [] ==> (e.records[0].event == ReleaseApproved <==> approves))
            && (e.result == Aborted(NoReleasePolicy) <==> built.stopped == None && consulted == None)
            && (e.result.Aborted? ==> e.result.reason in {NoReleasePolicy, AuditRefused})
  {
    var consulted := ConsultedIn(built);
    if consulted.Some? {
      var policy := consulted.value.pkg.value.policy;
      PkgArchive.VerdictsAreTotal(policy, policy.entries, r.scenario.candidate);
    }
  }

  lemma EffectWhenStarted(r: Run, file: LedgerFile)
    requires Starts(r, file)
    ensures EffectOf(r, file) ==
            Conclude(r, LoadedLedger(file), r.store.manifests[r.scenario.manifest].project, BuiltBy(r))
    ensures Consulted(r, file) == ConsultedIn(BuiltBy(r)) && Sound(ConsultedIn(BuiltBy(r)))
    ensures LoadedLedger(file).entries == Rows(file)
  {
    ConsultedHasPackage(r, file);
  }

  lemma EffectWhenObstructed(r: Run, file: LedgerFile)
    requires !Starts(r, file)
    ensures var e := EffectOf(r, file);
            && e.result == Aborted(Obstacle(r, file).value) && e.records == [] && e.calls == []
            && (e.ledger == file || e.ledger == FileAfterLoad(file)) && Consulted(r, file) == None
    ensures Obstacle(r, file).value in {NotAcknowledged, BadLedger, BadFixture, UnknownResolver}
  {
  }

  /* The package parser lets only APPROVE and REJECT through, so no run ends on an unvalidated verdict,
     and one that finishes its build lacks a release policy only when the manifest declares none. */
  lemma VerdictBranchesAreTotal(r: Run, file: LedgerFile)
    ensures Verdict(r, file) in {None, Some(PkgArchive.VERDICT_APPROVE), Some(PkgArchive.VERDICT_REJECT)}
    ensures EffectOf(r, file).result != Aborted(UnvalidatedVerdict)
    ensures EffectOf(r, file).result == Aborted(NoReleasePolicy) <==>
              Starts(r, file) && BuiltBy(r).stopped == None && !HasReleasePolicy(r)
  {
    ConsultedHasPackage(r, file);
    if Consulted(r, file).Some? {
      var policy := Consulted(r, file).value.pkg.value.policy;
      PkgArchive.VerdictsAreTotal(policy, policy.entries, r.scenario.candidate);
    }
    if Starts(r, file) {
      StartedShape(r, file);
      ConsultedWhenDeclared(r);
    } else {
      EffectWhenObstructed(r, file);
    }
  }

  lemma ConsultedWhenDeclared(r: Run)
    requires PolicyLoads(r.store, r.scenario.sourcePolicy) && LockLoads(r.store, r.scenario.lock)
    requires ManifestLoads(r.store, r.scenario.manifest)
    ensures BuiltBy(r).stopped == None ==> (ConsultedIn(BuiltBy(r)).Some? <==> HasReleasePolicy(r))
  {
    var deps, built := r.store.manifests[r.scenario.manifest].dependencies, BuiltBy(r);
    BuiltPackagesAreValid(JobOf(r), deps, r.before);
    if built.stopped == None {
      AliasIsAnswered(deps, built.resolutions);
    }
  }

  lemma AliasIsAnswered(deps: seq<BuildManifest.Dependency>, resolutions: seq<Resolution>)
    requires |resolutions| == |deps| && AllAnswer(deps, resolutions)
    ensures WithAlias(resolutions, ALIAS_RELEASE_POLICY).Some? <==>
            exists d :: d in deps && d.alias == ALIAS_RELEASE_POLICY
  {
    WithAliasFinds(resolutions, ALIAS_RELEASE_POLICY);
    if d :| d in deps && d.alias == ALIAS_RELEASE_POLICY {
      var i :| 0 <= i < |deps| && deps[i] == d;
      assert resolutions[i] in resolutions;
    }
    if WithAlias(resolutions, ALIAS_RELEASE_POLICY).Some? {
      var i :| 0 <= i < |resolutions| && resolutions[i] == WithAlias(resolutions, ALIAS_RELEASE_POLICY).value;
      assert deps[i] in deps;
    }
  }

  /* What a run that gets to its dependency loop does, case by case. */
  lemma StartedShape(r: Run, file: LedgerFile)
    requires Starts(r, file)
    ensures ApprovesFresh(r, file) ==> Consulted(r, file).Some?
    ensures LoadedLedger(file).entries == Rows(file) && LoadedFrom(file) == Some(LoadedLedger(file))
    ensures var e, current := EffectOf(r, file), LoadedLedger(file);
            && e.ledger == Stored(if ApprovesFresh(r, file) then Grown(current, RowOf(r, file)) else current)
            && |e.records| == (if e.result.Completed? then 1 else 0)
            && (e.result.Completed? ==> e.result.outcome.auditEvents == e.records)
            && (e.records != [] ==> (e.records[0].event == ReleaseApproved <==> ApprovesFresh(r, file)))
            && (e.result == Aborted(NoReleasePolicy) <==> BuiltBy(r).stopped == None && ConsultedIn(BuiltBy(r)) == None)
            && (e.result.Aborted? ==> e.result.reason in {NoReleasePolicy, AuditRefused})
  {
    EffectWhenStarted(r, file);
    ConcludeShape(r, LoadedLedger(file), r.store.manifests[r.scenario.manifest].project, BuiltBy(r));
  }

  /* The ledger gains a row exactly on a fresh approval, whatever else happens to the run. */
  lemma LedgerGrowsByApproval(r: Run, file: LedgerFile)
    ensures ApprovesFresh(r, file) ==> Consulted(r, file).Some?
    ensures Rows(EffectOf(r, file).ledger) == Rows(file) + if ApprovesFresh(r, file) then [RowOf(r, file)] else []
    ensures LoadedFrom(file).Some? ==> LoadedFrom(EffectOf(r, file).ledger).Some?
  {
    if !Starts(r, file) {
      ObstructedRunKeepsRows(r, file);
    } else if ApprovesFresh(r, file) {
      ApprovingRunGrows(r, file);
    } else {
      OtherRunKeepsRows(r, file);
    }
  }

  lemma ApprovingRunGrows(r: Run, file: LedgerFile)
    requires Starts(r, file) && ApprovesFresh(r, file)
    ensures Consulted(r, file).Some? && Rows(EffectOf(r, file).ledger) == Rows(file) + [RowOf(r, file)]
    ensures LoadedFrom(EffectOf(r, file).ledger).Some?
  {
    StartedShape(r, file);
  }

  lemma OtherRunKeepsRows(r: Run, file: LedgerFile)
    requires Starts(r, file) && !ApprovesFresh(r, file)
    ensures Rows(EffectOf(r, file).ledger) == Rows(file) && LoadedFrom(EffectOf(r, file).ledger).Some?
  {
    StartedShape(r, file);
  }

  lemma ObstructedRunKeepsRows(r: Run, file: LedgerFile)
    requires !Starts(r, file)
    ensures !ApprovesFresh(r, file) && Rows(EffectOf(r, file).ledger) == Rows(file)
    ensures LoadedFrom(file).Some? ==> LoadedFrom(EffectOf(r, file).ledger).Some?
  {
    EffectWhenObstructed(r, file);
  }

  /* The one record a completed run adds, and none otherwise. */
  lemma RecordPerCompletedRun(r: Run, file: LedgerFile)
    ensures var e := EffectOf(r, file);
            && |e.records| == (if e.result.Completed? then 1 else 0)
            && (e.result.Completed? ==> e.result.outcome.auditEvents == e.records)
            && (e.records != [] ==> (e.records[0].event == ReleaseApproved <==> ApprovesFresh(r, file)))
  {
    if Starts(r, file) {
      StartedShape(r, file);
    } else {
      EffectWhenObstructed(r, file);
    }
  }

  ghost predicate HasReleasePolicy(r: Run)
    requires r.scenario.manifest in r.store.manifests
  {
    exists d :: d in r.store.manifests[r.scenario.manifest].dependencies && d.alias == ALIAS_RELEASE_POLICY
  }

  /* The consulted policy is of the kind the gate evaluates. */
  ghost predicate ConsultsReleasePolicy(consulted: Option<Resolution>)
  {
    && consulted.Some? && consulted.value.pkg.Some?
    && consulted.value.pkg.value.policy.kind == PkgArchive.KIND_RELEASE_POLICY
  }

  lemma ConcludeCompletes(r: Run, current: Ledger, project: string, built: Built)
    requires SpeaksCleanly(r.host.text)
    requires built.stopped == None && Sound(ConsultedIn(built)) && ConsultedIn(built).Some?
    ensures Conclude(r, current, project, built).result.Completed? <==>
              && r.scenario.id != "" && r.host.text.clean(r.scenario.id)
              && (ConsultsReleasePolicy(ConsultedIn(built)) ==> r.host.text.clean(r.scenario.candidate))
  {
    var policy := ConsultedIn(built).value.pkg.value.policy;
    PkgArchive.VerdictsAreTotal(policy, policy.entries, r.scenario.candidate);
  }

  /* A run whose build finishes completes exactly when the manifest declares a release policy and what it
     would record may be reported: the scenario id, and the candidate too unless the policy is of another kind. */
  lemma FinishedBuildCompletes(r: Run, file: LedgerFile)
    requires SpeaksCleanly(r.host.text) && Starts(r, file) && BuiltBy(r).stopped == None
    ensures EffectOf(r, file).result.Completed? <==>
              && HasReleasePolicy(r) && r.scenario.id != "" && r.host.text.clean(r.scenario.id)
              && (ConsultsReleasePolicy(Consulted(r, file)) ==> r.host.text.clean(r.scenario.candidate))
    ensures EffectOf(r, file).result == Aborted(NoReleasePolicy) <==> !HasReleasePolicy(r)
  {
    EffectWhenStarted(r, file);
    ConsultedWhenDeclared(r);
    ConcludeShape(r, LoadedLedger(file), r.store.manifests[r.scenario.manifest].project, BuiltBy(r));
    if HasReleasePolicy(r) {
      ConcludeCompletes(r, LoadedLedger(file), r.store.manifests[r.scenario.manifest].project, BuiltBy(r));
    }
  }

  /* The same run about another candidate, which the store knows. */
  function Recandidated(r: Run, id: string): Run
  {
    r.(scenario := r.scenario.(candidate := id), store := r.store.(candidates := r.store.candidates + {id}))
  }

  lemma RecandidatedConsultsTheSame(r: Run, file: LedgerFile, id: string)
    requires Starts(r, file)
    ensures Starts(Recandidated(r, id), file) && BuiltBy(Recandidated(r, id)) == BuiltBy(r)
    ensures Consulted(Recandidated(r, id), file) == Consulted(r, file)
  {
    assert JobOf(Recandidated(r, id)) == JobOf(r);
  }

  lemma RefusedCandidateIsUnlisted(t: Text, policy: PkgArchive.Policy, id: string)
    requires SpeaksCleanly(t) && PkgArchive.ValidTable(policy) && policy.kind == PkgArchive.KIND_RELEASE_POLICY
    requires !t.clean(id)
    ensures PkgArchive.LookupIn(policy.entries, id) == None
  {
    var found := PkgArchive.LookupIn(policy.entries, id);
    if found.Some? {
      PkgArchive.ValidKeysDistinct(policy);
      PkgArchive.LookupFinds(policy.entries, id, found.value);
    }
  }

  /* Every run that consults a release policy has one beside it whose build finishes just so and that ends without
     an outcome: the same run about a candidate the audit log refuses, of which that policy says nothing. */
  lemma RefusedCandidateEndsSilently(r: Run, file: LedgerFile, id: string)
    requires SpeaksCleanly(r.host.text) && Starts(r, file) && ConsultsReleasePolicy(Consulted(r, file))
    requires !r.host.text.clean(id)
    ensures Starts(Recandidated(r, id), file) && BuiltBy(Recandidated(r, id)).stopped == None
    ensures var e := EffectOf(Recandidated(r, id), file);
            e.result == Aborted(AuditRefused) && e.records == [] && Rows(e.ledger) == Rows(file)
  {
    var s := Recandidated(r, id);
    RecandidatedConsultsTheSame(r, file, id);
    ConsultedHasPackage(s, file);
    RefusedCandidateIsUnlisted(s.host.text, Consulted(s, file).value.pkg.value.policy, id);
    FinishedBuildCompletes(s, file);
    ConsultedWhenDeclared(s);
    StartedShape(s, file);
    LedgerGrowsByApproval(s, file);
  }

  /* A run stopped by a dependency leaves the ledger as it was; it reports BuildFailure exactly when
     scenario id and the alias it stopped on may be reported, and otherwise returns no outcome at all. */
  lemma StoppedBuildFailsClosed(r: Run, file: LedgerFile)
    requires SpeaksCleanly(r.host.text) && Starts(r, file) && BuiltBy(r).stopped.Some?
    ensures var e, stop := EffectOf(r, file), BuiltBy(r).stopped.value;
            && e.ledger == FileAfterLoad(file) && Rows(e.ledger) == Rows(file)
            && (if Reportable(r.host.text, r.scenario.id, stop.alias, "") then
                  && e.result.Completed?
                  && var o := e.result.outcome;
                  && o.clientResult == BuildFailed && o.failure == Some(stop.failure)
                  && o.attempted == Some(stop.record)
                  && o.ledgerBefore == o.ledgerAfter && o.mutation == NoMutation && o.verdict == ""
                else e.result == Aborted(AuditRefused))
  {
  }

  /* The same run with a manifest that declares its first dependency alone, under another alias. */
  ghost function Renamed(r: Run, alias: string): Run
    requires ManifestLoads(r.store, r.scenario.manifest)
  {
    var m := r.store.manifests[r.scenario.manifest];
    var renamed := m.(dependencies := [m.dependencies[0].(alias := alias)]);
    r.(store := r.store.(manifests := r.store.manifests[r.scenario.manifest := renamed]))
  }

  lemma RenamedStarts(r: Run, file: LedgerFile, alias: string)
    requires Starts(r, file) && alias != ""
    ensures Starts(Renamed(r, alias), file)
  {
    var m := r.store.manifests[r.scenario.manifest];
    var deps := [m.dependencies[0].(alias := alias)];
    assert m.dependencies[0] in m.dependencies;
    assert forall d :: d in deps ==> BuildManifest.ValidDependency(d);
    assert BuildManifest.ValidManifest(m.(dependencies := deps));
  }

  lemma UnlockedAliasStops(job: Job, dep: BuildManifest.Dependency, before: seq<Call>)
    requires job.secure && forall record :: record in job.lock.records ==> record.alias != dep.alias
    ensures Build(job, [dep], before).stopped.Some? && Build(job, [dep], before).stopped.value.alias == dep.alias
  {
    var x := DepInputs(job, dep, before);
    AcceptsExactly(x);
    if Acceptable(x) {
      Lockfile.BindingIsDeclared(job.lock, dep.alias);
    }
  }

  /* Any secure scenario that starts has one beside it that fails without a BuildFailed outcome: its manifest
     declares a dependency under an alias that the lock does not know and the audit log refuses. */
  lemma UnreportableAliasFailsSilently(r: Run, file: LedgerFile, alias: string)
    requires SpeaksCleanly(r.host.text) && Starts(r, file) && r.scenario.resolver == RESOLVER_SECURE
    requires !r.host.text.clean(alias)
    requires forall record :: record in r.store.locks[r.scenario.lock].records ==> record.alias != alias
    ensures Starts(Renamed(r, alias), file) && BuiltBy(Renamed(r, alias)).stopped.Some?
    ensures var e := EffectOf(Renamed(r, alias), file);
            e.result == Aborted(AuditRefused) && e.records == [] && Rows(e.ledger) == Rows(file)
  {
    RenamedStarts(r, file, alias);
    var s := Renamed(r, alias);
    UnlockedAliasStops(JobOf(s), s.store.manifests[s.scenario.manifest].dependencies[0], s.before);
    StoppedBuildFailsClosed(s, file);
    RecordPerCompletedRun(s, file);
  }

  /* A row written by a secure run is what the lock pins for the release policy, in every world. */
  lemma SecureRowIsLocked(r: Run, file: LedgerFile)
    requires ApprovesFresh(r, file) && r.scenario.resolver == RESOLVER_SECURE
    ensures Consulted(r, file).Some?
    ensures var binding := Lockfile.Binding(r.store.locks[r.scenario.lock], ALIAS_RELEASE_POLICY);
            && binding.Ok?
            && var locked := binding.value;
            RowOf(r, file) == Entry(r.scenario.candidate, locked.name, locked.source, locked.version, locked.sha256)
  {
    ConsultedHasPackage(r, file);
    var deps := r.store.manifests[r.scenario.manifest].dependencies;
    SecureBuildIsLocked(JobOf(r), deps, r.before);
    var i :| 0 <= i < |BuiltBy(r).resolutions| && BuiltBy(r).resolutions[i] == Consulted(r, file).value;
    assert IsLocked(JobOf(r), deps[i], BuiltBy(r).resolutions[i]);
  }

  // ----- the lock determines the run -----

  /* The same scenario, documents and acknowledgement, but for the source policies, in another world at another time. */
  ghost predicate SameScenario(r: Run, s: Run)
  {
    s == r.(store := r.store.(policies := s.store.policies), world := s.world, before := s.before)
  }

  lemma LockedAliases(job: Job, deps: seq<BuildManifest.Dependency>, before: seq<Call>)
    requires job.secure
    ensures var rs := Build(job, deps, before).resolutions;
            forall i :: 0 <= i < |rs| ==> rs[i].alias == rs[i].locked.alias
  {
    SecureBuildIsLocked(job, deps, before);
    var rs := Build(job, deps, before).resolutions;
    forall i | 0 <= i < |rs| ensures rs[i].alias == rs[i].locked.alias {
      LockedAlias(job, deps[i], rs[i]);
    }
  }

  /* Two builds leave the gate the same thing to consult. */
  ghost predicate SameConsulted(built: Built, built': Built)
  {
    match (ConsultedIn(built), ConsultedIn(built'))
    case (None, None) => true
    case (Some(a), Some(b)) => Essence(a) == Essence(b)
    case _ => false
  }

  lemma ConsultedIsDetermined(job: Job, other: Job, deps: seq<BuildManifest.Dependency>, before: seq<Call>,
                              before': seq<Call>)
    requires job.secure && other == job.(policy := other.policy, world := other.world)
    requires Build(job, deps, before).stopped == None && Build(other, deps, before').stopped == None
    requires NoCollisions(job.codec, AcceptedBytes(job, deps, before), AcceptedBytes(other, deps, before'))
    ensures SameConsulted(Build(job, deps, before), Build(other, deps, before'))
  {
    LockDeterminesBuild(job, other, deps, before, before');
    EssencesDetermineConsulted(job, other, deps, before, before');
  }

  lemma EssencesDetermineConsulted(job: Job, other: Job, deps: seq<BuildManifest.Dependency>, before: seq<Call>,
                                   before': seq<Call>)
    requires job.secure && other == job.(policy := other.policy, world := other.world)
    requires Build(job, deps, before).stopped == None && Build(other, deps, before').stopped == None
    requires Essences(Build(job, deps, before).resolutions) == Essences(Build(other, deps, before').resolutions)
    ensures SameConsulted(Build(job, deps, before), Build(other, deps, before'))
  {
    LockedAliases(job, deps, before);
    LockedAliases(other, deps, before');
    var xs, ys := Build(job, deps, before).resolutions, Build(other, deps, before').resolutions;
    assert |Essences(xs)| == |xs| && |Essences(ys)| == |ys|;
    WithAliasEssence(xs, ys, ALIAS_RELEASE_POLICY);
  }

  lemma LockedAlias(job: Job, dep: BuildManifest.Dependency, res: Resolution)
    requires IsLocked(job, dep, res)
    ensures res.alias == res.locked.alias
  {
    Lockfile.BindingIsDeclared(job.lock, dep.alias);
  }

  /* What a consumer and an operator can tell two runs apart by. */
  datatype Visible = Visible(
    aborted: Option<Abort>, clientResult: ClientResult, verdict: string, classification: string, mutation: Mutation,
    ledgerBefore: string, ledgerAfter: string, auditEvents: seq<Event>, failure: Option<Failure>)

  function VisibleOf(x: Execution): Visible
  {
    match x
    case Aborted(a) => Visible(Some(a), NoResult, "", "", NoMutation, "", "", [], None)
    case Completed(o) => Visible(None, o.clientResult, o.verdict, o.classification, o.mutation, o.ledgerBefore,
                                 o.ledgerAfter, o.auditEvents, o.failure)
  }

  lemma SettleDetermined(r: Run, s: Run, o: Outcome, p: Outcome, current: Ledger, a: Resolution, b: Resolution,
                         verdict: string, calls: seq<Call>, calls': seq<Call>)
    requires SameScenario(r, s) && Essence(a) == Essence(b)
    requires VisibleOf(Completed(o)) == VisibleOf(Completed(p))
    ensures var e, f := Settle(r, o, current, a, verdict, calls), Settle(s, p, current, b, verdict, calls');
            e.ledger == f.ledger && e.records == f.records && VisibleOf(e.result) == VisibleOf(f.result)
  {
    assert NewRow(r.scenario.candidate, a) == NewRow(s.scenario.candidate, b);
  }

  lemma ConcludeDetermined(r: Run, s: Run, current: Ledger, project: string, built: Built, built': Built)
    requires SameScenario(r, s) && built.stopped == None && built'.stopped == None
    requires Sound(ConsultedIn(built)) && Sound(ConsultedIn(built')) && SameConsulted(built, built')
    ensures var e, f := Conclude(r, current, project, built), Conclude(s, current, project, built');
            e.ledger == f.ledger && e.records == f.records && VisibleOf(e.result) == VisibleOf(f.result)
  {
    var o := WithBuild(FreshOutcome(r, project, LedgerDigest(r.host, current)), built);
    var p := WithBuild(FreshOutcome(s, project, LedgerDigest(s.host, current)), built');
    if ConsultedIn(built).Some? {
      var a, b := ConsultedIn(built).value, ConsultedIn(built').value;
      assert a.pkg == b.pkg;
      var verdict := PkgArchive.LookupIn(a.pkg.value.policy.entries, r.scenario.candidate);
      if verdict.Some? {
        SettleDetermined(r, s, o, p, current, a, b, verdict.value, built.calls, built'.calls);
      }
    }
  }

  lemma SameObstacle(r: Run, s: Run, file: LedgerFile)
    requires SameScenario(r, s)
    requires PolicyLoads(r.store, r.scenario.sourcePolicy) <==> PolicyLoads(s.store, s.scenario.sourcePolicy)
    ensures Obstacle(s, file) == Obstacle(r, file) && Starts(s, file) == Starts(r, file)
  {
  }

  /* In any two registry worlds, and under any two source policies, in which every dependency of a secure scenario
     resolves, the run does the same to ledger and audit log and reports the same. */
  lemma LockDeterminesRun(r: Run, s: Run, file: LedgerFile)
    requires SameScenario(r, s) && r.scenario.resolver == RESOLVER_SECURE && Starts(r, file) && Starts(s, file)
    requires BuiltBy(r).stopped == None && BuiltBy(s).stopped == None
    requires var deps := r.store.manifests[r.scenario.manifest].dependencies;
             NoCollisions(r.host.codec, AcceptedBytes(JobOf(r), deps, r.before),
                          AcceptedBytes(JobOf(s), deps, s.before))
    ensures var e, f := EffectOf(r, file), EffectOf(s, file);
            e.ledger == f.ledger && e.records == f.records && VisibleOf(e.result) == VisibleOf(f.result)
    ensures Verdict(r, file) == Verdict(s, file)
  {
    ConsultedIsDetermined(JobOf(r), JobOf(s), r.store.manifests[r.scenario.manifest].dependencies, r.before, s.before);
    RunDetermined(r, s, file);
    VerdictDetermined(r, s, file);
  }

  lemma VerdictDetermined(r: Run, s: Run, file: LedgerFile)
    requires SameScenario(r, s) && Starts(r, file) && Starts(s, file)
    requires BuiltBy(r).stopped == None && BuiltBy(s).stopped == None && SameConsulted(BuiltBy(r), BuiltBy(s))
    ensures Verdict(r, file) == Verdict(s, file)
  {
  }

  lemma RunDetermined(r: Run, s: Run, file: LedgerFile)
    requires SameScenario(r, s) && Starts(r, file) && Starts(s, file)
    requires BuiltBy(r).stopped == None && BuiltBy(s).stopped == None && SameConsulted(BuiltBy(r), BuiltBy(s))
    ensures var e, f := EffectOf(r, file), EffectOf(s, file);
            e.ledger == f.ledger && e.records == f.records && VisibleOf(e.result) == VisibleOf(f.result)
  {
    EffectWhenStarted(r, file);
    EffectWhenStarted(s, file);
    ConcludeDetermined(r, s, LoadedLedger(file), r.store.manifests[r.scenario.manifest].project, BuiltBy(r),
                       BuiltBy(s));
  }
}
