/** internal/releasegate: one scenario end to end, and the ledger and audit file it leaves. */
module ReleaseGate {
  import opened Prelude
  import opened Network
  import opened Ledger
  import opened Audit
  import opened Fixtures
  import opened Resolver
  import CombinedIndex
  import SourcePolicy
  import BuildManifest
  import Lockfile
  import PkgArchive

  const ALIAS_RELEASE_POLICY := "release-policy"
  const ALIAS_REPORT_FORMAT := "report-format"

  datatype Host = Host(codec: PkgArchive.Codec, encodeLedger: Ledger -> Bytes, text: Text)

  /* What a run tells its client, if it completes. */
  datatype ClientResult = NoResult | BuildOk | BuildFailed

  datatype Mutation = NoMutation | ApprovedRow | SuppressedDuplicate

  datatype Outcome = Outcome(
    scenario: Scenario, resolver: string, lockEnforced: bool, clientResult: ClientResult, project: string,
    resolutions: seq<Resolution>, releasePolicy: Option<Resolution>, reportFormat: Option<Resolution>,
    attempted: Option<Resolution>, verdict: string, classification: string, mutation: Mutation,
    ledgerBefore: string, ledgerAfter: string, auditEvents: seq<Event>, failure: Option<Failure>)

  datatype Abort =
    | NotAcknowledged | BadLedger | BadFixture | UnknownResolver | NoReleasePolicy | AuditRefused | UnvalidatedVerdict

  /* A run either completes with an outcome or returns an error and no outcome. */
  datatype Execution = Completed(outcome: Outcome) | Aborted(reason: Abort)

  /* The two files a run may write. */
  class Disk {
    var ledger: LedgerFile
    var audit: seq<Event>

    constructor ()
      ensures ledger == Missing && audit == []
    {
      ledger, audit := Missing, [];
    }

    /* Writes exactly one record, or refuses and writes none. */
    method Emit(text: Text, scenarioId: string, e: Event) returns (ok: bool)
      modifies this`audit
      ensures ok <==> Valid(text, Stamped(text, scenarioId, e))
      ensures audit == old(audit) + if ok then [Stamped(text, scenarioId, e)] else []
    {
      var stamped := Stamped(text, scenarioId, e);
      ok := Valid(text, stamped);
      if ok {
        audit := audit + [stamped];
      }
    }
  }

  // ----- the dependency loop -----

  /* What the resolver chosen by the scenario works from. */
  datatype Job = Job(codec: PkgArchive.Codec, policy: SourcePolicy.Policy, lock: Lockfile.Lock, secure: bool,
                     world: World)

  ghost function ResolveOne(job: Job, dep: BuildManifest.Dependency, before: seq<Call>): Resolved
  {
    if job.secure then Resolver.Outcome(Inputs(job.codec, Config(job.policy, job.lock), dep, job.world, before))
    else CombinedIndex.Outcome(CombinedIndex.Question(job.codec, job.policy, dep, job.world, before))
  }

  datatype Stop = Stop(alias: string, record: Resolution, failure: Failure)

  /* What resolving dependencies in order gives: the accepted records, and where it stopped if it did. */
  datatype Built = Built(resolutions: seq<Resolution>, stopped: Option<Stop>, calls: seq<Call>)

  ghost function Build(job: Job, deps: seq<BuildManifest.Dependency>, before: seq<Call>): Built
  {
    if deps == [] then Built([], None, [])
    else
      var r := ResolveOne(job, deps[0], before);
      match r.failure
      case Some(f) => Built([], Some(Stop(deps[0].alias, r.record, f)), r.calls)
      case None =>
        var rest := Build(job, deps[1..], before + r.calls);
        Built([r.record] + rest.resolutions, rest.stopped, r.calls + rest.calls)
  }

  /* The last accepted record of an alias: the loop overwrites. */
  function WithAlias(resolutions: seq<Resolution>, alias: string): Option<Resolution>
  {
    if resolutions == [] then None
    else if resolutions[|resolutions| - 1].alias == alias then Some(resolutions[|resolutions| - 1])
    else WithAlias(resolutions[..|resolutions| - 1], alias)
  }

  // ----- from a build to an outcome -----

  function LedgerDigest(host: Host, l: Ledger): string
  {
    host.codec.digest(host.encodeLedger(l))
  }

  /* Everything one run starts from. */
  datatype Run = Run(host: Host, store: Store, scenario: Scenario, acknowledged: bool, world: World, before: seq<Call>)

  /* What one run does: its result, the ledger file, the records appended, the requests made. */
  datatype Effect = Effect(result: Execution, ledger: LedgerFile, records: seq<Event>, calls: seq<Call>)

  /* The reason a run cannot start resolving, in the order the source checks. */
  ghost function Obstacle(r: Run, file: LedgerFile): Option<Abort>
  {
    if r.scenario.vulnerable && !r.acknowledged then Some(NotAcknowledged)
    else if LoadedFrom(file).None? then Some(BadLedger)
    else if !PolicyLoads(r.store, r.scenario.sourcePolicy) || !ManifestLoads(r.store, r.scenario.manifest)
         || !LockLoads(r.store, r.scenario.lock) || !ValidClassifications(r.store.classifications)
         || r.scenario.candidate !in r.store.candidates then Some(BadFixture)
    else if r.scenario.resolver == RESOLVER_COMBINED_INDEX && !r.acknowledged then Some(NotAcknowledged)
    else if r.scenario.resolver != RESOLVER_SECURE && r.scenario.resolver != RESOLVER_COMBINED_INDEX
      then Some(UnknownResolver)
    else None
  }

  ghost predicate Starts(r: Run, file: LedgerFile)
  {
    Obstacle(r, file) == None
  }

  ghost function JobOf(r: Run): Job
    requires PolicyLoads(r.store, r.scenario.sourcePolicy) && LockLoads(r.store, r.scenario.lock)
  {
    Job(r.host.codec, r.store.policies[r.scenario.sourcePolicy], r.store.locks[r.scenario.lock],
        r.scenario.resolver == RESOLVER_SECURE, r.world)
  }

  function FreshOutcome(r: Run, project: string, digest: string): Outcome
  {
    Outcome(r.scenario, r.scenario.resolver, r.scenario.resolver == RESOLVER_SECURE, NoResult, project, [],
            None, None, None, "", Classified(r.store.classifications, r.scenario.candidate), NoMutation,
            digest, digest, [], None)
  }

  function WithBuild(o: Outcome, built: Built): Outcome
  {
    o.(resolutions := built.resolutions,
       releasePolicy := WithAlias(built.resolutions, ALIAS_RELEASE_POLICY),
       reportFormat := WithAlias(built.resolutions, ALIAS_REPORT_FORMAT))
  }

  /* Ends a run with one audit record: completed if the record may be written, aborted if not. */
  function Close(r: Run, o: Outcome, file: LedgerFile, e: Event, calls: seq<Call>): Effect
  {
    var stamped := Stamped(r.host.text, r.scenario.id, e);
    if Valid(r.host.text, stamped) then Effect(Completed(o.(auditEvents := [stamped])), file, [stamped], calls)
    else Effect(Aborted(AuditRefused), file, [], calls)
  }

  function Fail(r: Run, o: Outcome, file: LedgerFile, alias: string, f: Failure, candidateId: string,
                calls: seq<Call>): Effect
  {
    Close(r, o.(clientResult := BuildFailed, failure := Some(f)), file,
          Draft(BuildFailure, f.stage, alias, Some(f.class_), candidateId), calls)
  }

  function NewRow(candidate: string, res: Resolution): Entry
  {
    Entry(candidate, res.name, res.selected.source, res.selected.version, res.digest)
  }

  /* The ledger with one more row. */
  function Grown(l: Ledger, row: Entry): Ledger
  {
    l.(entries := l.entries + [row])
  }

  /* What a verdict does to the ledger. */
  function Settle(r: Run, o: Outcome, current: Ledger, res: Resolution, verdict: string, calls: seq<Call>): Effect
  {
    var decided := o.(clientResult := BuildOk, verdict := verdict);
    if verdict == PkgArchive.VERDICT_REJECT then
      Close(r, decided.(ledgerAfter := LedgerDigest(r.host, current)), Stored(current),
            Draft(ReleaseRejected, PolicyEvaluationStage, ALIAS_RELEASE_POLICY, None, r.scenario.candidate), calls)
    else if verdict != PkgArchive.VERDICT_APPROVE then Effect(Aborted(UnvalidatedVerdict), Stored(current), [], calls)
    else if Approved(current, r.scenario.candidate) then
      Close(r, decided.(mutation := SuppressedDuplicate, ledgerAfter := LedgerDigest(r.host, current)), Stored(current),
            Draft(ReleaseDuplicate, PolicyEvaluationStage, ALIAS_RELEASE_POLICY, None, r.scenario.candidate), calls)
    else
      var grown := Grown(current, NewRow(r.scenario.candidate, res));
      Close(r, decided.(mutation := ApprovedRow, ledgerAfter := LedgerDigest(r.host, grown)), Stored(grown),
            Draft(ReleaseApproved, PolicyEvaluationStage, ALIAS_RELEASE_POLICY, None, r.scenario.candidate), calls)
  }

  /* What a finished dependency loop leads to. */
  function Conclude(r: Run, current: Ledger, project: string, built: Built): Effect
  {
    var o := WithBuild(FreshOutcome(r, project, LedgerDigest(r.host, current)), built);
    match built.stopped
    case Some(stop) =>
      Fail(r, o.(attempted := Some(stop.record)), Stored(current), stop.alias, stop.failure, "", built.calls)
    case None =>
      if o.releasePolicy.None? || o.releasePolicy.value.pkg.None?
        then Effect(Aborted(NoReleasePolicy), Stored(current), [], built.calls)
      else
        var res := o.releasePolicy.value;
        var policy := res.pkg.value.policy;
        if policy.kind != PkgArchive.KIND_RELEASE_POLICY then
          Fail(r, o, Stored(current), ALIAS_RELEASE_POLICY, Failure(PolicyKindUnexpected, PolicyEvaluationStage), "",
               built.calls)
        else
          match PkgArchive.LookupIn(policy.entries, r.scenario.candidate)
          case None =>
            Fail(r, o, Stored(current), ALIAS_RELEASE_POLICY, Failure(PolicyCandidateUnknown, PolicyEvaluationStage),
                 r.scenario.candidate, built.calls)
          case Some(verdict) => Settle(r, o, current, res, verdict, built.calls)
  }

  ghost function BuiltBy(r: Run): Built
    requires PolicyLoads(r.store, r.scenario.sourcePolicy) && LockLoads(r.store, r.scenario.lock)
    requires ManifestLoads(r.store, r.scenario.manifest)
  {
    Build(JobOf(r), r.store.manifests[r.scenario.manifest].dependencies, r.before)
  }

  /* Whatever the build leads to, its requests are the build's. */
  lemma ConcludeCalls(r: Run, current: Ledger, project: string, built: Built)
    ensures Conclude(r, current, project, built).calls == built.calls
  {
  }

  /* One run, as a function of what it starts from and the ledger file it finds. */
  ghost function EffectOf(r: Run, file: LedgerFile): Effect
  {
    match Obstacle(r, file)
    case Some(NotAcknowledged) =>
      Effect(Aborted(NotAcknowledged), if r.scenario.vulnerable then file else FileAfterLoad(file), [], [])
    case Some(reason) => Effect(Aborted(reason), FileAfterLoad(file), [], [])
    case None =>
      Conclude(r, LoadedFrom(file).value, r.store.manifests[r.scenario.manifest].project, BuiltBy(r))
  }

  // ----- Execute as the source writes it -----

  /* After the records and requests so far, the rest completes the whole build. */
  ghost predicate Completes(whole: Built, start: seq<Call>, rest: Built, done: seq<Resolution>, calls: seq<Call>)
  {
    && whole.resolutions == done + rest.resolutions && whole.stopped == rest.stopped
    && start + whole.calls == calls + rest.calls
  }

  lemma OneMoreCompletes(whole: Built, start: seq<Call>, res: Resolution, asked: seq<Call>, later: Built,
                         done: seq<Resolution>, calls: seq<Call>)
    requires Completes(whole, start, Built([res] + later.resolutions, later.stopped, asked + later.calls), done, calls)
    ensures Completes(whole, start, later, done + [res], calls + asked)
  {
    assert done + ([res] + later.resolutions) == (done + [res]) + later.resolutions;
    assert calls + (asked + later.calls) == (calls + asked) + later.calls;
  }

  lemma NothingMoreCompletes(whole: Built, start: seq<Call>, stopped: Option<Stop>, asked: seq<Call>,
                             done: seq<Resolution>, calls: seq<Call>)
    requires Completes(whole, start, Built([], stopped, asked), done, calls)
    ensures whole.resolutions == done && whole.stopped == stopped && start + whole.calls == calls + asked
  {
  }

  lemma BuildFrom(job: Job, deps: seq<BuildManifest.Dependency>, i: nat, calls: seq<Call>)
    requires i < |deps|
    ensures var r := ResolveOne(job, deps[i], calls);
            Build(job, deps[i..], calls) ==
            match r.failure
            case Some(f) => Built([], Some(Stop(deps[i].alias, r.record, f)), r.calls)
            case None =>
              var rest := Build(job, deps[i + 1..], calls + r.calls);
              Built([r.record] + rest.resolutions, rest.stopped, r.calls + rest.calls)
  {
    assert deps[i..][0] == deps[i] && deps[i..][1..] == deps[i + 1..];
  }

  /* One turn of the loop: the build goes on after an accepted dependency and is complete after a failed one. */
  lemma OneTurn(job: Job, deps: seq<BuildManifest.Dependency>, i: nat, whole: Built, start: seq<Call>,
                done: seq<Resolution>, calls: seq<Call>)
    requires i < |deps| && Completes(whole, start, Build(job, deps[i..], calls), done, calls)
    ensures var r := ResolveOne(job, deps[i], calls);
            match r.failure
            case None => Completes(whole, start, Build(job, deps[i + 1..], calls + r.calls), done + [r.record],
                                   calls + r.calls)
            case Some(f) =>
              && whole == Built(done, Some(Stop(deps[i].alias, r.record, f)), whole.calls)
              && start + whole.calls == calls + r.calls
  {
    BuildFrom(job, deps, i, calls);
    var r := ResolveOne(job, deps[i], calls);
    match r.failure
    case None => OneMoreCompletes(whole, start, r.record, r.calls, Build(job, deps[i + 1..], calls + r.calls), done,
                                  calls);
    case Some(f) => NothingMoreCompletes(whole, start, Some(Stop(deps[i].alias, r.record, f)), r.calls, done, calls);
  }

  /* The loop over dependencies computes Build: the records accepted so far, and where it stopped if it did. */
  method ResolveAll(ghost job: Job, codec: PkgArchive.Codec, policy: SourcePolicy.Policy, lock: Lockfile.Lock,
                    secure: bool, deps: seq<BuildManifest.Dependency>, net: Clients)
    returns (resolutions: seq<Resolution>, stopped: Option<Stop>)
    requires job == Job(codec, policy, lock, secure, net.world)
    modifies net
    ensures var b := Build(job, deps, old(net.calls));
            resolutions == b.resolutions && stopped == b.stopped && net.calls == old(net.calls) + b.calls
  {
    resolutions := [];
    ghost var start, whole := net.calls, Build(job, deps, net.calls);
    assert deps[0..] == deps;
    for i := 0 to |deps|
      invariant Completes(whole, start, Build(job, deps[i..], net.calls), resolutions, net.calls)
    {
      OneTurn(job, deps, i, whole, start, resolutions, net.calls);
      var res, failure := ResolveDependency(job, codec, policy, lock, secure, deps[i], net);
      if failure.Some? {
        return resolutions, Some(Stop(deps[i].alias, res, failure.value));
      }
      resolutions := resolutions + [res];
    }
    NothingMoreCompletes(whole, start, None, [], resolutions, net.calls);
    stopped := None;
  }

  method ResolveDependency(ghost job: Job, codec: PkgArchive.Codec, policy: SourcePolicy.Policy, lock: Lockfile.Lock,
                           secure: bool, dep: BuildManifest.Dependency, net: Clients)
    returns (res: Resolution, failure: Option<Failure>)
    requires job == Job(codec, policy, lock, secure, net.world)
    modifies net
    ensures var r := ResolveOne(job, dep, old(net.calls));
            res == r.record && failure == r.failure && net.calls == old(net.calls) + r.calls
  {
    if secure {
      res, failure := Resolver.Resolve(codec, Config(policy, lock), dep, net);
    } else {
      res, failure := CombinedIndex.Resolve(codec, policy, dep, net);
    }
  }

  method LastWithAlias(resolutions: seq<Resolution>, alias: string) returns (r: Option<Resolution>)
    ensures r == WithAlias(resolutions, alias)
  {
    r := None;
    for i := 0 to |resolutions|
      invariant r == WithAlias(resolutions[..i], alias)
    {
      assert resolutions[..i + 1][..i] == resolutions[..i];
      if resolutions[i].alias == alias {
        r := Some(resolutions[i]);
      }
    }
    assert resolutions[..|resolutions|] == resolutions;
  }

  /* The verdict switch: the only place the ledger changes. */
  method ApplyVerdict(ghost r: Run, host: Host, scenario: Scenario, base: Outcome, current: Ledger, res: Resolution,
                      verdict: string, disk: Disk, ghost calls: seq<Call>)
    returns (x: Execution)
    requires r.host == host && r.scenario == scenario && disk.ledger == Stored(current)
    modifies disk
    ensures var e := Settle(r, base, current, res, verdict, calls);
            x == e.result && disk.ledger == e.ledger && disk.audit == old(disk.audit) + e.records
  {
    var out := base.(clientResult := BuildOk, verdict := verdict);
    var event;
    var ledger := current;
    if verdict == PkgArchive.VERDICT_REJECT {
      event := ReleaseRejected;
    } else if verdict == PkgArchive.VERDICT_APPROVE {
      var duplicate := IsApproved(current, scenario.candidate);
      if duplicate {
        out := out.(mutation := SuppressedDuplicate);
        event := ReleaseDuplicate;
      } else {
        ledger := ledger.(entries := ledger.entries + [NewRow(scenario.candidate, res)]);
        disk.ledger := Stored(ledger);
        out := out.(mutation := ApprovedRow);
        event := ReleaseApproved;
      }
    } else {
      return Aborted(UnvalidatedVerdict);
    }
    var e := Draft(event, PolicyEvaluationStage, ALIAS_RELEASE_POLICY, None, scenario.candidate);
    var written := disk.Emit(host.text, scenario.id, e);
    if !written {
      return Aborted(AuditRefused);
    }
    x := Completed(out.(ledgerAfter := LedgerDigest(host, ledger),
                        auditEvents := [Stamped(host.text, scenario.id, e)]));
  }

  method FailClosed(ghost r: Run, host: Host, scenario: Scenario, base: Outcome, alias: string, f: Failure,
                    candidateId: string, disk: Disk, ghost calls: seq<Call>)
    returns (x: Execution)
    requires r.host == host && r.scenario == scenario
    modifies disk`audit
    ensures var e := Fail(r, base, disk.ledger, alias, f, candidateId, calls);
            x == e.result && disk.ledger == e.ledger && disk.audit == old(disk.audit) + e.records
  {
    var e := Draft(BuildFailure, f.stage, alias, Some(f.class_), candidateId);
    var written := disk.Emit(host.text, scenario.id, e);
    if !written {
      return Aborted(AuditRefused);
    }
    x := Completed(base.(clientResult := BuildFailed, failure := Some(f),
                         auditEvents := [Stamped(host.text, scenario.id, e)]));
  }

  /* From the finished dependency loop to the outcome. */
  method Evaluate(ghost r: Run, host: Host, scenario: Scenario, fresh_: Outcome, current: Ledger,
                  resolutions: seq<Resolution>, stopped: Option<Stop>, disk: Disk, ghost calls: seq<Call>)
    returns (x: Execution)
    requires r.host == host && r.scenario == scenario && disk.ledger == Stored(current)
    requires fresh_ == FreshOutcome(r, fresh_.project, LedgerDigest(host, current))
    modifies disk
    ensures var e := Conclude(r, current, fresh_.project, Built(resolutions, stopped, calls));
            x == e.result && disk.ledger == e.ledger && disk.audit == old(disk.audit) + e.records
  {
    var out := fresh_.(resolutions := resolutions);
    var releasePolicy := LastWithAlias(resolutions, ALIAS_RELEASE_POLICY);
    var reportFormat := LastWithAlias(resolutions, ALIAS_REPORT_FORMAT);
    out := out.(releasePolicy := releasePolicy, reportFormat := reportFormat);
    if stopped.Some? {
      x := FailClosed(r, host, scenario, out.(attempted := Some(stopped.value.record)), stopped.value.alias,
                      stopped.value.failure, "", disk, calls);
      return;
    }
    if releasePolicy.None? || releasePolicy.value.pkg.None? {
      return Aborted(NoReleasePolicy);
    }
    var policy := releasePolicy.value.pkg.value.policy;
    if policy.kind != PkgArchive.KIND_RELEASE_POLICY {
      x := FailClosed(r, host, scenario, out, ALIAS_RELEASE_POLICY,
                      Failure(PolicyKindUnexpected, PolicyEvaluationStage), "", disk, calls);
      return;
    }
    var verdict := PkgArchive.Lookup(policy, scenario.candidate);
    if verdict.None? {
      x := FailClosed(r, host, scenario, out, ALIAS_RELEASE_POLICY,
                      Failure(PolicyCandidateUnknown, PolicyEvaluationStage), scenario.candidate, disk, calls);
      return;
    }
    x := ApplyVerdict(r, host, scenario, out, current, releasePolicy.value, verdict.value, disk, calls);
  }

  /* Loading the ledger creates a fresh file when there is none. */
  method LoadLedger(disk: Disk) returns (l: Option<Ledger>)
    modifies disk`ledger
    ensures l == LoadedFrom(old(disk.ledger)) && disk.ledger == FileAfterLoad(old(disk.ledger))
    ensures l.Some? ==> disk.ledger == Stored(l.value)
  {
    match disk.ledger
    case Missing =>
      disk.ledger := Stored(FRESH);
      l := Some(FRESH);
    case Corrupt => l := None;
    case Stored(ledger) => l := if ledger.format == LEDGER_FORMAT then Some(ledger) else None;
  }

  datatype Documents = Documents(
    policy: SourcePolicy.Policy, manifest: BuildManifest.Manifest, lock: Lockfile.Lock, classification: string)

  method LoadDocuments(store: Store, scenario: Scenario) returns (d: Option<Documents>)
    ensures d.Some? <==>
              && PolicyLoads(store, scenario.sourcePolicy) && ManifestLoads(store, scenario.manifest)
              && LockLoads(store, scenario.lock)
              && ValidClassifications(store.classifications) && scenario.candidate in store.candidates
    ensures d.Some? ==>
              d.value == Documents(store.policies[scenario.sourcePolicy], store.manifests[scenario.manifest],
                                   store.locks[scenario.lock], Classified(store.classifications, scenario.candidate))
  {
    var policy := LoadPolicy(store, scenario.sourcePolicy);
    if policy.None? {
      return None;
    }
    var manifest := LoadManifest(store, scenario.manifest);
    if manifest.None? {
      return None;
    }
    var lock := LoadLock(store, scenario.lock);
    if lock.None? {
      return None;
    }
    var table := LoadClassifications(store);
    if table.None? || scenario.candidate !in store.candidates {
      return None;
    }
    var class_ := if scenario.candidate in table.value then table.value[scenario.candidate] else "";
    d := Some(Documents(policy.value, manifest.value, lock.value, class_));
  }

  method Execute(host: Host, store: Store, scenario: Scenario, acknowledged: bool, disk: Disk, net: Clients)
    returns (x: Execution)
    modifies disk, net
    ensures var e := EffectOf(Run(host, store, scenario, acknowledged, net.world, old(net.calls)), old(disk.ledger));
            && x == e.result && disk.ledger == e.ledger
            && disk.audit == old(disk.audit) + e.records && net.calls == old(net.calls) + e.calls
  {
    ghost var r := Run(host, store, scenario, acknowledged, net.world, net.calls);
    if scenario.vulnerable && !acknowledged {
      return Aborted(NotAcknowledged);
    }
    var current := LoadLedger(disk);
    if current.None? {
      return Aborted(BadLedger);
    }
    var documents := LoadDocuments(store, scenario);
    if documents.None? {
      return Aborted(BadFixture);
    }
    if scenario.resolver == RESOLVER_COMBINED_INDEX && !acknowledged {
      return Aborted(NotAcknowledged);
    }
    if scenario.resolver != RESOLVER_SECURE && scenario.resolver != RESOLVER_COMBINED_INDEX {
      return Aborted(UnknownResolver);
    }
    var Documents(policy, manifest, lock, class_) := documents.value;
    x := RunScenario(r, host, scenario, policy, manifest, lock, class_, current.value, disk, net);
    ConcludeCalls(r, current.value, manifest.project, BuiltBy(r));
  }

  method RunScenario(ghost r: Run, host: Host, scenario: Scenario, policy: SourcePolicy.Policy,
                     manifest: BuildManifest.Manifest, lock: Lockfile.Lock, class_: string, current: Ledger, disk: Disk,
                     net: Clients)
    returns (x: Execution)
    requires r.host == host && r.scenario == scenario && r.world == net.world && r.before == net.calls
    requires disk.ledger == Stored(current) && class_ == Classified(r.store.classifications, scenario.candidate)
    modifies disk, net
    ensures var job := Job(host.codec, policy, lock, scenario.resolver == RESOLVER_SECURE, net.world);
            var built := Build(job, manifest.dependencies, old(net.calls));
            var e := Conclude(r, current, manifest.project, built);
            && x == e.result && disk.ledger == e.ledger
            && disk.audit == old(disk.audit) + e.records && net.calls == old(net.calls) + built.calls
  {
    var before := LedgerDigest(host, current);
    var secure := scenario.resolver == RESOLVER_SECURE;
    var out := Outcome(scenario, scenario.resolver, secure, NoResult, manifest.project, [], None, None, None, "",
                       class_, NoMutation, before, before, [], None);
    ghost var job := Job(host.codec, policy, lock, secure, net.world);
    ghost var built := Build(job, manifest.dependencies, net.calls);
    var resolutions, stopped := ResolveAll(job, host.codec, policy, lock, secure, manifest.dependencies, net);
    x := Evaluate(r, host, scenario, out, current, resolutions, stopped, disk, built.calls);
  }
}
