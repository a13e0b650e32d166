/**
 What a run leaves behind, field by field: why it returns an error, what its outcome says, the one audit record it
 writes, and where a new ledger row comes from.
 */
module OutcomeLaws {
  import opened Prelude
  import opened Network
  import opened Ledger
  import opened Audit
  import opened Fixtures
  import opened Resolver
  import opened ReleaseGate
  import opened BuildLaws
  import opened GateLaws
  import opened RecordLaws
  import CombinedIndex
  import FailureLaws
  import BuildManifest
  import PkgArchive
  import Semver
  import Sorting
  import SourcePolicy

  // ----- runs that do not start -----

  /* Every document the scenario names loads, and its candidate is known. */
  ghost predicate DocumentsLoad(r: Run)
  {
    && PolicyLoads(r.store, r.scenario.sourcePolicy) && ManifestLoads(r.store, r.scenario.manifest)
    && LockLoads(r.store, r.scenario.lock) && ValidClassifications(r.store.classifications)
    && r.scenario.candidate in r.store.candidates
  }

  /* There is no ledger file yet, or one that is a ledger. */
  predicate Readable(file: LedgerFile)
  {
    file == Missing || (file.Stored? && file.ledger.format == LEDGER_FORMAT)
  }

  /* The errors of a run that asks nothing: an unacknowledged vulnerable scenario, before anything else; a ledger that
     cannot be loaded; a document that cannot; an unacknowledged combined index; a resolver of another name. A ledger
     file is created only past the first of them. */
  lemma ErrorsExactly(r: Run, file: LedgerFile)
    ensures var e := EffectOf(r, file);
            var gated := r.scenario.vulnerable && !r.acknowledged;
            var ready := !gated && Readable(file) && DocumentsLoad(r);
            var combined := r.scenario.resolver == RESOLVER_COMBINED_INDEX;
            && (e.result == Aborted(NotAcknowledged) <==> gated || (ready && combined && !r.acknowledged))
            && (e.result == Aborted(BadLedger) <==> !gated && !Readable(file))
            && (e.result == Aborted(BadFixture) <==> !gated && Readable(file) && !DocumentsLoad(r))
            && (e.result == Aborted(UnknownResolver) <==>
                  ready && !combined && r.scenario.resolver != RESOLVER_SECURE)
            && (!Starts(r, file) ==>
                  && e.records == [] && e.calls == []
                  && e.ledger == (if !gated && file == Missing then Stored(Ledger(LEDGER_FORMAT, [])) else file))
  {
    if Starts(r, file) {
      StartedShape(r, file);
    }
  }

  // ----- outcomes -----

  /* The last accepted record of an alias, or none: later ones overwrite earlier ones. */
  ghost predicate IsLast(found: Option<Resolution>, resolutions: seq<Resolution>, alias: string)
  {
    match found
    case None => forall i :: 0 <= i < |resolutions| ==> resolutions[i].alias != alias
    case Some(res) => exists i :: 0 <= i < |resolutions| && LastAt(res, resolutions, alias, i)
  }

  ghost predicate LastAt(res: Resolution, resolutions: seq<Resolution>, alias: string, i: nat)
    requires i < |resolutions|
  {
    && resolutions[i] == res && res.alias == alias
    && forall j :: i < j < |resolutions| ==> resolutions[j].alias != alias
  }

  lemma {:induction false} WithAliasIsLast(resolutions: seq<Resolution>, alias: string)
    ensures IsLast(WithAlias(resolutions, alias), resolutions, alias)
  {
    if resolutions != [] {
      var n := |resolutions| - 1;
      WithAliasIsLast(resolutions[..n], alias);
      if resolutions[n].alias == alias {
        assert LastAt(resolutions[n], resolutions, alias, n);
      } else if WithAlias(resolutions[..n], alias).Some? {
        var res := WithAlias(resolutions[..n], alias).value;
        var i :| 0 <= i < n && LastAt(res, resolutions[..n], alias, i);
        assert LastAt(res, resolutions, alias, i);
      }
    }
  }

  /* What an outcome says of the scenario and of the build, whatever came of them. */
  ghost predicate ShowsBuild(r: Run, current: Ledger, project: string, built: Built, left: Ledger, o: Outcome)
  {
    && o.scenario == r.scenario && o.resolver == r.scenario.resolver && o.project == project
    && (o.lockEnforced <==> r.scenario.resolver == RESOLVER_SECURE)
    && o.resolutions == built.resolutions
    && IsLast(o.releasePolicy, built.resolutions, ALIAS_RELEASE_POLICY)
    && IsLast(o.reportFormat, built.resolutions, ALIAS_REPORT_FORMAT)
    && o.attempted == (match built.stopped case Some(stop) => Some(stop.record) case None => None)
    && o.classification == Classified(r.store.classifications, r.scenario.candidate)
    && o.ledgerBefore == r.host.codec.digest(r.host.encodeLedger(current))
    && o.ledgerAfter == r.host.codec.digest(r.host.encodeLedger(left))
  }

  /* If the run completes, its outcome shows what o does of the build, and the digest of the ledger left. */
  ghost predicate KeepsBuild(r: Run, o: Outcome, e: Effect)
  {
    e.result.Completed? ==>
      var p := e.result.outcome;
      && e.ledger.Stored? && p.ledgerAfter == r.host.codec.digest(r.host.encodeLedger(e.ledger.ledger))
      && p == o.(ledgerAfter := p.ledgerAfter, clientResult := p.clientResult, verdict := p.verdict,
                 mutation := p.mutation, failure := p.failure, auditEvents := p.auditEvents)
  }

  lemma FailKeepsBuild(r: Run, o: Outcome, current: Ledger, alias: string, f: Failure, candidateId: string,
                       calls: seq<Call>)
    requires o.ledgerAfter == LedgerDigest(r.host, current)
    ensures KeepsBuild(r, o, ReleaseGate.Fail(r, o, Stored(current), alias, f, candidateId, calls))
  {
  }

  lemma SettleKeepsBuild(r: Run, o: Outcome, current: Ledger, res: Resolution, verdict: string, calls: seq<Call>)
    ensures KeepsBuild(r, o, Settle(r, o, current, res, verdict, calls))
  {
  }

  lemma ConcludeKeepsBuild(r: Run, current: Ledger, project: string, built: Built)
    requires Sound(ConsultedIn(built))
    ensures var o := WithBuild(FreshOutcome(r, project, LedgerDigest(r.host, current)), built);
            KeepsBuild(r, o.(attempted := match built.stopped case Some(stop) => Some(stop.record) case None => None),
                       Conclude(r, current, project, built))
  {
    var o := WithBuild(FreshOutcome(r, project, LedgerDigest(r.host, current)), built);
    if built.stopped.Some? {
      var stop := built.stopped.value;
      FailKeepsBuild(r, o.(attempted := Some(stop.record)), current, stop.alias, stop.failure, "", built.calls);
    } else if ConsultedIn(built).Some? {
      var res := ConsultedIn(built).value;
      FailKeepsBuild(r, o, current, ALIAS_RELEASE_POLICY, Failure(PolicyKindUnexpected, PolicyEvaluationStage), "",
                     built.calls);
      FailKeepsBuild(r, o, current, ALIAS_RELEASE_POLICY, Failure(PolicyCandidateUnknown, PolicyEvaluationStage),
                     r.scenario.candidate, built.calls);
      var verdict := PkgArchive.LookupIn(res.pkg.value.policy.entries, r.scenario.candidate);
      if verdict.Some? {
        SettleKeepsBuild(r, o, current, res, verdict.value, built.calls);
      }
    }
  }

  lemma ConcludeShowsBuild(r: Run, current: Ledger, project: string, built: Built)
    requires Sound(ConsultedIn(built))
    ensures var e := Conclude(r, current, project, built);
            e.result.Completed? ==> e.ledger.Stored? && ShowsBuild(r, current, project, built, e.ledger.ledger,
                                                                   e.result.outcome)
  {
    WithAliasIsLast(built.resolutions, ALIAS_RELEASE_POLICY);
    WithAliasIsLast(built.resolutions, ALIAS_REPORT_FORMAT);
    ConcludeKeepsBuild(r, current, project, built);
  }

  /* How a build that found a release policy, or stopped before it, ends. */
  datatype Ending = Stopped(stop: Stop) | OtherKind | Unlisted | Rejected | Duplicate | Fresh

  /* A stopped build, a policy of another kind, one that says nothing of the candidate, or its verdict. */
  ghost predicate EndsAs(current: Ledger, built: Built, candidate: string, end: Ending)
    requires built.stopped == None ==> ConsultedIn(built).Some? && ConsultedIn(built).value.pkg.Some?
  {
    match end
    case Stopped(stop) => built.stopped == Some(stop)
    case OtherKind => built.stopped == None && PolicyOf(built).kind != PkgArchive.KIND_RELEASE_POLICY
    case Unlisted =>
      && built.stopped == None && PolicyOf(built).kind == PkgArchive.KIND_RELEASE_POLICY
      && forall e :: e in PolicyOf(built).entries ==> e.key != candidate
    case Rejected => Says(built, candidate, PkgArchive.VERDICT_REJECT)
    case Duplicate =>
      && Says(built, candidate, PkgArchive.VERDICT_APPROVE)
      && exists row :: row in current.entries && row.candidateId == candidate
    case Fresh =>
      && Says(built, candidate, PkgArchive.VERDICT_APPROVE)
      && forall row :: row in current.entries ==> row.candidateId != candidate
  }

  ghost function PolicyOf(built: Built): PkgArchive.Policy
    requires ConsultedIn(built).Some? && ConsultedIn(built).value.pkg.Some?
  {
    ConsultedIn(built).value.pkg.value.policy
  }

  /* The build finished, and its release policy gives the candidate this verdict. */
  ghost predicate Says(built: Built, candidate: string, verdict: string)
    requires built.stopped == None ==> ConsultedIn(built).Some? && ConsultedIn(built).value.pkg.Some?
  {
    && built.stopped == None && PolicyOf(built).kind == PkgArchive.KIND_RELEASE_POLICY
    && PkgArchive.PolicyEntry(candidate, verdict) in PolicyOf(built).entries
  }

  /* What the outcome says of an ending. */
  ghost predicate ShowsEnding(o: Outcome, end: Ending)
  {
    match end
    case Stopped(stop) =>
      o.clientResult == BuildFailed && o.failure == Some(stop.failure) && o.verdict == "" && o.mutation == NoMutation
    case OtherKind =>
      && o.clientResult == BuildFailed && o.verdict == "" && o.mutation == NoMutation
      && o.failure == Some(Failure(PolicyKindUnexpected, PolicyEvaluationStage))
    case Unlisted =>
      && o.clientResult == BuildFailed && o.verdict == "" && o.mutation == NoMutation
      && o.failure == Some(Failure(PolicyCandidateUnknown, PolicyEvaluationStage))
    case Rejected =>
      && o.clientResult == BuildOk && o.failure == None && o.verdict == PkgArchive.VERDICT_REJECT
      && o.mutation == NoMutation
    case Duplicate =>
      && o.clientResult == BuildOk && o.failure == None && o.verdict == PkgArchive.VERDICT_APPROVE
      && o.mutation == SuppressedDuplicate
    case Fresh =>
      && o.clientResult == BuildOk && o.failure == None && o.verdict == PkgArchive.VERDICT_APPROVE
      && o.mutation == ApprovedRow
  }

  /* What the one audit record says of an ending: the event, the stage, the alias it concerns, the failure class, and
     the candidate once a policy was evaluated for it. */
  ghost predicate RecordsEnding(r: Run, e: Event, end: Ending)
  {
    && e.format == AUDIT_FORMAT && e.scenarioId == r.scenario.id
    && e.correlationId == r.host.text.correlation(r.scenario.id)
    && match end
       case Stopped(stop) =>
         && e.event == BuildFailure && e.stage == stop.failure.stage && e.dependencyAlias == stop.alias
         && e.failureClass == Some(stop.failure.class_) && e.candidateId == ""
       case OtherKind =>
         && e.event == BuildFailure && Evaluated(e, Some(PolicyKindUnexpected)) && e.candidateId == ""
       case Unlisted =>
         && e.event == BuildFailure && Evaluated(e, Some(PolicyCandidateUnknown))
         && e.candidateId == r.scenario.candidate
       case Rejected => e.event == ReleaseRejected && Evaluated(e, None) && e.candidateId == r.scenario.candidate
       case Duplicate => e.event == ReleaseDuplicate && Evaluated(e, None) && e.candidateId == r.scenario.candidate
       case Fresh => e.event == ReleaseApproved && Evaluated(e, None) && e.candidateId == r.scenario.candidate
  }

  predicate Evaluated(e: Event, class_: Option<Class>)
  {
    e.stage == PolicyEvaluationStage && e.dependencyAlias == ALIAS_RELEASE_POLICY && e.failureClass == class_
  }

  /* A valid table says of a key what its one entry says, and nothing when it has none. */
  lemma LookupSays(policy: PkgArchive.Policy, key: string)
    requires PkgArchive.ValidTable(policy)
    ensures forall v :: PkgArchive.LookupIn(policy.entries, key) == Some(v) <==>
                        PkgArchive.PolicyEntry(key, v) in policy.entries
    ensures PkgArchive.LookupIn(policy.entries, key) == None <==>
            forall e :: e in policy.entries ==> e.key != key
  {
    PkgArchive.ValidKeysDistinct(policy);
    forall v ensures PkgArchive.LookupIn(policy.entries, key) == Some(v) <==>
                     PkgArchive.PolicyEntry(key, v) in policy.entries
    {
      PkgArchive.LookupFinds(policy.entries, key, v);
    }
    if e :| e in policy.entries && e.key == key {
      assert e == PkgArchive.PolicyEntry(key, e.value);
    }
    if PkgArchive.LookupIn(policy.entries, key).Some? {
      assert PkgArchive.PolicyEntry(key, PkgArchive.LookupIn(policy.entries, key).value) in policy.entries;
    }
  }

  /* If the run completes it shows and records the ending. */
  ghost predicate Tells(r: Run, e: Effect, end: Ending)
  {
    e.result.Completed? ==>
      ShowsEnding(e.result.outcome, end) && |e.records| == 1 && RecordsEnding(r, e.records[0], end)
  }

  lemma SettleTells(r: Run, o: Outcome, current: Ledger, res: Resolution, verdict: string, calls: seq<Call>,
                    end: Ending)
    requires o.failure == None && o.mutation == NoMutation
    requires match end
             case Rejected => verdict == PkgArchive.VERDICT_REJECT
             case Duplicate => verdict == PkgArchive.VERDICT_APPROVE && Approved(current, r.scenario.candidate)
             case Fresh => verdict == PkgArchive.VERDICT_APPROVE && !Approved(current, r.scenario.candidate)
             case _ => false
    ensures Tells(r, Settle(r, o, current, res, verdict, calls), end)
  {
  }

  lemma FailTells(r: Run, o: Outcome, file: LedgerFile, calls: seq<Call>, end: Ending)
    requires o.verdict == "" && o.mutation == NoMutation
    ensures match end
            case Stopped(stop) =>
              Tells(r, ReleaseGate.Fail(r, o, file, stop.alias, stop.failure, "", calls), end)
            case OtherKind =>
              Tells(r, ReleaseGate.Fail(r, o, file, ALIAS_RELEASE_POLICY,
                                        Failure(PolicyKindUnexpected, PolicyEvaluationStage), "", calls), end)
            case Unlisted =>
              Tells(r, ReleaseGate.Fail(r, o, file, ALIAS_RELEASE_POLICY,
                                        Failure(PolicyCandidateUnknown, PolicyEvaluationStage),
                                        r.scenario.candidate, calls), end)
            case _ => true
  {
  }

  lemma ConcludeShowsEnding(r: Run, current: Ledger, project: string, built: Built, end: Ending)
    requires Sound(ConsultedIn(built)) && (built.stopped == None ==> ConsultedIn(built).Some?)
    requires EndsAs(current, built, r.scenario.candidate, end)
    ensures Tells(r, Conclude(r, current, project, built), end)
  {
    var o := WithBuild(FreshOutcome(r, project, LedgerDigest(r.host, current)), built);
    if built.stopped.Some? {
      FailTells(r, o.(attempted := Some(built.stopped.value.record)), Stored(current), built.calls, end);
    } else {
      LookupSays(PolicyOf(built), r.scenario.candidate);
      FailTells(r, o, Stored(current), built.calls, end);
      var verdict := PkgArchive.LookupIn(PolicyOf(built).entries, r.scenario.candidate);
      ApprovedHasRow(current, r.scenario.candidate);
      if verdict.Some? && end in {Rejected, Duplicate, Fresh} {
        SettleTells(r, o, current, ConsultedIn(built).value, verdict.value, built.calls, end);
      }
    }
  }

  lemma ApprovedHasRow(current: Ledger, candidate: string)
    ensures Approved(current, candidate) <==> exists row :: row in current.entries && row.candidateId == candidate
  {
    if row :| row in current.entries && row.candidateId == candidate {
      var i :| 0 <= i < |current.entries| && current.entries[i] == row;
    }
  }

  /* Every outcome shows its scenario and build as they were. */
  lemma OutcomeShowsBuild(r: Run, file: LedgerFile)
    requires EffectOf(r, file).result.Completed?
    ensures Starts(r, file) && EffectOf(r, file).ledger.Stored?
    ensures ShowsBuild(r, LoadedLedger(file), r.store.manifests[r.scenario.manifest].project, BuiltBy(r),
                       EffectOf(r, file).ledger.ledger, EffectOf(r, file).result.outcome)
  {
    EffectWhenStarted(r, file);
    ConcludeShowsBuild(r, LoadedLedger(file), r.store.manifests[r.scenario.manifest].project, BuiltBy(r));
  }

  /* Every completed run ended in one of these ways, and its outcome and its one audit record say which. */
  lemma CompletedRunIsTold(r: Run, file: LedgerFile) returns (end: Ending)
    requires EffectOf(r, file).result.Completed?
    ensures Starts(r, file)
    ensures BuiltBy(r).stopped == None ==> ConsultedIn(BuiltBy(r)).Some? && ConsultedIn(BuiltBy(r)).value.pkg.Some?
    ensures EndsAs(LoadedLedger(file), BuiltBy(r), r.scenario.candidate, end)
    ensures ShowsEnding(EffectOf(r, file).result.outcome, end)
    ensures |EffectOf(r, file).records| == 1 && RecordsEnding(r, EffectOf(r, file).records[0], end)
  {
    EffectWhenStarted(r, file);
    var project := r.store.manifests[r.scenario.manifest].project;
    ConcludeShape(r, LoadedLedger(file), project, BuiltBy(r));
    end := EndingOf(LoadedLedger(file), BuiltBy(r), r.scenario.candidate);
    ConcludeShowsEnding(r, LoadedLedger(file), project, BuiltBy(r), end);
  }

  lemma EndingOf(current: Ledger, built: Built, candidate: string) returns (end: Ending)
    requires Sound(ConsultedIn(built)) && (built.stopped == None ==> ConsultedIn(built).Some?)
    ensures EndsAs(current, built, candidate, end)
  {
    if built.stopped.Some? {
      return Stopped(built.stopped.value);
    }
    var policy := PolicyOf(built);
    LookupSays(policy, candidate);
    PkgArchive.VerdictsAreTotal(policy, policy.entries, candidate);
    if policy.kind != PkgArchive.KIND_RELEASE_POLICY {
      return OtherKind;
    }
    if PkgArchive.LookupIn(policy.entries, candidate) == None {
      return Unlisted;
    }
    if PkgArchive.LookupIn(policy.entries, candidate) == Some(PkgArchive.VERDICT_REJECT) {
      return Rejected;
    }
    end := if exists row :: row in current.entries && row.candidateId == candidate then Duplicate else Fresh;
  }

  // ----- where a ledger row comes from -----

  /* The record is of these bytes, which the source answered to the last of the requests asked, for the name of the
     dependency in the selected version. */
  ghost predicate Fetched(job: Job, dep: BuildManifest.Dependency, res: Resolution, source: SourcePolicy.Source,
                          asked: seq<Call>, bytes: Bytes)
  {
    && source in job.policy.sources && res.selected.source == source.id && res.name == dep.name
    && res.alias == dep.alias
    && job.world.artifact(asked, source, dep.name, res.selected.version) == Answer(bytes)
    && res.size == |bytes| && res.digest == job.codec.digest(bytes)
    && res.pkg.Some? && PkgArchive.ParseArchive(job.codec, bytes) == Ok(res.pkg.value)
  }

  function FetchOf(source: SourcePolicy.Source, dep: BuildManifest.Dependency, res: Resolution): Call
  {
    ArtifactCall(source, dep.name, res.selected.version)
  }

  lemma AppendAppend(a: seq<Call>, b: seq<Call>, c: seq<Call>)
    ensures a + (b + c) == (a + b) + c
  {
  }

  lemma SecureWasFetched(job: Job, dep: BuildManifest.Dependency, before: seq<Call>)
    returns (source: SourcePolicy.Source, asked: seq<Call>, bytes: Bytes)
    requires job.secure && ResolveOne(job, dep, before).failure == None
    ensures var r := ResolveOne(job, dep, before);
            && Fetched(job, dep, r.record, source, asked, bytes)
            && before <= asked && before + r.calls == asked + [FetchOf(source, dep, r.record)]
  {
    var x := DepInputs(job, dep, before);
    AcceptedIsLocked(x);
    AcceptedPackage(x);
    source, asked, bytes := x.Bound(), before + [x.MetadataRequest()], x.ArtifactReply().value;
    assert before + [x.MetadataRequest(), x.ArtifactRequest()] == asked + [x.ArtifactRequest()];
  }

  lemma BestIsOfSource(p: CombinedIndex.Poll, range: Semver.Range)
    requires Sorting.StableSort(CombinedIndex.OfferLess, p.Offers(range)) != []
    ensures var best := CombinedIndex.Best(p, range);
            best.rank < |p.pool| && best.candidate.source == p.pool[best.rank].id
  {
    CombinedIndex.OffersAreListed(p, range);
    var i := CombinedIndex.BestIsFirstMaximum(p, range);
    assert CombinedIndex.Best(p, range) in p.Offers(range);
  }

  /* The source a combined resolution asks for the artifact is the one that made the selected offer. */
  lemma SelectedIsAsked(x: CombinedIndex.Question) returns (source: SourcePolicy.Source)
    requires CombinedIndex.Outcome(x).failure == None
    ensures CombinedIndex.ReachesPool(x)
    ensures var p, o := CombinedIndex.PollOf(x), CombinedIndex.Outcome(x);
            && source in x.policy.sources && o.record.selected.source == source.id
            && SourcePolicy.SourceOf(p.pool, source.id) == source
            && o.record.name == x.dep.name && o.record.alias == x.dep.alias
            && o.calls == p.Asked(|p.pool|) + [ArtifactCall(source, x.dep.name, o.record.selected.version)]
  {
    var p, range := CombinedIndex.PollOf(x), Semver.ParseRange(x.dep.range).value;
    CombinedIndex.SuccessAsksWholePool(x);
    CombinedIndex.PoolReached(x);
    CombinedIndex.SelectedSourceIsAsked(p, range);
    BestIsOfSource(p, range);
    source := p.pool[CombinedIndex.Best(p, range).rank];
    assert source in p.pool;
  }

  /* Its record is of the bytes that source answered. */
  lemma SelectedIsRead(x: CombinedIndex.Question) returns (bytes: Bytes)
    requires CombinedIndex.Outcome(x).failure == None && CombinedIndex.ReachesPool(x)
    ensures var p, r := CombinedIndex.PollOf(x), CombinedIndex.Outcome(x).record;
            && FailureLaws.FetchReply(p, r.selected) == Answer(bytes)
            && r.size == |bytes| && r.digest == x.codec.digest(bytes)
            && r.pkg.Some? && PkgArchive.ParseArchive(x.codec, bytes) == Ok(r.pkg.value)
  {
    CombinedRecordShowsAnswers(x);
    bytes := FailureLaws.FetchReply(CombinedIndex.PollOf(x), CombinedIndex.Outcome(x).record.selected).value;
  }

  lemma CombinedWasFetched(job: Job, dep: BuildManifest.Dependency, before: seq<Call>)
    returns (source: SourcePolicy.Source, asked: seq<Call>, bytes: Bytes)
    requires !job.secure && ResolveOne(job, dep, before).failure == None
    ensures var r := ResolveOne(job, dep, before);
            && Fetched(job, dep, r.record, source, asked, bytes)
            && before <= asked && before + r.calls == asked + [FetchOf(source, dep, r.record)]
  {
    var x := CombinedIndex.Question(job.codec, job.policy, dep, job.world, before);
    var p := CombinedIndex.PollOf(x);
    source := SelectedIsAsked(x);
    bytes := SelectedIsRead(x);
    asked := before + p.Asked(|p.pool|);
    AppendAppend(before, p.Asked(|p.pool|), [FetchOf(source, dep, CombinedIndex.Outcome(x).record)]);
  }

  lemma WasFetched(job: Job, dep: BuildManifest.Dependency, before: seq<Call>)
    returns (source: SourcePolicy.Source, asked: seq<Call>, bytes: Bytes)
    requires ResolveOne(job, dep, before).failure == None
    ensures var r := ResolveOne(job, dep, before);
            && Fetched(job, dep, r.record, source, asked, bytes)
            && before <= asked && before + r.calls == asked + [FetchOf(source, dep, r.record)]
  {
    if job.secure {
      source, asked, bytes := SecureWasFetched(job, dep, before);
    } else {
      source, asked, bytes := CombinedWasFetched(job, dep, before);
    }
  }

  /* Fetched by a request made after those before, and one of all. */
  ghost predicate FetchedAmong(job: Job, dep: BuildManifest.Dependency, res: Resolution, before: seq<Call>,
                               all: seq<Call>, source: SourcePolicy.Source, asked: seq<Call>, bytes: Bytes)
  {
    && Fetched(job, dep, res, source, asked, bytes)
    && before <= asked && asked + [FetchOf(source, dep, res)] <= all
  }

  /* The record is of bytes the build fetched from the source it names. */
  ghost predicate FromFetch(job: Job, dep: BuildManifest.Dependency, res: Resolution, before: seq<Call>,
                            all: seq<Call>)
  {
    exists source, asked, bytes :: FetchedAmong(job, dep, res, before, all, source, asked, bytes)
  }

  lemma FetchedLater(job: Job, dep: BuildManifest.Dependency, res: Resolution, before: seq<Call>, more: seq<Call>,
                     all: seq<Call>)
    requires FromFetch(job, dep, res, before + more, all)
    ensures FromFetch(job, dep, res, before, all)
  {
    var source, asked, bytes :| FetchedAmong(job, dep, res, before + more, all, source, asked, bytes);
    assert FetchedAmong(job, dep, res, before, all, source, asked, bytes);
  }

  lemma HeadWasFetched(job: Job, dep: BuildManifest.Dependency, before: seq<Call>, later: seq<Call>)
    requires ResolveOne(job, dep, before).failure == None
    ensures var r := ResolveOne(job, dep, before); FromFetch(job, dep, r.record, before, (before + r.calls) + later)
  {
    var source, asked, bytes := WasFetched(job, dep, before);
    var r := ResolveOne(job, dep, before);
    assert FetchedAmong(job, dep, r.record, before, (before + r.calls) + later, source, asked, bytes);
  }

  ghost predicate AllFromFetches(job: Job, deps: seq<BuildManifest.Dependency>, resolutions: seq<Resolution>,
                                 before: seq<Call>, all: seq<Call>)
  {
    && |resolutions| <= |deps|
    && forall i :: 0 <= i < |resolutions| ==> FromFetch(job, deps[i], resolutions[i], before, all)
  }

  lemma AllFromFetchesCons(job: Job, deps: seq<BuildManifest.Dependency>, res: Resolution, rest: seq<Resolution>,
                           before: seq<Call>, more: seq<Call>, all: seq<Call>)
    requires deps != [] && FromFetch(job, deps[0], res, before, all)
    requires AllFromFetches(job, deps[1..], rest, before + more, all)
    ensures AllFromFetches(job, deps, [res] + rest, before, all)
  {
    var resolutions := [res] + rest;
    forall i | 0 <= i < |resolutions| ensures FromFetch(job, deps[i], resolutions[i], before, all) {
      if i > 0 {
        assert resolutions[i] == rest[i - 1] && deps[i] == deps[1..][i - 1];
        FetchedLater(job, deps[i], resolutions[i], before, more, all);
      }
    }
  }

  /* Whichever resolver runs, every record a build accepts is of bytes it fetched, at that point of the build, from the
     source the record names. */
  lemma {:induction false} BuiltWasFetched(job: Job, deps: seq<BuildManifest.Dependency>, before: seq<Call>)
    ensures var b := Build(job, deps, before); AllFromFetches(job, deps, b.resolutions, before, before + b.calls)
  {
    if deps != [] {
      var r := ResolveOne(job, deps[0], before);
      if r.failure == None {
        var rest := Build(job, deps[1..], before + r.calls);
        AppendAppend(before, r.calls, rest.calls);
        HeadWasFetched(job, deps[0], before, rest.calls);
        BuiltWasFetched(job, deps[1..], before + r.calls);
        AllFromFetchesCons(job, deps, r.record, rest.resolutions, before, r.calls,
                           (before + r.calls) + rest.calls);
      }
    }
  }

  lemma ApprovalIsEntered(r: Run, file: LedgerFile)
    requires ApprovesFresh(r, file)
    ensures Consulted(r, file).Some? && Consulted(r, file).value.pkg.Some?
    ensures var policy := Consulted(r, file).value.pkg.value.policy;
            && policy.kind == PkgArchive.KIND_RELEASE_POLICY
            && PkgArchive.PolicyEntry(r.scenario.candidate, PkgArchive.VERDICT_APPROVE) in policy.entries
  {
    ConsultedHasPackage(r, file);
    LookupSays(Consulted(r, file).value.pkg.value.policy, r.scenario.candidate);
  }

  lemma ConsultedWasFetched(r: Run, file: LedgerFile)
    returns (dep: BuildManifest.Dependency, source: SourcePolicy.Source, asked: seq<Call>, bytes: Bytes)
    requires Consulted(r, file).Some?
    ensures Starts(r, file) && dep in r.store.manifests[r.scenario.manifest].dependencies
    ensures dep.alias == ALIAS_RELEASE_POLICY
    ensures FetchedAmong(JobOf(r), dep, Consulted(r, file).value, r.before, r.before + BuiltBy(r).calls, source, asked,
                         bytes)
  {
    ConsultedHasPackage(r, file);
    var deps, res := r.store.manifests[r.scenario.manifest].dependencies, Consulted(r, file).value;
    BuiltWasFetched(JobOf(r), deps, r.before);
    var i :| 0 <= i < |BuiltBy(r).resolutions| && BuiltBy(r).resolutions[i] == res;
    assert FromFetch(JobOf(r), deps[i], res, r.before, r.before + BuiltBy(r).calls);
    dep := deps[i];
    source, asked, bytes :| FetchedAmong(JobOf(r), dep, res, r.before, r.before + BuiltBy(r).calls, source, asked,
                                         bytes);
  }

  /* A fresh approval, under either resolver, writes the row of the bytes that gave it: the candidate, the name of the
     release-policy dependency, the id of the source those bytes were asked of, the version asked for and their digest.
     They are a release policy that approves the candidate, and the run asked for them. */
  lemma RowIsFetched(r: Run, file: LedgerFile)
    returns (dep: BuildManifest.Dependency, source: SourcePolicy.Source, version: string, asked: seq<Call>,
             bytes: Bytes)
    requires ApprovesFresh(r, file)
    ensures Starts(r, file)
    ensures dep in r.store.manifests[r.scenario.manifest].dependencies && dep.alias == ALIAS_RELEASE_POLICY
    ensures source in r.store.policies[r.scenario.sourcePolicy].sources
    ensures r.before <= asked
    ensures asked + [ArtifactCall(source, dep.name, version)] <= r.before + EffectOf(r, file).calls
    ensures r.world.artifact(asked, source, dep.name, version) == Answer(bytes)
    ensures var parsed := PkgArchive.ParseArchive(r.host.codec, bytes);
            && parsed.Ok? && parsed.value.policy.kind == PkgArchive.KIND_RELEASE_POLICY
            && PkgArchive.PolicyEntry(r.scenario.candidate, PkgArchive.VERDICT_APPROVE) in parsed.value.policy.entries
    ensures Rows(EffectOf(r, file).ledger) ==
            Rows(file) + [Entry(r.scenario.candidate, dep.name, source.id, version, r.host.codec.digest(bytes))]
  {
    dep, source, asked, bytes := ConsultedWasFetched(r, file);
    version := Consulted(r, file).value.selected.version;
    ApprovalIsEntered(r, file);
    EffectCalls(r, file);
    LedgerGrowsByApproval(r, file);
  }

  lemma EffectCalls(r: Run, file: LedgerFile)
    requires Starts(r, file)
    ensures EffectOf(r, file).calls == BuiltBy(r).calls
  {
    EffectWhenStarted(r, file);
    ConcludeCalls(r, LoadedLedger(file), r.store.manifests[r.scenario.manifest].project, BuiltBy(r));
  }
}
