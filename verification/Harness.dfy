/** internal/harness: the reconciliation, the integrity verdicts and the collected receipts of a run. */
module Harness {
  import opened Prelude
  import opened Fixtures
  import opened Resolver
  import opened ReleaseGate
  import opened GateLaws
  import opened Ledger
  import CombinedIndex
  import FailureLaws
  import Lockfile
  import PkgArchive
  import RecordLaws
  import Semver
  import Sorting

  // ----- reconciliation -----

  datatype Verdict = Pass | Fail

  datatype Statement =
    | FailedButLedgerChanged | FailedClosed | UntrustedApproval | RejectedButLedgerChanged | UnsafeNotReleased
    | ApprovedButUnrecorded | ReadyReleased | ReadyRejected | NoVerdictToReconcile

  datatype Reconciliation = Reconciliation(result: Verdict, statement: Statement, origin: string, digest: string)

  /* The independent judge of an outcome: dependency, gate record and ledger must agree. */
  function Reconcile(o: Outcome): Reconciliation
  {
    var origin := if o.releasePolicy.Some? then o.releasePolicy.value.selected.source else "";
    var digest := if o.releasePolicy.Some? then o.releasePolicy.value.digest else "";
    var changed := o.ledgerBefore != o.ledgerAfter;
    var unsafe := o.classification == KNOWN_UNSAFE;
    if o.clientResult == BuildFailed then
      if changed then Reconciliation(Fail, FailedButLedgerChanged, origin, digest)
      else Reconciliation(Pass, FailedClosed, "", "")
    else if o.verdict == PkgArchive.VERDICT_APPROVE && unsafe
      then Reconciliation(Fail, UntrustedApproval, origin, digest)
    else if o.verdict == PkgArchive.VERDICT_REJECT && unsafe then
      if changed then Reconciliation(Fail, RejectedButLedgerChanged, origin, digest)
      else Reconciliation(Pass, UnsafeNotReleased, origin, digest)
    else if o.verdict == PkgArchive.VERDICT_APPROVE && !unsafe then
      if !changed && o.mutation != SuppressedDuplicate then Reconciliation(Fail, ApprovedButUnrecorded, origin, digest)
      else Reconciliation(Pass, ReadyReleased, origin, digest)
    else if o.verdict == PkgArchive.VERDICT_REJECT && !unsafe then Reconciliation(Fail, ReadyRejected, origin, digest)
    else Reconciliation(Fail, NoVerdictToReconcile, origin, digest)
  }

  /* Each statement is made exactly of the outcomes it describes, and names the policy artifact that was consulted
     unless none was; only three of the nine are a pass. */
  lemma StatementsAreExact(o: Outcome)
    ensures var judged := Reconcile(o);
            var failed, changed := o.clientResult == BuildFailed, o.ledgerBefore != o.ledgerAfter;
            var unsafe := o.classification == KNOWN_UNSAFE;
            var approved, rejected := !failed && o.verdict == PkgArchive.VERDICT_APPROVE,
                                      !failed && o.verdict == PkgArchive.VERDICT_REJECT;
            var recorded := changed || o.mutation == SuppressedDuplicate;
            && (judged.statement == FailedButLedgerChanged <==> failed && changed)
            && (judged.statement == FailedClosed <==> failed && !changed)
            && (judged.statement == UntrustedApproval <==> approved && unsafe)
            && (judged.statement == RejectedButLedgerChanged <==> rejected && unsafe && changed)
            && (judged.statement == UnsafeNotReleased <==> rejected && unsafe && !changed)
            && (judged.statement == ApprovedButUnrecorded <==> approved && !unsafe && !recorded)
            && (judged.statement == ReadyReleased <==> approved && !unsafe && recorded)
            && (judged.statement == ReadyRejected <==> rejected && !unsafe)
            && (judged.statement == NoVerdictToReconcile <==> !failed && !approved && !rejected)
            && (judged.result == Pass <==> judged.statement in {FailedClosed, UnsafeNotReleased, ReadyReleased})
            && (if judged.statement == FailedClosed || o.releasePolicy == None
                then judged.origin == "" && judged.digest == ""
                else judged.origin == o.releasePolicy.value.selected.source
                     && judged.digest == o.releasePolicy.value.digest)
  {
  }

  /* What an outcome of a finished loop looks like to the judge. */
  lemma ConcludedOutcome(r: Run, current: Ledger, project: string, built: Built)
    requires Sound(ConsultedIn(built))
    ensures var e := Conclude(r, current, project, built);
            e.result.Completed? ==>
              && var o := e.result.outcome;
              && o.ledgerBefore == LedgerDigest(r.host, current)
              && o.classification == Classified(r.store.classifications, r.scenario.candidate)
              && (if o.clientResult == BuildFailed then o.ledgerAfter == o.ledgerBefore
                  else
                    && o.clientResult == BuildOk && built.stopped == None
                    && VerdictIn(ConsultedIn(built), r.scenario.candidate) == Some(o.verdict)
                    && o.releasePolicy == ConsultedIn(built) && o.releasePolicy.Some?
                    && (if o.verdict == PkgArchive.VERDICT_APPROVE then
                          if Approved(current, r.scenario.candidate) then
                            o.mutation == SuppressedDuplicate && o.ledgerAfter == o.ledgerBefore
                          else
                            && o.mutation == ApprovedRow
                            && var row := NewRow(r.scenario.candidate, o.releasePolicy.value);
                            && o.ledgerAfter == LedgerDigest(r.host, Grown(current, row))
                        else
                          && o.verdict == PkgArchive.VERDICT_REJECT && o.mutation == NoMutation
                          && o.ledgerAfter == o.ledgerBefore))
  {
    if ConsultedIn(built).Some? {
      var policy := ConsultedIn(built).value.pkg.value.policy;
      PkgArchive.VerdictsAreTotal(policy, policy.entries, r.scenario.candidate);
    }
  }

  /* The ledger before a fresh approval and the one after it are encoded apart, and the two texts do not collide. */
  ghost predicate LedgersDistinguished(r: Run, file: LedgerFile)
  {
    ApprovesFresh(r, file) && Consulted(r, file).Some? ==>
      var before := LoadedLedger(file);
      var after := Grown(before, RowOf(r, file));
      && r.host.encodeLedger(before) != r.host.encodeLedger(after)
      && (r.host.codec.digest(r.host.encodeLedger(before)) == r.host.codec.digest(r.host.encodeLedger(after)) ==>
            r.host.encodeLedger(before) == r.host.encodeLedger(after))
  }

  /* Which of the reachable statements is made of an outcome. */
  ghost predicate JudgedAs(o: Outcome, judged: Reconciliation)
  {
    && (judged.statement == FailedClosed <==> o.clientResult == BuildFailed)
    && (judged.statement == UntrustedApproval <==>
          && o.clientResult == BuildOk && o.verdict == PkgArchive.VERDICT_APPROVE
          && o.classification == KNOWN_UNSAFE)
    && (judged.statement == UnsafeNotReleased <==>
          && o.clientResult == BuildOk && o.verdict == PkgArchive.VERDICT_REJECT
          && o.classification == KNOWN_UNSAFE)
    && (judged.statement == ReadyReleased <==>
          && o.clientResult == BuildOk && o.verdict == PkgArchive.VERDICT_APPROVE
          && o.classification != KNOWN_UNSAFE)
    && (judged.statement == ReadyRejected <==>
          && o.clientResult == BuildOk && o.verdict == PkgArchive.VERDICT_REJECT
          && o.classification != KNOWN_UNSAFE)
  }

  ghost predicate NamesConsulted(r: Run, file: LedgerFile, o: Outcome, judged: Reconciliation)
  {
    if o.clientResult == BuildFailed then judged.origin == "" && judged.digest == ""
    else
      && Consulted(r, file).Some? && judged.origin == Consulted(r, file).value.selected.source
      && judged.digest == Consulted(r, file).value.digest
  }

  /* On every outcome a run can return, reconciliation fails exactly when the build succeeded and the
     artifact approved what the gate knows is unsafe, or rejected what it does not; the branches for a
     changed ledger, a missing row and a missing verdict are never taken. The statement says what happened, and names
     source and digest of the release policy the run consulted unless the build failed. */
  lemma ReconciliationIsExact(r: Run, file: LedgerFile)
    requires LedgersDistinguished(r, file)
    ensures EffectOf(r, file).result.Completed? ==>
              && var o := EffectOf(r, file).result.outcome;
              && var judged := Reconcile(o);
              && (judged.result == Fail <==>
                  && o.clientResult == BuildOk
                  && (o.verdict == PkgArchive.VERDICT_APPROVE) == (o.classification == KNOWN_UNSAFE))
              && judged.statement in {FailedClosed, UntrustedApproval, UnsafeNotReleased, ReadyReleased, ReadyRejected}
              && JudgedAs(o, judged) && NamesConsulted(r, file, o, judged)
  {
    if Starts(r, file) {
      EffectWhenStarted(r, file);
      ConcludedOutcome(r, LoadedLedger(file), r.store.manifests[r.scenario.manifest].project, BuiltBy(r));
    } else {
      EffectWhenObstructed(r, file);
    }
  }

  // ----- integrity verdicts -----

  /* What a transcript says of a dependency's bytes. */
  datatype IntegrityVerdict = NotReached | Rejected | VerifiedBytes | UnverifiedBytes

  function IntegrityOf(res: Resolution, failure: Option<Failure>): IntegrityVerdict
  {
    match res.integrity
    case Verified => VerifiedBytes
    case Unverified => UnverifiedBytes
    case NoVerdict => if failure.Some? && failure.value.stage == IntegrityStage then Rejected else NotReached
  }

  /* Under the secure resolver the recorded verdict is "verified" exactly when bytes arrived and matched
     the lock, "rejected" exactly when they arrived and lost, and "not reached" when none were compared. */
  lemma SecureVerdictIsExact(x: Inputs)
    ensures var o := Resolver.Outcome(x); var v := IntegrityOf(o.record, o.failure);
            && (v == VerifiedBytes <==> StopFrom(x, 0) >= 20)
            && (v == Rejected <==> StopFrom(x, 0) == 18 || StopFrom(x, 0) == 19)
            && (v == NotReached <==> StopFrom(x, 0) <= 17)
            && (v == VerifiedBytes || v == Rejected ==> x.ArtifactReply().Answer?)
            && (v == VerifiedBytes ==>
                  Lockfile.VerifyBytes(x.codec.digest, x.Locked(), x.ArtifactReply().value) == None)
            && (v == Rejected ==>
                  Lockfile.VerifyBytes(x.codec.digest, x.Locked(), x.ArtifactReply().value).Some?)
  {
    StopFromStops(x, 0);
    var k := StopFrom(x, 0);
    VerdictAt(x, k);
    if k >= 18 {
      BytesCompared(x, k);
    }
  }

  /* In terms of the documents: "verified" means that listed bytes arrived and match the lock's size and digest,
     "rejected" that they arrived and do not, and "not reached" that none arrived. */
  lemma SecureVerdictSays(x: Inputs)
    ensures var o := Resolver.Outcome(x);
            var v, arrived := IntegrityOf(o.record, o.failure), FailureLaws.Listed(x) && x.ArtifactReply().Answer?;
            && (v == VerifiedBytes <==> FailureLaws.Pinned(x))
            && (v == Rejected <==> arrived && !FailureLaws.Pinned(x))
            && (v == NotReached <==> !arrived)
  {
    RecordLaws.RecordShowsAnswers(x);
    FailureLaws.FetchFailuresExactly(x);
    FailureLaws.IntegrityIsCompared(x);
  }

  lemma VerdictAt(x: Inputs, k: nat)
    requires k <= CHECKS
    ensures IntegrityOf(x.RecordAt(k), if k == CHECKS then None else Some(FailureAt(k))) ==
            if k >= 20 then VerifiedBytes else if k >= 18 then Rejected else NotReached
  {
  }

  /* Once bytes have arrived, the lock accepts them exactly when both its checks hold. */
  lemma BytesCompared(x: Inputs, k: nat)
    requires x.StopsAt(k) && k >= 18
    ensures x.ArtifactReply().Answer?
    ensures Lockfile.VerifyBytes(x.codec.digest, x.Locked(), x.ArtifactReply().value) == None <==> k >= 20
  {
    assert x.Holds(17);
    if k >= 20 {
      assert x.Holds(18) && x.Holds(19);
    }
  }

  /* The integrity verdict of one combined-index resolution. */
  ghost predicate ReadUnverified(o: Resolved)
  {
    var v := IntegrityOf(o.record, o.failure);
    && (v == UnverifiedBytes || v == NotReached)
    && (v == UnverifiedBytes <==>
        o.failure == None || o.failure == Some(Failure(ArtifactMalformed, ArtifactParseStage)))
  }

  lemma FetchedUnverified(codec: PkgArchive.Codec, p: CombinedIndex.Poll, selected: Candidate, record: Resolution)
    requires record.integrity == NoVerdict
    ensures ReadUnverified(CombinedIndex.FetchedOutcome(codec, p, selected, record))
  {
  }

  lemma PooledUnverified(codec: PkgArchive.Codec, p: CombinedIndex.Poll, range: Semver.Range, decided: Resolution)
    requires decided.integrity == NoVerdict
    ensures ReadUnverified(CombinedIndex.PooledOutcome(codec, p, range, decided))
  {
    var sorted := Sorting.StableSort(CombinedIndex.OfferLess, p.Offers(range));
    if p.StopFrom(0) == |p.pool| && sorted != [] {
      var record := decided.(queried := SourceIds(p.pool[..p.AskedCount()]),
                             candidates := Map((o: CombinedIndex.Offer) => o.candidate, sorted));
      FetchedUnverified(codec, p, sorted[0].candidate, record.(selected := sorted[0].candidate));
    }
  }

  /* Under the combined-index resolver no bytes are ever compared: the verdict is "unverified" exactly
     when an artifact was fetched, and otherwise "not reached". */
  lemma CombinedVerdictIsExact(q: CombinedIndex.Question)
    ensures ReadUnverified(CombinedIndex.Outcome(q))
  {
    var range := Semver.ParseRange(q.dep.range);
    if range.Some? {
      PooledUnverified(q.codec, CombinedIndex.PollOf(q), range.value, CombinedIndex.DecidedRecord(q));
    }
  }
}
