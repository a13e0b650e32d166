/** Ledger and audit log over any sequence of runs, in any worlds, from a fresh state directory. */
module RunHistory {
  import opened Prelude
  import opened Ledger
  import opened Audit
  import opened ReleaseGate
  import opened GateLaws
  import PkgArchive

  datatype Files = Files(ledger: LedgerFile, audit: seq<Event>)

  ghost function After(runs: seq<Run>): Files
  {
    if runs == [] then Files(Missing, [])
    else
      var f, e := After(runs[..|runs| - 1]), LastEffect(runs);
      Files(e.ledger, f.audit + e.records)
  }

  /* What the last run of a non-empty sequence did. */
  ghost function LastEffect(runs: seq<Run>): Effect
    requires runs != []
    decreases runs, 0
  {
    EffectOf(runs[|runs| - 1], After(runs[..|runs| - 1]).ledger)
  }

  ghost function RowsAfter(runs: seq<Run>): seq<Entry>
  {
    Rows(After(runs).ledger)
  }

  ghost predicate LastApproves(runs: seq<Run>)
    requires runs != []
  {
    ApprovesFresh(runs[|runs| - 1], After(runs[..|runs| - 1]).ledger)
  }

  /* The last run wrote a ledger row but no audit record of it. */
  ghost predicate LastOrphans(runs: seq<Run>)
    requires runs != []
  {
    LastApproves(runs) && !LastEffect(runs).result.Completed?
  }

  ghost function CompletedRuns(runs: seq<Run>): nat
  {
    if runs == [] then 0
    else CompletedRuns(runs[..|runs| - 1]) + if LastEffect(runs).result.Completed? then 1 else 0
  }

  ghost function OrphanRows(runs: seq<Run>): nat
  {
    if runs == [] then 0 else OrphanRows(runs[..|runs| - 1]) + if LastOrphans(runs) then 1 else 0
  }

  function Approvals(audit: seq<Event>): seq<Event>
  {
    Filter((e: Event) => e.event == ReleaseApproved, audit)
  }

  lemma {:induction false} LedgerStaysLoadable(runs: seq<Run>)
    ensures LoadedFrom(After(runs).ledger).Some?
    ensures LoadedLedger(After(runs).ledger).entries == RowsAfter(runs)
  {
    if runs != [] {
      LedgerStaysLoadable(runs[..|runs| - 1]);
      LedgerGrowsByApproval(runs[|runs| - 1], After(runs[..|runs| - 1]).ledger);
    }
  }

  lemma ApprovalStep(r: Run, file: LedgerFile)
    requires LoadedFrom(file).Some?
    ensures Rows(EffectOf(r, file).ledger) == Rows(file) + (if ApprovesFresh(r, file) then [RowOf(r, file)] else [])
    ensures ApprovesFresh(r, file) ==> RowOf(r, file).candidateId == r.scenario.candidate
    ensures ApprovesFresh(r, file) ==> forall row :: row in Rows(file) ==> row.candidateId != r.scenario.candidate
  {
    LedgerGrowsByApproval(r, file);
    assert LoadedLedger(file).entries == Rows(file);
  }

  lemma {:induction false} AfterLast(runs: seq<Run>)
    requires runs != []
    ensures var f, e := After(runs[..|runs| - 1]), LastEffect(runs);
            After(runs).ledger == e.ledger && After(runs).audit == f.audit + e.records
    ensures LastEffect(runs) == EffectOf(runs[|runs| - 1], After(runs[..|runs| - 1]).ledger)
  {
  }

  /* One run appends at most one row, and only for a candidate that has none. */
  lemma RowsStep(runs: seq<Run>)
    requires runs != []
    ensures var init, last := runs[..|runs| - 1], runs[|runs| - 1];
            && RowsAfter(runs) ==
               RowsAfter(init) + (if LastApproves(runs) then [RowOf(last, After(init).ledger)] else [])
            && (LastApproves(runs) ==>
                  forall row :: row in RowsAfter(init) ==> row.candidateId != last.scenario.candidate)
  {
    LedgerStaysLoadable(runs[..|runs| - 1]);
    AfterLast(runs);
    ApprovalStep(runs[|runs| - 1], After(runs[..|runs| - 1]).ledger);
  }

  /* No candidate ever has two rows. */
  lemma {:induction false} OneRowPerCandidate(runs: seq<Run>)
    ensures DistinctBy((e: Entry) => e.candidateId, RowsAfter(runs))
  {
    if runs != [] {
      var init, last := runs[..|runs| - 1], runs[|runs| - 1];
      OneRowPerCandidate(init);
      RowsStep(runs);
      if LastApproves(runs) {
        DistinctBySnoc((e: Entry) => e.candidateId, RowsAfter(init), RowOf(last, After(init).ledger));
      }
    }
  }

  /* The ledger is only ever appended to. */
  lemma {:induction false} LedgerOnlyGrows(runs: seq<Run>, i: nat)
    requires i <= |runs|
    ensures RowsAfter(runs[..i]) <= RowsAfter(runs)
    decreases |runs|
  {
    if i == |runs| {
      assert runs[..i] == runs;
    } else {
      var init := runs[..|runs| - 1];
      assert init[..i] == runs[..i];
      LedgerOnlyGrows(init, i);
      RowsStep(runs);
    }
  }

  /* Whatever policy identity was first recorded for a candidate is the one recorded ever after. */
  lemma RecordedIdentityNeverChanges(runs: seq<Run>, i: nat, row: Entry, later: Entry)
    requires i <= |runs| && row in RowsAfter(runs[..i]) && later in RowsAfter(runs)
    requires later.candidateId == row.candidateId
    ensures later == row
  {
    LedgerOnlyGrows(runs, i);
    OneRowPerCandidate(runs);
    var rows := RowsAfter(runs);
    var a :| 0 <= a < |RowsAfter(runs[..i])| && RowsAfter(runs[..i])[a] == row;
    assert rows[a] == row;
    var b :| 0 <= b < |rows| && rows[b] == later;
  }

  /* Each completed run adds exactly one audit record; ledger rows are the recorded approvals and the
     rows of runs that approved but could not report it. */
  lemma {:induction false} AuditMatchesLedger(runs: seq<Run>)
    ensures |After(runs).audit| == CompletedRuns(runs)
    ensures |RowsAfter(runs)| == |Approvals(After(runs).audit)| + OrphanRows(runs)
  {
    if runs != [] {
      var init, last := runs[..|runs| - 1], runs[|runs| - 1];
      AuditMatchesLedger(init);
      LedgerGrowsByApproval(last, After(init).ledger);
      RecordPerCompletedRun(last, After(init).ledger);
      var records := LastEffect(runs).records;
      if records == [] {
        assert After(init).audit + records == After(init).audit;
      } else {
        assert records == [records[0]];
        FilterSnoc((e: Event) => e.event == ReleaseApproved, After(init).audit, records[0]);
      }
    }
  }

  lemma ApprovedCandidateIsClean(r: Run, file: LedgerFile)
    requires SpeaksCleanly(r.host.text) && ApprovesFresh(r, file)
    ensures r.host.text.clean(r.scenario.candidate)
  {
    ConsultedHasPackage(r, file);
    var policy := Consulted(r, file).value.pkg.value.policy;
    PkgArchive.ValidKeysDistinct(policy);
    PkgArchive.LookupFinds(policy.entries, r.scenario.candidate, PkgArchive.VERDICT_APPROVE);
    var i :| 0 <= i < |policy.entries| && policy.entries[i] ==
        PkgArchive.PolicyEntry(r.scenario.candidate, PkgArchive.VERDICT_APPROVE);
  }

  /* A fresh approval goes unrecorded exactly when the scenario id may not be reported: the row is
     written first, and then the run returns an error. */
  lemma OrphanExactly(r: Run, file: LedgerFile)
    requires SpeaksCleanly(r.host.text) && ApprovesFresh(r, file)
    ensures EffectOf(r, file).result.Completed? <==> r.scenario.id != "" && r.host.text.clean(r.scenario.id)
    ensures !EffectOf(r, file).result.Completed? ==>
              EffectOf(r, file).records == [] && Rows(EffectOf(r, file).ledger) == Rows(file) + [RowOf(r, file)]
  {
    ApprovedCandidateIsClean(r, file);
    LedgerGrowsByApproval(r, file);
    RecordPerCompletedRun(r, file);
    FinishedBuildCompletes(r, file);
    ConsultedWhenDeclared(r);
  }

  /* The same run under another scenario id. */
  function Relabelled(r: Run, id: string): Run
  {
    r.(scenario := r.scenario.(id := id))
  }

  lemma RelabelledConsultsTheSame(r: Run, file: LedgerFile, id: string)
    ensures Starts(Relabelled(r, id), file) <==> Starts(r, file)
    ensures Consulted(Relabelled(r, id), file) == Consulted(r, file)
    ensures ApprovesFresh(Relabelled(r, id), file) <==> ApprovesFresh(r, file)
  {
    assert Obstacle(Relabelled(r, id), file) == Obstacle(r, file);
    if Starts(r, file) {
      assert JobOf(Relabelled(r, id)) == JobOf(r);
    }
  }

  lemma RefusedIdNeverCompletes(r: Run, file: LedgerFile)
    requires r.scenario.id == "" || !r.host.text.clean(r.scenario.id)
    requires ApprovesFresh(r, file)
    ensures EffectOf(r, file).result == Aborted(AuditRefused)
  {
    EffectWhenStarted(r, file);
  }

  /* Every run that approves afresh has one beside it that leaves an orphan: under any scenario id the audit
     log refuses, the same run writes the same row, records nothing and returns no outcome. */
  lemma RefusedIdLeavesOrphan(r: Run, file: LedgerFile, id: string)
    requires ApprovesFresh(r, file) && (id == "" || !r.host.text.clean(id))
    ensures ApprovesFresh(Relabelled(r, id), file)
    ensures var e := EffectOf(Relabelled(r, id), file);
            e.result == Aborted(AuditRefused) && e.records == [] && Rows(e.ledger) == Rows(file) + [RowOf(r, file)]
  {
    RelabelledConsultsTheSame(r, file, id);
    RefusedIdNeverCompletes(Relabelled(r, id), file);
    LedgerGrowsByApproval(Relabelled(r, id), file);
    RecordPerCompletedRun(Relabelled(r, id), file);
  }

  /* After these runs, r approves afresh under a scenario id the audit log refuses. */
  ghost predicate ApprovesUnreportably(earlier: seq<Run>, r: Run)
  {
    && ApprovesFresh(r, After(earlier).ledger)
    && !(r.scenario.id != "" && r.host.text.clean(r.scenario.id))
  }

  lemma LastOrphansExactly(runs: seq<Run>)
    requires runs != [] && SpeaksCleanly(runs[|runs| - 1].host.text)
    ensures LastOrphans(runs) <==> ApprovesUnreportably(runs[..|runs| - 1], runs[|runs| - 1])
  {
    if LastApproves(runs) {
      OrphanExactly(runs[|runs| - 1], After(runs[..|runs| - 1]).ledger);
    }
  }

  /* No run of the sequence is bad after the ones before it. */
  ghost predicate Never<T>(bad: (seq<T>, T) -> bool, runs: seq<T>)
  {
    forall i: nat :: i < |runs| ==> !bad(runs[..i], runs[i])
  }

  lemma NeverStep<T>(bad: (seq<T>, T) -> bool, runs: seq<T>)
    requires runs != []
    ensures Never(bad, runs) <==> Never(bad, runs[..|runs| - 1]) && !bad(runs[..|runs| - 1], runs[|runs| - 1])
  {
    var init := runs[..|runs| - 1];
    assert forall i: nat :: i < |init| ==> init[..i] == runs[..i] && init[i] == runs[i];
  }

  ghost predicate AllReportable(runs: seq<Run>)
  {
    Never(ApprovesUnreportably, runs)
  }

  lemma {:induction false} OrphansCounted(runs: seq<Run>)
    requires forall r :: r in runs ==> SpeaksCleanly(r.host.text)
    ensures OrphanRows(runs) == 0 <==> AllReportable(runs)
  {
    if runs != [] {
      var n := |runs| - 1;
      OrphansCounted(runs[..n]);
      assert runs[n] in runs;
      LastOrphansExactly(runs);
      NeverStep(ApprovesUnreportably, runs);
    }
  }

  /* Recorded approvals and ledger rows agree in number exactly when no run ever approved afresh under
     a scenario id the audit log refuses. */
  lemma ApprovalsMatchRows(runs: seq<Run>)
    requires forall r :: r in runs ==> SpeaksCleanly(r.host.text)
    ensures |Approvals(After(runs).audit)| == |RowsAfter(runs)| <==> AllReportable(runs)
  {
    AuditMatchesLedger(runs);
    OrphansCounted(runs);
  }
}
