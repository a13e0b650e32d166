/**
 internal/audit: one structured record per run, refused if it is incomplete or would leak. The
 program's own event, stage and class words are enumerated; the leak filter is asked about the rest.
 */
module Audit {
  import opened Prelude
  import opened Resolver

  const AUDIT_FORMAT := "indexjack-audit/1"

  datatype EventKind = BuildFailure | ReleaseRejected | ReleaseApproved | ReleaseDuplicate

  datatype Event = Event(
    format: string, event: EventKind, correlationId: string, scenarioId: string, stage: Stage,
    dependencyAlias: string, failureClass: Option<Class>, candidateId: string)

  /* Whether a text is free of every forbidden substring, and the correlation id of a scenario:
     arbitrary functions. */
  datatype Text = Text(clean: string -> bool, correlation: string -> string)

  predicate Valid(t: Text, e: Event)
  {
    && e.scenarioId != "" && e.correlationId != ""
    && t.clean(e.scenarioId) && t.clean(e.dependencyAlias) && t.clean(e.candidateId)
  }

  function Draft(event: EventKind, stage: Stage, alias: string, class_: Option<Class>, candidateId: string): Event
  {
    Event("", event, "", "", stage, alias, class_, candidateId)
  }

  /* The record as written: format, scenario and correlation id are the sink's own. */
  function Stamped(t: Text, scenarioId: string, e: Event): Event
  {
    e.(format := AUDIT_FORMAT, scenarioId := scenarioId, correlationId := t.correlation(scenarioId))
  }
}
