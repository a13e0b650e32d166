/**
 What the record of a resolution shows: every field of it, for both resolvers, in terms of the documents, the answers
 and how far the resolution got.
 */
module RecordLaws {
  import opened Prelude
  import opened Network
  import opened SourcePolicy
  import opened Lockfile
  import opened Resolver
  import opened FailureLaws
  import CombinedIndex
  import PkgArchive
  import Semver
  import Sorting

  // ----- the secure resolver -----

  lemma GotTo(x: Inputs, k: nat)
    requires k <= CHECKS
    ensures StopFrom(x, 0) <= CHECKS && (StopFrom(x, 0) >= k <==> Holding(x, 0, k))
  {
    StopFromStops(x, 0);
    if StopFrom(x, 0) < k {
      assert !x.Holds(StopFrom(x, 0));
    }
  }

  /* How far a resolution got, as the record was written. */
  lemma EarlyProgress(x: Inputs)
    ensures var k := StopFrom(x, 0);
            && (k > 0 <==> ValidPolicy(x.cfg.policy)) && (k > 3 <==> PolicyBinds(x))
            && (k > 6 <==> PolicyBinds(x) && Binding(x.cfg.lock, x.dep.alias).Ok?)
  {
    PolicyStops(x);
    RecordStops(x);
    HoldingIs(x, 0);
    HoldingIs(x, 4);
    HoldingThrough(x, 4, 7);
    GotTo(x, 1);
    GotTo(x, 4);
    GotTo(x, 7);
  }

  lemma LateProgress(x: Inputs)
    ensures var k := StopFrom(x, 0);
            && (k > 12 <==> LockAgrees(x) && x.world.dials(x.before, x.Bound()))
            && (k > 14 <==> LockAgrees(x) && x.world.dials(x.before, x.Bound()) && x.MetadataReply().Answer?)
            && (k > 15 <==> Listed(x)) && (k > 19 <==> Pinned(x))
            && (k > 21 <==> FailureOf(x) == None)
  {
    RangeStops(x);
    QueryStops(x);
    FetchStops(x);
    HoldingIs(x, 12);
    HoldingThrough(x, 12, 13);
    HoldingThrough(x, 12, 15);
    GotTo(x, 13);
    GotTo(x, 15);
    GotTo(x, 16);
    GotTo(x, 20);
  }

  /* The ids of these sources, in their order. */
  ghost predicate IdsOf(ids: seq<string>, sources: seq<Source>)
  {
    |ids| == |sources| && forall i :: 0 <= i < |ids| ==> ids[i] == sources[i].id
  }

  /* The record names what was asked for, shows the policy once it binds the name, and the lock's record once there is
     one. */
  lemma RecordShowsDocuments(x: Inputs)
    ensures var r := Resolver.Outcome(x).record;
            && r.alias == x.dep.alias && r.name == x.dep.name && r.range == x.dep.range
            && r.selectionRule == LockedVersion
            && IdsOf(r.displayOrder, if ValidPolicy(x.cfg.policy) then x.cfg.policy.sources else [])
            && r.policy == (if PolicyBinds(x) then x.Decision() else NO_DECISION)
            && IdsOf(r.excluded, if PolicyBinds(x) then Filter((s: Source) => s != x.Bound(), x.cfg.policy.sources)
                     else [])
            && (if PolicyBinds(x) && Binding(x.cfg.lock, x.dep.alias).Ok?
                then Binding(x.cfg.lock, x.dep.alias) == Ok(r.locked) else r.locked == NO_RECORD)
  {
    EarlyProgress(x);
    if PolicyBinds(x) {
      var m := Matching(x.cfg.policy, x.dep.name)[0];
      MatchedIsValid(x.cfg.policy, x.dep.name);
      assert m in Matching(x.cfg.policy, x.dep.name);
      DecisionFollowsMapping(x.cfg.policy, x.dep.name, x.Decision(), m);
      FilterSame((s: Source) => s !in x.Decision().pool, (s: Source) => s != x.Bound(), x.cfg.policy.sources);
    }
  }

  /* The candidate is the source's first listing of the version. */
  ghost predicate FirstListing(c: Candidate, source: Source, meta: Metadata, version: string)
  {
    exists i :: 0 <= i < |meta.versions| && IsListing(c, source, meta, version, i)
  }

  ghost predicate IsListing(c: Candidate, source: Source, meta: Metadata, version: string, i: nat)
    requires i < |meta.versions|
  {
    && c == Candidate(source.id, meta.name, version, meta.versions[i].size, meta.versions[i].sha256)
    && meta.versions[i].version == version
    && forall j :: 0 <= j < i ==> meta.versions[j].version != version
  }

  lemma FirstListed(source: Source, meta: Metadata, version: string)
    requires Listings(meta, version) != []
    ensures FirstListing(Offered(source.id, meta.name, Listings(meta, version)[0]), source, meta, version)
  {
    var i := CombinedIndex.FirstPosition((v: VersionInfo) => v.version == version, meta.versions);
    assert IsListing(Offered(source.id, meta.name, Listings(meta, version)[0]), source, meta, version, i);
  }

  /* It shows the source asked, what that lists and which listing was selected, the bytes once they match the lock, and
     the package once the resolution succeeds. */
  lemma RecordShowsAnswers(x: Inputs)
    ensures var r, dialled := Resolver.Outcome(x).record, LockAgrees(x) && x.world.dials(x.before, x.Bound());
            && r.queried == (if dialled then [x.Bound().id] else [])
            && r.candidates == (if dialled && x.MetadataReply().Answer?
                                then OrderedCandidates(x.Bound().id, x.MetadataReply().value) else [])
            && (if Listed(x) then FirstListing(r.selected, x.Bound(), x.MetadataReply().value, x.Locked().version)
                else r.selected == NO_CANDIDATE)
            && (if Pinned(x) then
                  && r.size == |x.ArtifactReply().value| && r.digest == x.codec.digest(x.ArtifactReply().value)
                  && r.integrity == Verified
                else r.size == 0 && r.digest == "" && r.integrity == NoVerdict)
            && (r.pkg.Some? <==> FailureOf(x) == None)
            && (r.pkg.Some? ==>
                  x.ArtifactReply().Answer?
                  && PkgArchive.ParseArchive(x.codec, x.ArtifactReply().value) == Ok(r.pkg.value))
  {
    LateProgress(x);
    if Listed(x) {
      ListedFirst(x.MetadataReply().value, x.Locked().version);
      FirstListed(x.Bound(), x.MetadataReply().value, x.Locked().version);
    }
    if FailureOf(x) == None {
      AcceptedPackage(x);
    }
  }

  /* Nothing is asked before the lock agrees and the bound source is reached, then its metadata for the name, and its
     artifact of the locked version once it lists that. */
  lemma CallsExactly(x: Inputs)
    ensures CallsOf(x) ==
            if !LockAgrees(x) || !x.world.dials(x.before, x.Bound()) then []
            else if !Listed(x) then [MetadataCall(x.Bound(), x.dep.name)]
            else [MetadataCall(x.Bound(), x.dep.name), ArtifactCall(x.Bound(), x.dep.name, x.Locked().version)]
  {
    LateProgress(x);
  }

  // ----- the combined index -----

  /* Until it polls, a combined resolution shows what was asked for and, once one mapping matches, the decision and
     the declared sources it leaves out; it never shows a locked record. */
  lemma CombinedRecordShowsDocuments(x: CombinedIndex.Question)
    ensures var r, single := CombinedIndex.Outcome(x).record,
                             ValidPolicy(x.policy) && |Matching(x.policy, x.dep.name)| == 1;
            && r.alias == x.dep.alias && r.name == x.dep.name && r.range == x.dep.range
            && r.selectionRule == HighestVersion && r.locked == NO_RECORD
            && IdsOf(r.displayOrder, if ValidPolicy(x.policy) then x.policy.sources else [])
            && r.policy == (if single then CombinedIndex.DecisionOf(x) else NO_DECISION)
            && IdsOf(r.excluded, if single then Filter((s: Source) => s !in r.policy.pool, x.policy.sources) else [])
  {
    ReachesExactly(x);
    CombinedIndex.PoolReached(x);
    if ValidPolicy(x.policy) && |Matching(x.policy, x.dep.name)| == 1 {
      var m := Matching(x.policy, x.dep.name)[0];
      MatchedIsValid(x.policy, x.dep.name);
      assert m in Matching(x.policy, x.dep.name);
      DecisionFollowsMapping(x.policy, x.dep.name, CombinedIndex.DecisionOf(x), m);
      if CombinedIndex.ReachesPool(x) {
        PoolKeepsDocuments(x.codec, CombinedIndex.PollOf(x), Semver.ParseRange(x.dep.range).value,
                           CombinedIndex.DecidedRecord(x));
      }
    }
  }

  /* Two records show the same documents. */
  predicate SameDocuments(r: Resolution, s: Resolution)
  {
    && r.alias == s.alias && r.name == s.name && r.range == s.range && r.selectionRule == s.selectionRule
    && r.locked == s.locked && r.displayOrder == s.displayOrder && r.policy == s.policy && r.excluded == s.excluded
  }

  lemma FetchKeepsDocuments(codec: PkgArchive.Codec, p: CombinedIndex.Poll, selected: Candidate, record: Resolution)
    ensures SameDocuments(CombinedIndex.FetchedOutcome(codec, p, selected, record).record, record)
  {
  }

  lemma SelectionKeepsDocuments(codec: PkgArchive.Codec, p: CombinedIndex.Poll, sorted: seq<CombinedIndex.Offer>,
                                polled: Resolution)
    ensures SameDocuments(CombinedIndex.SelectedOutcome(codec, p, sorted, polled).record, polled)
  {
    if sorted != [] {
      var record := polled.(candidates := Map((o: CombinedIndex.Offer) => o.candidate, sorted));
      FetchKeepsDocuments(codec, p, sorted[0].candidate, record.(selected := sorted[0].candidate));
    }
  }

  lemma PoolKeepsDocuments(codec: PkgArchive.Codec, p: CombinedIndex.Poll, range: Semver.Range, decided: Resolution)
    ensures SameDocuments(CombinedIndex.PooledOutcome(codec, p, range, decided).record, decided)
  {
    SelectionKeepsDocuments(codec, p, Sorting.StableSort(CombinedIndex.OfferLess, p.Offers(range)),
                            decided.(queried := SourceIds(p.pool[..p.AskedCount()])));
  }

  /* The sources shown as queried are those asked for metadata, in that order: the pool up to the first source that
     cannot be reached or gives no answer. An artifact is asked of the selected source, and last. */
  ghost predicate ShowsRequests(p: CombinedIndex.Poll, o: Resolved)
  {
    var n := |o.record.queried|;
    && n <= |p.pool| && n <= |o.calls| <= n + 1
    && (forall i: nat :: i < n ==> o.record.queried[i] == p.pool[i].id && o.calls[i] == MetadataCall(p.pool[i], p.name))
    && (forall i: nat :: i < n ==> p.Reachable(i) && (i < n - 1 ==> p.ReplyOf(i) != Unavailable))
    && (n < |p.pool| ==> !p.Reachable(n) || (n > 0 && p.ReplyOf(n - 1) == Unavailable))
    && (|o.calls| == n + 1 ==>
          var selected := o.record.selected;
          o.calls[n] == ArtifactCall(SourceOf(p.pool, selected.source), p.name, selected.version))
  }

  lemma {:induction false} StopIsFirst(p: CombinedIndex.Poll, i: nat)
    requires i <= |p.pool|
    ensures forall k: nat :: i <= k < p.StopFrom(i) ==> p.Reachable(k) && p.ReplyOf(k) != Unavailable
    decreases |p.pool| - i
  {
    if i < |p.pool| && !p.Stops(i) {
      StopIsFirst(p, i + 1);
    }
  }

  lemma AskedShows(p: CombinedIndex.Poll)
    ensures var n := p.AskedCount();
            && (forall i: nat :: i < n ==> p.Reachable(i) && (i < n - 1 ==> p.ReplyOf(i) != Unavailable))
            && (n < |p.pool| ==> !p.Reachable(n) || (n > 0 && p.ReplyOf(n - 1) == Unavailable))
  {
    StopIsFirst(p, 0);
  }

  lemma PoolShowsRequests(codec: PkgArchive.Codec, p: CombinedIndex.Poll, range: Semver.Range, decided: Resolution)
    requires decided.selected == NO_CANDIDATE
    ensures ShowsRequests(p, CombinedIndex.PooledOutcome(codec, p, range, decided))
  {
    AskedShows(p);
    PoolCalls(codec, p, range, decided);
  }

  lemma PoolCalls(codec: PkgArchive.Codec, p: CombinedIndex.Poll, range: Semver.Range, decided: Resolution)
    ensures var o, asked := CombinedIndex.PooledOutcome(codec, p, range, decided), p.Asked(p.AskedCount());
            && o.record.queried == SourceIds(p.pool[..p.AskedCount()])
            && (o.calls == asked ||
                o.calls == asked +
                           [ArtifactCall(SourceOf(p.pool, o.record.selected.source), p.name,
                                         o.record.selected.version)])
  {
    var sorted := Sorting.StableSort(CombinedIndex.OfferLess, p.Offers(range));
    if p.StopFrom(0) == |p.pool| && sorted != [] {
      var record := decided.(queried := SourceIds(p.pool[..p.AskedCount()]),
                             candidates := Map((o: CombinedIndex.Offer) => o.candidate, sorted));
      CombinedIndex.FetchingKeepsSelection(codec, p, sorted[0].candidate, record.(selected := sorted[0].candidate));
    }
  }

  /* The candidates are the offers in the order they compete, the first of them is selected, and what is shown of its
     bytes was compared with nothing. */
  ghost predicate ShowsSelection(codec: PkgArchive.Codec, p: CombinedIndex.Poll, range: Semver.Range, o: Resolved)
  {
    var r, reply := o.record, FetchReply(p, o.record.selected);
    var sorted := Sorting.StableSort(CombinedIndex.OfferLess, p.Offers(range));
    var fetched := AllAnswer(p) && sorted != [] && FetchDials(p, r.selected) && reply.Answer?;
    && r.candidates == (if AllAnswer(p) then Map((o: CombinedIndex.Offer) => o.candidate, sorted) else [])
    && r.selected == (if r.candidates == [] then NO_CANDIDATE else r.candidates[0])
    && (if fetched then r.size == |reply.value| && r.digest == codec.digest(reply.value) && r.integrity == Unverified
        else r.size == 0 && r.digest == "" && r.integrity == NoVerdict)
    && (r.pkg.Some? <==> o.failure == None)
    && (r.pkg.Some? ==> fetched && PkgArchive.ParseArchive(codec, reply.value) == Ok(r.pkg.value))
  }

  lemma PoolShowsSelection(codec: PkgArchive.Codec, p: CombinedIndex.Poll, range: Semver.Range, decided: Resolution)
    requires decided.candidates == [] && decided.selected == NO_CANDIDATE && decided.size == 0 && decided.digest == ""
    requires decided.integrity == NoVerdict && decided.pkg == None
    ensures ShowsSelection(codec, p, range, CombinedIndex.PooledOutcome(codec, p, range, decided))
  {
    StopsSomewhere(p, 0);
    var sorted := Sorting.StableSort(CombinedIndex.OfferLess, p.Offers(range));
    if AllAnswer(p) && sorted != [] {
      var record := decided.(queried := SourceIds(p.pool[..p.AskedCount()]),
                             candidates := Map((o: CombinedIndex.Offer) => o.candidate, sorted));
      FetchShows(codec, p, sorted[0].candidate, record.(selected := sorted[0].candidate));
    }
  }

  lemma FetchShows(codec: PkgArchive.Codec, p: CombinedIndex.Poll, selected: Candidate, record: Resolution)
    requires record.size == 0 && record.digest == "" && record.integrity == NoVerdict && record.pkg == None
    ensures var o := CombinedIndex.FetchedOutcome(codec, p, selected, record);
            var r, reply := o.record, FetchReply(p, selected);
            && r.candidates == record.candidates && r.selected == record.selected
            && (if FetchDials(p, selected) && reply.Answer? then
                  r.size == |reply.value| && r.digest == codec.digest(reply.value) && r.integrity == Unverified
                else r.size == 0 && r.digest == "" && r.integrity == NoVerdict)
            && (r.pkg.Some? <==> o.failure == None)
            && (r.pkg.Some? ==>
                  FetchDials(p, selected) && reply.Answer?
                  && PkgArchive.ParseArchive(codec, reply.value) == Ok(r.pkg.value))
  {
  }

  /* Once it polls, the record shows whom it asked, what they offered, and what it took. */
  lemma CombinedRecordShowsAnswers(x: CombinedIndex.Question)
    requires CombinedIndex.ReachesPool(x)
    ensures ShowsRequests(CombinedIndex.PollOf(x), CombinedIndex.Outcome(x))
    ensures ShowsSelection(x.codec, CombinedIndex.PollOf(x), Semver.ParseRange(x.dep.range).value,
                           CombinedIndex.Outcome(x))
  {
    CombinedIndex.PoolReached(x);
    var range := Semver.ParseRange(x.dep.range).value;
    PoolShowsRequests(x.codec, CombinedIndex.PollOf(x), range, CombinedIndex.DecidedRecord(x));
    PoolShowsSelection(x.codec, CombinedIndex.PollOf(x), range, CombinedIndex.DecidedRecord(x));
  }
}
