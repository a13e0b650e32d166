/**
 Why a resolution fails, class by class, in terms of the documents it works from and of what it was told: one
 equivalence for each failure class of the secure resolver and of the combined index.
 */
module FailureLaws {
  import opened Prelude
  import opened Network
  import opened SourcePolicy
  import opened Lockfile
  import opened Resolver
  import CombinedIndex
  import PkgArchive
  import Semver
  import Sorting

  // ----- how far a secure resolution can get -----

  /* The policy binds the name: it is valid, and the one mapping that matches is exclusive. */
  ghost predicate PolicyBinds(x: Inputs)
  {
    ValidPolicy(x.cfg.policy) && |Matching(x.cfg.policy, x.dep.name)| == 1 && x.Decision().mode == MODE_EXCLUSIVE
  }

  /* And the lock's one record of the alias is of that name from that source. */
  ghost predicate RecordAgrees(x: Inputs)
  {
    && PolicyBinds(x) && Binding(x.cfg.lock, x.dep.alias) == Ok(x.Locked())
    && x.Locked().name == x.dep.name && x.Locked().source == x.Bound().id
  }

  /* And its version is within the declared range. */
  ghost predicate LockAgrees(x: Inputs)
  {
    RecordAgrees(x) && x.InRange()
  }

  /* And the bound source can be reached and lists it. */
  ghost predicate Listed(x: Inputs)
  {
    LockAgrees(x) && x.world.dials(x.before, x.Bound()) && x.Lists(x.Locked().version)
  }

  /* And serves bytes of the size and digest the lock pins. */
  ghost predicate Pinned(x: Inputs)
  {
    && Listed(x) && x.ArtifactReply().Answer?
    && |x.ArtifactReply().value| == x.Locked().size
    && x.codec.digest(x.ArtifactReply().value) == x.Locked().sha256
  }

  // ----- the classes of the policy stage -----

  /* Which checks the classes of one stage come from. */
  lemma ChecksOfPolicyClasses(k: nat)
    requires k < CHECKS
    ensures FailureAt(k) == Failure(SourcePolicyInvalid, SourcePolicyStage) <==> k == 0
    ensures FailureAt(k) == Failure(SourcePolicyUnresolved, SourcePolicyStage) <==> k == 1
    ensures FailureAt(k) == Failure(SourcePolicyAmbiguous, SourcePolicyStage) <==> k == 2
    ensures FailureAt(k) == Failure(SourcePolicyNotExclusive, SourcePolicyStage) <==> k == 3
    ensures FailureAt(k).stage == SourcePolicyStage <==> k < 4
  {
  }

  lemma ChecksOfLockClasses(k: nat)
    requires k < CHECKS
    ensures FailureAt(k) == Failure(LockInvalid, LockStage) <==> k == 4 || k == 10
    ensures FailureAt(k) == Failure(LockMissing, LockStage) <==> k == 5
    ensures FailureAt(k) == Failure(LockDuplicate, LockStage) <==> k == 6
    ensures FailureAt(k) == Failure(LockNameMismatch, LockStage) <==> k == 7
    ensures FailureAt(k) == Failure(LockSourceMismatch, LockStage) <==> k == 8
    ensures FailureAt(k) == Failure(LockRangeConflict, LockStage) <==> k == 9 || k == 11
    ensures FailureAt(k).stage == LockStage <==> 4 <= k < 12
  {
  }

  lemma ChecksOfRegistryClasses(k: nat)
    requires k < CHECKS
    ensures FailureAt(k) == Failure(RegistryUnavailable, RegistryQueryStage) <==> k == 12 || k == 14
    ensures FailureAt(k) == Failure(ArtifactUnavailable, RegistryQueryStage) <==> k == 13 || k == 15
    ensures FailureAt(k) == Failure(ArtifactUnavailable, ArtifactFetchStage) <==> k == 16
    ensures FailureAt(k) == Failure(RegistryUnavailable, ArtifactFetchStage) <==> k == 17
    ensures FailureAt(k) == Failure(ArtifactSizeMismatch, IntegrityStage) <==> k == 18
    ensures FailureAt(k) == Failure(ArtifactDigestMismatch, IntegrityStage) <==> k == 19
    ensures FailureAt(k) == Failure(ArtifactMalformed, ArtifactParseStage) <==> k == 20
    ensures FailureAt(k) == Failure(ManifestMismatch, ArtifactParseStage) <==> k == 21
  {
  }

  /* Up to four checks in a row hold exactly when each does. */
  lemma HoldingIs(x: Inputs, lo: nat)
    ensures Holding(x, lo, lo)
    ensures Holding(x, lo, lo + 1) <==> x.Holds(lo)
    ensures Holding(x, lo, lo + 2) <==> x.Holds(lo) && x.Holds(lo + 1)
    ensures Holding(x, lo, lo + 3) <==> x.Holds(lo) && x.Holds(lo + 1) && x.Holds(lo + 2)
    ensures Holding(x, lo, lo + 4) <==> x.Holds(lo) && x.Holds(lo + 1) && x.Holds(lo + 2) && x.Holds(lo + 3)
  {
    HoldingByOne(x, lo);
  }

  lemma HoldingThrough(x: Inputs, mid: nat, hi: nat)
    requires mid <= hi
    ensures Holding(x, 0, hi) <==> Holding(x, 0, mid) && Holding(x, mid, hi)
  {
  }

  lemma PolicyStops(x: Inputs)
    ensures x.StopsAt(0) <==> !ValidPolicy(x.cfg.policy)
    ensures x.StopsAt(1) <==> ValidPolicy(x.cfg.policy) && |Matching(x.cfg.policy, x.dep.name)| == 0
    ensures x.StopsAt(2) <==> ValidPolicy(x.cfg.policy) && |Matching(x.cfg.policy, x.dep.name)| >= 2
    ensures x.StopsAt(3) <==>
            && ValidPolicy(x.cfg.policy) && |Matching(x.cfg.policy, x.dep.name)| == 1
            && x.Decision().mode != MODE_EXCLUSIVE
    ensures Holding(x, 0, 4) <==> PolicyBinds(x)
  {
    HoldingIs(x, 0);
  }

  /* No mapping matches the name, several do, or the one that does pools sources. */
  lemma PolicyFailuresExactly(x: Inputs)
    ensures FailureOf(x) == Some(Failure(SourcePolicyInvalid, SourcePolicyStage)) <==> !ValidPolicy(x.cfg.policy)
    ensures FailureOf(x) == Some(Failure(SourcePolicyUnresolved, SourcePolicyStage)) <==>
            ValidPolicy(x.cfg.policy) && forall m :: m in x.cfg.policy.mappings ==> !Matches(m.pattern, x.dep.name)
    ensures FailureOf(x) == Some(Failure(SourcePolicyAmbiguous, SourcePolicyStage)) <==>
            ValidPolicy(x.cfg.policy) && |Matching(x.cfg.policy, x.dep.name)| >= 2
    ensures FailureOf(x) == Some(Failure(SourcePolicyNotExclusive, SourcePolicyStage)) <==>
            && ValidPolicy(x.cfg.policy) && |Matching(x.cfg.policy, x.dep.name)| == 1
            && x.Decision().mode == MODE_COMBINED
  {
    PolicyStops(x);
    FilterNone((m: Mapping) => Matches(m.pattern, x.dep.name), x.cfg.policy.mappings);
    StopFromStops(x, 0);
    if StopFrom(x, 0) < CHECKS {
      ChecksOfPolicyClasses(StopFrom(x, 0));
    }
    StopIsFirstFailure(x, 0);
    StopIsFirstFailure(x, 1);
    StopIsFirstFailure(x, 2);
    StopIsFirstFailure(x, 3);
    if ValidPolicy(x.cfg.policy) && |Matching(x.cfg.policy, x.dep.name)| == 1 {
      DecisionShape(x.cfg.policy, x.dep.name, x.Decision());
    }
  }

  // ----- the classes of the lock stage -----

  lemma RecordStops(x: Inputs)
    ensures x.StopsAt(4) <==> PolicyBinds(x) && !ValidLock(x.cfg.lock)
    ensures x.StopsAt(5) <==> PolicyBinds(x) && Binding(x.cfg.lock, x.dep.alias) == Err(MissingRecord)
    ensures x.StopsAt(6) <==> PolicyBinds(x) && Binding(x.cfg.lock, x.dep.alias) == Err(DuplicateRecord)
    ensures x.StopsAt(7) <==>
            PolicyBinds(x) && Binding(x.cfg.lock, x.dep.alias) == Ok(x.Locked()) && x.Locked().name != x.dep.name
    ensures Holding(x, 0, 8) <==>
            PolicyBinds(x) && Binding(x.cfg.lock, x.dep.alias) == Ok(x.Locked()) && x.Locked().name == x.dep.name
  {
    PolicyStops(x);
    HoldingIs(x, 4);
    HoldingThrough(x, 4, 5);
    HoldingThrough(x, 4, 6);
    HoldingThrough(x, 4, 7);
    HoldingThrough(x, 4, 8);
  }

  lemma RangeStops(x: Inputs)
    ensures x.StopsAt(8) <==>
            && PolicyBinds(x) && Binding(x.cfg.lock, x.dep.alias) == Ok(x.Locked())
            && x.Locked().name == x.dep.name && x.Locked().source != x.Bound().id
    ensures x.StopsAt(9) <==> RecordAgrees(x) && Semver.ParseRange(x.dep.range) == None
    ensures !x.StopsAt(10)
    ensures x.StopsAt(11) <==> RecordAgrees(x) && Semver.ParseRange(x.dep.range).Some? && !x.InRange()
    ensures Holding(x, 0, 12) <==> LockAgrees(x)
  {
    RecordStops(x);
    HoldingIs(x, 8);
    HoldingThrough(x, 8, 9);
    HoldingThrough(x, 8, 10);
    HoldingThrough(x, 8, 11);
    HoldingThrough(x, 8, 12);
    if Binding(x.cfg.lock, x.dep.alias).Ok? {
      BindingIsDeclared(x.cfg.lock, x.dep.alias);
    }
  }

  /* The lock is malformed, has no record of the alias or several, or has one that is not of this name, not from the
     bound source or not within the declared range. */
  lemma LockFailuresExactly(x: Inputs)
    ensures FailureOf(x) == Some(Failure(LockInvalid, LockStage)) <==> PolicyBinds(x) && !ValidLock(x.cfg.lock)
    ensures FailureOf(x) == Some(Failure(LockMissing, LockStage)) <==>
            && PolicyBinds(x) && ValidLock(x.cfg.lock)
            && forall r :: r in x.cfg.lock.records ==> r.alias != x.dep.alias
    ensures FailureOf(x) == Some(Failure(LockDuplicate, LockStage)) <==>
            PolicyBinds(x) && ValidLock(x.cfg.lock) && |RecordsFor(x.cfg.lock, x.dep.alias)| >= 2
    ensures FailureOf(x) == Some(Failure(LockNameMismatch, LockStage)) <==>
            PolicyBinds(x) && Binding(x.cfg.lock, x.dep.alias) == Ok(x.Locked()) && x.Locked().name != x.dep.name
    ensures FailureOf(x) == Some(Failure(LockSourceMismatch, LockStage)) <==>
            && PolicyBinds(x) && Binding(x.cfg.lock, x.dep.alias) == Ok(x.Locked())
            && x.Locked().name == x.dep.name && x.Locked().source != x.Bound().id
    ensures FailureOf(x) == Some(Failure(LockRangeConflict, LockStage)) <==> RecordAgrees(x) && !x.InRange()
  {
    RecordStops(x);
    RangeStops(x);
    FilterNone((r: Record) => r.alias == x.dep.alias, x.cfg.lock.records);
    StopFromStops(x, 0);
    var k := StopFrom(x, 0);
    if k < CHECKS {
      ChecksOfLockClasses(k);
    }
    StopsOnce(x, k);
  }

  lemma StopsOnce(x: Inputs, k: nat)
    requires x.StopsAt(k)
    ensures forall j: nat :: x.StopsAt(j) <==> j == k
  {
    StopIsFirstFailure(x, k);
    forall j: nat ensures x.StopsAt(j) <==> j == k {
      StopIsFirstFailure(x, j);
    }
  }

  // ----- the classes of the registry stages -----

  lemma QueryStops(x: Inputs)
    ensures x.StopsAt(12) <==> LockAgrees(x) && !x.world.dials(x.before, x.Bound())
    ensures x.StopsAt(13) <==> LockAgrees(x) && x.world.dials(x.before, x.Bound()) && x.MetadataReply() == NotFound
    ensures x.StopsAt(14) <==> LockAgrees(x) && x.world.dials(x.before, x.Bound()) && x.MetadataReply() == Unavailable
    ensures x.StopsAt(15) <==>
            && LockAgrees(x) && x.world.dials(x.before, x.Bound())
            && x.MetadataReply().Answer? && !x.Lists(x.Locked().version)
    ensures Holding(x, 0, 16) <==> Listed(x)
  {
    RangeStops(x);
    HoldingIs(x, 12);
    HoldingThrough(x, 12, 13);
    HoldingThrough(x, 12, 14);
    HoldingThrough(x, 12, 15);
    HoldingThrough(x, 12, 16);
  }

  lemma FetchStops(x: Inputs)
    ensures x.StopsAt(16) <==> Listed(x) && x.ArtifactReply() == NotFound
    ensures x.StopsAt(17) <==> Listed(x) && x.ArtifactReply() == Unavailable
    ensures x.StopsAt(18) <==>
            Listed(x) && x.ArtifactReply().Answer? && |x.ArtifactReply().value| != x.Locked().size
    ensures x.StopsAt(19) <==>
            && Listed(x) && x.ArtifactReply().Answer? && |x.ArtifactReply().value| == x.Locked().size
            && x.codec.digest(x.ArtifactReply().value) != x.Locked().sha256
    ensures Holding(x, 0, 20) <==> Pinned(x)
  {
    QueryStops(x);
    HoldingIs(x, 16);
    HoldingThrough(x, 16, 17);
    HoldingThrough(x, 16, 18);
    HoldingThrough(x, 16, 19);
    HoldingThrough(x, 16, 20);
  }

  lemma ParseStops(x: Inputs)
    ensures x.StopsAt(20) <==> Pinned(x) && PkgArchive.ParseArchive(x.codec, x.ArtifactReply().value).Err?
    ensures x.StopsAt(21) <==>
            && Pinned(x) && PkgArchive.ParseArchive(x.codec, x.ArtifactReply().value).Ok?
            && var m := PkgArchive.ParseArchive(x.codec, x.ArtifactReply().value).value.manifest;
            m.name != x.dep.name || m.version != x.Locked().version
  {
    FetchStops(x);
    HoldingIs(x, 20);
    HoldingThrough(x, 20, 21);
  }

  /* The bound source is down, or does not list the locked version. */
  lemma QueryFailuresExactly(x: Inputs)
    ensures FailureOf(x) == Some(Failure(RegistryUnavailable, RegistryQueryStage)) <==>
            LockAgrees(x) && (!x.world.dials(x.before, x.Bound()) || x.MetadataReply() == Unavailable)
    ensures FailureOf(x) == Some(Failure(ArtifactUnavailable, RegistryQueryStage)) <==>
            && LockAgrees(x) && x.world.dials(x.before, x.Bound())
            && x.MetadataReply() != Unavailable && !x.Lists(x.Locked().version)
  {
    QueryStops(x);
    StopFromStops(x, 0);
    if StopFrom(x, 0) < CHECKS {
      ChecksOfRegistryClasses(StopFrom(x, 0));
    }
    StopsOnce(x, StopFrom(x, 0));
  }

  /* It does not serve the artifact, or bytes of another size or digest. */
  lemma FetchFailuresExactly(x: Inputs)
    ensures FailureOf(x) == Some(Failure(ArtifactUnavailable, ArtifactFetchStage)) <==>
            Listed(x) && x.ArtifactReply() == NotFound
    ensures FailureOf(x) == Some(Failure(RegistryUnavailable, ArtifactFetchStage)) <==>
            Listed(x) && x.ArtifactReply() == Unavailable
    ensures FailureOf(x) == Some(Failure(ArtifactSizeMismatch, IntegrityStage)) <==>
            Listed(x) && x.ArtifactReply().Answer? && |x.ArtifactReply().value| != x.Locked().size
    ensures FailureOf(x) == Some(Failure(ArtifactDigestMismatch, IntegrityStage)) <==>
            && Listed(x) && x.ArtifactReply().Answer? && |x.ArtifactReply().value| == x.Locked().size
            && x.codec.digest(x.ArtifactReply().value) != x.Locked().sha256
  {
    FetchStops(x);
    StopFromStops(x, 0);
    if StopFrom(x, 0) < CHECKS {
      ChecksOfRegistryClasses(StopFrom(x, 0));
    }
    StopsOnce(x, StopFrom(x, 0));
  }

  /* The integrity stage fails for no other reason. */
  lemma IntegrityIsCompared(x: Inputs)
    ensures FailureOf(x).Some? && FailureOf(x).value.stage == IntegrityStage ==>
              FailureOf(x).value.class_ in {ArtifactSizeMismatch, ArtifactDigestMismatch}
  {
    StopFromStops(x, 0);
  }

  /* The bytes are not a package, or one of another name or version. */
  lemma ParseFailuresExactly(x: Inputs)
    ensures FailureOf(x) == Some(Failure(ArtifactMalformed, ArtifactParseStage)) <==>
            Pinned(x) && PkgArchive.ParseArchive(x.codec, x.ArtifactReply().value).Err?
    ensures FailureOf(x) == Some(Failure(ManifestMismatch, ArtifactParseStage)) <==>
            && Pinned(x) && PkgArchive.ParseArchive(x.codec, x.ArtifactReply().value).Ok?
            && var m := PkgArchive.ParseArchive(x.codec, x.ArtifactReply().value).value.manifest;
            m.name != x.dep.name || m.version != x.Locked().version
  {
    ParseStops(x);
    StopFromStops(x, 0);
    if StopFrom(x, 0) < CHECKS {
      ChecksOfRegistryClasses(StopFrom(x, 0));
    }
    StopsOnce(x, StopFrom(x, 0));
  }

  // ----- the classes of the combined index -----

  /* The listing is of a version the range admits. */
  predicate Admits(range: Semver.Range, v: VersionInfo)
  {
    Semver.Parse(v.version).Some? && Semver.Satisfies(range, Semver.Parse(v.version).value)
  }

  /* Every source of the pool is reached and gives an answer or says that it lacks the name. */
  ghost predicate AllAnswer(p: CombinedIndex.Poll)
  {
    forall i: nat :: i < |p.pool| ==> p.Reachable(i) && p.ReplyOf(i) != Unavailable
  }

  /* Some source of the pool lists a version the range admits. */
  ghost predicate SomethingOffered(p: CombinedIndex.Poll, range: Semver.Range)
  {
    exists i: nat, v :: ListedBy(p, i, v) && Admits(range, v)
  }

  ghost predicate ListedBy(p: CombinedIndex.Poll, i: nat, v: VersionInfo)
  {
    i < |p.pool| && p.ReplyOf(i).Answer? && v in p.ReplyOf(i).value.versions
  }

  lemma OfferedIsListed(p: CombinedIndex.Poll, range: Semver.Range)
    ensures p.Offers(range) != [] <==> SomethingOffered(p, range)
    ensures Sorting.StableSort(CombinedIndex.OfferLess, p.Offers(range)) == [] <==> p.Offers(range) == []
  {
    CombinedIndex.OffersAreListed(p, range);
    if p.Offers(range) != [] {
      var o := p.Offers(range)[0];
      assert o in p.Offers(range);
      PlacedIsListed(p, range, o);
    }
    if i: nat, v :| ListedBy(p, i, v) && Admits(range, v) {
      var o := ListedIsPlaced(p, range, i, v);
    }
  }

  lemma PlacedIsListed(p: CombinedIndex.Poll, range: Semver.Range, o: CombinedIndex.Offer)
    requires CombinedIndex.Placed(p.pool, p.Replies(), range, o)
    ensures SomethingOffered(p, range)
  {
    var versions := p.ReplyOf(o.rank).value.versions;
    assert p.Replies()[o.rank] == p.ReplyOf(o.rank);
    var k :| 0 <= k < |versions| && CombinedIndex.Compatible(range, versions[k]);
    assert ListedBy(p, o.rank, versions[k]) && Admits(range, versions[k]);
  }

  lemma ListedIsPlaced(p: CombinedIndex.Poll, range: Semver.Range, i: nat, v: VersionInfo)
    returns (o: CombinedIndex.Offer)
    requires ListedBy(p, i, v) && Admits(range, v)
    ensures o in p.Offers(range)
  {
    var reply := p.ReplyOf(i);
    var k :| 0 <= k < |reply.value.versions| && reply.value.versions[k] == v;
    o := CombinedIndex.OfferOf(p.pool[i].id, i, reply.value.name, v);
    assert p.Replies()[i] == reply && CombinedIndex.Compatible(range, reply.value.versions[k]);
    assert CombinedIndex.Placed(p.pool, p.Replies(), range, o);
    CombinedIndex.OffersAreListed(p, range);
  }

  lemma {:induction false} StopsSomewhere(p: CombinedIndex.Poll, i: nat)
    requires i <= |p.pool|
    ensures p.StopFrom(i) == |p.pool| <==>
            forall k: nat :: i <= k < |p.pool| ==> p.Reachable(k) && p.ReplyOf(k) != Unavailable
    decreases |p.pool| - i
  {
    if i < |p.pool| {
      StopsSomewhere(p, i + 1);
    }
  }

  lemma ReachesExactly(x: CombinedIndex.Question)
    ensures CombinedIndex.ReachesPool(x) <==>
            ValidPolicy(x.policy) && |Matching(x.policy, x.dep.name)| == 1 && Semver.ParseRange(x.dep.range).Some?
  {
    CombinedIndex.PoolReached(x);
  }

  /* Polling a pool, and fetching from it, fails with none of the classes of the policy stage. */
  lemma PoolStages(codec: PkgArchive.Codec, p: CombinedIndex.Poll, range: Semver.Range, decided: Resolution)
    ensures var o := CombinedIndex.PooledOutcome(codec, p, range, decided);
            o.failure.Some? ==> o.failure.value.stage != SourcePolicyStage
  {
  }

  /* The combined index refuses an invalid policy and a range it cannot read with one class, and a name without a single
     mapping as the secure resolver does; how the mapping pools sources it does not ask. */
  lemma CombinedPolicyFailuresExactly(x: CombinedIndex.Question)
    ensures var f := CombinedIndex.Outcome(x).failure;
            && (f == Some(Failure(SourcePolicyInvalid, SourcePolicyStage)) <==>
                  || !ValidPolicy(x.policy)
                  || (|Matching(x.policy, x.dep.name)| == 1 && Semver.ParseRange(x.dep.range) == None))
            && (f == Some(Failure(SourcePolicyUnresolved, SourcePolicyStage)) <==>
                  ValidPolicy(x.policy) && forall m :: m in x.policy.mappings ==> !Matches(m.pattern, x.dep.name))
            && (f == Some(Failure(SourcePolicyAmbiguous, SourcePolicyStage)) <==>
                  ValidPolicy(x.policy) && |Matching(x.policy, x.dep.name)| >= 2)
  {
    ReachesExactly(x);
    FilterNone((m: Mapping) => Matches(m.pattern, x.dep.name), x.policy.mappings);
    if CombinedIndex.ReachesPool(x) {
      CombinedIndex.PoolReached(x);
      PoolStages(x.codec, CombinedIndex.PollOf(x), Semver.ParseRange(x.dep.range).value,
                 CombinedIndex.DecidedRecord(x));
    }
  }

  /* What the artifact request for the selected candidate was answered. */
  function FetchReply(p: CombinedIndex.Poll, selected: Candidate): Reply<Bytes>
  {
    p.world.artifact(p.before + p.Asked(|p.pool|), SourceOf(p.pool, selected.source), p.name, selected.version)
  }

  function FetchDials(p: CombinedIndex.Poll, selected: Candidate): bool
  {
    p.world.dials(p.before + p.Asked(|p.pool|), SourceOf(p.pool, selected.source))
  }

  /* Each class of an outcome is that of what happened to the poll and the fetch. */
  ghost predicate FailsByPool(codec: PkgArchive.Codec, p: CombinedIndex.Poll, range: Semver.Range, o: Resolved)
  {
    var selecting := AllAnswer(p) && SomethingOffered(p, range);
    var dials, reply := FetchDials(p, o.record.selected), FetchReply(p, o.record.selected);
    && (o.failure == Some(Failure(RegistryUnavailable, RegistryQueryStage)) <==> !AllAnswer(p))
    && (o.failure == Some(Failure(NoCompatibleCandidate, RegistryQueryStage)) <==>
          AllAnswer(p) && !SomethingOffered(p, range))
    && (o.failure == Some(Failure(RegistryUnavailable, ArtifactFetchStage)) <==>
          selecting && (!dials || reply == Unavailable))
    && (o.failure == Some(Failure(ArtifactUnavailable, ArtifactFetchStage)) <==>
          selecting && dials && reply == NotFound)
    && (o.failure == Some(Failure(ArtifactMalformed, ArtifactParseStage)) <==>
          selecting && dials && reply.Answer? && PkgArchive.ParseArchive(codec, reply.value).Err?)
    && (o.failure == None <==>
          selecting && dials && reply.Answer? && PkgArchive.ParseArchive(codec, reply.value).Ok?)
  }

  lemma PoolFailuresExactly(codec: PkgArchive.Codec, p: CombinedIndex.Poll, range: Semver.Range, decided: Resolution)
    ensures FailsByPool(codec, p, range, CombinedIndex.PooledOutcome(codec, p, range, decided))
  {
    StopsSomewhere(p, 0);
    OfferedIsListed(p, range);
    var sorted := Sorting.StableSort(CombinedIndex.OfferLess, p.Offers(range));
    if AllAnswer(p) && sorted != [] {
      var record := decided.(queried := SourceIds(p.pool[..p.AskedCount()]),
                             candidates := Map((o: CombinedIndex.Offer) => o.candidate, sorted));
      CombinedIndex.FetchingKeepsSelection(codec, p, sorted[0].candidate, record.(selected := sorted[0].candidate));
    }
  }

  /* A pooled source is down, none offers a version in range, or the selected one does not serve a package: the lock is
     not among the reasons. */
  lemma CombinedPoolFailuresExactly(x: CombinedIndex.Question)
    requires CombinedIndex.ReachesPool(x)
    ensures FailsByPool(x.codec, CombinedIndex.PollOf(x), Semver.ParseRange(x.dep.range).value,
                        CombinedIndex.Outcome(x))
  {
    CombinedIndex.PoolReached(x);
    PoolFailuresExactly(x.codec, CombinedIndex.PollOf(x), Semver.ParseRange(x.dep.range).value,
                        CombinedIndex.DecidedRecord(x));
  }
}
