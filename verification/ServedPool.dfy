/**
 The combined-index resolver against the checked-in registries: of all that the sets of a pool hold of a name it takes
 the greatest version in range, from the first source of the pool that holds it, whatever the lock says.
 */
module ServedPool {
  import opened Prelude
  import opened Network
  import opened Fixtures
  import opened Registry
  import opened Consistency
  import opened CombinedIndex
  import opened ServedWorld
  import opened Resolver
  import opened ReleaseGate
  import ConsistencyLaws
  import SourcePolicy
  import BuildManifest
  import PkgArchive
  import Semver
  import Sorting

  // ----- what the sets of a pool hold of a name -----

  /* Every source of the pool is served by a registry that is up. */
  ghost predicate Up(rs: Registries, pool: seq<SourcePolicy.Source>)
  {
    forall i: nat :: i < |pool| ==> pool[i].url in rs.sets
  }

  /* What each set says of the name fits the client's limit. */
  ghost predicate AllFit(rs: Registries, pool: seq<SourcePolicy.Source>, name: string)
    requires Up(rs, pool)
  {
    forall i: nat :: i < |pool| ==> MetadataOf(rs, rs.sets[pool[i].url], name) != Unavailable
  }

  /* The set behind source i of the pool holds this version of the name, and the range admits it. */
  ghost predicate Held(rs: Registries, pool: seq<SourcePolicy.Source>, name: string, range: Semver.Range, i: nat,
                       version: string)
  {
    && i < |pool| && pool[i].url in rs.sets
    && Semver.Parse(version).Some? && Semver.Satisfies(range, Semver.Parse(version).value)
    && FindArtifact(rs.sets[pool[i].url].packages, name, version).Some?
  }

  function HeldBytes(rs: Registries, pool: seq<SourcePolicy.Source>, name: string, i: nat, version: string): Bytes
    requires i < |pool| && pool[i].url in rs.sets
    requires FindArtifact(rs.sets[pool[i].url].packages, name, version).Some?
  {
    FindArtifact(rs.sets[pool[i].url].packages, name, version).value.bytes
  }

  /* No set of the pool holds a greater version, and no earlier source holds this one. */
  ghost predicate Leads(rs: Registries, pool: seq<SourcePolicy.Source>, name: string, range: Semver.Range, i: nat,
                        version: string)
  {
    && Held(rs, pool, name, range, i, version)
    && forall j: nat, w: string :: Held(rs, pool, name, range, j, w) ==> NotAhead(i, version, j, w)
  }

  /* Version w at rank j does not come before the version at rank i. */
  predicate NotAhead(i: nat, version: string, j: nat, w: string)
  {
    var order := Semver.Compare(Semver.VersionOf(version), Semver.VersionOf(w));
    order > 0 || (order == 0 && i <= j)
  }

  lemma OneLeads(rs: Registries, pool: seq<SourcePolicy.Source>, name: string, range: Semver.Range, i: nat, v: string,
                 j: nat, w: string)
    requires Leads(rs, pool, name, range, i, v) && Leads(rs, pool, name, range, j, w)
    ensures i == j && v == w
  {
    assert NotAhead(i, v, j, w) && NotAhead(j, w, i, v);
    Semver.CompareIsTotalOrder(Semver.VersionOf(v), Semver.VersionOf(w), Semver.VersionOf(v));
    Semver.SpellingIsIdentity(v, w);
  }

  // ----- polling these registries -----

  /* Every source of the pool is reached and replies from its set. */
  ghost predicate PollServed(rs: Registries, p: Poll)
  {
    && Up(rs, p.pool)
    && forall i: nat :: i < |p.pool| ==>
         p.Reachable(i) && p.ReplyOf(i) == MetadataOf(rs, rs.sets[p.pool[i].url], p.name)
  }

  lemma PollIsServed(rs: Registries, run: string, p: Poll)
    requires AnswersFrom(p.world, rs, run) && Up(rs, p.pool) && p.name != ""
    ensures PollServed(rs, p)
  {
    forall i: nat | i < |p.pool|
      ensures p.Reachable(i) && p.ReplyOf(i) == MetadataOf(rs, rs.sets[p.pool[i].url], p.name)
    {
      MetadataServed(rs, p.pool[i], p.name, run);
    }
  }

  lemma {:induction false} StopsAtMisfit(rs: Registries, p: Poll, i: nat)
    requires PollServed(rs, p) && i <= |p.pool|
    ensures p.StopFrom(i) == |p.pool| <==>
            forall k: nat :: i <= k < |p.pool| ==> MetadataOf(rs, rs.sets[p.pool[k].url], p.name) != Unavailable
    decreases |p.pool| - i
  {
    if i < |p.pool| {
      StopsAtMisfit(rs, p, i + 1);
    }
  }

  /* What one reply offers is what its set holds. */
  lemma ListedIsHeld(rs: Registries, set_: FixtureSet, name: string, version: string)
    requires MetadataOf(rs, set_, name) != Unavailable
    ensures var reply := MetadataOf(rs, set_, name);
            FindArtifact(set_.packages, name, version).Some? <==>
            reply.Answer? &&
            exists k :: 0 <= k < |reply.value.versions| && reply.value.versions[k].version == version
  {
    if FindPackage(set_.packages, name).Some? {
      ListedIsFound(rs.crypto, set_, FindPackage(set_.packages, name).value, version);
    }
  }

  lemma OfferedIsHeld(rs: Registries, p: Poll, range: Semver.Range, o: Offer)
    requires PollServed(rs, p) && AllFit(rs, p.pool, p.name) && o in p.Offers(range)
    ensures Held(rs, p.pool, p.name, range, o.rank, o.candidate.version)
    ensures o.candidate.source == p.pool[o.rank].id && o.version == Semver.VersionOf(o.candidate.version)
  {
    OffersAreListed(p, range);
    OfferVersion(p, range, o);
    var versions := p.Replies()[o.rank].value.versions;
    var k :| 0 <= k < |versions| && Compatible(range, versions[k])
        && o.candidate == Offered(p.pool[o.rank].id, p.Replies()[o.rank].value.name, versions[k]);
    ListedIsHeld(rs, rs.sets[p.pool[o.rank].url], p.name, o.candidate.version);
  }

  lemma HeldIsOffered(rs: Registries, p: Poll, range: Semver.Range, i: nat, version: string) returns (o: Offer)
    requires PollServed(rs, p) && AllFit(rs, p.pool, p.name) && Held(rs, p.pool, p.name, range, i, version)
    ensures o in p.Offers(range) && o.rank == i && o.candidate.version == version
    ensures o.version == Semver.VersionOf(version)
  {
    ListedIsHeld(rs, rs.sets[p.pool[i].url], p.name, version);
    var reply := p.Replies()[i];
    var k :| 0 <= k < |reply.value.versions| && reply.value.versions[k].version == version;
    o := OfferOf(p.pool[i].id, i, reply.value.name, reply.value.versions[k]);
    assert Compatible(range, reply.value.versions[k]);
    assert Placed(p.pool, p.Replies(), range, o);
    OffersAreListed(p, range);
  }

  /* The selected offer is the one that leads. */
  lemma BestLeads(rs: Registries, p: Poll, range: Semver.Range)
    requires PollServed(rs, p) && AllFit(rs, p.pool, p.name) && p.Offers(range) != []
    ensures Sorting.StableSort(OfferLess, p.Offers(range)) != []
    ensures Leads(rs, p.pool, p.name, range, Best(p, range).rank, Best(p, range).candidate.version)
  {
    var i := BestIsFirstMaximum(p, range);
    OffersAreListed(p, range);
    var best := Best(p, range);
    assert best in p.Offers(range);
    OfferedIsHeld(rs, p, range, best);
    forall j: nat, w: string | Held(rs, p.pool, p.name, range, j, w)
      ensures NotAhead(best.rank, best.candidate.version, j, w)
    {
      var o := HeldIsOffered(rs, p, range, j, w);
      NoneAhead(p.Offers(range), i, o);
    }
  }

  lemma NoneAhead(xs: seq<Offer>, i: nat, o: Offer)
    requires FirstMaximum(xs, i) && RanksAscend(xs) && o in xs
    requires xs[i].version == Semver.VersionOf(xs[i].candidate.version)
    requires o.version == Semver.VersionOf(o.candidate.version)
    ensures NotAhead(xs[i].rank, xs[i].candidate.version, o.rank, o.candidate.version)
  {
    var k :| 0 <= k < |xs| && xs[k] == o;
    Semver.CompareIsTotalOrder(xs[i].version, o.version, xs[i].version);
  }

  // ----- one combined resolution -----

  /* How bytes fare that are compared with no lock. */
  function UncheckedFailure(c: PkgArchive.Codec, bytes: Bytes): Option<Failure>
  {
    if |bytes| > MAX_ARTIFACT_BYTES then Some(Failure(RegistryUnavailable, ArtifactFetchStage))
    else if PkgArchive.ParseArchive(c, bytes).Err? then Some(Failure(ArtifactMalformed, ArtifactParseStage))
    else None
  }

  /* The resolution selects this version of this source and takes these bytes, unverified. */
  ghost predicate Takes(c: PkgArchive.Codec, o: Resolved, source: SourcePolicy.Source, version: string, bytes: Bytes)
  {
    && o.record.selected.source == source.id && o.record.selected.version == version
    && o.failure == UncheckedFailure(c, bytes)
    && (o.failure == None ==>
          && o.record.pkg == Some(PkgArchive.ParseArchive(c, bytes).value)
          && o.record.size == |bytes| && o.record.digest == c.digest(bytes) && o.record.integrity == Unverified)
  }

  lemma FetchTakes(c: PkgArchive.Codec, rs: Registries, run: string, p: Poll, i: nat, selected: Candidate,
                   record: Resolution)
    requires AnswersFrom(p.world, rs, run) && p.name != "" && selected.version != "" && record.selected == selected
    requires i < |p.pool| && p.pool[i].url in rs.sets && SourcePolicy.SourceOf(p.pool, selected.source) == p.pool[i]
    requires p.pool[i].id == selected.source
    requires FindArtifact(rs.sets[p.pool[i].url].packages, p.name, selected.version).Some?
    ensures Takes(c, FetchedOutcome(c, p, selected, record), p.pool[i], selected.version,
                  HeldBytes(rs, p.pool, p.name, i, selected.version))
  {
    ArtifactServed(rs, p.pool[i], p.name, selected.version, run);
  }

  lemma HeldVersionIsNamed(version: string)
    requires Semver.Parse(version).Some?
    ensures version != ""
  {
  }

  /* A pool whose sets all fit is polled through, and what leads is taken. */
  lemma PoolTakes(c: PkgArchive.Codec, rs: Registries, run: string, p: Poll, range: Semver.Range, decided: Resolution)
    requires AnswersFrom(p.world, rs, run) && PollServed(rs, p) && AllFit(rs, p.pool, p.name) && p.name != ""
    requires DistinctBy((s: SourcePolicy.Source) => s.id, p.pool) && p.Offers(range) != []
    ensures Sorting.StableSort(OfferLess, p.Offers(range)) != []
    ensures var best := Best(p, range);
            && Leads(rs, p.pool, p.name, range, best.rank, best.candidate.version)
            && Takes(c, PooledOutcome(c, p, range, decided), p.pool[best.rank], best.candidate.version,
                     HeldBytes(rs, p.pool, p.name, best.rank, best.candidate.version))
  {
    StopsAtMisfit(rs, p, 0);
    BestLeads(rs, p, range);
    SelectedSourceIsAsked(p, range);
    var best := Best(p, range);
    BestIsOwn(rs, p, range);
    HeldVersionIsNamed(best.candidate.version);
    var sorted := Sorting.StableSort(OfferLess, p.Offers(range));
    var polled := decided.(queried := SourceIds(p.pool[..p.AskedCount()]),
                           candidates := Map((o: Offer) => o.candidate, sorted));
    FetchTakes(c, rs, run, p, best.rank, best.candidate, polled.(selected := best.candidate));
  }

  lemma BestIsOwn(rs: Registries, p: Poll, range: Semver.Range)
    requires PollServed(rs, p) && AllFit(rs, p.pool, p.name)
    requires Sorting.StableSort(OfferLess, p.Offers(range)) != []
    ensures Best(p, range).rank < |p.pool|
    ensures Best(p, range).candidate.source == p.pool[Best(p, range).rank].id
  {
    OffersAreListed(p, range);
    var i := BestIsFirstMaximum(p, range);
    OfferedIsHeld(rs, p, range, Best(p, range));
  }

  /* How a combined resolution must fail, if it must, by the sets of its pool. */
  ghost function PoolFailure(c: PkgArchive.Codec, rs: Registries, pool: seq<SourcePolicy.Source>, name: string,
                             range: Semver.Range): Option<Failure>
    requires Up(rs, pool)
  {
    if !AllFit(rs, pool, name) then Some(Failure(RegistryUnavailable, RegistryQueryStage))
    else if exists i: nat, version: string :: Leads(rs, pool, name, range, i, version) then
      var i: nat, version: string :| Leads(rs, pool, name, range, i, version);
      UncheckedFailure(c, HeldBytes(rs, pool, name, i, version))
    else Some(NO_OFFER)
  }

  lemma LeaderFailure(c: PkgArchive.Codec, rs: Registries, pool: seq<SourcePolicy.Source>, name: string,
                      range: Semver.Range, i: nat, version: string)
    requires Up(rs, pool) && AllFit(rs, pool, name) && Leads(rs, pool, name, range, i, version)
    ensures PoolFailure(c, rs, pool, name, range) == UncheckedFailure(c, HeldBytes(rs, pool, name, i, version))
  {
    var j: nat, w: string :| Leads(rs, pool, name, range, j, w)
        && PoolFailure(c, rs, pool, name, range) == UncheckedFailure(c, HeldBytes(rs, pool, name, j, w));
    OneLeads(rs, pool, name, range, i, version, j, w);
  }

  lemma PoolFails(c: PkgArchive.Codec, rs: Registries, run: string, p: Poll, range: Semver.Range, decided: Resolution)
    requires AnswersFrom(p.world, rs, run) && PollServed(rs, p) && p.name != ""
    requires DistinctBy((s: SourcePolicy.Source) => s.id, p.pool)
    ensures PooledOutcome(c, p, range, decided).failure == PoolFailure(c, rs, p.pool, p.name, range)
  {
    StopsAtMisfit(rs, p, 0);
    if AllFit(rs, p.pool, p.name) {
      if p.Offers(range) == [] {
        NothingHeld(rs, p, range);
        NobodyFailure(c, rs, p.pool, p.name, range);
        NothingOffered(c, p, range, decided);
      } else {
        PoolTakes(c, rs, run, p, range, decided);
        LeaderFailure(c, rs, p.pool, p.name, range, Best(p, range).rank, Best(p, range).candidate.version);
      }
    }
  }

  lemma NobodyFailure(c: PkgArchive.Codec, rs: Registries, pool: seq<SourcePolicy.Source>, name: string,
                      range: Semver.Range)
    requires Up(rs, pool) && AllFit(rs, pool, name)
    requires forall i: nat, version: string :: !Held(rs, pool, name, range, i, version)
    ensures PoolFailure(c, rs, pool, name, range) == Some(NO_OFFER)
  {
  }

  lemma NothingOffered(c: PkgArchive.Codec, p: Poll, range: Semver.Range, decided: Resolution)
    requires p.StopFrom(0) == |p.pool| && Sorting.StableSort(OfferLess, p.Offers(range)) == []
    ensures PooledOutcome(c, p, range, decided).failure == Some(NO_OFFER)
  {
  }

  lemma NothingHeld(rs: Registries, p: Poll, range: Semver.Range)
    requires PollServed(rs, p) && AllFit(rs, p.pool, p.name) && p.Offers(range) == []
    ensures forall i: nat, version: string :: !Held(rs, p.pool, p.name, range, i, version)
    ensures Sorting.StableSort(OfferLess, p.Offers(range)) == []
  {
    OffersAreListed(p, range);
    forall i: nat, version: string ensures !Held(rs, p.pool, p.name, range, i, version) {
      if Held(rs, p.pool, p.name, range, i, version) {
        var o := HeldIsOffered(rs, p, range, i, version);
        assert false;
      }
    }
  }

  // ----- a dependency of a checked-in scenario -----

  /* One dependency of one scenario of a consistent store, resolved by the combined index in some world. */
  ghost predicate ScenarioQuestion(c: PkgArchive.Codec, s: Store, scenario: Scenario, x: Question)
  {
    && Consistent(c, s) && scenario in s.scenarios && x.codec == c
    && x.policy == s.policies[scenario.sourcePolicy] && x.dep in s.manifests[scenario.manifest].dependencies
  }

  /* The registry id loads, and what is up at the source's url is the set it loads. */
  ghost predicate Serves(c: PkgArchive.Codec, s: Store, rs: Registries, source: SourcePolicy.Source, id: string)
  {
    RegistryLoads(c, s, id) && source.url in rs.sets && SortedSet(UnsortedSet(c, s, id), rs.sets[source.url])
  }

  lemma QuestionAgrees(c: PkgArchive.Codec, s: Store, scenario: Scenario, x: Question)
    requires ScenarioQuestion(c, s, scenario, x)
    ensures scenario.lock in s.locks && BuildManifest.ValidDependency(x.dep)
    ensures DependencyAgrees(c, s, x.policy, s.locks[scenario.lock], x.dep)
    ensures forall source :: source in x.policy.sources ==> SourceServed(c, s, scenario, source)
  {
    assert ScenarioAgrees(c, s, scenario);
  }

  lemma QuestionReaches(c: PkgArchive.Codec, s: Store, scenario: Scenario, x: Question)
    requires scenario.lock in s.locks && BuildManifest.ValidDependency(x.dep)
    requires DependencyAgrees(c, s, x.policy, s.locks[scenario.lock], x.dep)
    ensures ReachesPool(x) && x.dep.name != ""
    ensures DistinctBy((s: SourcePolicy.Source) => s.id, DecisionOf(x).pool)
    ensures forall s :: s in DecisionOf(x).pool ==> s in x.policy.sources
  {
    PoolReached(x);
  }

  lemma SourceIsServed(c: PkgArchive.Codec, s: Store, scenario: Scenario, rs: Registries, source: SourcePolicy.Source)
    requires SourceServed(c, s, scenario, source) && Publishes(c, s, scenario, rs)
    ensures IsServed(c, s, rs, source)
  {
    var id :| ServedBy(c, s, scenario, source, id);
    assert Serves(c, s, rs, source, id);
  }

  ghost predicate IsServed(c: PkgArchive.Codec, s: Store, rs: Registries, source: SourcePolicy.Source)
  {
    exists id :: Serves(c, s, rs, source, id)
  }

  /* Every source of the pool is served, whatever else is down. */
  ghost predicate AllServed(c: PkgArchive.Codec, s: Store, rs: Registries, pool: seq<SourcePolicy.Source>)
  {
    forall i: nat :: i < |pool| ==> IsServed(c, s, rs, pool[i])
  }

  lemma QuestionIsPooled(c: PkgArchive.Codec, s: Store, scenario: Scenario, rs: Registries, x: Question)
    requires ScenarioQuestion(c, s, scenario, x) && Publishes(c, s, scenario, rs)
    ensures ReachesPool(x) && x.dep.name != "" && Up(rs, DecisionOf(x).pool) && AllServed(c, s, rs, DecisionOf(x).pool)
    ensures DistinctBy((s: SourcePolicy.Source) => s.id, DecisionOf(x).pool)
  {
    QuestionAgrees(c, s, scenario, x);
    QuestionReaches(c, s, scenario, x);
    PoolIsServed(c, s, scenario, rs, x.policy.sources, DecisionOf(x).pool);
    AllServedUp(c, s, rs, DecisionOf(x).pool);
  }

  lemma PoolIsServed(c: PkgArchive.Codec, s: Store, scenario: Scenario, rs: Registries,
                   sources: seq<SourcePolicy.Source>, pool: seq<SourcePolicy.Source>)
    requires Publishes(c, s, scenario, rs) && forall source :: source in pool ==> source in sources
    requires forall source :: source in sources ==> SourceServed(c, s, scenario, source)
    ensures AllServed(c, s, rs, pool)
  {
    forall i: nat | i < |pool| ensures IsServed(c, s, rs, pool[i]) {
      assert pool[i] in pool;
      SourceIsServed(c, s, scenario, rs, pool[i]);
    }
  }

  lemma AllServedUp(c: PkgArchive.Codec, s: Store, rs: Registries, pool: seq<SourcePolicy.Source>)
    requires AllServed(c, s, rs, pool)
    ensures Up(rs, pool)
  {
    forall i: nat | i < |pool| ensures pool[i].url in rs.sets {
      assert IsServed(c, s, rs, pool[i]);
      var id :| Serves(c, s, rs, pool[i], id);
    }
  }

  function RangeOf(x: Question): Semver.Range
    requires Semver.ParseRange(x.dep.range).Some?
  {
    Semver.ParseRange(x.dep.range).value
  }

  /* Against the checked-in registries a combined resolution of a consistent scenario's dependency fails exactly as the
     sets of its pool determine. */
  lemma ServedPoolOutcome(c: PkgArchive.Codec, s: Store, scenario: Scenario, rs: Registries, run: string, x: Question)
    requires ScenarioQuestion(c, s, scenario, x) && Publishes(c, s, scenario, rs) && AnswersFrom(x.world, rs, run)
    ensures ReachesPool(x) && Up(rs, DecisionOf(x).pool)
    ensures CombinedIndex.Outcome(x).failure == PoolFailure(c, rs, DecisionOf(x).pool, x.dep.name, RangeOf(x))
  {
    QuestionIsPooled(c, s, scenario, rs, x);
    PollIsServed(rs, run, PollOf(x));
    PoolReached(x);
    PoolFails(c, rs, run, PollOf(x), RangeOf(x), DecidedRecord(x));
  }

  /* And where it selects anything it takes the greatest version in range that any set of its pool holds, from the first
     source that holds it: that source's own build of the name, unverified. */
  lemma ServedSelection(c: PkgArchive.Codec, s: Store, scenario: Scenario, rs: Registries, run: string, x: Question,
                        i: nat, version: string)
    returns (dir: string)
    requires ScenarioQuestion(c, s, scenario, x) && Publishes(c, s, scenario, rs) && AnswersFrom(x.world, rs, run)
    requires Up(rs, DecisionOf(x).pool) && AllFit(rs, DecisionOf(x).pool, x.dep.name) && ReachesPool(x)
    requires Leads(rs, DecisionOf(x).pool, x.dep.name, RangeOf(x), i, version)
    ensures var pool, bytes := DecisionOf(x).pool, HeldBytes(rs, DecisionOf(x).pool, x.dep.name, i, version);
            && Takes(c, CombinedIndex.Outcome(x), pool[i], version, bytes)
            && PackageBytes(c, s, dir) == Some(bytes)
            && s.packages[dir].manifest.name == x.dep.name && s.packages[dir].manifest.version == version
  {
    QuestionIsPooled(c, s, scenario, rs, x);
    PollIsServed(rs, run, PollOf(x));
    PoolReached(x);
    SelectionTakes(c, rs, run, PollOf(x), RangeOf(x), DecidedRecord(x), i, version);
    assert IsServed(c, s, rs, DecisionOf(x).pool[i]);
    var id :| Serves(c, s, rs, DecisionOf(x).pool[i], id);
    dir := ServedIsBuilt(c, s, id, rs.sets[DecisionOf(x).pool[i].url], x.dep.name, version);
  }

  lemma SelectionTakes(c: PkgArchive.Codec, rs: Registries, run: string, p: Poll, range: Semver.Range,
                       decided: Resolution, i: nat, version: string)
    requires AnswersFrom(p.world, rs, run) && PollServed(rs, p) && AllFit(rs, p.pool, p.name) && p.name != ""
    requires DistinctBy((s: SourcePolicy.Source) => s.id, p.pool) && Leads(rs, p.pool, p.name, range, i, version)
    ensures Takes(c, PooledOutcome(c, p, range, decided), p.pool[i], version,
                  HeldBytes(rs, p.pool, p.name, i, version))
  {
    var o := HeldIsOffered(rs, p, range, i, version);
    PoolTakes(c, rs, run, p, range, decided);
    OneLeads(rs, p.pool, p.name, range, i, version, Best(p, range).rank, Best(p, range).candidate.version);
  }

  /* However a policy lists its pools, such a resolution selects the same version, if any. */
  lemma ServedPoolOrder(c: PkgArchive.Codec, s: Store, scenario: Scenario, rs: Registries, run: string, x: Question,
                        y: Question)
    requires ScenarioQuestion(c, s, scenario, x) && Publishes(c, s, scenario, rs) && AnswersFrom(x.world, rs, run)
    requires ReorderedQuestion(x, y)
    ensures var a, b := CombinedIndex.Outcome(x), CombinedIndex.Outcome(y);
            && a.record.selected.version == b.record.selected.version
            && (a.failure == Some(NO_OFFER) <==> b.failure == Some(NO_OFFER))
  {
    QuestionIsPooled(c, s, scenario, rs, x);
    CombinedIndex.ReorderedDecision(x, y);
    PermutedUp(rs, PollOf(x).pool, PollOf(y).pool);
    PollIsServed(rs, run, PollOf(x));
    PollIsServed(rs, run, PollOf(y));
    PermutedFit(rs, PollOf(x).pool, PollOf(y).pool, x.dep.name);
    PoolReached(x);
    PoolReached(y);
    if AllFit(rs, PollOf(x).pool, x.dep.name) {
      ServedAlike(rs, PollOf(x), PollOf(y));
      PoolListingIsNotTrust(x, y);
    } else {
      MisfitSelectsNothing(c, rs, PollOf(x), RangeOf(x), DecidedRecord(x));
      MisfitSelectsNothing(c, rs, PollOf(y), RangeOf(y), DecidedRecord(y));
    }
  }

  lemma MisfitSelectsNothing(c: PkgArchive.Codec, rs: Registries, p: Poll, range: Semver.Range, decided: Resolution)
    requires PollServed(rs, p) && !AllFit(rs, p.pool, p.name)
    ensures var o := PooledOutcome(c, p, range, decided);
            o.record.selected == decided.selected && o.failure == Some(Failure(RegistryUnavailable, RegistryQueryStage))
  {
    StopsAtMisfit(rs, p, 0);
  }

  lemma PermutedFit(rs: Registries, pool: seq<SourcePolicy.Source>, other: seq<SourcePolicy.Source>, name: string)
    requires Up(rs, pool) && Up(rs, other) && multiset(other) == multiset(pool)
    ensures AllFit(rs, pool, name) <==> AllFit(rs, other, name)
  {
    SubsetFits(rs, pool, other, name);
    SubsetFits(rs, other, pool, name);
  }

  lemma SubsetFits(rs: Registries, pool: seq<SourcePolicy.Source>, other: seq<SourcePolicy.Source>, name: string)
    requires Up(rs, pool) && Up(rs, other) && multiset(other) == multiset(pool)
    ensures AllFit(rs, pool, name) ==> AllFit(rs, other, name)
  {
    PermutedMembers(other, pool);
    if AllFit(rs, pool, name) {
      forall i: nat | i < |other| ensures MetadataOf(rs, rs.sets[other[i].url], name) != Unavailable {
        assert other[i] in pool;
        var k :| 0 <= k < |pool| && pool[k] == other[i];
      }
    }
  }

  lemma PermutedUp(rs: Registries, pool: seq<SourcePolicy.Source>, other: seq<SourcePolicy.Source>)
    requires Up(rs, pool) && multiset(other) == multiset(pool)
    ensures Up(rs, other)
  {
    PermutedMembers(other, pool);
    forall i: nat | i < |other| ensures other[i].url in rs.sets {
      assert other[i] in pool;
    }
  }

  lemma ServedAlike(rs: Registries, p: Poll, q: Poll)
    requires PollServed(rs, p) && PollServed(rs, q) && p.name == q.name && AllFit(rs, p.pool, p.name)
    ensures RepliesAlike(p, q) && AllReply(p)
  {
  }

  /* An exact range leaves only the order of the pool: the first source that holds the version supplies it, whoever
     that is. */
  lemma PinnedVersionTakesFirst(rs: Registries, pool: seq<SourcePolicy.Source>, name: string, range: Semver.Range,
                                i: nat, version: string)
    requires range.kind == Semver.Exact
    ensures Leads(rs, pool, name, range, i, version) <==>
            && Held(rs, pool, name, range, i, version)
            && forall j: nat :: j < i ==> !Held(rs, pool, name, range, j, version)
  {
    if Held(rs, pool, name, range, i, version) {
      forall j: nat, w: string | Held(rs, pool, name, range, j, w)
        ensures Semver.Compare(Semver.VersionOf(version), Semver.VersionOf(w)) == 0 && w == version
      {
        OneVersion(range, version, w);
      }
    }
  }

  lemma OneVersion(range: Semver.Range, v: string, w: string)
    requires range.kind == Semver.Exact && Semver.Parse(v).Some? && Semver.Parse(w).Some?
    requires Semver.Satisfies(range, Semver.Parse(v).value) && Semver.Satisfies(range, Semver.Parse(w).value)
    ensures Semver.Compare(Semver.VersionOf(v), Semver.VersionOf(w)) == 0 && w == v
  {
    Semver.CompareIsTotalOrder(Semver.VersionOf(v), range.base, Semver.VersionOf(w));
    Semver.CompareIsTotalOrder(Semver.VersionOf(w), range.base, Semver.VersionOf(v));
    Semver.CompareIsTotalOrder(Semver.VersionOf(v), Semver.VersionOf(w), Semver.VersionOf(v));
    Semver.SpellingIsIdentity(v, w);
  }

  // ----- the two resolvers side by side -----

  /* Two records are of the same artifact of the same source. */
  predicate SameContent(a: Resolution, b: Resolution)
  {
    && a.name == b.name && a.selected.source == b.selected.source && a.selected.version == b.selected.version
    && a.size == b.size && a.digest == b.digest && a.pkg == b.pkg
  }

  /* The lock pins the greatest version in range that the bound registry's set holds. */
  ghost predicate LockIsNewest(rs: Registries, x: Question, locked: string)
    requires ReachesPool(x)
  {
    forall v: string :: Held(rs, DecisionOf(x).pool, x.dep.name, RangeOf(x), 0, v) ==>
      Semver.Compare(Semver.VersionOf(locked), Semver.VersionOf(v)) >= 0
  }

  /* What an accepting secure resolution says of the set behind its bound source. */
  lemma AcceptedIsHeld(rs: Registries, x: Question, y: Inputs)
    requires ReachesPool(x) && x.codec == y.codec && x.policy == y.cfg.policy && x.dep == y.dep
    requires DependencyFailure(rs, y) == None
    ensures DecisionOf(x).pool == [y.Bound()] && Up(rs, DecisionOf(x).pool)
    ensures AllFit(rs, DecisionOf(x).pool, x.dep.name)
    ensures Held(rs, DecisionOf(x).pool, x.dep.name, RangeOf(x), 0, y.Locked().version)
    ensures BytesFailure(y.codec, y.Locked(),
                         HeldBytes(rs, DecisionOf(x).pool, x.dep.name, 0, y.Locked().version)) == None
  {
    PoolReached(x);
    SourcePolicy.DecisionShape(x.policy, x.dep.name, DecisionOf(x));
  }

  lemma LockLeads(rs: Registries, x: Question, locked: string)
    requires ReachesPool(x) && |DecisionOf(x).pool| == 1
    requires Held(rs, DecisionOf(x).pool, x.dep.name, RangeOf(x), 0, locked)
    ensures LockIsNewest(rs, x, locked) <==> Leads(rs, DecisionOf(x).pool, x.dep.name, RangeOf(x), 0, locked)
  {
    var pool, name, range := DecisionOf(x).pool, x.dep.name, RangeOf(x);
    if LockIsNewest(rs, x, locked) {
      forall j: nat, w: string | Held(rs, pool, name, range, j, w) ensures NotAhead(0, locked, j, w) {
        assert j == 0;
      }
    }
    if Leads(rs, pool, name, range, 0, locked) {
      forall v: string | Held(rs, pool, name, range, 0, v)
        ensures Semver.Compare(Semver.VersionOf(locked), Semver.VersionOf(v)) >= 0
      {
        assert NotAhead(0, locked, 0, v);
      }
    }
  }

  lemma SomethingLeads(c: PkgArchive.Codec, s: Store, scenario: Scenario, rs: Registries, run: string, x: Question,
                       i: nat, version: string)
    returns (j: nat, w: string)
    requires ScenarioQuestion(c, s, scenario, x) && Publishes(c, s, scenario, rs) && AnswersFrom(x.world, rs, run)
    requires Up(rs, DecisionOf(x).pool) && AllFit(rs, DecisionOf(x).pool, x.dep.name) && ReachesPool(x)
    requires Held(rs, DecisionOf(x).pool, x.dep.name, RangeOf(x), i, version)
    ensures Leads(rs, DecisionOf(x).pool, x.dep.name, RangeOf(x), j, w)
  {
    QuestionIsPooled(c, s, scenario, rs, x);
    PollIsServed(rs, run, PollOf(x));
    var o := HeldIsOffered(rs, PollOf(x), RangeOf(x), i, version);
    BestLeads(rs, PollOf(x), RangeOf(x));
    j, w := Best(PollOf(x), RangeOf(x)).rank, Best(PollOf(x), RangeOf(x)).candidate.version;
  }

  /* What a secure resolution accepts is the artifact its bound registry's set holds. */
  lemma AcceptedContent(y: Inputs, bytes: Bytes)
    requires Resolver.Outcome(y).failure == None && y.ArtifactReply() == Answer(bytes)
    ensures var b := Resolver.Outcome(y).record;
            && b.name == y.dep.name && b.selected.source == y.Locked().source
            && b.selected.version == y.Locked().version && b.size == |bytes| && b.digest == y.codec.digest(bytes)
            && PkgArchive.ParseArchive(y.codec, bytes).Ok?
            && b.pkg == Some(PkgArchive.ParseArchive(y.codec, bytes).value)
  {
    AcceptedPackage(y);
    AcceptedIsLocked(y);
  }

  lemma TakenIsAccepted(c: PkgArchive.Codec, x: Question, y: Inputs, source: SourcePolicy.Source, bytes: Bytes)
    requires Resolver.Outcome(y).failure == None && y.ArtifactReply() == Answer(bytes)
    requires x.dep == y.dep && y.codec == c && |bytes| <= MAX_ARTIFACT_BYTES && source.id == y.Locked().source
    requires Takes(c, CombinedIndex.Outcome(x), source, y.Locked().version, bytes)
    ensures CombinedIndex.Outcome(x).failure == None
    ensures SameContent(CombinedIndex.Outcome(x).record, Resolver.Outcome(y).record)
  {
    AcceptedContent(y, bytes);
    SuccessAsksWholePool(x);
  }

  /* Where a consistent scenario's dependency resolves securely, the combined index resolves it to the same artifact
     exactly when no newer version in range is published at the bound registry. */
  lemma ResolversAgreeExactly(c: PkgArchive.Codec, s: Store, scenario: Scenario, rs: Registries, run: string,
                              x: Question, y: Inputs)
    requires ScenarioQuestion(c, s, scenario, x) && ConsistencyLaws.ScenarioInputs(c, s, scenario, y) && x.dep == y.dep
    requires Publishes(c, s, scenario, rs) && AnswersFrom(x.world, rs, run) && AnswersFrom(y.world, rs, run)
    requires forall dir :: dir in s.packages ==> ConsistencyLaws.Faithful(c, s.packages[dir])
    requires Resolver.Outcome(y).failure == None
    ensures ReachesPool(x)
    ensures CombinedIndex.Outcome(x).failure == None
            && SameContent(CombinedIndex.Outcome(x).record, Resolver.Outcome(y).record) <==>
            LockIsNewest(rs, x, y.Locked().version)
  {
    QuestionIsPooled(c, s, scenario, rs, x);
    ServedResolution(c, s, scenario, rs, run, y);
    AcceptedIsHeld(rs, x, y);
    var pool, locked := DecisionOf(x).pool, y.Locked().version;
    LockLeads(rs, x, locked);
    var i, version := SomethingLeads(c, s, scenario, rs, run, x, 0, locked);
    var dir := ServedSelection(c, s, scenario, rs, run, x, i, version);
    SecureContent(c, s, scenario, rs, run, x, y);
    if Leads(rs, pool, x.dep.name, RangeOf(x), 0, locked) {
      OneLeads(rs, pool, x.dep.name, RangeOf(x), i, version, 0, locked);
      TakenIsAccepted(c, x, y, pool[0], HeldBytes(rs, pool, x.dep.name, 0, locked));
    }
  }

  lemma SecureContent(c: PkgArchive.Codec, s: Store, scenario: Scenario, rs: Registries, run: string, x: Question,
                      y: Inputs)
    requires ConsistencyLaws.ScenarioInputs(c, s, scenario, y) && AnswersFrom(y.world, rs, run)
    requires ReachesPool(x) && x.codec == y.codec && x.policy == y.cfg.policy && x.dep == y.dep
    requires Resolver.Outcome(y).failure == None && DependencyFailure(rs, y) == None
    ensures DecisionOf(x).pool == [y.Bound()] && y.Bound().id == y.Locked().source && y.Bound().url in rs.sets
    ensures FindArtifact(rs.sets[y.Bound().url].packages, y.dep.name, y.Locked().version).Some?
    ensures var bytes := HeldBytes(rs, DecisionOf(x).pool, x.dep.name, 0, y.Locked().version);
            y.ArtifactReply() == Answer(bytes) && |bytes| <= MAX_ARTIFACT_BYTES
    ensures Resolver.Outcome(y).record.selected.version == y.Locked().version
  {
    AcceptedIsHeld(rs, x, y);
    RepliesServed(c, s, scenario, rs, run, y);
    AcceptedIsLocked(y);
    TraceIsBound(y);
  }

  // ----- a whole combined build -----

  function QuestionFor(job: Job, dep: BuildManifest.Dependency, before: seq<Call>): Question
  {
    Question(job.codec, job.policy, dep, job.world, before)
  }

  /* How a dependency of a combined build must fail, if it must. */
  ghost function CombinedFailure(rs: Registries, job: Job, dep: BuildManifest.Dependency): Option<Failure>
  {
    var x := QuestionFor(job, dep, []);
    if ReachesPool(x) && Up(rs, DecisionOf(x).pool)
      then PoolFailure(job.codec, rs, DecisionOf(x).pool, dep.name, RangeOf(x)) else None
  }

  /* The first failure among deps, in the order declared. */
  ghost function FirstCombinedFailure(rs: Registries, job: Job, deps: seq<BuildManifest.Dependency>): Option<Failure>
  {
    if deps == [] then None
    else
      var first := CombinedFailure(rs, job, deps[0]);
      if first.Some? then first else FirstCombinedFailure(rs, job, deps[1..])
  }

  /* The scenario's combined build, in a world where the checked-in registries answer. */
  ghost predicate CombinedJob(c: PkgArchive.Codec, s: Store, scenario: Scenario, rs: Registries, run: string, job: Job)
  {
    && Consistent(c, s) && scenario in s.scenarios && Publishes(c, s, scenario, rs) && AnswersFrom(job.world, rs, run)
    && job.codec == c && job.policy == s.policies[scenario.sourcePolicy] && !job.secure
  }

  lemma CombinedStep(c: PkgArchive.Codec, s: Store, scenario: Scenario, rs: Registries, run: string, job: Job,
                   dep: BuildManifest.Dependency, before: seq<Call>)
    requires CombinedJob(c, s, scenario, rs, run, job) && dep in s.manifests[scenario.manifest].dependencies
    ensures ResolveOne(job, dep, before).failure == CombinedFailure(rs, job, dep)
  {
    ServedPoolOutcome(c, s, scenario, rs, run, QuestionFor(job, dep, before));
    SamePool(QuestionFor(job, dep, before), QuestionFor(job, dep, []));
  }

  lemma SamePool(x: Question, y: Question)
    requires y == x.(before := y.before)
    ensures DecisionOf(x) == DecisionOf(y) && (ReachesPool(x) <==> ReachesPool(y))
  {
  }

  /* Against the checked-in registries a combined build fails as the first of its dependencies that must fail does, and
     finishes exactly when none must. */
  lemma {:induction false} ServedCombinedBuild(c: PkgArchive.Codec, s: Store, scenario: Scenario, rs: Registries,
                                             run: string, job: Job, deps: seq<BuildManifest.Dependency>,
                                             before: seq<Call>)
    requires CombinedJob(c, s, scenario, rs, run, job)
    requires forall dep :: dep in deps ==> dep in s.manifests[scenario.manifest].dependencies
    ensures match Build(job, deps, before).stopped
            case None => FirstCombinedFailure(rs, job, deps) == None
            case Some(stop) => FirstCombinedFailure(rs, job, deps) == Some(stop.failure)
  {
    if deps != [] {
      assert deps[0] in deps && forall dep :: dep in deps[1..] ==> dep in deps;
      CombinedStep(c, s, scenario, rs, run, job, deps[0], before);
      var r := ResolveOne(job, deps[0], before);
      if r.failure == None {
        ServedCombinedBuild(c, s, scenario, rs, run, job, deps[1..], before + r.calls);
      }
    }
  }
}
