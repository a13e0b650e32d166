/**
 The world a client meets when the checked-in registries serve their own fixture sets: the answer to
 every call is what Registry.Serve says of the set behind the source's url, as the client reads it.
 */
module ServedWorld {
  import opened Prelude
  import opened Network
  import opened Fixtures
  import opened Registry
  import opened Consistency
  import opened Resolver
  import opened ReleaseGate
  import opened BuildLaws
  import ConsistencyLaws
  import SourcePolicy
  import BuildManifest
  import Lockfile
  import PkgArchive
  import Sorting

  // ----- what a client reads -----

  const MAX_ARTIFACT_BYTES := 0x4_0000

  /* The registries that are up, by url, and whether a metadata document fits the client's limit. */
  datatype Registries = Registries(crypto: Crypto, fits: Metadata -> bool, sets: map<string, FixtureSet>)

  function ReadMetadata(rs: Registries, name: string, response: Response): Reply<Metadata>
  {
    if response.status == OK && response.body.MetadataBody? then
      var meta := response.body.metadata;
      if rs.fits(meta) && meta.format == METADATA_FORMAT && meta.name == name then Answer(meta) else Unavailable
    else if response.status == NOT_FOUND then NotFound
    else Unavailable
  }

  function ReadArtifact(response: Response): Reply<Bytes>
  {
    if response.status == OK && response.body.ArtifactBody? then
      if |response.body.bytes| <= MAX_ARTIFACT_BYTES then Answer(response.body.bytes) else Unavailable
    else if response.status == NOT_FOUND then NotFound
    else Unavailable
  }

  /* Whatever was asked before, these registries can be reached and answer from their sets. */
  ghost predicate AnswersFrom(w: World, rs: Registries, run: string)
  {
    && (forall h, source: SourcePolicy.Source :: source.url in rs.sets ==> w.dials(h, source))
    && (forall h, source: SourcePolicy.Source, name :: source.url in rs.sets ==>
          w.metadata(h, source, name) ==
          ReadMetadata(rs, name, Serve(rs.crypto, rs.sets[source.url], RequestFor(MetadataCall(source, name), run)).1))
    && (forall h, source: SourcePolicy.Source, name, version :: source.url in rs.sets ==>
          w.artifact(h, source, name, version) ==
          ReadArtifact(Serve(rs.crypto, rs.sets[source.url], RequestFor(ArtifactCall(source, name, version), run)).1))
  }

  /* Each checked-in registry that loads is up, with the set it loads; of the vulnerable ones nothing is asked
     unless the scenario is vulnerable itself. */
  ghost predicate Publishes(c: PkgArchive.Codec, s: Store, scenario: Scenario, rs: Registries)
  {
    && rs.crypto.digest == c.digest
    && forall id :: RegistryLoads(c, s, id) && (s.registries[id].vulnerable ==> scenario.vulnerable) ==>
         s.registries[id].url in rs.sets && SortedSet(UnsortedSet(c, s, id), rs.sets[s.registries[id].url])
  }

  /* What a client learns of a name from a set. */
  function MetadataOf(rs: Registries, set_: FixtureSet, name: string): Reply<Metadata>
  {
    match FindPackage(set_.packages, name)
    case None => NotFound
    case Some(p) =>
      var meta := DescribePackage(rs.crypto, set_, p);
      if rs.fits(meta) then Answer(meta) else Unavailable
  }

  /* What a client fetches from a set. */
  function ArtifactOf(set_: FixtureSet, name: string, version: string): Reply<Bytes>
  {
    match FindArtifact(set_.packages, name, version)
    case None => NotFound
    case Some(a) => if |a.bytes| <= MAX_ARTIFACT_BYTES then Answer(a.bytes) else Unavailable
  }

  lemma MetadataServed(rs: Registries, source: SourcePolicy.Source, name: string, run: string)
    requires source.url in rs.sets && name != ""
    ensures var set_ := rs.sets[source.url];
            ReadMetadata(rs, name, Serve(rs.crypto, set_, RequestFor(MetadataCall(source, name), run)).1) ==
            MetadataOf(rs, set_, name)
  {
    var http := RequestFor(MetadataCall(source, name), run);
    assert Single(http.query, "name") == Some(name) && |http.query| == 1;
    FoundPackage(rs.sets[source.url].packages, name);
  }

  lemma ArtifactServed(rs: Registries, source: SourcePolicy.Source, name: string, version: string, run: string)
    requires source.url in rs.sets && name != "" && version != ""
    ensures ReadArtifact(Serve(rs.crypto, rs.sets[source.url],
                               RequestFor(ArtifactCall(source, name, version), run)).1) ==
            ArtifactOf(rs.sets[source.url], name, version)
  {
    var http := RequestFor(ArtifactCall(source, name, version), run);
    assert http.query.Keys == {"name", "version"};
    assert |http.query| == |http.query.Keys| == 2;
    assert Single(http.query, "name") == Some(name) && Single(http.query, "version") == Some(version);
  }

  /* Metadata lists a version exactly when the artifact endpoint finds it. */
  lemma ListedIsFound(crypto: Crypto, set_: FixtureSet, p: Package, version: string)
    ensures var listed := DescribePackage(crypto, set_, p).versions;
            (exists i :: 0 <= i < |listed| && listed[i].version == version) <==> FindVersion(p.versions, version).Some?
  {
    var same, listed := (a: Artifact) => a.version == version, DescribePackage(crypto, set_, p).versions;
    FindVersionFirst(p.versions, version);
    FilterNone(same, p.versions);
    FilterMembers(same, p.versions);
    assert forall i :: 0 <= i < |p.versions| ==>
      listed[i].version == p.versions[i].version && p.versions[i] in p.versions;
    if FindVersion(p.versions, version).Some? {
      assert Filter(same, p.versions)[0] in Filter(same, p.versions);
    }
  }

  // ----- what a registry serves is built -----

  lemma BuiltVersion(c: PkgArchive.Codec, s: Store, p: PackageRef, a: Artifact) returns (dir: string)
    requires GoodPackage(c, s, p) && a in BuiltPackage(c, s, p).versions
    ensures PackageBytes(c, s, dir) == Some(a.bytes)
    ensures s.packages[dir].manifest.name == p.name && s.packages[dir].manifest.version == a.version
  {
    var built := BuiltPackage(c, s, p);
    var i :| 0 <= i < |built.versions| && built.versions[i] == a;
    assert p.versions[i] in p.versions;
    dir := p.versions[i].dir;
  }

  /* Every artifact a loaded registry serves is a package source's build, under the name and version that
     package declares. */
  lemma ServedIsBuilt(c: PkgArchive.Codec, s: Store, id: string, set_: FixtureSet, name: string, version: string)
    returns (dir: string)
    requires RegistryLoads(c, s, id) && SortedSet(UnsortedSet(c, s, id), set_)
    requires FindArtifact(set_.packages, name, version).Some?
    ensures PackageBytes(c, s, dir) == Some(FindArtifact(set_.packages, name, version).value.bytes)
    ensures s.packages[dir].manifest.name == name && s.packages[dir].manifest.version == version
  {
    var unsorted := UnsortedSet(c, s, id).packages;
    var mapped := Map(SortVersions, unsorted);
    FoundPackage(set_.packages, name);
    var p := FindPackage(set_.packages, name).value;
    PermutedMembers(set_.packages, mapped);
    var i :| 0 <= i < |mapped| && mapped[i] == p;
    var doc := s.registries[id].packages[i];
    assert doc in s.registries[id].packages && unsorted[i] == BuiltPackage(c, s, doc);
    SortOrders();
    Sorting.StableSortCorrect(OlderThan, unsorted[i].versions);
    PermutedMembers(p.versions, unsorted[i].versions);
    FoundVersion(p.versions, version);
    dir := BuiltVersion(c, s, doc, FindVersion(p.versions, version).value);
  }

  lemma {:induction false} FoundVersion(versions: seq<Artifact>, version: string)
    ensures FindVersion(versions, version).Some? ==>
              FindVersion(versions, version).value in versions
                  && FindVersion(versions, version).value.version == version
  {
    if versions != [] {
      FoundVersion(versions[1..], version);
    }
  }

  // ----- the outcome of a resolution against these registries -----

  /* How the bytes a registry serves fare against the lock. */
  function BytesFailure(c: PkgArchive.Codec, locked: Lockfile.Record, bytes: Bytes): Option<Failure>
  {
    if |bytes| > MAX_ARTIFACT_BYTES then Some(Failure(RegistryUnavailable, ArtifactFetchStage))
    else if |bytes| != locked.size then Some(Failure(ArtifactSizeMismatch, IntegrityStage))
    else if c.digest(bytes) != locked.sha256 then Some(Failure(ArtifactDigestMismatch, IntegrityStage))
    else if PkgArchive.ParseArchive(c, bytes).Err? then Some(Failure(ArtifactMalformed, ArtifactParseStage))
    else None
  }

  /* How a locked name and version fare against one registry's set. */
  function SetFailure(c: PkgArchive.Codec, rs: Registries, set_: FixtureSet, name: string,
                      locked: Lockfile.Record): Option<Failure>
  {
    match FindPackage(set_.packages, name)
    case None => Some(Failure(ArtifactUnavailable, RegistryQueryStage))
    case Some(p) =>
      if !rs.fits(DescribePackage(rs.crypto, set_, p)) then Some(Failure(RegistryUnavailable, RegistryQueryStage))
      else
        match FindVersion(p.versions, locked.version)
        case None => Some(Failure(ArtifactUnavailable, RegistryQueryStage))
        case Some(a) => BytesFailure(c, locked, a.bytes)
  }

  /* The registry behind the bound source of an exclusive decision, and the set it serves. */
  lemma BoundRegistry(c: PkgArchive.Codec, s: Store, scenario: Scenario, rs: Registries, x: Inputs) returns (id: string)
    requires ConsistencyLaws.ScenarioInputs(c, s, scenario, x) && Publishes(c, s, scenario, rs)
    requires x.Decision().mode == SourcePolicy.MODE_EXCLUSIVE
    ensures RegistryLoads(c, s, id) && x.Bound().url == s.registries[id].url
    ensures x.Bound().url in rs.sets && SortedSet(UnsortedSet(c, s, id), rs.sets[x.Bound().url])
  {
    ConsistencyLaws.AgreedDependency(c, s, scenario, x);
    SourcePolicy.DecisionShape(x.cfg.policy, x.dep.name, x.Decision());
    assert SourceServed(c, s, scenario, x.Bound());
    id :| ServedBy(c, s, scenario, x.Bound(), id);
  }

  /* A registry that answers for a source of a consistent scenario has the role the policy gives that source. */
  lemma RoleIsClaimed(c: PkgArchive.Codec, s: Store, scenario: Scenario, rs: Registries, source: SourcePolicy.Source)
    requires Consistent(c, s) && scenario in s.scenarios && Publishes(c, s, scenario, rs)
    requires source in s.policies[scenario.sourcePolicy].sources
    ensures source.url in rs.sets && rs.sets[source.url].role == source.role
    ensures rs.sets[source.url].vulnerable ==> scenario.vulnerable
  {
    assert ScenarioAgrees(c, s, scenario);
    assert SourceServed(c, s, scenario, source);
    var id :| ServedBy(c, s, scenario, source, id);
    LoadedSetIsDocument(c, s, id, rs.sets[source.url]);
  }

  /* The bound source replies from the set. */
  ghost predicate RepliesFrom(rs: Registries, set_: FixtureSet, x: Inputs)
  {
    && x.MetadataReply() == MetadataOf(rs, set_, x.dep.name)
    && x.ArtifactReply() == ArtifactOf(set_, x.dep.name, x.Locked().version)
  }

  lemma RepliesServed(c: PkgArchive.Codec, s: Store, scenario: Scenario, rs: Registries, run: string, x: Inputs)
    requires ConsistencyLaws.ScenarioInputs(c, s, scenario, x) && AnswersFrom(x.world, rs, run)
    requires x.Bound().url in rs.sets
    ensures x.Holds(12) && RepliesFrom(rs, rs.sets[x.Bound().url], x)
  {
    ConsistencyLaws.AgreedDependency(c, s, scenario, x);
    MetadataServed(rs, x.Bound(), x.dep.name, run);
    ArtifactServed(rs, x.Bound(), x.dep.name, x.Locked().version, run);
  }

  /* How a resolution that stops at check k fails, if it does. */
  function Told(k: nat): Option<Failure>
  {
    if k == CHECKS then None else Some(FailureAt(k))
  }

  lemma StopsWith(x: Inputs, k: nat)
    requires x.StopsAt(k)
    ensures FailureOf(x) == Told(k)
  {
    StopIsFirstFailure(x, k);
  }

  lemma SetOutcome(c: PkgArchive.Codec, s: Store, rs: Registries, id: string, x: Inputs) returns (k: nat)
    requires Holding(x, 0, 13) && x.codec == c && rs.crypto.digest == c.digest
    requires RegistryLoads(c, s, id) && x.Bound().url in rs.sets
    requires SortedSet(UnsortedSet(c, s, id), rs.sets[x.Bound().url])
    requires forall dir :: dir in s.packages ==> ConsistencyLaws.Faithful(c, s.packages[dir])
    requires RepliesFrom(rs, rs.sets[x.Bound().url], x)
    ensures x.StopsAt(k) && Told(k) == SetFailure(c, rs, rs.sets[x.Bound().url], x.dep.name, x.Locked())
  {
    var set_ := rs.sets[x.Bound().url];
    if FindPackage(set_.packages, x.dep.name).None? {
      return 13;
    }
    HoldingMore(x, 0, 13);
    var p := FindPackage(set_.packages, x.dep.name).value;
    if !rs.fits(DescribePackage(rs.crypto, set_, p)) {
      return 14;
    }
    HoldingMore(x, 0, 14);
    ListedIsFound(rs.crypto, set_, p, x.Locked().version);
    if FindVersion(p.versions, x.Locked().version).None? {
      return 15;
    }
    HoldingMore(x, 0, 15);
    var dir := ServedIsBuilt(c, s, id, set_, x.dep.name, x.Locked().version);
    k := FetchOutcome(c, s, x, FindVersion(p.versions, x.Locked().version).value.bytes, dir);
  }

  lemma FetchOutcome(c: PkgArchive.Codec, s: Store, x: Inputs, bytes: Bytes, dir: string) returns (k: nat)
    requires Holding(x, 0, 16) && x.codec == c
    requires x.ArtifactReply() == if |bytes| <= MAX_ARTIFACT_BYTES then Answer(bytes) else Unavailable
    requires PackageBytes(c, s, dir) == Some(bytes) && ConsistencyLaws.Faithful(c, s.packages[dir])
    requires s.packages[dir].manifest.name == x.dep.name && s.packages[dir].manifest.version == x.Locked().version
    ensures x.StopsAt(k) && Told(k) == BytesFailure(c, x.Locked(), bytes)
  {
    HoldingMore(x, 0, 16);
    if |bytes| > MAX_ARTIFACT_BYTES {
      k := 17;
    } else {
      HoldingMore(x, 0, 17);
      BuiltBytesName(c, s, bytes, dir);
      k := BytesOutcome(c, x, bytes);
    }
  }

  lemma BuiltBytesName(c: PkgArchive.Codec, s: Store, bytes: Bytes, dir: string)
    requires PackageBytes(c, s, dir) == Some(bytes) && ConsistencyLaws.Faithful(c, s.packages[dir])
    ensures var parsed := PkgArchive.ParseArchive(c, bytes); parsed.Ok? ==>
            parsed.value.manifest == s.packages[dir].manifest
  {
    var p := s.packages[dir];
    PkgArchive.TableErrorFree(p.policy);
    PkgArchive.BuildParseRoundTrip(c, p.manifest, p.policy);
  }

  lemma BytesOutcome(c: PkgArchive.Codec, x: Inputs, bytes: Bytes) returns (k: nat)
    requires Holding(x, 0, 18) && x.codec == c && x.ArtifactReply() == Answer(bytes) && |bytes| <= MAX_ARTIFACT_BYTES
    requires var parsed := PkgArchive.ParseArchive(c, bytes);
             parsed.Ok? ==>
               parsed.value.manifest.name == x.dep.name && parsed.value.manifest.version == x.Locked().version
    ensures x.StopsAt(k) && Told(k) == BytesFailure(c, x.Locked(), bytes)
  {
    if |bytes| != x.Locked().size {
      return 18;
    }
    HoldingMore(x, 0, 18);
    if c.digest(bytes) != x.Locked().sha256 {
      return 19;
    }
    HoldingMore(x, 0, 19);
    k := ParseOutcome(c, x, bytes);
  }

  lemma ParseOutcome(c: PkgArchive.Codec, x: Inputs, bytes: Bytes) returns (k: nat)
    requires Holding(x, 0, 20) && x.codec == c && x.ArtifactReply() == Answer(bytes)
    requires var parsed := PkgArchive.ParseArchive(c, bytes);
             parsed.Ok? ==>
               parsed.value.manifest.name == x.dep.name && parsed.value.manifest.version == x.Locked().version
    ensures x.StopsAt(k) && Told(k) ==
            if PkgArchive.ParseArchive(c, bytes).Err? then Some(Failure(ArtifactMalformed, ArtifactParseStage))
                else None
  {
    if PkgArchive.ParseArchive(c, bytes).Err? {
      return 20;
    }
    HoldingMore(x, 0, 20);
    HoldingMore(x, 0, 21);
    k := CHECKS;
  }

  /* What a consistent scenario's dependency comes to before its bound registry is asked. */
  lemma EarlyOutcome(c: PkgArchive.Codec, s: Store, scenario: Scenario, x: Inputs)
    requires ConsistencyLaws.ScenarioInputs(c, s, scenario, x)
    ensures x.Decision().mode != SourcePolicy.MODE_EXCLUSIVE ==>
              FailureOf(x) == Some(Failure(SourcePolicyNotExclusive, SourcePolicyStage))
    ensures x.Decision().mode == SourcePolicy.MODE_EXCLUSIVE && !x.InRange() ==>
              FailureOf(x) == Some(Failure(LockRangeConflict, LockStage))
    ensures x.Decision().mode == SourcePolicy.MODE_EXCLUSIVE && x.InRange() ==> Holding(x, 0, 12)
  {
    ConsistencyLaws.EarlyChecksHold(c, s, scenario, x);
    if !x.Holds(3) {
      StopsWith(x, 3);
    } else if !x.InRange() {
      StopsWith(x, 11);
    }
  }

  /* How a resolution must fail, if it must, by its mapping, its lock and the bound registry's set. */
  function DependencyFailure(rs: Registries, x: Inputs): Option<Failure>
  {
    if x.Decision().mode != SourcePolicy.MODE_EXCLUSIVE then Some(Failure(SourcePolicyNotExclusive, SourcePolicyStage))
    else if !x.InRange() then Some(Failure(LockRangeConflict, LockStage))
    else if x.Bound().url !in rs.sets then Some(Failure(RegistryUnavailable, RegistryQueryStage))
    else SetFailure(x.codec, rs, rs.sets[x.Bound().url], x.dep.name, x.Locked())
  }

  /* Against the checked-in registries, a dependency of a consistent scenario resolves exactly when its mapping is
     exclusive, its lock in range and the bound registry publishes bytes the lock pins; otherwise the failure is the
     one its mapping, its lock or that registry's set determines. No collision is assumed away. */
  lemma ServedResolution(c: PkgArchive.Codec, s: Store, scenario: Scenario, rs: Registries, run: string, x: Inputs)
    requires ConsistencyLaws.ScenarioInputs(c, s, scenario, x) && Publishes(c, s, scenario, rs)
    requires AnswersFrom(x.world, rs, run)
    requires forall dir :: dir in s.packages ==> ConsistencyLaws.Faithful(c, s.packages[dir])
    ensures FailureOf(x) == DependencyFailure(rs, x)
  {
    EarlyOutcome(c, s, scenario, x);
    if x.Decision().mode == SourcePolicy.MODE_EXCLUSIVE {
      var id := BoundRegistry(c, s, scenario, rs, x);
      if x.InRange() {
        RepliesServed(c, s, scenario, rs, run, x);
        HoldingMore(x, 0, 12);
        var k := SetOutcome(c, s, rs, id, x);
        StopsWith(x, k);
      }
    }
  }

  /* A registry that publishes what the lock pins is honest about it. */
  lemma ServedIsHonest(c: PkgArchive.Codec, s: Store, scenario: Scenario, rs: Registries, run: string, x: Inputs)
    requires ConsistencyLaws.ScenarioInputs(c, s, scenario, x) && Publishes(c, s, scenario, rs)
    requires AnswersFrom(x.world, rs, run)
    requires forall dir :: dir in s.packages ==> ConsistencyLaws.Faithful(c, s.packages[dir])
    requires DependencyFailure(rs, x) == None
    ensures ConsistencyLaws.HonestAbout(c, s, x)
  {
    ServedResolution(c, s, scenario, rs, run, x);
    AcceptedIsAcceptable(x);
    var id := BoundRegistry(c, s, scenario, rs, x);
    RepliesServed(c, s, scenario, rs, run, x);
    var dir := ServedIsBuilt(c, s, id, rs.sets[x.Bound().url], x.dep.name, x.Locked().version);
    AcceptedBuildFits(c, s, x, dir);
    assert ConsistencyLaws.Serves(c, s, x, dir);
  }

  lemma AcceptedBuildFits(c: PkgArchive.Codec, s: Store, x: Inputs, dir: string)
    requires Acceptable(x) && x.codec == c && PackageBytes(c, s, dir) == Some(x.ArtifactReply().value)
    requires ConsistencyLaws.Faithful(c, s.packages[dir])
    requires s.packages[dir].manifest.name == x.dep.name && s.packages[dir].manifest.version == x.Locked().version
    ensures PinnedBy(c, s, x.Locked(), dir) && |c.encodeManifest(s.packages[dir].manifest)| <= PkgArchive.MAX_ENTRY_SIZE
  {
    var p := s.packages[dir];
    PkgArchive.TableErrorFree(p.policy);
    PkgArchive.BuildParseRoundTrip(c, p.manifest, p.policy);
  }

  // ----- a whole build against these registries -----

  /* The first failure among deps, in the order declared. */
  ghost function FirstFailure(rs: Registries, job: Job, deps: seq<BuildManifest.Dependency>): Option<Failure>
  {
    if deps == [] then None
    else
      var first := DependencyFailure(rs, DepInputs(job, deps[0], []));
      if first.Some? then first else FirstFailure(rs, job, deps[1..])
  }

  /* The scenario's secure build, in a world where the checked-in registries answer. */
  ghost predicate ServedJob(c: PkgArchive.Codec, s: Store, scenario: Scenario, rs: Registries, run: string, job: Job)
  {
    && Consistent(c, s) && scenario in s.scenarios && Publishes(c, s, scenario, rs) && AnswersFrom(job.world, rs, run)
    && (forall dir :: dir in s.packages ==> ConsistencyLaws.Faithful(c, s.packages[dir]))
    && job == Job(c, s.policies[scenario.sourcePolicy], s.locks[scenario.lock], true, job.world)
  }

  lemma ServedStep(c: PkgArchive.Codec, s: Store, scenario: Scenario, rs: Registries, run: string, job: Job,
                   dep: BuildManifest.Dependency,
                   before: seq<Call>)
    requires ServedJob(c, s, scenario, rs, run, job) && dep in s.manifests[scenario.manifest].dependencies
    ensures ResolveOne(job, dep, before).failure == DependencyFailure(rs, DepInputs(job, dep, []))
  {
    var x := DepInputs(job, dep, before);
    ServedResolution(c, s, scenario, rs, run, x);
    SameDependencyFailure(rs, x, DepInputs(job, dep, []));
  }

  /* What was asked before plays no part in how a dependency must fail. */
  lemma SameDependencyFailure(rs: Registries, x: Inputs, y: Inputs)
    requires y == x.(before := y.before)
    ensures DependencyFailure(rs, x) == DependencyFailure(rs, y)
  {
  }

  /* Such a build fails as the first of its dependencies that must fail does, and finishes exactly when none must. */
  lemma {:induction false} ServedBuild(c: PkgArchive.Codec, s: Store, scenario: Scenario, rs: Registries, run: string,
                                       job: Job,
                                       deps: seq<BuildManifest.Dependency>, before: seq<Call>)
    requires ServedJob(c, s, scenario, rs, run, job)
    requires forall dep :: dep in deps ==> dep in s.manifests[scenario.manifest].dependencies
    ensures match Build(job, deps, before).stopped
            case None => FirstFailure(rs, job, deps) == None
            case Some(stop) => FirstFailure(rs, job, deps) == Some(stop.failure)
  {
    if deps != [] {
      assert deps[0] in deps && forall dep :: dep in deps[1..] ==> dep in deps;
      ServedStep(c, s, scenario, rs, run, job, deps[0], before);
      var r := ResolveOne(job, deps[0], before);
      if r.failure == None {
        ServedBuild(c, s, scenario, rs, run, job, deps[1..], before + r.calls);
      }
    }
  }
}
