/** What a consistent set of fixtures rules out in every registry world, and makes possible in an honest one. */
module ConsistencyLaws {
  import opened Prelude
  import opened Fixtures
  import opened Consistency
  import opened Resolver
  import opened ReleaseGate
  import opened BuildLaws
  import Ledger
  import Network
  import SourcePolicy
  import BuildManifest
  import Lockfile
  import PkgArchive
  import Semver

  /* One dependency of one scenario of a consistent store, resolved securely in some world. */
  ghost predicate ScenarioInputs(c: PkgArchive.Codec, s: Store, scenario: Scenario, x: Inputs)
  {
    && Consistent(c, s) && scenario in s.scenarios && x.codec == c
    && x.cfg == Config(s.policies[scenario.sourcePolicy], s.locks[scenario.lock])
    && x.dep in s.manifests[scenario.manifest].dependencies
  }

  lemma AgreedDependency(c: PkgArchive.Codec, s: Store, scenario: Scenario, x: Inputs)
    requires ScenarioInputs(c, s, scenario, x)
    ensures ScenarioAgrees(c, s, scenario) && BuildManifest.ValidDependency(x.dep)
    ensures DependencyAgrees(c, s, x.cfg.policy, x.cfg.lock, x.dep)
    ensures Lockfile.Binding(x.cfg.lock, x.dep.alias) == Ok(x.Locked())
    ensures Semver.Parse(x.Locked().version).Some?
  {
    assert ScenarioAgrees(c, s, scenario);
    Lockfile.BindingIsDeclared(x.cfg.lock, x.dep.alias);
  }

  /* In a consistent store every package source is valid, no two registries share a url and no two scenarios an id, and
     a scenario that pools sources carries the label. */
  lemma ConsistentDocuments(c: PkgArchive.Codec, s: Store)
    requires Consistent(c, s)
    ensures forall dir :: dir in s.packages ==>
              PkgArchive.ValidManifest(s.packages[dir].manifest) && PkgArchive.ValidTable(s.packages[dir].policy)
    ensures forall a, b :: a in s.registries && b in s.registries && a != b ==>
              s.registries[a].url != s.registries[b].url
    ensures s.scenarios != [] && forall i, j :: 0 <= i < j < |s.scenarios| ==> s.scenarios[i].id != s.scenarios[j].id
    ensures forall x :: x in s.scenarios ==>
              x.resolver == RESOLVER_SECURE || (x.resolver == RESOLVER_COMBINED_INDEX && x.vulnerable)
  {
    forall dir | dir in s.packages
      ensures PkgArchive.ValidManifest(s.packages[dir].manifest) && PkgArchive.ValidTable(s.packages[dir].policy)
    {
      assert PackageBytes(c, s, dir).Some?;
      PkgArchive.TableErrorFree(s.packages[dir].policy);
    }
    assert forall x :: x in s.scenarios ==> ScenarioAgrees(c, s, x);
  }

  /* A run of a consistent store's scenario starts exactly when it is acknowledged if vulnerable, the ledger can be
     loaded and the gate's table is valid: no document it names can be missing or refused. */
  lemma ConsistentRunStarts(r: Run, file: Ledger.LedgerFile)
    requires Consistent(r.host.codec, r.store) && r.scenario in r.store.scenarios
    ensures Starts(r, file) <==>
            && (r.scenario.vulnerable ==> r.acknowledged) && Ledger.LoadedFrom(file).Some?
            && ValidClassifications(r.store.classifications)
  {
    assert ScenarioAgrees(r.host.codec, r.store, r.scenario);
  }

  lemma EarlyChecksHold(c: PkgArchive.Codec, s: Store, scenario: Scenario, x: Inputs)
    requires ScenarioInputs(c, s, scenario, x)
    ensures x.Holds(0) && x.Holds(1) && x.Holds(2) && x.Holds(4) && x.Holds(5) && x.Holds(6) && x.Holds(7) && x.Holds(9)
    ensures x.Holds(10)
    ensures x.Holds(3) ==> x.Holds(8)
  {
    AgreedDependency(c, s, scenario, x);
  }

  lemma EarlyStops(x: Inputs)
    requires x.Holds(0) && x.Holds(1) && x.Holds(2) && x.Holds(4) && x.Holds(5) && x.Holds(6) && x.Holds(7)
    requires x.Holds(9) && x.Holds(10)
    requires x.Holds(3) ==> x.Holds(8)
    ensures CallsOf(x) == [] && FailureOf(x).Some? ==> x.StopsAt(3) || x.StopsAt(11) || x.StopsAt(12)
    ensures FailureOf(x) == Some(Failure(LockRangeConflict, LockStage)) ==> x.StopsAt(11)
  {
    StopFromStops(x, 0);
  }

  /* Before a registry is contacted a secure scenario can fail only because its mapping is not
     exclusive, because the lock is outside the declared range, or because dialling fails. */
  lemma EarlyFailuresAreFew(c: PkgArchive.Codec, s: Store, scenario: Scenario, x: Inputs)
    requires ScenarioInputs(c, s, scenario, x)
    ensures FailureOf(x).Some? && CallsOf(x) == [] ==>
              FailureOf(x).value in {Failure(SourcePolicyNotExclusive, SourcePolicyStage),
                                     Failure(LockRangeConflict, LockStage),
                                     Failure(RegistryUnavailable, RegistryQueryStage)}
    ensures FailureOf(x) == Some(Failure(LockRangeConflict, LockStage)) ==> !x.InRange()
  {
    EarlyChecksHold(c, s, scenario, x);
    EarlyStops(x);
    StopIsFirstFailure(x, 3);
    StopIsFirstFailure(x, 11);
    StopIsFirstFailure(x, 12);
  }

  /* A package source whose documents survive JSON and tar. */
  ghost predicate Faithful(c: PkgArchive.Codec, p: PackageSource)
  {
    && c.decodeManifest(c.encodeManifest(p.manifest)) == Some(p.manifest)
    && c.decodePolicy(c.encodePolicy(p.policy)) == Some(p.policy)
    && PkgArchive.TarFaithful(c, PkgArchive.BuiltEntries(c, p.manifest, p.policy))
    && PkgArchive.JsonSizeBounded(c, p.policy)
  }

  /* No checked-in artifact collides with the bytes. */
  ghost predicate CollidesWithNone(c: PkgArchive.Codec, s: Store, raw: Bytes)
  {
    forall dir :: dir in s.packages && PackageBytes(c, s, dir).Some? ==>
        NoCollision(c, raw, PackageBytes(c, s, dir).value)
  }

  lemma VerifiedBytesAreBuilt(c: PkgArchive.Codec, s: Store, record: Lockfile.Record, raw: Bytes) returns (dir: string)
    requires exists dir :: PinnedBy(c, s, record, dir)
    requires Lockfile.VerifyBytes(c.digest, record, raw) == None && CollidesWithNone(c, s, raw)
    requires forall dir :: dir in s.packages ==> Faithful(c, s.packages[dir])
    ensures PinnedBy(c, s, record, dir) && raw == PackageBytes(c, s, dir).value
    ensures var parsed := PkgArchive.ParseArchive(c, raw);
            if |c.encodeManifest(s.packages[dir].manifest)| <= PkgArchive.MAX_ENTRY_SIZE then
              parsed == Ok(PkgArchive.Package(s.packages[dir].manifest, s.packages[dir].policy))
            else parsed.Err?
  {
    dir :| PinnedBy(c, s, record, dir);
    var p := s.packages[dir];
    PkgArchive.TableErrorFree(p.policy);
    PkgArchive.BuildParseRoundTrip(c, p.manifest, p.policy);
  }

  lemma FailuresAreTold(k: nat)
    requires k < CHECKS
    ensures FailureAt(k) == Failure(ArtifactMalformed, ArtifactParseStage) ==> k == 20
    ensures FailureAt(k) == Failure(ManifestMismatch, ArtifactParseStage) ==> k == 21
  {
  }

  lemma FailureNamesCheck(x: Inputs)
    ensures FailureOf(x) == Some(Failure(ArtifactMalformed, ArtifactParseStage)) ==> x.StopsAt(20)
    ensures FailureOf(x) == Some(Failure(ManifestMismatch, ArtifactParseStage)) ==> x.StopsAt(21)
  {
    StopFromStops(x, 0);
    if StopFrom(x, 0) < CHECKS {
      FailuresAreTold(StopFrom(x, 0));
    }
  }

  lemma ParsedIsLocked(c: PkgArchive.Codec, s: Store, scenario: Scenario, x: Inputs) returns (dir: string)
    requires ScenarioInputs(c, s, scenario, x) && x.Holds(17) && x.Holds(18) && x.Holds(19)
    requires forall dir :: dir in s.packages ==> Faithful(c, s.packages[dir])
    requires x.ArtifactReply().Answer? ==> CollidesWithNone(c, s, x.ArtifactReply().value)
    ensures PinnedBy(c, s, x.Locked(), dir)
    ensures if |c.encodeManifest(s.packages[dir].manifest)| <= PkgArchive.MAX_ENTRY_SIZE
            then x.Holds(20) && x.Holds(21) else !x.Holds(20)
  {
    AgreedDependency(c, s, scenario, x);
    VerifiedReply(x);
    dir := VerifiedBytesAreBuilt(c, s, x.Locked(), x.ArtifactReply().value);
  }

  lemma VerifiedReply(x: Inputs)
    requires x.Holds(17) && x.Holds(18) && x.Holds(19)
    ensures x.ArtifactReply().Answer?
    ensures Lockfile.VerifyBytes(x.codec.digest, x.Locked(), x.ArtifactReply().value) == None
  {
  }

  /* Bytes that pass the lock's size and digest check are a checked-in build, so the artifact is
     malformed only if that build's manifest exceeds one entry, and never names something else. */
  lemma LateFailuresAreUnreachable(c: PkgArchive.Codec, s: Store, scenario: Scenario, x: Inputs)
    requires ScenarioInputs(c, s, scenario, x)
    requires forall dir :: dir in s.packages ==> Faithful(c, s.packages[dir])
    requires x.ArtifactReply().Answer? ==> CollidesWithNone(c, s, x.ArtifactReply().value)
    ensures FailureOf(x) == Some(Failure(ArtifactMalformed, ArtifactParseStage)) ==>
              exists dir :: PinnedBy(c, s, x.Locked(), dir)
                  && |c.encodeManifest(s.packages[dir].manifest)| > PkgArchive.MAX_ENTRY_SIZE
    ensures FailureOf(x) != Some(Failure(ManifestMismatch, ArtifactParseStage))
  {
    FailureNamesCheck(x);
    if x.StopsAt(20) || x.StopsAt(21) {
      assert x.Holds(17) && x.Holds(18) && x.Holds(19);
      var dir := ParsedIsLocked(c, s, scenario, x);
    }
  }

  // ----- what a consistent set of fixtures makes possible -----

  /* The bound source can be reached, lists the locked version and serves a checked-in build of it. */
  ghost predicate HonestAbout(c: PkgArchive.Codec, s: Store, x: Inputs)
  {
    && x.world.dials(x.before, x.Bound()) && x.Lists(x.Locked().version) && x.ArtifactReply().Answer?
    && exists dir :: Serves(c, s, x, dir)
  }

  ghost predicate Serves(c: PkgArchive.Codec, s: Store, x: Inputs, dir: string)
  {
    && PinnedBy(c, s, x.Locked(), dir) && x.ArtifactReply() == Network.Answer(PackageBytes(c, s, dir).value)
    && Faithful(c, s.packages[dir]) && |c.encodeManifest(s.packages[dir].manifest)| <= PkgArchive.MAX_ENTRY_SIZE
  }

  lemma ServedBytesPass(c: PkgArchive.Codec, s: Store, x: Inputs, dir: string)
    requires Serves(c, s, x, dir) && x.codec == c
    ensures Lockfile.VerifyBytes(c.digest, x.Locked(), x.ArtifactReply().value) == None
    ensures var parsed := PkgArchive.ParseArchive(c, x.ArtifactReply().value);
            && parsed.Ok? && parsed.value.manifest.name == x.Locked().name
            && parsed.value.manifest.version == x.Locked().version
  {
    var p := s.packages[dir];
    PkgArchive.TableErrorFree(p.policy);
    PkgArchive.BuildParseRoundTrip(c, p.manifest, p.policy);
  }

  /* From an honest registry a dependency of a consistent scenario resolves exactly when its mapping is
     exclusive and its lock is in the declared range. */
  lemma HonestResolution(c: PkgArchive.Codec, s: Store, scenario: Scenario, x: Inputs)
    requires ScenarioInputs(c, s, scenario, x) && HonestAbout(c, s, x)
    ensures FailureOf(x) == None <==> x.Decision().mode == SourcePolicy.MODE_EXCLUSIVE && x.InRange()
  {
    AcceptsExactly(x);
    EarlyChecksHold(c, s, scenario, x);
    AgreedDependency(c, s, scenario, x);
    var dir :| Serves(c, s, x, dir);
    ServedBytesPass(c, s, x, dir);
  }

  /* The mapping for the dependency is exclusive and the locked version is in its declared range. */
  ghost predicate Resolvable(job: Job, dep: BuildManifest.Dependency)
  {
    DepInputs(job, dep, []).Decision().mode == SourcePolicy.MODE_EXCLUSIVE && DepInputs(job, dep, []).InRange()
  }

  /* The scenario's secure build, against registries that are honest about each of deps at any time. */
  ghost predicate HonestJob(c: PkgArchive.Codec, s: Store, scenario: Scenario, job: Job,
                            deps: seq<BuildManifest.Dependency>)
  {
    && Consistent(c, s) && scenario in s.scenarios && job.secure
    && job == Job(c, s.policies[scenario.sourcePolicy], s.locks[scenario.lock], true, job.world)
    && (forall dep :: dep in deps ==> dep in s.manifests[scenario.manifest].dependencies)
    && forall dep, before :: dep in deps ==> HonestAbout(c, s, DepInputs(job, dep, before))
  }

  lemma HonestStep(c: PkgArchive.Codec, s: Store, scenario: Scenario, job: Job, deps: seq<BuildManifest.Dependency>,
                   dep: BuildManifest.Dependency, before: seq<Network.Call>)
    requires HonestJob(c, s, scenario, job, deps) && dep in deps
    ensures ResolveOne(job, dep, before).failure == None <==> Resolvable(job, dep)
  {
    var x := DepInputs(job, dep, before);
    assert HonestAbout(c, s, x);
    HonestResolution(c, s, scenario, x);
  }

  /* Such a build finishes exactly when every dependency is bound exclusively and locked within its range:
     failing closed is never the only thing it can do. */
  lemma {:induction false} HonestBuildFinishes(c: PkgArchive.Codec, s: Store, scenario: Scenario, job: Job,
                                               deps: seq<BuildManifest.Dependency>, before: seq<Network.Call>)
    requires HonestJob(c, s, scenario, job, deps)
    ensures Build(job, deps, before).stopped == None <==> forall dep :: dep in deps ==> Resolvable(job, dep)
  {
    if deps != [] {
      assert deps[0] in deps && forall dep :: dep in deps <==> dep == deps[0] || dep in deps[1..];
      HonestStep(c, s, scenario, job, deps, deps[0], before);
      var r := ResolveOne(job, deps[0], before);
      if r.failure == None {
        HonestBuildFinishes(c, s, scenario, job, deps[1..], before + r.calls);
      }
    }
  }
}
