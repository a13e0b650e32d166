/** internal/fixtures: building registry contents, and the check that the checked-in documents agree. */
module Consistency {
  import opened Prelude
  import opened Fixtures
  import opened Registry
  import SourcePolicy
  import BuildManifest
  import Lockfile
  import PkgArchive
  import Semver

  // ----- building packages and registries -----

  /* The artifact bytes a checked-in package source builds to, if it builds. */
  function PackageBytes(c: PkgArchive.Codec, s: Store, dir: string): Option<Bytes>
  {
    if dir !in s.packages then None
    else
      match PkgArchive.BuildArchive(c, s.packages[dir].manifest, s.packages[dir].policy)
      case Ok(bytes) => Some(bytes)
      case Err(_) => None
  }

  /* A reference builds, and is published under the name and version its artifact declares. */
  predicate GoodRef(c: PkgArchive.Codec, s: Store, name: string, ref: VersionRef)
  {
    && PackageBytes(c, s, ref.dir).Some?
    && s.packages[ref.dir].manifest.name == name && s.packages[ref.dir].manifest.version == ref.version
  }

  ghost predicate GoodPackage(c: PkgArchive.Codec, s: Store, p: PackageRef)
  {
    forall ref :: ref in p.versions ==> GoodRef(c, s, p.name, ref) && Semver.Parse(ref.version).Some?
  }

  ghost predicate RegistryLoads(c: PkgArchive.Codec, s: Store, id: string)
  {
    && id in s.registries && s.registries[id].id == id
    && (s.registries[id].role == SourcePolicy.ROLE_PRIVATE || s.registries[id].role == SourcePolicy.ROLE_PUBLIC)
    && forall p :: p in s.registries[id].packages ==> GoodPackage(c, s, p)
  }

  function BuiltArtifact(c: PkgArchive.Codec, s: Store, ref: VersionRef): Artifact
  {
    Artifact(ref.version, match PackageBytes(c, s, ref.dir) case Some(b) => b case None => [])
  }

  function BuiltPackage(c: PkgArchive.Codec, s: Store, p: PackageRef): Package
  {
    Package(p.name, Map((ref: VersionRef) => BuiltArtifact(c, s, ref), p.versions))
  }

  /* What a registry serves, before its fixture set is sorted. */
  function UnsortedSet(c: PkgArchive.Codec, s: Store, id: string): FixtureSet
    requires id in s.registries
  {
    var doc := s.registries[id];
    FixtureSet(doc.id, doc.role, doc.revision, doc.vulnerable,
               Map((p: PackageRef) => BuiltPackage(c, s, p), doc.packages))
  }

  method BuildPackage(c: PkgArchive.Codec, s: Store, dir: string) returns (r: Option<Bytes>)
    ensures r == PackageBytes(c, s, dir)
  {
    if dir !in s.packages {
      return None;
    }
    var built := PkgArchive.Build(c, s.packages[dir].manifest, s.packages[dir].policy);
    match built
    case Ok(bytes) => r := Some(bytes);
    case Err(_) => r := None;
  }

  method BuildVersions(c: PkgArchive.Codec, s: Store, p: PackageRef) returns (r: Option<Package>)
    ensures r.Some? <==> forall ref :: ref in p.versions ==> GoodRef(c, s, p.name, ref)
    ensures r.Some? ==> r.value == BuiltPackage(c, s, p)
  {
    var versions: seq<Artifact> := [];
    for i := 0 to |p.versions|
      invariant |versions| == i
      invariant forall k :: 0 <= k < i ==> GoodRef(c, s, p.name, p.versions[k])
      invariant forall k :: 0 <= k < i ==> versions[k] == BuiltPackage(c, s, p).versions[k]
    {
      var ref := p.versions[i];
      assert ref in p.versions;
      var raw := BuildPackage(c, s, ref.dir);
      if raw.None? {
        return None;
      }
      var manifest := s.packages[ref.dir].manifest;
      if manifest.name != p.name || manifest.version != ref.version {
        return None;
      }
      versions := versions + [Artifact(ref.version, raw.value)];
    }
    assert versions == BuiltPackage(c, s, p).versions;
    r := Some(Package(p.name, versions));
  }

  lemma BuiltVersionsParse(c: PkgArchive.Codec, s: Store, p: PackageRef)
    ensures VersionsParse(BuiltPackage(c, s, p)) <==>
            forall ref :: ref in p.versions ==> Semver.Parse(ref.version).Some?
  {
    var built := BuiltPackage(c, s, p);
    assert forall i :: 0 <= i < |p.versions| ==>
      built.versions[i].version == p.versions[i].version && p.versions[i] in p.versions;
  }

  method LoadRegistrySet(c: PkgArchive.Codec, s: Store, id: string) returns (r: Option<FixtureSet>)
    ensures r.Some? <==> RegistryLoads(c, s, id)
    ensures r.Some? ==> SortedSet(UnsortedSet(c, s, id), r.value)
  {
    if id !in s.registries {
      return None;
    }
    var doc := s.registries[id];
    if doc.id != id {
      return None;
    }
    if doc.role != SourcePolicy.ROLE_PRIVATE && doc.role != SourcePolicy.ROLE_PUBLIC {
      return None;
    }
    var packages: seq<Package> := [];
    for i := 0 to |doc.packages|
      invariant |packages| == i
      invariant forall k :: 0 <= k < i ==>
                  packages[k] == BuiltPackage(c, s, doc.packages[k]) &&
                  forall ref :: ref in doc.packages[k].versions ==> GoodRef(c, s, doc.packages[k].name, ref)
    {
      assert doc.packages[i] in doc.packages;
      var built := BuildVersions(c, s, doc.packages[i]);
      if built.None? {
        return None;
      }
      packages := packages + [built.value];
    }
    var unsorted := FixtureSet(doc.id, doc.role, doc.revision, doc.vulnerable, packages);
    assert unsorted == UnsortedSet(c, s, id);
    forall i | 0 <= i < |packages|
      ensures VersionsParse(packages[i]) <==>
              forall ref :: ref in doc.packages[i].versions ==> Semver.Parse(ref.version).Some?
    {
      BuiltVersionsParse(c, s, doc.packages[i]);
    }
    r := Sort(unsorted);
    LoadsWhenVersionsParse(c, s, id, unsorted);
  }

  lemma LoadsWhenVersionsParse(c: PkgArchive.Codec, s: Store, id: string, set_: FixtureSet)
    requires id in s.registries && s.registries[id].id == id && set_ == UnsortedSet(c, s, id)
    requires s.registries[id].role == SourcePolicy.ROLE_PRIVATE || s.registries[id].role == SourcePolicy.ROLE_PUBLIC
    requires forall p, ref :: p in s.registries[id].packages && ref in p.versions ==> GoodRef(c, s, p.name, ref)
    ensures (forall p :: p in set_.packages ==> VersionsParse(p)) <==> RegistryLoads(c, s, id)
  {
    var refs := s.registries[id].packages;
    forall p | p in refs ensures VersionsParse(BuiltPackage(c, s, p)) <==> GoodPackage(c, s, p) {
      BuiltVersionsParse(c, s, p);
    }
    assert forall i :: 0 <= i < |refs| ==>
      set_.packages[i] == BuiltPackage(c, s, refs[i]) && set_.packages[i] in set_.packages && refs[i] in refs;
    assert forall p :: p in set_.packages ==> exists i :: 0 <= i < |refs| && p == set_.packages[i];
  }

  /* What a registry serves is what its document says of it: its id, role, revision and label, and packages under the
     names it lists. */
  lemma LoadedSetIsDocument(c: PkgArchive.Codec, s: Store, id: string, set_: FixtureSet)
    requires RegistryLoads(c, s, id) && SortedSet(UnsortedSet(c, s, id), set_)
    ensures var doc := s.registries[id];
            && set_.id == id && set_.role == doc.role && set_.revision == doc.revision
            && set_.vulnerable == doc.vulnerable
            && multiset(Map((p: Package) => p.name, set_.packages)) ==
               multiset(Map((ref: PackageRef) => ref.name, doc.packages))
  {
    var docs, mapped := s.registries[id].packages, Map(SortVersions, UnsortedSet(c, s, id).packages);
    MapPermuted((p: Package) => p.name, set_.packages, mapped);
    assert Map((p: Package) => p.name, mapped) == Map((ref: PackageRef) => ref.name, docs);
  }

  // ----- what consistency asks -----

  ghost predicate DistinctUrls(s: Store)
  {
    && (forall id :: id in s.registries ==> s.registries[id].url != "")
    && (forall a, b :: a in s.registries && b in s.registries && s.registries[a].url == s.registries[b].url ==> a == b)
  }

  ghost predicate PackagesBuild(c: PkgArchive.Codec, s: Store)
  {
    forall dir :: dir in s.packages ==> PackageBytes(c, s, dir).Some?
  }

  /* The registry id serves this source, with the role it claims and the label its scenario carries. */
  ghost predicate ServedBy(c: PkgArchive.Codec, s: Store, scenario: Scenario, source: SourcePolicy.Source, id: string)
  {
    && id in s.registries && s.registries[id].url == source.url && RegistryLoads(c, s, id)
    && s.registries[id].role == source.role && (s.registries[id].vulnerable ==> scenario.vulnerable)
  }

  ghost predicate SourceServed(c: PkgArchive.Codec, s: Store, scenario: Scenario, source: SourcePolicy.Source)
  {
    exists id :: ServedBy(c, s, scenario, source, id)
  }

  /* The lock record is, byte for byte, an artifact this repository builds. */
  ghost predicate PinnedBy(c: PkgArchive.Codec, s: Store, record: Lockfile.Record, dir: string)
  {
    && dir in s.packages && PackageBytes(c, s, dir).Some?
    && s.packages[dir].manifest.name == record.name && s.packages[dir].manifest.version == record.version
    && |PackageBytes(c, s, dir).value| == record.size && c.digest(PackageBytes(c, s, dir).value) == record.sha256
  }

  ghost predicate DependencyAgrees(c: PkgArchive.Codec, s: Store, policy: SourcePolicy.Policy, lock: Lockfile.Lock,
                                   dep: BuildManifest.Dependency)
  {
    && Lockfile.Binding(lock, dep.alias).Ok?
    && var record := Lockfile.Binding(lock, dep.alias).value;
    && record.name == dep.name
    && SourcePolicy.ValidPolicy(policy) && |SourcePolicy.Matching(policy, dep.name)| == 1
    && var decision := SourcePolicy.Decide(policy, SourcePolicy.Matching(policy, dep.name)[0], dep.name);
    && (decision.mode == SourcePolicy.MODE_EXCLUSIVE ==> decision.bound.id == record.source)
    && exists dir :: PinnedBy(c, s, record, dir)
  }

  ghost predicate ScenarioAgrees(c: PkgArchive.Codec, s: Store, scenario: Scenario)
  {
    && (scenario.resolver == RESOLVER_SECURE || (scenario.resolver == RESOLVER_COMBINED_INDEX && scenario.vulnerable))
    && PolicyLoads(s, scenario.sourcePolicy) && ManifestLoads(s, scenario.manifest) && LockLoads(s, scenario.lock)
    && scenario.candidate in s.candidates
    && (forall source :: source in s.policies[scenario.sourcePolicy].sources ==> SourceServed(c, s, scenario, source))
    && (forall dep :: dep in s.manifests[scenario.manifest].dependencies ==>
          DependencyAgrees(c, s, s.policies[scenario.sourcePolicy], s.locks[scenario.lock], dep))
  }

  ghost predicate Consistent(c: PkgArchive.Codec, s: Store)
  {
    && DistinctUrls(s) && PackagesBuild(c, s)
    && s.scenarios != [] && DistinctBy((x: Scenario) => x.id, s.scenarios)
    && forall x :: x in s.scenarios ==> ScenarioAgrees(c, s, x)
  }

  // ----- ValidateConsistency as the source writes it -----

  datatype ArtifactInfo = ArtifactInfo(dir: string, name: string, version: string, size: int, sha256: string)

  ghost predicate Describes(c: PkgArchive.Codec, s: Store, a: ArtifactInfo)
  {
    && a.dir in s.packages && PackageBytes(c, s, a.dir).Some?
    && a.name == s.packages[a.dir].manifest.name && a.version == s.packages[a.dir].manifest.version
    && a.size == |PackageBytes(c, s, a.dir).value| && a.sha256 == c.digest(PackageBytes(c, s, a.dir).value)
  }

  /* One entry for each package directory, or nothing if any of them fails to build. */
  method Artifacts(c: PkgArchive.Codec, s: Store) returns (r: Option<seq<ArtifactInfo>>)
    ensures r.Some? <==> PackagesBuild(c, s)
    ensures r.Some? ==> forall a :: a in r.value <==> Describes(c, s, a)
  {
    var out: seq<ArtifactInfo> := [];
    var dirs := s.packages.Keys;
    while dirs != {}
      invariant dirs <= s.packages.Keys
      invariant forall dir :: dir in s.packages && dir !in dirs ==> PackageBytes(c, s, dir).Some?
      invariant forall a :: a in out <==> Describes(c, s, a) && a.dir !in dirs
      decreases dirs
    {
      var dir :| dir in dirs;
      var raw := BuildPackage(c, s, dir);
      if raw.None? {
        return None;
      }
      var manifest := s.packages[dir].manifest;
      out := out + [ArtifactInfo(dir, manifest.name, manifest.version, |raw.value|, c.digest(raw.value))];
      dirs := dirs - {dir};
    }
    r := Some(out);
  }

  /* Which registry each url belongs to. */
  method IndexUrls(s: Store) returns (r: Option<map<string, string>>)
    ensures r.Some? <==> DistinctUrls(s)
    ensures r.Some? ==> forall url, id :: (url in r.value && r.value[url] == id) <==>
            (id in s.registries && s.registries[id].url == url)
  {
    var byUrl: map<string, string> := map[];
    var ids := s.registries.Keys;
    while ids != {}
      invariant ids <= s.registries.Keys
      invariant forall id :: id in s.registries && id !in ids ==>
                s.registries[id].url != "" && s.registries[id].url in byUrl && byUrl[s.registries[id].url] == id
      invariant forall url :: url in byUrl ==>
                  byUrl[url] in s.registries && byUrl[url] !in ids && s.registries[byUrl[url]].url == url
      decreases ids
    {
      var id :| id in ids;
      var url := s.registries[id].url;
      if url == "" || url in byUrl {
        return None;
      }
      byUrl := byUrl[url := id];
      ids := ids - {id};
    }
    r := Some(byUrl);
  }

  method CheckSource(c: PkgArchive.Codec, s: Store, scenario: Scenario, byUrl: map<string, string>,
                     source: SourcePolicy.Source)
    returns (ok: bool)
    requires forall url, id :: (url in byUrl && byUrl[url] == id) <==>
             (id in s.registries && s.registries[id].url == url)
    ensures ok <==> SourceServed(c, s, scenario, source)
  {
    if source.url !in byUrl {
      return false;
    }
    var id := byUrl[source.url];
    assert forall other :: ServedBy(c, s, scenario, source, other) ==> other == id;
    var set_ := LoadRegistrySet(c, s, id);
    if set_.None? {
      return false;
    }
    ok := set_.value.role == source.role && (set_.value.vulnerable ==> scenario.vulnerable);
    assert ok <==> ServedBy(c, s, scenario, source, id);
  }

  method CheckDependency(c: PkgArchive.Codec, s: Store, policy: SourcePolicy.Policy, lock: Lockfile.Lock,
                         built: seq<ArtifactInfo>, dep: BuildManifest.Dependency)
    returns (ok: bool)
    requires SourcePolicy.ValidPolicy(policy)
    requires forall a :: a in built <==> Describes(c, s, a)
    ensures ok <==> DependencyAgrees(c, s, policy, lock, dep)
  {
    var found := Lockfile.FindRecord(lock, dep.alias);
    if found.Err? {
      return false;
    }
    var record := found.value;
    if record.name != dep.name {
      return false;
    }
    var decision := SourcePolicy.Resolve(policy, dep.name);
    if decision.Err? {
      return false;
    }
    if decision.value.mode == SourcePolicy.MODE_EXCLUSIVE && decision.value.bound.id != record.source {
      return false;
    }
    var matched := FindPinned(c, s, built, record);
    ok := matched;
  }

  method FindPinned(c: PkgArchive.Codec, s: Store, built: seq<ArtifactInfo>, record: Lockfile.Record)
    returns (matched: bool)
    requires forall a :: a in built <==> Describes(c, s, a)
    ensures matched <==> exists dir :: PinnedBy(c, s, record, dir)
  {
    matched := false;
    for i := 0 to |built|
      invariant !matched
      invariant forall k :: 0 <= k < i ==> !PinnedBy(c, s, record, built[k].dir)
    {
      var a := built[i];
      assert a in built && Describes(c, s, a);
      if a.name == record.name && a.version == record.version && a.size == record.size && a.sha256 == record.sha256 {
        assert PinnedBy(c, s, record, a.dir);
        return true;
      }
    }
    PinnedIsListed(c, s, built, record);
  }

  lemma PinnedIsListed(c: PkgArchive.Codec, s: Store, built: seq<ArtifactInfo>, record: Lockfile.Record)
    requires forall a :: a in built <==> Describes(c, s, a)
    ensures forall dir :: PinnedBy(c, s, record, dir) ==> exists k :: 0 <= k < |built| && built[k].dir == dir
  {
    forall dir | PinnedBy(c, s, record, dir) ensures exists k :: 0 <= k < |built| && built[k].dir == dir {
      var a := ArtifactInfo(dir, record.name, record.version, record.size, record.sha256);
      assert Describes(c, s, a) && a in built;
    }
  }

  method CheckScenario(c: PkgArchive.Codec, s: Store, scenario: Scenario, byUrl: map<string, string>,
                       built: seq<ArtifactInfo>)
    returns (ok: bool)
    requires forall url, id :: (url in byUrl && byUrl[url] == id) <==>
             (id in s.registries && s.registries[id].url == url)
    requires forall a :: a in built <==> Describes(c, s, a)
    ensures ok <==> ScenarioAgrees(c, s, scenario)
  {
    if scenario.resolver == RESOLVER_COMBINED_INDEX {
      if !scenario.vulnerable {
        return false;
      }
    } else if scenario.resolver != RESOLVER_SECURE {
      return false;
    }
    var policy := LoadPolicy(s, scenario.sourcePolicy);
    if policy.None? {
      return false;
    }
    var manifest := LoadManifest(s, scenario.manifest);
    if manifest.None? {
      return false;
    }
    var lock := LoadLock(s, scenario.lock);
    if lock.None? || scenario.candidate !in s.candidates {
      return false;
    }
    ok := CheckSources(c, s, scenario, byUrl, policy.value.sources);
    if ok {
      ok := CheckDependencies(c, s, policy.value, lock.value, built, manifest.value.dependencies);
    }
  }

  method CheckSources(c: PkgArchive.Codec, s: Store, scenario: Scenario, byUrl: map<string, string>,
                      sources: seq<SourcePolicy.Source>)
    returns (ok: bool)
    requires forall url, id :: (url in byUrl && byUrl[url] == id) <==>
             (id in s.registries && s.registries[id].url == url)
    ensures ok <==> forall source :: source in sources ==> SourceServed(c, s, scenario, source)
  {
    for i := 0 to |sources|
      invariant forall k :: 0 <= k < i ==> SourceServed(c, s, scenario, sources[k])
    {
      var served := CheckSource(c, s, scenario, byUrl, sources[i]);
      if !served {
        assert sources[i] in sources;
        return false;
      }
    }
    ok := true;
  }

  method CheckDependencies(c: PkgArchive.Codec, s: Store, policy: SourcePolicy.Policy, lock: Lockfile.Lock,
                           built: seq<ArtifactInfo>, deps: seq<BuildManifest.Dependency>)
    returns (ok: bool)
    requires SourcePolicy.ValidPolicy(policy)
    requires forall a :: a in built <==> Describes(c, s, a)
    ensures ok <==> forall dep :: dep in deps ==> DependencyAgrees(c, s, policy, lock, dep)
  {
    for i := 0 to |deps|
      invariant forall k :: 0 <= k < i ==> DependencyAgrees(c, s, policy, lock, deps[k])
    {
      var agrees := CheckDependency(c, s, policy, lock, built, deps[i]);
      if !agrees {
        assert deps[i] in deps;
        return false;
      }
    }
    ok := true;
  }

  method ValidateConsistency(c: PkgArchive.Codec, s: Store) returns (ok: bool)
    ensures ok <==> Consistent(c, s)
  {
    var byUrl := IndexUrls(s);
    if byUrl.None? {
      return false;
    }
    var built := Artifacts(c, s);
    if built.None? {
      return false;
    }
    if |s.scenarios| == 0 {
      return false;
    }
    ok := CheckScenarios(c, s, s.scenarios, byUrl.value, built.value);
  }

  method CheckScenarios(c: PkgArchive.Codec, s: Store, scenarios: seq<Scenario>, byUrl: map<string, string>,
                        built: seq<ArtifactInfo>)
    returns (ok: bool)
    requires forall url, id :: (url in byUrl && byUrl[url] == id) <==>
             (id in s.registries && s.registries[id].url == url)
    requires forall a :: a in built <==> Describes(c, s, a)
    ensures ok <==>
            DistinctBy((x: Scenario) => x.id, scenarios) && forall x :: x in scenarios ==> ScenarioAgrees(c, s, x)
  {
    var seen: set<string> := {};
    for i := 0 to |scenarios|
      invariant forall id :: id in seen <==> exists k :: 0 <= k < i && scenarios[k].id == id
      invariant forall j, k :: 0 <= j < k < i ==> scenarios[j].id != scenarios[k].id
      invariant forall k :: 0 <= k < i ==> ScenarioAgrees(c, s, scenarios[k])
    {
      var scenario := scenarios[i];
      assert scenario in scenarios;
      if scenario.id in seen {
        return false;
      }
      seen := seen + {scenario.id};
      var agrees := CheckScenario(c, s, scenario, byUrl, built);
      if !agrees {
        return false;
      }
    }
    ok := true;
  }
}
