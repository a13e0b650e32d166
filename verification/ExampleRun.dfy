/**
 One small secure run, complete down to its archive: it approves a candidate. Beside it stand the runs
 that show how an approval can go unrecorded and a failure unreported.
 */
module ExampleRun {
  import opened Prelude
  import opened Network
  import opened Audit
  import opened Fixtures
  import opened Ledger
  import opened Resolver
  import opened ReleaseGate
  import opened BuildLaws
  import opened GateLaws
  import RunHistory
  import BuildManifest
  import Lockfile
  import PkgArchive
  import Semver
  import SourcePolicy

  const VERSION := Semver.Version(1, 0, 0)
  const BODY: Bytes := [0]
  const CANDIDATE := "MODEL-CANDIDATE-17"

  const SOURCE := SourcePolicy.Source("s", SourcePolicy.ROLE_PRIVATE, "u")
  const MAPPING := SourcePolicy.Mapping("n", SourcePolicy.MODE_EXCLUSIVE, "s", [])
  const POLICY := SourcePolicy.Policy(SourcePolicy.POLICY_FORMAT, [SOURCE], [MAPPING])
  const RANGE := Semver.Range(Semver.Exact, VERSION)
  const DEPENDENCY := BuildManifest.Dependency(ALIAS_RELEASE_POLICY, "n", Semver.SpellRange(RANGE))
  const MANIFEST := BuildManifest.Manifest(BuildManifest.MANIFEST_FORMAT, "p", [DEPENDENCY])
  const LOCKED := Lockfile.Record(
    ALIAS_RELEASE_POLICY, "n", Semver.Spell(VERSION), "s", 1, "d", PkgArchive.MANIFEST_FORMAT)
  const LOCK := Lockfile.Lock(Lockfile.LOCK_FORMAT, [LOCKED])

  const PACKAGE := PkgArchive.Package(
    PkgArchive.Manifest(PkgArchive.MANIFEST_FORMAT, "n", Semver.Spell(VERSION)),
    PkgArchive.Policy(
      PkgArchive.POLICY_FORMAT, PkgArchive.KIND_RELEASE_POLICY,
      [PkgArchive.PolicyEntry(CANDIDATE, PkgArchive.VERDICT_APPROVE)]))
  const STREAM := PkgArchive.TarStream(
    [PkgArchive.TarEntry(PkgArchive.CanonicalHeader(PkgArchive.MANIFEST_ENTRY, 1), Some(BODY)),
     PkgArchive.TarEntry(PkgArchive.CanonicalHeader(PkgArchive.POLICY_ENTRY, 1), Some(BODY))],
    true)

  /* A codec under which every archive is the one package. */
  const CODEC := PkgArchive.Codec(
    _ => "d", _ => BODY, _ => STREAM, _ => BODY, _ => Some(PACKAGE.manifest), _ => BODY, _ => Some(PACKAGE.policy))

  /* A world in which every source lists and serves it. */
  const WORLD := World(
    (_, _) => true,
    (_, _, _) => Answer(Metadata("", "", "", "n", [VersionInfo(Semver.Spell(VERSION), 1, "d")])),
    (_, _, _, _) => Answer(BODY))

  const STORE := Store(map["p" := POLICY], map["m" := MANIFEST], map["l" := LOCK], {CANDIDATE}, [], [], map[], map[])

  /* The run under a scenario id and a leak filter. */
  function Example(text: Text, id: string): Run
  {
    var scenario := Scenario(id, "", RESOLVER_SECURE, "p", "m", "l", CANDIDATE, false);
    Run(Host(CODEC, _ => BODY, text), STORE, scenario, false, WORLD, [])
  }

  lemma DocumentsAreValid()
    ensures SourcePolicy.ValidPolicy(POLICY) && BuildManifest.ValidManifest(MANIFEST) && Lockfile.ValidLock(LOCK)
    ensures Semver.Parse(Semver.Spell(VERSION)) == Some(VERSION)
    ensures Semver.ParseRange(DEPENDENCY.range) == Some(RANGE)
  {
    Semver.VersionBijection(Semver.Spell(VERSION), VERSION);
    Semver.RangeBijection(DEPENDENCY.range, RANGE);
    assert SOURCE in POLICY.sources && SourcePolicy.Declares(POLICY.sources, "s");
  }

  lemma PackageParses(raw: Bytes)
    requires |raw| <= PkgArchive.MAX_ARCHIVE_SIZE
    ensures PkgArchive.ParseArchive(CODEC, raw) == Ok(PACKAGE)
  {
    DocumentsAreValid();
    PkgArchive.ParseAcceptsExactly(CODEC, raw, PACKAGE);
  }

  lemma DecisionAndLock()
    ensures SourcePolicy.Matching(POLICY, "n") == POLICY.mappings
    ensures SourcePolicy.Decide(POLICY, POLICY.mappings[0], "n").bound == SOURCE
    ensures Lockfile.RecordsFor(LOCK, ALIAS_RELEASE_POLICY) == [LOCKED]
  {
    FilterSingle((m: SourcePolicy.Mapping) => SourcePolicy.Matches(m.pattern, "n"), POLICY.mappings[0]);
    FilterSingle((r: Lockfile.Record) => r.alias == ALIAS_RELEASE_POLICY, LOCKED);
  }

  lemma ExampleResolves(x: Inputs)
    requires x.codec == CODEC && x.cfg == Config(POLICY, LOCK) && x.dep == DEPENDENCY && x.world == WORLD
    ensures FailureOf(x) == None && Resolver.Outcome(x).record.pkg == Some(PACKAGE)
  {
    DocumentsAreValid();
    DecisionAndLock();
    PackageParses(BODY);
    AcceptsExactly(x);
    assert x.MetadataReply().value.versions[0].version == x.Locked().version;
    assert Acceptable(x);
    AcceptedPackage(x);
  }

  lemma ExampleStarts(text: Text, id: string)
    ensures ManifestLoads(STORE, "m") && Starts(Example(text, id), Missing)
    ensures JobOf(Example(text, id)) == Job(CODEC, POLICY, LOCK, true, WORLD)
  {
    DocumentsAreValid();
  }

  lemma OneDependencyBuilds(job: Job, dep: BuildManifest.Dependency, before: seq<Call>)
    requires ResolveOne(job, dep, before).failure == None
    ensures var r := ResolveOne(job, dep, before); Build(job, [dep], before) == Built([r.record], None, r.calls)
  {
    var r := ResolveOne(job, dep, before);
    assert [dep][1..] == [];
    assert Build(job, [], before + r.calls) == Built([], None, []);
  }

  lemma ExampleBuilds(text: Text, id: string)
    ensures ManifestLoads(STORE, "m") && Starts(Example(text, id), Missing)
    ensures var b := BuiltBy(Example(text, id));
            && b.stopped == None && |b.resolutions| == 1
            && b.resolutions[0].alias == ALIAS_RELEASE_POLICY && b.resolutions[0].pkg == Some(PACKAGE)
  {
    ExampleStarts(text, id);
    var job := Job(CODEC, POLICY, LOCK, true, WORLD);
    ExampleResolves(DepInputs(job, DEPENDENCY, []));
    OneDependencyBuilds(job, DEPENDENCY, []);
    ResolutionAnswers(job, DEPENDENCY, []);
  }

  /* The run approves its candidate, under every scenario id and every leak filter. */
  lemma ExampleApproves(text: Text, id: string)
    ensures ApprovesFresh(Example(text, id), Missing)
  {
    ExampleBuilds(text, id);
    EffectWhenStarted(Example(text, id), Missing);
    var res := BuiltBy(Example(text, id)).resolutions;
    assert WithAlias(res, ALIAS_RELEASE_POLICY) == Some(res[0]);
  }

  /* Without a scenario id it leaves an orphan: a row in the ledger, no record in the audit log, no outcome. */
  lemma ExampleOrphans(text: Text)
    ensures var e := EffectOf(Example(text, ""), Missing);
            e.result == Aborted(AuditRefused) && e.records == [] && |Rows(e.ledger)| == 1
  {
    ExampleApproves(text, "x");
    RunHistory.RefusedIdLeavesOrphan(Example(text, "x"), Missing, "");
    assert RunHistory.Relabelled(Example(text, "x"), "") == Example(text, "");
  }

  /* With its dependency renamed to an alias the log refuses it fails without an outcome. */
  lemma ExampleFailsSilently(text: Text, id: string, alias: string)
    requires SpeaksCleanly(text) && !text.clean(alias)
    ensures ManifestLoads(STORE, "m")
    ensures var e := EffectOf(Renamed(Example(text, id), alias), Missing);
            e.result == Aborted(AuditRefused) && e.records == [] && Rows(e.ledger) == []
  {
    ExampleBuilds(text, id);
    UnreportableAliasFailsSilently(Example(text, id), Missing, alias);
  }

  /* About a candidate the log refuses its build finishes and it ends without an outcome. */
  lemma ExampleEndsSilently(text: Text, id: string, candidate: string)
    requires SpeaksCleanly(text) && !text.clean(candidate)
    ensures var r := Recandidated(Example(text, id), candidate);
            && Starts(r, Missing) && BuiltBy(r).stopped == None
            && var e := EffectOf(r, Missing);
            e.result == Aborted(AuditRefused) && e.records == [] && Rows(e.ledger) == []
  {
    ExampleBuilds(text, id);
    EffectWhenStarted(Example(text, id), Missing);
    var res := BuiltBy(Example(text, id)).resolutions;
    assert WithAlias(res, ALIAS_RELEASE_POLICY) == Some(res[0]);
    RefusedCandidateEndsSilently(Example(text, id), Missing, candidate);
  }

  /* A leak filter that refuses one word, and passes all the program's own. */
  const REFUSING := Text((s: string) => s != "secret", (_: string) => "c")

  lemma RefusingSpeaksCleanly()
    ensures SpeaksCleanly(REFUSING) && !REFUSING.clean("secret")
  {
    forall key | PkgArchive.AcceptedValues(PkgArchive.KIND_RELEASE_POLICY, key) != [] ensures REFUSING.clean(key) {
      assert |key| == 18;
    }
  }

  /* Under that filter, whatever the scenario id: the word as an alias stops the build, as a candidate it does not,
     and either way the run leaves no row, no record and no outcome. */
  lemma ExampleRefusals(id: string)
    ensures ManifestLoads(STORE, "m")
    ensures EffectOf(Renamed(Example(REFUSING, id), "secret"), Missing).result == Aborted(AuditRefused)
    ensures EffectOf(Recandidated(Example(REFUSING, id), "secret"), Missing).result == Aborted(AuditRefused)
  {
    RefusingSpeaksCleanly();
    ExampleFailsSilently(REFUSING, id, "secret");
    ExampleEndsSilently(REFUSING, id, "secret");
  }
}
