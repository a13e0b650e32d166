/** internal/resolver: the secure, fail-closed resolver. */
module Resolver {
  import opened Prelude
  import opened Network
  import opened SourcePolicy
  import opened BuildManifest
  import opened Lockfile
  import PkgArchive
  import Semver
  import Sorting

  /* Stages of resolution, and of the gate's evaluation after it. */
  datatype Stage =
    | SourcePolicyStage | LockStage | RegistryQueryStage | ArtifactFetchStage | IntegrityStage | ArtifactParseStage
    | PolicyEvaluationStage

  /* Stable failure classes of both resolvers and of the gate. */
  datatype Class =
    | SourcePolicyUnresolved | SourcePolicyAmbiguous | SourcePolicyInvalid | SourcePolicyNotExclusive
    | LockMissing | LockDuplicate | LockInvalid | LockSourceMismatch | LockNameMismatch | LockRangeConflict
    | RegistryUnavailable | ArtifactUnavailable | ArtifactSizeMismatch | ArtifactDigestMismatch | ArtifactMalformed
    | ManifestMismatch | NoCompatibleCandidate | PolicyCandidateUnknown | PolicyKindUnexpected

  datatype Failure = Failure(class_: Class, stage: Stage)

  /* The rule a resolver prints: the locked version of the bound source, or the highest of a pool. */
  datatype SelectionRule = LockedVersion | HighestVersion

  /* Empty until bytes have been compared, or computed and compared with nothing. */
  datatype Integrity = NoVerdict | Verified | Unverified

  datatype Candidate = Candidate(source: string, name: string, version: string, size: int, sha256: string)

  const NO_CANDIDATE := Candidate("", "", "", 0, "")

  datatype Resolution = Resolution(
    alias: string, name: string, range: string, displayOrder: seq<string>, policy: Decision,
    queried: seq<string>, excluded: seq<string>, candidates: seq<Candidate>, selectionRule: SelectionRule,
    selected: Candidate, locked: Record, size: int, digest: string, integrity: Integrity,
    pkg: Option<PkgArchive.Package>)

  datatype Config = Config(policy: Policy, lock: Lock)

  function NewResolution(dep: Dependency, rule: SelectionRule): Resolution
  {
    Resolution(dep.alias, dep.name, dep.range, [], NO_DECISION, [], [], [], rule, NO_CANDIDATE, NO_RECORD, 0, "",
               NoVerdict, None)
  }

  function SourceIds(sources: seq<Source>): seq<string>
  {
    Map((s: Source) => s.id, sources)
  }

  // ----- candidate order -----

  predicate CandidateLess(a: Candidate, b: Candidate)
  {
    var c := Semver.Compare(Semver.VersionOf(a.version), Semver.VersionOf(b.version));
    c > 0 || (c == 0 && StringLess(a.source, b.source))
  }

  lemma CandidateLessIsOrder()
    ensures Sorting.StrictWeakOrder(CandidateLess)
  {
    forall x: Candidate, y: Candidate, z: Candidate
      ensures !CandidateLess(x, x)
      ensures CandidateLess(x, y) && CandidateLess(y, z) ==> CandidateLess(x, z)
      ensures !CandidateLess(x, y) && !CandidateLess(y, z) ==> !CandidateLess(x, z)
    {
      OrderSteps(Semver.VersionOf(x.version), x.source, Semver.VersionOf(y.version), y.source,
                 Semver.VersionOf(z.version), z.source);
    }
  }

  predicate Before(v: Semver.Version, s: string, w: Semver.Version, t: string)
  {
    Semver.Compare(v, w) > 0 || (Semver.Compare(v, w) == 0 && StringLess(s, t))
  }

  lemma OrderSteps(u: Semver.Version, r: string, v: Semver.Version, s: string, w: Semver.Version, t: string)
    ensures !Before(u, r, u, r)
    ensures Before(u, r, v, s) && Before(v, s, w, t) ==> Before(u, r, w, t)
    ensures !Before(u, r, v, s) && !Before(v, s, w, t) ==> !Before(u, r, w, t)
  {
    StringLessTrichotomy(r, r);
    StringLessTrichotomy(r, s);
    StringLessTrichotomy(s, t);
    StringLessTrichotomy(r, t);
    if StringLess(r, s) && StringLess(s, t) {
      StringLessTransitive(r, s, t);
    }
    if StringLess(t, s) && StringLess(s, r) {
      StringLessTransitive(t, s, r);
    }
  }

  function Offered(source: string, name: string, v: VersionInfo): Candidate
  {
    Candidate(source, name, v.version, v.size, v.sha256)
  }

  /* What a source lists within the version model, in the source's own order. */
  function Parsable(versions: seq<VersionInfo>): seq<VersionInfo>
  {
    Filter((v: VersionInfo) => Semver.Parse(v.version).Some?, versions)
  }

  function OrderedCandidates(source: string, meta: Metadata): seq<Candidate>
  {
    Sorting.StableSort(CandidateLess, Map((v: VersionInfo) => Offered(source, meta.name, v), Parsable(meta.versions)))
  }

  method OrderCandidates(source: string, meta: Metadata) returns (out: seq<Candidate>)
    ensures out == OrderedCandidates(source, meta)
  {
    out := [];
    var parsable := (v: VersionInfo) => Semver.Parse(v.version).Some?;
    ghost var kept: seq<VersionInfo> := [];
    for i := 0 to |meta.versions|
      invariant kept == Filter(parsable, meta.versions[..i])
      invariant out == Map((v: VersionInfo) => Offered(source, meta.name, v), kept)
    {
      var v := meta.versions[i];
      FilterSnoc(parsable, meta.versions[..i], v);
      assert meta.versions[..i + 1] == meta.versions[..i] + [v];
      var version := Semver.ParseVersion(v.version);
      if version.Some? {
        kept := kept + [v];
        out := out + [Offered(source, meta.name, v)];
      }
    }
    assert meta.versions[..|meta.versions|] == meta.versions;
    out := Sorting.StableSort(CandidateLess, out);
  }

  function Listings(meta: Metadata, version: string): seq<VersionInfo>
  {
    Filter((v: VersionInfo) => v.version == version, meta.versions)
  }

  lemma {:induction false} ListingsOffered(source: string, name: string, versions: seq<VersionInfo>, version: string)
    requires Semver.Parse(version).Some?
    ensures Filter((c: Candidate) => c.version == version,
                   Map((v: VersionInfo) => Offered(source, name, v), Parsable(versions))) ==
            Map((v: VersionInfo) => Offered(source, name, v),
                Filter((v: VersionInfo) => v.version == version, versions))
  {
    if versions != [] {
      var v, tail := versions[0], versions[1..];
      ListingsOffered(source, name, tail, version);
      var offer := (v: VersionInfo) => Offered(source, name, v);
      if Semver.Parse(v.version).Some? {
        assert Map(offer, Parsable(versions))[1..] == Map(offer, Parsable(tail));
      }
    }
  }

  lemma TiedIffSameVersion(a: Candidate, b: Candidate)
    requires Semver.Parse(a.version).Some? && Semver.Parse(b.version).Some? && a.source == b.source
    ensures Sorting.Equivalent(CandidateLess, a, b) <==> b.version == a.version
  {
    StringLessTrichotomy(a.source, b.source);
    Semver.SpellingIsIdentity(a.version, b.version);
    Semver.CompareIsTotalOrder(Semver.VersionOf(a.version), Semver.VersionOf(b.version), Semver.VersionOf(a.version));
  }

  lemma VersionKeepsOrder(xs: seq<Candidate>, ys: seq<Candidate>, source: string, version: string)
    requires Semver.Parse(version).Some?
    requires forall c :: c in xs ==> c.source == source && Semver.Parse(c.version).Some?
    requires multiset(xs) == multiset(ys) && Sorting.SameClasses(CandidateLess, xs, ys)
    ensures Filter((c: Candidate) => c.version == version, xs) == Filter((c: Candidate) => c.version == version, ys)
  {
    var x := Candidate(source, "", version, 0, "");
    forall c | c in xs ensures Sorting.Equivalent(CandidateLess, x, c) <==> c.version == version {
      TiedIffSameVersion(x, c);
    }
    PermutedMembers(ys, xs);
    var tied, same := (c: Candidate) => Sorting.Equivalent(CandidateLess, x, c), (c: Candidate) => c.version == version;
    FilterSame(tied, same, xs);
    FilterSame(tied, same, ys);
    assert Sorting.Class(CandidateLess, x, xs) == Sorting.Class(CandidateLess, x, ys);
  }

  /* Among the ordered candidates of one source, those of one version are the source's listings
     of that version in the source's order. */
  lemma CandidatesOfVersion(source: string, meta: Metadata, version: string)
    requires Semver.Parse(version).Some?
    ensures Filter((c: Candidate) => c.version == version, OrderedCandidates(source, meta)) ==
            Map((v: VersionInfo) => Offered(source, meta.name, v), Listings(meta, version))
  {
    var unsorted := Map((v: VersionInfo) => Offered(source, meta.name, v), Parsable(meta.versions));
    CandidateLessIsOrder();
    Sorting.StableSortCorrect(CandidateLess, unsorted);
    FilterMembers((v: VersionInfo) => Semver.Parse(v.version).Some?, meta.versions);
    forall c | c in unsorted ensures c.source == source && Semver.Parse(c.version).Some? {
      var i :| 0 <= i < |unsorted| && unsorted[i] == c;
      assert Parsable(meta.versions)[i] in Parsable(meta.versions);
    }
    VersionKeepsOrder(unsorted, OrderedCandidates(source, meta), source, version);
    ListingsOffered(source, meta.name, meta.versions, version);
  }

  // ----- the 22 checks of a resolution -----

  const CHECKS := 22

  /* Everything one resolution can depend on. */
  datatype Inputs = Inputs(codec: PkgArchive.Codec, cfg: Config, dep: Dependency, world: World, before: seq<Call>)
  {
    /* The decision for the name, once exactly one mapping matches it. */
    function Decision(): SourcePolicy.Decision
    {
      var matched := Matching(cfg.policy, dep.name);
      if |matched| == 1 then Decide(cfg.policy, matched[0], dep.name) else NO_DECISION
    }

    function Bound(): Source
    {
      Decision().bound
    }

    /* The record for the alias, once the lock has exactly one. */
    function Locked(): Record
    {
      var found := RecordsFor(cfg.lock, dep.alias);
      if |found| == 1 then found[0] else NO_RECORD
    }

    function MetadataRequest(): Call
    {
      MetadataCall(Bound(), dep.name)
    }

    function ArtifactRequest(): Call
    {
      ArtifactCall(Bound(), dep.name, Locked().version)
    }

    function MetadataReply(): Reply<Metadata>
    {
      world.metadata(before, Bound(), dep.name)
    }

    function ArtifactReply(): Reply<Bytes>
    {
      world.artifact(before + [MetadataRequest()], Bound(), dep.name, Locked().version)
    }

    predicate Lists(version: string)
    {
      && MetadataReply().Answer?
      && exists i :: 0 <= i < |MetadataReply().value.versions| && MetadataReply().value.versions[i].version == version
    }

    predicate InRange()
    {
      && Semver.ParseRange(dep.range).Some? && Semver.Parse(Locked().version).Some?
      && Semver.Satisfies(Semver.ParseRange(dep.range).value, Semver.Parse(Locked().version).value)
    }

    predicate Identified(r: Result<PkgArchive.Package, PkgArchive.ArchiveError>)
    {
      r.Ok? && r.value.manifest.name == dep.name && r.value.manifest.version == Locked().version
    }

    /* Whether the policy decides the name, exclusively. */
    ghost predicate PolicyHolds(i: nat)
    {
      match i
      case 0 => ValidPolicy(cfg.policy)
      case 1 => |Matching(cfg.policy, dep.name)| >= 1
      case 2 => |Matching(cfg.policy, dep.name)| <= 1
      case _ => Decision().mode == MODE_EXCLUSIVE
    }

    /* Whether the lock agrees with the policy and the declared range. */
    ghost predicate LockHolds(i: nat)
    {
      match i
      case 4 => ValidLock(cfg.lock)
      case 5 => |RecordsFor(cfg.lock, dep.alias)| >= 1
      case 6 => |RecordsFor(cfg.lock, dep.alias)| <= 1
      case 7 => Locked().name == dep.name
      case 8 => Locked().source == Bound().id
      case 9 => Semver.ParseRange(dep.range).Some?
      case 10 => Semver.Parse(Locked().version).Some?
      case _ => InRange()
    }

    /* Whether the bound source lists the locked version. */
    ghost predicate QueryHolds(i: nat)
    {
      match i
      case 12 => world.dials(before, Bound())
      case 13 => MetadataReply() != NotFound
      case 14 => MetadataReply().Answer?
      case _ => Lists(Locked().version)
    }

    /* Whether its artifact is what the lock pins and what it claims to be. */
    ghost predicate ArtifactHolds(i: nat)
    {
      match i
      case 16 => ArtifactReply() != NotFound
      case 17 => ArtifactReply().Answer?
      case 18 => ArtifactReply().Answer? && |ArtifactReply().value| == Locked().size
      case 19 => ArtifactReply().Answer? && codec.digest(ArtifactReply().value) == Locked().sha256
      case 20 => ArtifactReply().Answer? && PkgArchive.ParseArchive(codec, ArtifactReply().value).Ok?
      case _ => ArtifactReply().Answer? && Identified(PkgArchive.ParseArchive(codec, ArtifactReply().value))
    }

    ghost predicate Holds(i: nat)
    {
      if i < 4 then PolicyHolds(i)
      else if i < 12 then LockHolds(i)
      else if i < 16 then QueryHolds(i)
      else if i < CHECKS then ArtifactHolds(i)
      else true
    }

    /* The checks made before check k all hold, and k, if it is one, does not. */
    ghost predicate StopsAt(k: nat)
    {
      k <= CHECKS && Holding(this, 0, k) && (k < CHECKS ==> !Holds(k))
    }

    /* The record as far as a resolution stopped at check k has written it. */
    function RecordAt(k: nat): Resolution
    {
      var meta := if MetadataReply().Answer? then MetadataReply().value else Metadata("", "", "", "", []);
      var raw := if ArtifactReply().Answer? then ArtifactReply().value else [];
      var listed := Listings(meta, Locked().version);
      NewResolution(dep, LockedVersion).(
        displayOrder := if k > 0 then SourceIds(cfg.policy.sources) else [],
        policy := if k > 3 then Decision() else NO_DECISION,
        excluded := if k > 3 then SourceIds(Decision().excluded) else [],
        locked := if k > 6 then Locked() else NO_RECORD,
        queried := if k > 12 then [Bound().id] else [],
        candidates := if k > 14 then OrderedCandidates(Bound().id, meta) else [],
        selected := if k > 15 && listed != [] then Offered(Bound().id, meta.name, listed[0]) else NO_CANDIDATE,
        size := if k > 19 then |raw| else 0,
        digest := if k > 19 then codec.digest(raw) else "",
        integrity := if k > 19 then Verified else NoVerdict,
        pkg := if k > 21 then match PkgArchive.ParseArchive(codec, raw) case Ok(p) => Some(p) case Err(_) => None
               else None)
    }

    /* The requests made by a resolution stopped at check k. */
    function CallsAt(k: nat): seq<Call>
    {
      if k <= 12 then [] else if k <= 15 then [MetadataRequest()] else [MetadataRequest(), ArtifactRequest()]
    }
  }

  /* Checks lo up to hi all hold. */
  ghost predicate Holding(x: Inputs, lo: nat, hi: nat)
  {
    forall i: nat :: lo <= i < hi ==> x.Holds(i)
  }

  lemma HoldingMore(x: Inputs, lo: nat, hi: nat)
    requires Holding(x, lo, hi) && x.Holds(hi)
    ensures Holding(x, lo, hi + 1)
  {
  }

  /* A stage of up to four checks, one check at a time. */
  lemma HoldingByOne(x: Inputs, lo: nat)
    ensures Holding(x, lo, lo)
    ensures x.Holds(lo) ==> Holding(x, lo, lo + 1)
    ensures x.Holds(lo) && x.Holds(lo + 1) ==> Holding(x, lo, lo + 2)
    ensures x.Holds(lo) && x.Holds(lo + 1) && x.Holds(lo + 2) ==> Holding(x, lo, lo + 3)
    ensures x.Holds(lo) && x.Holds(lo + 1) && x.Holds(lo + 2) && x.Holds(lo + 3) ==> Holding(x, lo, lo + 4)
  {
  }

  function FailureAt(k: nat): Failure
  {
    match k
    case 0 => Failure(SourcePolicyInvalid, SourcePolicyStage)
    case 1 => Failure(SourcePolicyUnresolved, SourcePolicyStage)
    case 2 => Failure(SourcePolicyAmbiguous, SourcePolicyStage)
    case 3 => Failure(SourcePolicyNotExclusive, SourcePolicyStage)
    case 4 => Failure(LockInvalid, LockStage)
    case 5 => Failure(LockMissing, LockStage)
    case 6 => Failure(LockDuplicate, LockStage)
    case 7 => Failure(LockNameMismatch, LockStage)
    case 8 => Failure(LockSourceMismatch, LockStage)
    case 9 => Failure(LockRangeConflict, LockStage)
    case 10 => Failure(LockInvalid, LockStage)
    case 11 => Failure(LockRangeConflict, LockStage)
    case 12 => Failure(RegistryUnavailable, RegistryQueryStage)
    case 13 => Failure(ArtifactUnavailable, RegistryQueryStage)
    case 14 => Failure(RegistryUnavailable, RegistryQueryStage)
    case 15 => Failure(ArtifactUnavailable, RegistryQueryStage)
    case 16 => Failure(ArtifactUnavailable, ArtifactFetchStage)
    case 17 => Failure(RegistryUnavailable, ArtifactFetchStage)
    case 18 => Failure(ArtifactSizeMismatch, IntegrityStage)
    case 19 => Failure(ArtifactDigestMismatch, IntegrityStage)
    case 20 => Failure(ArtifactMalformed, ArtifactParseStage)
    case _ => Failure(ManifestMismatch, ArtifactParseStage)
  }

  /* The outcome of a resolution: its record, how it failed if it did, and what it asked. */
  datatype Resolved = Resolved(record: Resolution, failure: Option<Failure>, calls: seq<Call>)

  ghost function StopFrom(x: Inputs, i: nat): nat
    requires i <= CHECKS
    decreases CHECKS - i
  {
    if i == CHECKS || !x.Holds(i) then i else StopFrom(x, i + 1)
  }

  ghost function FailureOf(x: Inputs): Option<Failure>
  {
    var k := StopFrom(x, 0);
    if k == CHECKS then None else Some(FailureAt(k))
  }

  ghost function CallsOf(x: Inputs): seq<Call>
  {
    x.CallsAt(StopFrom(x, 0))
  }

  ghost function Outcome(x: Inputs): Resolved
  {
    Resolved(x.RecordAt(StopFrom(x, 0)), FailureOf(x), CallsOf(x))
  }

  lemma {:induction false} StopFromStops(x: Inputs, i: nat)
    requires i <= CHECKS && forall j: nat :: j < i ==> x.Holds(j)
    ensures x.StopsAt(StopFrom(x, i))
    decreases CHECKS - i
  {
    if i < CHECKS && x.Holds(i) {
      StopFromStops(x, i + 1);
    }
  }

  lemma StopIsFirstFailure(x: Inputs, k: nat)
    ensures x.StopsAt(k) <==> k == StopFrom(x, 0)
  {
    StopFromStops(x, 0);
  }

  // ----- Resolve as the source writes it, stage by stage -----

  /* A stage that starts at check lo and ends before check hi got as far as check k. */
  ghost predicate Reached(x: Inputs, lo: nat, hi: nat, k: nat, failure: Option<Failure>)
  {
    && lo <= k <= hi <= CHECKS
    && Holding(x, lo, k)
    && (k < hi ==> !x.Holds(k))
    && failure == if k < hi then Some(FailureAt(k)) else None
  }

  lemma GoesOn(x: Inputs, mid: nat, hi: nat, k: nat, failure: Option<Failure>)
    requires Reached(x, 0, mid, mid, None) && Reached(x, mid, hi, k, failure)
    ensures Reached(x, 0, hi, k, failure)
  {
  }

  lemma Finished(x: Inputs, hi: nat, k: nat, failure: Option<Failure>)
    requires Reached(x, 0, hi, k, failure) && (failure == None ==> hi == CHECKS)
    ensures StopFrom(x, 0) == k && FailureOf(x) == failure
  {
    StopIsFirstFailure(x, k);
  }

  /* Checks 0 to 3. The record gains the display order after check 0, decision and exclusions after check 3. */
  method ApplyPolicy(ghost x: Inputs, cfg: Config, dep: Dependency)
    returns (res: Resolution, decision: Decision, failure: Option<Failure>, ghost k: nat)
    requires x.cfg == cfg && x.dep == dep
    ensures Reached(x, 0, 4, k, failure) && res == x.RecordAt(k)
    ensures failure == None ==> decision == x.Decision()
  {
    HoldingByOne(x, 0);
    res, decision := NewResolution(dep, LockedVersion), NO_DECISION;
    var invalid := SourcePolicy.Validate(cfg.policy);
    if invalid.Some? {
      return res, decision, Some(Failure(SourcePolicyInvalid, SourcePolicyStage)), 0;
    }
    res := res.(displayOrder := SourceIds(cfg.policy.sources));
    var decided := SourcePolicy.Resolve(cfg.policy, dep.name);
    if decided.Err? {
      var class_ := SourcePolicyUnresolved;
      k := 1;
      if decided.error == AmbiguousMapping {
        class_ := SourcePolicyAmbiguous;
        k := 2;
      }
      return res, decision, Some(Failure(class_, SourcePolicyStage)), k;
    }
    decision := decided.value;
    if decision.mode != MODE_EXCLUSIVE {
      return res, decision, Some(Failure(SourcePolicyNotExclusive, SourcePolicyStage)), 3;
    }
    res := res.(policy := decision, excluded := SourceIds(decision.excluded));
    failure, k := None, 4;
  }

  /* Checks 4 to 8. The record gains the locked entry after check 6. */
  method ApplyLock(ghost x: Inputs, cfg: Config, dep: Dependency, decision: Decision, before: Resolution)
    returns (res: Resolution, record: Record, failure: Option<Failure>, ghost k: nat)
    requires x.cfg == cfg && x.dep == dep && decision == x.Decision() && before == x.RecordAt(4)
    ensures Reached(x, 4, 9, k, failure) && res == x.RecordAt(k)
    ensures failure == None ==> record == x.Locked()
  {
    HoldingByOne(x, 4);
    res, record := before, NO_RECORD;
    var found := FindRecord(cfg.lock, dep.alias);
    if found.Err? {
      var class_ := LockInvalid;
      k := 4;
      match found.error {
        case MissingRecord => class_, k := LockMissing, 5;
        case DuplicateRecord => class_, k := LockDuplicate, 6;
        case _ =>
      }
      return res, record, Some(Failure(class_, LockStage)), k;
    }
    record := found.value;
    res := res.(locked := record);
    if record.name != dep.name {
      return res, record, Some(Failure(LockNameMismatch, LockStage)), 7;
    }
    if record.source != decision.bound.id {
      return res, record, Some(Failure(LockSourceMismatch, LockStage)), 8;
    }
    HoldingMore(x, 4, 8);
    failure, k := None, 9;
  }

  lemma RangeLeavesRecord(x: Inputs, k: nat)
    requires 9 <= k <= 12
    ensures x.RecordAt(k) == x.RecordAt(9)
  {
  }

  /* The declared range and the locked version, read in that order. */
  method ReadRangeAndVersion(range: string, version: string)
    returns (r: Option<Semver.Range>, v: Option<Semver.Version>)
    ensures r == Semver.ParseRange(range) && (r.Some? ==> v == Semver.Parse(version))
  {
    v := None;
    r := Semver.ParseRangeText(range);
    if r.Some? {
      v := Semver.ParseVersion(version);
    }
  }

  /* Checks 9 to 11. The record gains nothing. */
  method CheckLockedRange(ghost x: Inputs, dep: Dependency, record: Record)
    returns (failure: Option<Failure>, ghost k: nat)
    requires x.dep == dep && record == x.Locked()
    ensures Reached(x, 9, 12, k, failure)
    ensures failure == None ==> Semver.Parse(record.version).Some?
  {
    HoldingByOne(x, 9);
    var depRange, lockedVersion := ReadRangeAndVersion(dep.range, record.version);
    if depRange.None? {
      return Some(Failure(LockRangeConflict, LockStage)), 9;
    }
    if lockedVersion.None? {
      return Some(Failure(LockInvalid, LockStage)), 10;
    }
    if !Semver.Satisfies(depRange.value, lockedVersion.value) {
      return Some(Failure(LockRangeConflict, LockStage)), 11;
    }
    failure, k := None, 12;
  }

  /* Checks 12 to 14. The record gains the queried source after check 12 and the candidates after check 14; a
     metadata request is made if check 12 holds. */
  method QueryBound(ghost x: Inputs, dep: Dependency, bound: Source, before: Resolution, net: Clients)
    returns (res: Resolution, meta: Reply<Metadata>, failure: Option<Failure>, ghost k: nat)
    requires x.dep == dep && bound == x.Bound()
    requires before == x.RecordAt(12) && x.world == net.world && x.before == net.calls
    modifies net
    ensures Reached(x, 12, 15, k, failure) && res == x.RecordAt(k)
    ensures net.calls == old(net.calls) + x.CallsAt(k)
    ensures failure == None ==> meta == x.MetadataReply() && meta.Answer?
  {
    HoldingByOne(x, 12);
    res, meta := before, Unavailable;
    var dialled := net.Dial(bound);
    if !dialled {
      return res, meta, Some(Failure(RegistryUnavailable, RegistryQueryStage)), 12;
    }
    res := res.(queried := [bound.id]);
    meta := net.FetchMetadata(bound, dep.name);
    if meta == NotFound {
      return res, meta, Some(Failure(ArtifactUnavailable, RegistryQueryStage)), 13;
    }
    if meta == Unavailable {
      return res, meta, Some(Failure(RegistryUnavailable, RegistryQueryStage)), 14;
    }
    var candidates := OrderCandidates(bound.id, meta.value);
    res := res.(candidates := candidates);
    failure, k := None, 15;
  }

  /* Check 15. The record gains the selected candidate. */
  method SelectLocked(ghost x: Inputs, bound: Source, meta: Metadata, record: Record, before: Resolution)
    returns (res: Resolution, failure: Option<Failure>, ghost k: nat)
    requires bound == x.Bound() && record == x.Locked() && Semver.Parse(record.version).Some?
    requires x.MetadataReply() == Answer(meta) && before == x.RecordAt(15)
    ensures Reached(x, 15, 16, k, failure) && res == x.RecordAt(k)
  {
    HoldingByOne(x, 15);
    res := before;
    var selected := SelectVersion(bound.id, meta, res.candidates, record.version);
    if selected.None? {
      return res, Some(Failure(ArtifactUnavailable, RegistryQueryStage)), 15;
    }
    res := res.(selected := selected.value);
    failure, k := None, 16;
  }

  /* Checks 16 to 19. One artifact request is made; the record gains size, digest and verdict after check 19. */
  method FetchLocked(ghost x: Inputs, codec: PkgArchive.Codec, dep: Dependency, bound: Source, record: Record,
                     before: Resolution, net: Clients)
    returns (res: Resolution, raw: Reply<Bytes>, failure: Option<Failure>, ghost k: nat)
    requires x.codec == codec && x.dep == dep && bound == x.Bound() && record == x.Locked()
    requires before == x.RecordAt(16) && x.world == net.world && x.before + [x.MetadataRequest()] == net.calls
    modifies net
    ensures Reached(x, 16, 20, k, failure) && res == x.RecordAt(k)
    ensures net.calls == old(net.calls) + [x.ArtifactRequest()]
    ensures failure == None ==> raw == x.ArtifactReply() && raw.Answer?
  {
    HoldingByOne(x, 16);
    res := before;
    raw := net.FetchArtifact(bound, dep.name, record.version);
    if raw == NotFound {
      return res, raw, Some(Failure(ArtifactUnavailable, ArtifactFetchStage)), 16;
    }
    if raw == Unavailable {
      return res, raw, Some(Failure(RegistryUnavailable, ArtifactFetchStage)), 17;
    }
    var refused := VerifyBytes(codec.digest, record, raw.value);
    if refused.Some? {
      var class_ := ArtifactDigestMismatch;
      k := 19;
      if refused.value == SizeMismatch {
        class_, k := ArtifactSizeMismatch, 18;
      }
      return res, raw, Some(Failure(class_, IntegrityStage)), k;
    }
    res := res.(size := |raw.value|, digest := codec.digest(raw.value), integrity := Verified);
    failure, k := None, 20;
  }

  /* Checks 20 and 21. The record gains the package after check 21. */
  method ReadLocked(ghost x: Inputs, codec: PkgArchive.Codec, dep: Dependency, record: Record, raw: Bytes,
                    before: Resolution)
    returns (res: Resolution, failure: Option<Failure>, ghost k: nat)
    requires x.codec == codec && x.dep == dep && record == x.Locked()
    requires x.ArtifactReply() == Answer(raw) && before == x.RecordAt(20)
    ensures Reached(x, 20, 22, k, failure) && res == x.RecordAt(k)
  {
    HoldingByOne(x, 20);
    res := before;
    var pkg := PkgArchive.Parse(codec, raw);
    if pkg.Err? {
      return res, Some(Failure(ArtifactMalformed, ArtifactParseStage)), 20;
    }
    if pkg.value.manifest.name != dep.name || pkg.value.manifest.version != record.version {
      return res, Some(Failure(ManifestMismatch, ArtifactParseStage)), 21;
    }
    res := res.(pkg := Some(pkg.value));
    failure, k := None, 22;
  }

  method Resolve(codec: PkgArchive.Codec, cfg: Config, dep: Dependency, net: Clients)
    returns (res: Resolution, failure: Option<Failure>)
    modifies net
    ensures var r := Outcome(Inputs(codec, cfg, dep, net.world, old(net.calls)));
            res == r.record && failure == r.failure && net.calls == old(net.calls) + r.calls
  {
    ghost var x := Inputs(codec, cfg, dep, net.world, net.calls);
    ghost var k;
    var decision, record;
    res, decision, failure, k := ApplyPolicy(x, cfg, dep);
    if failure.Some? {
      Finished(x, 4, k, failure);
      return;
    }
    res, record, failure, k := ApplyLock(x, cfg, dep, decision, res);
    GoesOn(x, 4, 9, k, failure);
    if failure.Some? {
      Finished(x, 9, k, failure);
      return;
    }
    failure, k := CheckLockedRange(x, dep, record);
    RangeLeavesRecord(x, k);
    GoesOn(x, 9, 12, k, failure);
    if failure.Some? {
      Finished(x, 12, k, failure);
      return;
    }
    res, failure := ResolveBound(x, codec, dep, decision.bound, record, res, net);
  }

  method ResolveBound(ghost x: Inputs, codec: PkgArchive.Codec, dep: Dependency, bound: Source, record: Record,
                      before: Resolution, net: Clients)
    returns (res: Resolution, failure: Option<Failure>)
    requires x.codec == codec && x.dep == dep && bound == x.Bound() && record == x.Locked()
    requires Semver.Parse(record.version).Some?
    requires Reached(x, 0, 12, 12, None) && before == x.RecordAt(12) && x.world == net.world && x.before == net.calls
    modifies net
    ensures var r := Outcome(x); res == r.record && failure == r.failure && net.calls == old(net.calls) + r.calls
  {
    ghost var k;
    var meta, raw;
    res, meta, failure, k := QueryBound(x, dep, bound, before, net);
    GoesOn(x, 12, 15, k, failure);
    if failure.Some? {
      Finished(x, 15, k, failure);
      return;
    }
    res, failure, k := SelectLocked(x, bound, meta.value, record, res);
    GoesOn(x, 15, 16, k, failure);
    if failure.Some? {
      Finished(x, 16, k, failure);
      return;
    }
    res, raw, failure, k := FetchLocked(x, codec, dep, bound, record, res, net);
    GoesOn(x, 16, 20, k, failure);
    if failure.Some? {
      Finished(x, 20, k, failure);
      return;
    }
    res, failure, k := ReadLocked(x, codec, dep, record, raw.value, res);
    GoesOn(x, 20, CHECKS, k, failure);
    Finished(x, CHECKS, k, failure);
  }

  lemma FirstMatch<T>(keep: T -> bool, xs: seq<T>, i: nat)
    requires i <= |xs| && forall j :: 0 <= j < i ==> !keep(xs[j])
    ensures if i < |xs| && keep(xs[i]) then Filter(keep, xs) != [] && Filter(keep, xs)[0] == xs[i]
            else i == |xs| ==> Filter(keep, xs) == []
  {
    FilterNone(keep, xs[..i]);
    FilterAppend(keep, xs[..i], xs[i..]);
    assert xs == xs[..i] + xs[i..];
  }

  /* The first candidate in display order with the wanted version is the source's first listing of it. */
  method SelectVersion(source: string, meta: Metadata, candidates: seq<Candidate>, version: string)
    returns (r: Option<Candidate>)
    requires candidates == OrderedCandidates(source, meta) && Semver.Parse(version).Some?
    ensures var listed := Listings(meta, version);
            r == if listed == [] then None else Some(Offered(source, meta.name, listed[0]))
    ensures r.Some? <==> exists i :: 0 <= i < |meta.versions| && meta.versions[i].version == version
  {
    CandidatesOfVersion(source, meta, version);
    FilterNone((v: VersionInfo) => v.version == version, meta.versions);
    assert forall i :: 0 <= i < |meta.versions| ==> meta.versions[i] in meta.versions;
    var wanted := (c: Candidate) => c.version == version;
    for i := 0 to |candidates|
      invariant forall j :: 0 <= j < i ==> !wanted(candidates[j])
    {
      if candidates[i].version == version {
        FirstMatch(wanted, candidates, i);
        return Some(candidates[i]);
      }
    }
    FirstMatch(wanted, candidates, |candidates|);
    r := None;
  }

  // ----- what a resolution promises -----

  /* Every condition for acceptance, in no particular order. */
  ghost predicate Acceptable(x: Inputs)
  {
    && ValidPolicy(x.cfg.policy) && |Matching(x.cfg.policy, x.dep.name)| == 1 && x.Decision().mode == MODE_EXCLUSIVE
    && Binding(x.cfg.lock, x.dep.alias) == Ok(x.Locked())
    && x.Locked().name == x.dep.name && x.Locked().source == x.Bound().id && x.InRange()
    && x.world.dials(x.before, x.Bound()) && x.Lists(x.Locked().version)
    && x.ArtifactReply().Answer?
    && VerifyBytes(x.codec.digest, x.Locked(), x.ArtifactReply().value) == None
    && x.Identified(PkgArchive.ParseArchive(x.codec, x.ArtifactReply().value))
  }

  /* A package is returned exactly when every condition holds; otherwise class and stage are those
     of the first check, in the documented order, that does not. */
  lemma AcceptsExactly(x: Inputs)
    ensures Outcome(x).failure == None <==> Acceptable(x)
    ensures Outcome(x).record.pkg.Some? <==> Acceptable(x)
    ensures forall k: nat :: k < CHECKS && x.StopsAt(k) ==> Outcome(x).failure == Some(FailureAt(k))
    ensures Outcome(x).failure.Some? ==> exists k: nat :: k < CHECKS && x.StopsAt(k)
  {
    StopFromStops(x, 0);
    forall k: nat ensures x.StopsAt(k) <==> k == StopFrom(x, 0) {
      StopIsFirstFailure(x, k);
    }
    if x.StopsAt(CHECKS) {
      AllChecksAccept(x);
    }
    if Acceptable(x) {
      AcceptablePasses(x);
    }
  }

  lemma AcceptedIsAcceptable(x: Inputs)
    requires FailureOf(x) == None
    ensures Acceptable(x)
  {
    StopFromStops(x, 0);
    AllChecksAccept(x);
  }

  lemma AllChecksAccept(x: Inputs)
    requires x.StopsAt(CHECKS)
    ensures Acceptable(x)
  {
    assert x.Holds(0) && x.Holds(1) && x.Holds(2) && x.Holds(3) && x.Holds(4) && x.Holds(5) && x.Holds(6) && x.Holds(7);
    assert x.Holds(8) && x.Holds(11) && x.Holds(12) && x.Holds(15) && x.Holds(17) && x.Holds(18) && x.Holds(19)
        && x.Holds(21);
  }

  lemma AcceptablePasses(x: Inputs)
    requires Acceptable(x)
    ensures x.StopsAt(CHECKS)
  {
    forall i: nat | i < CHECKS ensures x.Holds(i) {
    }
  }

  lemma ListedFirst(meta: Metadata, version: string)
    requires exists i :: 0 <= i < |meta.versions| && meta.versions[i].version == version
    ensures Listings(meta, version) != [] && Listings(meta, version)[0].version == version
  {
    FilterNone((v: VersionInfo) => v.version == version, meta.versions);
    FilterMembers((v: VersionInfo) => v.version == version, meta.versions);
    assert forall i :: 0 <= i < |meta.versions| ==> meta.versions[i] in meta.versions;
    assert Listings(meta, version)[0] in Listings(meta, version);
  }

  /* An accepted resolution carries exactly what the lock says, whatever the registry reported. */
  lemma AcceptedIsLocked(x: Inputs)
    requires Outcome(x).failure == None
    ensures var r, locked := Outcome(x).record, x.Locked();
            && r.locked == locked && locked in x.cfg.lock.records && locked.alias == x.dep.alias
            && r.alias == x.dep.alias && r.name == locked.name == x.dep.name
            && r.selected.source == locked.source && r.selected.version == locked.version
            && r.size == locked.size && r.digest == locked.sha256 && r.integrity == Verified
            && r.pkg.Some? && r.pkg.value.manifest.name == locked.name && r.pkg.value.manifest.version == locked.version
            && PkgArchive.ValidTable(r.pkg.value.policy)
    ensures x.Bound() in x.cfg.policy.sources && x.Bound().id == x.Locked().source
    ensures Outcome(x).record.queried == [x.Bound().id]
    ensures Outcome(x).calls == [x.MetadataRequest(), x.ArtifactRequest()]
  {
    AcceptsExactly(x);
    StopFromStops(x, 0);
    BindingIsDeclared(x.cfg.lock, x.dep.alias);
    DecisionShape(x.cfg.policy, x.dep.name, x.Decision());
    ListedFirst(x.MetadataReply().value, x.Locked().version);
    PkgArchive.ParseAcceptsExactly(x.codec, x.ArtifactReply().value, Outcome(x).record.pkg.value);
  }

  /* The requests of a resolution are a prefix of one metadata and one artifact request, both about
     this name and both to the one bound source; none is made unless policy and lock already agree. */
  lemma TraceIsBound(x: Inputs)
    ensures Outcome(x).calls <= [x.MetadataRequest(), x.ArtifactRequest()]
    ensures Outcome(x).calls != [] ==>
              && ValidPolicy(x.cfg.policy) && Resolves(x.cfg.policy, x.dep.name, Ok(x.Decision()))
              && x.Decision().mode == MODE_EXCLUSIVE
              && Binding(x.cfg.lock, x.dep.alias) == Ok(x.Locked()) && x.Locked().source == x.Bound().id && x.InRange()
              && Outcome(x).record.queried == [x.Bound().id]
    ensures Outcome(x).failure == None ==> |Outcome(x).calls| == 2
  {
    StopFromStops(x, 0);
    if StopFrom(x, 0) > 12 {
      assert x.Holds(0) && x.Holds(1) && x.Holds(2) && x.Holds(3) && x.Holds(4) && x.Holds(5) && x.Holds(6)
          && x.Holds(8) && x.Holds(11);
    }
  }

  /* Once the policy has decided the name, the record says what it decided exactly when the mapping is
     exclusive; otherwise the record shows no decision and no exclusion, whatever the policy says. */
  lemma PolicyRecordedExactly(x: Inputs)
    requires ValidPolicy(x.cfg.policy) && Resolves(x.cfg.policy, x.dep.name, Ok(x.Decision()))
    ensures Outcome(x).record.policy == x.Decision() <==> x.Decision().mode == MODE_EXCLUSIVE
    ensures x.Decision().mode != MODE_EXCLUSIVE ==>
              && FailureOf(x) == Some(Failure(SourcePolicyNotExclusive, SourcePolicyStage))
              && Outcome(x).record.policy == NO_DECISION && Outcome(x).record.excluded == []
  {
    StopFromStops(x, 0);
    assert x.Holds(0) && x.Holds(1) && x.Holds(2);
    DecisionShape(x.cfg.policy, x.dep.name, x.Decision());
    if x.Decision().mode != MODE_EXCLUSIVE {
      StopIsFirstFailure(x, 3);
    }
  }

  /* A policy that pools two sources for a name, and excludes a third. */
  const POOLING_POLICY := Policy(
    POLICY_FORMAT,
    [Source("a", ROLE_PRIVATE, "u"), Source("b", ROLE_PUBLIC, "v"), Source("c", ROLE_PUBLIC, "w")],
    [Mapping("n", MODE_COMBINED, "", ["a", "b"])])

  lemma PoolingPolicyIsValid()
    ensures ValidPolicy(POOLING_POLICY) && Matching(POOLING_POLICY, "n") == POOLING_POLICY.mappings
  {
    var sources, m := POOLING_POLICY.sources, POOLING_POLICY.mappings[0];
    assert sources[0] in sources && sources[1] in sources;
    assert Declares(sources, "a") && Declares(sources, "b");
    FilterSingle((m: Mapping) => Matches(m.pattern, "n"), m);
  }

  lemma PoolingPolicyDecides()
    ensures var d := Decide(POOLING_POLICY, POOLING_POLICY.mappings[0], "n");
            && d.mode == MODE_COMBINED && d.pool == POOLING_POLICY.sources[..2]
            && d.excluded == POOLING_POLICY.sources[2..]
  {
    var sources := POOLING_POLICY.sources;
    PoolOfTwo(sources[0], sources[1], sources[2]);
    AllButTwo(sources[0], sources[1], sources[2]);
    FilterSame((s: Source) => s.id !in PoolIds(POOLING_POLICY.mappings[0]),
               (s: Source) => s.id != "a" && s.id != "b", sources);
  }

  lemma PoolOfTwo(a: Source, b: Source, c: Source)
    requires a.id == "a" && b.id == "b"
    ensures Map(id => SourceOf([a, b, c], id), ["a", "b"]) == [a, b]
  {
    assert [a, b, c][1..] == [b, c];
    assert FindSource([b, c], "b") == Some(b);
  }

  lemma AllButTwo(a: Source, b: Source, c: Source)
    requires a.id == "a" && b.id == "b" && c.id == "c"
    ensures Filter((s: Source) => s.id != "a" && s.id != "b", [a, b, c]) == [c]
  {
    var outside := (s: Source) => s.id != "a" && s.id != "b";
    FilterAppend(outside, [a], [b, c]);
    FilterAppend(outside, [b], [c]);
    FilterSingle(outside, a);
    FilterSingle(outside, b);
    FilterSingle(outside, c);
    assert [a, b, c] == [a] + [b, c] && [b, c] == [b] + [c];
  }

  /* An input on which the record falls silent: the policy pools two sources and excludes a third,
     and neither is recorded. */
  lemma PooledDecisionIsNotRecorded(x: Inputs)
    requires x.cfg.policy == POOLING_POLICY && x.dep.name == "n"
    ensures x.Decision().pool == POOLING_POLICY.sources[..2] && x.Decision().excluded == POOLING_POLICY.sources[2..]
    ensures Outcome(x).record.policy == NO_DECISION && Outcome(x).record.excluded == []
  {
    PoolingPolicyIsValid();
    PoolingPolicyDecides();
    PolicyRecordedExactly(x);
  }

  ghost predicate SameQuestion(x: Inputs, y: Inputs)
  {
    x.codec == y.codec && x.cfg == y.cfg && x.dep == y.dep
  }

  lemma {:induction false} SameStop(x: Inputs, y: Inputs, i: nat)
    requires i <= CHECKS && forall j: nat :: i <= j < CHECKS ==> x.Holds(j) == y.Holds(j)
    ensures StopFrom(x, i) == StopFrom(y, i)
    decreases CHECKS - i
  {
    if i < CHECKS {
      SameStop(x, y, i + 1);
    }
  }

  lemma SameEarlyChecks(x: Inputs, y: Inputs, j: nat)
    requires SameQuestion(x, y) && j < 12
    ensures x.Holds(j) == y.Holds(j)
  {
  }

  lemma SameQueryChecks(x: Inputs, y: Inputs, j: nat)
    requires SameQuestion(x, y) && 12 <= j < 16
    requires x.world.dials(x.before, x.Bound()) == y.world.dials(y.before, y.Bound())
    requires x.MetadataReply() == y.MetadataReply() ||
             (x.MetadataReply().Answer? && y.MetadataReply().Answer?
              && x.Lists(x.Locked().version) == y.Lists(y.Locked().version))
    ensures x.Holds(j) == y.Holds(j)
  {
  }

  lemma SameArtifactChecks(x: Inputs, y: Inputs, j: nat)
    requires SameQuestion(x, y) && 16 <= j && x.ArtifactReply() == y.ArtifactReply()
    ensures x.Holds(j) == y.Holds(j)
  {
  }

  lemma SameReplySameChecks(x: Inputs, y: Inputs, j: nat)
    requires SameQuestion(x, y) && j < CHECKS
    requires x.world.dials(x.before, x.Bound()) == y.world.dials(y.before, y.Bound())
    requires x.MetadataReply() == y.MetadataReply() ||
             (x.MetadataReply().Answer? && y.MetadataReply().Answer?
              && x.Lists(x.Locked().version) == y.Lists(y.Locked().version))
    requires x.ArtifactReply() == y.ArtifactReply()
    ensures x.Holds(j) == y.Holds(j)
  {
    if j < 12 {
      SameEarlyChecks(x, y, j);
    } else if j < 16 {
      SameQueryChecks(x, y, j);
    } else {
      SameArtifactChecks(x, y, j);
    }
  }

  lemma SameReplySameRecord(x: Inputs, y: Inputs, k: nat)
    requires SameQuestion(x, y) && x.MetadataReply() == y.MetadataReply() && x.ArtifactReply() == y.ArtifactReply()
    ensures x.RecordAt(k) == y.RecordAt(k) && x.CallsAt(k) == y.CallsAt(k)
  {
  }

  /* Two worlds that let the bound source be reached alike, and in which it gives the same answer to
     the one metadata and the one artifact request, give the same record, failure and requests,
     whatever any other source says and whatever was asked before. */
  lemma NonInterference(x: Inputs, y: Inputs)
    requires SameQuestion(x, y)
    requires x.world.dials(x.before, x.Bound()) == y.world.dials(y.before, y.Bound())
    requires x.MetadataReply() == y.MetadataReply() && x.ArtifactReply() == y.ArtifactReply()
    ensures Outcome(x) == Outcome(y)
  {
    forall j: nat | j < CHECKS ensures x.Holds(j) == y.Holds(j) {
      SameReplySameChecks(x, y, j);
    }
    SameStop(x, y, 0);
    SameReplySameRecord(x, y, StopFrom(x, 0));
  }

  /* What the bound source reports beside the fact that it lists the locked version -- sizes, digests,
     order, other versions -- changes neither acceptance, nor the failure, nor what is accepted. */
  lemma ReportedMetadataIsNotTrusted(x: Inputs, y: Inputs)
    requires SameQuestion(x, y)
    requires x.world.dials(x.before, x.Bound()) == y.world.dials(y.before, y.Bound())
    requires x.MetadataReply().Answer? && y.MetadataReply().Answer?
    requires x.Lists(x.Locked().version) == y.Lists(y.Locked().version)
    requires x.ArtifactReply() == y.ArtifactReply()
    ensures Outcome(x).failure == Outcome(y).failure && Outcome(x).calls == Outcome(y).calls
    ensures var a, b := Outcome(x).record, Outcome(y).record;
            && a.pkg == b.pkg && a.size == b.size && a.digest == b.digest && a.integrity == b.integrity
            && a.locked == b.locked
  {
    forall j: nat | j < CHECKS ensures x.Holds(j) == y.Holds(j) {
      SameReplySameChecks(x, y, j);
    }
    SameStop(x, y, 0);
    SameBytesSameReading(x, y, StopFrom(x, 0));
  }

  lemma SameBytesSameReading(x: Inputs, y: Inputs, k: nat)
    requires SameQuestion(x, y) && x.ArtifactReply() == y.ArtifactReply()
    ensures var a, b := x.RecordAt(k), y.RecordAt(k);
            && a.pkg == b.pkg && a.size == b.size && a.digest == b.digest && a.integrity == b.integrity
            && a.locked == b.locked
    ensures x.CallsAt(k) == y.CallsAt(k)
  {
  }

  lemma AcceptedPackage(x: Inputs)
    requires Outcome(x).failure == None
    ensures x.ArtifactReply().Answer? && |x.ArtifactReply().value| == x.Locked().size
    ensures x.codec.digest(x.ArtifactReply().value) == x.Locked().sha256
    ensures PkgArchive.ParseArchive(x.codec, x.ArtifactReply().value).Ok?
    ensures Outcome(x).record.pkg == Some(PkgArchive.ParseArchive(x.codec, x.ArtifactReply().value).value)
  {
    AcceptsExactly(x);
  }

  /* Two byte strings of one length whose digests agree are equal. */
  ghost predicate NoCollision(codec: PkgArchive.Codec, a: Bytes, b: Bytes)
  {
    |a| == |b| && codec.digest(a) == codec.digest(b) ==> a == b
  }

  /* The part of an accepted record that the build goes on to use. */
  datatype Accepted = Accepted(
    locked: Record, name: string, source: string, version: string, size: int, digest: string,
        pkg: Option<PkgArchive.Package>)

  function Essence(r: Resolution): Accepted
  {
    Accepted(r.locked, r.name, r.selected.source, r.selected.version, r.size, r.digest, r.pkg)
  }

  lemma AcceptedEssence(x: Inputs)
    requires Outcome(x).failure == None
    ensures x.ArtifactReply().Answer? && PkgArchive.ParseArchive(x.codec, x.ArtifactReply().value).Ok?
    ensures var locked := x.Locked();
            Essence(Outcome(x).record) == Accepted(
              locked, x.dep.name, locked.source, locked.version, locked.size, locked.sha256,
              Some(PkgArchive.ParseArchive(x.codec, x.ArtifactReply().value).value))
  {
    AcceptedPackage(x);
    AcceptedIsLocked(x);
  }

  /* One dependency under one lock, whatever the policies and the worlds. */
  ghost predicate SameLock(x: Inputs, y: Inputs)
  {
    x.codec == y.codec && x.cfg.lock == y.cfg.lock && x.dep == y.dep
  }

  /* Whenever a dependency resolves in two worlds, under any two policies, the lock alone decides what was resolved. */
  lemma LockDetermines(x: Inputs, y: Inputs)
    requires SameLock(x, y)
    requires Outcome(x).failure == None && Outcome(y).failure == None
    requires x.ArtifactReply().Answer? && y.ArtifactReply().Answer? ==>
               NoCollision(x.codec, x.ArtifactReply().value, y.ArtifactReply().value)
    ensures Essence(Outcome(x).record) == Essence(Outcome(y).record)
  {
    AcceptedEssence(x);
    AcceptedEssence(y);
    AcceptedPackage(x);
    AcceptedPackage(y);
  }

  /* The candidates shown are a permutation of what the source lists within the version model,
     newest first. */
  lemma CandidatesAreOrdered(source: string, meta: Metadata)
    ensures var offered := Map((v: VersionInfo) => Offered(source, meta.name, v), Parsable(meta.versions));
            multiset(OrderedCandidates(source, meta)) == multiset(offered)
    ensures forall i, j :: 0 <= i < j < |OrderedCandidates(source, meta)| ==>
              Semver.Compare(Semver.VersionOf(OrderedCandidates(source, meta)[i].version),
                             Semver.VersionOf(OrderedCandidates(source, meta)[j].version)) >= 0
  {
    var offered := Map((v: VersionInfo) => Offered(source, meta.name, v), Parsable(meta.versions));
    CandidateLessIsOrder();
    Sorting.StableSortCorrect(CandidateLess, offered);
    var out := OrderedCandidates(source, meta);
    forall i, j | 0 <= i < j < |out| ensures Semver.Compare(Semver.VersionOf(out[i].version),
                                                            Semver.VersionOf(out[j].version)) >= 0 {
      assert !CandidateLess(out[j], out[i]);
      Semver.CompareIsTotalOrder(Semver.VersionOf(out[i].version), Semver.VersionOf(out[j].version),
                                 Semver.VersionOf(out[i].version));
    }
  }

  // ----- the same question under another policy -----

  /* The same question put to a policy that decides the name alike. */
  ghost predicate DecidedAlike(x: Inputs, y: Inputs)
  {
    y == x.(cfg := Config(y.cfg.policy, x.cfg.lock)) && DecideAlike(x.cfg.policy, y.cfg.policy, x.dep.name)
  }

  /* Two resolutions fail or succeed alike, ask the same, and accept the same content. */
  ghost predicate ResolvedAlike(x: Inputs, y: Inputs)
  {
    && FailureOf(x) == FailureOf(y) && CallsOf(x) == CallsOf(y)
    && (FailureOf(x) == None ==> Essence(Outcome(x).record) == Essence(Outcome(y).record))
  }

  lemma AlikeBound(x: Inputs, y: Inputs)
    requires DecidedAlike(x, y) && ValidPolicy(x.cfg.policy)
    ensures y.Decision().mode == x.Decision().mode && y.Bound() == x.Bound()
  {
  }

  lemma AlikeEarlyChecks(x: Inputs, y: Inputs, j: nat)
    requires DecidedAlike(x, y) && ValidPolicy(x.cfg.policy) && j < 12
    requires y.Decision().mode == x.Decision().mode && y.Bound() == x.Bound()
    ensures x.Holds(j) == y.Holds(j)
  {
  }

  lemma AlikeLateChecks(x: Inputs, y: Inputs, j: nat)
    requires y == x.(cfg := Config(y.cfg.policy, x.cfg.lock)) && 12 <= j && y.Bound() == x.Bound()
    ensures x.Holds(j) == y.Holds(j)
  {
  }

  lemma AlikeStop(x: Inputs, y: Inputs)
    requires (!x.Holds(0) && !y.Holds(0)) || forall j: nat :: j < CHECKS ==> x.Holds(j) == y.Holds(j)
    ensures StopFrom(x, 0) == StopFrom(y, 0)
  {
    if x.Holds(0) || y.Holds(0) {
      SameStop(x, y, 0);
    }
  }

  lemma AlikeStops(x: Inputs, y: Inputs)
    requires DecidedAlike(x, y)
    ensures StopFrom(x, 0) == StopFrom(y, 0)
  {
    if ValidPolicy(x.cfg.policy) {
      AlikeBound(x, y);
      forall j: nat | j < CHECKS ensures x.Holds(j) == y.Holds(j) {
        if j < 12 {
          AlikeEarlyChecks(x, y, j);
        } else {
          AlikeLateChecks(x, y, j);
        }
      }
    } else {
      assert !x.Holds(0) && !y.Holds(0);
    }
    AlikeStop(x, y);
  }

  /* Of a policy a secure resolution uses nothing but how it decides the name. */
  lemma DecidedAlikeResolvesAlike(x: Inputs, y: Inputs)
    requires DecidedAlike(x, y)
    ensures ResolvedAlike(x, y)
  {
    AlikeStops(x, y);
    if ValidPolicy(x.cfg.policy) {
      AlikeBound(x, y);
    }
    if FailureOf(x) == None {
      AcceptedEssence(x);
      AcceptedEssence(y);
    }
  }

  /* The same question put to a policy that lists its sources and mappings in another order. */
  ghost predicate ReorderedPolicy(x: Inputs, y: Inputs)
  {
    y == x.(cfg := Config(y.cfg.policy, x.cfg.lock)) && Widened(x.cfg.policy, y.cfg.policy, [], [])
  }

  /* Listing order in the policy never changes how or whether a secure resolution fails, what it asks,
     or what it accepts. */
  lemma PolicyOrderIsInvisible(x: Inputs, y: Inputs)
    requires ReorderedPolicy(x, y)
    ensures ResolvedAlike(x, y)
  {
    ReorderedDecidesAlike(x.cfg.policy, y.cfg.policy, x.dep.name);
    DecidedAlikeResolvesAlike(x, y);
  }

  /* Under a policy that declares more sources and maps more names, a secure resolution of a name with a single
     mapping comes out the same exactly when the policy stays valid and no new mapping matches the name. */
  lemma WideningIsInvisibleExactly(x: Inputs, y: Inputs, sources: seq<Source>, mappings: seq<Mapping>)
    requires y == x.(cfg := Config(y.cfg.policy, x.cfg.lock)) && ValidPolicy(x.cfg.policy)
    requires Widened(x.cfg.policy, y.cfg.policy, sources, mappings) && |Matching(x.cfg.policy, x.dep.name)| == 1
    ensures ResolvedAlike(x, y) <==>
            ValidPolicy(y.cfg.policy) && forall m :: m in mappings ==> !Matches(m.pattern, x.dep.name)
  {
    WideningDecidesAlike(x.cfg.policy, y.cfg.policy, sources, mappings, x.dep.name);
    if DecideAlike(x.cfg.policy, y.cfg.policy, x.dep.name) {
      DecidedAlikeResolvesAlike(x, y);
    } else {
      WidenedMatching(x.cfg.policy, y.cfg.policy, sources, mappings, x.dep.name);
      PolicyFailure(x);
      PolicyFailure(y);
      FilterNone((m: Mapping) => Matches(m.pattern, x.dep.name), mappings);
    }
  }

  /* A policy that is invalid, or gives the name no or several mappings, is the failure it is. */
  lemma PolicyFailure(x: Inputs)
    ensures FailureOf(x) == Some(Failure(SourcePolicyInvalid, SourcePolicyStage)) <==> !ValidPolicy(x.cfg.policy)
    ensures FailureOf(x) == Some(Failure(SourcePolicyAmbiguous, SourcePolicyStage)) <==>
            ValidPolicy(x.cfg.policy) && |Matching(x.cfg.policy, x.dep.name)| >= 2
  {
    StopFromStops(x, 0);
    if !ValidPolicy(x.cfg.policy) {
      StopIsFirstFailure(x, 0);
    } else if |Matching(x.cfg.policy, x.dep.name)| >= 2 {
      StopIsFirstFailure(x, 2);
    } else if StopFrom(x, 0) < CHECKS {
      FailuresPastMatching(StopFrom(x, 0));
    }
  }

  lemma FailuresPastMatching(k: nat)
    requires k < CHECKS
    ensures FailureAt(k) == Failure(SourcePolicyInvalid, SourcePolicyStage) ==> k == 0
    ensures FailureAt(k) == Failure(SourcePolicyAmbiguous, SourcePolicyStage) ==> k == 2
  {
  }

  /* Another policy under which a resolution that asks anything asks the same is one that binds the name exclusively
     to the same source; and then it also fails and accepts the same. */
  lemma PolicyChangeIsInvisibleExactly(x: Inputs, y: Inputs)
    requires y == x.(cfg := Config(y.cfg.policy, x.cfg.lock)) && CallsOf(x) != []
    ensures ResolvedAlike(x, y) <==>
            && ValidPolicy(y.cfg.policy) && |Matching(y.cfg.policy, y.dep.name)| == 1
            && y.Decision().mode == MODE_EXCLUSIVE && y.Bound() == x.Bound()
  {
    TraceIsBound(x);
    TraceIsBound(y);
    if DecidedAlike(x, y) {
      DecidedAlikeResolvesAlike(x, y);
    }
    if ResolvedAlike(x, y) {
      assert CallsOf(x)[0] == x.MetadataRequest() && CallsOf(y)[0] == y.MetadataRequest();
    }
  }
}
