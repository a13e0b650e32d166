/** internal/registry: the fixture registry, what it observes, and the receipts it signs. */
module Registry {
  import opened Prelude
  import opened Network
  import Semver
  import Sorting

  const METADATA_FORMAT := "indexjack-registry-metadata/1"
  const RECEIPT_FORMAT := "indexjack-registry-receipt/1"
  const METADATA_PATH := "/v1/metadata"
  const ARTIFACT_PATH := "/v1/artifact"
  const RECEIPT_PATH := "/v1/receipts"
  const RECEIPT_SCHEME := "Fixture"
  const OK := 200
  const BAD_REQUEST := 400
  const UNAUTHORIZED := 401
  const NOT_FOUND := 404
  const METHOD_NOT_ALLOWED := 405

  datatype Artifact = Artifact(version: string, bytes: Bytes)

  datatype Package = Package(name: string, versions: seq<Artifact>)

  datatype FixtureSet = FixtureSet(id: string, role: string, revision: string, vulnerable: bool, packages: seq<Package>)

  datatype Request = Request(verb: string, path: string, name: string, version: string, status: int)

  datatype Receipt = Receipt(
    format: string, source: string, role: string, revision: string, run: string, requestCount: int,
    requests: seq<Request>, signature: string)

  datatype ReceiptConfig = ReceiptConfig(credential: string, signingKey: string)

  /* The parts of an HTTP request a handler looks at; a credential is presented under a scheme. */
  datatype HttpRequest = HttpRequest(
    verb: string, path: string, query: map<string, seq<string>>, runId: string, scheme: string, presented: string)

  datatype Body = Refusal(code: string) | MetadataBody(metadata: Metadata) | ArtifactBody(bytes: Bytes)
      | ReceiptBody(receipt: Receipt)

  datatype Response = Response(status: int, body: Body)

  /* SHA-256 of an artifact and the keyed MAC of an unsigned receipt: arbitrary functions. */
  datatype Crypto = Crypto(digest: Bytes -> string, mac: (string, Receipt) -> string)

  // ----- what a fixture set serves -----

  function FindPackage(packages: seq<Package>, name: string): Option<Package>
  {
    if packages == [] then None
    else if packages[0].name == name then Some(packages[0])
    else FindPackage(packages[1..], name)
  }

  function FindVersion(versions: seq<Artifact>, version: string): Option<Artifact>
  {
    if versions == [] then None
    else if versions[0].version == version then Some(versions[0])
    else FindVersion(versions[1..], version)
  }

  function FindArtifact(packages: seq<Package>, name: string, version: string): Option<Artifact>
  {
    match FindPackage(packages, name)
    case None => None
    case Some(p) => FindVersion(p.versions, version)
  }

  /* The sole, non-empty value of a query parameter. */
  function Single(query: map<string, seq<string>>, key: string): Option<string>
  {
    if key in query && |query[key]| == 1 && query[key][0] != "" then Some(query[key][0]) else None
  }

  function DescribePackage(crypto: Crypto, set_: FixtureSet, p: Package): Metadata
  {
    Metadata(METADATA_FORMAT, set_.id, set_.role, p.name,
             Map((a: Artifact) => VersionInfo(a.version, |a.bytes|, crypto.digest(a.bytes)), p.versions))
  }

  function Refuse(r: Request, status: int, code: string): (Request, Response)
  {
    (r.(status := status), Response(status, Refusal(code)))
  }

  /* What a handler records and answers for any path but the receipt path. */
  function Serve(crypto: Crypto, set_: FixtureSet, http: HttpRequest): (Request, Response)
  {
    var r := Request(http.verb, http.path, "", "", 0);
    if http.verb != "GET" && http.verb != "HEAD" then Refuse(r, METHOD_NOT_ALLOWED, "method_not_allowed")
    else if http.path == METADATA_PATH then
      var name := Single(http.query, "name");
      if name.None? || |http.query| != 1 then Refuse(r, BAD_REQUEST, "bad_request")
      else
        var named := r.(name := name.value);
        match FindPackage(set_.packages, name.value)
        case None => Refuse(named, NOT_FOUND, "not_found")
        case Some(p) => (named.(status := OK), Response(OK, MetadataBody(DescribePackage(crypto, set_, p))))
    else if http.path == ARTIFACT_PATH then
      var name, version := Single(http.query, "name"), Single(http.query, "version");
      if name.None? || version.None? || |http.query| != 2 then Refuse(r, BAD_REQUEST, "bad_request")
      else
        var named := r.(name := name.value, version := version.value);
        match FindArtifact(set_.packages, name.value, version.value)
        case None => Refuse(named, NOT_FOUND, "not_found")
        case Some(a) => (named.(status := OK), Response(OK, ArtifactBody(a.bytes)))
    else Refuse(r, NOT_FOUND, "not_found")
  }

  /* The HTTP request a client makes for a call. */
  function RequestFor(call: Call, run: string): HttpRequest
  {
    match call
    case MetadataCall(_, name) => HttpRequest("GET", METADATA_PATH, map["name" := [name]], run, "", "")
    case ArtifactCall(_, name, version) => HttpRequest("GET", ARTIFACT_PATH,
                                                       map["name" := [name], "version" := [version]], run, "", "")
  }

  /* What a registry records of a call: the endpoint, exactly the name and version asked for, and whether its set holds
     them. */
  function Witnessed(set_: FixtureSet, call: Call): Request
  {
    match call
    case MetadataCall(_, name) =>
      if name == "" then Request("GET", METADATA_PATH, "", "", BAD_REQUEST)
      else Request("GET", METADATA_PATH, name, "", if FindPackage(set_.packages, name).Some? then OK else NOT_FOUND)
    case ArtifactCall(_, name, version) =>
      if name == "" || version == "" then Request("GET", ARTIFACT_PATH, "", "", BAD_REQUEST)
      else
        Request("GET", ARTIFACT_PATH, name, version,
                if FindArtifact(set_.packages, name, version).Some? then OK else NOT_FOUND)
  }

  lemma CallIsRecorded(crypto: Crypto, set_: FixtureSet, call: Call, run: string)
    ensures Serve(crypto, set_, RequestFor(call, run)).0 == Witnessed(set_, call)
  {
    var http := RequestFor(call, run);
    match call
    case MetadataCall(_, name) =>
      assert |http.query| == 1 && Single(http.query, "name") == if name == "" then None else Some(name);
    case ArtifactCall(_, name, version) =>
      assert http.query.Keys == {"name", "version"};
      assert |http.query| == |http.query.Keys| == 2;
      assert Single(http.query, "name") == if name == "" then None else Some(name);
      assert Single(http.query, "version") == if version == "" then None else Some(version);
  }

  /* The query names these parameters, each once and not empty, and no others. */
  ghost predicate Asks(query: map<string, seq<string>>, keys: set<string>)
  {
    query.Keys == keys && forall key :: key in keys ==> |query[key]| == 1 && query[key][0] != ""
  }

  /* Any request is recorded with its own verb and path and with the status it was answered: refused for its verb, its
     path or its query, or answered for the package or artifact the query names. */
  lemma RequestIsRecorded(crypto: Crypto, set_: FixtureSet, http: HttpRequest)
    ensures var (q, response) := Serve(crypto, set_, http);
            var readable, query := http.verb == "GET" || http.verb == "HEAD", http.query;
            && q.verb == http.verb && q.path == http.path && q.status == response.status
            && (q.status == METHOD_NOT_ALLOWED <==> !readable)
            && (readable && http.path == METADATA_PATH ==>
                  (q.status == BAD_REQUEST <==> !Asks(query, {"name"})))
            && (readable && http.path == METADATA_PATH && Asks(query, {"name"}) ==>
                  && q.name == query["name"][0] && q.version == ""
                  && q.status == if FindPackage(set_.packages, q.name).Some? then OK else NOT_FOUND)
            && (readable && http.path == ARTIFACT_PATH ==>
                  (q.status == BAD_REQUEST <==> !Asks(query, {"name", "version"})))
            && (readable && http.path == ARTIFACT_PATH && Asks(query, {"name", "version"}) ==>
                  && q.name == query["name"][0] && q.version == query["version"][0]
                  && q.status == if FindArtifact(set_.packages, q.name, q.version).Some? then OK else NOT_FOUND)
            && (readable && http.path != METADATA_PATH && http.path != ARTIFACT_PATH ==> q.status == NOT_FOUND)
            && (q.status == METHOD_NOT_ALLOWED || q.status == BAD_REQUEST ==> q.name == "" && q.version == "")
  {
    AsksOne(http.query);
    AsksTwo(http.query);
  }

  lemma AsksOne(query: map<string, seq<string>>)
    ensures Asks(query, {"name"}) <==> Single(query, "name").Some? && |query| == 1
  {
    assert |query| == |query.Keys|;
    if Single(query, "name").Some? && |query| == 1 {
      SameSize({"name"}, query.Keys);
    }
  }

  lemma AsksTwo(query: map<string, seq<string>>)
    ensures Asks(query, {"name", "version"}) <==>
            Single(query, "name").Some? && Single(query, "version").Some? && |query| == 2
  {
    assert |query| == |query.Keys|;
    if Single(query, "name").Some? && Single(query, "version").Some? && |query| == 2 {
      SameSize({"name", "version"}, query.Keys);
    }
  }

  lemma SameSize(a: set<string>, b: set<string>)
    requires a <= b && |a| == |b|
    ensures a == b
  {
    if x :| x in b && x !in a {
      Smaller(a, b - {x});
      assert false;
    }
  }

  lemma {:induction false} Smaller(a: set<string>, b: set<string>)
    requires a <= b
    ensures |a| <= |b|
  {
    if a != {} {
      var x :| x in a;
      Smaller(a - {x}, b - {x});
    }
  }

  /* What a registry says of itself and of a package: its id and role, the name, and one listing for each version, in
     the order the set holds them. */
  lemma PackageIsDescribed(crypto: Crypto, set_: FixtureSet, p: Package)
    ensures var m := DescribePackage(crypto, set_, p);
            && m.format == METADATA_FORMAT && m.source == set_.id && m.role == set_.role && m.name == p.name
            && |m.versions| == |p.versions|
            && forall i :: 0 <= i < |p.versions| ==>
                 m.versions[i] == VersionInfo(p.versions[i].version, |p.versions[i].bytes|,
                                              crypto.digest(p.versions[i].bytes))
  {
  }

  // ----- sorting a fixture set -----

  predicate NameLess(a: Package, b: Package)
  {
    StringLess(a.name, b.name)
  }

  predicate OlderThan(a: Artifact, b: Artifact)
  {
    Semver.Compare(Semver.VersionOf(a.version), Semver.VersionOf(b.version)) < 0
  }

  lemma SortOrders()
    ensures Sorting.StrictWeakOrder(NameLess) && Sorting.StrictWeakOrder(OlderThan)
  {
    forall x: Package, y: Package, z: Package
      ensures !NameLess(x, x)
      ensures NameLess(x, y) && NameLess(y, z) ==> NameLess(x, z)
      ensures !NameLess(x, y) && !NameLess(y, z) ==> !NameLess(x, z)
    {
      NameSteps(x.name, y.name, z.name);
    }
    forall x: Artifact, y: Artifact, z: Artifact
      ensures !OlderThan(x, x)
      ensures OlderThan(x, y) && OlderThan(y, z) ==> OlderThan(x, z)
      ensures !OlderThan(x, y) && !OlderThan(y, z) ==> !OlderThan(x, z)
    {
      var u, v, w := Semver.VersionOf(x.version), Semver.VersionOf(y.version), Semver.VersionOf(z.version);
      Semver.CompareIsTotalOrder(u, v, w);
      Semver.CompareIsTotalOrder(w, v, u);
    }
  }

  lemma NameSteps(x: string, y: string, z: string)
    ensures !StringLess(x, x)
    ensures StringLess(x, y) && StringLess(y, z) ==> StringLess(x, z)
    ensures !StringLess(x, y) && !StringLess(y, z) ==> !StringLess(x, z)
  {
    StringLessTrichotomy(x, x);
    StringLessTrichotomy(x, y);
    StringLessTrichotomy(y, z);
    StringLessTrichotomy(x, z);
    if StringLess(x, y) && StringLess(y, z) {
      StringLessTransitive(x, y, z);
    }
    if StringLess(z, y) && StringLess(y, x) {
      StringLessTransitive(z, y, x);
    }
  }

  function SortVersions(p: Package): Package
  {
    p.(versions := Sorting.StableSort(OlderThan, p.versions))
  }

  predicate VersionsParse(p: Package)
  {
    forall i :: 0 <= i < |p.versions| ==> Semver.Parse(p.versions[i].version).Some?
  }

  /* What sorting must leave: packages by name, each with its versions stably ascending. */
  ghost predicate SortedSet(before: FixtureSet, after: FixtureSet)
  {
    && after == before.(packages := after.packages)
    && multiset(after.packages) == multiset(Map(SortVersions, before.packages))
    && Sorting.Sorted(NameLess, after.packages)
  }

  method Sort(s: FixtureSet) returns (r: Option<FixtureSet>)
    ensures r.Some? <==> forall p :: p in s.packages ==> VersionsParse(p)
    ensures r.Some? ==> SortedSet(s, r.value)
  {
    SortOrders();
    var packages := Sorting.UnstableSort(NameLess, s.packages);
    PermutedMembers(packages, s.packages);
    var done: seq<Package> := [];
    for i := 0 to |packages|
      invariant |done| == i
      invariant forall k :: 0 <= k < i ==> VersionsParse(packages[k]) && done[k] == SortVersions(packages[k])
    {
      var p := packages[i];
      assert p in packages;
      for j := 0 to |p.versions|
        invariant forall k :: 0 <= k < j ==> Semver.Parse(p.versions[k].version).Some?
      {
        var v := Semver.ParseVersion(p.versions[j].version);
        if v.None? {
          return None;
        }
      }
      done := done + [SortVersions(p)];
    }
    assert done == Map(SortVersions, packages);
    MapPermuted(SortVersions, packages, s.packages);
    forall i, j | 0 <= i < j < |done| ensures !NameLess(done[j], done[i]) {
      assert !NameLess(packages[j], packages[i]);
    }
    forall p | p in s.packages ensures VersionsParse(p) {
      assert p in packages;
    }
    r := Some(s.(packages := done));
  }

  /* A sorted set is the set it was, its packages in the order of their names and the versions of each from the oldest
     to the newest. */
  lemma SortedSetAscends(before: FixtureSet, after: FixtureSet)
    requires SortedSet(before, after)
    ensures after.id == before.id && after.role == before.role && after.revision == before.revision
    ensures after.vulnerable == before.vulnerable
    ensures forall i, j :: 0 <= i < j < |after.packages| ==>
              !StringLess(after.packages[j].name, after.packages[i].name)
    ensures forall p :: p in after.packages ==> VersionsAscend(p.versions)
  {
    var mapped := Map(SortVersions, before.packages);
    PermutedMembers(after.packages, mapped);
    forall i, j | 0 <= i < j < |after.packages| ensures !StringLess(after.packages[j].name, after.packages[i].name) {
      assert !NameLess(after.packages[j], after.packages[i]);
    }
    forall p | p in after.packages ensures VersionsAscend(p.versions) {
      var i :| 0 <= i < |mapped| && mapped[i] == p;
      SortedVersionsAscend(before.packages[i]);
    }
  }

  ghost predicate VersionsAscend(versions: seq<Artifact>)
  {
    forall i, j :: 0 <= i < j < |versions| ==>
      Semver.Compare(Semver.VersionOf(versions[i].version), Semver.VersionOf(versions[j].version)) <= 0
  }

  lemma SortedVersionsAscend(p: Package)
    ensures VersionsAscend(SortVersions(p).versions)
  {
    SortOrders();
    Sorting.StableSortCorrect(OlderThan, p.versions);
    var vs := SortVersions(p).versions;
    forall i, j | 0 <= i < j < |vs|
      ensures Semver.Compare(Semver.VersionOf(vs[i].version), Semver.VersionOf(vs[j].version)) <= 0
    {
      assert !OlderThan(vs[j], vs[i]);
      Semver.CompareIsTotalOrder(Semver.VersionOf(vs[i].version), Semver.VersionOf(vs[j].version),
                                 Semver.VersionOf(vs[i].version));
    }
  }

  lemma {:induction false} FindPackageFirst(packages: seq<Package>, name: string)
    ensures FindPackage(packages, name) ==
            var named := Filter((p: Package) => p.name == name, packages);
            if named == [] then None else Some(named[0])
  {
    if packages != [] {
      FindPackageFirst(packages[1..], name);
    }
  }

  lemma {:induction false} FindVersionFirst(versions: seq<Artifact>, version: string)
    ensures FindVersion(versions, version) ==
            var listed := Filter((a: Artifact) => a.version == version, versions);
            if listed == [] then None else Some(listed[0])
  {
    if versions != [] {
      FindVersionFirst(versions[1..], version);
    }
  }

  /* Stable sorting never changes which artifact a version names, repeated versions or not. */
  lemma SortedVersionsServeTheSame(p: Package, version: string)
    requires VersionsParse(p)
    ensures FindVersion(SortVersions(p).versions, version) == FindVersion(p.versions, version)
  {
    SortOrders();
    var sorted := SortVersions(p).versions;
    Sorting.StableSortCorrect(OlderThan, p.versions);
    PermutedMembers(sorted, p.versions);
    var same := (a: Artifact) => a.version == version;
    FindVersionFirst(p.versions, version);
    FindVersionFirst(sorted, version);
    if a :| a in p.versions && a.version == version {
      var tied := (b: Artifact) => Sorting.Equivalent(OlderThan, a, b);
      forall b | b in p.versions ensures tied(b) == same(b) {
        Semver.SpellingIsIdentity(a.version, b.version);
        Semver.CompareIsTotalOrder(Semver.VersionOf(a.version), Semver.VersionOf(b.version),
                                   Semver.VersionOf(a.version));
      }
      FilterSame(tied, same, p.versions);
      FilterSame(tied, same, sorted);
      assert Sorting.Class(OlderThan, a, p.versions) == Sorting.Class(OlderThan, a, sorted);
    } else {
      FilterNone(same, p.versions);
      FilterNone(same, sorted);
    }
  }

  lemma {:induction false} FoundPackage(packages: seq<Package>, name: string)
    ensures match FindPackage(packages, name)
            case None => forall p :: p in packages ==> p.name != name
            case Some(p) => p in packages && p.name == name
  {
    if packages != [] {
      FoundPackage(packages[1..], name);
    }
  }

  /* All packages of the name are, once their versions are sorted, the same. */
  ghost predicate OneService(packages: seq<Package>, name: string)
  {
    forall p, q :: p in packages && q in packages && p.name == name && q.name == name ==>
        SortVersions(p) == SortVersions(q)
  }

  /* The name is served as before, its versions reordered. */
  ghost predicate ServesAsBefore(before: FixtureSet, after: FixtureSet, name: string)
  {
    FindPackage(after.packages, name) ==
    match FindPackage(before.packages, name) case None => None case Some(p) => Some(SortVersions(p))
  }

  lemma OneServiceIsServed(before: FixtureSet, after: FixtureSet, name: string)
    requires SortedSet(before, after) && OneService(before.packages, name)
    ensures ServesAsBefore(before, after, name)
  {
    var mapped := Map(SortVersions, before.packages);
    PermutedMembers(mapped, after.packages);
    FoundPackage(before.packages, name);
    FoundPackage(after.packages, name);
    assert forall p :: p in before.packages ==> SortVersions(p) in mapped by {
      assert forall i :: 0 <= i < |before.packages| ==>
          mapped[i] == SortVersions(before.packages[i]) && mapped[i] in mapped;
    }
    if FindPackage(after.packages, name).Some? {
      var q := FindPackage(after.packages, name).value;
      var i :| 0 <= i < |mapped| && mapped[i] == q;
      assert before.packages[i] in before.packages && before.packages[i].name == name;
    }
  }

  /* Packages tie in sorting exactly when they share a name. */
  lemma TiedIffSameName(p: Package, q: Package)
    ensures Sorting.Equivalent(NameLess, p, q) <==> q.name == p.name
  {
    StringLessTrichotomy(p.name, q.name);
  }

  lemma NamedAreAClass(x: Package, packages: seq<Package>)
    ensures Sorting.Class(NameLess, x, packages) == Filter((p: Package) => p.name == x.name, packages)
  {
    forall p | p in packages ensures Sorting.Equivalent(NameLess, x, p) == (p.name == x.name) {
      TiedIffSameName(x, p);
    }
    FilterSame(p => Sorting.Equivalent(NameLess, x, p), (p: Package) => p.name == x.name, packages);
  }

  /* Any package of a name may be the one that sorting leaves first among them. */
  lemma ChosenFirst(before: FixtureSet, p: Package) returns (after: FixtureSet)
    requires p in before.packages
    ensures SortedSet(before, after) && FindPackage(after.packages, p.name) == Some(SortVersions(p))
  {
    var mapped := Map(SortVersions, before.packages);
    var i :| 0 <= i < |before.packages| && before.packages[i] == p;
    var front := [mapped[i]] + (mapped[..i] + mapped[i + 1..]);
    assert mapped == mapped[..i] + [mapped[i]] + mapped[i + 1..];
    SortOrders();
    Sorting.StableSortCorrect(NameLess, front);
    after := before.(packages := Sorting.StableSort(NameLess, front));
    NamedAreAClass(mapped[i], front);
    NamedAreAClass(mapped[i], after.packages);
    assert Sorting.Class(NameLess, mapped[i], front) == Sorting.Class(NameLess, mapped[i], after.packages);
    FindPackageFirst(after.packages, p.name);
  }

  /* Whatever order sort.Slice leaves same-named packages in, a name is served as before exactly when all
     its packages are, once their versions are sorted, the same. */
  lemma NameServedExactly(before: FixtureSet, name: string)
    ensures (forall after :: SortedSet(before, after) ==> ServesAsBefore(before, after, name)) <==>
            OneService(before.packages, name)
  {
    if OneService(before.packages, name) {
      forall after | SortedSet(before, after) ensures ServesAsBefore(before, after, name) {
        OneServiceIsServed(before, after, name);
      }
    }
    if forall after :: SortedSet(before, after) ==> ServesAsBefore(before, after, name) {
      forall p, q | p in before.packages && q in before.packages && p.name == name && q.name == name
        ensures SortVersions(p) == SortVersions(q)
      {
        var a := ChosenFirst(before, p);
        var b := ChosenFirst(before, q);
      }
    }
  }

  /* Where a name is served as before, so is every artifact of it. */
  lemma SortPreservesArtifacts(before: FixtureSet, after: FixtureSet, name: string, version: string)
    requires ServesAsBefore(before, after, name) && forall p :: p in before.packages ==> VersionsParse(p)
    ensures FindArtifact(after.packages, name, version) == FindArtifact(before.packages, name, version)
  {
    FoundPackage(before.packages, name);
    if FindPackage(before.packages, name).Some? {
      SortedVersionsServeTheSame(FindPackage(before.packages, name).value, version);
    }
  }

  /* With unique package names sort.Slice has no freedom left: sorting has one result. */
  lemma SortIsDeterministic(before: FixtureSet, a: FixtureSet, b: FixtureSet)
    requires SortedSet(before, a) && SortedSet(before, b) && DistinctBy((p: Package) => p.name, before.packages)
    ensures a == b
  {
    SortOrders();
    var nameOf, mapped := (p: Package) => p.name, Map(SortVersions, before.packages);
    DistinctByPermuted(nameOf, mapped, a.packages);
    forall p, q | p in a.packages && q in a.packages && Sorting.Equivalent(NameLess, p, q) ensures p == q {
      StringLessTrichotomy(p.name, q.name);
      var i :| 0 <= i < |a.packages| && a.packages[i] == p;
      var j :| 0 <= j < |a.packages| && a.packages[j] == q;
    }
    Sorting.SortedPermutationUnique(NameLess, a.packages, b.packages);
  }

  /* The first listing of a version in the metadata states the size and digest of the bytes the
     artifact endpoint serves; with unique versions every listing does. */
  lemma MetadataStatesServedBytes(crypto: Crypto, set_: FixtureSet, p: Package, i: nat)
    requires i < |p.versions|
    requires forall j :: 0 <= j < i ==> p.versions[j].version != p.versions[i].version
    ensures var listed := DescribePackage(crypto, set_, p).versions[i];
            && FindVersion(p.versions, listed.version).Some?
            && var served := FindVersion(p.versions, listed.version).value.bytes;
            listed.size == |served| && listed.sha256 == crypto.digest(served)
  {
    var same := (a: Artifact) => a.version == p.versions[i].version;
    FindVersionFirst(p.versions, p.versions[i].version);
    FilterNone(same, p.versions[..i]);
    FilterAppend(same, p.versions[..i], p.versions[i..]);
    assert p.versions == p.versions[..i] + p.versions[i..];
  }
}
