/** internal/fixtures: the checked-in documents a run is made of, as a store of parsed values. */
module Fixtures {
  import opened Prelude
  import SourcePolicy
  import BuildManifest
  import Lockfile
  import PkgArchive

  const KNOWN_UNSAFE := "known_unsafe"
  const RELEASE_READY := "release_ready"
  const RESOLVER_SECURE := "secure"
  const RESOLVER_COMBINED_INDEX := "combined-index"

  datatype Scenario = Scenario(
    id: string, summary: string, resolver: string, sourcePolicy: string, manifest: string, lock: string,
    candidate: string, vulnerable: bool)

  datatype Classification = Classification(candidateId: string, classification: string)

  datatype VersionRef = VersionRef(version: string, dir: string)

  datatype PackageRef = PackageRef(name: string, versions: seq<VersionRef>)

  datatype RegistryDoc = RegistryDoc(
    id: string, role: string, revision: string, url: string, vulnerable: bool, packages: seq<PackageRef>)

  datatype PackageSource = PackageSource(manifest: PkgArchive.Manifest, policy: PkgArchive.Policy)

  /* Documents by name. A candidate is listed when its record is consistent; a registry's url is
     empty when it states no host or port. */
  datatype Store = Store(
    policies: map<string, SourcePolicy.Policy>, manifests: map<string, BuildManifest.Manifest>,
    locks: map<string, Lockfile.Lock>, candidates: set<string>, classifications: seq<Classification>,
    scenarios: seq<Scenario>, packages: map<string, PackageSource>, registries: map<string, RegistryDoc>)

  // ----- loading one document -----

  ghost predicate PolicyLoads(s: Store, name: string)
  {
    name in s.policies && SourcePolicy.ValidPolicy(s.policies[name])
  }

  ghost predicate ManifestLoads(s: Store, name: string)
  {
    name in s.manifests && BuildManifest.ValidManifest(s.manifests[name])
  }

  ghost predicate LockLoads(s: Store, name: string)
  {
    name in s.locks && Lockfile.ValidLock(s.locks[name])
  }

  method LoadPolicy(s: Store, name: string) returns (r: Option<SourcePolicy.Policy>)
    ensures r.Some? <==> PolicyLoads(s, name)
    ensures r.Some? ==> r.value == s.policies[name]
  {
    if name !in s.policies {
      return None;
    }
    var err := SourcePolicy.Validate(s.policies[name]);
    r := if err.None? then Some(s.policies[name]) else None;
  }

  method LoadManifest(s: Store, name: string) returns (r: Option<BuildManifest.Manifest>)
    ensures r.Some? <==> ManifestLoads(s, name)
    ensures r.Some? ==> r.value == s.manifests[name]
  {
    if name !in s.manifests {
      return None;
    }
    var valid := BuildManifest.Validate(s.manifests[name]);
    r := if valid then Some(s.manifests[name]) else None;
  }

  method LoadLock(s: Store, name: string) returns (r: Option<Lockfile.Lock>)
    ensures r.Some? <==> LockLoads(s, name)
    ensures r.Some? ==> r.value == s.locks[name]
  {
    if name !in s.locks {
      return None;
    }
    var valid := Lockfile.Validate(s.locks[name]);
    r := if valid then Some(s.locks[name]) else None;
  }

  // ----- the gate's classification table -----

  ghost predicate ValidClassifications(entries: seq<Classification>)
  {
    && (forall e :: e in entries ==> e.classification == KNOWN_UNSAFE || e.classification == RELEASE_READY)
    && DistinctBy((e: Classification) => e.candidateId, entries)
  }

  /* The classification of a candidate, empty if the table has none. */
  function Classified(entries: seq<Classification>, id: string): string
  {
    if entries == [] then ""
    else if entries[0].candidateId == id then entries[0].classification
    else Classified(entries[1..], id)
  }

  lemma {:induction false} ClassifiedIn(entries: seq<Classification>, id: string)
    ensures Classified(entries, id) == "" || Classification(id, Classified(entries, id)) in entries
    ensures DistinctBy((e: Classification) => e.candidateId, entries) ==>
              forall e :: e in entries && e.candidateId == id ==> e.classification == Classified(entries, id)
    ensures (forall e :: e in entries ==> e.candidateId != id) ==> Classified(entries, id) == ""
  {
    if entries != [] {
      var head, tail := entries[0], entries[1..];
      ClassifiedIn(tail, id);
      assert entries == [head] + tail;
      DistinctByCons((e: Classification) => e.candidateId, head, tail);
      assert forall e :: e in entries <==> e == head || e in tail;
    }
  }

  /* table holds exactly the given entries, which are valid together. */
  ghost predicate Tabulates(entries: seq<Classification>, table: map<string, string>)
  {
    && ValidClassifications(entries)
    && (forall e :: e in entries ==> e.candidateId in table && table[e.candidateId] == e.classification)
    && (forall id :: id in table ==> exists e :: e in entries && e.candidateId == id)
  }

  lemma TabulatesSnoc(entries: seq<Classification>, table: map<string, string>, e: Classification)
    requires Tabulates(entries, table)
    ensures ValidClassifications(entries + [e]) <==>
            (e.classification == KNOWN_UNSAFE || e.classification == RELEASE_READY) && e.candidateId !in table
    ensures ValidClassifications(entries + [e]) ==> Tabulates(entries + [e], table[e.candidateId := e.classification])
  {
    var all := entries + [e];
    assert e in all && forall x :: x in all <==> x == e || x in entries;
    DistinctBySnoc((x: Classification) => x.candidateId, entries, e);
  }

  lemma ValidPrefix(entries: seq<Classification>, i: nat)
    requires i <= |entries| && ValidClassifications(entries)
    ensures ValidClassifications(entries[..i])
  {
  }

  lemma TableEntry(entries: seq<Classification>, table: map<string, string>, id: string)
    requires Tabulates(entries, table)
    ensures (if id in table then table[id] else "") == Classified(entries, id)
  {
    ClassifiedIn(entries, id);
  }

  method LoadClassifications(s: Store) returns (r: Option<map<string, string>>)
    ensures r.Some? <==> ValidClassifications(s.classifications)
    ensures r.Some? ==> forall id :: (if id in r.value then r.value[id] else "") == Classified(s.classifications, id)
  {
    var out: map<string, string> := map[];
    var entries := s.classifications;
    for i := 0 to |entries|
      invariant Tabulates(entries[..i], out)
    {
      var e := entries[i];
      TabulatesSnoc(entries[..i], out, e);
      assert entries[..i + 1] == entries[..i] + [e];
      if (e.classification != KNOWN_UNSAFE && e.classification != RELEASE_READY) || e.candidateId in out {
        if ValidClassifications(entries) {
          ValidPrefix(entries, i + 1);
        }
        return None;
      }
      out := out[e.candidateId := e.classification];
    }
    assert entries[..|entries|] == entries;
    forall id ensures (if id in out then out[id] else "") == Classified(entries, id) {
      TableEntry(entries, out, id);
    }
    r := Some(out);
  }
}
