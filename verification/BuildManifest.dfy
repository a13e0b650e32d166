/** internal/buildmanifest: the manifest document, and when its validation passes. */
module BuildManifest {
  import opened Prelude
  import Semver

  const MANIFEST_FORMAT := "indexjack-manifest/1"

  datatype Dependency = Dependency(alias: string, name: string, range: string)

  datatype Manifest = Manifest(format: string, project: string, dependencies: seq<Dependency>)

  predicate ValidDependency(d: Dependency)
  {
    d.alias != "" && d.name != "" && Semver.ParseRange(d.range).Some?
  }

  ghost predicate ValidManifest(m: Manifest)
  {
    && m.format == MANIFEST_FORMAT && m.project != "" && m.dependencies != []
    && (forall d :: d in m.dependencies ==> ValidDependency(d))
    && DistinctBy((d: Dependency) => d.alias, m.dependencies)
  }

  method CheckRange(d: Dependency) returns (ok: bool)
    requires d.alias != "" && d.name != ""
    ensures ok <==> ValidDependency(d)
  {
    var range := Semver.ParseRangeText(d.range);
    ok := range.Some?;
  }

  method Validate(m: Manifest) returns (ok: bool)
    ensures ok <==> ValidManifest(m)
  {
    if m.format != MANIFEST_FORMAT || m.project == "" || |m.dependencies| == 0 {
      return false;
    }
    ok := ValidateDependencies(m.dependencies);
  }

  method ValidateDependencies(deps: seq<Dependency>) returns (ok: bool)
    ensures ok <==> (forall d :: d in deps ==> ValidDependency(d)) && DistinctBy((d: Dependency) => d.alias, deps)
  {
    var seen: set<string> := {};
    for i := 0 to |deps|
      invariant seen == set k | 0 <= k < i :: deps[k].alias
      invariant forall k :: 0 <= k < i ==> ValidDependency(deps[k])
      invariant forall j, k :: 0 <= j < k < i ==> deps[j].alias != deps[k].alias
    {
      var d := deps[i];
      assert d in deps;
      if d.alias == "" || d.name == "" {
        return false;
      }
      if d.alias in seen {
        return false;
      }
      seen := seen + {d.alias};
      var valid := CheckRange(d);
      if !valid {
        return false;
      }
    }
    ok := true;
  }
}
