/**
 What a resolver can observe of the registries. A World is an arbitrary, possibly hostile
 environment: every answer may depend on everything asked before it.
 */
module Network {
  import opened Prelude
  import opened SourcePolicy

  datatype VersionInfo = VersionInfo(version: string, size: int, sha256: string)

  datatype Metadata = Metadata(format: string, source: string, role: string, name: string, versions: seq<VersionInfo>)

  datatype Reply<+T> = Answer(value: T) | NotFound | Unavailable

  datatype Call =
    | MetadataCall(source: Source, name: string)
    | ArtifactCall(source: Source, name: string, version: string)

  datatype World = World(
    dials: (seq<Call>, Source) -> bool,
    metadata: (seq<Call>, Source, string) -> Reply<Metadata>,
    artifact: (seq<Call>, Source, string, string) -> Reply<Bytes>)

  /* The clients a resolver dials, and the requests made through them so far. */
  class Clients {
    const world: World
    var calls: seq<Call>

    constructor (world: World)
      ensures this.world == world && calls == []
    {
      this.world := world;
      calls := [];
    }

    method Dial(source: Source) returns (ok: bool)
      ensures ok == world.dials(calls, source)
    {
      ok := world.dials(calls, source);
    }

    method FetchMetadata(source: Source, name: string) returns (r: Reply<Metadata>)
      modifies this
      ensures r == world.metadata(old(calls), source, name)
      ensures calls == old(calls) + [MetadataCall(source, name)]
    {
      r := world.metadata(calls, source, name);
      calls := calls + [MetadataCall(source, name)];
    }

    method FetchArtifact(source: Source, name: string, version: string) returns (r: Reply<Bytes>)
      modifies this
      ensures r == world.artifact(old(calls), source, name, version)
      ensures calls == old(calls) + [ArtifactCall(source, name, version)]
    {
      r := world.artifact(calls, source, name, version);
      calls := calls + [ArtifactCall(source, name, version)];
    }
  }
}
