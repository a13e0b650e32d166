/** internal/lockfile: one record per alias, binding source, name, version, size and digest. */
module Lockfile {
  import opened Prelude
  import PkgArchive
  import Semver

  const LOCK_FORMAT := "indexjack-lock/1"

  datatype LockError = InvalidLock | MissingRecord | DuplicateRecord | SizeMismatch | DigestMismatch

  datatype Record = Record(
    alias: string, name: string, version: string, source: string, size: int, sha256: string, artifactFormat: string)

  datatype Lock = Lock(format: string, records: seq<Record>)

  const NO_RECORD := Record("", "", "", "", 0, "", "")

  predicate ValidRecord(r: Record)
  {
    && r.alias != "" && r.name != "" && r.source != "" && r.sha256 != "" && r.size > 0
    && Semver.Parse(r.version).Some? && r.artifactFormat == PkgArchive.MANIFEST_FORMAT
  }

  ghost predicate ValidLock(l: Lock)
  {
    l.format == LOCK_FORMAT && l.records != [] && forall r :: r in l.records ==> ValidRecord(r)
  }

  function RecordsFor(l: Lock, alias: string): seq<Record>
  {
    Filter((r: Record) => r.alias == alias, l.records)
  }

  /* A lock yields a record for an alias only when it is valid and has exactly one. */
  ghost function Binding(l: Lock, alias: string): Result<Record, LockError>
  {
    if !ValidLock(l) then Err(InvalidLock)
    else if |RecordsFor(l, alias)| == 0 then Err(MissingRecord)
    else if |RecordsFor(l, alias)| > 1 then Err(DuplicateRecord)
    else Ok(RecordsFor(l, alias)[0])
  }

  lemma BindingIsDeclared(l: Lock, alias: string)
    requires Binding(l, alias).Ok?
    ensures var r := Binding(l, alias).value; r in l.records && r.alias == alias && ValidRecord(r)
    ensures forall r :: r in l.records && r.alias == alias ==> r == Binding(l, alias).value
    ensures var r := Binding(l, alias).value;
            && r.name != "" && r.source != "" && r.sha256 != "" && r.size > 0 && Semver.Parse(r.version).Some?
            && r.artifactFormat == PkgArchive.MANIFEST_FORMAT && l.format == LOCK_FORMAT
  {
    FilterMembers((r: Record) => r.alias == alias, l.records);
    assert RecordsFor(l, alias) == [Binding(l, alias).value];
    assert Binding(l, alias).value in RecordsFor(l, alias);
    forall r | r in l.records && r.alias == alias ensures r == Binding(l, alias).value {
      assert r in RecordsFor(l, alias);
    }
  }

  method Validate(l: Lock) returns (ok: bool)
    ensures ok <==> ValidLock(l)
  {
    if l.format != LOCK_FORMAT || |l.records| == 0 {
      return false;
    }
    for i := 0 to |l.records|
      invariant forall k :: 0 <= k < i ==> ValidRecord(l.records[k])
    {
      var r := l.records[i];
      assert r in l.records;
      if r.alias == "" || r.name == "" || r.source == "" || r.sha256 == "" || r.size <= 0 {
        return false;
      }
      var version := Semver.ParseVersion(r.version);
      if version.None? || r.artifactFormat != PkgArchive.MANIFEST_FORMAT {
        return false;
      }
    }
    ok := true;
  }

  method FindRecord(l: Lock, alias: string) returns (r: Result<Record, LockError>)
    ensures r == Binding(l, alias)
  {
    var valid := Validate(l);
    if !valid {
      return Err(InvalidLock);
    }
    var found: seq<Record> := [];
    for i := 0 to |l.records|
      invariant found == Filter((r: Record) => r.alias == alias, l.records[..i])
    {
      FilterSnoc((r: Record) => r.alias == alias, l.records[..i], l.records[i]);
      assert l.records[..i + 1] == l.records[..i] + [l.records[i]];
      if l.records[i].alias == alias {
        found := found + [l.records[i]];
      }
    }
    assert l.records[..|l.records|] == l.records;
    if |found| == 0 {
      return Err(MissingRecord);
    }
    if |found| > 1 {
      return Err(DuplicateRecord);
    }
    r := Ok(found[0]);
  }

  /* Size first, then digest. */
  function VerifyBytes(digest: Bytes -> string, r: Record, data: Bytes): Option<LockError>
  {
    if |data| != r.size then Some(SizeMismatch)
    else if digest(data) != r.sha256 then Some(DigestMismatch)
    else None
  }
}
