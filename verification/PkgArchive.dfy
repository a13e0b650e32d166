/**
 internal/pkgarchive: the canonical two-entry archive, its builder and its hardened loader.
 SHA-256, ustar and encoding/json are the fields of Codec: arbitrary functions about which
 a lemma assumes only what it states.
 */
module PkgArchive {
  import opened Prelude

  const MANIFEST_FORMAT := "indexjack-package/1"
  const POLICY_FORMAT := "indexjack-policy/1"
  const MANIFEST_ENTRY := "manifest.json"
  const POLICY_ENTRY := "policy.json"
  const MAX_ARCHIVE_SIZE := 0x4_0000
  const MAX_ENTRY_SIZE := 0x1_0000
  const ENTRY_MODE := 292  // 0o444
  const TYPE_REG := '0'

  const KIND_RELEASE_POLICY := "release-policy"
  const KIND_REPORT_FORMAT := "report-format"
  const VERDICT_APPROVE := "APPROVE"
  const VERDICT_REJECT := "REJECT"

  datatype Manifest = Manifest(format: string, name: string, version: string)

  datatype PolicyEntry = PolicyEntry(key: string, value: string)

  datatype Policy = Policy(format: string, kind: string, entries: seq<PolicyEntry>)

  datatype Package = Package(manifest: Manifest, policy: Policy)

  datatype TarHeader = TarHeader(
    name: string, typeflag: char, mode: int, size: int, linkname: string, uid: int, gid: int,
    uname: string, gname: string, modTime: int, paxRecords: nat)

  /* One entry of a stream; body is None when reading it fails. */
  datatype TarEntry = TarEntry(header: TarHeader, body: Option<Bytes>)

  /* The entries a reader yields, and whether it then reports a clean end of archive. */
  datatype TarStream = TarStream(entries: seq<TarEntry>, clean: bool)

  datatype Codec = Codec(
    digest: Bytes -> string,
    tar: seq<TarEntry> -> Bytes,
    untar: Bytes -> TarStream,
    encodeManifest: Manifest -> Bytes,
    decodeManifest: Bytes -> Option<Manifest>,
    encodePolicy: Policy -> Bytes,
    decodePolicy: Bytes -> Option<Policy>)

  datatype ArchiveError =
    | ArchiveTooLarge | UnexpectedEntry | EntryOrder | DuplicateEntry | MissingEntry | NotRegularFile
    | UnsafeEntryMode | EntryTooLarge | EntryMetadata | MalformedContent | UnsupportedKind
    | UnknownPolicyKey | PolicyValue | PolicyOrder | FormatVersion

  // ----- the policy table -----

  predicate KnownKind(kind: string)
  {
    kind == KIND_RELEASE_POLICY || kind == KIND_REPORT_FORMAT
  }

  /* The keys of a kind and the values each key accepts. */
  function AcceptedValues(kind: string, key: string): seq<string>
  {
    if kind == KIND_RELEASE_POLICY then
      if key == "MODEL-CANDIDATE-04" || key == "MODEL-CANDIDATE-17" then [VERDICT_APPROVE, VERDICT_REJECT] else []
    else if kind == KIND_REPORT_FORMAT then
      if key == "divider" then ["dash", "equals"]
      else if key == "field_case" then ["lower", "upper"]
      else if key == "title_style" then ["plain", "upper"]
      else []
    else []
  }

  /* The whole schema: ten values for five keys of the two kinds. */
  lemma SchemaExactly(kind: string, key: string, value: string)
    ensures value in AcceptedValues(kind, key) <==>
            (kind, key, value) in
            { ("release-policy", "MODEL-CANDIDATE-04", "APPROVE"), ("release-policy", "MODEL-CANDIDATE-04", "REJECT"),
              ("release-policy", "MODEL-CANDIDATE-17", "APPROVE"), ("release-policy", "MODEL-CANDIDATE-17", "REJECT"),
              ("report-format", "divider", "dash"), ("report-format", "divider", "equals"),
              ("report-format", "field_case", "lower"), ("report-format", "field_case", "upper"),
              ("report-format", "title_style", "plain"), ("report-format", "title_style", "upper") }
  {
  }

  predicate ValidManifest(m: Manifest)
  {
    m.format == MANIFEST_FORMAT && m.name != "" && m.version != ""
  }

  function ManifestError(m: Manifest): Option<ArchiveError>
  {
    if m.format != MANIFEST_FORMAT then Some(FormatVersion)
    else if m.name == "" || m.version == "" then Some(MalformedContent)
    else None
  }

  /* A table of one kind with at least one entry, every key and value enumerated, keys strictly increasing. */
  ghost predicate ValidTable(p: Policy)
  {
    && p.format == POLICY_FORMAT && KnownKind(p.kind) && p.entries != []
    && (forall i :: 0 <= i < |p.entries| ==> p.entries[i].value in AcceptedValues(p.kind, p.entries[i].key))
    && (forall i, j :: 0 <= i < j < |p.entries| ==> StringLess(p.entries[i].key, p.entries[j].key))
  }

  function EntryError(p: Policy, i: nat): Option<ArchiveError>
    requires i < |p.entries|
  {
    var e := p.entries[i];
    if AcceptedValues(p.kind, e.key) == [] then Some(UnknownPolicyKey)
    else if i > 0 && !StringLess(p.entries[i - 1].key, e.key) then Some(PolicyOrder)
    else if e.value !in AcceptedValues(p.kind, e.key) then Some(PolicyValue)
    else None
  }

  function EntriesError(p: Policy, i: nat): Option<ArchiveError>
    requires i <= |p.entries|
    decreases |p.entries| - i
  {
    if i == |p.entries| then None
    else if EntryError(p, i).Some? then EntryError(p, i)
    else EntriesError(p, i + 1)
  }

  function TableError(p: Policy): Option<ArchiveError>
  {
    if p.format != POLICY_FORMAT then Some(FormatVersion)
    else if !KnownKind(p.kind) then Some(UnsupportedKind)
    else if p.entries == [] then Some(MalformedContent)
    else EntriesError(p, 0)
  }

  ghost predicate EntriesFine(p: Policy, i: nat)
  {
    forall k: nat :: i <= k < |p.entries| ==> EntryError(p, k) == None
  }

  lemma EntriesFineStep(p: Policy, i: nat)
    requires i < |p.entries|
    ensures EntriesFine(p, i) <==> EntryError(p, i) == None && EntriesFine(p, i + 1)
  {
  }

  lemma {:induction false} EntriesErrorFree(p: Policy, i: nat)
    requires i <= |p.entries|
    ensures EntriesError(p, i) == None <==> EntriesFine(p, i)
    decreases |p.entries| - i
  {
    if i < |p.entries| {
      EntriesErrorFree(p, i + 1);
      EntriesFineStep(p, i);
    }
  }

  lemma {:induction false} KeysIncrease(p: Policy, i: nat, j: nat)
    requires forall k :: 0 < k < |p.entries| ==> StringLess(p.entries[k - 1].key, p.entries[k].key)
    requires i < j < |p.entries|
    ensures StringLess(p.entries[i].key, p.entries[j].key)
    decreases j - i
  {
    if i + 1 < j {
      KeysIncrease(p, i, j - 1);
      StringLessTransitive(p.entries[i].key, p.entries[j - 1].key, p.entries[j].key);
    }
  }

  /* Checking each key against its predecessor is enough for the whole table to be in order. */
  lemma TableErrorFree(p: Policy)
    ensures TableError(p) == None <==> ValidTable(p)
  {
    EntriesErrorFree(p, 0);
    if TableError(p) == None {
      forall k | 0 < k < |p.entries| ensures StringLess(p.entries[k - 1].key, p.entries[k].key) {
        assert EntryError(p, k) == None;
      }
      forall i, j | 0 <= i < j < |p.entries| ensures StringLess(p.entries[i].key, p.entries[j].key) {
        KeysIncrease(p, i, j);
      }
      forall i | 0 <= i < |p.entries| ensures p.entries[i].value in AcceptedValues(p.kind, p.entries[i].key) {
        assert EntryError(p, i) == None;
      }
    }
  }

  method ValidatePolicy(p: Policy) returns (err: Option<ArchiveError>)
    ensures err == TableError(p)
    ensures err == None <==> ValidTable(p)
  {
    TableErrorFree(p);
    if p.format != POLICY_FORMAT {
      return Some(FormatVersion);
    }
    if !KnownKind(p.kind) {
      return Some(UnsupportedKind);
    }
    if |p.entries| == 0 {
      return Some(MalformedContent);
    }
    var previous := "";
    for i := 0 to |p.entries|
      invariant i > 0 ==> previous == p.entries[i - 1].key
      invariant EntriesError(p, 0) == EntriesError(p, i)
    {
      var e := p.entries[i];
      var values := AcceptedValues(p.kind, e.key);
      if values == [] {
        return Some(UnknownPolicyKey);
      }
      if i > 0 && !StringLess(previous, e.key) {
        return Some(PolicyOrder);
      }
      previous := e.key;
      var allowed := false;
      for k := 0 to |values|
        invariant allowed <==> e.value in values[..k]
      {
        if e.value == values[k] {
          allowed := true;
          break;
        }
      }
      if !allowed {
        return Some(PolicyValue);
      }
    }
    err := None;
  }

  // ----- looking a key up -----

  function LookupIn(entries: seq<PolicyEntry>, key: string): Option<string>
  {
    if entries == [] then None
    else if entries[0].key == key then Some(entries[0].value)
    else LookupIn(entries[1..], key)
  }

  method Lookup(p: Policy, key: string) returns (r: Option<string>)
    ensures r == LookupIn(p.entries, key)
  {
    for i := 0 to |p.entries|
      invariant LookupIn(p.entries, key) == LookupIn(p.entries[i..], key)
    {
      if p.entries[i].key == key {
        return Some(p.entries[i].value);
      }
    }
    r := None;
  }

  lemma {:induction false} LookupFinds(entries: seq<PolicyEntry>, key: string, value: string)
    requires DistinctBy((e: PolicyEntry) => e.key, entries)
    ensures LookupIn(entries, key) == Some(value) <==> PolicyEntry(key, value) in entries
  {
    if entries != [] {
      var head, tail := entries[0], entries[1..];
      assert entries == [head] + tail;
      DistinctByCons((e: PolicyEntry) => e.key, head, tail);
      LookupFinds(tail, key, value);
      assert forall e :: e in entries <==> e == head || e in tail;
    }
  }

  lemma ValidKeysDistinct(p: Policy)
    requires ValidTable(p)
    ensures DistinctBy((e: PolicyEntry) => e.key, p.entries)
  {
    forall i, j | 0 <= i < j < |p.entries| ensures p.entries[i].key != p.entries[j].key {
      StringLessTrichotomy(p.entries[i].key, p.entries[j].key);
    }
  }

  /* In a valid table a key has one value, whatever order the entries are scanned in, and in a
     release policy that value is APPROVE or REJECT. */
  lemma VerdictsAreTotal(p: Policy, scanned: seq<PolicyEntry>, key: string)
    requires ValidTable(p) && multiset(scanned) == multiset(p.entries)
    ensures LookupIn(scanned, key) == LookupIn(p.entries, key)
    ensures p.kind == KIND_RELEASE_POLICY ==>
              LookupIn(p.entries, key) in {None, Some(VERDICT_APPROVE), Some(VERDICT_REJECT)}
  {
    var keyOf := (e: PolicyEntry) => e.key;
    ValidKeysDistinct(p);
    DistinctByPermuted(keyOf, p.entries, scanned);
    PermutedMembers(scanned, p.entries);
    var found := LookupIn(p.entries, key);
    if found.Some? {
      LookupFinds(p.entries, key, found.value);
      LookupFinds(scanned, key, found.value);
      var i :| 0 <= i < |p.entries| && p.entries[i] == PolicyEntry(key, found.value);
      assert found.value in AcceptedValues(p.kind, key);
    } else if LookupIn(scanned, key).Some? {
      LookupFinds(scanned, key, LookupIn(scanned, key).value);
      LookupFinds(p.entries, key, LookupIn(scanned, key).value);
    }
  }

  // ----- reading an archive -----

  const WANT: seq<string> := [MANIFEST_ENTRY, POLICY_ENTRY]

  /* What is wrong with the entry at position i of a stream, if anything. */
  function StreamEntryError(s: TarStream, i: nat): Option<ArchiveError>
    requires i < |s.entries|
  {
    var h := s.entries[i].header;
    if i >= |WANT| then Some(UnexpectedEntry)
    else if h.name in WANT[..i] then Some(DuplicateEntry)
    else if h.name != WANT[i] then Some(if h.name in WANT then EntryOrder else UnexpectedEntry)
    else if h.typeflag != TYPE_REG then Some(NotRegularFile)
    else if h.mode != ENTRY_MODE then Some(UnsafeEntryMode)
    else if !PlainMetadata(h) then Some(EntryMetadata)
    else if h.size > MAX_ENTRY_SIZE then Some(EntryTooLarge)
    else if s.entries[i].body.None? || |s.entries[i].body.value| != h.size then Some(MalformedContent)
    else None
  }

  predicate PlainMetadata(h: TarHeader)
  {
    && h.linkname == "" && h.uid == 0 && h.gid == 0 && h.uname == "" && h.gname == "" && h.modTime == 0
    && h.paxRecords == 0
  }

  function StreamError(s: TarStream, i: nat): Option<ArchiveError>
    requires i <= |s.entries|
    decreases |s.entries| - i
  {
    if i < |s.entries| then
      if StreamEntryError(s, i).Some? then StreamEntryError(s, i) else StreamError(s, i + 1)
    else if !s.clean then Some(MalformedContent)
    else if i < |WANT| then Some(MissingEntry)
    else None
  }

  function ParseArchive(c: Codec, data: Bytes): Result<Package, ArchiveError>
  {
    if |data| > MAX_ARCHIVE_SIZE then Err(ArchiveTooLarge)
    else
      var s := c.untar(data);
      match StreamError(s, 0)
      case Some(e) => Err(e)
      case None =>
        StreamErrorFree(s);
        match (c.decodeManifest(s.entries[0].body.value), c.decodePolicy(s.entries[1].body.value))
        case (Some(m), Some(p)) =>
          if ManifestError(m).Some? then Err(ManifestError(m).value)
          else if TableError(p).Some? then Err(TableError(p).value)
          else Ok(Package(m, p))
        case _ => Err(MalformedContent)
  }

  /* The header Build writes: a regular read-only file with no other metadata. */
  function CanonicalHeader(name: string, size: int): TarHeader
  {
    TarHeader(name, TYPE_REG, ENTRY_MODE, size, "", 0, 0, "", "", 0, 0)
  }

  ghost predicate CanonicalEntry(e: TarEntry, name: string)
  {
    e.body.Some? && |e.body.value| <= MAX_ENTRY_SIZE && e.header == CanonicalHeader(name, |e.body.value|)
  }

  ghost predicate CanonicalStream(s: TarStream)
  {
    && s.clean && |s.entries| == 2 && CanonicalEntry(s.entries[0], MANIFEST_ENTRY)
    && CanonicalEntry(s.entries[1], POLICY_ENTRY)
  }

  lemma StreamErrorFree(s: TarStream)
    ensures StreamError(s, 0) == None <==> CanonicalStream(s)
  {
    if |s.entries| >= 1 {
      assert WANT[..0] == [];
      assert StreamEntryError(s, 0) == None <==> CanonicalEntry(s.entries[0], MANIFEST_ENTRY);
      if |s.entries| >= 2 {
        assert WANT[..1] == [MANIFEST_ENTRY];
        assert MANIFEST_ENTRY != POLICY_ENTRY;
        assert StreamEntryError(s, 1) == None <==> CanonicalEntry(s.entries[1], POLICY_ENTRY);
        if |s.entries| >= 3 {
          assert StreamEntryError(s, 2).Some?;
          assert StreamError(s, 2).Some?;
        } else {
          assert StreamError(s, 2) == if s.clean then None else Some(MalformedContent);
        }
      } else {
        assert StreamError(s, 1).Some?;
      }
    }
  }

  /* The name the entry at a position must have. */
  function Wanted(i: nat): string
    requires i < 2
  {
    if i == 0 then MANIFEST_ENTRY else POLICY_ENTRY
  }

  lemma {:induction false} StreamErrorFrom(s: TarStream, i: nat, j: nat)
    requires i <= j <= |s.entries| && forall k: nat :: i <= k < j ==> StreamEntryError(s, k) == None
    ensures StreamError(s, i) == StreamError(s, j)
    decreases j - i
  {
    if i < j {
      StreamErrorFrom(s, i + 1, j);
    }
  }

  lemma CanonicalPasses(s: TarStream, i: nat)
    requires i < |s.entries| && i < 2
    ensures StreamEntryError(s, i) == None <==> CanonicalEntry(s.entries[i], Wanted(i))
  {
    assert WANT[..0] == [] && WANT[..1] == [MANIFEST_ENTRY] && MANIFEST_ENTRY != POLICY_ENTRY;
  }

  /* A stream whose first i entries are canonical and whose next one is not is refused for what is wrong with that one:
     its name, its kind, its mode, any other metadata, its size, or its body. */
  lemma StreamErrorsExactly(s: TarStream, i: nat)
    requires i < |s.entries| && i < 2 && forall k: nat :: k < i ==> CanonicalEntry(s.entries[k], Wanted(k))
    requires !CanonicalEntry(s.entries[i], Wanted(i))
    ensures var e, h, body := StreamError(s, 0), s.entries[i].header, s.entries[i].body;
            var named := h.name == Wanted(i);
            var plain := h == CanonicalHeader(h.name, h.size);
            && (e == Some(UnexpectedEntry) <==> h.name != MANIFEST_ENTRY && h.name != POLICY_ENTRY)
            && (e == Some(EntryOrder) <==> i == 0 && h.name == POLICY_ENTRY)
            && (e == Some(DuplicateEntry) <==> i == 1 && h.name == MANIFEST_ENTRY)
            && (e == Some(NotRegularFile) <==> named && h.typeflag != TYPE_REG)
            && (e == Some(UnsafeEntryMode) <==> named && h.typeflag == TYPE_REG && h.mode != ENTRY_MODE)
            && (e == Some(EntryMetadata) <==> named && h.typeflag == TYPE_REG && h.mode == ENTRY_MODE && !plain)
            && (e == Some(EntryTooLarge) <==> named && plain && h.size > MAX_ENTRY_SIZE)
            && (e == Some(MalformedContent) <==> named && plain && h.size <= MAX_ENTRY_SIZE)
  {
    forall k: nat | k < i ensures StreamEntryError(s, k) == None {
      CanonicalPasses(s, k);
    }
    CanonicalPasses(s, i);
    StreamErrorFrom(s, 0, i);
    assert WANT[..0] == [] && WANT[..1] == [MANIFEST_ENTRY] && MANIFEST_ENTRY != POLICY_ENTRY;
  }

  /* A stream of canonical entries is refused for a missing one, a third one, or an unclean end. */
  lemma StreamEndsExactly(s: TarStream)
    requires forall k: nat :: k < |s.entries| && k < 2 ==> CanonicalEntry(s.entries[k], Wanted(k))
    ensures var e := StreamError(s, 0);
            && (e == Some(UnexpectedEntry) <==> |s.entries| > 2)
            && (e == Some(MalformedContent) <==> |s.entries| <= 2 && !s.clean)
            && (e == Some(MissingEntry) <==> |s.entries| < 2 && s.clean)
            && (e == None <==> |s.entries| == 2 && s.clean)
  {
    var n := if |s.entries| < 2 then |s.entries| else 2;
    forall k: nat | k < n ensures StreamEntryError(s, k) == None {
      CanonicalPasses(s, k);
    }
    StreamErrorFrom(s, 0, n);
  }

  /* An archive over the size limit is refused for that; a canonical one for the first document that does not decode or
     is not valid; any other for what is wrong with its stream. */
  lemma ParseErrorsExactly(c: Codec, data: Bytes)
    ensures ParseArchive(c, data) == Err(ArchiveTooLarge) <==> |data| > MAX_ARCHIVE_SIZE
    ensures var s := c.untar(data);
            |data| <= MAX_ARCHIVE_SIZE && !CanonicalStream(s) ==>
              StreamError(s, 0).Some? && ParseArchive(c, data) == Err(StreamError(s, 0).value)
    ensures var s := c.untar(data);
            |data| <= MAX_ARCHIVE_SIZE && CanonicalStream(s) ==>
              var m, p := c.decodeManifest(s.entries[0].body.value), c.decodePolicy(s.entries[1].body.value);
              var parsed := ParseArchive(c, data);
              && (m == None || p == None ==> parsed == Err(MalformedContent))
              && (m.Some? && p.Some? && m.value.format != MANIFEST_FORMAT ==> parsed == Err(FormatVersion))
              && (m.Some? && p.Some? && m.value.format == MANIFEST_FORMAT && !ValidManifest(m.value) ==>
                    parsed == Err(MalformedContent))
              && (m.Some? && p.Some? && ValidManifest(m.value) && !ValidTable(p.value) ==>
                    TableError(p.value).Some? && parsed == Err(TableError(p.value).value))
  {
    var s := c.untar(data);
    StreamErrorFree(s);
    NeverTooLarge(s, 0);
    if |data| <= MAX_ARCHIVE_SIZE && CanonicalStream(s) && c.decodePolicy(s.entries[1].body.value).Some? {
      var p := c.decodePolicy(s.entries[1].body.value).value;
      TableErrorFree(p);
      TableNeverTooLarge(p, 0);
    }
  }

  lemma {:induction false} NeverTooLarge(s: TarStream, i: nat)
    requires i <= |s.entries|
    ensures StreamError(s, i) != Some(ArchiveTooLarge)
    decreases |s.entries| - i
  {
    if i < |s.entries| {
      NeverTooLarge(s, i + 1);
    }
  }

  lemma {:induction false} TableNeverTooLarge(p: Policy, i: nat)
    requires i <= |p.entries|
    ensures EntriesError(p, i) != Some(ArchiveTooLarge)
    decreases |p.entries| - i
  {
    if i < |p.entries| {
      TableNeverTooLarge(p, i + 1);
    }
  }

  lemma {:induction false} EntriesErrorFrom(p: Policy, i: nat, j: nat)
    requires i <= j <= |p.entries| && forall k: nat :: i <= k < j ==> EntryError(p, k) == None
    ensures EntriesError(p, i) == EntriesError(p, j)
    decreases j - i
  {
    if i < j {
      EntriesErrorFrom(p, i + 1, j);
    }
  }

  /* The entry at position i is fine after the one before it. */
  ghost predicate FineEntry(p: Policy, i: nat)
    requires i < |p.entries|
  {
    && p.entries[i].value in AcceptedValues(p.kind, p.entries[i].key)
    && (i > 0 ==> StringLess(p.entries[i - 1].key, p.entries[i].key))
  }

  /* A table is refused for its format, its kind, for being empty, or for its first entry that is not fine: an unknown
     key, a key out of order, or a value the key does not accept. */
  lemma TableErrorsExactly(p: Policy, i: nat)
    requires i < |p.entries| && !FineEntry(p, i) && forall k: nat :: k < i ==> FineEntry(p, k)
    ensures var e, entry := TableError(p), p.entries[i];
            var read, known := p.format == POLICY_FORMAT && KnownKind(p.kind), AcceptedValues(p.kind, entry.key) != [];
            var after := i > 0 ==> StringLess(p.entries[i - 1].key, entry.key);
            && (e == Some(FormatVersion) <==> p.format != POLICY_FORMAT)
            && (e == Some(UnsupportedKind) <==> p.format == POLICY_FORMAT && !KnownKind(p.kind))
            && (e == Some(UnknownPolicyKey) <==> read && !known)
            && (e == Some(PolicyOrder) <==> read && known && !after)
            && (e == Some(PolicyValue) <==> read && known && after)
  {
    forall k: nat | k < i ensures EntryError(p, k) == None {
      assert FineEntry(p, k);
    }
    EntriesErrorFrom(p, 0, i);
  }

  /* Parse accepts a package exactly when the stream is the canonical two-entry one and both
     bodies decode to valid documents. */
  lemma ParseAcceptsExactly(c: Codec, data: Bytes, pkg: Package)
    ensures ParseArchive(c, data) == Ok(pkg) <==>
            && |data| <= MAX_ARCHIVE_SIZE
            && var s := c.untar(data);
            && CanonicalStream(s)
            && c.decodeManifest(s.entries[0].body.value) == Some(pkg.manifest)
            && c.decodePolicy(s.entries[1].body.value) == Some(pkg.policy)
            && ValidManifest(pkg.manifest) && ValidTable(pkg.policy)
  {
    StreamErrorFree(c.untar(data));
    TableErrorFree(pkg.policy);
  }

  method ReadBody(e: TarEntry, limit: nat) returns (r: Option<Bytes>)
    ensures r == match e.body case None => None case Some(b) => Some(if |b| > limit then b[..limit] else b)
  {
    match e.body
    case None => r := None;
    case Some(b) => r := Some(if |b| > limit then b[..limit] else b);
  }

  method Parse(c: Codec, data: Bytes) returns (r: Result<Package, ArchiveError>)
    ensures r == ParseArchive(c, data)
  {
    if |data| > MAX_ARCHIVE_SIZE {
      return Err(ArchiveTooLarge);
    }
    var s := c.untar(data);
    var bodies: map<string, Bytes> := map[];
    var index := 0;
    while index < |s.entries|
      invariant index <= |s.entries| && index <= |WANT|
      invariant bodies.Keys == set i | 0 <= i < index :: WANT[i]
      invariant forall i :: 0 <= i < index ==> s.entries[i].body == Some(bodies[WANT[i]])
      invariant StreamError(s, 0) == StreamError(s, index)
    {
      var entry := s.entries[index];
      var hdr := entry.header;
      if index >= |WANT| {
        return Err(UnexpectedEntry);
      }
      assert forall name :: name in bodies <==> name in WANT[..index];
      if hdr.name in bodies {
        return Err(DuplicateEntry);
      }
      if hdr.name != WANT[index] {
        return Err(if hdr.name in WANT then EntryOrder else UnexpectedEntry);
      }
      if hdr.typeflag != TYPE_REG {
        return Err(NotRegularFile);
      }
      if hdr.mode != ENTRY_MODE {
        return Err(UnsafeEntryMode);
      }
      if !PlainMetadata(hdr) {
        return Err(EntryMetadata);
      }
      if hdr.size > MAX_ENTRY_SIZE {
        return Err(EntryTooLarge);
      }
      var body := ReadBody(entry, MAX_ENTRY_SIZE + 1);
      if body.None? {
        return Err(MalformedContent);
      }
      if |body.value| != hdr.size {
        return Err(MalformedContent);
      }
      bodies := bodies[hdr.name := body.value];
      index := index + 1;
    }
    if !s.clean {
      return Err(MalformedContent);
    }
    for i := 0 to |WANT|
      invariant forall k :: 0 <= k < i ==> WANT[k] in bodies
    {
      if WANT[i] !in bodies {
        return Err(MissingEntry);
      }
    }
    assert WANT[0] in bodies && WANT[1] in bodies;
    var m := c.decodeManifest(bodies[MANIFEST_ENTRY]);
    if m.None? {
      return Err(MalformedContent);
    }
    var p := c.decodePolicy(bodies[POLICY_ENTRY]);
    if p.None? {
      return Err(MalformedContent);
    }
    if ManifestError(m.value).Some? {
      return Err(ManifestError(m.value).value);
    }
    var err := ValidatePolicy(p.value);
    if err.Some? {
      return Err(err.value);
    }
    r := Ok(Package(m.value, p.value));
  }

  // ----- building an archive -----

  function BuiltEntries(c: Codec, m: Manifest, p: Policy): seq<TarEntry>
  {
    [TarEntry(CanonicalHeader(MANIFEST_ENTRY, |c.encodeManifest(m)|), Some(c.encodeManifest(m))),
     TarEntry(CanonicalHeader(POLICY_ENTRY, |c.encodePolicy(p)|), Some(c.encodePolicy(p)))]
  }

  function BuildArchive(c: Codec, m: Manifest, p: Policy): Result<Bytes, ArchiveError>
  {
    if ManifestError(m).Some? then Err(ManifestError(m).value)
    else if TableError(p).Some? then Err(TableError(p).value)
    else Ok(c.tar(BuiltEntries(c, m, p)))
  }

  method Build(c: Codec, m: Manifest, p: Policy) returns (r: Result<Bytes, ArchiveError>)
    ensures r == BuildArchive(c, m, p)
    ensures r.Ok? <==> ValidManifest(m) && ValidTable(p)
  {
    if ManifestError(m).Some? {
      return Err(ManifestError(m).value);
    }
    var err := ValidatePolicy(p);
    if err.Some? {
      return Err(err.value);
    }
    var written: seq<TarEntry> := [];
    var files := [(MANIFEST_ENTRY, c.encodeManifest(m)), (POLICY_ENTRY, c.encodePolicy(p))];
    for i := 0 to |files|
      invariant |written| == i
      invariant forall k :: 0 <= k < i ==>
                  written[k] == TarEntry(CanonicalHeader(files[k].0, |files[k].1|), Some(files[k].1))
    {
      var (name, body) := files[i];
      written := written + [TarEntry(CanonicalHeader(name, |body|), Some(body))];
    }
    assert written == BuiltEntries(c, m, p);
    r := Ok(c.tar(written));
  }

  // ----- the round trip -----

  function Padded(n: nat): nat
  {
    (n + 511) / 512 * 512
  }

  /* The size of a ustar archive of two entries: a header block and padded body each, and two closing blocks. */
  ghost predicate TarFaithful(c: Codec, es: seq<TarEntry>)
    requires |es| == 2 && es[0].body.Some? && es[1].body.Some?
  {
    && c.untar(c.tar(es)) == TarStream(es, true)
    && |c.tar(es)| == 2048 + Padded(|es[0].body.value|) + Padded(|es[1].body.value|)
  }

  /* encoding/json writes at most six bytes for a character and a fixed frame around each field. */
  ghost predicate JsonSizeBounded(c: Codec, p: Policy)
  {
    |c.encodePolicy(p)| <= 64 + 6 * (|p.format| + |p.kind|) + EntriesSize(p.entries)
  }

  function EntriesSize(es: seq<PolicyEntry>): nat
  {
    if es == [] then 0 else 32 + 6 * (|es[0].key| + |es[0].value|) + EntriesSize(es[1..])
  }

  function KeySet(es: seq<PolicyEntry>): set<string>
  {
    set i | 0 <= i < |es| :: es[i].key
  }

  lemma {:induction false} DistinctKeysCounted(es: seq<PolicyEntry>)
    requires DistinctBy((e: PolicyEntry) => e.key, es)
    ensures |KeySet(es)| == |es|
  {
    if es != [] {
      var tail := es[1..];
      assert es == [es[0]] + tail;
      DistinctByCons((e: PolicyEntry) => e.key, es[0], tail);
      DistinctKeysCounted(tail);
      KeySetCons(es[0], tail);
    }
  }

  lemma KeySetCons(e: PolicyEntry, tail: seq<PolicyEntry>)
    requires forall x :: x in tail ==> x.key != e.key
    ensures KeySet([e] + tail) == KeySet(tail) + {e.key} && e.key !in KeySet(tail)
  {
    var es := [e] + tail;
    assert es[0] == e && forall i :: 0 <= i < |tail| ==> es[i + 1] == tail[i] && tail[i] in tail;
  }

  lemma {:induction false} EntriesSizeBounded(es: seq<PolicyEntry>)
    requires forall e :: e in es ==> |e.key| + |e.value| <= 25
    ensures EntriesSize(es) <= 182 * |es|
  {
    if es != [] {
      EntriesSizeBounded(es[1..]);
      assert es[0] in es;
    }
  }

  lemma AcceptedTextIsShort(kind: string, key: string, value: string)
    requires value in AcceptedValues(kind, key)
    ensures |key| <= 18 && |value| <= 7
    ensures key in {"MODEL-CANDIDATE-04", "MODEL-CANDIDATE-17"} + {"divider", "field_case", "title_style"}
  {
  }

  /* The schema bounds a valid table, so its body never reaches the entry limit. */
  lemma ValidTableIsSmall(c: Codec, p: Policy)
    requires ValidTable(p) && JsonSizeBounded(c, p)
    ensures |c.encodePolicy(p)| <= 2048
  {
    ValidTableIsShort(p);
    forall e | e in p.entries ensures |e.key| + |e.value| <= 25 {
      AcceptedTextIsShort(p.kind, e.key, e.value);
    }
    EntriesSizeBounded(p.entries);
  }

  lemma ValidTableIsShort(p: Policy)
    requires ValidTable(p)
    ensures |p.entries| <= 5
  {
    ValidKeysDistinct(p);
    DistinctKeysCounted(p.entries);
    var keys := {"MODEL-CANDIDATE-04", "MODEL-CANDIDATE-17"} + {"divider", "field_case", "title_style"};
    forall e | e in p.entries ensures e.key in keys {
      AcceptedTextIsShort(p.kind, e.key, e.value);
    }
    assert KeySet(p.entries) <= keys;
    SubsetSize(KeySet(p.entries), keys);
  }

  lemma {:induction false} SubsetSize(a: set<string>, b: set<string>)
    requires a <= b
    ensures |a| <= |b|
  {
    if a != {} {
      var x :| x in a;
      SubsetSize(a - {x}, b - {x});
    }
  }

  /* For a valid manifest and table that survive JSON, what Build writes Parse reads back, exactly
     when the manifest's body fits one entry. */
  lemma BuildParseRoundTrip(c: Codec, m: Manifest, p: Policy)
    requires ValidManifest(m) && ValidTable(p)
    requires c.decodeManifest(c.encodeManifest(m)) == Some(m) && c.decodePolicy(c.encodePolicy(p)) == Some(p)
    requires TarFaithful(c, BuiltEntries(c, m, p)) && JsonSizeBounded(c, p)
    ensures BuildArchive(c, m, p).Ok?
    ensures var parsed := ParseArchive(c, BuildArchive(c, m, p).value);
            if |c.encodeManifest(m)| <= MAX_ENTRY_SIZE then parsed == Ok(Package(m, p)) else parsed.Err?
  {
    TableErrorFree(p);
    ValidTableIsSmall(c, p);
    var data := BuildArchive(c, m, p).value;
    var es := BuiltEntries(c, m, p);
    ParseAcceptsExactly(c, data, Package(m, p));
    if |c.encodeManifest(m)| > MAX_ENTRY_SIZE && |data| <= MAX_ARCHIVE_SIZE {
      StreamErrorFree(TarStream(es, true));
    }
  }

  // ----- a package that builds and does not parse -----

  const OVERSIZED_BODY: Bytes := seq(MAX_ENTRY_SIZE + 1, _ => 0)

  /* A codec under which the manifest takes one byte more than an entry may hold, and the archive of manifest
     and table is read back as it was written. */
  function OversizedCodec(m: Manifest, p: Policy): Codec
  {
    var entries := [TarEntry(CanonicalHeader(MANIFEST_ENTRY, MAX_ENTRY_SIZE + 1), Some(OVERSIZED_BODY)),
                    TarEntry(CanonicalHeader(POLICY_ENTRY, 1), Some([0]))];
    Codec(_ => "", _ => seq(2048 + Padded(MAX_ENTRY_SIZE + 1) + Padded(1), _ => 0), _ => TarStream(entries, true),
          _ => OVERSIZED_BODY, _ => Some(m), _ => [0], _ => Some(p))
  }

  /* Every valid manifest and table have such a codec: there the package builds, well within the archive limit,
     and what was built does not parse. */
  lemma OversizedBuildIsRefused(m: Manifest, p: Policy)
    requires ValidManifest(m) && ValidTable(p)
    ensures var c := OversizedCodec(m, p);
            && BuildArchive(c, m, p).Ok? && |BuildArchive(c, m, p).value| <= MAX_ARCHIVE_SIZE
            && ParseArchive(c, BuildArchive(c, m, p).value).Err?
  {
    var c := OversizedCodec(m, p);
    assert c.untar(c.tar(BuiltEntries(c, m, p))) == TarStream(BuiltEntries(c, m, p), true);
    BuildParseRoundTrip(c, m, p);
  }
}
