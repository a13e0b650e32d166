# Dependency resolution, from version text to release ledger

This project models indexjack's dependency-resolution pipeline in Dafny and proves what it promises over every
registry behaviour and every sequence of runs. `dafny verify dfyconfig.toml` checks all of it.

## What is modelled

| module | repository part |
|---|---|
| `Semver`, `CanonicalJson`, `JsonStreams`, `PkgArchive` | versions and ranges as text; the duplicate-key walk; package archives |
| `SourcePolicy`, `Lockfile`, `BuildManifest` | the three documents a resolution works from |
| `Network`, `Resolver`, `CombinedIndex` | the registry world, the secure resolver, the combined-index resolver |
| `Registry`, `Boundary` | the fixture registry, its observation log, its receipts, any interleaving of clients |
| `Ledger`, `Audit`, `Fixtures`, `ReleaseGate` | the ledger and audit file, the scenario documents, one run end to end |
| `FailureLaws`, `RecordLaws`, `OutcomeLaws` | why a resolution fails, what its record shows, and what a run leaves behind, in terms of documents and answers |
| `BuildLaws`, `GateLaws`, `RunHistory`, `ExampleRun` | what a build, a run and any sequence of runs promise, and one small run |
| `PolicyChange`, `CheckedInPolicies` | what of a source policy a build and a run depend on, and four policies of the repository |
| `Consistency`, `ConsistencyLaws` | the fixture consistency check, and what it rules out |
| `ServedWorld`, `ServedPool` | what the secure and the combined resolver make of the checked-in registries, side by side |
| `Harness`, `LiveStack` | reconciliation, integrity verdicts, collected receipts and request conservation |
| `Prelude`, `Sorting` | sequences, string order, stable and unstable sorting |

**The world.** A `World` answers dials, metadata and artifact requests. It is arbitrary and may be hostile: each answer may
depend on the whole history of requests made so far, by any dependency. `Clients` holds the world and the trace of calls.

**Form.** Code that works step by step is a method with loops and `modifies` clauses: `Resolve`, `Execute`, the observation log,
the token walk, the validators. Each is proved to compute a specification function (`Resolver.Outcome`, `CombinedIndex.Outcome`,
`ReleaseGate.EffectOf`, `CanonicalJson.WalkValue`) or to decide a predicate (`ValidPolicy`, `ValidManifest`, `Consistent`), and the
laws are proved about that function or predicate. The secure resolver's specification is a list of 22 checks in the order the
program makes them: the outcome is fixed by the first check that does not hold, and no check mentions the record.

**Host functions.** SHA-256, the MAC, tar, JSON, the correlation id and the audit leak filter are fields of `Codec`, `Crypto` and
`Text`: any functions at all. Where two byte strings must not collide, or a document must survive encoding, the lemma that needs
it says so about those very values. Strings are compared by code unit. Sorting is modelled by what the library promises:
`StableSort` is proved to be the only stable result, and `UnstableSort` promises a sorted permutation and no more.

## Results a reader may not expect

- **A fresh approval can be left without an audit record.** The ledger row is saved before the record is emitted, so a
  scenario id that the audit filter refuses leaves a row, no record and no outcome. `RunHistory.OrphanExactly` says exactly
  when, `RunHistory.RefusedIdLeavesOrphan` turns any fresh approval into such a run, `ExampleRun.ExampleOrphans` is one, and
  `RunHistory.ApprovalsMatchRows` says that approvals and rows agree in number exactly when no run ever did this.
- **A stopped build is not always BUILD_FAILED.** If the alias it stopped on (or the scenario id) may not be reported, the run
  returns an error and no outcome: `GateLaws.StoppedBuildFailsClosed`. `GateLaws.UnreportableAliasFailsSilently` gives such a
  manifest beside any secure scenario, and `ExampleRun.ExampleFailsSilently` is one. The ledger is unchanged either way.
- **A finished build may end without an outcome.** When the release policy has no entry for a candidate that the audit filter
  refuses, the run returns an error: `GateLaws.FinishedBuildCompletes` is exact about it,
  `GateLaws.RefusedCandidateEndsSilently` turns any run that consults a release policy into such a run, and
  `ExampleRun.ExampleEndsSilently` is one.
- **The record of a non-exclusive policy is blank.** A comment at internal/resolver/resolver.go:155-157 says a failure can still
  say what policy decided; the decision is assigned after the exclusivity check (internal/resolver/resolver.go:176-180). The
  model follows the code. `Resolver.PolicyRecordedExactly`: the decision is recorded exactly when the mapping is exclusive;
  `Resolver.PooledDecisionIsNotRecorded` is a policy whose decision is lost.
- **`Build` accepts what `Parse` refuses.** A manifest body above the entry limit builds and then fails to parse;
  `PkgArchive.BuildParseRoundTrip` gives the exact condition, and `PkgArchive.OversizedBuildIsRefused` shows it for every valid
  manifest and table. The policy body never exceeds the limit (`ValidTableIsSmall`).
- **A receipt may miss a request that was cut off.** A request is recorded when its handler returns, and the server ends the
  answer after that. A client that reads its answers to the end is told everything (`Boundary.PatientReceiptIsWhole`), and a run
  that does so accounts for every request (`LiveStack.CollectAfterRun`). One that times out or is cut off may read a receipt
  that does not list the request yet: `Boundary.CutOffRequestIsMissed`.
- **Sorting a fixture set asks nothing of versions, and of names only that same-named packages hold the same.**
  `Registry.SortedVersionsServeTheSame` needs no uniqueness. sort.Slice promises no order among equal names, and
  `Registry.NameServedExactly` says that a name is served as before under every order it may leave exactly when all packages of
  that name are, versions sorted, the same.
- **Two clients with one run id share receipts.** A request is recorded under the run id it carries.
  `Boundary.ReceiptEqualsTrace` is an equivalence: the receipt is the client's own trace exactly when no other client completed
  a request under that run id. In `Boundary.SharedRunIdSharesReceipt` a client that asked nothing is reported another's request.
- **The order of a pool is not only display.** docs/RESOLVER.md:206-207 calls it that. It never changes the version selected
  (`CombinedIndex.PoolListingIsNotTrust`, and `CheckedInPolicies.PrivateFirstIsNoFix` for the two checked-in policies), but it
  decides among the sources that offer the greatest version: `CombinedIndex.AnyBestSourceCanWin`, and
  `ServedPool.PinnedVersionTakesFirst` for a manifest that pins one version.
- **Of a policy a secure run uses only where it binds the declared names.** Everything else in it may change
  (`PolicyChange.RunIgnoresRestOfPolicy`); where every dependency resolves, even that may (`GateLaws.LockDeterminesRun`).
  `Resolver.PolicyChangeIsInvisibleExactly` and `Resolver.WideningIsInvisibleExactly` are equivalences.
- **The two resolvers can agree.** Where a dependency of a consistent scenario resolves securely, the combined index takes the
  same artifact exactly when the bound registry publishes no newer version in range: `ServedPool.ResolversAgreeExactly`.

## Model

| member | source | states |
|---|---|---|
| Semver.CompareIsTotalOrder | internal/semver/semver.go:69-90 | comparison is antisymmetric, transitive and zero only on equal versions |
| Semver.CompareIsLexicographic | internal/semver/semver.go:68-90 | 1, 0 or -1 as the first component that differs is greater, none differs, or it is less |
| Semver.SatisfiesExactly | internal/semver/semver.go:142-153 | component by component: an exact range admits its base alone, an at-least range its base and every later version, a caret range those of the same major |
| Semver.ComponentBijection | internal/semver/semver.go:36-50 | a component is accepted as n exactly when it is the decimal spelling of a 64-bit n |
| Semver.VersionBijection | internal/semver/semver.go:30-66 | a text parses to v exactly when it is v's spelling, for every text and version |
| Semver.RangeBijection | internal/semver/semver.go:113-141 | the same, both ways, for exact, caret and at-least ranges |
| Semver.RangeFormExactly | internal/semver/semver.go:112-129 | a range text is a caret range exactly when it begins with ^, at-least exactly when with >=, exact exactly when it is a version |
| Semver.SpellingIsIdentity | internal/resolver/resolver.go:239-244 | matching version texts is the same as comparing versions |
| Semver.OverflowRejected | internal/semver/semver.go:45-48 | a dotted triple of any size parses exactly when every component is below 2^64 |
| Semver.ParseUint | internal/semver/semver.go:45-48 | the checked 64-bit accumulation reads a digit string exactly when its value fits |
| Semver.ParseVersion | internal/semver/semver.go:30-53 | the version parser accepts exactly the canonical spellings |
| Semver.ParseRangeText | internal/semver/semver.go:113-129 | the range parser accepts exactly the canonical range spellings |
| Sorting.StableSortCorrect | internal/combinedindex/combinedindex.go:129-137 | a stable sort is a sorted permutation that keeps the order of ties |
| Sorting.StableSortIsUnique | internal/combinedindex/combinedindex.go:129-137 | and there is only one such result |
| Sorting.UnstableSort | internal/registry/registry.go:417 | an unstable sort is some sorted permutation |
| Prelude.StringLessIsLexicographic | internal/registry/registry.go:417 | one string is less than another exactly when, at the first position where they differ, it ends or has the lesser character |
| CanonicalJson.WalkAgreesWithTree | internal/canonicaljson/canonicaljson.go:54-114 | on any stream starting with a JSON value's tokens the walk consumes exactly that value and accepts it exactly when no object repeats a name and no member value lies deeper than 32 |
| CanonicalJson.WalkAcceptsExactly | internal/canonicaljson/canonicaljson.go:54-114 | on any stream at all, what is accepted is exactly an acceptable tree at its start |
| CanonicalJson.Decoder.Next | internal/canonicaljson/canonicaljson.go:64-67 | the decoder yields each token once, in order, then ends |
| CanonicalJson.CheckValue | internal/canonicaljson/canonicaljson.go:60-69 | the depth test and one token, advancing the shared decoder as the walk says |
| CanonicalJson.CheckFrom | internal/canonicaljson/canonicaljson.go:71-114 | the mutually recursive loops consume and judge exactly as the walk |
| CanonicalJson.CheckDuplicateKeys | internal/canonicaljson/canonicaljson.go:54-58 | no error exactly when an acceptable value starts the stream; on a value, the error names a defect it has; on any stream, the walk's error |
| JsonStreams.EndOfInputExactly | internal/canonicaljson/canonicaljson.go:60-114 | the walk runs out of tokens exactly on a stream that is a proper beginning of an acceptable value |
| JsonStreams.RefusedAtFirstFault | internal/canonicaljson/canonicaljson.go:60-114 | a stream is refused at the first token that no acceptable value has there, with one error whatever follows |
| JsonStreams.UnexpectedIsNoJson | internal/canonicaljson/canonicaljson.go:87-90 | a token is called unexpected only where no JSON value at all goes on with it |
| PkgArchive.TableErrorFree | internal/pkgarchive/pkgarchive.go:288-321 | the table check passes exactly on strictly increasing enumerated keys with accepted values |
| PkgArchive.ValidatePolicy | internal/pkgarchive/pkgarchive.go:288-321 | the validation loop finds the first error in scan order |
| PkgArchive.Lookup | internal/pkgarchive/pkgarchive.go:126-133 | the scan returns the first entry of the key |
| PkgArchive.VerdictsAreTotal | internal/pkgarchive/pkgarchive.go:288-321 | in a valid table lookup ignores scan order, and a release policy yields only APPROVE, REJECT or nothing |
| PkgArchive.Parse | internal/pkgarchive/pkgarchive.go:199-276 | the entry loop computes the archive parse |
| PkgArchive.ParseAcceptsExactly | internal/pkgarchive/pkgarchive.go:199-276 | an archive parses to a package exactly when it is within the size limit and is the two entries in canonical order with canonical metadata, whose bodies decode to that valid package |
| PkgArchive.ParseErrorsExactly | internal/pkgarchive/pkgarchive.go:199-276 | why an archive is refused: its size, its stream, a body that does not decode, the format or fields of its manifest, its table |
| PkgArchive.StreamErrorsExactly | internal/pkgarchive/pkgarchive.go:199-276 | the first entry that is not canonical is refused for its name, kind, mode, other metadata, size or body, one equivalence for each error |
| PkgArchive.StreamEndsExactly | internal/pkgarchive/pkgarchive.go:199-276 | canonical entries are refused exactly for a third one, an unclean end, or a missing one |
| PkgArchive.TableErrorsExactly | internal/pkgarchive/pkgarchive.go:288-321 | a table is refused for its format, its kind, or its first bad entry: an unknown key, a key out of order, a value not accepted |
| PkgArchive.SchemaExactly | internal/pkgarchive/pkgarchive.go:101-113 | the ten values the five keys of the two kinds accept, and no others |
| PkgArchive.Build | internal/pkgarchive/pkgarchive.go:139-183 | building succeeds exactly on a valid manifest and table, and writes the two canonical entries |
| PkgArchive.ValidTableIsSmall | internal/pkgarchive/pkgarchive.go:288-321 | the schema bounds the encoded table well below the entry limit |
| PkgArchive.BuildParseRoundTrip | internal/pkgarchive/pkgarchive.go:139-276 | parsing a built package gives it back exactly when its manifest body is within the entry limit, and is an error otherwise |
| PkgArchive.OversizedBuildIsRefused | internal/pkgarchive/pkgarchive.go:139-276 | for every valid manifest and table there is a codec under which the package builds within the archive limit and does not parse |
| SourcePolicy.StarPatternsOverlap | internal/sourcepolicy/sourcepolicy.go:234-239 | two trailing-star patterns share a name exactly when one prefix starts the other |
| SourcePolicy.MatchesExactly | internal/sourcepolicy/sourcepolicy.go:234-239 | a pattern matches itself, and with a star in place of its end every name with that beginning, and nothing else |
| SourcePolicy.ValidPatternExactly | internal/sourcepolicy/sourcepolicy.go:170-178 | a valid pattern is a non-empty name without star, or a beginning of one with a star after it |
| SourcePolicy.LookupSource | internal/sourcepolicy/sourcepolicy.go:102-109 | the first declared source with the id |
| SourcePolicy.Validate | internal/sourcepolicy/sourcepolicy.go:112-167 | validation passes exactly on a valid policy, and otherwise reports its first defect in document order |
| SourcePolicy.PolicyFaultsExactly | internal/sourcepolicy/sourcepolicy.go:132-166 | the first bad mapping is refused for an unsupported mode, an undeclared source, or its form |
| SourcePolicy.PoolFaultsExactly | internal/sourcepolicy/sourcepolicy.go:153-162 | the first id of a pool that is undeclared or repeated decides which of the two errors it is |
| SourcePolicy.Resolve | internal/sourcepolicy/sourcepolicy.go:183-231 | exactly one matching mapping decides; a malformed policy, no mapping or several is the error it should be |
| SourcePolicy.DecisionShape | internal/sourcepolicy/sourcepolicy.go:197-231 | an exclusive decision pools only its declared bound source, a combined one binds nothing and pools two or more distinct declared sources |
| SourcePolicy.DecisionFollowsMapping | internal/sourcepolicy/sourcepolicy.go:205-231 | the pool are the sources the mapping lists, in its order, the bound source the one it names, the excluded ones all others in the order declared; each pooled source has an id, a url and a known role |
| SourcePolicy.PoolAndExcludedPartition | internal/sourcepolicy/sourcepolicy.go:209-230 | pool and excluded together are the declared sources, each once |
| SourcePolicy.PolicyOrderFree | internal/sourcepolicy/sourcepolicy.go:112-239 | permuting sources and mappings changes neither validity, nor success, nor the error, nor mode, bound source and pool |
| SourcePolicy.WideningDecidesAlike | internal/sourcepolicy/sourcepolicy.go:183-231 | more sources and mappings leave the decision for a name alone exactly when the policy stays valid and no new mapping matches the name |
| Lockfile.Validate | internal/lockfile/lockfile.go:48-71 | a lock passes exactly when it is well formed |
| Lockfile.FindRecord | internal/lockfile/lockfile.go:74-92 | the one record of an alias, or invalid, missing or duplicate in that order |
| Lockfile.BindingIsDeclared | internal/lockfile/lockfile.go:48-92 | a record found is declared, complete, of a positive size and a readable version, and the only one of its alias |
| BuildManifest.Validate | internal/buildmanifest/buildmanifest.go:38-59 | a manifest passes exactly when complete, with unique aliases and readable ranges |
| Resolver.OrderCandidates | internal/resolver/resolver.go:288-314 | the collected and sorted candidate list |
| Resolver.CandidatesAreOrdered | internal/resolver/resolver.go:288-314 | candidates are a permutation of the listings within the version model, newest first |
| Resolver.CandidatesOfVersion | internal/resolver/resolver.go:288-314 | sorting keeps the source's own order among listings of one version |
| Resolver.SelectVersion | internal/resolver/resolver.go:238-249 | the first candidate with the locked version is the source's first listing of it |
| Resolver.ApplyPolicy | internal/resolver/resolver.go:160-183 | stage 1 makes checks 0-3 in order and writes the record to match |
| Resolver.ApplyLock | internal/resolver/resolver.go:185-205 | the lock's record, name and source: checks 4-8 |
| Resolver.CheckLockedRange | internal/resolver/resolver.go:206-219 | the declared range and the locked version: checks 9-11 |
| Resolver.QueryBound | internal/resolver/resolver.go:221-235 | stage 3 dials and asks the bound source, and only it |
| Resolver.SelectLocked | internal/resolver/resolver.go:237-249 | stage 4 selects the locked version or fails |
| Resolver.FetchLocked | internal/resolver/resolver.go:251-269 | stage 5 fetches and compares size, then digest |
| Resolver.ReadLocked | internal/resolver/resolver.go:271-282 | stage 6 parses, then compares name and version |
| Resolver.Resolve | internal/resolver/resolver.go:149-283 | the six stages give the record, failure and requests fixed by the first failing check |
| Resolver.StopIsFirstFailure | internal/resolver/resolver.go:149-283 | the check a resolution stops at is the first that does not hold |
| Resolver.AcceptsExactly | internal/resolver/resolver.go:149-283 | a package is returned exactly when policy, exclusivity, lock, name, source, range, availability, size, digest, parse and identity all hold; otherwise the failure is that of the first failing check |
| FailureLaws.PolicyFailuresExactly | internal/resolver/resolver.go:160-179 | in terms of the policy: each of the four policy classes is given exactly when the policy is malformed, no mapping matches, several do, or the one that does pools sources |
| FailureLaws.LockFailuresExactly | internal/resolver/resolver.go:185-219 | in terms of the lock: invalid, missing, duplicate, name mismatch, source mismatch and range conflict, each exactly when |
| FailureLaws.QueryFailuresExactly | internal/resolver/resolver.go:221-248 | the bound source cannot be dialled or does not answer, or does not list the locked version |
| FailureLaws.FetchFailuresExactly | internal/resolver/resolver.go:251-266 | it does not serve the artifact, or bytes of another size, or of the size but another digest |
| FailureLaws.ParseFailuresExactly | internal/resolver/resolver.go:271-280 | the pinned bytes are not a package, or one of another name or version |
| RecordLaws.RecordShowsDocuments | internal/resolver/resolver.go:155-197 | what was asked for, the declared sources, the decision and all sources it leaves out, and the locked record, each shown exactly once it is known |
| RecordLaws.RecordShowsAnswers | internal/resolver/resolver.go:221-281 | the source asked, its listings in order, its first listing of the locked version, size and digest of the bytes once they match, and the package on success |
| RecordLaws.CallsExactly | internal/resolver/resolver.go:221-252 | nothing is asked before policy and lock agree, then metadata of the name, then the artifact of the locked version once that is listed |
| Resolver.AcceptedIsLocked | internal/resolver/resolver.go:185-282 | what is accepted has the locked name, source, version, size and digest |
| Resolver.TraceIsBound | internal/resolver/resolver.go:222-252 | the requests are a prefix of one metadata and one artifact request to the bound source, and none is made before policy and lock agree |
| Resolver.PolicyRecordedExactly | internal/resolver/resolver.go:155-183 | once the policy decides the name, the record shows the decision exactly when the mapping is exclusive, and otherwise shows none |
| Resolver.PooledDecisionIsNotRecorded | internal/resolver/resolver.go:155-183 | a policy that pools two sources and excludes a third, neither of which the record shows |
| Resolver.NonInterference | internal/resolver/resolver.go:160-282 | record, failure and requests depend on nothing but the bound source's two answers |
| Resolver.ReportedMetadataIsNotTrusted | internal/resolver/resolver.go:226-282 | reported sizes, digests, order and extra versions change neither acceptance, nor failure, nor package |
| Resolver.LockDetermines | internal/resolver/resolver.go:185-282 | two worlds that both let a dependency resolve, under any two policies, give the same locked content |
| Resolver.PolicyOrderIsInvisible | internal/resolver/resolver.go:160-183 | reordering a policy changes neither failure, nor requests, nor what is accepted |
| Resolver.DecidedAlikeResolvesAlike | internal/resolver/resolver.go:160-205 | two policies that decide the name alike give the same failure, requests and accepted content |
| Resolver.WideningIsInvisibleExactly | internal/resolver/resolver.go:160-172 | under a policy with more sources and mappings a resolution comes out the same exactly when that policy is valid and none of the new mappings matches the name |
| Resolver.PolicyChangeIsInvisibleExactly | internal/resolver/resolver.go:160-258 | another policy leaves a resolution that asks anything the same exactly when it binds the name exclusively to the same source |
| CombinedIndex.CollectOffers | internal/combinedindex/combinedindex.go:108-124 | one source's compatible listings become offers in its order |
| CombinedIndex.AskSource | internal/combinedindex/combinedindex.go:94-124 | one turn of the loop: dial, ask, offer, skip or stop |
| CombinedIndex.PollPool | internal/combinedindex/combinedindex.go:93-125 | the loop asks the pool in order up to the first source that is down, and merges the offers |
| CombinedIndex.Resolve | internal/combinedindex/combinedindex.go:54-176 | policy, polling, sorting, selection and fetch give the specified record, failure and requests |
| FailureLaws.CombinedPolicyFailuresExactly | internal/combinedindex/combinedindex.go:54-92 | an invalid policy and an unreadable range are one class; no mapping and several are the other two |
| FailureLaws.CombinedPoolFailuresExactly | internal/combinedindex/combinedindex.go:93-176 | each class exactly when: a pooled source is down, none lists a version in range, the selected one is down, lacks the artifact or serves no package |
| RecordLaws.CombinedRecordShowsDocuments | internal/combinedindex/combinedindex.go:54-92 | what was asked for, the decision and the declared sources outside its pool; never a locked record |
| RecordLaws.CombinedRecordShowsAnswers | internal/combinedindex/combinedindex.go:93-176 | the queried sources are those asked, up to the first that is down; the candidates are the offers in order, the first is selected, and size and digest are those of the fetched bytes |
| CombinedIndex.FetchSelected | internal/combinedindex/combinedindex.go:149-175 | the selected artifact is fetched, recorded and parsed, and never compared |
| CombinedIndex.SourceById | internal/combinedindex/combinedindex.go:178-185 | the pooled source with the id |
| CombinedIndex.MergeIsPlaced | internal/combinedindex/combinedindex.go:94-125 | the merged offers are exactly the compatible listings of the answering sources |
| CombinedIndex.OffersAreListed | internal/combinedindex/combinedindex.go:94-140 | the candidates are a sorted permutation of exactly those offers |
| CombinedIndex.SelectionIsFirstMaximum | internal/combinedindex/combinedindex.go:129-147 | sorting by the three keys puts first the first offer of the greatest version |
| CombinedIndex.BestIsFirstMaximum | internal/combinedindex/combinedindex.go:94-147 | the selected offer has the greatest version, then the earliest rank, then the earliest listing |
| CombinedIndex.SourceIdNeverDecides | internal/combinedindex/combinedindex.go:133-136 | leaving the source-id key out of the sort changes no candidate list |
| CombinedIndex.PoolOrderIsNotTrust | internal/combinedindex/combinedindex.go:86-147 | when every pooled source answers, and the same whenever it is asked, polling the pool in another order changes neither selectability nor the selected version, and both selected sources offer it |
| CombinedIndex.PoolListingIsNotTrust | internal/combinedindex/combinedindex.go:54-147 | nor does listing sources and pools in another order in the policy, for the whole resolution |
| CombinedIndex.AnyBestSourceCanWin | internal/combinedindex/combinedindex.go:86-147 | any source offering the greatest version is selected by the order that asks it first |
| CombinedIndex.SelectedSourceIsAsked | internal/combinedindex/combinedindex.go:149 | the artifact is fetched from the very source that made the selected offer |
| CombinedIndex.SuccessAsksWholePool | internal/combinedindex/combinedindex.go:94-175 | a successful resolution asks every pooled source once and fetches one artifact |
| CombinedIndex.CallsStayInPool | internal/combinedindex/combinedindex.go:94-153 | only pooled sources are asked, and only about this name |
| Registry.Sort | internal/registry/registry.go:416-432 | sorting succeeds exactly when every version parses, and gives packages by name and versions ascending, permuted at both levels |
| Registry.SortedSetAscends | internal/registry/registry.go:414-432 | a sorted set keeps its id, role and revision, with names ascending and the versions of each from oldest to newest |
| Registry.SortedVersionsServeTheSame | internal/registry/registry.go:427-429 | sorting versions changes no version lookup, even with repeated versions |
| Registry.NameServedExactly | internal/registry/registry.go:392-432 | however sorting leaves same-named packages, a name is served as before exactly when all its packages are, versions sorted, the same |
| Registry.ChosenFirst | internal/registry/registry.go:417 | any package of a name may be the one that sorting leaves first |
| Registry.SortPreservesArtifacts | internal/registry/registry.go:401-432 | where a name is served as before, so is every artifact of it |
| Registry.SortIsDeterministic | internal/registry/registry.go:414-432 | with unique names there is only one sorted set |
| Registry.MetadataStatesServedBytes | internal/registry/registry.go:238-251 | metadata for a version states size and digest of the bytes the artifact endpoint serves |
| Registry.PackageIsDescribed | internal/registry/registry.go:238-251 | a description has the id and role of the registry, the name, and one listing for each version in order |
| Registry.CallIsRecorded | internal/registry/registry.go:198-289 | of a call is recorded GET, the path of its endpoint, exactly its name and version, and whether the set holds them |
| Registry.RequestIsRecorded | internal/registry/registry.go:198-289 | any request is recorded with its verb, path and answered status, and name and version exactly when its query names them, each once and nothing else |
| Boundary.Handler.Record | internal/registry/registry.go:189-196 | one record appends to the log and, for a non-empty run id, to that run's index |
| Boundary.Handler.Reset | internal/registry/registry.go:182-187 | nothing is observed any more |
| Boundary.Handler.ObservedFor | internal/registry/registry.go:173-179 | what the index holds for a run |
| Boundary.Handler.ServeHTTP | internal/registry/registry.go:198-289 | every request but a receipt read is served by the tables and recorded once; a receipt read changes nothing |
| Boundary.Handler.AnswerReceipt | internal/registry/registry.go:294-337 | refusals in order, else the signed receipt of the run |
| Boundary.ReceiptAnswersExactly | internal/registry/registry.go:294-337 | each status exactly when; an answered receipt states id, role and revision of the registry and the requests of the run it names, and verifies under its key |
| Boundary.SignatureNamesRegistry | internal/registry/registry.go:353-362 | the key of a signature names the registry: a MAC that heeds only its key tells two registries apart |
| Boundary.HandlingIsSteps | internal/registry/registry.go:189-214 | what ServeHTTP leaves observed is what asking and completing the request, or reading a receipt, leave in any state |
| Boundary.InvAlways | internal/registry/registry.go:173-214 | under any interleaving the log is what completed, and the index is that log filtered by the run id each request carried |
| Boundary.ReceiptEqualsTrace | internal/registry/registry.go:173-214 | the receipt for a client's run id is its own completed requests in recording order exactly when no other client completed one under that run id |
| Boundary.DistinctRunsAreSeparate | internal/registry/registry.go:208-214 | under a run id only that client uses, a receipt is the client's completed trace and falls short of what it asked by the requests still unrecorded |
| Boundary.SharedRunIdSharesReceipt | internal/registry/registry.go:173-214 | a client that asked nothing is reported the request another client made under its run id |
| Boundary.AskedAreServed | internal/registry/registry.go:198-289 | without a reset, a client's requests are served in the order it made them |
| Boundary.PatientReceiptIsWhole | internal/registry/registry.go:549-588 | a client that reads its answers to the end finds every request it made in the receipt, in the order it made them |
| Boundary.CutOffRequestIsMissed | internal/registry/registry.go:208-214 | a client cut off before the end of an answer can read a receipt without that request, which lists it once the handler returns |
| Ledger.IsApproved | internal/ledger/ledger.go:58-65 | whether a candidate has a row |
| Fixtures.LoadClassifications | internal/fixtures/fixtures.go:303-324 | the table loads exactly when every word is known and no candidate repeats |
| ReleaseGate.Disk.Emit | internal/audit/audit.go:68-100 | exactly one stamped record is appended, or none |
| ReleaseGate.ResolveAll | internal/releasegate/releasegate.go:206-234 | dependencies resolve in order and the loop stops at the first failure |
| ReleaseGate.LastWithAlias | internal/releasegate/releasegate.go:228-233 | the loop leaves the last record of an alias |
| ReleaseGate.ApplyVerdict | internal/releasegate/releasegate.go:281-334 | the verdict switch writes ledger and audit file as specified |
| ReleaseGate.LoadLedger | internal/ledger/ledger.go:69-90 | a missing ledger is created fresh, an unreadable one refused |
| ReleaseGate.Execute | internal/releasegate/releasegate.go:124-336 | result, ledger, audit records and requests of a run are the specified effect |
| OutcomeLaws.ErrorsExactly | internal/releasegate/releasegate.go:124-201 | which error a run returns before it asks anything, each exactly when, and what ledger file it leaves |
| OutcomeLaws.WithAliasIsLast | internal/releasegate/releasegate.go:228-233 | the record kept for an alias is the last accepted one |
| OutcomeLaws.OutcomeShowsBuild | internal/releasegate/releasegate.go:148-234 | every field of an outcome that does not depend on the verdict: scenario, build, records, classification, digests of the ledger before and after |
| OutcomeLaws.CompletedRunIsTold | internal/releasegate/releasegate.go:206-334 | a completed run ended in one of six ways, and its outcome and its one audit record say which, word by word |
| OutcomeLaws.BuiltWasFetched | internal/releasegate/releasegate.go:206-234 | under either resolver, every accepted record is of bytes the build fetched from the source the record names |
| OutcomeLaws.RowIsFetched | internal/releasegate/releasegate.go:294-312 | under either resolver, a new row is the candidate, the name of the release-policy dependency, the id of the source asked, the version asked for and the digest of the bytes it answered, which approve the candidate |
| BuildLaws.SecureBuildIsBound | internal/releasegate/releasegate.go:206-234 | every request of a secure build goes to the source the policy binds its name to |
| BuildLaws.NothingAskedAfterFailure | internal/releasegate/releasegate.go:203-226 | nothing is asked about a dependency after the one a build stopped on |
| BuildLaws.SecureRequestCount | internal/releasegate/releasegate.go:206-234 | 2n requests for n dependencies, or 2k and at most two more when stopped at k |
| BuildLaws.BuildNonInterference | internal/resolver/resolver.go:160-258 | two worlds that agree on bound sources and names give the same build |
| BuildLaws.SecureBuildIsLocked | internal/resolver/resolver.go:185-282 | every accepted record is the one the lock pins |
| BuildLaws.LockDeterminesBuild | internal/releasegate/releasegate.go:206-234 | the lock decides what a successful build accepts, in every two worlds and under every two policies |
| BuildLaws.BuildAsksDeclared | internal/releasegate/releasegate.go:206-234 | neither resolver asks a source the policy does not declare |
| BuildLaws.CombinedRequestCount | internal/combinedindex/combinedindex.go:94-153 | a successful combined build makes pool size plus one requests per dependency |
| BuildLaws.OneRecordPerAlias | internal/releasegate/releasegate.go:206-234 | a build accepts one record for each dependency in turn, so no record is overwritten by another of its alias |
| GateLaws.VerdictBranchesAreTotal | internal/releasegate/releasegate.go:236-327 | no run sees an unvalidated verdict, and one lacks a release policy exactly when the manifest declares none |
| GateLaws.LedgerGrowsByApproval | internal/releasegate/releasegate.go:283-327 | the ledger gains the one row of a fresh approval and otherwise nothing |
| GateLaws.RecordPerCompletedRun | internal/releasegate/releasegate.go:206-334 | a completed run adds one audit record, an approval record exactly on a fresh approval |
| GateLaws.FinishedBuildCompletes | internal/releasegate/releasegate.go:236-334 | a finished build completes exactly when the manifest declares a release policy and the scenario id, and the candidate unless the policy is of another kind, may be reported |
| GateLaws.RefusedCandidateEndsSilently | internal/releasegate/releasegate.go:262-279 | beside any run that consults a release policy is one whose build finishes just so and that ends without any outcome: the same run about a candidate the audit log refuses |
| GateLaws.StoppedBuildFailsClosed | internal/releasegate/releasegate.go:206-226 | a stopped build leaves the ledger and is BUILD_FAILED exactly when scenario id and alias may be reported |
| GateLaws.UnreportableAliasFailsSilently | internal/releasegate/releasegate.go:216-223 | beside any secure scenario that starts is one whose build stops without any outcome: its alias is unknown to the lock and refused by the audit log |
| GateLaws.SecureRowIsLocked | internal/releasegate/releasegate.go:306-312 | a row written by a secure run has the locked name, source, version and digest |
| GateLaws.LockDeterminesRun | internal/releasegate/releasegate.go:124-336 | two worlds and two policies in which a secure scenario resolves give the same ledger, audit records, verdict and visible outcome |
| PolicyChange.BuildIgnoresRestOfPolicy | internal/releasegate/releasegate.go:206-234 | policies that decide every declared name alike give the same accepted content, requests, and stop |
| PolicyChange.RunNonInterference | internal/releasegate/releasegate.go:124-336 | two worlds that agree on bound sources and names give one and the same run: result, ledger, audit records and requests |
| PolicyChange.RunIgnoresRestOfPolicy | internal/releasegate/releasegate.go:124-336 | policies that decide every declared name alike give the same ledger, audit records, requests and visible outcome |
| PolicyChange.RunIgnoresPolicyOrder | internal/releasegate/releasegate.go:124-336 | so does a policy that lists its sources and mappings in another order |
| CheckedInPolicies.ShadowPolicyDecidesAlike | internal/fixtures/data/policies/exclusive-against-shadow.json:1-27 | the policies `default` and `exclusive-against-shadow` decide every private name alike and every public one differently |
| CheckedInPolicies.ShadowIsInvisible | internal/resolver/resolver.go:160-258 | so a private dependency resolves the same under both, whatever the registries answer |
| CheckedInPolicies.PrivateFirstIsNoFix | internal/fixtures/data/policies/combined-index-private-first.json:1-30 | listing the private registry first selects the same version |
| CheckedInPolicies.ShadowWins | internal/fixtures/data/registries/community-public-shadow.json:1-34 | under the checked-in combined policy, and what the two checked-in registries list, the range >=1.4.2 selects the shadow's 9.9.9 and the range 1.4.2 the shadow's 1.4.2 |
| RunHistory.OneRowPerCandidate | internal/releasegate/releasegate.go:294-312 | over any runs no candidate has two rows |
| RunHistory.LedgerOnlyGrows | internal/releasegate/releasegate.go:306-313 | an earlier ledger is a prefix of a later one |
| RunHistory.RecordedIdentityNeverChanges | internal/releasegate/releasegate.go:294-313 | the policy identity first recorded for a candidate stays |
| RunHistory.AuditMatchesLedger | internal/releasegate/releasegate.go:283-334 | one record per completed run; rows are recorded approvals plus unreported ones |
| RunHistory.OrphanExactly | internal/releasegate/releasegate.go:306-324 | a fresh approval goes unrecorded exactly when the scenario id may not be reported |
| RunHistory.RefusedIdLeavesOrphan | internal/releasegate/releasegate.go:306-324 | beside any run that approves afresh is one that leaves an orphan row: the same run under a refused scenario id |
| ExampleRun.ExampleApproves | internal/releasegate/releasegate.go:124-327 | a run complete down to its archive that approves its candidate |
| ExampleRun.ExampleOrphans | internal/releasegate/releasegate.go:306-324 | without a scenario id the same run leaves a ledger row, no record and no outcome |
| ExampleRun.ExampleFailsSilently | internal/releasegate/releasegate.go:206-226 | with its alias renamed to a refused one it fails without an outcome |
| ExampleRun.ExampleEndsSilently | internal/releasegate/releasegate.go:262-279 | about a refused candidate its build finishes and it ends without an outcome |
| ExampleRun.ExampleRefusals | internal/audit/audit.go:68-100 | a leak filter that refuses one word and passes the program's own does both |
| RunHistory.ApprovalsMatchRows | internal/audit/audit.go:133-146 | approvals and rows agree in number exactly when no run approved afresh under such an id |
| Consistency.LoadRegistrySet | internal/fixtures/fixtures.go:451-489 | a registry loads exactly when its document and artifacts agree, and is then sorted |
| Consistency.LoadedSetIsDocument | internal/fixtures/fixtures.go:451-489 | the loaded set has the id, role, revision, label and package names of its document |
| Consistency.Artifacts | internal/fixtures/fixtures.go:425-445 | the identities of all packages, or nothing unless all build |
| Consistency.CheckSource | internal/fixtures/fixtures.go:578-596 | a source passes exactly when a registry of its role serves its url |
| Consistency.CheckDependency | internal/fixtures/fixtures.go:597-634 | a dependency passes exactly when lock, policy and a built package agree |
| Consistency.ValidateConsistency | internal/fixtures/fixtures.go:525-637 | the check accepts exactly the consistent stores |
| ConsistencyLaws.EarlyFailuresAreFew | internal/fixtures/fixtures.go:597-615 | before a registry is contacted only a non-exclusive policy, a range conflict or a failed dial can stop a secure scenario |
| ConsistencyLaws.ConsistentRunStarts | internal/releasegate/releasegate.go:124-201 | a consistent store's scenario starts exactly when it is acknowledged if vulnerable, the ledger loads and the gate's table is valid |
| ConsistencyLaws.ConsistentDocuments | internal/fixtures/fixtures.go:525-577 | in a consistent store every package source is valid, no two registries share a url and no two scenarios an id, and a scenario that pools sources is labelled vulnerable |
| ConsistencyLaws.VerifiedBytesAreBuilt | internal/fixtures/fixtures.go:616-633 | bytes that pass the lock are a checked-in build, which parses exactly when its manifest fits one entry |
| ConsistencyLaws.LateFailuresAreUnreachable | internal/resolver/resolver.go:271-280 | MANIFEST_MISMATCH never happens, ARTIFACT_MALFORMED only if the pinned build's manifest exceeds an entry |
| ConsistencyLaws.HonestResolution | internal/resolver/resolver.go:149-283 | from an honest registry a dependency of a consistent scenario resolves exactly when its mapping is exclusive and its lock in range |
| ConsistencyLaws.HonestBuildFinishes | internal/releasegate/releasegate.go:206-234 | against honest registries a consistent scenario's secure build finishes exactly when that holds of every dependency |
| ServedWorld.MetadataServed | internal/registry/registry.go:501-515 | what a client learns of a name is what the set behind the url holds of it |
| ServedWorld.ArtifactServed | internal/registry/registry.go:517-519 | what a client fetches is what that set holds |
| ServedWorld.ListedIsFound | internal/registry/registry.go:238-251 | metadata lists a version exactly when the artifact endpoint finds it |
| ServedWorld.ServedIsBuilt | internal/fixtures/fixtures.go:466-489 | every artifact a loaded registry serves is a package source's build, under its own name and version |
| ServedWorld.ServedResolution | internal/resolver/resolver.go:149-283 | against the checked-in registries a consistent scenario's dependency fails exactly as its mapping, lock and bound registry's set determine, and resolves exactly when that set publishes what the lock pins |
| ServedWorld.ServedIsHonest | internal/fixtures/fixtures.go:616-633 | a checked-in registry that publishes what the lock pins is honest about it |
| ServedWorld.RoleIsClaimed | internal/fixtures/fixtures.go:578-596 | a registry that answers for a source of a consistent scenario has the role the policy gives that source, and no label its scenario lacks |
| ServedWorld.ServedBuild | internal/releasegate/releasegate.go:206-234 | against them a secure build fails as the first dependency that must fail does, and finishes exactly when none must |
| ServedPool.ServedPoolOutcome | internal/combinedindex/combinedindex.go:54-176 | against the checked-in registries a combined resolution fails exactly as the sets of its pool determine: one too large to read, none holding a version in range, or an artifact too large or malformed |
| ServedPool.ServedSelection | internal/combinedindex/combinedindex.go:86-176 | it takes the greatest version in range that any set of its pool holds, from the first source holding it, and that source's own build, whatever the lock says |
| ServedPool.PinnedVersionTakesFirst | internal/combinedindex/combinedindex.go:127-137 | under an exact range the first source of the pool that holds the version supplies it |
| ServedPool.ServedPoolOrder | internal/combinedindex/combinedindex.go:54-147 | however a policy lists its sources and pools, the same version is selected, if any |
| ServedPool.ResolversAgreeExactly | internal/combinedindex/combinedindex.go:127-176 | where a dependency resolves securely the combined index resolves it to the same artifact exactly when the bound registry publishes no newer version in range |
| ServedPool.ServedCombinedBuild | internal/releasegate/releasegate.go:206-234 | a combined build fails as the first dependency that must fail does, and finishes exactly when none must |
| Harness.ReconciliationIsExact | internal/harness/harness.go:540-611 | on every outcome a run can return, reconciliation fails exactly when the build succeeded and approval equals known-unsafe; three branches are never taken; each statement is made exactly of the outcomes it describes and names source and digest of the policy consulted |
| Harness.StatementsAreExact | internal/harness/harness.go:540-611 | on any outcome at all, each of the nine statements exactly when, which three are a pass, and what origin and digest they name |
| Harness.SecureVerdictIsExact | internal/harness/harness.go:448-463 | "verified", "rejected" and "not reached" say exactly what happened to the bytes |
| Harness.SecureVerdictSays | internal/harness/harness.go:448-463 | "verified" exactly when listed bytes arrived with the locked size and digest, "rejected" exactly when they arrived without, "not reached" exactly when none arrived |
| Harness.CombinedVerdictIsExact | internal/combinedindex/combinedindex.go:162-175 | no combined resolution is verified or rejected; it is "unverified" exactly when an artifact was fetched |
| LiveStack.AskReceipt | internal/harness/harness.go:333-352 | one registry's receipt, exactly when that registry lets the harness read it |
| LiveStack.CollectReceipts | internal/harness/harness.go:312-356 | receipts of exactly the visited registries, each once, in id order, exactly when all can be had |
| LiveStack.AscendingExactly | internal/harness/harness.go:316-320 | in id order each id is less than every later one |
| LiveStack.ObservationsAreCalls | internal/registry/registry.go:208-281 | what a registry reports for a run that reads its answers to the end is, call by call and in order, the endpoint, name and version the run asked for and whether its set holds them |
| LiveStack.CountsSum | internal/harness/harness.go:312-356 | counting registry by registry loses no call and counts none twice |
| LiveStack.RunAsksVisited | internal/fixtures/fixtures.go:578-596 | in a consistent store every request goes to a registry the harness visits |
| LiveStack.RequestsAreConserved | internal/harness/harness.go:312-356 | receipt counts add up to the requests the run made, whatever other clients did and whichever registries were skipped |
| LiveStack.ReportsAreCollected | internal/harness/harness.go:329-353 | the receipts the collection returns report what the visited registries observed of the run |
| LiveStack.RequestTotals | internal/releasegate/releasegate.go:206-234 | how many requests a run makes, for either resolver, finished or stopped |
| LiveStack.CollectAfterRun | internal/harness/harness.go:268-283 | the receipts collected after a run count exactly its requests: 2n, pool sizes plus one each, or 2k to 2k + 2 when stopped at k |

## Left out

- LiveStack.RequestsAreConserved: assumes a run that reads every answer to its end; redirects, retries and answers over the size limit, which a client may abandon, are not modelled.
- Harness.ReconciliationIsExact: assumes that the ledgers before and after a fresh approval are encoded apart and that those two byte strings do not collide.
- HTTP transport: timeouts, redirects, size limits on answers, host allow-listing, headers other than run id and credential. A call is answered, not found or unavailable; a dial succeeds or fails.
- The endpoint map of a live stack is the map `reach` from url to handler; a malformed url is one that is not in it.
- `containment`, the command line, `trace`, transcript rendering, `verify` and the taxonomy documents.
- `vulnerable.Check`: the boolean `acknowledged`.
- The ledger as a file: temporary file, rename, permissions and I/O errors, and concurrent runs on one state directory. The model's `Disk` holds the ledger and the audit records; runs are sequential.
- The audit mirror writer, and reading the audit file back.
- Document formats inside fixture files, and the files themselves: `Store` holds decoded documents. Format fields the program validates itself (policy, lock, manifest, ledger, receipt) are kept.
- Texts of errors. Failure classes, stages, selection rules, integrity words, audit events and reconciliation statements are enumerations with one constructor for each constant.
- The list of forbidden audit substrings: `Text.clean` is any predicate. Results that need the program's own names to pass it say so with `SpeaksCleanly`.
- In-place reordering by `FixtureSet.Sort` is modelled on values; aliasing of the slices is not captured.
- Invalid UTF-8, the tokenizer beneath the duplicate-key walk, and JSON field handling: `CanonicalJson` starts from decoded tokens, `Codec` from documents.
- An empty state directory, an internal error while encoding a response, and clients cancelling a context.
- Harness fields copied unchanged into a transcript: trust words, roles, warnings, lock enforcement and the entry count derived from the mutation.
