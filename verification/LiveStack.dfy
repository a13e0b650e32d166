/**
 The receipts of a run (internal/harness): how they are collected, and what they amount to when every
 call of the run reached the registry behind its source's url. ServedWorld ties the answers of those
 registries to the sets they load.
 */
module LiveStack {
  import opened Prelude
  import opened Network
  import opened Fixtures
  import opened Consistency
  import opened Registry
  import opened Boundary
  import opened ReleaseGate
  import BuildLaws
  import GateLaws
  import Ledger
  import SourcePolicy
  import PkgArchive
  import Sorting

  // ----- collecting receipts as the source writes it -----

  datatype RegistryReceipt = RegistryReceipt(
    source: string, role: string, revision: string, requestCount: int, requests: seq<Request>, signatureVerified: bool)

  /* The registries a collection visits: all but the vulnerable ones of an unacknowledged workflow. */
  ghost predicate Visited(s: Store, acknowledged: bool, id: string)
  {
    id in s.registries && (s.registries[id].vulnerable ==> acknowledged)
  }

  predicate IdLess(a: string, b: string)
  {
    StringLess(a, b)
  }

  function ReceiptRequest(run: string, credential: string): HttpRequest
  {
    HttpRequest("GET", RECEIPT_PATH, map["run" := [run]], "", RECEIPT_SCHEME, credential)
  }

  /* The registry behind the url is the one named id, and lets the harness read the run's receipt. */
  ghost predicate Answering(reach: map<string, Handler>, id: string, url: string, run: string, boundary: ReceiptConfig)
    reads reach.Values
  {
    && url in reach && reach[url].set_.id == id && run != "" && boundary.credential != ""
    && reach[url].receipts.credential == boundary.credential && reach[url].receipts.signingKey != ""
  }

  /* The collection can pass registry id: its fixture loads and, if it is visited, it answers. */
  ghost predicate Collectable(c: PkgArchive.Codec, s: Store, reach: map<string, Handler>, run: string,
                              boundary: ReceiptConfig, acknowledged: bool, id: string)
    requires id in s.registries
    reads reach.Values
  {
    && s.registries[id].url != "" && RegistryLoads(c, s, id)
    && (Visited(s, acknowledged, id) ==> Answering(reach, id, s.registries[id].url, run, boundary))
  }

  /* Asks one registry what the run asked it. The client refuses a receipt of another format or run, or
     whose count is not the number of requests it lists; the harness, one from another registry. */
  method AskReceipt(reach: map<string, Handler>, id: string, url: string, run: string, boundary: ReceiptConfig)
    returns (r: Option<RegistryReceipt>)
    ensures r.Some? ==>
              && url in reach && reach[url].set_.id == id
              && var h, asked := reach[url], RunRequests(reach[url].Observed(), run);
              && var signed := SignedReceipt(h.crypto, h.set_, h.receipts, run, asked);
              && r.value == RegistryReceipt(id, h.set_.role, h.set_.revision, |asked|, asked,
                                            VerifyReceipt(h.crypto, signed, boundary.signingKey))
    ensures r.Some? <==> Answering(reach, id, url, run, boundary)
  {
    if url !in reach {
      return None;
    }
    var http := ReceiptRequest(run, boundary.credential);
    assert Single(http.query, "run") == if run != "" then Some(run) else None;
    assert |http.query| == 1;
    var response := reach[url].AnswerReceipt(http);
    if response.status != OK || !response.body.ReceiptBody? {
      return None;
    }
    var receipt := response.body.receipt;
    if receipt.format != RECEIPT_FORMAT || receipt.run != run || receipt.requestCount != |receipt.requests| {
      return None;
    }
    if receipt.source != id {
      return None;
    }
    var verified := VerifyReceipt(reach[url].crypto, receipt, boundary.signingKey);
    r := Some(RegistryReceipt(receipt.source, receipt.role, receipt.revision, receipt.requestCount, receipt.requests,
                              verified));
  }

  lemma IdsAreOrdered()
    ensures Sorting.StrictWeakOrder(IdLess)
  {
    forall x: string, y: string, z: string
      ensures !IdLess(x, x)
      ensures IdLess(x, y) && IdLess(y, z) ==> IdLess(x, z)
      ensures !IdLess(x, y) && !IdLess(y, z) ==> !IdLess(x, z)
    {
      NameSteps(x, y, z);
    }
  }

  ghost predicate Ascending(ids: seq<string>)
  {
    Sorting.Sorted(IdLess, ids) && DistinctBy((id: string) => id, ids)
  }

  /* In ascending order each id is less than every later one. */
  lemma AscendingExactly(ids: seq<string>)
    ensures Ascending(ids) <==> forall i, j :: 0 <= i < j < |ids| ==> StringLess(ids[i], ids[j])
  {
    forall i, j | 0 <= i < j < |ids|
      ensures StringLess(ids[i], ids[j]) <==> !IdLess(ids[j], ids[i]) && ids[i] != ids[j]
    {
      StringLessTrichotomy(ids[i], ids[j]);
    }
  }

  method SortedIds(s: Store) returns (ids: seq<string>)
    ensures forall id :: id in ids <==> id in s.registries
    ensures Ascending(ids)
  {
    var out: seq<string> := [];
    var rest := s.registries.Keys;
    while rest != {}
      invariant rest <= s.registries.Keys
      invariant forall id :: id in out <==> id in s.registries && id !in rest
      invariant DistinctBy((id: string) => id, out)
      decreases rest
    {
      var id :| id in rest;
      DistinctBySnoc((id: string) => id, out, id);
      out := out + [id];
      rest := rest - {id};
    }
    IdsAreOrdered();
    ids := Sorting.UnstableSort(IdLess, out);
    PermutedMembers(ids, out);
    DistinctByPermuted((id: string) => id, ids, out);
  }

  /* One turn of the collection: a registry that is not visited gives no receipt, and that is not an error. */
  method CollectOne(c: PkgArchive.Codec, s: Store, reach: map<string, Handler>, run: string, boundary: ReceiptConfig,
                    acknowledged: bool, id: string)
    returns (ok: bool, receipt: Option<RegistryReceipt>)
    requires id in s.registries
    ensures ok <==> Collectable(c, s, reach, run, boundary, acknowledged, id)
    ensures ok ==> (receipt.Some? <==> Visited(s, acknowledged, id))
    ensures ok && receipt.Some? ==> receipt.value.source == id && Reports(s, reach, run, boundary, receipt.value)
  {
    receipt := None;
    var url := s.registries[id].url;
    var set_ := LoadRegistrySet(c, s, id);
    if url == "" || set_.None? {
      return false, receipt;
    }
    if set_.value.vulnerable && !acknowledged {
      return true, receipt;
    }
    receipt := AskReceipt(reach, id, url, run, boundary);
    ok := receipt.Some?;
  }

  /* One receipt from every registry that could have been asked, in id order, reporting what that
     registry observed of the run; and no receipts at all unless every one of them can be had. */
  method CollectReceipts(c: PkgArchive.Codec, s: Store, reach: map<string, Handler>, run: string,
                         boundary: ReceiptConfig, acknowledged: bool)
    returns (r: Option<seq<RegistryReceipt>>)
    ensures r.Some? <==> forall id :: id in s.registries ==> Collectable(c, s, reach, run, boundary, acknowledged, id)
    ensures r.Some? ==>
              && (forall id :: id in SourcesOf(r.value) <==>
                    id in s.registries && (s.registries[id].vulnerable ==> acknowledged))
              && Ascending(SourcesOf(r.value))
              && forall i :: 0 <= i < |r.value| ==> Reports(s, reach, run, boundary, r.value[i])
  {
    var ids := SortedIds(s);
    r := CollectInOrder(c, s, reach, run, boundary, acknowledged, ids);
  }

  method CollectInOrder(c: PkgArchive.Codec, s: Store, reach: map<string, Handler>, run: string,
                        boundary: ReceiptConfig, acknowledged: bool, ids: seq<string>)
    returns (r: Option<seq<RegistryReceipt>>)
    requires (forall id :: id in ids ==> id in s.registries) && Ascending(ids)
    ensures r.Some? <==> forall id :: id in ids ==> Collectable(c, s, reach, run, boundary, acknowledged, id)
    ensures r.Some? ==> SoFar(c, s, reach, run, boundary, acknowledged, ids, r.value)
  {
    var out: seq<RegistryReceipt> := [];
    for i := 0 to |ids|
      invariant SoFar(c, s, reach, run, boundary, acknowledged, ids[..i], out)
    {
      var id := ids[i];
      assert id in ids && ids[..i + 1] == ids[..i] + [id];
      var ok, receipt := CollectOne(c, s, reach, run, boundary, acknowledged, id);
      if !ok {
        return None;
      }
      if receipt.None? {
        SkippedSoFar(c, s, reach, run, boundary, acknowledged, ids[..i], id, out);
        continue;
      }
      IdsAscend(ids, i);
      AddedSoFar(c, s, reach, run, boundary, acknowledged, ids[..i], id, out, receipt.value);
      out := out + [receipt.value];
    }
    assert ids[..|ids|] == ids;
    r := Some(out);
  }

  /* All of ids can be passed, and out are the receipts of the visited ones, in their order. */
  ghost predicate SoFar(c: PkgArchive.Codec, s: Store, reach: map<string, Handler>, run: string,
                        boundary: ReceiptConfig, acknowledged: bool, ids: seq<string>, out: seq<RegistryReceipt>)
    reads reach.Values
  {
    && (forall id :: id in ids ==> id in s.registries && Collectable(c, s, reach, run, boundary, acknowledged, id))
    && (forall id :: id in SourcesOf(out) <==> id in ids && Visited(s, acknowledged, id))
    && Ascending(SourcesOf(out))
    && forall k :: 0 <= k < |out| ==> Reports(s, reach, run, boundary, out[k])
  }

  lemma SkippedSoFar(c: PkgArchive.Codec, s: Store, reach: map<string, Handler>, run: string, boundary: ReceiptConfig,
                     acknowledged: bool, ids: seq<string>, id: string, out: seq<RegistryReceipt>)
    requires SoFar(c, s, reach, run, boundary, acknowledged, ids, out) && !Visited(s, acknowledged, id)
    requires id in s.registries && Collectable(c, s, reach, run, boundary, acknowledged, id)
    ensures SoFar(c, s, reach, run, boundary, acknowledged, ids + [id], out)
  {
  }

  lemma AddedSoFar(c: PkgArchive.Codec, s: Store, reach: map<string, Handler>, run: string, boundary: ReceiptConfig,
                   acknowledged: bool, ids: seq<string>, id: string, out: seq<RegistryReceipt>,
                   receipt: RegistryReceipt)
    requires SoFar(c, s, reach, run, boundary, acknowledged, ids, out) && Visited(s, acknowledged, id)
    requires Collectable(c, s, reach, run, boundary, acknowledged, id)
    requires receipt.source == id && Reports(s, reach, run, boundary, receipt)
    requires forall x :: x in ids ==> x != id && !IdLess(id, x)
    ensures SoFar(c, s, reach, run, boundary, acknowledged, ids + [id], out + [receipt])
  {
    var before := SourcesOf(out);
    MapAppend((r: RegistryReceipt) => r.source, out, [receipt]);
    assert SourcesOf(out + [receipt]) == before + [id];
    SortedSnoc(before, id);
    DistinctBySnoc((id: string) => id, before, id);
  }

  lemma SortedSnoc(ids: seq<string>, id: string)
    requires Sorting.Sorted(IdLess, ids) && forall x :: x in ids ==> !IdLess(id, x)
    ensures Sorting.Sorted(IdLess, ids + [id])
  {
    var all := ids + [id];
    forall j, k | 0 <= j < k < |all| ensures !IdLess(all[k], all[j]) {
      if k == |ids| {
        assert all[j] in ids;
      }
    }
  }

  lemma IdsAscend(ids: seq<string>, i: nat)
    requires i < |ids| && Ascending(ids)
    ensures forall x :: x in ids[..i] ==> x != ids[i] && !IdLess(ids[i], x)
  {
  }

  function SourcesOf(receipts: seq<RegistryReceipt>): seq<string>
  {
    Map((r: RegistryReceipt) => r.source, receipts)
  }

  /* The receipt states what the registry behind its source's url observed of the run. */
  ghost predicate Reports(s: Store, reach: map<string, Handler>, run: string, boundary: ReceiptConfig,
                          receipt: RegistryReceipt)
    reads reach.Values
  {
    && receipt.source in s.registries
    && var url := s.registries[receipt.source].url;
    && url in reach && reach[url].set_.id == receipt.source
    && receipt.role == reach[url].set_.role && receipt.revision == reach[url].set_.revision
    && receipt.requests == RunRequests(reach[url].Observed(), run) && receipt.requestCount == |receipt.requests|
    && (reach[url].receipts.signingKey == boundary.signingKey ==> receipt.signatureVerified)
  }

  // ----- what a registry observes of a run -----

  /*
   The registries that are up, by id, each with everything that happened to it before the run asks for
   its receipt; the run is one client among any number.
   */
  datatype Stack = Stack(
    crypto: Crypto, store: Store, sets: map<string, FixtureSet>, steps: map<string, seq<Step>>,
    run: string, client: nat)
  {
    function System(id: string): System
      requires id in sets && id in steps
    {
      After(crypto, sets[id], steps[id])
    }

    /* The run read to its end every answer of registry id before its next request there, and its last
       one before it asks for the receipt. */
    ghost predicate Patient(id: string)
      requires id in sets && id in steps
    {
      ReadsToEnd(crypto, sets[id], steps[id], client) && Idle(System(id), client)
    }
  }

  /* The call goes to the registry id. */
  predicate GoesTo(s: Store, id: string, call: Call)
  {
    id in s.registries && s.registries[id].url == call.source.url
  }

  function CallsTo(s: Store, id: string, calls: seq<Call>): seq<Call>
  {
    Filter((call: Call) => GoesTo(s, id, call), calls)
  }

  function HttpFor(stack: Stack, id: string, calls: seq<Call>): seq<HttpRequest>
  {
    Map((call: Call) => RequestFor(call, stack.run), CallsTo(stack.store, id, calls))
  }

  /* Of registry id the run's client asked exactly the calls that go there, whatever other clients did
     meanwhile under run ids of their own, and no Reset came between. */
  ghost predicate Carries(stack: Stack, id: string, calls: seq<Call>)
  {
    && id in stack.sets && id in stack.steps && Clear !in stack.steps[id]
    && AsksOf(stack.steps[id], stack.client) == HttpFor(stack, id, calls)
    && OwnsRun(stack.steps[id], stack.client, stack.run)
  }

  /* What a registry reports for a patient run is what the run asked of it, in the order it asked: of each call the
     endpoint, the name, the version and whether its set holds them. */
  lemma ObservationsAreCalls(stack: Stack, id: string, calls: seq<Call>)
    requires stack.run != "" && Carries(stack, id, calls) && stack.Patient(id)
    ensures RunRequests(stack.System(id).observed, stack.run) ==
            Map((call: Call) => Witnessed(stack.sets[id], call), CallsTo(stack.store, id, calls))
    ensures |RunRequests(stack.System(id).observed, stack.run)| == |CallsTo(stack.store, id, calls)|
  {
    PatientReceiptIsWhole(stack.crypto, stack.sets[id], stack.steps[id], stack.client, stack.run);
    forall call: Call
      ensures Serve(stack.crypto, stack.sets[id], RequestFor(call, stack.run)).0 == Witnessed(stack.sets[id], call)
    {
      CallIsRecorded(stack.crypto, stack.sets[id], call, stack.run);
    }
  }

  // ----- conservation -----

  function SumCounts(s: Store, ids: seq<string>, calls: seq<Call>): nat
  {
    if ids == [] then 0 else |CallsTo(s, ids[0], calls)| + SumCounts(s, ids[1..], calls)
  }

  /* The registries among ids that a call goes to. */
  function Homes(s: Store, ids: seq<string>, call: Call): seq<string>
  {
    Filter((id: string) => GoesTo(s, id, call), ids)
  }

  lemma {:induction false} SumSplitsHead(s: Store, ids: seq<string>, calls: seq<Call>)
    requires calls != []
    ensures SumCounts(s, ids, calls) == |Homes(s, ids, calls[0])| + SumCounts(s, ids, calls[1..])
  {
    if ids == [] {
      assert Homes(s, ids, calls[0]) == [];
    } else {
      SumSplitsHead(s, ids[1..], calls);
      var here: nat := if GoesTo(s, ids[0], calls[0]) then 1 else 0;
      assert |Homes(s, ids, calls[0])| == here + |Homes(s, ids[1..], calls[0])|;
      assert |CallsTo(s, ids[0], calls)| == here + |CallsTo(s, ids[0], calls[1..])|;
    }
  }

  lemma OneRegistryPerUrl(s: Store, ids: seq<string>, call: Call)
    requires DistinctUrls(s) && DistinctBy((id: string) => id, ids) && exists id :: id in ids && GoesTo(s, id, call)
    ensures |Homes(s, ids, call)| == 1
  {
    var id :| id in ids && GoesTo(s, id, call);
    FilterOnce((other: string) => GoesTo(s, other, call), ids, id);
  }

  /* Counting registry by registry loses no call and counts none twice. */
  lemma {:induction false} CountsSum(s: Store, ids: seq<string>, calls: seq<Call>)
    requires DistinctUrls(s) && DistinctBy((id: string) => id, ids)
    requires forall call :: call in calls ==> exists id :: id in ids && GoesTo(s, id, call)
    ensures SumCounts(s, ids, calls) == |calls|
  {
    if calls == [] {
      NoCallsNoCounts(s, ids);
    } else {
      assert calls[0] in calls && forall call :: call in calls[1..] ==> call in calls;
      SumSplitsHead(s, ids, calls);
      OneRegistryPerUrl(s, ids, calls[0]);
      CountsSum(s, ids, calls[1..]);
    }
  }

  lemma {:induction false} NoCallsNoCounts(s: Store, ids: seq<string>)
    ensures SumCounts(s, ids, []) == 0
  {
    if ids != [] {
      NoCallsNoCounts(s, ids[1..]);
    }
  }

  /* Every request of a run of a consistent store's scenario goes to a registry the harness visits. */
  lemma RunAsksVisited(r: Run, file: Ledger.LedgerFile)
    requires Consistent(r.host.codec, r.store) && r.scenario in r.store.scenarios
    ensures forall call :: call in EffectOf(r, file).calls ==>
            exists id :: Visited(r.store, r.acknowledged, id) && GoesTo(r.store, id, call)
  {
    if Starts(r, file) {
      GateLaws.EffectWhenStarted(r, file);
      ConcludeCalls(r, GateLaws.LoadedLedger(file), r.store.manifests[r.scenario.manifest].project, BuiltBy(r));
      BuildLaws.BuildAsksDeclared(JobOf(r), r.store.manifests[r.scenario.manifest].dependencies, r.before);
      forall call | call in BuiltBy(r).calls
        ensures exists id :: Visited(r.store, r.acknowledged, id) && GoesTo(r.store, id, call)
      {
        DeclaredIsVisited(r, call.source);
        var id :| ServedBy(r.host.codec, r.store, r.scenario, call.source, id);
        assert Visited(r.store, r.acknowledged, id) && GoesTo(r.store, id, call);
      }
    } else {
      GateLaws.EffectWhenObstructed(r, file);
    }
  }

  lemma DeclaredIsVisited(r: Run, source: SourcePolicy.Source)
    requires Consistent(r.host.codec, r.store) && r.scenario in r.store.scenarios
    requires r.scenario.vulnerable ==> r.acknowledged
    requires source in r.store.policies[r.scenario.sourcePolicy].sources
    ensures exists id :: ServedBy(r.host.codec, r.store, r.scenario, source, id)
    ensures forall id :: ServedBy(r.host.codec, r.store, r.scenario, source, id) ==>
            Visited(r.store, r.acknowledged, id)
  {
    assert ScenarioAgrees(r.host.codec, r.store, r.scenario);
    assert SourceServed(r.host.codec, r.store, r.scenario, source);
  }

  function TotalCount(receipts: seq<RegistryReceipt>): int
  {
    if receipts == [] then 0 else receipts[0].requestCount + TotalCount(receipts[1..])
  }

  /* Each receipt reports what its registry had observed of the run, which asked it the calls that go there. */
  ghost predicate Collected(stack: Stack, calls: seq<Call>, receipts: seq<RegistryReceipt>)
  {
    forall x :: x in receipts ==>
      && Carries(stack, x.source, calls) && stack.Patient(x.source)
      && x.requests == RunRequests(stack.System(x.source).observed, stack.run) && x.requestCount == |x.requests|
  }

  lemma {:induction false} ReceiptsCountCalls(stack: Stack, calls: seq<Call>, receipts: seq<RegistryReceipt>)
    requires stack.run != "" && Collected(stack, calls, receipts)
    ensures TotalCount(receipts) == SumCounts(stack.store, SourcesOf(receipts), calls)
  {
    if receipts != [] {
      assert receipts[0] in receipts;
      ObservationsAreCalls(stack, receipts[0].source, calls);
      assert forall x :: x in receipts[1..] ==> x in receipts;
      ReceiptsCountCalls(stack, calls, receipts[1..]);
      assert SourcesOf(receipts)[1..] == SourcesOf(receipts[1..]);
    }
  }

  /* Every visited registry was asked exactly the calls that go to it, by a run that read its answers to the
     end, and the handler behind its url holds what it observed. */
  ghost predicate Recorded(stack: Stack, reach: map<string, Handler>, acknowledged: bool, calls: seq<Call>)
    reads reach.Values
  {
    forall id :: Visited(stack.store, acknowledged, id) ==>
      && Carries(stack, id, calls) && stack.Patient(id)
      && var url := stack.store.registries[id].url;
      && (url in reach ==> reach[url].Observed() == stack.System(id).observed)
  }

  /* What CollectReceipts returns reports what those registries observed. */
  lemma ReportsAreCollected(stack: Stack, reach: map<string, Handler>, boundary: ReceiptConfig, acknowledged: bool,
                            calls: seq<Call>, receipts: seq<RegistryReceipt>)
    requires Recorded(stack, reach, acknowledged, calls)
    requires forall id :: id in SourcesOf(receipts) <==> Visited(stack.store, acknowledged, id)
    requires forall i :: 0 <= i < |receipts| ==> Reports(stack.store, reach, stack.run, boundary, receipts[i])
    ensures Collected(stack, calls, receipts)
  {
    forall x | x in receipts
      ensures Visited(stack.store, acknowledged, x.source) && Reports(stack.store, reach, stack.run, boundary, x)
    {
      var i :| 0 <= i < |receipts| && receipts[i] == x;
      assert SourcesOf(receipts)[i] == x.source;
    }
  }

  /* The receipt counts of a run of a consistent store add up to the requests the run made, whatever was
     answered, whatever other clients did at the same time and whichever registries the harness had reason to skip. */
  lemma RequestsAreConserved(r: Run, file: Ledger.LedgerFile, stack: Stack, receipts: seq<RegistryReceipt>)
    requires Consistent(r.host.codec, r.store) && r.scenario in r.store.scenarios
    requires stack.store == r.store && stack.run != "" && Collected(stack, EffectOf(r, file).calls, receipts)
    requires (forall id :: id in SourcesOf(receipts) <==> Visited(r.store, r.acknowledged, id))
    requires Ascending(SourcesOf(receipts))
    ensures TotalCount(receipts) == |EffectOf(r, file).calls|
  {
    RunAsksVisited(r, file);
    ReceiptsCountCalls(stack, EffectOf(r, file).calls, receipts);
    CountsSum(r.store, SourcesOf(receipts), EffectOf(r, file).calls);
  }

  /* How many requests a run that gets to its dependency loop makes: two per dependency of a finished secure
     build, pool size plus one per dependency of a finished combined one, and for a secure build stopped on
     dependency k, 2k and at most two more. */
  ghost predicate RequestTotal(r: Run, n: int)
    requires PolicyLoads(r.store, r.scenario.sourcePolicy) && LockLoads(r.store, r.scenario.lock)
    requires ManifestLoads(r.store, r.scenario.manifest)
  {
    var deps, built := r.store.manifests[r.scenario.manifest].dependencies, BuiltBy(r);
    && (r.scenario.resolver == RESOLVER_SECURE && built.stopped == None ==> n == 2 * |deps|)
    && (r.scenario.resolver == RESOLVER_SECURE && built.stopped.Some? ==>
          |built.resolutions| < |deps| && 2 * |built.resolutions| <= n <= 2 * |built.resolutions| + 2)
    && (r.scenario.resolver == RESOLVER_COMBINED_INDEX && built.stopped == None ==>
          n == BuildLaws.PoolRequests(r.store.policies[r.scenario.sourcePolicy], deps))
  }

  lemma RequestTotals(r: Run, file: Ledger.LedgerFile)
    requires Starts(r, file)
    ensures RequestTotal(r, |EffectOf(r, file).calls|)
  {
    var deps := r.store.manifests[r.scenario.manifest].dependencies;
    GateLaws.EffectWhenStarted(r, file);
    ConcludeCalls(r, GateLaws.LoadedLedger(file), r.store.manifests[r.scenario.manifest].project, BuiltBy(r));
    if r.scenario.resolver == RESOLVER_SECURE {
      BuildLaws.SecureRequestCount(JobOf(r), deps, r.before);
    } else if BuiltBy(r).stopped == None {
      BuildLaws.CombinedRequestCount(JobOf(r), deps, r.before);
    }
  }

  /* The receipts collected after a run: their counts add up to the requests the run made. */
  method CollectAfterRun(ghost r: Run, ghost file: Ledger.LedgerFile, ghost stack: Stack, c: PkgArchive.Codec, s: Store,
                         reach: map<string, Handler>, run: string, boundary: ReceiptConfig, acknowledged: bool)
    returns (receipts: Option<seq<RegistryReceipt>>)
    requires r.host.codec == c && r.store == s && r.acknowledged == acknowledged && stack.store == s
    requires stack.run == run
    requires Consistent(c, s) && r.scenario in s.scenarios
    requires stack.run != "" && Recorded(stack, reach, acknowledged, EffectOf(r, file).calls)
    ensures receipts.Some? <==> forall id :: id in s.registries ==>
            Collectable(c, s, reach, run, boundary, acknowledged, id)
    ensures receipts.Some? ==> TotalCount(receipts.value) == |EffectOf(r, file).calls|
    ensures receipts.Some? && Starts(r, file) ==> RequestTotal(r, TotalCount(receipts.value))
  {
    receipts := CollectReceipts(c, s, reach, run, boundary, acknowledged);
    if receipts.Some? {
      ReportsAreCollected(stack, reach, boundary, acknowledged, EffectOf(r, file).calls, receipts.value);
      RequestsAreConserved(r, file, stack, receipts.value);
      if Starts(r, file) {
        RequestTotals(r, file);
      }
    }
  }
}
