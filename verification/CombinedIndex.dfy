/** internal/combinedindex: the intentionally vulnerable resolver, which merges every pooled answer. */
module CombinedIndex {
  import opened Prelude
  import opened Network
  import opened SourcePolicy
  import opened BuildManifest
  import opened Resolver
  import PkgArchive
  import Semver
  import Sorting

  datatype Offer = Offer(candidate: Candidate, version: Semver.Version, rank: nat)

  // ----- merging the answers -----

  predicate Compatible(range: Semver.Range, v: VersionInfo)
  {
    Semver.Parse(v.version).Some? && Semver.Satisfies(range, Semver.Parse(v.version).value)
  }

  /* What one listing of a pooled source becomes. */
  function OfferOf(source: string, rank: nat, name: string, v: VersionInfo): Offer
  {
    Offer(Offered(source, name, v), Semver.VersionOf(v.version), rank)
  }

  /* What one pooled source offers, in the order it lists its versions. */
  function OffersOf(source: Source, rank: nat, reply: Reply<Metadata>, range: Semver.Range): seq<Offer>
  {
    if !reply.Answer? then []
    else
      Map((v: VersionInfo) => OfferOf(source.id, rank, reply.value.name, v),
          Filter((v: VersionInfo) => Compatible(range, v), reply.value.versions))
  }

  /* The merged offers of the first n pooled sources. */
  function Merge(pool: seq<Source>, replies: seq<Reply<Metadata>>, range: Semver.Range, n: nat): seq<Offer>
    requires n <= |pool| && n <= |replies|
  {
    if n == 0 then [] else Merge(pool, replies, range, n - 1) + OffersOf(pool[n - 1], n - 1, replies[n - 1], range)
  }

  predicate OfferLess(a: Offer, b: Offer)
  {
    var c := Semver.Compare(a.version, b.version);
    if c != 0 then c > 0
    else if a.rank != b.rank then a.rank < b.rank
    else StringLess(a.candidate.source, b.candidate.source)
  }

  lemma OfferLessIsOrder()
    ensures Sorting.StrictWeakOrder(OfferLess)
  {
    forall x: Offer, y: Offer, z: Offer
      ensures !OfferLess(x, x)
      ensures OfferLess(x, y) && OfferLess(y, z) ==> OfferLess(x, z)
      ensures !OfferLess(x, y) && !OfferLess(y, z) ==> !OfferLess(x, z)
    {
      var r, s, t := x.candidate.source, y.candidate.source, z.candidate.source;
      StringLessTrichotomy(r, r);
      StringLessTrichotomy(r, s);
      StringLessTrichotomy(s, t);
      StringLessTrichotomy(r, t);
      if StringLess(r, s) && StringLess(s, t) {
        StringLessTransitive(r, s, t);
      }
      if StringLess(t, s) && StringLess(s, r) {
        StringLessTransitive(t, s, r);
      }
    }
  }

  /* An offer of the source at its rank. */
  predicate Placed(pool: seq<Source>, replies: seq<Reply<Metadata>>, range: Semver.Range, o: Offer)
    requires |pool| == |replies|
  {
    && o.rank < |pool| && replies[o.rank].Answer?
    && o.candidate.source == pool[o.rank].id
    && exists i :: 0 <= i < |replies[o.rank].value.versions| &&
         var v := replies[o.rank].value.versions[i];
         && Compatible(range, v) && o.version == Semver.VersionOf(v.version)
         && o.candidate == Offered(pool[o.rank].id, replies[o.rank].value.name, v)
  }

  lemma OffersOfAre(pool: seq<Source>, replies: seq<Reply<Metadata>>, range: Semver.Range, rank: nat, o: Offer)
    requires rank < |pool| == |replies|
    ensures o in OffersOf(pool[rank], rank, replies[rank], range) <==> o.rank == rank && Placed(pool, replies, range, o)
  {
    if replies[rank].Answer? {
      var versions := replies[rank].value.versions;
      var compatible := Filter((v: VersionInfo) => Compatible(range, v), versions);
      FilterMembers((v: VersionInfo) => Compatible(range, v), versions);
      var offers := OffersOf(pool[rank], rank, replies[rank], range);
      if o in offers {
        var k :| 0 <= k < |offers| && offers[k] == o;
        assert compatible[k] in compatible;
        var i :| 0 <= i < |versions| && versions[i] == compatible[k];
      }
      if o.rank == rank && Placed(pool, replies, range, o) {
        var i :| 0 <= i < |versions| && Compatible(range, versions[i]) &&
                 o.candidate == Offered(pool[rank].id, replies[rank].value.name, versions[i])
                     && o.version == Semver.VersionOf(versions[i].version);
        assert versions[i] in compatible;
        var k :| 0 <= k < |compatible| && compatible[k] == versions[i];
        assert offers[k] == o;
      }
    }
  }

  lemma InEither(xs: seq<Offer>, ys: seq<Offer>, o: Offer)
    ensures o in xs + ys <==> o in xs || o in ys
  {
  }

  /* The sources of the pool together offer o exactly when placed says so, and then at its own rank. */
  ghost predicate OfferedAtRank(pool: seq<Source>, replies: seq<Reply<Metadata>>, range: Semver.Range, o: Offer,
                                placed: bool)
    requires |pool| == |replies|
  {
    forall k: nat :: k < |pool| ==> (o in OffersOf(pool[k], k, replies[k], range) <==> o.rank == k && placed)
  }

  lemma {:induction false} MergeHas(pool: seq<Source>, replies: seq<Reply<Metadata>>, range: Semver.Range, n: nat,
                                    o: Offer, placed: bool)
    requires n <= |pool| == |replies| && OfferedAtRank(pool, replies, range, o, placed)
    ensures o in Merge(pool, replies, range, n) <==> o.rank < n && placed
  {
    if n > 0 {
      MergeHas(pool, replies, range, n - 1, o, placed);
      InEither(Merge(pool, replies, range, n - 1), OffersOf(pool[n - 1], n - 1, replies[n - 1], range), o);
    }
  }

  /* The merged offers are exactly the compatible listings of the pooled sources ... */
  lemma MergeIsPlaced(pool: seq<Source>, replies: seq<Reply<Metadata>>, range: Semver.Range, n: nat)
    requires n <= |pool| == |replies|
    ensures forall o :: o in Merge(pool, replies, range, n) <==> o.rank < n && Placed(pool, replies, range, o)
  {
    forall o ensures o in Merge(pool, replies, range, n) <==> o.rank < n && Placed(pool, replies, range, o) {
      PlacedAtRank(pool, replies, range, o);
      MergeHas(pool, replies, range, n, o, Placed(pool, replies, range, o));
    }
  }

  lemma PlacedAtRank(pool: seq<Source>, replies: seq<Reply<Metadata>>, range: Semver.Range, o: Offer)
    requires |pool| == |replies|
    ensures OfferedAtRank(pool, replies, range, o, Placed(pool, replies, range, o))
  {
    forall k: nat | k < |pool|
      ensures o in OffersOf(pool[k], k, replies[k], range) <==> o.rank == k && Placed(pool, replies, range, o)
    {
      OffersOfAre(pool, replies, range, k, o);
    }
  }

  ghost predicate RanksAscend(xs: seq<Offer>)
  {
    forall i, j :: 0 <= i < j < |xs| ==> xs[i].rank <= xs[j].rank
  }

  lemma AppendNextRank(xs: seq<Offer>, ys: seq<Offer>, rank: nat)
    requires RanksAscend(xs) && (forall x :: x in xs ==> x.rank < rank) && (forall y :: y in ys ==> y.rank == rank)
    ensures RanksAscend(xs + ys)
  {
    var m := xs + ys;
    forall i, j | 0 <= i < j < |m| ensures m[i].rank <= m[j].rank {
      if |xs| <= j {
        assert m[j] in ys && (m[i] in xs || m[i] in ys);
      } else {
        assert m[i] == xs[i] && m[j] == xs[j];
      }
    }
  }

  /* ... and they are listed in rank order. */
  lemma {:induction false} MergeAscends(pool: seq<Source>, replies: seq<Reply<Metadata>>, range: Semver.Range, n: nat)
    requires n <= |pool| == |replies|
    ensures RanksAscend(Merge(pool, replies, range, n))
  {
    if n > 0 {
      MergeAscends(pool, replies, range, n - 1);
      MergeIsPlaced(pool, replies, range, n - 1);
      var last := OffersOf(pool[n - 1], n - 1, replies[n - 1], range);
      forall o | o in last ensures o.rank == n - 1 {
        OffersOfAre(pool, replies, range, n - 1, o);
      }
      AppendNextRank(Merge(pool, replies, range, n - 1), last, n - 1);
    }
  }

  // ----- the selection -----

  /* i is the first position in xs whose version no other exceeds. */
  ghost predicate FirstMaximum(xs: seq<Offer>, i: nat)
  {
    && i < |xs|
    && (forall j :: 0 <= j < |xs| ==> Semver.Compare(xs[i].version, xs[j].version) >= 0)
    && (forall j :: 0 <= j < i ==> Semver.Compare(xs[i].version, xs[j].version) > 0)
  }

  lemma OffersByRankHaveNoTies(xs: seq<Offer>, i: nat, j: nat)
    requires j < i < |xs| && xs[j].rank <= xs[i].rank
    requires xs[j].rank == xs[i].rank ==> xs[j].candidate.source == xs[i].candidate.source
    requires OfferLess(xs[i], xs[j])
    ensures Semver.Compare(xs[i].version, xs[j].version) > 0
  {
    StringLessTrichotomy(xs[j].candidate.source, xs[i].candidate.source);
  }

  /* Sorting by version, rank and source id puts first the first offer of the greatest version in
     the order the offers were collected; the source id never decides. */
  lemma SelectionIsFirstMaximum(xs: seq<Offer>) returns (i: nat)
    requires xs != []
    requires RanksAscend(xs)
    requires forall i, j :: 0 <= i < j < |xs| && xs[i].rank == xs[j].rank ==>
             xs[i].candidate.source == xs[j].candidate.source
    ensures FirstMaximum(xs, i) && Sorting.StableSort(OfferLess, xs) != []
    ensures Sorting.StableSort(OfferLess, xs)[0] == xs[i]
  {
    OfferLessIsOrder();
    Sorting.StableSortCorrect(OfferLess, xs);
    var sorted := Sorting.StableSort(OfferLess, xs);
    var head := sorted[0];
    var tied := (o: Offer) => Sorting.Equivalent(OfferLess, head, o);
    assert Sorting.Class(OfferLess, head, xs) == Sorting.Class(OfferLess, head, sorted);
    assert Filter(tied, xs)[0] == head by {
      assert Sorting.Class(OfferLess, head, sorted)[0] == head;
    }
    i := FirstPosition(tied, xs);
    forall j | 0 <= j < |xs| ensures !OfferLess(xs[j], head) {
      PermutedMembers(sorted, xs);
      assert xs[j] in sorted;
      Sorting.SortedHead(OfferLess, sorted, xs[j]);
    }
    forall j | 0 <= j < |xs| ensures Semver.Compare(xs[i].version, xs[j].version) >= 0 {
      Semver.CompareIsTotalOrder(xs[i].version, xs[j].version, xs[i].version);
    }
    forall j | 0 <= j < i ensures Semver.Compare(xs[i].version, xs[j].version) > 0 {
      OffersByRankHaveNoTies(xs, i, j);
    }
  }

  lemma {:induction false} FirstPosition<T>(keep: T -> bool, xs: seq<T>) returns (i: nat)
    requires Filter(keep, xs) != []
    ensures i < |xs| && keep(xs[i]) && xs[i] == Filter(keep, xs)[0]
    ensures forall j :: 0 <= j < i ==> !keep(xs[j])
  {
    if keep(xs[0]) {
      i := 0;
    } else {
      i := FirstPosition(keep, xs[1..]);
      i := i + 1;
    }
  }

  // ----- the resolution -----

  /* One round of asking a pool about a name. */
  datatype Poll = Poll(world: World, before: seq<Call>, name: string, pool: seq<Source>)
  {
    /* The requests made once the first n pooled sources have been asked. */
    function Asked(n: nat): seq<Call>
      requires n <= |pool|
    {
      Map((s: Source) => MetadataCall(s, name), pool[..n])
    }

    function ReplyOf(i: nat): Reply<Metadata>
      requires i < |pool|
    {
      world.metadata(before + Asked(i), pool[i], name)
    }

    function Reachable(i: nat): bool
      requires i < |pool|
    {
      world.dials(before + Asked(i), pool[i])
    }

    predicate Stops(i: nat)
      requires i < |pool|
    {
      !Reachable(i) || ReplyOf(i) == Unavailable
    }

    /* The position of the first source from i on that stops the polling, or the pool's size. */
    function StopFrom(i: nat): (k: nat)
      requires i <= |pool|
      ensures i <= k <= |pool| && (k < |pool| ==> Stops(k))
      decreases |pool| - i
    {
      if i == |pool| || Stops(i) then i else StopFrom(i + 1)
    }

    /* How many sources were asked. */
    function AskedCount(): (n: nat)
      ensures n <= |pool|
    {
      var k := StopFrom(0);
      if k < |pool| && Reachable(k) then k + 1 else k
    }

    function Replies(): seq<Reply<Metadata>>
    {
      seq(|pool|, i requires 0 <= i < |pool| => ReplyOf(i))
    }

    function Offers(range: Semver.Range): seq<Offer>
    {
      Merge(pool, Replies(), range, |pool|)
    }
  }

  lemma AskedStep(p: Poll, i: nat)
    requires i < |p.pool|
    ensures p.Asked(i + 1) == p.Asked(i) + [MetadataCall(p.pool[i], p.name)]
    ensures SourceIds(p.pool[..i + 1]) == SourceIds(p.pool[..i]) + [p.pool[i].id]
  {
    assert p.pool[..i + 1] == p.pool[..i] + [p.pool[i]];
  }

  /* Everything one resolution can depend on; there is no lock among it. */
  datatype Question = Question(codec: PkgArchive.Codec, policy: Policy, dep: Dependency, world: World,
                               before: seq<Call>)

  function DecisionOf(x: Question): Decision
  {
    var matched := Matching(x.policy, x.dep.name);
    if |matched| == 1 then Decide(x.policy, matched[0], x.dep.name) else NO_DECISION
  }

  function PollOf(x: Question): Poll
  {
    Poll(x.world, x.before, x.dep.name, DecisionOf(x).pool)
  }

  /* The record once a policy has decided the pool. */
  function DecidedRecord(x: Question): Resolution
  {
    NewResolution(x.dep, HighestVersion).(
      displayOrder := SourceIds(x.policy.sources), policy := DecisionOf(x),
      excluded := SourceIds(DecisionOf(x).excluded))
  }

  ghost function Outcome(x: Question): Resolved
  {
    var blank := NewResolution(x.dep, HighestVersion);
    if !ValidPolicy(x.policy) then Resolved(blank, Some(Failure(SourcePolicyInvalid, SourcePolicyStage)), [])
    else if |Matching(x.policy, x.dep.name)| != 1 then
      var class_ := if |Matching(x.policy, x.dep.name)| == 0 then SourcePolicyUnresolved else SourcePolicyAmbiguous;
      Resolved(blank.(displayOrder := SourceIds(x.policy.sources)), Some(Failure(class_, SourcePolicyStage)), [])
    else
      match Semver.ParseRange(x.dep.range)
      case None => Resolved(DecidedRecord(x), Some(Failure(SourcePolicyInvalid, SourcePolicyStage)), [])
      case Some(range) => PooledOutcome(x.codec, PollOf(x), range, DecidedRecord(x))
  }

  /* The outcome of asking a pool, merging, selecting and fetching. */
  function PooledOutcome(codec: PkgArchive.Codec, p: Poll, range: Semver.Range, decided: Resolution): Resolved
  {
    var asked := p.AskedCount();
    var record := decided.(queried := SourceIds(p.pool[..asked]));
    if p.StopFrom(0) < |p.pool| then
      Resolved(record, Some(Failure(RegistryUnavailable, RegistryQueryStage)), p.Asked(asked))
    else SelectedOutcome(codec, p, Sorting.StableSort(OfferLess, p.Offers(range)), record)
  }

  function SelectedOutcome(codec: PkgArchive.Codec, p: Poll, sorted: seq<Offer>, polled: Resolution): Resolved
  {
    var record := polled.(candidates := Map((o: Offer) => o.candidate, sorted));
    if sorted == [] then Resolved(record, Some(Failure(NoCompatibleCandidate, RegistryQueryStage)), p.Asked(|p.pool|))
    else FetchedOutcome(codec, p, sorted[0].candidate, record.(selected := sorted[0].candidate))
  }

  function FetchedOutcome(codec: PkgArchive.Codec, p: Poll, selected: Candidate, record: Resolution): Resolved
  {
    var asked, source := p.Asked(|p.pool|), SourceOf(p.pool, selected.source);
    if !p.world.dials(p.before + asked, source) then
      Resolved(record, Some(Failure(RegistryUnavailable, ArtifactFetchStage)), asked)
    else
      var calls := asked + [ArtifactCall(source, p.name, selected.version)];
      match p.world.artifact(p.before + asked, source, p.name, selected.version)
      case NotFound => Resolved(record, Some(Failure(ArtifactUnavailable, ArtifactFetchStage)), calls)
      case Unavailable => Resolved(record, Some(Failure(RegistryUnavailable, ArtifactFetchStage)), calls)
      case Answer(raw) =>
        var read := record.(size := |raw|, digest := codec.digest(raw), integrity := Unverified);
        match PkgArchive.ParseArchive(codec, raw)
        case Err(_) => Resolved(read, Some(Failure(ArtifactMalformed, ArtifactParseStage)), calls)
        case Ok(pkg) => Resolved(read.(pkg := Some(pkg)), None, calls)
  }

  // ----- Resolve as the source writes it -----

  method CollectOffers(source: Source, rank: nat, meta: Metadata, range: Semver.Range) returns (offers: seq<Offer>)
    ensures offers == OffersOf(source, rank, Answer(meta), range)
  {
    offers := [];
    var compatible := (v: VersionInfo) => Compatible(range, v);
    ghost var kept: seq<VersionInfo> := [];
    for i := 0 to |meta.versions|
      invariant kept == Filter(compatible, meta.versions[..i])
      invariant offers == Map((v: VersionInfo) => OfferOf(source.id, rank, meta.name, v), kept)
    {
      var v := meta.versions[i];
      FilterSnoc(compatible, meta.versions[..i], v);
      assert meta.versions[..i + 1] == meta.versions[..i] + [v];
      var version := Semver.ParseVersion(v.version);
      if version.Some? && Semver.Satisfies(range, version.value) {
        kept := kept + [v];
        offers := offers + [Offer(Offered(source.id, meta.name, v), version.value, rank)];
      }
    }
    assert meta.versions[..|meta.versions|] == meta.versions;
  }

  /* One turn of the polling loop: no offers means the polling stops here. */
  method AskSource(ghost p: Poll, rank: nat, source: Source, name: string, range: Semver.Range, net: Clients)
    returns (asked: bool, offers: Option<seq<Offer>>)
    requires rank < |p.pool| && p.pool[rank] == source && p.name == name && p.world == net.world
    requires net.calls == p.before + p.Asked(rank)
    modifies net
    ensures asked == p.Reachable(rank)
    ensures net.calls == old(net.calls) + if asked then [MetadataCall(source, name)] else []
    ensures offers == if p.Stops(rank) then None else Some(OffersOf(source, rank, p.ReplyOf(rank), range))
  {
    asked := net.Dial(source);
    if !asked {
      return asked, None;
    }
    var meta := net.FetchMetadata(source, name);
    match meta
    case NotFound => offers := Some([]);
    case Unavailable => offers := None;
    case Answer(m) =>
      var more := CollectOffers(source, rank, m, range);
      offers := Some(more);
  }

  lemma PollGoesOn(p: Poll, range: Semver.Range, i: nat)
    requires i < |p.pool| && !p.Stops(i)
    ensures p.StopFrom(i) == p.StopFrom(i + 1)
    ensures Merge(p.pool, p.Replies(), range, i + 1) ==
            Merge(p.pool, p.Replies(), range, i) + OffersOf(p.pool[i], i, p.ReplyOf(i), range)
  {
  }

  /* The polling got to this rank with these sources asked and these offers collected. */
  ghost predicate Polled(p: Poll, range: Semver.Range, rank: nat, queried: seq<string>, offers: seq<Offer>)
    requires rank <= |p.pool|
  {
    && p.StopFrom(0) == p.StopFrom(rank) && queried == SourceIds(p.pool[..rank])
    && offers == Merge(p.pool, p.Replies(), range, rank)
  }

  lemma PolledMore(p: Poll, range: Semver.Range, rank: nat, queried: seq<string>, offers: seq<Offer>)
    requires rank < |p.pool| && Polled(p, range, rank, queried, offers) && !p.Stops(rank)
    ensures Polled(p, range, rank + 1, queried + [p.pool[rank].id],
                   offers + OffersOf(p.pool[rank], rank, p.ReplyOf(rank), range))
    ensures p.Asked(rank + 1) == p.Asked(rank) + [MetadataCall(p.pool[rank], p.name)]
  {
    AskedStep(p, rank);
    PollGoesOn(p, range, rank);
  }

  lemma PollEndsHere(p: Poll, i: nat)
    requires i <= |p.pool| && p.StopFrom(0) == p.StopFrom(i) && (i < |p.pool| ==> p.Stops(i))
    ensures p.StopFrom(0) == i
    ensures p.AskedCount() == if i < |p.pool| && p.Reachable(i) then i + 1 else i
  {
  }

  method PollPool(ghost p: Poll, name: string, pool: seq<Source>, range: Semver.Range, net: Clients)
    returns (queried: seq<string>, offers: seq<Offer>, down: bool)
    requires p == Poll(net.world, net.calls, name, pool)
    modifies net
    ensures down <==> p.StopFrom(0) < |pool|
    ensures queried == SourceIds(pool[..p.AskedCount()]) && net.calls == old(net.calls) + p.Asked(p.AskedCount())
    ensures !down ==> offers == p.Offers(range)
  {
    queried, offers := [], [];
    for rank := 0 to |pool|
      invariant Polled(p, range, rank, queried, offers) && net.calls == p.before + p.Asked(rank)
    {
      var asked, more := AskSource(p, rank, pool[rank], name, range, net);
      ghost var earlier := queried;
      if asked {
        queried := queried + [pool[rank].id];
      }
      if more.None? {
        AskedStep(p, rank);
        PollEndsHere(p, rank);
        return queried, offers, true;
      }
      PolledMore(p, range, rank, earlier, offers);
      offers := offers + more.value;
    }
    PollEndsHere(p, |pool|);
    down := false;
  }

  method Resolve(codec: PkgArchive.Codec, policy: Policy, dep: Dependency, net: Clients)
    returns (res: Resolution, failure: Option<Failure>)
    modifies net
    ensures var r := Outcome(Question(codec, policy, dep, net.world, old(net.calls)));
            res == r.record && failure == r.failure && net.calls == old(net.calls) + r.calls
  {
    ghost var x := Question(codec, policy, dep, net.world, net.calls);
    res := NewResolution(dep, HighestVersion);
    var invalid := SourcePolicy.Validate(policy);
    if invalid.Some? {
      return res, Some(Failure(SourcePolicyInvalid, SourcePolicyStage));
    }
    res := res.(displayOrder := SourceIds(policy.sources));
    var decided := SourcePolicy.Resolve(policy, dep.name);
    if decided.Err? {
      var class_ := if decided.error == AmbiguousMapping then SourcePolicyAmbiguous else SourcePolicyUnresolved;
      return res, Some(Failure(class_, SourcePolicyStage));
    }
    var decision := decided.value;
    assert decision == DecisionOf(x);
    res := res.(policy := decision, excluded := SourceIds(decision.excluded));
    var declared := Semver.ParseRangeText(dep.range);
    if declared.None? {
      return res, Some(Failure(SourcePolicyInvalid, SourcePolicyStage));
    }
    res, failure := ResolvePool(PollOf(x), codec, dep.name, decision.pool, declared.value, res, net);
  }

  method ResolvePool(ghost p: Poll, codec: PkgArchive.Codec, name: string, pool: seq<Source>, range: Semver.Range,
                     before: Resolution, net: Clients)
    returns (res: Resolution, failure: Option<Failure>)
    requires p == Poll(net.world, net.calls, name, pool)
    modifies net
    ensures var r := PooledOutcome(codec, p, range, before);
            res == r.record && failure == r.failure && net.calls == old(net.calls) + r.calls
  {
    var queried, offers, down := PollPool(p, name, pool, range, net);
    res := before.(queried := queried);
    if down {
      return res, Some(Failure(RegistryUnavailable, RegistryQueryStage));
    }
    offers := Sorting.StableSort(OfferLess, offers);
    res := res.(candidates := Map((o: Offer) => o.candidate, offers));
    if |offers| == 0 {
      return res, Some(Failure(NoCompatibleCandidate, RegistryQueryStage));
    }
    var selected := offers[0].candidate;
    res := res.(selected := selected);
    res, failure := FetchSelected(p, codec, selected, res, name, pool, net);
  }

  method FetchSelected(ghost p: Poll, codec: PkgArchive.Codec, selected: Candidate, before: Resolution, name: string,
                       pool: seq<Source>, net: Clients)
    returns (res: Resolution, failure: Option<Failure>)
    requires p.name == name && p.pool == pool && p.world == net.world && net.calls == p.before + p.Asked(|pool|)
    modifies net
    ensures var r := FetchedOutcome(codec, p, selected, before);
            res == r.record && failure == r.failure && net.calls == p.before + r.calls
  {
    res := before;
    var source := SourceById(pool, selected.source);
    var dialled := net.Dial(source);
    if !dialled {
      return res, Some(Failure(RegistryUnavailable, ArtifactFetchStage));
    }
    var raw := net.FetchArtifact(source, name, selected.version);
    if raw == NotFound {
      return res, Some(Failure(ArtifactUnavailable, ArtifactFetchStage));
    }
    if raw == Unavailable {
      return res, Some(Failure(RegistryUnavailable, ArtifactFetchStage));
    }
    res := res.(size := |raw.value|, digest := codec.digest(raw.value), integrity := Unverified);
    var pkg := PkgArchive.Parse(codec, raw.value);
    if pkg.Err? {
      return res, Some(Failure(ArtifactMalformed, ArtifactParseStage));
    }
    res := res.(pkg := Some(pkg.value));
    failure := None;
  }

  method SourceById(pool: seq<Source>, id: string) returns (s: Source)
    ensures s == SourceOf(pool, id)
  {
    var found := LookupSource(pool, id);
    match found
    case Some(source) => s := source;
    case None => s := NO_SOURCE;
  }

  // ----- what a resolution promises -----

  function Best(p: Poll, range: Semver.Range): Offer
    requires Sorting.StableSort(OfferLess, p.Offers(range)) != []
  {
    Sorting.StableSort(OfferLess, p.Offers(range))[0]
  }

  /* The offers of a poll are listed by rank, and one rank is one source. */
  lemma OffersAreListed(p: Poll, range: Semver.Range)
    ensures RanksAscend(p.Offers(range))
    ensures forall o :: o in p.Offers(range) <==> o.rank < |p.pool| && Placed(p.pool, p.Replies(), range, o)
    ensures Sorting.StableSort(OfferLess, p.Offers(range)) == [] <==> p.Offers(range) == []
    ensures multiset(Sorting.StableSort(OfferLess, p.Offers(range))) == multiset(p.Offers(range))
    ensures Sorting.Sorted(OfferLess, Sorting.StableSort(OfferLess, p.Offers(range)))
  {
    MergeAscends(p.pool, p.Replies(), range, |p.pool|);
    MergeIsPlaced(p.pool, p.Replies(), range, |p.pool|);
    OfferLessIsOrder();
    Sorting.StableSortCorrect(OfferLess, p.Offers(range));
  }

  /* The selected offer is the first one, in the order sources are asked and versions listed, whose
     version no other compatible offer exceeds. */
  lemma BestIsFirstMaximum(p: Poll, range: Semver.Range) returns (i: nat)
    requires p.Offers(range) != []
    ensures Sorting.StableSort(OfferLess, p.Offers(range)) != []
    ensures FirstMaximum(p.Offers(range), i) && Best(p, range) == p.Offers(range)[i]
  {
    OffersAreListed(p, range);
    var offers := p.Offers(range);
    forall i, j | 0 <= i < j < |offers| && offers[i].rank == offers[j].rank
      ensures offers[i].candidate.source == offers[j].candidate.source
    {
      assert offers[i] in offers && offers[j] in offers;
    }
    i := SelectionIsFirstMaximum(offers);
  }

  /* The order without its last key. */
  predicate VersionThenRank(a: Offer, b: Offer)
  {
    var c := Semver.Compare(a.version, b.version);
    if c != 0 then c > 0 else a.rank < b.rank
  }

  /* The source id never decides: leaving it out of the comparison changes no candidate list. */
  lemma SourceIdNeverDecides(p: Poll, range: Semver.Range)
    ensures Sorting.StableSort(OfferLess, p.Offers(range)) == Sorting.StableSort(VersionThenRank, p.Offers(range))
  {
    OffersAreListed(p, range);
    var offers := p.Offers(range);
    forall a, b | a in offers && b in offers ensures OfferLess(a, b) == VersionThenRank(a, b) {
      StringLessTrichotomy(a.candidate.source, b.candidate.source);
    }
    Sorting.StableSortAgrees(OfferLess, VersionThenRank, offers);
  }

  ghost predicate AllReply(p: Poll)
  {
    forall i: nat :: i < |p.pool| ==> !p.Stops(i)
  }

  /* Whenever the two polls get to it, a source they share is reached alike and replies alike. */
  ghost predicate RepliesAlike(p: Poll, q: Poll)
  {
    forall i: nat, j: nat :: i < |p.pool| && j < |q.pool| && p.pool[i] == q.pool[j] ==>
      p.ReplyOf(i) == q.ReplyOf(j) && p.Reachable(i) == q.Reachable(j)
  }

  /* q asks the sources p asks, in another order, and is told the same. */
  ghost predicate Reordered(p: Poll, q: Poll)
  {
    q.name == p.name && multiset(q.pool) == multiset(p.pool) && RepliesAlike(p, q)
  }

  lemma ReorderedReply(p: Poll, q: Poll, i: nat) returns (j: nat)
    requires Reordered(p, q) && i < |p.pool|
    ensures j < |q.pool| && q.pool[j] == p.pool[i] && q.ReplyOf(j) == p.ReplyOf(i) && q.Stops(j) == p.Stops(i)
  {
    PermutedMembers(p.pool, q.pool);
    assert p.pool[i] in q.pool;
    j :| 0 <= j < |q.pool| && q.pool[j] == p.pool[i];
  }

  lemma ReorderedOffer(p: Poll, q: Poll, range: Semver.Range, o: Offer) returns (o': Offer)
    requires Reordered(p, q) && o in p.Offers(range)
    ensures o' in q.Offers(range) && o'.candidate == o.candidate && o'.version == o.version
  {
    OffersAreListed(p, range);
    OffersAreListed(q, range);
    var j := ReorderedReply(p, q, o.rank);
    o' := o.(rank := j);
    assert q.Replies()[j] == p.Replies()[o.rank];
  }

  lemma ReorderedBack(p: Poll, q: Poll)
    requires Reordered(p, q)
    ensures Reordered(q, p)
  {
  }

  lemma AllReplyReordered(p: Poll, q: Poll)
    requires Reordered(p, q) && AllReply(p)
    ensures AllReply(q)
  {
    ReorderedBack(p, q);
    forall j: nat | j < |q.pool| ensures !q.Stops(j) {
      var i := ReorderedReply(q, p, j);
    }
  }

  /* Offers carry their own version. */
  lemma OfferVersion(p: Poll, range: Semver.Range, o: Offer)
    requires o in p.Offers(range)
    ensures Semver.Parse(o.candidate.version) == Some(o.version)
  {
    OffersAreListed(p, range);
  }

  /* The source with this id offers this version in the poll. */
  ghost predicate OffersVersion(p: Poll, range: Semver.Range, id: string, version: string)
  {
    exists o :: o in p.Offers(range) && o.candidate.source == id && o.candidate.version == version
  }

  /* Reordering a pool changes neither whether anything is selectable nor the version selected; the
     sources the two orders select both offer that version. */
  lemma PoolOrderIsNotTrust(p: Poll, q: Poll, range: Semver.Range)
    requires Reordered(p, q) && AllReply(p)
    ensures AllReply(q)
    ensures p.Offers(range) == [] <==> q.Offers(range) == []
    ensures p.Offers(range) != [] ==>
              && Sorting.StableSort(OfferLess, p.Offers(range)) != []
              && Sorting.StableSort(OfferLess, q.Offers(range)) != []
              && Best(p, range).version == Best(q, range).version
              && Best(p, range).candidate.version == Best(q, range).candidate.version
              && OffersVersion(p, range, Best(q, range).candidate.source, Best(p, range).candidate.version)
              && OffersVersion(q, range, Best(p, range).candidate.source, Best(p, range).candidate.version)
  {
    AllReplyReordered(p, q);
    ReorderedBack(p, q);
    if p.Offers(range) != [] {
      BestIsOffered(p, q, range);
      BestIsOffered(q, p, range);
      SameBest(p, q, range);
    } else if q.Offers(range) != [] {
      BestIsOffered(q, p, range);
      assert false;
    }
  }

  /* What one order selects the other offers, and does not exceed. */
  lemma BestIsOffered(p: Poll, q: Poll, range: Semver.Range)
    requires Reordered(p, q) && p.Offers(range) != []
    ensures q.Offers(range) != []
    ensures Sorting.StableSort(OfferLess, p.Offers(range)) != [] && Sorting.StableSort(OfferLess, q.Offers(range)) != []
    ensures Semver.Compare(Best(q, range).version, Best(p, range).version) >= 0
    ensures OffersVersion(q, range, Best(p, range).candidate.source, Best(p, range).candidate.version)
    ensures Best(p, range) in p.Offers(range)
  {
    var i := BestIsFirstMaximum(p, range);
    var o := ReorderedOffer(p, q, range, Best(p, range));
    var j := BestIsFirstMaximum(q, range);
  }

  lemma SameBest(p: Poll, q: Poll, range: Semver.Range)
    requires Sorting.StableSort(OfferLess, p.Offers(range)) != []
    requires Sorting.StableSort(OfferLess, q.Offers(range)) != []
    requires Best(p, range) in p.Offers(range) && Best(q, range) in q.Offers(range)
    requires Semver.Compare(Best(p, range).version, Best(q, range).version) >= 0
    requires Semver.Compare(Best(q, range).version, Best(p, range).version) >= 0
    ensures Best(p, range).version == Best(q, range).version
    ensures Best(p, range).candidate.version == Best(q, range).candidate.version
  {
    var a, b := Best(p, range), Best(q, range);
    Semver.CompareIsTotalOrder(a.version, b.version, a.version);
    OfferVersion(p, range, a);
    OfferVersion(q, range, b);
    Semver.SpellingIsIdentity(a.candidate.version, b.candidate.version);
  }

  lemma FrontIsPlaced(pool: seq<Source>, replies: seq<Reply<Metadata>>, pool': seq<Source>,
                      replies': seq<Reply<Metadata>>, range: Semver.Range, o: Offer)
    requires |pool| == |replies| && |pool'| == |replies'| && pool' != [] && Placed(pool, replies, range, o)
    requires pool'[0] == pool[o.rank] && replies'[0] == replies[o.rank]
    ensures Placed(pool', replies', range, o.(rank := 0))
  {
  }

  lemma FrontReply(p: Poll, q: Poll, i: nat)
    requires Reordered(p, q) && i < |p.pool| && q.pool != [] && q.pool[0] == p.pool[i]
    ensures q.ReplyOf(0) == p.ReplyOf(i)
  {
  }

  lemma FrontOffer(p: Poll, q: Poll, range: Semver.Range, o: Offer) returns (front: Offer)
    requires o in p.Offers(range) && o.rank < |p.pool|
    requires q.pool != [] && q.pool[0] == p.pool[o.rank] && q.ReplyOf(0) == p.ReplyOf(o.rank)
    ensures front == o.(rank := 0) && front in q.Offers(range)
  {
    OffersAreListed(p, range);
    OffersAreListed(q, range);
    front := o.(rank := 0);
    FrontIsPlaced(p.pool, p.Replies(), q.pool, q.Replies(), range, o);
  }

  /* No offer of the poll exceeds the version. */
  ghost predicate Greatest(p: Poll, range: Semver.Range, v: Semver.Version)
  {
    forall o :: o in p.Offers(range) ==> Semver.Compare(v, o.version) >= 0
  }

  /* Conversely the order decides among the sources that offer the greatest version: any of them is
     selected by the order that asks it first. */
  lemma AnyBestSourceCanWin(p: Poll, q: Poll, range: Semver.Range, o: Offer)
    requires Reordered(p, q) && o in p.Offers(range) && Greatest(p, range, o.version)
    requires o.rank < |p.pool| && q.pool != [] && q.pool[0] == p.pool[o.rank]
    ensures Sorting.StableSort(OfferLess, q.Offers(range)) != []
    ensures Best(q, range).candidate.source == o.candidate.source
    ensures Best(q, range).version == o.version
  {
    FrontReply(p, q, o.rank);
    var front := FrontOffer(p, q, range, o);
    StillGreatest(p, q, range, front.version);
    FrontWins(q, range, front);
  }

  lemma StillGreatest(p: Poll, q: Poll, range: Semver.Range, v: Semver.Version)
    requires Reordered(p, q) && Greatest(p, range, v)
    ensures Greatest(q, range, v)
  {
    ReorderedBack(p, q);
    forall o | o in q.Offers(range) ensures Semver.Compare(v, o.version) >= 0 {
      var o' := ReorderedOffer(q, p, range, o);
    }
  }

  /* An offer at the front of the pool that no other exceeds is selected, or another of its source and version. */
  lemma FrontWins(q: Poll, range: Semver.Range, front: Offer)
    requires front in q.Offers(range) && front.rank == 0 && Greatest(q, range, front.version)
    ensures Sorting.StableSort(OfferLess, q.Offers(range)) != []
    ensures Best(q, range).candidate.source == front.candidate.source && Best(q, range).version == front.version
  {
    OffersAreListed(q, range);
    var i := BestIsFirstMaximum(q, range);
    var best := Best(q, range);
    assert best in q.Offers(range);
    var j :| 0 <= j < |q.Offers(range)| && q.Offers(range)[j] == front;
    Semver.CompareIsTotalOrder(best.version, front.version, best.version);
    assert i <= j;
    assert best.rank == 0;
  }

  /* With distinct pool ids the artifact is fetched from the very source that made the selected offer. */
  lemma SelectedSourceIsAsked(p: Poll, range: Semver.Range)
    requires p.Offers(range) != [] && DistinctBy((s: Source) => s.id, p.pool)
    ensures Sorting.StableSort(OfferLess, p.Offers(range)) != []
    ensures Best(p, range).rank < |p.pool|
    ensures SourceOf(p.pool, Best(p, range).candidate.source) == p.pool[Best(p, range).rank]
  {
    var i := BestIsFirstMaximum(p, range);
    OffersAreListed(p, range);
    var best := Best(p, range);
    assert best in p.Offers(range);
    FindSourceFinds(p.pool, best.candidate.source);
    assert p.pool[best.rank] in p.pool;
    SameIdSameSource(p.pool, p.pool[best.rank], SourceOf(p.pool, best.candidate.source));
  }

  ghost predicate OfPool(p: Poll, calls: seq<Call>)
  {
    forall c :: c in calls ==> c.name == p.name && c.source in p.pool
  }

  lemma AskedOfPool(p: Poll, n: nat)
    requires n <= |p.pool|
    ensures OfPool(p, p.Asked(n))
  {
  }

  lemma PooledCalls(codec: PkgArchive.Codec, p: Poll, range: Semver.Range, decided: Resolution)
    requires DistinctBy((s: Source) => s.id, p.pool)
    ensures OfPool(p, PooledOutcome(codec, p, range, decided).calls)
  {
    AskedOfPool(p, p.AskedCount());
    AskedOfPool(p, |p.pool|);
    if p.StopFrom(0) == |p.pool| {
      var sorted := Sorting.StableSort(OfferLess, p.Offers(range));
      if sorted != [] {
        BestSourceInPool(p, range);
        FetchedCalls(codec, p, sorted[0].candidate);
      }
    }
  }

  lemma BestSourceInPool(p: Poll, range: Semver.Range)
    requires DistinctBy((s: Source) => s.id, p.pool) && Sorting.StableSort(OfferLess, p.Offers(range)) != []
    ensures SourceOf(p.pool, Best(p, range).candidate.source) in p.pool
  {
    OffersAreListed(p, range);
    SelectedSourceIsAsked(p, range);
  }

  lemma FetchedCalls(codec: PkgArchive.Codec, p: Poll, selected: Candidate)
    ensures forall record :: FetchedOutcome(codec, p, selected, record).calls
              <= p.Asked(|p.pool|) + [ArtifactCall(SourceOf(p.pool, selected.source), p.name, selected.version)]
  {
  }

  lemma PooledSuccess(codec: PkgArchive.Codec, p: Poll, range: Semver.Range, decided: Resolution)
    requires DistinctBy((s: Source) => s.id, p.pool) && PooledOutcome(codec, p, range, decided).failure == None
    ensures p.StopFrom(0) == |p.pool| && p.Offers(range) != [] && Sorting.StableSort(OfferLess, p.Offers(range)) != []
    ensures var r, best := PooledOutcome(codec, p, range, decided), Best(p, range);
            && best.rank < |p.pool| && r.record.selected == best.candidate && r.record.integrity == Unverified
            && r.record.pkg.Some? && PkgArchive.ValidTable(r.record.pkg.value.policy)
            && r.record.name == decided.name && r.record.alias == decided.alias
            && r.calls == p.Asked(|p.pool|) + [ArtifactCall(p.pool[best.rank], p.name, best.candidate.version)]
  {
    OffersAreListed(p, range);
    SelectedSourceIsAsked(p, range);
    FetchedSuccess(codec, p, Best(p, range).candidate,
                   decided.(queried := SourceIds(p.pool[..p.AskedCount()]),
                            candidates := Map((o: Offer) => o.candidate,
                                              Sorting.StableSort(OfferLess, p.Offers(range))),
                            selected := Best(p, range).candidate));
  }

  lemma FetchedSuccess(codec: PkgArchive.Codec, p: Poll, selected: Candidate, record: Resolution)
    requires FetchedOutcome(codec, p, selected, record).failure == None
    ensures var r := FetchedOutcome(codec, p, selected, record);
            && r.record.selected == record.selected && r.record.integrity == Unverified
            && r.record.name == record.name && r.record.alias == record.alias
            && r.record.pkg.Some? && PkgArchive.ValidTable(r.record.pkg.value.policy)
            && r.calls == p.Asked(|p.pool|) +
                          [ArtifactCall(SourceOf(p.pool, selected.source), p.name, selected.version)]
  {
    var source := SourceOf(p.pool, selected.source);
    var raw := p.world.artifact(p.before + p.Asked(|p.pool|), source, p.name, selected.version).value;
    PkgArchive.ParseAcceptsExactly(codec, raw, PkgArchive.ParseArchive(codec, raw).value);
  }

  /* Resolution reaches the pool exactly when the policy decides the name and the range reads. */
  ghost predicate ReachesPool(x: Question)
  {
    ValidPolicy(x.policy) && Resolves(x.policy, x.dep.name, Ok(DecisionOf(x))) && Semver.ParseRange(x.dep.range).Some?
  }

  lemma PoolReached(x: Question)
    ensures ReachesPool(x) <==>
            ValidPolicy(x.policy) && |Matching(x.policy, x.dep.name)| == 1 && Semver.ParseRange(x.dep.range).Some?
    ensures ReachesPool(x) ==> DistinctBy((s: Source) => s.id, DecisionOf(x).pool)
    ensures ReachesPool(x) ==> forall s :: s in DecisionOf(x).pool ==> s in x.policy.sources
    ensures !ReachesPool(x) ==> Outcome(x).failure.Some? && Outcome(x).calls == []
    ensures ReachesPool(x) ==>
              Outcome(x) == PooledOutcome(x.codec, PollOf(x), Semver.ParseRange(x.dep.range).value, DecidedRecord(x))
  {
    if ReachesPool(x) {
      DecisionShape(x.policy, x.dep.name, DecisionOf(x));
    }
  }

  /* A resolution that succeeds has asked every pooled source once and fetched one artifact, from the
     source that made the selected offer. */
  lemma SuccessAsksWholePool(x: Question)
    requires Outcome(x).failure == None
    ensures ReachesPool(x)
    ensures var p, range := PollOf(x), Semver.ParseRange(x.dep.range).value;
            && p.Offers(range) != [] && Sorting.StableSort(OfferLess, p.Offers(range)) != []
            && var best := Best(p, range);
            && best.rank < |p.pool| && Outcome(x).record.selected == best.candidate
            && Outcome(x).record.integrity == Unverified
            && Outcome(x).record.name == x.dep.name && Outcome(x).record.alias == x.dep.alias
            && Outcome(x).record.pkg.Some? && PkgArchive.ValidTable(Outcome(x).record.pkg.value.policy)
            && Outcome(x).calls == p.Asked(|p.pool|) +
                                   [ArtifactCall(p.pool[best.rank], x.dep.name, best.candidate.version)]
            && |Outcome(x).calls| == |p.pool| + 1
  {
    PoolReached(x);
    PooledSuccess(x.codec, PollOf(x), Semver.ParseRange(x.dep.range).value, DecidedRecord(x));
  }

  /* Whatever the resolution does, it asks only pooled sources, and only about this name. */
  lemma CallsStayInPool(x: Question)
    ensures forall c :: c in Outcome(x).calls ==>
              ReachesPool(x) && c.name == x.dep.name && c.source in DecisionOf(x).pool
  {
    PoolReached(x);
    if ReachesPool(x) {
      PooledCalls(x.codec, PollOf(x), Semver.ParseRange(x.dep.range).value, DecidedRecord(x));
    }
  }

  // ----- the same policy with its sources and pools listed in another order -----

  ghost predicate ReorderedMapping(m: Mapping, n: Mapping)
  {
    n == m.(sources := n.sources) && multiset(n.sources) == multiset(m.sources)
  }

  ghost predicate ReorderedMappings(ms: seq<Mapping>, ns: seq<Mapping>)
  {
    |ns| == |ms| && forall i :: 0 <= i < |ms| ==> ReorderedMapping(ms[i], ns[i])
  }

  lemma ReorderedMappingValid(sources: seq<Source>, m: Mapping, n: Mapping)
    requires ReorderedMapping(m, n) && ValidMapping(sources, m)
    ensures ValidMapping(sources, n)
  {
    PermutedMembers(m.sources, n.sources);
    DistinctByPermuted((id: string) => id, m.sources, n.sources);
    assert |multiset(m.sources)| == |m.sources| && |multiset(n.sources)| == |n.sources|;
  }

  /* q lists the sources of p, and those each of its mappings pools, in another order. */
  ghost predicate ReorderedPools(p: Policy, q: Policy)
  {
    q.format == p.format && multiset(q.sources) == multiset(p.sources) && ReorderedMappings(p.mappings, q.mappings)
  }

  lemma ReorderedPolicyValid(p: Policy, q: Policy)
    requires ReorderedPools(p, q) && ValidPolicy(p)
    ensures ValidPolicy(q)
  {
    var between := q.(mappings := p.mappings);
    ValidPolicyPermuted(p, between);
    forall n | n in q.mappings ensures ValidMapping(q.sources, n) {
      var i :| 0 <= i < |q.mappings| && q.mappings[i] == n;
      assert p.mappings[i] in between.mappings;
      ReorderedMappingValid(q.sources, p.mappings[i], n);
    }
  }

  lemma {:induction false} ReorderedMatching(ms: seq<Mapping>, ns: seq<Mapping>, name: string)
    requires ReorderedMappings(ms, ns)
    ensures ReorderedMappings(Filter((m: Mapping) => Matches(m.pattern, name), ms),
                              Filter((m: Mapping) => Matches(m.pattern, name), ns))
  {
    if ms != [] {
      assert ReorderedMapping(ms[0], ns[0]);
      ReorderedMatching(ms[1..], ns[1..], name);
    }
  }

  /* The same question put to such a policy. */
  ghost predicate ReorderedQuestion(x: Question, y: Question)
  {
    y == x.(policy := y.policy) && ReorderedPools(x.policy, y.policy)
  }

  lemma ReorderedDecision(x: Question, y: Question)
    requires ReorderedQuestion(x, y) && ReachesPool(x)
    ensures ReachesPool(y)
    ensures multiset(PollOf(y).pool) == multiset(PollOf(x).pool)
  {
    PoolReached(x);
    ReorderedPolicyValid(x.policy, y.policy);
    ReorderedMatching(x.policy.mappings, y.policy.mappings, x.dep.name);
    PoolReached(y);
    var m, n := Matching(x.policy, x.dep.name)[0], Matching(y.policy, y.dep.name)[0];
    MapPermuted(id => SourceOf(x.policy.sources, id), PoolIds(m), PoolIds(n));
    forall id ensures SourceOf(x.policy.sources, id) == SourceOf(y.policy.sources, id) {
      FindSourcePermuted(x.policy.sources, y.policy.sources, id);
    }
    assert Map(id => SourceOf(x.policy.sources, id), PoolIds(n)) ==
           Map(id => SourceOf(y.policy.sources, id), PoolIds(n));
  }

  lemma {:induction false} PollsThrough(p: Poll, i: nat)
    requires i <= |p.pool| && AllReply(p)
    ensures p.StopFrom(i) == |p.pool|
    decreases |p.pool| - i
  {
    if i < |p.pool| {
      PollsThrough(p, i + 1);
    }
  }

  const NO_OFFER := Failure(NoCompatibleCandidate, RegistryQueryStage)

  /* Fetching changes neither what is shown as candidates nor what as selected. */
  lemma FetchingKeepsSelection(codec: PkgArchive.Codec, p: Poll, selected: Candidate, record: Resolution)
    ensures var r := FetchedOutcome(codec, p, selected, record);
            && r.record.candidates == record.candidates && r.record.selected == record.selected
            && r.failure != Some(NO_OFFER)
  {
  }

  /* A resolution that merged these offers, sorted, shows them as candidates and the first of them as selected. */
  ghost predicate Shows(o: Resolved, sorted: seq<Offer>)
  {
    && o.record.candidates == Map((x: Offer) => x.candidate, sorted)
    && o.record.selected == (if sorted == [] then NO_CANDIDATE else sorted[0].candidate)
    && (o.failure == Some(NO_OFFER) <==> sorted == [])
  }

  lemma SelectionShows(codec: PkgArchive.Codec, p: Poll, sorted: seq<Offer>, polled: Resolution)
    requires polled.selected == NO_CANDIDATE
    ensures Shows(SelectedOutcome(codec, p, sorted, polled), sorted)
  {
    if sorted != [] {
      var record := polled.(candidates := Map((x: Offer) => x.candidate, sorted));
      FetchingKeepsSelection(codec, p, sorted[0].candidate, record.(selected := sorted[0].candidate));
    }
  }

  lemma PollShows(codec: PkgArchive.Codec, p: Poll, range: Semver.Range, decided: Resolution)
    requires AllReply(p) && decided.selected == NO_CANDIDATE
    ensures Shows(PooledOutcome(codec, p, range, decided), Sorting.StableSort(OfferLess, p.Offers(range)))
  {
    PollsThrough(p, 0);
    SelectionShows(codec, p, Sorting.StableSort(OfferLess, p.Offers(range)),
                   decided.(queried := SourceIds(p.pool[..p.AskedCount()])));
  }

  /* Where every source answers or reports that it lacks the name, the order in which a policy lists a pool never
     changes whether a resolution finds a candidate nor the version it selects; it can change the selected source
     only to another that offers that version. */
  lemma PoolListingIsNotTrust(x: Question, y: Question)
    requires ReorderedQuestion(x, y) && ReachesPool(x) && AllReply(PollOf(x)) && RepliesAlike(PollOf(x), PollOf(y))
    ensures Outcome(x).record.selected.version == Outcome(y).record.selected.version
    ensures Outcome(x).record.candidates == [] <==> Outcome(y).record.candidates == []
    ensures Outcome(x).failure == Some(NO_OFFER) <==> Outcome(y).failure == Some(NO_OFFER)
    ensures var a, b, range := Outcome(x).record, Outcome(y).record, Semver.ParseRange(x.dep.range).value;
            a.candidates != [] ==>
              && OffersVersion(PollOf(x), range, b.selected.source, a.selected.version)
              && OffersVersion(PollOf(y), range, a.selected.source, b.selected.version)
  {
    ReorderedDecision(x, y);
    PoolReached(x);
    PoolReached(y);
    var p, q, range := PollOf(x), PollOf(y), Semver.ParseRange(x.dep.range).value;
    PoolOrderIsNotTrust(p, q, range);
    OffersAreListed(p, range);
    OffersAreListed(q, range);
    PollShows(x.codec, p, range, DecidedRecord(x));
    PollShows(y.codec, q, range, DecidedRecord(y));
  }
}
