/**
 The repository's own source policies: what putting the shadow registry in the place of the public one changes, and what
 the half-fixes of the combined index do not.
 */
module CheckedInPolicies {
  import opened Prelude
  import opened SourcePolicy
  import opened Resolver
  import opened Network
  import CombinedIndex
  import Semver
  import Sorting

  const PRIVATE := Source("glasswing-private", ROLE_PRIVATE, "http://packages.private.example:8080")
  const PUBLIC := Source("community-public", ROLE_PUBLIC, "http://packages.public.example:8080")
  const SHADOW := Source("community-public-shadow", ROLE_PUBLIC, "http://packages-shadow.public.example:8080")

  // ----- the exclusive policies -----

  /* One exclusive mapping for the private names and one for the public ones. */
  function TwoDomains(open_: Source): Policy
  {
    Policy(POLICY_FORMAT, [PRIVATE, open_],
           [Mapping("@glasswing/*", MODE_EXCLUSIVE, PRIVATE.id, []),
            Mapping("community-*", MODE_EXCLUSIVE, open_.id, [])])
  }

  const DEFAULT := TwoDomains(PUBLIC)
  const EXCLUSIVE_AGAINST_SHADOW := TwoDomains(SHADOW)

  lemma TwoDomainsIsValid(open_: Source)
    requires ValidSource(open_) && open_.id != PRIVATE.id
    ensures ValidPolicy(TwoDomains(open_))
  {
    var p := TwoDomains(open_);
    assert p.sources[0] == PRIVATE && p.sources[1] == open_;
    assert Declares(p.sources, PRIVATE.id) && Declares(p.sources, open_.id);
    assert p.mappings[0].pattern[|p.mappings[0].pattern| - 1] == '*';
  }

  lemma TwoDomainsMatching(open_: Source, name: string)
    ensures "@glasswing/" <= name ==> Matching(TwoDomains(open_), name) == TwoDomains(open_).mappings[..1]
    ensures "community-" <= name ==> Matching(TwoDomains(open_), name) == TwoDomains(open_).mappings[1..]
  {
    var matches, ms := (m: Mapping) => Matches(m.pattern, name), TwoDomains(open_).mappings;
    assert ms == [ms[0]] + [ms[1]];
    FilterAppend(matches, [ms[0]], [ms[1]]);
    FilterSingle(matches, ms[0]);
    FilterSingle(matches, ms[1]);
    assert ms[0].pattern[..11] == "@glasswing/" && ms[1].pattern[..10] == "community-";
    if "@glasswing/" <= name {
      assert name[0] == '@';
    }
    if "community-" <= name {
      assert name[0] == 'c';
    }
  }

  lemma TwoDomainsBinds(open_: Source, name: string)
    requires open_.id != PRIVATE.id
    ensures var p := TwoDomains(open_);
            Decide(p, p.mappings[0], name).bound == PRIVATE && Decide(p, p.mappings[1], name).bound == open_
  {
    var sources := TwoDomains(open_).sources;
    assert sources[1..] == [open_] && FindSource([open_], open_.id) == Some(open_);
  }

  /* The repository's policies `default` and `exclusive-against-shadow` decide every private name alike, and every
     public one differently. */
  lemma ShadowPolicyDecidesAlike(name: string)
    ensures "@glasswing/" <= name ==> DecideAlike(DEFAULT, EXCLUSIVE_AGAINST_SHADOW, name)
    ensures "community-" <= name ==> !DecideAlike(DEFAULT, EXCLUSIVE_AGAINST_SHADOW, name)
  {
    TwoDomainsIsValid(PUBLIC);
    TwoDomainsIsValid(SHADOW);
    TwoDomainsMatching(PUBLIC, name);
    TwoDomainsMatching(SHADOW, name);
    TwoDomainsBinds(PUBLIC, name);
    TwoDomainsBinds(SHADOW, name);
  }

  /* So putting the shadow registry in the place of the public one changes nothing for a private dependency. */
  lemma ShadowIsInvisible(x: Inputs, y: Inputs)
    requires x.cfg.policy == DEFAULT && y == x.(cfg := Config(EXCLUSIVE_AGAINST_SHADOW, x.cfg.lock))
    requires "@glasswing/" <= x.dep.name
    ensures ResolvedAlike(x, y)
  {
    ShadowPolicyDecidesAlike(x.dep.name);
    DecidedAlikeResolvesAlike(x, y);
  }

  // ----- the combined policies -----

  /* One pool for the private names, asked in this order. */
  function OnePool(sources: seq<Source>, ids: seq<string>): Policy
  {
    Policy(POLICY_FORMAT, sources,
           [Mapping("@glasswing/*", MODE_COMBINED, "", ids), Mapping("community-*", MODE_EXCLUSIVE, SHADOW.id, [])])
  }

  const COMBINED_INDEX := OnePool([SHADOW, PRIVATE], [SHADOW.id, PRIVATE.id])
  const COMBINED_INDEX_PRIVATE_FIRST := OnePool([PRIVATE, SHADOW], [PRIVATE.id, SHADOW.id])

  lemma SwappedIsReordered(a: Source, b: Source)
    ensures CombinedIndex.ReorderedPools(OnePool([a, b], [a.id, b.id]), OnePool([b, a], [b.id, a.id]))
  {
    SwappedIsPermuted(a, b);
    SwappedIsPermuted(a.id, b.id);
  }

  lemma SwappedIsPermuted<T>(a: T, b: T)
    ensures multiset([b, a]) == multiset([a, b])
  {
    assert [a, b] == [a] + [b] && [b, a] == [b] + [a];
  }

  /* Asking the private registry first is the same policy in another order: where both registries answer the same
     whenever they are asked, it selects the same version. */
  lemma PrivateFirstIsNoFix(x: CombinedIndex.Question, y: CombinedIndex.Question)
    requires x.policy == COMBINED_INDEX && y == x.(policy := COMBINED_INDEX_PRIVATE_FIRST)
    requires CombinedIndex.ReachesPool(x) && CombinedIndex.AllReply(CombinedIndex.PollOf(x))
    requires CombinedIndex.RepliesAlike(CombinedIndex.PollOf(x), CombinedIndex.PollOf(y))
    ensures CombinedIndex.Outcome(x).record.selected.version == CombinedIndex.Outcome(y).record.selected.version
  {
    SwappedIsReordered(SHADOW, PRIVATE);
    CombinedIndex.PoolListingIsNotTrust(x, y);
  }

  // ----- the public shadow -----

  const V142 := Semver.Version(1, 4, 2)
  const V150 := Semver.Version(1, 5, 0)
  const V999 := Semver.Version(9, 9, 9)

  lemma SmallVersion(a: nat, b: nat, c: nat, text: string)
    requires a < 10 && b < 10 && c < 10
    requires text == [Semver.DigitChar(a), '.', Semver.DigitChar(b), '.', Semver.DigitChar(c)]
    ensures Semver.Parse(text) == Some(Semver.Version(a, b, c)) && text == Semver.Spell(Semver.Version(a, b, c))
  {
    Semver.VersionBijection(text, Semver.Version(a, b, c));
  }

  lemma VersionTexts()
    ensures Semver.Parse("1.4.2") == Some(V142) && Semver.Parse("1.5.0") == Some(V150)
    ensures Semver.Parse("9.9.9") == Some(V999) && Semver.Spell(V142) == "1.4.2"
  {
    SmallVersion(1, 4, 2, "1.4.2");
    SmallVersion(1, 5, 0, "1.5.0");
    SmallVersion(9, 9, 9, "9.9.9");
  }

  lemma RangeTexts()
    ensures Semver.ParseRange(">=1.4.2") == Some(Semver.Range(Semver.AtLeast, V142))
    ensures Semver.ParseRange("1.4.2") == Some(Semver.Range(Semver.Exact, V142))
  {
    VersionTexts();
    ReadsAtLeast(V142);
    Semver.RangeBijection("1.4.2", Semver.Range(Semver.Exact, V142));
    assert ">=" + "1.4.2" == ">=1.4.2";
  }

  lemma ReadsAtLeast(v: Semver.Version)
    ensures Semver.ParseRange(">=" + Semver.Spell(v)) == Some(Semver.Range(Semver.AtLeast, v))
  {
    Semver.RangeBijection(">=" + Semver.Spell(v), Semver.Range(Semver.AtLeast, v));
  }

  /* The reply lists exactly these versions. */
  ghost predicate Lists(reply: Reply<Metadata>, versions: seq<string>)
  {
    reply.Answer? && Map((v: VersionInfo) => v.version, reply.value.versions) == versions
  }

  /* The combined policy is asked for the private release policy while the shadow registry publishes that name too: both
     registries list what their checked-in fixtures hold. */
  ghost predicate ShadowPublished(x: CombinedIndex.Question)
  {
    && x.policy == COMBINED_INDEX && x.dep.name == "@glasswing/release-policy"
    && var p := CombinedIndex.PollOf(x);
    && p.pool == [SHADOW, PRIVATE] && p.Reachable(0) && p.Reachable(1)
    && Lists(p.ReplyOf(0), ["1.4.2", "9.9.9"]) && Lists(p.ReplyOf(1), ["1.4.2", "1.5.0"])
  }

  lemma OnePoolIsValid(a: Source, b: Source)
    requires ValidSource(a) && ValidSource(b) && a.id != b.id && (a == SHADOW || b == SHADOW)
    ensures ValidPolicy(OnePool([a, b], [a.id, b.id]))
  {
    var p := OnePool([a, b], [a.id, b.id]);
    assert p.sources[0] == a && p.sources[1] == b;
    assert Declares(p.sources, a.id) && Declares(p.sources, b.id);
  }

  lemma OnePoolMatching(sources: seq<Source>, ids: seq<string>, name: string)
    requires "@glasswing/" <= name
    ensures Matching(OnePool(sources, ids), name) == OnePool(sources, ids).mappings[..1]
  {
    var ms, matches := OnePool(sources, ids).mappings, (m: Mapping) => Matches(m.pattern, name);
    assert ms == [ms[0]] + [ms[1]];
    FilterAppend(matches, [ms[0]], [ms[1]]);
    FilterSingle(matches, ms[0]);
    FilterSingle(matches, ms[1]);
    assert ms[0].pattern[..11] == "@glasswing/" && ms[1].pattern[..10] == "community-" && name[0] == '@';
  }

  lemma OnePoolIsReached(x: CombinedIndex.Question, sources: seq<Source>, ids: seq<string>)
    requires x.policy == OnePool(sources, ids) && "@glasswing/" <= x.dep.name && Semver.ParseRange(x.dep.range).Some?
    requires ValidPolicy(OnePool(sources, ids))
    ensures CombinedIndex.ReachesPool(x)
  {
    OnePoolMatching(sources, ids, x.dep.name);
    CombinedIndex.PoolReached(x);
  }

  lemma BothReply(p: CombinedIndex.Poll)
    requires |p.pool| == 2 && p.Reachable(0) && p.Reachable(1) && p.ReplyOf(0).Answer? && p.ReplyOf(1).Answer?
    ensures CombinedIndex.AllReply(p)
  {
  }

  lemma ShadowIsPolled(x: CombinedIndex.Question)
    requires ShadowPublished(x) && Semver.ParseRange(x.dep.range).Some?
    ensures CombinedIndex.ReachesPool(x) && CombinedIndex.AllReply(CombinedIndex.PollOf(x))
  {
    OnePoolIsValid(SHADOW, PRIVATE);
    OnePoolIsReached(x, [SHADOW, PRIVATE], [SHADOW.id, PRIVATE.id]);
    BothReply(CombinedIndex.PollOf(x));
  }

  /* An offer of this poll is of a version its source lists. */
  lemma ShadowOffers(x: CombinedIndex.Question, range: Semver.Range, o: CombinedIndex.Offer)
    requires ShadowPublished(x) && o in CombinedIndex.PollOf(x).Offers(range)
    ensures o.rank == 0 || o.rank == 1
    ensures o.candidate.source == if o.rank == 0 then SHADOW.id else PRIVATE.id
    ensures o.candidate.version in if o.rank == 0 then ["1.4.2", "9.9.9"] else ["1.4.2", "1.5.0"]
    ensures Semver.Parse(o.candidate.version) == Some(o.version)
  {
    var p := CombinedIndex.PollOf(x);
    CombinedIndex.OffersAreListed(p, range);
    CombinedIndex.OfferVersion(p, range, o);
    var versions := p.ReplyOf(o.rank).value.versions;
    assert p.Replies()[o.rank] == p.ReplyOf(o.rank);
    var k :| 0 <= k < |versions| && o.candidate == Offered(p.pool[o.rank].id, p.ReplyOf(o.rank).value.name,
                                                           versions[k]);
    assert Map((v: VersionInfo) => v.version, versions)[k] == versions[k].version;
  }

  lemma ShadowOffersVersion(x: CombinedIndex.Question, range: Semver.Range, k: nat) returns (o: CombinedIndex.Offer)
    requires ShadowPublished(x) && k < 2
    requires var version := ["1.4.2", "9.9.9"][k];
             Semver.Parse(version).Some? && Semver.Satisfies(range, Semver.Parse(version).value)
    ensures o in CombinedIndex.PollOf(x).Offers(range) && o.rank == 0
    ensures o.candidate.version == ["1.4.2", "9.9.9"][k]
  {
    var p := CombinedIndex.PollOf(x);
    var reply := p.ReplyOf(0);
    assert Map((v: VersionInfo) => v.version, reply.value.versions)[k] == reply.value.versions[k].version;
    o := CombinedIndex.OfferOf(SHADOW.id, 0, reply.value.name, reply.value.versions[k]);
    assert p.Replies()[0] == reply && CombinedIndex.Compatible(range, reply.value.versions[k]);
    assert CombinedIndex.Placed(p.pool, p.Replies(), range, o);
    CombinedIndex.OffersAreListed(p, range);
  }

  /* With the permissive range of the repository's manifest the shadow's 9.9.9 is selected; with its exact range the
     shadow's 1.4.2 is. */
  lemma ShadowWins(x: CombinedIndex.Question)
    requires ShadowPublished(x) && (x.dep.range == ">=1.4.2" || x.dep.range == "1.4.2")
    ensures CombinedIndex.Outcome(x).record.selected.source == SHADOW.id
    ensures CombinedIndex.Outcome(x).record.selected.version == if x.dep.range == "1.4.2" then "1.4.2" else "9.9.9"
  {
    RangeTexts();
    ShadowIsPolled(x);
    CombinedIndex.PoolReached(x);
    var p, range := CombinedIndex.PollOf(x), Semver.ParseRange(x.dep.range).value;
    CombinedIndex.PollShows(x.codec, p, range, CombinedIndex.DecidedRecord(x));
    BestOfShadow(x, range);
  }

  lemma BestOfShadow(x: CombinedIndex.Question, range: Semver.Range)
    requires ShadowPublished(x) && (range.kind == Semver.AtLeast || range.kind == Semver.Exact) && range.base == V142
    ensures var p := CombinedIndex.PollOf(x);
            && Sorting.StableSort(CombinedIndex.OfferLess, p.Offers(range)) != []
            && var best := CombinedIndex.Best(p, range);
            && best.candidate.source == SHADOW.id
            && best.candidate.version == if range.kind == Semver.Exact then "1.4.2" else "9.9.9"
  {
    VersionTexts();
    var p, k := CombinedIndex.PollOf(x), if range.kind == Semver.Exact then 0 else 1;
    var wanted := ShadowOffersVersion(x, range, k);
    var i := CombinedIndex.BestIsFirstMaximum(p, range);
    var best := CombinedIndex.Best(p, range);
    assert best in p.Offers(range);
    ShadowOffers(x, range, best);
    ShadowOffers(x, range, wanted);
    NoneBefore(p, range, i, wanted);
    BestSatisfies(p, range, best);
    ShadowLeads(best, wanted, range);
  }

  lemma BestSatisfies(p: CombinedIndex.Poll, range: Semver.Range, o: CombinedIndex.Offer)
    requires o in p.Offers(range)
    ensures Semver.Satisfies(range, o.version)
  {
    CombinedIndex.OffersAreListed(p, range);
  }

  lemma NoneBefore(p: CombinedIndex.Poll, range: Semver.Range, i: nat, o: CombinedIndex.Offer)
    requires CombinedIndex.FirstMaximum(p.Offers(range), i) && o in p.Offers(range)
    ensures var best := p.Offers(range)[i];
            var order := Semver.Compare(best.version, o.version);
            order > 0 || (order == 0 && best.rank <= o.rank)
  {
    CombinedIndex.OffersAreListed(p, range);
    var j :| 0 <= j < |p.Offers(range)| && p.Offers(range)[j] == o;
  }

  /* Of the four listings none is newer than 9.9.9, and only the shadow's is of an exact 1.4.2 that comes first. */
  lemma ShadowLeads(best: CombinedIndex.Offer, wanted: CombinedIndex.Offer, range: Semver.Range)
    requires best.rank == 0 || best.rank == 1
    requires best.candidate.source == if best.rank == 0 then SHADOW.id else PRIVATE.id
    requires best.candidate.version in if best.rank == 0 then ["1.4.2", "9.9.9"] else ["1.4.2", "1.5.0"]
    requires Semver.Parse(best.candidate.version) == Some(best.version)
    requires wanted.rank == 0 && Semver.Parse(wanted.candidate.version) == Some(wanted.version)
    requires wanted.candidate.version == if range.kind == Semver.Exact then "1.4.2" else "9.9.9"
    requires var order := Semver.Compare(best.version, wanted.version);
             order > 0 || (order == 0 && best.rank <= wanted.rank)
    requires Semver.Satisfies(range, best.version) && range.base == V142
    ensures best.candidate.source == SHADOW.id && best.candidate.version == wanted.candidate.version
  {
    VersionTexts();
    Semver.SatisfiesExactly(range, best.version);
    Semver.CompareIsLexicographic(best.version, wanted.version);
    Semver.SpellingIsIdentity(best.candidate.version, wanted.candidate.version);
  }
}
