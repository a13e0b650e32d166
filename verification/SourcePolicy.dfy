/** internal/sourcepolicy: which source, or pool of sources, a dependency name may come from. */
module SourcePolicy {
  import opened Prelude

  const MODE_EXCLUSIVE := "exclusive"
  const MODE_COMBINED := "combined"
  const ROLE_PRIVATE := "private"
  const ROLE_PUBLIC := "public"
  const POLICY_FORMAT := "indexjack-source-policy/1"

  datatype PolicyError = NoMapping | AmbiguousMapping | UnknownSource | UnsupportedMode | InvalidPolicy

  datatype Source = Source(id: string, role: string, url: string)

  datatype Mapping = Mapping(pattern: string, mode: string, source: string, sources: seq<string>)

  datatype Policy = Policy(format: string, sources: seq<Source>, mappings: seq<Mapping>)

  datatype Decision = Decision(
    name: string, pattern: string, mode: string, bound: Source, pool: seq<Source>, excluded: seq<Source>)

  const NO_SOURCE := Source("", "", "")
  const NO_DECISION := Decision("", "", "", NO_SOURCE, [], [])

  // ----- patterns -----

  predicate TrailingStar(pattern: string)
  {
    pattern != "" && pattern[|pattern| - 1] == '*'
  }

  /* A non-empty pattern whose only '*', if any, is its last character. */
  predicate ValidPattern(pattern: string)
  {
    pattern != "" && '*' !in pattern[..|pattern| - 1]
  }

  predicate Matches(pattern: string, name: string)
  {
    if TrailingStar(pattern) then pattern[..|pattern| - 1] <= name else pattern == name
  }

  /* A pattern matches itself, and with a star in place of its end every name with that beginning. */
  lemma MatchesExactly(pattern: string, name: string)
    ensures Matches(pattern, name) <==> pattern == name || exists k: nat :: k <= |name| && pattern == name[..k] + "*"
  {
    if TrailingStar(pattern) && Matches(pattern, name) {
      assert pattern == name[..|pattern| - 1] + "*";
    }
    if k: nat :| k <= |name| && pattern == name[..k] + "*" {
      assert pattern[..|pattern| - 1] == name[..k];
    }
  }

  /* A valid pattern is a name, or the beginning of one with a star after it. */
  lemma ValidPatternExactly(pattern: string)
    ensures ValidPattern(pattern) <==>
            exists prefix: string :: '*' !in prefix && ((prefix != "" && pattern == prefix) || pattern == prefix + "*")
  {
    if ValidPattern(pattern) {
      var n := |pattern| - 1;
      assert pattern == pattern[..n] + [pattern[n]];
      if pattern[n] == '*' {
        assert pattern == pattern[..n] + "*";
      } else {
        assert '*' !in pattern;
      }
    }
    if prefix: string :| '*' !in prefix && ((prefix != "" && pattern == prefix) || pattern == prefix + "*") {
      assert forall i :: 0 <= i < |pattern| - 1 ==> pattern[i] in prefix;
    }
  }

  /* Two prefix patterns can both claim a name exactly when one literal prefix extends the other. */
  lemma StarPatternsOverlap(a: string, b: string)
    requires TrailingStar(a) && TrailingStar(b)
    ensures (exists name :: Matches(a, name) && Matches(b, name)) <==>
            a[..|a| - 1] <= b[..|b| - 1] || b[..|b| - 1] <= a[..|a| - 1]
  {
    var x, y := a[..|a| - 1], b[..|b| - 1];
    if name :| Matches(a, name) && Matches(b, name) {
      assert x == name[..|x|] && y == name[..|y|];
    }
    if x <= y {
      assert Matches(a, y) && Matches(b, y);
    }
    if y <= x {
      assert Matches(a, x) && Matches(b, x);
    }
  }

  // ----- validity -----

  ghost predicate Declares(sources: seq<Source>, id: string)
  {
    exists s :: s in sources && s.id == id
  }

  predicate ValidSource(s: Source)
  {
    s.id != "" && s.url != "" && (s.role == ROLE_PRIVATE || s.role == ROLE_PUBLIC)
  }

  /* An exclusive mapping names one declared source; a combined one, two or more distinct ones. */
  ghost predicate ValidMapping(sources: seq<Source>, m: Mapping)
  {
    && ValidPattern(m.pattern)
    && (m.mode == MODE_EXCLUSIVE || m.mode == MODE_COMBINED)
    && (m.mode == MODE_EXCLUSIVE ==> m.source != "" && m.sources == [] && Declares(sources, m.source))
    && (m.mode == MODE_COMBINED ==>
          && m.source == "" && |m.sources| >= 2
          && DistinctBy((id: string) => id, m.sources)
          && forall id :: id in m.sources ==> Declares(sources, id))
  }

  ghost predicate ValidPolicy(p: Policy)
  {
    && p.format == POLICY_FORMAT && p.sources != [] && p.mappings != []
    && (forall s :: s in p.sources ==> ValidSource(s))
    && DistinctBy((s: Source) => s.id, p.sources)
    && (forall m :: m in p.mappings ==> ValidMapping(p.sources, m))
    && DistinctBy((m: Mapping) => m.pattern, p.mappings)
  }

  function FindSource(sources: seq<Source>, id: string): Option<Source>
  {
    if sources == [] then None
    else if sources[0].id == id then Some(sources[0])
    else FindSource(sources[1..], id)
  }

  lemma {:induction false} FindSourceFinds(sources: seq<Source>, id: string)
    ensures FindSource(sources, id).Some? <==> Declares(sources, id)
    ensures FindSource(sources, id).Some? ==>
              FindSource(sources, id).value in sources && FindSource(sources, id).value.id == id
  {
    if sources != [] {
      FindSourceFinds(sources[1..], id);
      assert forall s :: s in sources <==> s == sources[0] || s in sources[1..];
      assert sources[0] in sources;
    }
  }

  lemma SameIdSameSource(sources: seq<Source>, s: Source, t: Source)
    requires DistinctBy((s: Source) => s.id, sources) && s in sources && t in sources && s.id == t.id
    ensures s == t
  {
    var i :| 0 <= i < |sources| && sources[i] == s;
    var j :| 0 <= j < |sources| && sources[j] == t;
  }

  lemma FindSourcePermuted(sources: seq<Source>, others: seq<Source>, id: string)
    requires multiset(sources) == multiset(others) && DistinctBy((s: Source) => s.id, sources)
    ensures FindSource(sources, id) == FindSource(others, id)
  {
    PermutedMembers(sources, others);
    FindSourceFinds(sources, id);
    FindSourceFinds(others, id);
    if FindSource(sources, id).Some? {
      SameIdSameSource(sources, FindSource(sources, id).value, FindSource(others, id).value);
    }
  }

  method LookupSource(sources: seq<Source>, id: string) returns (r: Option<Source>)
    ensures r == FindSource(sources, id)
  {
    for i := 0 to |sources|
      invariant FindSource(sources, id) == FindSource(sources[i..], id)
    {
      if sources[i].id == id {
        return Some(sources[i]);
      }
    }
    r := None;
  }

  // ----- Validate -----

  /* What is wrong with the sources a combined mapping pools, from position i on. */
  function PoolFault(sources: seq<Source>, ids: seq<string>, i: nat): Option<PolicyError>
    requires i <= |ids|
    decreases |ids| - i
  {
    if i == |ids| then None
    else if FindSource(sources, ids[i]).None? then Some(UnknownSource)
    else if ids[i] in ids[..i] then Some(InvalidPolicy)
    else PoolFault(sources, ids, i + 1)
  }

  /* What is wrong with where a mapping sends its names. */
  function MappingFault(sources: seq<Source>, m: Mapping): Option<PolicyError>
  {
    if m.mode == MODE_EXCLUSIVE then
      if m.source == "" || m.sources != [] then Some(InvalidPolicy)
      else if FindSource(sources, m.source).None? then Some(UnknownSource)
      else None
    else if m.mode == MODE_COMBINED then
      if m.source != "" || |m.sources| < 2 then Some(InvalidPolicy) else PoolFault(sources, m.sources, 0)
    else Some(UnsupportedMode)
  }

  /* The first thing wrong with the mappings from position i on. */
  function MappingsFault(sources: seq<Source>, mappings: seq<Mapping>, i: nat): Option<PolicyError>
    requires i <= |mappings|
    decreases |mappings| - i
  {
    if i == |mappings| then None
    else if !ValidPattern(mappings[i].pattern) then Some(InvalidPolicy)
    else if exists k :: 0 <= k < i && mappings[k].pattern == mappings[i].pattern then Some(InvalidPolicy)
    else
      var fault := MappingFault(sources, mappings[i]);
      if fault.Some? then fault else MappingsFault(sources, mappings, i + 1)
  }

  ghost predicate ValidSources(sources: seq<Source>)
  {
    (forall s :: s in sources ==> ValidSource(s)) && DistinctBy((s: Source) => s.id, sources)
  }

  /* The first thing wrong with a policy. */
  ghost function PolicyFault(p: Policy): Option<PolicyError>
  {
    if p.format != POLICY_FORMAT || p.sources == [] || p.mappings == [] || !ValidSources(p.sources)
      then Some(InvalidPolicy)
    else MappingsFault(p.sources, p.mappings, 0)
  }

  lemma {:induction false} PoolFaultFrom(sources: seq<Source>, ids: seq<string>, i: nat, j: nat)
    requires i <= j <= |ids|
    requires forall k :: i <= k < j ==> Declares(sources, ids[k]) && ids[k] !in ids[..k]
    ensures PoolFault(sources, ids, i) == PoolFault(sources, ids, j)
    decreases j - i
  {
    if i < j {
      FindSourceFinds(sources, ids[i]);
      PoolFaultFrom(sources, ids, i + 1, j);
    }
  }

  /* The first id of a pool that is not declared, or that repeats, decides what is wrong with the pool. */
  lemma PoolFaultsExactly(sources: seq<Source>, ids: seq<string>, j: nat)
    requires j < |ids| && forall k :: 0 <= k < j ==> Declares(sources, ids[k]) && ids[k] !in ids[..k]
    requires !Declares(sources, ids[j]) || ids[j] in ids[..j]
    ensures PoolFault(sources, ids, 0) == Some(if Declares(sources, ids[j]) then InvalidPolicy else UnknownSource)
  {
    PoolFaultFrom(sources, ids, 0, j);
    FindSourceFinds(sources, ids[j]);
  }

  lemma PoolFaultFree(sources: seq<Source>, ids: seq<string>)
    requires DistinctBy((id: string) => id, ids) && forall id :: id in ids ==> Declares(sources, id)
    ensures PoolFault(sources, ids, 0) == None
  {
    PoolFaultFrom(sources, ids, 0, |ids|);
  }

  lemma {:induction false} MappingsFaultFrom(sources: seq<Source>, mappings: seq<Mapping>, i: nat, j: nat)
    requires i <= j <= |mappings| && DistinctBy((m: Mapping) => m.pattern, mappings[..j])
    requires forall k :: i <= k < j ==> ValidMapping(sources, mappings[k])
    ensures MappingsFault(sources, mappings, i) == MappingsFault(sources, mappings, j)
    decreases j - i
  {
    if i < j {
      var m := mappings[i];
      assert forall k :: 0 <= k < i ==> mappings[..j][k] == mappings[k] && mappings[..j][i] == m;
      if m.mode == MODE_EXCLUSIVE {
        FindSourceFinds(sources, m.source);
      } else {
        PoolFaultFree(sources, m.sources);
      }
      MappingsFaultFrom(sources, mappings, i + 1, j);
    }
  }

  /* A policy whose frame and first i mappings are fine is refused for its next one: an unsupported mode, a source it
     names that is not declared, or anything else that is wrong with it. */
  lemma PolicyFaultsExactly(p: Policy, i: nat)
    requires p.format == POLICY_FORMAT && p.sources != [] && ValidSources(p.sources) && i < |p.mappings|
    requires DistinctBy((m: Mapping) => m.pattern, p.mappings[..i])
    requires forall k :: 0 <= k < i ==> ValidMapping(p.sources, p.mappings[k])
    ensures var m := p.mappings[i];
            var fresh_ := ValidPattern(m.pattern) && forall k :: 0 <= k < i ==> p.mappings[k].pattern != m.pattern;
            var binds, pools := fresh_ && m.mode == MODE_EXCLUSIVE, fresh_ && m.mode == MODE_COMBINED;
            var shaped := if binds then m.source != "" && m.sources == [] else m.source == "" && |m.sources| >= 2;
            var pooled := PoolFault(p.sources, m.sources, 0);
            && (!fresh_ ==> PolicyFault(p) == Some(InvalidPolicy))
            && (fresh_ && !binds && !pools ==> PolicyFault(p) == Some(UnsupportedMode))
            && ((binds || pools) && !shaped ==> PolicyFault(p) == Some(InvalidPolicy))
            && (binds && shaped && !Declares(p.sources, m.source) ==> PolicyFault(p) == Some(UnknownSource))
            && (pools && shaped && pooled.Some? ==> PolicyFault(p) == pooled)
  {
    MappingsFaultFrom(p.sources, p.mappings, 0, i);
    FindSourceFinds(p.sources, p.mappings[i].source);
  }

  method ValidateSources(sources: seq<Source>) returns (err: Option<PolicyError>)
    ensures err == None || err == Some(InvalidPolicy)
    ensures err == None <==> ValidSources(sources)
  {
    var seen: set<string> := {};
    for i := 0 to |sources|
      invariant seen == set k | 0 <= k < i :: sources[k].id
      invariant forall k :: 0 <= k < i ==> ValidSource(sources[k])
      invariant forall j, k :: 0 <= j < k < i ==> sources[j].id != sources[k].id
    {
      var s := sources[i];
      assert s in sources;
      if s.id == "" || s.url == "" {
        return Some(InvalidPolicy);
      }
      if s.role != ROLE_PRIVATE && s.role != ROLE_PUBLIC {
        return Some(InvalidPolicy);
      }
      if s.id in seen {
        return Some(InvalidPolicy);
      }
      seen := seen + {s.id};
    }
    err := None;
  }

  method ValidatePool(sources: seq<Source>, ids: seq<string>) returns (err: Option<PolicyError>)
    ensures err == PoolFault(sources, ids, 0)
    ensures err == None <==> DistinctBy((id: string) => id, ids) && forall id :: id in ids ==> Declares(sources, id)
  {
    var seen: set<string> := {};
    for i := 0 to |ids|
      invariant PoolFault(sources, ids, 0) == PoolFault(sources, ids, i)
      invariant seen == set k | 0 <= k < i :: ids[k]
      invariant forall k :: 0 <= k < i ==> Declares(sources, ids[k])
      invariant forall j, k :: 0 <= j < k < i ==> ids[j] != ids[k]
    {
      assert ids[i] in ids;
      FindSourceFinds(sources, ids[i]);
      var found := LookupSource(sources, ids[i]);
      if found.None? {
        return Some(UnknownSource);
      }
      if ids[i] in seen {
        return Some(InvalidPolicy);
      }
      seen := seen + {ids[i]};
    }
    err := None;
  }

  method ValidateMapping(sources: seq<Source>, m: Mapping) returns (err: Option<PolicyError>)
    requires ValidPattern(m.pattern)
    ensures err == MappingFault(sources, m)
    ensures err == None <==> ValidMapping(sources, m)
  {
    if m.mode == MODE_EXCLUSIVE {
      if m.source == "" || |m.sources| != 0 {
        return Some(InvalidPolicy);
      }
      FindSourceFinds(sources, m.source);
      var found := LookupSource(sources, m.source);
      if found.None? {
        return Some(UnknownSource);
      }
      return None;
    }
    if m.mode == MODE_COMBINED {
      if m.source != "" || |m.sources| < 2 {
        return Some(InvalidPolicy);
      }
      err := ValidatePool(sources, m.sources);
      return;
    }
    err := Some(UnsupportedMode);
  }

  method Validate(p: Policy) returns (err: Option<PolicyError>)
    ensures err == PolicyFault(p)
    ensures err == None <==> ValidPolicy(p)
  {
    if p.format != POLICY_FORMAT {
      return Some(InvalidPolicy);
    }
    if |p.sources| == 0 || |p.mappings| == 0 {
      return Some(InvalidPolicy);
    }
    err := ValidateSources(p.sources);
    if err.Some? {
      return;
    }
    err := ValidateMappings(p.sources, p.mappings);
  }

  method ValidateMappings(sources: seq<Source>, mappings: seq<Mapping>) returns (err: Option<PolicyError>)
    ensures err == MappingsFault(sources, mappings, 0)
    ensures err == None <==>
            (forall m :: m in mappings ==> ValidMapping(sources, m)) && DistinctBy((m: Mapping) => m.pattern, mappings)
  {
    var patterns: set<string> := {};
    for i := 0 to |mappings|
      invariant MappingsFault(sources, mappings, 0) == MappingsFault(sources, mappings, i)
      invariant forall text :: text in patterns <==> exists k :: 0 <= k < i && mappings[k].pattern == text
      invariant forall k :: 0 <= k < i ==> ValidMapping(sources, mappings[k])
      invariant forall j, k :: 0 <= j < k < i ==> mappings[j].pattern != mappings[k].pattern
    {
      var m := mappings[i];
      assert m in mappings;
      if !ValidPattern(m.pattern) {
        return Some(InvalidPolicy);
      }
      if m.pattern in patterns {
        return Some(InvalidPolicy);
      }
      patterns := patterns + {m.pattern};
      err := ValidateMapping(sources, m);
      if err.Some? {
        return;
      }
    }
    err := None;
  }

  // ----- Resolve -----

  function Matching(p: Policy, name: string): seq<Mapping>
  {
    Filter((m: Mapping) => Matches(m.pattern, name), p.mappings)
  }

  /* The sources a mapping pools, in the mapping's own order. */
  function PoolIds(m: Mapping): seq<string>
  {
    if m.mode == MODE_COMBINED then m.sources else [m.source]
  }

  function SourceOf(sources: seq<Source>, id: string): Source
  {
    match FindSource(sources, id) case Some(s) => s case None => NO_SOURCE
  }

  function Decide(p: Policy, m: Mapping, name: string): Decision
  {
    Decision(
      name, m.pattern, m.mode,
      if m.mode == MODE_COMBINED then NO_SOURCE else SourceOf(p.sources, m.source),
      Map(id => SourceOf(p.sources, id), PoolIds(m)),
      Filter((s: Source) => s.id !in PoolIds(m), p.sources))
  }

  /* What evaluating a policy for a name must give. */
  ghost predicate Resolves(p: Policy, name: string, r: Result<Decision, PolicyError>)
  {
    var matched := Matching(p, name);
    if !ValidPolicy(p) then PolicyFault(p).Some? && r == Err(PolicyFault(p).value)
    else if |matched| == 0 then r == Err(NoMapping)
    else if |matched| > 1 then r == Err(AmbiguousMapping)
    else r == Ok(Decide(p, matched[0], name))
  }

  method MatchMappings(p: Policy, name: string) returns (matched: seq<Mapping>)
    ensures matched == Matching(p, name)
  {
    matched := [];
    for i := 0 to |p.mappings|
      invariant matched == Filter((m: Mapping) => Matches(m.pattern, name), p.mappings[..i])
    {
      FilterSnoc((m: Mapping) => Matches(m.pattern, name), p.mappings[..i], p.mappings[i]);
      assert p.mappings[..i + 1] == p.mappings[..i] + [p.mappings[i]];
      if Matches(p.mappings[i].pattern, name) {
        matched := matched + [p.mappings[i]];
      }
    }
    assert p.mappings[..|p.mappings|] == p.mappings;
  }

  method PoolSources(sources: seq<Source>, ids: seq<string>)
    returns (pool: seq<Source>, pooled: set<string>, err: Option<PolicyError>)
    ensures err == None <==> forall id :: id in ids ==> Declares(sources, id)
    ensures err == None ==> pool == Map(id => SourceOf(sources, id), ids)
    ensures err == None ==> forall id :: id in pooled <==> id in ids
    ensures err.Some? ==> err.value == UnknownSource
  {
    pool, pooled := [], {};
    for i := 0 to |ids|
      invariant |pool| == i
      invariant forall k :: 0 <= k < i ==> pool[k] == SourceOf(sources, ids[k])
      invariant forall id :: id in pooled <==> id in ids[..i]
      invariant forall id :: id in ids[..i] ==> Declares(sources, id)
    {
      assert ids[i] in ids;
      FindSourceFinds(sources, ids[i]);
      var source := LookupSource(sources, ids[i]);
      if source.None? {
        return pool, pooled, Some(UnknownSource);
      }
      pool := pool + [source.value];
      pooled := pooled + {ids[i]};
      assert ids[..i + 1] == ids[..i] + [ids[i]];
    }
    assert ids[..|ids|] == ids;
    err := None;
  }

  method ExcludeSources(sources: seq<Source>, pooled: set<string>) returns (excluded: seq<Source>)
    ensures excluded == Filter((s: Source) => s.id !in pooled, sources)
  {
    excluded := [];
    var outside := (s: Source) => s.id !in pooled;
    for i := 0 to |sources|
      invariant excluded == Filter(outside, sources[..i])
    {
      FilterSnoc(outside, sources[..i], sources[i]);
      assert sources[..i + 1] == sources[..i] + [sources[i]];
      if sources[i].id !in pooled {
        excluded := excluded + [sources[i]];
      }
    }
    assert sources[..|sources|] == sources;
  }

  method Resolve(p: Policy, name: string) returns (r: Result<Decision, PolicyError>)
    ensures Resolves(p, name, r)
  {
    var err := Validate(p);
    if err.Some? {
      return Err(err.value);
    }
    var matched := MatchMappings(p, name);
    if |matched| == 0 {
      return Err(NoMapping);
    }
    if |matched| > 1 {
      return Err(AmbiguousMapping);
    }
    var m := matched[0];
    MatchedIsValid(p, name);
    var decision := NO_DECISION.(name := name, pattern := m.pattern, mode := m.mode);
    var pooled: set<string>;
    if m.mode == MODE_COMBINED {
      var pool;
      pool, pooled, err := PoolSources(p.sources, m.sources);
      if err.Some? {
        return Err(UnknownSource);
      }
      decision := decision.(pool := pool);
    } else {
      FindSourceFinds(p.sources, m.source);
      var bound := LookupSource(p.sources, m.source);
      if bound.None? {
        return Err(UnknownSource);
      }
      decision := decision.(bound := bound.value, pool := [bound.value]);
      assert decision.pool == Map(id => SourceOf(p.sources, id), PoolIds(m));
      pooled := {bound.value.id};
    }
    var excluded := ExcludeSources(p.sources, pooled);
    FilterSame((s: Source) => s.id !in pooled, (s: Source) => s.id !in PoolIds(m), p.sources);
    r := Ok(decision.(excluded := excluded));
  }

  lemma MatchedIsValid(p: Policy, name: string)
    requires ValidPolicy(p)
    ensures forall m :: m in Matching(p, name) ==>
              m in p.mappings && Matches(m.pattern, name) && ValidMapping(p.sources, m)
  {
    FilterMembers((m: Mapping) => Matches(m.pattern, name), p.mappings);
  }

  // ----- what a decision promises -----

  /* An exclusive decision binds one declared source and pools it alone; a combined one binds
     nothing and pools two or more different declared sources. */
  lemma DecisionShape(p: Policy, name: string, d: Decision)
    requires ValidPolicy(p) && Resolves(p, name, Ok(d))
    ensures d.name == name && Matches(d.pattern, name) && (d.mode == MODE_EXCLUSIVE || d.mode == MODE_COMBINED)
    ensures d.mode == MODE_EXCLUSIVE ==> d.bound in p.sources && d.pool == [d.bound]
    ensures d.mode == MODE_COMBINED ==> d.bound == NO_SOURCE && |d.pool| >= 2
    ensures forall s :: s in d.pool ==> s in p.sources
    ensures DistinctBy((s: Source) => s.id, d.pool)
  {
    MatchedIsValid(p, name);
    var m := Matching(p, name)[0];
    assert m in Matching(p, name);
    forall i | 0 <= i < |d.pool| ensures d.pool[i] in p.sources && d.pool[i].id == PoolIds(m)[i] {
      assert PoolIds(m)[i] in PoolIds(m);
      FindSourceFinds(p.sources, PoolIds(m)[i]);
    }
    if m.mode == MODE_EXCLUSIVE {
      FindSourceFinds(p.sources, m.source);
    }
  }

  /* The decision follows its mapping: the pool are the sources it lists, in the order it lists them, an exclusive
     decision is bound to the one it names, and all other declared sources are excluded in the order declared. Each
     pooled source has an id, a url and a known role. */
  lemma DecisionFollowsMapping(p: Policy, name: string, d: Decision, m: Mapping)
    requires ValidPolicy(p) && Resolves(p, name, Ok(d)) && m in p.mappings && Matches(m.pattern, name)
    ensures d.name == name && d.pattern == m.pattern && d.mode == m.mode
    ensures m.mode == MODE_EXCLUSIVE ==> d.bound in p.sources && d.bound.id == m.source && d.pool == [d.bound]
    ensures m.mode == MODE_COMBINED ==>
              && |d.pool| == |m.sources|
              && forall i :: 0 <= i < |m.sources| ==> d.pool[i] in p.sources && d.pool[i].id == m.sources[i]
    ensures d.excluded == Filter((s: Source) => s !in d.pool, p.sources)
    ensures forall s :: s in d.pool ==> s.id != "" && s.url != "" && (s.role == ROLE_PRIVATE || s.role == ROLE_PUBLIC)
  {
    OnlyMatch(p, name, m);
    DecisionShape(p, name, d);
    MatchedIsValid(p, name);
    if m.mode == MODE_EXCLUSIVE {
      FindSourceFinds(p.sources, m.source);
    } else {
      forall i | 0 <= i < |m.sources| ensures d.pool[i] in p.sources && d.pool[i].id == m.sources[i] {
        assert m.sources[i] in m.sources;
        FindSourceFinds(p.sources, m.sources[i]);
      }
    }
    forall s | s in p.sources ensures s !in d.pool <==> s.id !in PoolIds(m) {
      PooledByMapping(p, name, s);
    }
    FilterSame((s: Source) => s.id !in PoolIds(m), (s: Source) => s !in d.pool, p.sources);
  }

  lemma OnlyMatch(p: Policy, name: string, m: Mapping)
    requires |Matching(p, name)| == 1 && m in p.mappings && Matches(m.pattern, name)
    ensures Matching(p, name)[0] == m
  {
    FilterMembers((m: Mapping) => Matches(m.pattern, name), p.mappings);
    assert m in Matching(p, name);
  }

  /* Pool and excluded sources partition the declared sources. */
  lemma PoolAndExcludedPartition(p: Policy, name: string, d: Decision)
    requires ValidPolicy(p) && Resolves(p, name, Ok(d))
    ensures multiset(d.pool) + multiset(d.excluded) == multiset(p.sources)
  {
    DecisionShape(p, name, d);
    var m := Matching(p, name)[0];
    var outside, idOf := (s: Source) => s.id !in PoolIds(m), (s: Source) => s.id;
    forall s: Source ensures multiset(d.pool)[s] + multiset(d.excluded)[s] == multiset(p.sources)[s] {
      FilterMultiplicity(outside, p.sources, s);
      DistinctMultiplicity(idOf, d.pool, s);
      DistinctMultiplicity(idOf, p.sources, s);
      PooledByMapping(p, name, s);
    }
  }

  /* The decision pools exactly the declared sources that the matched mapping lists. */
  lemma PooledByMapping(p: Policy, name: string, s: Source)
    requires ValidPolicy(p) && |Matching(p, name)| == 1
    ensures var m := Matching(p, name)[0]; s in Decide(p, m, name).pool <==> s in p.sources && s.id in PoolIds(m)
  {
    var m := Matching(p, name)[0];
    var pool := Decide(p, m, name).pool;
    MatchedIsValid(p, name);
    assert m in Matching(p, name);
    if s in p.sources && s.id in PoolIds(m) {
      var i :| 0 <= i < |PoolIds(m)| && PoolIds(m)[i] == s.id;
      FindSourceFinds(p.sources, s.id);
      SameIdSameSource(p.sources, s, SourceOf(p.sources, s.id));
      assert pool[i] == s;
    }
    if s in pool {
      var i :| 0 <= i < |pool| && pool[i] == s;
      FindSourceFinds(p.sources, PoolIds(m)[i]);
      assert PoolIds(m)[i] in PoolIds(m);
    }
  }

  lemma DistinctMultiplicity(key: Source -> string, xs: seq<Source>, x: Source)
    requires DistinctBy(key, xs)
    ensures multiset(xs)[x] == if x in xs then 1 else 0
  {
    if x in xs {
      var i :| 0 <= i < |xs| && xs[i] == x;
      assert xs == xs[..i] + [x] + xs[i + 1..];
      assert x !in xs[..i] && x !in xs[i + 1..];
    }
  }

  lemma ValidPolicyPermuted(p: Policy, q: Policy)
    requires p.format == q.format && multiset(p.sources) == multiset(q.sources)
    requires multiset(p.mappings) == multiset(q.mappings)
    requires ValidPolicy(p)
    ensures ValidPolicy(q)
  {
    PermutedMembers(p.sources, q.sources);
    PermutedMembers(p.mappings, q.mappings);
    DistinctByPermuted((s: Source) => s.id, p.sources, q.sources);
    DistinctByPermuted((m: Mapping) => m.pattern, p.mappings, q.mappings);
    assert |multiset(p.sources)| == |multiset(q.sources)| && |multiset(p.mappings)| == |multiset(q.mappings)|;
    assert forall id :: Declares(p.sources, id) <==> Declares(q.sources, id);
  }

  /* Listing the sources or the mappings in another order changes neither whether a name resolves,
     nor how it fails, nor what it is bound to; only the listing order of the excluded sources. */
  lemma PolicyOrderFree(p: Policy, q: Policy, name: string, r: Result<Decision, PolicyError>, r': Result<Decision,
                        PolicyError>)
    requires p.format == q.format && multiset(p.sources) == multiset(q.sources)
    requires multiset(p.mappings) == multiset(q.mappings)
    requires Resolves(p, name, r) && Resolves(q, name, r')
    ensures ValidPolicy(p) <==> ValidPolicy(q)
    ensures r.Ok? <==> r'.Ok?
    ensures ValidPolicy(p) && r.Err? ==> r' == r
    ensures r.Ok? ==> r'.value == r.value.(excluded := r'.value.excluded)
                      && multiset(r'.value.excluded) == multiset(r.value.excluded)
  {
    if ValidPolicy(p) {
      ValidPolicyPermuted(p, q);
    } else if ValidPolicy(q) {
      ValidPolicyPermuted(q, p);
    }
    FilterPermuted((m: Mapping) => Matches(m.pattern, name), p.mappings, q.mappings);
    if r.Ok? {
      var m, m' := Matching(p, name)[0], Matching(q, name)[0];
      assert Matching(p, name) == [m] && Matching(q, name) == [m'];
      assert m in multiset(Matching(q, name));
      forall id ensures SourceOf(p.sources, id) == SourceOf(q.sources, id) {
        FindSourcePermuted(p.sources, q.sources, id);
      }
      assert Map(id => SourceOf(p.sources, id), PoolIds(m)) == Map(id => SourceOf(q.sources, id), PoolIds(m));
      FilterPermuted((s: Source) => s.id !in PoolIds(m), p.sources, q.sources);
    }
  }

  // ----- policies that decide a name alike -----

  /* Both policies are valid or neither is; as many mappings match the name, and a single one binds it alike. */
  ghost predicate DecideAlike(p: Policy, q: Policy, name: string)
  {
    && (ValidPolicy(p) <==> ValidPolicy(q))
    && (ValidPolicy(p) ==>
          && |Matching(p, name)| == |Matching(q, name)|
          && (|Matching(p, name)| == 1 ==>
                var d, e := Decide(p, Matching(p, name)[0], name), Decide(q, Matching(q, name)[0], name);
                d.mode == e.mode && d.bound == e.bound))
  }

  /* q lists the sources and mappings of p, in some order, and these others. */
  ghost predicate Widened(p: Policy, q: Policy, sources: seq<Source>, mappings: seq<Mapping>)
  {
    && q.format == p.format
    && multiset(q.sources) == multiset(p.sources + sources)
    && multiset(q.mappings) == multiset(p.mappings + mappings)
  }

  lemma ReorderedDecidesAlike(p: Policy, q: Policy, name: string)
    requires Widened(p, q, [], [])
    ensures DecideAlike(p, q, name)
  {
    assert p.sources + [] == p.sources && p.mappings + [] == p.mappings;
    FilterPermuted((m: Mapping) => Matches(m.pattern, name), p.mappings, q.mappings);
    if ValidPolicy(p) {
      ValidPolicyPermuted(p, q);
      if |Matching(p, name)| == 1 {
        PolicyOrderFree(p, q, name, Ok(Decide(p, Matching(p, name)[0], name)),
                        Ok(Decide(q, Matching(q, name)[0], name)));
      }
    } else if ValidPolicy(q) {
      ValidPolicyPermuted(q, p);
    }
  }

  lemma WidenedMatching(p: Policy, q: Policy, sources: seq<Source>, mappings: seq<Mapping>, name: string)
    requires Widened(p, q, sources, mappings)
    ensures var matches := (m: Mapping) => Matches(m.pattern, name);
            && |Matching(q, name)| == |Matching(p, name)| + |Filter(matches, mappings)|
            && multiset(Matching(q, name)) == multiset(Matching(p, name) + Filter(matches, mappings))
  {
    var matches := (m: Mapping) => Matches(m.pattern, name);
    FilterPermuted(matches, q.mappings, p.mappings + mappings);
    FilterAppend(matches, p.mappings, mappings);
  }

  lemma WidenedSource(p: Policy, q: Policy, sources: seq<Source>, mappings: seq<Mapping>, id: string)
    requires Widened(p, q, sources, mappings) && ValidPolicy(p) && ValidPolicy(q) && Declares(p.sources, id)
    ensures SourceOf(q.sources, id) == SourceOf(p.sources, id)
  {
    FindSourceFinds(p.sources, id);
    FindSourceFinds(q.sources, id);
    PermutedMembers(q.sources, p.sources + sources);
    var s := SourceOf(p.sources, id);
    assert s in p.sources + sources && s in q.sources;
    SameIdSameSource(q.sources, s, SourceOf(q.sources, id));
  }

  /* Declaring more sources, and mapping more names, leaves the decision for a name alone exactly when the policy stays
     valid and no new mapping matches the name. */
  lemma WideningDecidesAlike(p: Policy, q: Policy, sources: seq<Source>, mappings: seq<Mapping>, name: string)
    requires Widened(p, q, sources, mappings) && ValidPolicy(p)
    ensures DecideAlike(p, q, name) <==> ValidPolicy(q) && forall m :: m in mappings ==> !Matches(m.pattern, name)
  {
    WidenedMatching(p, q, sources, mappings, name);
    FilterNone((m: Mapping) => Matches(m.pattern, name), mappings);
    if ValidPolicy(q) && |Matching(q, name)| == |Matching(p, name)| == 1 {
      var m := Matching(p, name)[0];
      assert Filter((m: Mapping) => Matches(m.pattern, name), mappings) == [];
      assert multiset(Matching(q, name)) == multiset([m]) by {
        assert Matching(p, name) + [] == [m];
      }
      OnlyMember(Matching(q, name), m);
      MatchedIsValid(p, name);
      assert m in Matching(p, name);
      if m.mode == MODE_EXCLUSIVE {
        WidenedSource(p, q, sources, mappings, m.source);
      }
    }
  }

  lemma OnlyMember(ms: seq<Mapping>, m: Mapping)
    requires |ms| == 1 && multiset(ms) == multiset([m])
    ensures ms[0] == m
  {
    assert ms[0] in multiset(ms);
  }
}
