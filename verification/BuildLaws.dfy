/** What the dependency loop of internal/releasegate promises, for every registry world. */
module BuildLaws {
  import opened Prelude
  import opened Network
  import opened SourcePolicy
  import opened BuildManifest
  import opened Lockfile
  import opened Resolver
  import opened ReleaseGate
  import CombinedIndex
  import PkgArchive

  // ----- which sources are asked -----

  /* The policy binds the name of the call exclusively to the source of the call. */
  ghost predicate Bound(policy: SourcePolicy.Policy, source: Source, name: string)
  {
    ValidPolicy(policy) && |Matching(policy, name)| == 1
    && Decide(policy, Matching(policy, name)[0], name).mode == MODE_EXCLUSIVE
    && Decide(policy, Matching(policy, name)[0], name).bound == source
  }

  function DepInputs(job: Job, dep: Dependency, before: seq<Call>): Inputs
  {
    Inputs(job.codec, Config(job.policy, job.lock), dep, job.world, before)
  }

  ghost predicate AllBound(policy: SourcePolicy.Policy, calls: seq<Call>)
  {
    forall c :: c in calls ==> Bound(policy, c.source, c.name)
  }

  lemma ResolutionIsBound(job: Job, dep: Dependency, before: seq<Call>)
    requires job.secure
    ensures AllBound(job.policy, ResolveOne(job, dep, before).calls)
    ensures forall c :: c in ResolveOne(job, dep, before).calls ==> c.name == dep.name
    ensures |ResolveOne(job, dep, before).calls| <= 2
    ensures ResolveOne(job, dep, before).failure == None ==> |ResolveOne(job, dep, before).calls| == 2
  {
    var x := DepInputs(job, dep, before);
    TraceIsBound(x);
    var calls := Resolver.Outcome(x).calls;
    forall c | c in calls ensures c.source == x.Bound() && c.name == dep.name {
      assert c in [x.MetadataRequest(), x.ArtifactRequest()];
    }
  }

  /* Every request of a secure build goes to the source the policy binds its name to. */
  lemma {:induction false} SecureBuildIsBound(job: Job, deps: seq<Dependency>, before: seq<Call>)
    requires job.secure
    ensures AllBound(job.policy, Build(job, deps, before).calls)
  {
    if deps != [] {
      var r := ResolveOne(job, deps[0], before);
      ResolutionIsBound(job, deps[0], before);
      if r.failure == None {
        SecureBuildIsBound(job, deps[1..], before + r.calls);
      }
    }
  }

  /* A secure build that resolves n dependencies makes 2n requests; one that stops after k of them
     makes 2k and at most two more, for the dependency it stopped on. */
  lemma {:induction false} SecureRequestCount(job: Job, deps: seq<Dependency>, before: seq<Call>)
    requires job.secure
    ensures var b := Build(job, deps, before);
            && |b.resolutions| <= |deps|
            && (b.stopped == None ==> |b.resolutions| == |deps| && |b.calls| == 2 * |deps|)
            && (b.stopped.Some? ==> |b.resolutions| < |deps| && b.stopped.value.alias == deps[|b.resolutions|].alias
                                    && 2 * |b.resolutions| <= |b.calls| <= 2 * |b.resolutions| + 2)
  {
    if deps != [] {
      var r := ResolveOne(job, deps[0], before);
      ResolutionIsBound(job, deps[0], before);
      if r.failure == None {
        SecureRequestCount(job, deps[1..], before + r.calls);
      }
    }
  }

  /* The name is that of a dependency a build got to: one it resolved or the one it stopped on. */
  ghost predicate GotTo(deps: seq<Dependency>, resolved: nat, name: string)
  {
    exists i :: 0 <= i < |deps| && i <= resolved && deps[i].name == name
  }

  lemma GotToLater(deps: seq<Dependency>, resolved: nat, name: string)
    requires deps != [] && GotTo(deps[1..], resolved, name)
    ensures GotTo(deps, resolved + 1, name)
  {
    var i :| 0 <= i < |deps[1..]| && i <= resolved && deps[1..][i].name == name;
    assert deps[i + 1].name == name;
  }

  /* Nothing is asked about a dependency after the one a secure build stopped on. */
  lemma {:induction false} NothingAskedAfterFailure(job: Job, deps: seq<Dependency>, before: seq<Call>)
    requires job.secure
    ensures var b := Build(job, deps, before); forall c :: c in b.calls ==> GotTo(deps, |b.resolutions|, c.name)
  {
    if deps != [] {
      var r := ResolveOne(job, deps[0], before);
      ResolutionIsBound(job, deps[0], before);
      assert forall c :: c in r.calls ==> deps[0].name == c.name;
      if r.failure == None {
        var rest := Build(job, deps[1..], before + r.calls);
        NothingAskedAfterFailure(job, deps[1..], before + r.calls);
        forall c | c in rest.calls ensures GotTo(deps, |rest.resolutions| + 1, c.name) {
          GotToLater(deps, |rest.resolutions|, c.name);
        }
      }
    }
  }

  // ----- what any other source says does not matter -----

  /* Two worlds that answer alike, after the same requests, whatever a source is asked about a name
     the policy binds to it. */
  ghost predicate AgreeOnBound(policy: SourcePolicy.Policy, w: World, v: World)
  {
    && (forall h, s, n: string :: Bound(policy, s, n) ==> w.dials(h, s) == v.dials(h, s))
    && (forall h, s, n :: Bound(policy, s, n) ==> w.metadata(h, s, n) == v.metadata(h, s, n))
    && (forall h, s, n, version :: Bound(policy, s, n) ==> w.artifact(h, s, n, version) == v.artifact(h, s, n, version))
  }

  lemma BoundByFirstChecks(x: Inputs)
    ensures x.Holds(0) && x.Holds(1) && x.Holds(2) && x.Holds(3) <==> Bound(x.cfg.policy, x.Bound(), x.dep.name)
  {
  }

  lemma BeforeRegistryAgree(x: Inputs, y: Inputs)
    requires SameQuestion(x, y) && !Bound(x.cfg.policy, x.Bound(), x.dep.name)
    ensures Resolver.Outcome(x) == Resolver.Outcome(y)
  {
    StopFromStops(x, 0);
    StopFromStops(y, 0);
    var k := StopFrom(x, 0);
    BoundByFirstChecks(x);
    assert forall i: nat :: i <= 3 ==> x.Holds(i) == y.Holds(i);
    StopIsFirstFailure(y, k);
  }

  lemma AgreeingResolution(job: Job, other: Job, dep: Dependency, before: seq<Call>)
    requires job.secure && other == job.(world := other.world) && AgreeOnBound(job.policy, job.world, other.world)
    ensures ResolveOne(job, dep, before) == ResolveOne(other, dep, before)
  {
    var x, y := DepInputs(job, dep, before), DepInputs(other, dep, before);
    if Bound(job.policy, x.Bound(), dep.name) {
      NonInterference(x, y);
    } else {
      BeforeRegistryAgree(x, y);
    }
  }

  /* A secure build gives the same records, failure and requests in any two such worlds. */
  lemma {:induction false} BuildNonInterference(job: Job, other: Job, deps: seq<Dependency>, before: seq<Call>)
    requires job.secure && other == job.(world := other.world) && AgreeOnBound(job.policy, job.world, other.world)
    ensures Build(job, deps, before) == Build(other, deps, before)
  {
    if deps != [] {
      AgreeingResolution(job, other, deps[0], before);
      var r := ResolveOne(job, deps[0], before);
      if r.failure == None {
        BuildNonInterference(job, other, deps[1..], before + r.calls);
      }
    }
  }

  // ----- the lock determines what is built -----

  /* A record accepted for dep: exactly what the lock says. */
  ghost predicate IsLocked(job: Job, dep: Dependency, res: Resolution)
  {
    && Binding(job.lock, dep.alias).Ok?
    && var locked := Binding(job.lock, dep.alias).value;
    && res.alias == dep.alias && res.name == dep.name == locked.name
    && res.locked == locked && res.selected.source == locked.source && res.selected.version == locked.version
    && res.size == locked.size && res.digest == locked.sha256
    && res.pkg.Some? && PkgArchive.ValidTable(res.pkg.value.policy)
    && res.pkg.value.manifest.name == locked.name && res.pkg.value.manifest.version == locked.version
  }

  lemma ResolutionIsLocked(job: Job, dep: Dependency, before: seq<Call>)
    requires job.secure && ResolveOne(job, dep, before).failure == None
    ensures IsLocked(job, dep, ResolveOne(job, dep, before).record)
  {
    var x := DepInputs(job, dep, before);
    AcceptsExactly(x);
    AcceptedIsLocked(x);
  }

  ghost predicate AllLocked(job: Job, deps: seq<Dependency>, resolutions: seq<Resolution>)
  {
    |resolutions| <= |deps| && forall i :: 0 <= i < |resolutions| ==> IsLocked(job, deps[i], resolutions[i])
  }

  lemma AllLockedCons(job: Job, deps: seq<Dependency>, res: Resolution, rest: seq<Resolution>)
    requires deps != [] && IsLocked(job, deps[0], res) && AllLocked(job, deps[1..], rest)
    ensures AllLocked(job, deps, [res] + rest)
  {
    var all := [res] + rest;
    forall i | 0 <= i < |all| ensures IsLocked(job, deps[i], all[i]) {
      if i > 0 {
        assert all[i] == rest[i - 1] && deps[i] == deps[1..][i - 1];
      }
    }
  }

  /* Every record a secure build accepts is the one its lock pins. */
  lemma {:induction false} SecureBuildIsLocked(job: Job, deps: seq<Dependency>, before: seq<Call>)
    requires job.secure
    ensures AllLocked(job, deps, Build(job, deps, before).resolutions)
  {
    if deps != [] {
      var r := ResolveOne(job, deps[0], before);
      if r.failure == None {
        ResolutionIsLocked(job, deps[0], before);
        SecureBuildIsLocked(job, deps[1..], before + r.calls);
        AllLockedCons(job, deps, r.record, Build(job, deps[1..], before + r.calls).resolutions);
      }
    }
  }

  /* The artifact bytes a build accepts, dependency by dependency. */
  ghost function AcceptedBytes(job: Job, deps: seq<Dependency>, before: seq<Call>): seq<Bytes>
    requires job.secure
  {
    if deps == [] then []
    else
      var x := DepInputs(job, deps[0], before);
      var r := Resolver.Outcome(x);
      if r.failure.Some? || !x.ArtifactReply().Answer? then []
      else [x.ArtifactReply().value] + AcceptedBytes(job, deps[1..], before + r.calls)
  }

  ghost predicate NoCollisions(codec: PkgArchive.Codec, xs: seq<Bytes>, ys: seq<Bytes>)
  {
    forall i :: 0 <= i < |xs| && i < |ys| ==> NoCollision(codec, xs[i], ys[i])
  }

  function Essences(resolutions: seq<Resolution>): seq<Accepted>
  {
    Map(Essence, resolutions)
  }

  lemma NoCollisionsCons(codec: PkgArchive.Codec, x: Bytes, xs: seq<Bytes>, y: Bytes, ys: seq<Bytes>)
    requires NoCollisions(codec, [x] + xs, [y] + ys)
    ensures NoCollision(codec, x, y) && NoCollisions(codec, xs, ys)
  {
    var all, all' := [x] + xs, [y] + ys;
    assert all[0] == x && all'[0] == y;
    forall i | 0 <= i < |xs| && i < |ys| ensures NoCollision(codec, xs[i], ys[i]) {
      assert all[i + 1] == xs[i] && all'[i + 1] == ys[i];
    }
  }

  lemma AcceptedHead(job: Job, deps: seq<Dependency>, before: seq<Call>)
    requires job.secure && deps != [] && ResolveOne(job, deps[0], before).failure == None
    ensures var x := DepInputs(job, deps[0], before);
            x.ArtifactReply().Answer? &&
            AcceptedBytes(job, deps, before) ==
            [x.ArtifactReply().value] + AcceptedBytes(job, deps[1..], before + ResolveOne(job, deps[0], before).calls)
  {
    AcceptedPackage(DepInputs(job, deps[0], before));
  }

  lemma EssencesCons(r: Resolution, rs: seq<Resolution>)
    ensures Essences([r] + rs) == [Essence(r)] + Essences(rs)
  {
  }

  /* Whenever every dependency resolves in two worlds, under any two policies and whatever was asked before, the lock
     alone decides what was built. */
  lemma {:induction false} LockDeterminesBuild(job: Job, other: Job, deps: seq<Dependency>, before: seq<Call>,
                                               before': seq<Call>)
    requires job.secure && other == job.(policy := other.policy, world := other.world)
    requires Build(job, deps, before).stopped == None && Build(other, deps, before').stopped == None
    requires NoCollisions(job.codec, AcceptedBytes(job, deps, before), AcceptedBytes(other, deps, before'))
    ensures Essences(Build(job, deps, before).resolutions) == Essences(Build(other, deps, before').resolutions)
  {
    if deps != [] {
      var r, r' := ResolveOne(job, deps[0], before), ResolveOne(other, deps[0], before');
      AcceptedHead(job, deps, before);
      AcceptedHead(other, deps, before');
      var x, y := DepInputs(job, deps[0], before), DepInputs(other, deps[0], before');
      var xs := AcceptedBytes(job, deps[1..], before + r.calls);
      var ys := AcceptedBytes(other, deps[1..], before' + r'.calls);
      NoCollisionsCons(job.codec, x.ArtifactReply().value, xs, y.ArtifactReply().value, ys);
      LockDetermines(x, y);
      LockDeterminesBuild(job, other, deps[1..], before + r.calls, before' + r'.calls);
      EssencesCons(r.record, Build(job, deps[1..], before + r.calls).resolutions);
      EssencesCons(r'.record, Build(other, deps[1..], before' + r'.calls).resolutions);
    }
  }

  // ----- the record the gate consults -----

  lemma {:induction false} WithAliasFinds(resolutions: seq<Resolution>, alias: string)
    ensures match WithAlias(resolutions, alias)
            case None => forall r :: r in resolutions ==> r.alias != alias
            case Some(r) => r in resolutions && r.alias == alias
  {
    if resolutions != [] {
      var init := resolutions[..|resolutions| - 1];
      WithAliasFinds(init, alias);
      assert resolutions == init + [resolutions[|resolutions| - 1]];
    }
  }

  /* Which record the loop leaves for an alias depends only on the accepted essence and alias of each. */
  lemma {:induction false} WithAliasEssence(xs: seq<Resolution>, ys: seq<Resolution>, alias: string)
    requires Essences(xs) == Essences(ys) && forall i :: 0 <= i < |xs| ==> xs[i].alias == xs[i].locked.alias
    requires |xs| == |ys| && forall i :: 0 <= i < |ys| ==> ys[i].alias == ys[i].locked.alias
    ensures match (WithAlias(xs, alias), WithAlias(ys, alias))
            case (None, None) => true
            case (Some(a), Some(b)) => Essence(a) == Essence(b)
            case _ => false
  {
    if xs != [] {
      var n := |xs| - 1;
      assert Essences(xs)[n] == Essences(ys)[n];
      assert Essences(xs[..n]) == Essences(xs)[..n] && Essences(ys[..n]) == Essences(ys)[..n];
      WithAliasEssence(xs[..n], ys[..n], alias);
    }
  }

  /* The record answers for the dependency and carries a package with a valid table. */
  ghost predicate Answers(dep: Dependency, res: Resolution)
  {
    res.alias == dep.alias && res.pkg.Some? && PkgArchive.ValidTable(res.pkg.value.policy)
  }

  ghost predicate AllAnswer(deps: seq<Dependency>, resolutions: seq<Resolution>)
  {
    |resolutions| <= |deps| && forall i :: 0 <= i < |resolutions| ==> Answers(deps[i], resolutions[i])
  }

  lemma AllAnswerCons(deps: seq<Dependency>, res: Resolution, rest: seq<Resolution>)
    requires deps != [] && Answers(deps[0], res) && AllAnswer(deps[1..], rest)
    ensures AllAnswer(deps, [res] + rest)
  {
    var all := [res] + rest;
    forall i | 0 <= i < |all| ensures Answers(deps[i], all[i]) {
      if i > 0 {
        assert all[i] == rest[i - 1] && deps[i] == deps[1..][i - 1];
      }
    }
  }

  lemma ResolutionAnswers(job: Job, dep: Dependency, before: seq<Call>)
    requires ResolveOne(job, dep, before).failure == None
    ensures Answers(dep, ResolveOne(job, dep, before).record)
  {
    if job.secure {
      ResolutionIsLocked(job, dep, before);
    } else {
      CombinedIndex.SuccessAsksWholePool(CombinedIndex.Question(job.codec, job.policy, dep, job.world, before));
    }
  }

  /* Whichever resolver runs, an accepted record carries a package with a valid table. */
  lemma {:induction false} BuiltPackagesAreValid(job: Job, deps: seq<Dependency>, before: seq<Call>)
    ensures var b := Build(job, deps, before);
            && (b.stopped == None ==> |b.resolutions| == |deps|) && AllAnswer(deps, b.resolutions)
  {
    if deps != [] {
      var r := ResolveOne(job, deps[0], before);
      if r.failure == None {
        ResolutionAnswers(job, deps[0], before);
        BuiltPackagesAreValid(job, deps[1..], before + r.calls);
        AllAnswerCons(deps, r.record, Build(job, deps[1..], before + r.calls).resolutions);
      }
    }
  }

  /* A build of a valid manifest accepts one record for each dependency in turn, up to the one it stops on: no alias
     has two. */
  lemma OneRecordPerAlias(job: Job, m: BuildManifest.Manifest, before: seq<Call>)
    requires BuildManifest.ValidManifest(m)
    ensures var deps, built := m.dependencies, Build(job, m.dependencies, before).resolutions;
            && |built| <= |deps| && (Build(job, deps, before).stopped == None ==> |built| == |deps|)
            && (forall i :: 0 <= i < |built| ==> built[i].alias == deps[i].alias)
            && forall i, j :: 0 <= i < j < |built| ==> built[i].alias != built[j].alias
  {
    BuiltPackagesAreValid(job, m.dependencies, before);
    var built := Build(job, m.dependencies, before).resolutions;
    forall i | 0 <= i < |built| ensures built[i].alias == m.dependencies[i].alias {
      assert Answers(m.dependencies[i], built[i]);
    }
  }

  // ----- requests of either resolver -----

  lemma ResolutionAsksDeclared(job: Job, dep: Dependency, before: seq<Call>)
    ensures forall c :: c in ResolveOne(job, dep, before).calls ==> c.source in job.policy.sources
  {
    if job.secure {
      ResolutionIsBound(job, dep, before);
      forall c | c in ResolveOne(job, dep, before).calls ensures c.source in job.policy.sources {
        DecisionShape(job.policy, c.name, Decide(job.policy, Matching(job.policy, c.name)[0], c.name));
      }
    } else {
      var q := CombinedIndex.Question(job.codec, job.policy, dep, job.world, before);
      CombinedIndex.CallsStayInPool(q);
      CombinedIndex.PoolReached(q);
    }
  }

  /* Neither resolver ever asks a source its policy does not declare. */
  lemma {:induction false} BuildAsksDeclared(job: Job, deps: seq<Dependency>, before: seq<Call>)
    ensures forall c :: c in Build(job, deps, before).calls ==> c.source in job.policy.sources
  {
    if deps != [] {
      var r := ResolveOne(job, deps[0], before);
      ResolutionAsksDeclared(job, deps[0], before);
      if r.failure == None {
        BuildAsksDeclared(job, deps[1..], before + r.calls);
      }
    }
  }

  /* One metadata request for each pooled source of each dependency, and one artifact request. */
  function PoolRequests(policy: SourcePolicy.Policy, deps: seq<Dependency>): nat
  {
    if deps == [] then 0
    else
      var matched := Matching(policy, deps[0].name);
      (if |matched| == 1 then |PoolIds(matched[0])| + 1 else 0) + PoolRequests(policy, deps[1..])
  }

  /* A combined build that resolves everything makes pool size plus one requests per dependency. */
  lemma {:induction false} CombinedRequestCount(job: Job, deps: seq<Dependency>, before: seq<Call>)
    requires !job.secure && Build(job, deps, before).stopped == None
    ensures |Build(job, deps, before).calls| == PoolRequests(job.policy, deps)
  {
    if deps != [] {
      var q := CombinedIndex.Question(job.codec, job.policy, deps[0], job.world, before);
      CombinedIndex.SuccessAsksWholePool(q);
      CombinedIndex.PoolReached(q);
      CombinedRequestCount(job, deps[1..], before + ResolveOne(job, deps[0], before).calls);
    }
  }
}
