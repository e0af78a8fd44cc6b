/** The default version: the greatest AVAILABLE one, whatever loads fail, as long as
    the versions fit the 32-bit parameter of updateDefaultVersion. */
module DefaultVersion {
  import opened Common
  import opened Vectors
  import opened VersionPolicy
  import opened ModelConfig
  import opened ModelVersionStatus
  import opened ModelInstance
  import opened Model
  import opened ModelManager
  import opened Reconciliation

  const INT32_LIMIT := 0x8000_0000

  /** Version directories have positive numbers; these also fit 32 bits. */
  ghost predicate Small(versions: set<int>) {
    forall v :: v in versions ==> 0 < v < INT32_LIMIT
  }

  ghost predicate DefaultIsGreatest(st: ModelState) {
    st.defaultVersion == Greatest(ServingVersions(st.versions))
  }

  /** Every version that started unloading was not the default version at that time. */
  ghost predicate MovedOff(log: seq<Event>) {
    forall i :: 0 <= i < |log| ==> (log[i].Retiring? || log[i].Cleaning? ==> log[i].defaultThen != log[i].version)
  }

  // ---- one operation ----

  lemma DefaultUpdated(st: ModelState, ignored: int)
    requires Small(st.versions.Keys)
    ensures 0 <= ignored < INT32_LIMIT ==>
              WithDefault(st, ignored).defaultVersion == Greatest(ServingVersions(st.versions) - {ignored})
    ensures DefaultIsGreatest(WithDefault(st, 0))
  {
    assert Positive(ServingVersions(st.versions)) == ServingVersions(st.versions);
    assert ServingVersions(st.versions) - {0} == ServingVersions(st.versions);
  }

  /** Unloading version v in any state, even with a stale default, makes the default
      the greatest version that is still AVAILABLE, before v starts unloading. */
  lemma UnloadMakesGreatest(st: ModelState, v: int)
    requires Small(st.versions.Keys) && v in st.versions
    ensures DefaultIsGreatest(RetireOne(st, v)) && DefaultIsGreatest(CleanOne(st, v))
    ensures MovedOff(st.log) ==> MovedOff(RetireOne(st, v).log) && MovedOff(CleanOne(st, v).log)
  {
    DefaultUpdated(st, v);
    var serving := ServingVersions(st.versions);
    assert ServingVersions(RetireOne(st, v).versions) == serving - {v};
    assert ServingVersions(CleanOne(st, v).versions) == serving - {v};
  }

  /** A failed load leaves the default alone, and so does the repeated start of a
      registered version; a successful load makes it right. */
  lemma AddKeepsGreatest(env: Oracle, cfg: Config, st: ModelState, v: int)
    requires Small(st.versions.Keys) && 0 < v < INT32_LIMIT && DefaultIsGreatest(st)
    ensures DefaultIsGreatest(AddOne(env, cfg, st, v))
  {
    var st1 := Emplaced(env, cfg, st, v);
    DefaultUpdated(st1, 0);
    if !env(st.loads, v) {
      assert ServingVersions(st1.versions) == ServingVersions(st.versions);
    }
  }

  lemma ReloadMakesGreatest(env: Oracle, cfg: Config, st: ModelState, v: int)
    requires Small(st.versions.Keys) && v in st.versions
    ensures env(st.loads, v) ==> DefaultIsGreatest(ReloadOne(env, cfg, st, v))
  {
    DefaultUpdated(ReloadedOnly(env, cfg, st, v), 0);
  }

  // ---- batches ----

  lemma {:induction false} AddManyGreatest(env: Oracle, cfg: Config, st: ModelState, vs: seq<int>)
    requires Small(st.versions.Keys + ToSet(vs)) && DefaultIsGreatest(st)
    ensures DefaultIsGreatest(AddMany(env, cfg, st, vs).state)
    ensures MovedOff(st.log) ==> MovedOff(AddMany(env, cfg, st, vs).state.log)
  {
    if vs == [] {
    } else {
      var front := vs[..|vs| - 1];
      var v := vs[|vs| - 1];
      assert vs == front + [v];
      assert ToSet(vs) == ToSet(front) + {v};
      AddManyGreatest(env, cfg, st, front);
      AddManyKeys(env, cfg, st, front);
      AddKeepsGreatest(env, cfg, AddMany(env, cfg, st, front).state, v);
    }
  }

  lemma {:induction false} ReloadManyGreatest(env: Oracle, cfg: Config, st: ModelState, vs: seq<int>)
    requires NoDup(vs) && ToSet(vs) <= st.versions.Keys && Small(st.versions.Keys) && DefaultIsGreatest(st)
    ensures var b := ReloadMany(env, cfg, st, vs, []);
            && (b.failed == [] ==> DefaultIsGreatest(b.state))
            && (MovedOff(st.log) ==> MovedOff(b.state.log))
  {
    if vs == [] {
    } else {
      var front := vs[..|vs| - 1];
      NoDupFront(vs);
      assert ToSet(vs) == ToSet(front) + {vs[|vs| - 1]};
      ReloadManyGreatest(env, cfg, st, front);
      ReloadManyEffect(env, cfg, st, front, []);
      ReloadMakesGreatest(env, cfg, ReloadMany(env, cfg, st, front, []).state, vs[|vs| - 1]);
    }
  }

  lemma {:induction false} RetireManyGreatest(st: ModelState, vs: seq<int>)
    requires NoDup(vs) && ToSet(vs) <= st.versions.Keys && Small(st.versions.Keys)
    ensures vs != [] || DefaultIsGreatest(st) ==> DefaultIsGreatest(RetireMany(st, vs).0)
    ensures MovedOff(st.log) ==> MovedOff(RetireMany(st, vs).0.log)
  {
    if vs == [] {
    } else {
      var front := vs[..|vs| - 1];
      NoDupFront(vs);
      assert ToSet(vs) == ToSet(front) + {vs[|vs| - 1]};
      RetireManyGreatest(st, front);
      RetireManyEffect(st, front);
      UnloadMakesGreatest(RetireMany(st, front).0, vs[|vs| - 1]);
    }
  }

  lemma {:induction false} CleanManyGreatest(st: ModelState, vs: seq<int>)
    requires NoDup(vs) && ToSet(vs) <= st.versions.Keys && Small(st.versions.Keys)
    ensures vs != [] || DefaultIsGreatest(st) ==> DefaultIsGreatest(CleanMany(st, vs).0)
    ensures MovedOff(st.log) ==> MovedOff(CleanMany(st, vs).0.log)
  {
    if vs == [] {
    } else {
      var front := vs[..|vs| - 1];
      NoDupFront(vs);
      assert ToSet(vs) == ToSet(front) + {vs[|vs| - 1]};
      CleanManyGreatest(st, front);
      CleanManyEffect(st, front);
      UnloadMakesGreatest(CleanMany(st, front).0, vs[|vs| - 1]);
    }
  }

  // ---- a whole call ----

  lemma SameDefault(cfg: Config, a: ModelState, b: ModelState, reload: seq<int>)
    requires SameButFlags(a, b, reload)
    ensures DefaultIsGreatest(a) <==> DefaultIsGreatest(b)
  {
    SameSets(cfg, a, b, reload);
  }

  /** What holds of every round of the fallback loop. */
  ghost predicate Kept(r: Round) {
    && Ascending(r.available)
    && Small(r.state.versions.Keys + ToSet(r.available))
    && DefaultIsGreatest(r.state) && MovedOff(r.state.log)
  }

  lemma PlannedKept(cfg: Config, blacklisted: set<int>, st: ModelState, available: seq<int>, failed: seq<int>, r: Round)
    requires SameButFlags(st, r.state, r.plan.reload) && r.available == RemoveFailed(available, failed)
    requires Ascending(available) && Small(st.versions.Keys + ToSet(available))
    requires DefaultIsGreatest(st) && MovedOff(st.log)
    ensures Kept(r)
  {
    RemoveFailedSubset(available, failed);
    SameDefault(cfg, st, r.state, r.plan.reload);
  }

  lemma StartsKept(env: Oracle, cfg: Config, blacklisted: set<int>, r: Round)
    requires Pending(cfg, blacklisted, r) && Kept(r)
    ensures var st := AddMany(env, cfg, r.state, r.plan.start).state;
            && Small(st.versions.Keys + ToSet(r.available)) && DefaultIsGreatest(st) && MovedOff(st.log)
  {
    StartIsAvailable(cfg, blacklisted, r);
    AddManyKeys(env, cfg, r.state, r.plan.start);
    AddManyGreatest(env, cfg, r.state, r.plan.start);
  }

  lemma {:induction false} FallbackKept(env: Oracle, cfg: Config, blacklisted: set<int>, r: Round)
    requires Pending(cfg, blacklisted, r) && Ends(env, cfg, blacklisted, r) && Kept(r)
    ensures Kept(Fallback(env, cfg, blacklisted, r))
    decreases RoundsLeft(env, cfg, blacklisted, r)
  {
    if r.plan.start != [] {
      FallbackUnfold(env, cfg, blacklisted, r);
      StartsKept(env, cfg, blacklisted, r);
      var b := AddMany(env, cfg, r.state, r.plan.start);
      if !b.ok {
        RemoveFailedSubset(r.available, b.failed);
        var n := NextRound(env, cfg, blacklisted, r);
        NextPending(env, cfg, blacklisted, r);
        PlannedMatches(cfg, blacklisted, b.state, RemoveFailed(r.available, b.failed), b.failed,
                       r.allFailed + ToSet(b.failed), false);
        PlannedKept(cfg, blacklisted, b.state, r.available, b.failed, n);
        FallbackKept(env, cfg, blacklisted, n);
      }
    }
  }

  /** A failed reload may leave a stale default, but the failed version is off the list,
      so the final plan unloads it. */
  lemma FailedReloadIsUnloaded(cfg: Config, blacklisted: set<int>, reloaded: Round, last: Round, v: int)
    requires cfg.policy.Valid() && Ascending(reloaded.available) && v in reloaded.failed
    requires v in reloaded.state.versions && !reloaded.state.versions[v].status.WillEndUnloaded()
    requires last.available == RemoveFailed(reloaded.available, reloaded.failed)
    requires Matches(cfg, blacklisted, last) && SameButFlags(reloaded.state, last.state, last.plan.reload)
    ensures last.plan.retire != []
  {
    RemoveFailedAscending(reloaded.available, reloaded.failed);
    FilterSubset(cfg.policy, last.available);
    assert v in ToSet(reloaded.failed) && v !in ToSet(last.available);
    assert v !in Goal(cfg, blacklisted, last.available, last.state.versions.Keys);
    assert v in NotEnding(last.state.versions);
    assert v in ToSet(last.plan.retire);
  }

  /** After the reloads the default is right, or a version is left that the final plan
      will unload. */
  lemma ReloadsKept(env: Oracle, cfg: Config, r: Round)
    requires Kept(r) && ReloadsRegistered(r)
    ensures var a := AfterReload(env, cfg, r);
            && a.available == r.available && Small(a.state.versions.Keys + ToSet(a.available)) && MovedOff(a.state.log)
            && (DefaultIsGreatest(a.state) ||
                exists v :: v in a.failed && v in a.state.versions && !a.state.versions[v].status.WillEndUnloaded())
  {
    if r.plan.reload != [] {
      ReloadManyGreatest(env, cfg, r.state, r.plan.reload);
      ReloadManyEffect(env, cfg, r.state, r.plan.reload, r.failed);
      var b := ReloadMany(env, cfg, r.state, r.plan.reload, []);
      var a := AfterReload(env, cfg, r);
      if b.failed != [] {
        var v := b.failed[0];
        assert v in b.failed;
        assert v in a.failed && LoadedAs(a.state.versions[v], cfg, v, b.failed);
      }
    }
  }

  lemma ExecuteGreatest(last: Round, reloadNeeded: bool)
    requires NoDup(last.plan.retire) && ToSet(last.plan.retire) <= last.state.versions.Keys && Small(last.state.versions.Keys)
    requires last.plan.retire != [] || DefaultIsGreatest(last.state)
    requires MovedOff(last.state.log)
    ensures var end := Execute(last, reloadNeeded).0;
            DefaultIsGreatest(end) && MovedOff(end.log)
  {
    var retire := Those(last.plan.retire, ToSet(last.plan.retire) - last.allFailed);
    var cleanup := Those(last.plan.retire, last.allFailed);
    RetireParts(last.plan.retire, last.allFailed);
    if last.plan.retire != [] {
      var v := last.plan.retire[0];
      assert v in last.plan.retire;
      assert v in retire || v in cleanup;
    }
    RetireManyEffect(last.state, retire);
    RetireManyGreatest(last.state, retire);
    var st1 := RetireMany(last.state, retire).0;
    CleanManyGreatest(st1, cleanup);
    CleanManyEffect(st1, cleanup);
  }

  /** For an ascending listing, with or without repetitions: if the default is the greatest
      AVAILABLE version (0 if there is none) before a call, it is so after it, for any
      failures; and no version starts unloading in the call while it is the default. */
  lemma DefaultVersionKept(env: Oracle, cfg: Config, blacklisted: set<int>, listed: seq<int>, st: ModelState)
    requires cfg.policy.Valid() && Ascending(listed)
    requires Small(st.versions.Keys + ToSet(listed))
    requires DefaultIsGreatest(st) && MovedOff(st.log)
    ensures Returns(env, cfg, blacklisted, listed, st)
    ensures var end := ReconcileListed(env, cfg, blacklisted, listed, st).0;
            DefaultIsGreatest(end) && MovedOff(end.log)
  {
    AscendingNeverStuck(listed);
    NeverStuckReturns(env, cfg, blacklisted, listed, st);
    AnyRounds(env, cfg, blacklisted, listed, st);
    var r := FirstRound(cfg, blacklisted, st, listed);
    PlannedMatches(cfg, blacklisted, st, listed, [], {}, true);
    PlannedKept(cfg, blacklisted, st, listed, [], r);
    FallbackKept(env, cfg, blacklisted, r);
    var n := Fallback(env, cfg, blacklisted, r);
    ReloadsKept(env, cfg, n);
    var reloadNeeded := r.plan.start != [] || r.plan.reload != [] || r.plan.retire != [];
    LastGreatest(cfg, blacklisted, AfterReload(env, cfg, n), reloadNeeded);
  }

  lemma LastGreatest(cfg: Config, blacklisted: set<int>, a: Round, reloadNeeded: bool)
    requires cfg.policy.Valid() && Ascending(a.available)
    requires Small(a.state.versions.Keys + ToSet(a.available)) && MovedOff(a.state.log)
    requires DefaultIsGreatest(a.state) ||
             exists v :: v in a.failed && v in a.state.versions && !a.state.versions[v].status.WillEndUnloaded()
    ensures var end := Execute(FinalPlan(cfg, blacklisted, a), reloadNeeded).0;
            DefaultIsGreatest(end) && MovedOff(end.log)
  {
    var remaining := RemoveFailed(a.available, a.failed);
    RemoveFailedSubset(a.available, a.failed);
    PlannedMatches(cfg, blacklisted, a.state, remaining, a.failed, a.allFailed + ToSet(a.failed), a.ok);
    var last := FinalPlan(cfg, blacklisted, a);
    SameDefault(cfg, a.state, last.state, last.plan.reload);
    if !DefaultIsGreatest(a.state) {
      var v :| v in a.failed && v in a.state.versions && !a.state.versions[v].status.WillEndUnloaded();
      FailedReloadIsUnloaded(cfg, blacklisted, a, last, v);
    }
    ExecuteGreatest(last, reloadNeeded);
  }

  // ---- lists that are not ascending ----

  /** The call keeps the default version right. */
  ghost predicate KeepsDefault(env: Oracle, cfg: Config, blacklisted: set<int>, listed: seq<int>, st: ModelState)
    requires cfg.policy.Valid() && NoDup(listed)
  {
    NoDupReturns(env, cfg, blacklisted, listed, st);
    DefaultIsGreatest(ReconcileListed(env, cfg, blacklisted, listed, st).0)
  }

  /** Every call for this listing keeps the default version right. */
  ghost predicate AlwaysKept(listed: seq<int>)
    requires NoDup(listed)
  {
    forall env, cfg: Config, blacklisted: set<int>, st: ModelState ::
      cfg.policy.Valid() && Small(st.versions.Keys) && DefaultIsGreatest(st) && MovedOff(st.log) ==>
        KeepsDefault(env, cfg, blacklisted, listed, st)
  }

  function Never(): Oracle {
    (n, v) => false
  }

  /** A model with version v alone, serving and the default. */
  ghost predicate OnlyServing(st: ModelState, v: int) {
    st.versions.Keys == {v} && st.versions[v].Serving() && st.defaultVersion == v && st.log == []
  }

  lemma MissedLists(cfg: Config, r: Round, v: int)
    requires cfg.policy == SpecificVersions([v]) && !cfg.CustomLoaderRequired() && Fits(cfg, {}, r) && v in r.available
    requires r.state.versions.Keys == {v} && NeedsReload(r.state.versions[v], cfg)
    ensures r.plan.start == [] && r.plan.reload == [v] && r.plan.retire == []
  {
    assert Target(cfg, {}, r.available, {v}) == {v};
    assert Reloadable(cfg, r.state.versions) == {v};
    EmptyList(r.plan.start);
    EmptyList(r.plan.retire);
    OnlyElement(r.plan.reload, v);
  }

  /** The plan of a call that only has version v to reload. */
  lemma MissedPlan(cfg: Config, listed: seq<int>, st: ModelState, v: int, failed: seq<int>, allFailed: set<int>, ok: bool)
    requires cfg.policy == SpecificVersions([v]) && !cfg.CustomLoaderRequired() && NoDup(listed) && v in listed
    requires st.versions.Keys == {v} && NeedsReload(st.versions[v], cfg)
    ensures var r := Planned(cfg, {}, st, listed, failed, allFailed, ok);
            && r.plan.start == [] && r.plan.reload == [v] && r.plan.retire == []
            && SameButFlags(st, r.state, r.plan.reload)
  {
    PlannedFits(cfg, {}, st, listed, failed, allFailed, ok);
    MissedLists(cfg, Planned(cfg, {}, st, listed, failed, allFailed, ok), v);
  }

  lemma OnlyElement(s: seq<int>, v: int)
    requires NoDup(s) && ToSet(s) == {v}
    ensures s == [v]
  {
    NoDupDistinct(s);
    NoDupSize(s);
    assert s[0] in ToSet(s);
  }

  /** A version that binary search misses stays the default when its reload fails: the
      failed version is still on the list, so nothing is retired or cleaned up. */
  lemma MissedStaysDefault(cfg: Config, listed: seq<int>, st: ModelState, v: int)
    requires cfg.policy == SpecificVersions([v]) && !cfg.CustomLoaderRequired()
    requires NoDup(listed) && v in listed && v != 0 && !BinarySearch(listed, v)
    requires OnlyServing(st, v) && ReloadRequired(st.versions[v].config, cfg)
    ensures cfg.policy.Valid() && Returns(Never(), cfg, {}, listed, st)
    ensures var end := ReconcileListed(Never(), cfg, {}, listed, st).0;
            && end.versions.Keys == {v} && end.versions[v].status == FAILED_STATUS
            && end.defaultVersion == v && !DefaultIsGreatest(end)
  {
    NoDupReturns(Never(), cfg, {}, listed, st);
    MissedPlan(cfg, listed, st, v, [], {}, true);
    var r := FirstRound(cfg, {}, st, listed);
    assert Fallback(Never(), cfg, {}, r) == r;
    FailedReload(cfg, r, v);
    MissedLast(cfg, listed, AfterReload(Never(), cfg, r), v);
  }

  /** The final plan after the failed reload: v is still listed and reloaded next time. */
  lemma MissedLast(cfg: Config, listed: seq<int>, a: Round, v: int)
    requires cfg.policy == SpecificVersions([v]) && !cfg.CustomLoaderRequired()
    requires NoDup(listed) && v in listed && v != 0 && !BinarySearch(listed, v)
    requires a.available == listed && a.failed == [v] && a.state.versions.Keys == {v}
    requires a.state.versions[v].status == FAILED_STATUS && a.state.defaultVersion == v
    ensures var end := Execute(FinalPlan(cfg, {}, a), true).0;
            && end.versions.Keys == {v} && end.versions[v].status == FAILED_STATUS
            && end.defaultVersion == v && !DefaultIsGreatest(end)
  {
    RemoveMissed(listed, a.failed);
    MissedPlan(cfg, listed, a.state, v, a.failed, a.allFailed + ToSet(a.failed), a.ok);
    var last := FinalPlan(cfg, {}, a);
    assert Execute(last, true).0 == last.state;
    assert ServingVersions(last.state.versions) == {};
  }

  lemma FailedReload(cfg: Config, r: Round, v: int)
    requires r.plan.reload == [v] && r.state.versions.Keys == {v} && r.failed == []
    ensures var a := AfterReload(Never(), cfg, r);
            && a.failed == [v] && a.available == r.available && a.state.versions.Keys == {v}
            && a.state.versions[v].status == FAILED_STATUS && a.state.defaultVersion == r.state.defaultVersion
  {
    assert [v][..0] == [];
    assert ReloadMany(Never(), cfg, r.state, [], []) == Batch(r.state, [], true);
    assert [] + [v] == [v];
  }

  /** For a listing of versions below 2^31 without duplicates: every call, for every
      policy, registered state and outcome of its loads, keeps the default version right
      exactly if the listing is ascending. "base" is any configuration. */
  lemma DefaultKeptExact(listed: seq<int>, base: Config)
    requires NoDup(listed) && Small(ToSet(listed))
    ensures AlwaysKept(listed) <==> Ascending(listed)
  {
    if Ascending(listed) {
      forall env, cfg: Config, blacklisted: set<int>, st: ModelState |
        cfg.policy.Valid() && Small(st.versions.Keys) && DefaultIsGreatest(st) && MovedOff(st.log)
        ensures KeepsDefault(env, cfg, blacklisted, listed, st)
      {
        DefaultVersionKept(env, cfg, blacklisted, listed, st);
      }
    } else {
      var v := SomeMissed(listed);
      assert v in ToSet(listed);
      var cfg, st := StaleScene(base, v);
      MissedStaysDefault(cfg, listed, st, v);
      assert !KeepsDefault(Never(), cfg, {}, listed, st);
    }
  }

  /** Version v serves with a configuration that differs in its name. */
  lemma StaleScene(base: Config, v: int) returns (cfg: Config, st: ModelState)
    requires 0 < v < INT32_LIMIT
    ensures cfg.policy == SpecificVersions([v]) && !cfg.CustomLoaderRequired() && cfg.policy.Valid()
    ensures OnlyServing(st, v) && ReloadRequired(st.versions[v].config, cfg)
    ensures Small(st.versions.Keys) && DefaultIsGreatest(st) && MovedOff(st.log)
  {
    cfg := base.(policy := SpecificVersions([v]), serving := base.serving.(customLoaderOptions := map[]));
    var previous := cfg.(serving := cfg.serving.(name := cfg.serving.name + "-"));
    assert |previous.serving.name| != |cfg.serving.name|;
    st := ModelState(map[v := Instance(AVAILABLE_STATUS, previous, false)], v, 0, []);
    assert ServingVersions(st.versions) == {v};
  }

  /** Directories 10 and 2 are listed as 10, 2. Under the policy that asks for version 10,
      with a changed configuration that does not load, version 10 stays the default. */
  lemma TenAndTwo(listed: seq<int>, base: Config)
    requires |listed| == 2 && listed[0] == 10 && listed[1] == 2
    ensures NoDup(listed) && Small(ToSet(listed)) && !BinarySearch(listed, 10) && !AlwaysKept(listed)
  {
    assert listed == [listed[0]] + [listed[1]];
    assert multiset(listed) == multiset{10, 2};
    assert LowerBound(listed, 10, 0, 2) == 2;
    DefaultKeptExact(listed, base);
  }

  // ---- beyond 32 bits ----

  /** For versions of any size: unloading v from a state with the right default leaves
      the right default exactly when the conversion to 32 bits keeps v, or neither v nor
      the version it is converted to is the default. */
  lemma UnloadExact(st: ModelState, v: int)
    requires v in st.versions && (forall u :: u in st.versions ==> u > 0) && DefaultIsGreatest(st)
    ensures DefaultIsGreatest(RetireOne(st, v))
            <==> ToInt32(v) == v || (v != st.defaultVersion && ToInt32(v) != st.defaultVersion) || st.defaultVersion == 0
  {
    var serving := ServingVersions(st.versions);
    var w := ToInt32(v);
    var d := st.defaultVersion;
    assert Positive(serving) == serving;
    assert ServingVersions(RetireOne(st, v).versions) == serving - {v};
    if d !in {v, w} {
      GreatestWithout(serving, v);
      GreatestWithout(serving, w);
    }
    if w != v && d == v && d != 0 {
      assert v in serving && v in serving - {w} && v !in serving - {v};
    }
    if w != v && d == w && d != 0 {
      assert w in serving && w !in serving - {w} && w in serving - {v};
    }
    if d == 0 {
      EmptyOrInhabited(serving);
      assert serving == {};
      assert serving - {v} == {} && serving - {w} == {};
    }
  }

  lemma GreatestWithout(s: set<int>, v: int)
    requires v != Greatest(s)
    ensures Greatest(s - {v}) == Greatest(s)
  {
    if s != {} {
      assert Greatest(s) in s - {v};
      GreatestIs(s - {v}, Greatest(s));
    } else {
      assert s - {v} == {};
    }
  }

  /** The default stays on the single AVAILABLE version 2^31 while it is unloaded. */
  lemma LargeVersion(st: ModelState)
    requires st.versions.Keys == {INT32_LIMIT} && st.versions[INT32_LIMIT].Serving()
    ensures ToInt32(INT32_LIMIT) == -INT32_LIMIT
    ensures var end := RetireOne(st, INT32_LIMIT);
            end.defaultVersion == INT32_LIMIT && ServingVersions(end.versions) == {} && !MovedOff(end.log)
  {
    assert ServingVersions(st.versions) == {INT32_LIMIT};
    assert Positive({INT32_LIMIT}) - {-INT32_LIMIT} == {INT32_LIMIT};
    GreatestIs({INT32_LIMIT}, INT32_LIMIT);
    var end := RetireOne(st, INT32_LIMIT);
    assert end.log[|st.log|] == Retiring(INT32_LIMIT, INT32_LIMIT);
  }

  // ---- retiring all versions ----

  /** retireAllVersions ends without a default version, but it updates the default only
      after each retirement: if anything was AVAILABLE, some version starts unloading
      while it is still the default. */
  lemma RetireAllUnloadsDefault(st: ModelState)
    requires Small(st.versions.Keys) && DefaultIsGreatest(st) && MovedOff(st.log)
    ensures var end := RetireAll(st, Keys(st.versions.Keys));
            && end.defaultVersion == 0 && ServingVersions(end.versions) == {}
            && (MovedOff(end.log) <==> ServingVersions(st.versions) == {})
  {
    var keys := Keys(st.versions.Keys);
    KeysOrdered(st.versions.Keys);
    assert ToSet(keys) == st.versions.Keys;
    forall u, i | u in st.versions && 0 <= i < |keys| && u < keys[i] ensures u in ToSet(keys[..i]) {
      SmallerIsBefore(keys, u, i);
    }
    assert SmallerFirst(st.versions.Keys, keys);
    RetireAllPrefix(st, keys);
    var serving := ServingVersions(st.versions);
    assert serving - ToSet(keys) == {} && serving <= ToSet(keys);
  }

  lemma SmallerIsBefore(s: seq<int>, u: int, i: nat)
    requires Ascending(s) && u in s && i < |s| && u < s[i]
    ensures u in ToSet(s[..i])
  {
    var j :| 0 <= j < |s| && s[j] == u;
    assert s[..i][j] == u;
  }

  /** Among versions of at least v, version v is the greatest only if it is alone. */
  lemma DefaultAtRetirement(left: set<int>, v: int)
    requires v > 0 && forall u :: u in left ==> v <= u
    ensures Greatest(left) == v <==> left == {v}
    ensures left <= {v} <==> left == {} || left == {v}
  {
    if Greatest(left) == v {
      assert forall u :: u in left ==> u == v;
    }
  }

  lemma RetireAllStep(st: ModelState, v: int)
    requires Small(st.versions.Keys) && v in st.versions
    ensures var end := RetireThenDefault(st, v);
            && end.versions.Keys == st.versions.Keys && DefaultIsGreatest(end)
            && ServingVersions(end.versions) == ServingVersions(st.versions) - {v}
            && (MovedOff(end.log) <==> MovedOff(st.log) && st.defaultVersion != v)
  {
    var retired := st.(versions := st.versions[v := Retired(st.versions[v])], log := st.log + [Retiring(v, st.defaultVersion)]);
    DefaultUpdated(retired, 0);
    assert retired.log[|st.log|] == Retiring(v, st.defaultVersion);
    assert forall i :: 0 <= i < |st.log| ==> retired.log[i] == st.log[i];
  }

  /** Whether some version was unloaded as the default, after "done" of the versions. */
  ghost predicate Unmoved(serving: set<int>, done: set<int>) {
    serving != {} && serving <= done
  }

  lemma UnmovedStep(serving: set<int>, done: set<int>, v: int)
    requires v > 0 && forall u :: u in serving && u < v ==> u in done
    ensures Unmoved(serving, done + {v}) <==> Unmoved(serving, done) || Greatest(serving - done) == v
  {
    DefaultAtRetirement(serving - done, v);
    if serving - done == {v} {
      assert v in serving - done;
      assert v in serving && serving <= done + {v};
    }
    if serving - done == {} {
      forall u | u in serving ensures u in done {
        assert u !in serving - done;
      }
      assert Greatest(serving - done) == 0;
    }
    if serving <= done + {v} {
      assert serving - done <= {v};
    }
  }

  /** Before each element come all smaller elements of s. */
  ghost predicate SmallerFirst(s: set<int>, vs: seq<int>) {
    forall u, i :: u in s && 0 <= i < |vs| && u < vs[i] ==> u in ToSet(vs[..i])
  }

  lemma SmallerFirstFront(s: set<int>, vs: seq<int>)
    requires SmallerFirst(s, vs) && vs != []
    ensures var front := vs[..|vs| - 1];
            var v := vs[|vs| - 1];
            && SmallerFirst(s, front) && ToSet(vs) == ToSet(front) + {v}
            && (forall u :: u in s && u < v ==> u in ToSet(front))
  {
    var front := vs[..|vs| - 1];
    forall u, i | u in s && 0 <= i < |front| && u < front[i] ensures u in ToSet(front[..i]) {
      assert u < vs[i] && vs[..i] == front[..i];
    }
  }

  lemma {:induction false} RetireAllPrefix(st: ModelState, vs: seq<int>)
    requires Small(st.versions.Keys) && DefaultIsGreatest(st) && MovedOff(st.log)
    requires NoDup(vs) && ToSet(vs) <= st.versions.Keys
    requires SmallerFirst(st.versions.Keys, vs)
    ensures var end := RetireAll(st, vs);
            && end.versions.Keys == st.versions.Keys && DefaultIsGreatest(end)
            && ServingVersions(end.versions) == ServingVersions(st.versions) - ToSet(vs)
            && (MovedOff(end.log) <==> !Unmoved(ServingVersions(st.versions), ToSet(vs)))
  {
    var serving := ServingVersions(st.versions);
    if vs == [] {
      EmptyOrInhabited(serving);
    } else {
      var front := vs[..|vs| - 1];
      var v := vs[|vs| - 1];
      NoDupFront(vs);
      SmallerFirstFront(st.versions.Keys, vs);
      RetireAllPrefix(st, front);
      UnmovedStep(serving, ToSet(front), v);
      RetireAllStep(RetireAll(st, front), v);
      assert serving - ToSet(vs) == serving - ToSet(front) - {v};
    }
  }
}
