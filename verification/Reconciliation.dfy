/** What a reconcile call guarantees, whatever loads succeed or fail. */
module Reconciliation {
  import opened Iteration
  import opened Vectors
  import opened VersionPolicy
  import opened ModelConfig
  import opened ModelVersionStatus
  import opened ModelInstance
  import opened Model
  import opened ModelManager

  // ---- effects of the batches ----

  /** The events that name version v. */
  function History(log: seq<Event>, v: int): seq<Event> {
    if log == [] then []
    else
      var front := History(log[..|log| - 1], v);
      var e := log[|log| - 1];
      if e.version == v then front + [e] else front
  }

  lemma HistoryAppend(log: seq<Event>, e: Event, v: int)
    ensures History(log + [e], v) == if e.version == v then History(log, v) + [e] else History(log, v)
  {
    assert (log + [e])[..|log|] == log;
  }

  /** Between "a" and "b" version v was left alone: nothing was done to it and its
      instance is the same. */
  ghost predicate Spares(a: ModelState, b: ModelState, v: int) {
    && History(a.log, v) == History(b.log, v)
    && (v in a.versions <==> v in b.versions)
    && (v in a.versions ==> a.versions[v] == b.versions[v])
  }

  lemma SparesTransitive(a: ModelState, b: ModelState, c: ModelState, v: int)
    requires Spares(a, b, v) && Spares(b, c, v)
    ensures Spares(a, c, v)
  {
  }

  lemma LoadSpares(env: Oracle, cfg: Config, st: ModelState, x: int, v: int)
    requires v != x
    ensures Spares(st, AddOne(env, cfg, st, x), v)
    ensures x in st.versions ==> Spares(st, ReloadOne(env, cfg, st, x), v)
  {
    HistoryAppend(st.log, Started(x), v);
    HistoryAppend(st.log, Reloading(x), v);
  }

  lemma UnloadSpares(st: ModelState, x: int, v: int)
    requires v != x && x in st.versions
    ensures Spares(st, RetireOne(st, x), v)
    ensures Spares(st, CleanOne(st, x), v)
  {
    HistoryAppend(st.log, Retiring(x, WithDefault(st, x).defaultVersion), v);
    HistoryAppend(st.log, Cleaning(x, WithDefault(st, x).defaultVersion), v);
  }

  /** The status and configuration of a version after its load succeeded or failed. */
  ghost predicate LoadedAs(i: Instance, cfg: Config, v: int, failed: seq<int>) {
    && i.config == cfg.WithVersion(v)
    && (v in failed ==> i.status == FAILED_STATUS)
    && (v !in failed ==> i.status == AVAILABLE_STATUS)
  }

  lemma {:induction false} AddManyEffect(env: Oracle, cfg: Config, st: ModelState, vs: seq<int>)
    requires NoDup(vs) && ToSet(vs) !! st.versions.Keys
    ensures var b := AddMany(env, cfg, st, vs);
            && (forall u :: u in st.versions ==> u in b.state.versions && b.state.versions[u] == st.versions[u])
            && (forall v :: v in vs ==> v in b.state.versions && LoadedAs(b.state.versions[v], cfg, v, b.failed))
            && (forall v :: v in b.failed ==> v in vs)
            && (forall v :: v !in vs ==> Spares(st, b.state, v))
  {
    if vs == [] {
    } else {
      var front := vs[..|vs| - 1];
      var x := vs[|vs| - 1];
      NoDupFront(vs);
      AddManyKeys(env, cfg, st, front);
      AddManyEffect(env, cfg, st, front);
      var a := AddMany(env, cfg, st, front);
      var b := AddMany(env, cfg, st, vs);
      assert x !in ToSet(front) && x !in a.state.versions;
      assert x !in a.failed;
      forall v | v !in vs ensures Spares(st, b.state, v) {
        assert v !in front;
        LoadSpares(env, cfg, a.state, x, v);
      }
    }
  }

  /** Exactly version v fails to load. */
  function AllBut(v: int): Oracle {
    (n, x) => x != v
  }

  lemma {:induction false} AllButFails(cfg: Config, st: ModelState, vs: seq<int>, v: int)
    ensures forall x :: x in AddMany(AllBut(v), cfg, st, vs).failed <==> x == v && v in vs
  {
    if vs != [] {
      var front := vs[..|vs| - 1];
      assert vs == front + [vs[|vs| - 1]];
      AllButFails(cfg, st, front, v);
    }
  }

  /** Whatever the list, a version that is not in it is left alone. */
  lemma {:induction false} AddManySpares(env: Oracle, cfg: Config, st: ModelState, vs: seq<int>, v: int)
    requires v !in vs
    ensures Spares(st, AddMany(env, cfg, st, vs).state, v)
  {
    if vs != [] {
      var front := vs[..|vs| - 1];
      AddManySpares(env, cfg, st, front, v);
      LoadSpares(env, cfg, AddMany(env, cfg, st, front).state, vs[|vs| - 1], v);
    }
  }

  lemma AppendOne(a: seq<int>, b: seq<int>, x: int)
    ensures a + (b + [x]) == a + b + [x]
  {
  }

  lemma {:induction false} ReloadManyEffect(env: Oracle, cfg: Config, st: ModelState, vs: seq<int>, failed: seq<int>)
    requires NoDup(vs) && ToSet(vs) <= st.versions.Keys
    ensures var b := ReloadMany(env, cfg, st, vs, []);
            && ReloadMany(env, cfg, st, vs, failed) == Batch(b.state, failed + b.failed, b.ok)
            && b.state.versions.Keys == st.versions.Keys
            && (forall u :: u in st.versions && u !in vs ==> b.state.versions[u] == st.versions[u])
            && (forall v :: v in vs ==> LoadedAs(b.state.versions[v], cfg, v, b.failed))
            && (forall v :: v in b.failed ==> v in vs)
            && (forall v :: v !in vs ==> Spares(st, b.state, v))
            && (b.ok <==> b.failed == [])
  {
    if vs == [] {
      assert failed + [] == failed;
    } else {
      var front := vs[..|vs| - 1];
      var x := vs[|vs| - 1];
      NoDupFront(vs);
      assert ToSet(vs) == ToSet(front) + {x};
      ReloadManyEffect(env, cfg, st, front, failed);
      var a := ReloadMany(env, cfg, st, front, []);
      var b := ReloadMany(env, cfg, st, vs, []);
      assert x in a.state.versions && x !in a.failed;
      AppendOne(failed, a.failed, x);
      forall v | v !in vs ensures Spares(st, b.state, v) {
        assert v !in front;
        LoadSpares(env, cfg, a.state, x, v);
      }
    }
  }

  lemma {:induction false} RetireManyEffect(st: ModelState, vs: seq<int>)
    requires NoDup(vs) && ToSet(vs) <= st.versions.Keys
    ensures var b := RetireMany(st, vs);
            && b.1 && b.0.versions.Keys == st.versions.Keys
            && (forall u :: u in st.versions ==>
                  b.0.versions[u] == if u in vs then Retired(st.versions[u]) else st.versions[u])
            && (forall v :: v !in vs ==> Spares(st, b.0, v))
  {
    if vs == [] {
    } else {
      var front := vs[..|vs| - 1];
      var x := vs[|vs| - 1];
      NoDupFront(vs);
      assert ToSet(vs) == ToSet(front) + {x};
      RetireManyEffect(st, front);
      var a := RetireMany(st, front).0;
      var b := RetireMany(st, vs).0;
      forall v | v !in vs ensures Spares(st, b, v) {
        assert v !in front;
        UnloadSpares(a, x, v);
      }
    }
  }

  lemma {:induction false} CleanManyEffect(st: ModelState, vs: seq<int>)
    requires NoDup(vs) && ToSet(vs) <= st.versions.Keys
    ensures var b := CleanMany(st, vs);
            && b.1 && b.0.versions.Keys == st.versions.Keys
            && (forall u :: u in st.versions ==>
                  b.0.versions[u] == if u in vs then CleanedUp(st.versions[u]) else st.versions[u])
            && (forall v :: v !in vs ==> Spares(st, b.0, v))
  {
    if vs == [] {
    } else {
      var front := vs[..|vs| - 1];
      var x := vs[|vs| - 1];
      NoDupFront(vs);
      assert ToSet(vs) == ToSet(front) + {x};
      CleanManyEffect(st, front);
      var a := CleanMany(st, front).0;
      var b := CleanMany(st, vs).0;
      forall v | v !in vs ensures Spares(st, b, v) {
        assert v !in front;
        UnloadSpares(a, x, v);
      }
    }
  }

  /** Every instance after the execution of the final plan. */
  function FinalInstance(last: Round, v: int): Instance
    requires v in last.state.versions
  {
    if v !in last.plan.retire then last.state.versions[v]
    else if v in last.allFailed then CleanedUp(last.state.versions[v])
    else Retired(last.state.versions[v])
  }

  ghost predicate Executed(last: Round, end: ModelState) {
    && end.versions.Keys == last.state.versions.Keys
    && forall v :: v in end.versions ==> end.versions[v] == FinalInstance(last, v)
  }

  /** The two parts of a retire list. */
  lemma RetireParts(versions: seq<int>, allFailed: set<int>)
    requires NoDup(versions)
    ensures var retire := Those(versions, ToSet(versions) - allFailed);
            && NoDup(retire) && ToSet(retire) <= ToSet(versions)
            && forall v :: v in retire <==> v in versions && v !in allFailed
    ensures var cleanup := Those(versions, allFailed);
            && NoDup(cleanup) && ToSet(cleanup) <= ToSet(versions)
            && forall v :: v in cleanup <==> v in versions && v in allFailed
  {
    var retire, cleanup := Those(versions, ToSet(versions) - allFailed), Those(versions, allFailed);
    ThoseMembers(versions, ToSet(versions) - allFailed);
    ThoseMembers(versions, allFailed);
    forall v | v in ToSet(retire) + ToSet(cleanup) ensures v in ToSet(versions) {
      assert v in retire || v in cleanup;
    }
  }

  /** The final step carries out the whole retire list, as retirements and cleanups,
      and its own failure codes cannot occur. */
  lemma ExecuteEffect(r: Round, reloadNeeded: bool)
    requires NoDup(r.plan.retire) && ToSet(r.plan.retire) <= r.state.versions.Keys
    ensures var (st, code) := Execute(r, reloadNeeded);
            && code == (if r.ok then (if reloadNeeded then OK_RELOADED else Code.OK) else LOAD_FAILED)
            && Executed(r, st)
            && (forall v :: v !in r.plan.retire ==> Spares(r.state, st, v))
  {
    var retire := Those(r.plan.retire, ToSet(r.plan.retire) - r.allFailed);
    var cleanup := Those(r.plan.retire, r.allFailed);
    RetireParts(r.plan.retire, r.allFailed);
    RetireManyEffect(r.state, retire);
    var st1 := RetireMany(r.state, retire).0;
    CleanManyEffect(st1, cleanup);
    assert Execute(r, reloadNeeded).0 == CleanMany(st1, cleanup).0;
    forall v | v !in r.plan.retire ensures Spares(r.state, Execute(r, reloadNeeded).0, v) {
      SparesTransitive(r.state, st1, CleanMany(st1, cleanup).0, v);
    }
  }

  // ---- plans as sets ----

  /** The versions the policy selects, without blacklisted registered ones. */
  function Target(cfg: Config, blacklisted: set<int>, available: seq<int>, registered: set<int>): set<int> {
    Select(cfg.policy, ToSet(available)) - (if cfg.CustomLoaderRequired() then registered * blacklisted else {})
  }

  ghost predicate Fits(cfg: Config, blacklisted: set<int>, r: Round) {
    var q := Target(cfg, blacklisted, r.available, r.state.versions.Keys);
    && NoDup(r.plan.start) && NoDup(r.plan.reload) && NoDup(r.plan.retire)
    && ToSet(r.plan.start) == q - r.state.versions.Keys
    && ToSet(r.plan.reload) == q * Reloadable(cfg, r.state.versions)
    && ToSet(r.plan.retire) == NotEnding(r.state.versions) - q
  }

  /** What planning may change: the custom-loader flag of versions to reload. */
  ghost predicate SameButFlags(a: ModelState, b: ModelState, reload: seq<int>) {
    && a.log == b.log && a.loads == b.loads && a.defaultVersion == b.defaultVersion
    && a.versions.Keys == b.versions.Keys
    && (forall v :: v in b.versions ==> b.versions[v].status == a.versions[v].status && b.versions[v].config == a.versions[v].config)
    && (forall v :: v in b.versions && v !in reload ==> b.versions[v] == a.versions[v])
  }

  lemma SameSets(cfg: Config, a: ModelState, b: ModelState, reload: seq<int>)
    requires SameButFlags(a, b, reload)
    ensures Reloadable(cfg, a.versions) == Reloadable(cfg, b.versions)
    ensures NotEnding(a.versions) == NotEnding(b.versions)
    ensures ServingVersions(a.versions) == ServingVersions(b.versions)
  {
    forall v
      ensures v in Reloadable(cfg, a.versions) <==> v in Reloadable(cfg, b.versions)
      ensures v in ServingVersions(a.versions) <==> v in ServingVersions(b.versions)
      ensures v in NotEnding(a.versions) <==> v in NotEnding(b.versions)
    {
    }
  }

  lemma PlanningFlags(cfg: Config, st: ModelState, reload: seq<int>)
    ensures SameButFlags(st, AfterPlanning(cfg, st, reload), reload)
  {
  }

  lemma PlannedFits(cfg: Config, blacklisted: set<int>, st: ModelState, available: seq<int>,
                    failed: seq<int>, allFailed: set<int>, ok: bool)
    requires cfg.policy.Valid() && NoDup(available)
    ensures var r := Planned(cfg, blacklisted, st, available, failed, allFailed, ok);
            && Fits(cfg, blacklisted, r) && SameButFlags(st, r.state, r.plan.reload)
            && r.available == available && r.failed == failed && r.allFailed == allFailed && r.ok == ok
  {
    var requested := Filter(cfg.policy, available);
    FilterMeaning(cfg.policy, available);
    PlanCorrect(cfg, st.versions, requested, blacklisted);
    var plan := VersionsToChange(cfg, st.versions, requested, blacklisted);
    PlanningFlags(cfg, st, plan.reload);
    SameSets(cfg, st, AfterPlanning(cfg, st, plan.reload), plan.reload);
  }

  /** The versions the policy takes from a list with or without repetitions, without
      blacklisted registered ones. */
  function Goal(cfg: Config, blacklisted: set<int>, available: seq<int>, registered: set<int>): set<int> {
    WantedSet(cfg, registered, Filter(cfg.policy, available), blacklisted)
  }

  /** What the plan for a request is, with q the wanted versions. A registered version is
      started only if it is requested twice. */
  ghost predicate PlanFor(cfg: Config, q: set<int>, versions: map<int, Instance>, requested: seq<int>, p: Plan) {
    && NoDup(p.reload) && NoDup(p.retire)
    && ToSet(p.reload) == q * Reloadable(cfg, versions)
    && ToSet(p.retire) == NotEnding(versions) - q
    && q - versions.Keys <= ToSet(p.start) <= q
    && (forall v :: v in p.start && v in versions ==> multiset(requested)[v] >= 2)
    && (NoDup(requested) ==> NoDup(p.start) && ToSet(p.start) == q - versions.Keys)
  }

  lemma PlanIsFor(cfg: Config, versions: map<int, Instance>, requested: seq<int>, blacklisted: set<int>)
    ensures PlanFor(cfg, WantedSet(cfg, versions.Keys, requested, blacklisted), versions, requested,
                    VersionsToChange(cfg, versions, requested, blacklisted))
  {
    PlanCorrect(cfg, versions, requested, blacklisted);
    var p := VersionsToChange(cfg, versions, requested, blacklisted);
    forall v | v in p.start && v in versions ensures multiset(requested)[v] >= 2 {
      StartedAgain(cfg, versions.Keys, requested, blacklisted, v);
    }
  }

  /** The plan of a round fits its list and its state. */
  ghost predicate Matches(cfg: Config, blacklisted: set<int>, r: Round) {
    PlanFor(cfg, Goal(cfg, blacklisted, r.available, r.state.versions.Keys), r.state.versions,
            Filter(cfg.policy, r.available), r.plan)
  }

  lemma PlannedMatches(cfg: Config, blacklisted: set<int>, st: ModelState, available: seq<int>,
                       failed: seq<int>, allFailed: set<int>, ok: bool)
    ensures var r := Planned(cfg, blacklisted, st, available, failed, allFailed, ok);
            && Matches(cfg, blacklisted, r) && SameButFlags(st, r.state, r.plan.reload)
            && r.available == available && r.failed == failed && r.allFailed == allFailed && r.ok == ok
  {
    var requested := Filter(cfg.policy, available);
    var plan := VersionsToChange(cfg, st.versions, requested, blacklisted);
    PlanIsFor(cfg, st.versions, requested, blacklisted);
    PlannedIs(cfg, blacklisted, st, available, failed, allFailed, ok, plan);
    var after := AfterPlanning(cfg, st, plan.reload);
    PlanningFlags(cfg, st, plan.reload);
    SameSets(cfg, st, after, plan.reload);
    SamePlanFor(cfg, Goal(cfg, blacklisted, available, st.versions.Keys), st, after, requested, plan);
  }

  lemma SamePlanFor(cfg: Config, q: set<int>, a: ModelState, b: ModelState, requested: seq<int>, p: Plan)
    requires PlanFor(cfg, q, a.versions, requested, p) && a.versions.Keys == b.versions.Keys
    requires Reloadable(cfg, a.versions) == Reloadable(cfg, b.versions) && NotEnding(a.versions) == NotEnding(b.versions)
    ensures PlanFor(cfg, q, b.versions, requested, p)
  {
  }

  // ---- serving is not interrupted ----

  /** Version v, serving before the call, has not been touched, and the plan of the round
      neither reloads nor retires it. */
  ghost predicate Undisturbed(cfg: Config, blacklisted: set<int>, before: ModelState, r: Round, v: int) {
    && cfg.policy.Valid()
    && v in before.versions && before.versions[v].Serving() && !ReloadRequired(before.versions[v].config, cfg)
    && (cfg.CustomLoaderRequired() ==> v !in blacklisted)
    && v in Filter(cfg.policy, r.available)
    && Spares(before, r.state, v)
    && v !in r.plan.reload && v !in r.plan.retire
    && v !in r.failed && v !in r.allFailed
  }

  /** A property of rounds that every failing round passes on and that keeps version v from
      being started. */
  ghost predicate NeverStarts(env: Oracle, cfg: Config, blacklisted: set<int>, p: Round -> bool, v: int) {
    forall r :: p(r) ==>
      v !in r.plan.start && (Retry(env, cfg, blacklisted)(r).Some? ==> p(Retry(env, cfg, blacklisted)(r).value))
  }

  lemma StillSelected(p: Policy, available: seq<int>, failed: seq<int>, v: int)
    requires Selected(p, ToSet(available), v) && v !in failed
    ensures Selected(p, ToSet(RemoveFailed(available, failed)), v)
  {
    RemoveFailedSubset(available, failed);
    SelectedStable(p, ToSet(available), ToSet(RemoveFailed(available, failed)), v);
  }

  lemma {:induction false} StillTaken(p: Policy, available: seq<int>, failed: seq<int>, v: int)
    requires p.Valid() && v in Filter(p, available) && v !in failed
    ensures v in Filter(p, RemoveFailed(available, failed))
  {
    if failed != [] {
      var front := failed[..|failed| - 1];
      StillTaken(p, available, front, v);
      TakenStays(p, RemoveFailed(available, front), v, failed[|failed| - 1]);
    }
  }

  lemma {:induction false} StillSafely(p: Policy, available: seq<int>, failed: seq<int>, v: int)
    requires p.Valid() && SafelyListed(p, available, v) && v !in failed
    ensures SafelyListed(p, RemoveFailed(available, failed), v)
  {
    if failed != [] {
      var front := failed[..|failed| - 1];
      StillSafely(p, available, front, v);
      SafelyStays(p, RemoveFailed(available, front), v, failed[|failed| - 1]);
    }
  }

  lemma MatchesSpares(cfg: Config, blacklisted: set<int>, r: Round, v: int)
    requires Matches(cfg, blacklisted, r)
    requires v in r.state.versions && !NeedsReload(r.state.versions[v], cfg)
    requires cfg.CustomLoaderRequired() ==> v !in blacklisted
    requires v in Filter(cfg.policy, r.available)
    ensures v !in r.plan.reload && v !in r.plan.retire
  {
    assert v in Goal(cfg, blacklisted, r.available, r.state.versions.Keys);
    assert v !in ToSet(r.plan.retire) && v !in ToSet(r.plan.reload);
  }

  lemma PlannedUndisturbed(cfg: Config, blacklisted: set<int>, before: ModelState, st: ModelState, available: seq<int>,
                           remaining: seq<int>, failed: seq<int>, allFailed: set<int>, ok: bool, v: int)
    requires cfg.policy.Valid() && remaining == RemoveFailed(available, failed)
    requires v in before.versions && before.versions[v].Serving() && !ReloadRequired(before.versions[v].config, cfg)
    requires cfg.CustomLoaderRequired() ==> v !in blacklisted
    requires v in Filter(cfg.policy, available)
    requires Spares(before, st, v) && v !in failed && v !in allFailed
    ensures Undisturbed(cfg, blacklisted, before, Planned(cfg, blacklisted, st, remaining, failed, allFailed, ok), v)
  {
    StillTaken(cfg.policy, available, failed, v);
    PlannedMatches(cfg, blacklisted, st, remaining, failed, allFailed, ok);
    PlanUndisturbed(cfg, blacklisted, before, st, Planned(cfg, blacklisted, st, remaining, failed, allFailed, ok), v);
  }

  lemma PlanUndisturbed(cfg: Config, blacklisted: set<int>, before: ModelState, st: ModelState, r: Round, v: int)
    requires cfg.policy.Valid() && Matches(cfg, blacklisted, r) && SameButFlags(st, r.state, r.plan.reload)
    requires v in before.versions && before.versions[v].Serving() && !ReloadRequired(before.versions[v].config, cfg)
    requires cfg.CustomLoaderRequired() ==> v !in blacklisted
    requires v in Filter(cfg.policy, r.available)
    requires Spares(before, st, v) && v !in r.failed && v !in r.allFailed
    ensures Undisturbed(cfg, blacklisted, before, r, v)
  {
    MatchesSpares(cfg, blacklisted, r, v);
  }

  lemma {:induction false} FallbackUndisturbed(env: Oracle, cfg: Config, blacklisted: set<int>, before: ModelState,
                                               p: Round -> bool, r: Round, v: int)
    requires Ends(env, cfg, blacklisted, r) && Undisturbed(cfg, blacklisted, before, r, v)
    requires p(r) && NeverStarts(env, cfg, blacklisted, p, v)
    ensures Undisturbed(cfg, blacklisted, before, Fallback(env, cfg, blacklisted, r), v)
    decreases RoundsLeft(env, cfg, blacklisted, r)
  {
    if r.plan.start != [] {
      FallbackUnfold(env, cfg, blacklisted, r);
      AddManySpares(env, cfg, r.state, r.plan.start, v);
      AddManyKeys(env, cfg, r.state, r.plan.start);
      var b := AddMany(env, cfg, r.state, r.plan.start);
      SparesTransitive(before, r.state, b.state, v);
      assert v !in ToSet(r.plan.start);
      assert v !in b.failed;
      if !b.ok {
        var remaining := RemoveFailed(r.available, b.failed);
        RetryIs(env, cfg, blacklisted, r);
        PlannedUndisturbed(cfg, blacklisted, before, b.state, r.available, remaining, b.failed,
                           r.allFailed + ToSet(b.failed), false, v);
        FallbackUndisturbed(env, cfg, blacklisted, before, p, NextRound(env, cfg, blacklisted, r), v);
      }
    }
  }

  lemma AfterReloadUndisturbed(env: Oracle, cfg: Config, blacklisted: set<int>, before: ModelState, r: Round, v: int)
    requires Undisturbed(cfg, blacklisted, before, r, v)
    requires NoDup(r.plan.reload) && ToSet(r.plan.reload) <= r.state.versions.Keys
    ensures Undisturbed(cfg, blacklisted, before, AfterReload(env, cfg, r), v)
  {
    if r.plan.reload != [] {
      ReloadManyEffect(env, cfg, r.state, r.plan.reload, r.failed);
      SparesTransitive(before, r.state, AfterReload(env, cfg, r).state, v);
    }
  }

  /** The reload list of a round names registered versions, also after more were started. */
  ghost predicate ReloadsRegistered(r: Round) {
    NoDup(r.plan.reload) && ToSet(r.plan.reload) <= r.state.versions.Keys
  }

  lemma {:induction false} FallbackReloads(env: Oracle, cfg: Config, blacklisted: set<int>, r: Round)
    requires Ends(env, cfg, blacklisted, r) && ReloadsRegistered(r)
    ensures var n := Fallback(env, cfg, blacklisted, r);
            && ReloadsRegistered(n) && ToSet(n.available) <= ToSet(r.available)
            && (NoDup(r.available) ==> NoDup(n.available))
    decreases RoundsLeft(env, cfg, blacklisted, r)
  {
    if r.plan.start != [] {
      FallbackUnfold(env, cfg, blacklisted, r);
      AddManyKeys(env, cfg, r.state, r.plan.start);
      var b := AddMany(env, cfg, r.state, r.plan.start);
      if !b.ok {
        RemoveFailedSubset(r.available, b.failed);
        PlannedMatches(cfg, blacklisted, b.state, RemoveFailed(r.available, b.failed), b.failed,
                       r.allFailed + ToSet(b.failed), false);
        FallbackReloads(env, cfg, blacklisted, NextRound(env, cfg, blacklisted, r));
      }
    }
  }

  /** The final plan of a whole call, which its last step executes. */
  ghost function LastRound(env: Oracle, cfg: Config, blacklisted: set<int>, available: seq<int>, st: ModelState): Round
    requires Returns(env, cfg, blacklisted, available, st)
  {
    FinalPlan(cfg, blacklisted, AfterReload(env, cfg, Fallback(env, cfg, blacklisted, FirstRound(cfg, blacklisted, st, available))))
  }

  /** The rounds of a call that returns, for any list. */
  lemma AnyRounds(env: Oracle, cfg: Config, blacklisted: set<int>, available: seq<int>, st: ModelState)
    requires Returns(env, cfg, blacklisted, available, st)
    ensures var r := FirstRound(cfg, blacklisted, st, available);
            && Pending(cfg, blacklisted, r) && Matches(cfg, blacklisted, r) && ReloadsRegistered(r)
            && var n := Fallback(env, cfg, blacklisted, r);
            && ReloadsRegistered(n) && ToSet(n.available) <= ToSet(available)
            && (NoDup(available) ==> NoDup(n.available))
    ensures var last := LastRound(env, cfg, blacklisted, available, st);
            && Matches(cfg, blacklisted, last) && ToSet(last.available) <= ToSet(available)
            && (NoDup(available) ==> NoDup(last.available))
            && ToSet(last.plan.retire) <= last.state.versions.Keys
  {
    PlannedPending(cfg, blacklisted, st, available, [], {}, true);
    PlannedMatches(cfg, blacklisted, st, available, [], {}, true);
    var r := FirstRound(cfg, blacklisted, st, available);
    FallbackReloads(env, cfg, blacklisted, r);
    LastMatches(cfg, blacklisted, AfterReload(env, cfg, Fallback(env, cfg, blacklisted, r)));
  }

  lemma LastMatches(cfg: Config, blacklisted: set<int>, a: Round)
    ensures var last := FinalPlan(cfg, blacklisted, a);
            && Matches(cfg, blacklisted, last) && ToSet(last.available) <= ToSet(a.available)
            && (NoDup(a.available) ==> NoDup(last.available))
            && ToSet(last.plan.retire) <= last.state.versions.Keys
  {
    RemoveFailedSubset(a.available, a.failed);
    PlannedMatches(cfg, blacklisted, a.state, RemoveFailed(a.available, a.failed), a.failed, a.allFailed + ToSet(a.failed), a.ok);
  }

  /** The same for a list without duplicates, where every call returns. */
  lemma CallRounds(env: Oracle, cfg: Config, blacklisted: set<int>, available: seq<int>, st: ModelState)
    requires cfg.policy.Valid() && NoDup(available)
    ensures Returns(env, cfg, blacklisted, available, st)
    ensures var r := FirstRound(cfg, blacklisted, st, available);
            && Pending(cfg, blacklisted, r) && Fits(cfg, blacklisted, r) && ReloadsRegistered(r)
            && var n := Fallback(env, cfg, blacklisted, r);
            && ReloadsRegistered(n) && NoDup(n.available) && ToSet(n.available) <= ToSet(available)
    ensures var last := LastRound(env, cfg, blacklisted, available, st);
            && Fits(cfg, blacklisted, last) && NoDup(last.available) && ToSet(last.available) <= ToSet(available)
            && ToSet(last.plan.retire) <= last.state.versions.Keys
  {
    NoDupReturns(env, cfg, blacklisted, available, st);
    AnyRounds(env, cfg, blacklisted, available, st);
    MatchesFits(cfg, blacklisted, FirstRound(cfg, blacklisted, st, available));
    MatchesFits(cfg, blacklisted, LastRound(env, cfg, blacklisted, available, st));
  }

  lemma MatchesFits(cfg: Config, blacklisted: set<int>, r: Round)
    requires cfg.policy.Valid() && NoDup(r.available) && Matches(cfg, blacklisted, r)
    ensures Fits(cfg, blacklisted, r)
  {
    FilterMeaning(cfg.policy, r.available);
  }

  lemma AnyExecutes(env: Oracle, cfg: Config, blacklisted: set<int>, listed: seq<int>, st: ModelState)
    requires Returns(env, cfg, blacklisted, listed, st)
    ensures var (end, code) := ReconcileListed(env, cfg, blacklisted, listed, st);
            var last := LastRound(env, cfg, blacklisted, listed, st);
            && Executed(last, end)
            && (code == Code.OK || code == OK_RELOADED || code == LOAD_FAILED)
            && (forall v :: v !in last.plan.retire ==> Spares(last.state, end, v))
  {
    AnyRounds(env, cfg, blacklisted, listed, st);
    var r := FirstRound(cfg, blacklisted, st, listed);
    var reloadNeeded := r.plan.start != [] || r.plan.reload != [] || r.plan.retire != [];
    ExecuteEffect(LastRound(env, cfg, blacklisted, listed, st), reloadNeeded);
  }

  lemma CallExecutes(env: Oracle, cfg: Config, blacklisted: set<int>, listed: seq<int>, st: ModelState)
    requires cfg.policy.Valid() && NoDup(listed)
    ensures Returns(env, cfg, blacklisted, listed, st)
    ensures var (end, code) := ReconcileListed(env, cfg, blacklisted, listed, st);
            var last := LastRound(env, cfg, blacklisted, listed, st);
            && Executed(last, end)
            && (code == Code.OK || code == OK_RELOADED || code == LOAD_FAILED)
            && (forall v :: v !in last.plan.retire ==> Spares(last.state, end, v))
  {
    NoDupReturns(env, cfg, blacklisted, listed, st);
    AnyExecutes(env, cfg, blacklisted, listed, st);
  }

  /** A version that serves, is selected, is not blacklisted and needs no reload is left
      alone by a call that returns, if no round of its fallback loop starts it. */
  lemma LeftAlone(env: Oracle, cfg: Config, blacklisted: set<int>, available: seq<int>, st: ModelState,
                  p: Round -> bool, v: int)
    requires Returns(env, cfg, blacklisted, available, st)
    requires v in st.versions && st.versions[v].Serving() && !ReloadRequired(st.versions[v].config, cfg)
    requires v in Filter(cfg.policy, available)
    requires cfg.CustomLoaderRequired() ==> v !in blacklisted
    requires p(FirstRound(cfg, blacklisted, st, available)) && NeverStarts(env, cfg, blacklisted, p, v)
    ensures Spares(st, ReconcileListed(env, cfg, blacklisted, available, st).0, v)
  {
    AnyRounds(env, cfg, blacklisted, available, st);
    var r := FirstRound(cfg, blacklisted, st, available);
    assert RemoveFailed(available, []) == available;
    PlannedUndisturbed(cfg, blacklisted, st, st, available, available, [], {}, true, v);
    FallbackUndisturbed(env, cfg, blacklisted, st, p, r, v);
    var n := Fallback(env, cfg, blacklisted, r);
    AfterReloadUndisturbed(env, cfg, blacklisted, st, n, v);
    var a := AfterReload(env, cfg, n);
    PlannedUndisturbed(cfg, blacklisted, st, a.state, a.available, RemoveFailed(a.available, a.failed), a.failed,
                       a.allFailed + ToSet(a.failed), a.ok, v);
    AnyExecutes(env, cfg, blacklisted, available, st);
    SparesTransitive(st, LastRound(env, cfg, blacklisted, available, st).state,
                     ReconcileListed(env, cfg, blacklisted, available, st).0, v);
  }

  /** Version v is registered, and the policy takes it once and goes on doing so. */
  ghost predicate Safe(cfg: Config, blacklisted: set<int>, r: Round, v: int) {
    Pending(cfg, blacklisted, r) && v in r.state.versions && SafelyListed(cfg.policy, r.available, v)
  }

  lemma SafeNeverStarts(env: Oracle, cfg: Config, blacklisted: set<int>, v: int)
    ensures NeverStarts(env, cfg, blacklisted, r => Safe(cfg, blacklisted, r, v), v)
  {
    forall r | Safe(cfg, blacklisted, r, v)
      ensures v !in r.plan.start
      ensures Retry(env, cfg, blacklisted)(r).Some? ==> Safe(cfg, blacklisted, Retry(env, cfg, blacklisted)(r).value, v)
    {
      StartedAgain(cfg, r.state.versions.Keys, Filter(cfg.policy, r.available), blacklisted, v);
      if Retry(env, cfg, blacklisted)(r).Some? {
        SafeNext(env, cfg, blacklisted, r, v);
      }
    }
  }

  lemma SafeNext(env: Oracle, cfg: Config, blacklisted: set<int>, r: Round, v: int)
    requires Safe(cfg, blacklisted, r, v) && v !in r.plan.start && Retry(env, cfg, blacklisted)(r).Some?
    ensures Safe(cfg, blacklisted, Retry(env, cfg, blacklisted)(r).value, v)
  {
    RetryIs(env, cfg, blacklisted, r);
    NextStage(env, cfg, blacklisted, r);
    assert v !in ToSet(r.plan.start);
    StillSafely(cfg.policy, r.available, AddMany(env, cfg, r.state, r.plan.start).failed, v);
  }

  /** Serving is not interrupted. A version that is AVAILABLE, safely listed for the
      policy, not blacklisted and in need of no reload is named by no start, reload,
      retirement or cleanup of a call that returns, and its instance is the same
      afterwards, whatever loads succeed or fail. */
  lemma ServingNotInterrupted(env: Oracle, cfg: Config, blacklisted: set<int>, available: seq<int>, st: ModelState, v: int)
    requires Returns(env, cfg, blacklisted, available, st)
    requires v in st.versions && st.versions[v].Serving() && !ReloadRequired(st.versions[v].config, cfg)
    requires SafelyListed(cfg.policy, available, v)
    requires cfg.CustomLoaderRequired() ==> v !in blacklisted
    ensures Spares(st, ReconcileListed(env, cfg, blacklisted, available, st).0, v)
  {
    PlannedPending(cfg, blacklisted, st, available, [], {}, true);
    assert v in multiset(Filter(cfg.policy, available));
    SafeNeverStarts(env, cfg, blacklisted, v);
    LeftAlone(env, cfg, blacklisted, available, st, r => Safe(cfg, blacklisted, r, v), v);
  }

  /** Without repetitions in the listing every call returns and leaves each version alone
      that serves, is selected, is not blacklisted and needs no reload. */
  lemma ServingWithoutRepetition(env: Oracle, cfg: Config, blacklisted: set<int>, available: seq<int>, st: ModelState, v: int)
    requires cfg.policy.Valid() && NoDup(available)
    requires v in st.versions && st.versions[v].Serving() && !ReloadRequired(st.versions[v].config, cfg)
    requires Selected(cfg.policy, ToSet(available), v)
    requires cfg.CustomLoaderRequired() ==> v !in blacklisted
    ensures Returns(env, cfg, blacklisted, available, st)
    ensures Spares(st, ReconcileListed(env, cfg, blacklisted, available, st).0, v)
  {
    NoDupReturns(env, cfg, blacklisted, available, st);
    FilterMeaning(cfg.policy, available);
    assert v in ToSet(Filter(cfg.policy, available));
    NoDupSafely(cfg.policy, available, v);
    ServingNotInterrupted(env, cfg, blacklisted, available, st, v);
  }

  // ---- only failed versions are given up ----

  /** Some load attempt of version v failed. */
  ghost predicate FailedOnce(env: Oracle, v: int) {
    exists n: nat :: !env(n, v)
  }

  ghost predicate GivenUpRightly(env: Oracle, listed: seq<int>, r: Round) {
    && (forall v :: v in r.failed || v in r.allFailed ==> FailedOnce(env, v))
    && (forall v :: v in listed && v !in r.available ==> v in r.allFailed)
  }

  lemma {:induction false} AddManyFailures(env: Oracle, cfg: Config, st: ModelState, vs: seq<int>)
    ensures forall v :: v in AddMany(env, cfg, st, vs).failed ==> FailedOnce(env, v)
  {
    if vs != [] {
      AddManyFailures(env, cfg, st, vs[..|vs| - 1]);
    }
  }

  lemma {:induction false} ReloadManyFailures(env: Oracle, cfg: Config, st: ModelState, vs: seq<int>, failed: seq<int>)
    requires forall v :: v in failed ==> FailedOnce(env, v)
    ensures forall v :: v in ReloadMany(env, cfg, st, vs, failed).failed ==> FailedOnce(env, v)
  {
    if vs != [] {
      ReloadManyFailures(env, cfg, st, vs[..|vs| - 1], failed);
    }
  }

  lemma NextGivenUp(env: Oracle, listed: seq<int>, r: Round, n: Round, failed: seq<int>)
    requires GivenUpRightly(env, listed, r)
    requires n.available == RemoveFailed(r.available, failed) && n.failed == failed
    requires n.allFailed == r.allFailed + ToSet(failed)
    requires forall v :: v in failed ==> FailedOnce(env, v)
    ensures GivenUpRightly(env, listed, n)
  {
    RemoveFailedSubset(r.available, failed);
    forall v | v in listed && v !in n.available ensures v in n.allFailed {
      if v in r.available {
        assert v in ToSet(r.available) && v !in ToSet(n.available);
      }
    }
  }

  lemma {:induction false} FallbackGivenUp(env: Oracle, cfg: Config, blacklisted: set<int>, listed: seq<int>, r: Round)
    requires Ends(env, cfg, blacklisted, r) && GivenUpRightly(env, listed, r)
    ensures GivenUpRightly(env, listed, Fallback(env, cfg, blacklisted, r))
    decreases RoundsLeft(env, cfg, blacklisted, r)
  {
    if r.plan.start != [] {
      FallbackUnfold(env, cfg, blacklisted, r);
      AddManyKeys(env, cfg, r.state, r.plan.start);
      AddManyFailures(env, cfg, r.state, r.plan.start);
      var b := AddMany(env, cfg, r.state, r.plan.start);
      if !b.ok {
        var n := NextRound(env, cfg, blacklisted, r);
        NextGivenUp(env, listed, r, n, b.failed);
        FallbackGivenUp(env, cfg, blacklisted, listed, n);
      }
    }
  }

  lemma LastGivenUp(env: Oracle, cfg: Config, blacklisted: set<int>, listed: seq<int>, st: ModelState)
    requires Returns(env, cfg, blacklisted, listed, st)
    ensures GivenUpRightly(env, listed, LastRound(env, cfg, blacklisted, listed, st))
  {
    AnyRounds(env, cfg, blacklisted, listed, st);
    var r := FirstRound(cfg, blacklisted, st, listed);
    FallbackGivenUp(env, cfg, blacklisted, listed, r);
    var n := Fallback(env, cfg, blacklisted, r);
    ReloadManyFailures(env, cfg, n.state, n.plan.reload, n.failed);
    var a := AfterReload(env, cfg, n);
    NextGivenUp(env, listed, a, LastRound(env, cfg, blacklisted, listed, st), a.failed);
  }

  // ---- policy safety ----

  /** After any call that returns, from any registered state, for any list and for any
      failures: every version that is AVAILABLE is taken by the policy from the versions
      that remain; every other registered version has ended, is ending, or failed to
      load; and only versions with a failed load were taken off the list. The retirement
      itself never fails. */
  lemma PolicySafety(env: Oracle, cfg: Config, blacklisted: set<int>, listed: seq<int>, st: ModelState)
    requires Returns(env, cfg, blacklisted, listed, st)
    ensures var (end, code) := ReconcileListed(env, cfg, blacklisted, listed, st);
            var remaining := LastRound(env, cfg, blacklisted, listed, st).available;
            && code != RETIRE_FAILED
            && ServingVersions(end.versions) <= ToSet(Filter(cfg.policy, remaining))
            && (cfg.CustomLoaderRequired() ==> ServingVersions(end.versions) !! blacklisted)
            && (forall v :: v in end.versions && v !in Filter(cfg.policy, remaining) ==>
                  end.versions[v].status.WillEndUnloaded() || end.versions[v].status.IsFailedLoading())
            && ToSet(remaining) <= ToSet(listed)
            && (forall v :: v in listed && v !in remaining ==> FailedOnce(env, v))
  {
    AnyRounds(env, cfg, blacklisted, listed, st);
    AnyExecutes(env, cfg, blacklisted, listed, st);
    LastGivenUp(env, cfg, blacklisted, listed, st);
    var last := LastRound(env, cfg, blacklisted, listed, st);
    FinalStates(cfg, blacklisted, last, ReconcileListed(env, cfg, blacklisted, listed, st).0);
  }

  lemma FinalStates(cfg: Config, blacklisted: set<int>, last: Round, end: ModelState)
    requires Matches(cfg, blacklisted, last) && Executed(last, end)
    ensures ServingVersions(end.versions) <= ToSet(Filter(cfg.policy, last.available))
    ensures cfg.CustomLoaderRequired() ==> ServingVersions(end.versions) !! blacklisted
    ensures forall v :: v in end.versions && v !in Filter(cfg.policy, last.available) ==>
              end.versions[v].status.WillEndUnloaded() || end.versions[v].status.IsFailedLoading()
  {
    var q := Goal(cfg, blacklisted, last.available, last.state.versions.Keys);
    forall v | v in end.versions && v !in q
      ensures end.versions[v].status.WillEndUnloaded() || end.versions[v].status.IsFailedLoading()
      ensures !end.versions[v].Serving()
    {
      assert v in ToSet(last.plan.retire) <==> v in NotEnding(last.state.versions);
    }
    forall v | v in ServingVersions(end.versions) ensures v in q {
    }
  }

  // ---- convergence ----

  /** Nothing to start, reload or retire. */
  ghost predicate Settled(cfg: Config, blacklisted: set<int>, listed: seq<int>, st: ModelState) {
    var q := Goal(cfg, blacklisted, listed, st.versions.Keys);
    && NoDup(Filter(cfg.policy, listed))
    && q <= st.versions.Keys && q !! Reloadable(cfg, st.versions) && NotEnding(st.versions) <= q
  }

  lemma EmptyList(s: seq<int>)
    ensures ToSet(s) == {} ==> s == []
  {
    if s != [] {
      assert s[0] in ToSet(s);
    }
  }

  lemma SettledPlan(cfg: Config, blacklisted: set<int>, listed: seq<int>, st: ModelState,
                    failed: seq<int>, allFailed: set<int>, ok: bool)
    requires Settled(cfg, blacklisted, listed, st)
    ensures Planned(cfg, blacklisted, st, listed, failed, allFailed, ok)
            == Round(st, listed, Plan([], [], []), failed, allFailed, ok)
  {
    PlannedMatches(cfg, blacklisted, st, listed, failed, allFailed, ok);
    SettledRound(cfg, blacklisted, st, Planned(cfg, blacklisted, st, listed, failed, allFailed, ok));
  }

  lemma SettledRound(cfg: Config, blacklisted: set<int>, st: ModelState, r: Round)
    requires Settled(cfg, blacklisted, r.available, st)
    requires Matches(cfg, blacklisted, r) && SameButFlags(st, r.state, r.plan.reload)
    ensures r.plan == Plan([], [], []) && r.state == st
  {
    SameSets(cfg, st, r.state, r.plan.reload);
    SettledLists(cfg, blacklisted, r);
    NothingFlagged(st, r.state);
  }

  lemma SettledLists(cfg: Config, blacklisted: set<int>, r: Round)
    requires Matches(cfg, blacklisted, r) && Settled(cfg, blacklisted, r.available, r.state)
    ensures r.plan.start == [] && r.plan.reload == [] && r.plan.retire == []
  {
    var q := Goal(cfg, blacklisted, r.available, r.state.versions.Keys);
    assert q - r.state.versions.Keys == {};
    assert q * Reloadable(cfg, r.state.versions) == {};
    assert NotEnding(r.state.versions) - q == {};
    EmptyList(r.plan.start);
    EmptyList(r.plan.reload);
    EmptyList(r.plan.retire);
  }

  lemma NothingFlagged(a: ModelState, b: ModelState)
    requires SameButFlags(a, b, [])
    ensures a == b
  {
    var none: seq<int> := [];
    forall v | v in b.versions ensures a.versions[v] == b.versions[v] {
      assert v !in none;
    }
    assert a.versions == b.versions;
  }

  /** A loop with nothing to start, or whose first round succeeds, is over. */
  lemma EndsAtOnce(env: Oracle, cfg: Config, blacklisted: set<int>, r: Round)
    requires r.plan.start == [] || AddMany(env, cfg, r.state, r.plan.start).ok
    ensures Ends(env, cfg, blacklisted, r)
  {
    RetryIs(env, cfg, blacklisted, r);
    assert StopsWithin(Retry(env, cfg, blacklisted), r, 0);
  }

  /** A settled model is a fixed point: the call plans nothing, changes nothing and
      returns OK, whatever its loads would do. */
  lemma SettledCall(env: Oracle, cfg: Config, blacklisted: set<int>, listed: seq<int>, st: ModelState)
    requires cfg.policy.Valid() && Settled(cfg, blacklisted, listed, st)
    ensures Returns(env, cfg, blacklisted, listed, st)
    ensures ReconcileListed(env, cfg, blacklisted, listed, st) == (st, Code.OK)
  {
    SettledPlan(cfg, blacklisted, listed, st, [], {}, true);
    var r := FirstRound(cfg, blacklisted, st, listed);
    EndsAtOnce(env, cfg, blacklisted, r);
    assert Fallback(env, cfg, blacklisted, r) == r;
    assert AfterReload(env, cfg, r) == r;
    assert RemoveFailed(listed, []) == listed;
    assert r.allFailed + ToSet([]) == r.allFailed;
    assert FinalPlan(cfg, blacklisted, r) == r;
    assert Execute(r, false) == (st, Code.OK);
  }

  lemma {:induction false} AllLoadsSucceed(env: Oracle, cfg: Config, st: ModelState, vs: seq<int>)
    requires forall n, v :: env(n, v)
    ensures AddMany(env, cfg, st, vs).ok && AddMany(env, cfg, st, vs).failed == []
    ensures ReloadMany(env, cfg, st, vs, []).failed == []
    ensures ToSet(vs) <= st.versions.Keys ==> ReloadMany(env, cfg, st, vs, []).ok
    ensures ToSet(vs) <= st.versions.Keys ==> ReloadMany(env, cfg, st, vs, []).state.versions.Keys == st.versions.Keys
  {
    if vs != [] {
      AllLoadsSucceed(env, cfg, st, vs[..|vs| - 1]);
      assert ToSet(vs) == ToSet(vs[..|vs| - 1]) + {vs[|vs| - 1]};
    }
  }

  /** Starting what is missing and reloading what needs it, without a failure, leaves
      nothing to start or reload: what was just loaded needs no reload, because "no
      reload required" is reflexive and does not look at the version. */
  lemma AllReady(cfg: Config, q: set<int>, m0: map<int, Instance>, m1: map<int, Instance>, m2: map<int, Instance>,
                 start: seq<int>, reload: seq<int>)
    requires q - m0.Keys == ToSet(start) && q * Reloadable(cfg, m0) == ToSet(reload)
    requires forall u :: u in m0 ==> u in m1 && m1[u] == m0[u]
    requires forall v :: v in start ==> v in m1 && LoadedAs(m1[v], cfg, v, [])
    requires m2.Keys == m1.Keys
    requires forall u :: u in m1 && u !in reload ==> m2[u] == m1[u]
    requires forall v :: v in reload ==> v in m2 && LoadedAs(m2[v], cfg, v, [])
    ensures q <= m2.Keys && q !! Reloadable(cfg, m2)
  {
    forall v | v in q ensures v in m2 && v !in Reloadable(cfg, m2) {
      ReloadRequiredLaws(cfg, cfg, cfg, v);
      if v in m0 {
        assert v in reload <==> v in ToSet(reload);
        assert v in reload || v !in Reloadable(cfg, m0);
      } else {
        assert v in ToSet(start);
        assert v in start;
      }
    }
  }

  /** The state after the starts and reloads of a call without failures. */
  lemma AllStarted(env: Oracle, cfg: Config, q: set<int>, requested: seq<int>, r: Round)
    requires PlanFor(cfg, q, r.state.versions, requested, r.plan) && NoDup(requested)
    requires forall n, v :: env(n, v)
    ensures var st1 := AddMany(env, cfg, r.state, r.plan.start).state;
            var st2 := ReloadMany(env, cfg, st1, r.plan.reload, []).state;
            q <= st2.versions.Keys && q !! Reloadable(cfg, st2.versions)
  {
    var b := AddMany(env, cfg, r.state, r.plan.start);
    AllLoadsSucceed(env, cfg, r.state, r.plan.start);
    AddManyEffect(env, cfg, r.state, r.plan.start);
    AddManyKeys(env, cfg, r.state, r.plan.start);
    assert Reloadable(cfg, r.state.versions) <= r.state.versions.Keys;
    AllLoadsSucceed(env, cfg, b.state, r.plan.reload);
    ReloadManyEffect(env, cfg, b.state, r.plan.reload, []);
    AllReady(cfg, q, r.state.versions, b.state.versions,
             ReloadMany(env, cfg, b.state, r.plan.reload, []).state.versions, r.plan.start, r.plan.reload);
  }

  /** The rounds of a call without failures. */
  lemma RoundsWithoutFailure(env: Oracle, cfg: Config, r: Round)
    requires ReloadsRegistered(r) && r.failed == [] && r.ok && forall n, v :: env(n, v)
    ensures Ends(env, cfg, {}, r)
    ensures var st1 := AddMany(env, cfg, r.state, r.plan.start).state;
            var st2 := ReloadMany(env, cfg, st1, r.plan.reload, []).state;
            AfterReload(env, cfg, Fallback(env, cfg, {}, r)) == r.(state := st2)
  {
    var st1 := AddMany(env, cfg, r.state, r.plan.start).state;
    AllLoadsSucceed(env, cfg, r.state, r.plan.start);
    EndsAtOnce(env, cfg, {}, r);
    AllLoadsSucceed(env, cfg, st1, r.plan.reload);
    AddManyKeys(env, cfg, r.state, r.plan.start);
    assert Fallback(env, cfg, {}, r) == r.(state := st1);
  }

  /** A call without failures returns; its last plan is made on the whole list. */
  lemma CallWithoutFailure(env: Oracle, cfg: Config, listed: seq<int>, st: ModelState)
    requires cfg.policy.Valid() && forall n, v :: env(n, v)
    ensures Returns(env, cfg, {}, listed, st)
    ensures var r := FirstRound(cfg, {}, st, listed);
            var st2 := ReloadMany(env, cfg, AddMany(env, cfg, r.state, r.plan.start).state, r.plan.reload, []).state;
            LastRound(env, cfg, {}, listed, st) == Planned(cfg, {}, st2, listed, [], {}, true)
  {
    PlannedMatches(cfg, {}, st, listed, [], {}, true);
    var r := FirstRound(cfg, {}, st, listed);
    RoundsWithoutFailure(env, cfg, r);
    var a := AfterReload(env, cfg, Fallback(env, cfg, {}, r));
    assert RemoveFailed(listed, []) == listed;
    assert a.allFailed + ToSet([]) == a.allFailed;
  }

  /** Convergence. Without a custom loader and for a list of which the policy takes no
      version twice, after a call in which every load succeeded a second call with the
      same configuration and the same versions on disk does nothing and reports OK
      rather than OK_RELOADED. */
  lemma Convergence(env: Oracle, later: Oracle, cfg: Config, listed: seq<int>, st: ModelState)
    requires cfg.policy.Valid() && NoDup(Filter(cfg.policy, listed)) && !cfg.CustomLoaderRequired()
    requires forall n, v :: env(n, v)
    ensures Returns(env, cfg, {}, listed, st)
    ensures var (end, code) := ReconcileListed(env, cfg, {}, listed, st);
            && (code == Code.OK || code == OK_RELOADED)
            && Returns(later, cfg, {}, listed, end)
            && ReconcileListed(later, cfg, {}, listed, end) == (end, Code.OK)
  {
    CallWithoutFailure(env, cfg, listed, st);
    AnyRounds(env, cfg, {}, listed, st);
    var r := FirstRound(cfg, {}, st, listed);
    var requested := Filter(cfg.policy, listed);
    AllStarted(env, cfg, Goal(cfg, {}, listed, r.state.versions.Keys), requested, r);
    var st2 := ReloadMany(env, cfg, AddMany(env, cfg, r.state, r.plan.start).state, r.plan.reload, []).state;
    PlannedMatches(cfg, {}, st2, listed, [], {}, true);
    var last := LastRound(env, cfg, {}, listed, st);
    var reloadNeeded := r.plan.start != [] || r.plan.reload != [] || r.plan.retire != [];
    ExecuteEffect(last, reloadNeeded);
    var end := Execute(last, reloadNeeded).0;
    EndSettled(cfg, st2, last, end);
    SettledCall(later, cfg, {}, listed, end);
  }

  lemma EndSettled(cfg: Config, before: ModelState, last: Round, end: ModelState)
    requires Matches(cfg, {}, last) && !cfg.CustomLoaderRequired() && SameButFlags(before, last.state, last.plan.reload)
    requires NoDup(Filter(cfg.policy, last.available))
    requires var q := ToSet(Filter(cfg.policy, last.available));
             q <= before.versions.Keys && q !! Reloadable(cfg, before.versions)
    requires last.allFailed == {}
    requires Executed(last, end)
    ensures Settled(cfg, {}, last.available, end)
  {
    var q := ToSet(Filter(cfg.policy, last.available));
    SameSets(cfg, before, last.state, last.plan.reload);
    forall v | v in q ensures v in end.versions && v !in Reloadable(cfg, end.versions) {
      assert v !in ToSet(last.plan.retire);
    }
    forall v | v in NotEnding(end.versions) ensures v in q {
      assert v in ToSet(last.plan.retire) || v in q || v !in NotEnding(last.state.versions);
    }
  }
}
