/** Version reconciliation: the plan made from the versions on disk and the registered
    versions, and the call that executes it with its fallback loop. */
module ModelManager {
  import opened Common
  import opened Iteration
  import opened Vectors
  import opened VersionPolicy
  import opened ModelConfig
  import opened ModelInstance
  import opened Model

  datatype Plan = Plan(start: seq<int>, reload: seq<int>, retire: seq<int>)

  // ---- getVersionsToChange ----

  predicate NeedsReload(i: Instance, cfg: Config) {
    i.status.WillEndUnloaded() || i.status.IsFailedLoading() || ReloadRequired(i.config, cfg)
  }

  /** The elements of "s" that are in "keep", in order. */
  function Those(s: seq<int>, keep: set<int>): seq<int> {
    if s == [] then []
    else
      var front := Those(s[..|s| - 1], keep);
      var x := s[|s| - 1];
      if x in keep then front + [x] else front
  }

  function Reloadable(cfg: Config, versions: map<int, Instance>): set<int> {
    set v | v in versions && NeedsReload(versions[v], cfg)
  }

  function NotEnding(versions: map<int, Instance>): set<int> {
    set v | v in versions && !versions[v].status.WillEndUnloaded()
  }

  /** "blacklisted" are the versions the custom loader reports as blacklisted; it is
      asked about registered versions only, and only if the model needs a custom loader. */
  function Wanted(cfg: Config, registered: set<int>, requested: seq<int>, blacklisted: set<int>): seq<int> {
    if cfg.CustomLoaderRequired()
    then WithoutAll(Sort(requested), Those(Keys(registered), blacklisted))
    else Sort(requested)
  }

  function ToStart(cfg: Config, registered: set<int>, requested: seq<int>, blacklisted: set<int>): seq<int> {
    Difference(Wanted(cfg, registered, requested, blacklisted), Keys(registered))
  }

  function VersionsToChange(cfg: Config, versions: map<int, Instance>, requested: seq<int>, blacklisted: set<int>): Plan {
    var q := Wanted(cfg, versions.Keys, requested, blacklisted);
    var r := Keys(versions.Keys);
    Plan(ToStart(cfg, versions.Keys, requested, blacklisted),
         Those(Intersection(q, r), Reloadable(cfg, versions)),
         Those(Difference(r, q), NotEnding(versions)))
  }

  /** Planning has one side effect: a version to reload whose custom-loader options
      changed is flagged. */
  function Flagged(cfg: Config, versions: map<int, Instance>, reload: seq<int>): map<int, Instance> {
    map v | v in versions ::
      if v in reload && CustomLoaderChanged(versions[v].config, cfg)
      then versions[v].(loaderChanged := true)
      else versions[v]
  }

  function AfterPlanning(cfg: Config, st: ModelState, reload: seq<int>): ModelState {
    st.(versions := Flagged(cfg, st.versions, reload))
  }

  method GetVersionsToChange(cfg: Config, model: Model, requestedVersions: seq<int>, blacklisted: set<int>)
    returns (plan: Plan)
    requires model.Valid()
    modifies model.modelVersions.Values
    ensures model.Valid() && model.modelVersions == old(model.modelVersions)
    ensures plan == VersionsToChange(cfg, old(model.Instances()), requestedVersions, blacklisted)
    ensures model.View() == AfterPlanning(cfg, old(model.View()), plan.reload)
  {
    ghost var m := model.Instances();
    var requested, registered, retire := PlanRetirement(cfg, model, requestedVersions, blacklisted);
    var reload := PlanReloads(cfg, model, Intersection(requested, registered));
    plan := Plan(Difference(requested, registered), reload, retire);
    PlanIs(cfg, m, requestedVersions, blacklisted, requested, registered, plan);
  }

  method PlanRetirement(cfg: Config, model: Model, requestedVersions: seq<int>, blacklisted: set<int>)
    returns (requested: seq<int>, registered: seq<int>, retire: seq<int>)
    ensures requested == Wanted(cfg, model.Instances().Keys, requestedVersions, blacklisted)
    ensures registered == Keys(model.Instances().Keys)
    ensures retire == Those(Difference(registered, requested), NotEnding(model.Instances()))
  {
    assert model.modelVersions.Keys == model.Instances().Keys;
    requested := Requested(cfg, model, requestedVersions, blacklisted);
    registered := Keys(model.modelVersions.Keys);
    retire := KeepNotEnding(model, Difference(registered, requested));
  }

  lemma PlanIs(cfg: Config, versions: map<int, Instance>, requestedVersions: seq<int>, blacklisted: set<int>,
               requested: seq<int>, registered: seq<int>, plan: Plan)
    requires requested == Wanted(cfg, versions.Keys, requestedVersions, blacklisted) && registered == Keys(versions.Keys)
    requires plan.start == Difference(requested, registered)
    requires plan.reload == Those(Intersection(requested, registered), Reloadable(cfg, versions))
    requires plan.retire == Those(Difference(registered, requested), NotEnding(versions))
    ensures plan == VersionsToChange(cfg, versions, requestedVersions, blacklisted)
  {
  }

  method Requested(cfg: Config, model: Model, requestedVersions: seq<int>, blacklisted: set<int>) returns (requested: seq<int>)
    ensures requested == Wanted(cfg, model.Instances().Keys, requestedVersions, blacklisted)
  {
    requested := Sort(requestedVersions);
    assert model.modelVersions.Keys == model.Instances().Keys;
    if cfg.CustomLoaderRequired() {
      requested := RemoveBlacklisted(requested, Keys(model.modelVersions.Keys), blacklisted);
    }
  }

  method PlanReloads(cfg: Config, model: Model, both: seq<int>) returns (reload: seq<int>)
    requires model.Valid()
    modifies model.modelVersions.Values
    ensures model.Valid() && model.modelVersions == old(model.modelVersions)
    ensures reload == Those(both, Reloadable(cfg, old(model.Instances())))
    ensures model.View() == AfterPlanning(cfg, old(model.View()), reload)
  {
    ghost var m := model.Instances();
    reload := [];
    assert Flagged(cfg, m, []) == m;
    var i := 0;
    while i < |both|
      invariant 0 <= i <= |both|
      invariant model.Valid() && model.modelVersions == old(model.modelVersions)
      invariant reload == Those(both[..i], Reloadable(cfg, m))
      invariant model.View() == old(model.View()).(versions := Flagged(cfg, m, reload))
    {
      assert both[..i+1][..i] == both[..i];
      reload := PlanReload(cfg, model, m, both[i], reload);
      i := i + 1;
    }
    assert both[..i] == both;
  }

  /** One round of the reload loop. A version missing from the map is skipped, as the
      out_of_range handler does. */
  method PlanReload(cfg: Config, model: Model, ghost instances: map<int, Instance>, version: int, reloadBefore: seq<int>)
    returns (reload: seq<int>)
    requires model.Valid() && model.Instances() == Flagged(cfg, instances, reloadBefore)
    modifies model.modelVersions.Values
    ensures model.Valid() && model.modelVersions == old(model.modelVersions)
    ensures reload == if version in instances && NeedsReload(instances[version], cfg) then reloadBefore + [version] else reloadBefore
    ensures model.View() == old(model.View()).(versions := Flagged(cfg, instances, reload))
  {
    reload := reloadBefore;
    assert model.modelVersions.Keys == model.Instances().Keys == instances.Keys;
    if version in model.modelVersions {
      var instance := model.modelVersions[version];
      assert instance.View() == Flagged(cfg, instances, reload)[version];
      var required := IsReloadRequired(instance.config, cfg);
      if instance.status.WillEndUnloaded() || instance.status.IsFailedLoading() || required {
        var changed := IsCustomLoaderConfigChanged(instance.config, cfg);
        reload := reload + [version];
        if changed {
          instance.SetCustomLoaderConfigChangeFlag();
        }
        FlagOne(cfg, instances, reloadBefore, version);
        model.OneChanged(version);
      }
    }
  }

  /** After planning the flag of a version is set exactly if it was set before, or the
      version is to be reloaded with other custom-loader options. Nothing else changes. */
  lemma FlagExact(cfg: Config, versions: map<int, Instance>, reload: seq<int>, v: int)
    requires v in versions
    ensures Flagged(cfg, versions, reload).Keys == versions.Keys
    ensures var i := Flagged(cfg, versions, reload)[v];
            && (i.loaderChanged
                <==> versions[v].loaderChanged
                     || (v in reload && versions[v].config.serving.customLoaderOptions != cfg.serving.customLoaderOptions))
            && i.status == versions[v].status && i.config == versions[v].config
  {
  }

  lemma FlagOne(cfg: Config, instances: map<int, Instance>, reload: seq<int>, v: int)
    requires v in instances
    ensures Flagged(cfg, instances, reload + [v])
            == if CustomLoaderChanged(instances[v].config, cfg)
               then Flagged(cfg, instances, reload)[v := instances[v].(loaderChanged := true)]
               else Flagged(cfg, instances, reload)
  {
    forall u | u in instances ensures u in reload + [v] <==> u in reload || u == v {
    }
  }

  method RemoveBlacklisted(requestedVersions: seq<int>, registered: seq<int>, blacklisted: set<int>) returns (requested: seq<int>)
    ensures requested == WithoutAll(requestedVersions, Those(registered, blacklisted))
  {
    requested := requestedVersions;
    var i := 0;
    while i < |registered|
      invariant 0 <= i <= |registered|
      invariant requested == WithoutAll(requestedVersions, Those(registered[..i], blacklisted))
    {
      assert registered[..i+1][..i] == registered[..i];
      if registered[i] in blacklisted {
        WithoutAllAppend(requestedVersions, Those(registered[..i], blacklisted), registered[i]);
        requested := Without(requested, registered[i]);
      }
      i := i + 1;
    }
    assert registered[..i] == registered;
  }

  lemma {:induction false} WithoutAllAppend(s: seq<int>, vs: seq<int>, v: int)
    ensures WithoutAll(s, vs + [v]) == Without(WithoutAll(s, vs), v)
    decreases vs
  {
    if vs == [] {
      assert [] + [v] == [v];
      assert [v][1..] == [];
    } else {
      assert (vs + [v])[1..] == vs[1..] + [v];
      WithoutAllAppend(Without(s, vs[0]), vs[1..], v);
    }
  }

  method KeepNotEnding(model: Model, versions: seq<int>) returns (kept: seq<int>)
    ensures kept == Those(versions, NotEnding(model.Instances()))
  {
    ghost var m := model.Instances();
    kept := [];
    var i := 0;
    while i < |versions|
      invariant 0 <= i <= |versions|
      invariant kept == Those(versions[..i], NotEnding(m))
    {
      assert versions[..i+1][..i] == versions[..i];
      if versions[i] in model.modelVersions {
        var ending := model.modelVersions[versions[i]].status.WillEndUnloaded();
        assert m[versions[i]] == model.modelVersions[versions[i]].View();
        if !ending {
          kept := kept + [versions[i]];
        }
      }
      i := i + 1;
    }
    assert versions[..i] == versions;
  }

  // ---- reloadModelWithVersions ----

  datatype Code = OK | OK_RELOADED | SUBSCRIBED_DYNAMIC | UNREADABLE | LOAD_FAILED | RETIRE_FAILED

  /** What one call sees of the world around the model: whether a pipeline subscribes
      to it, the versions found on disk (None if they cannot be read), and the custom
      loader (None if it is not registered) with the versions it blacklists. */
  datatype World = World(subscribed: bool, listing: Option<seq<int>>, loader: Option<set<int>>)

  /** The local state of the call between two rounds of the fallback loop. */
  datatype Round = Round(
    state: ModelState,
    available: seq<int>,
    plan: Plan,
    failed: seq<int>,
    allFailed: set<int>,
    ok: bool)

  predicate DynamicParameterEnabled(cfg: Config) {
    cfg.serving.batchingMode == AUTO || exists n :: n in cfg.serving.shapes && cfg.serving.shapes[n].shapeMode == AUTO
  }

  /** The removal of failed versions; it looks for them with std::binary_search. */
  function RemoveFailed(available: seq<int>, failed: seq<int>): (r: seq<int>)
    ensures |r| <= |available|
  {
    if failed == [] then available
    else
      var a := RemoveFailed(available, failed[..|failed| - 1]);
      var v := failed[|failed| - 1];
      if BinarySearch(a, v) then Without(a, v) else a
  }

  function Planned(cfg: Config, blacklisted: set<int>, st: ModelState, available: seq<int>,
                   failed: seq<int>, allFailed: set<int>, ok: bool): Round
  {
    var plan := VersionsToChange(cfg, st.versions, Filter(cfg.policy, available), blacklisted);
    Round(AfterPlanning(cfg, st, plan.reload), available, plan, failed, allFailed, ok)
  }

  function NextRound(env: Oracle, cfg: Config, blacklisted: set<int>, r: Round): Round {
    var b := AddMany(env, cfg, r.state, r.plan.start);
    if b.ok then r.(state := b.state, failed := b.failed, ok := true)
    else
      Planned(cfg, blacklisted, b.state, RemoveFailed(r.available, b.failed), b.failed,
              r.allFailed + ToSet(b.failed), false)
  }

  /** Some version is listed twice and binary search does not find it. */
  ghost predicate Stuck(available: seq<int>) {
    exists v :: multiset(available)[v] >= 2 && !BinarySearch(available, v)
  }

  /** No removal of failed versions gets the list stuck. */
  ghost predicate NeverStuck(available: seq<int>) {
    forall vs: seq<int> :: !Stuck(RemoveFailed(available, vs))
  }

  ghost predicate Pending(cfg: Config, blacklisted: set<int>, r: Round) {
    && cfg.policy.Valid()
    && r.plan.start == ToStart(cfg, r.state.versions.Keys, Filter(cfg.policy, r.available), blacklisted)
  }

  /** The round that follows a failing one; None when the loop is over. */
  function Retry(env: Oracle, cfg: Config, blacklisted: set<int>): Round -> Option<Round> {
    (r: Round) =>
      if r.plan.start == [] then None
      else
        var n := NextRound(env, cfg, blacklisted, r);
        if n.ok then None else Some(n)
  }

  /** The fallback loop ends. */
  ghost predicate Ends(env: Oracle, cfg: Config, blacklisted: set<int>, r: Round) {
    Stops(Retry(env, cfg, blacklisted), r)
  }

  /** The number of failing rounds left. */
  ghost function RoundsLeft(env: Oracle, cfg: Config, blacklisted: set<int>, r: Round): nat
    requires Ends(env, cfg, blacklisted, r)
  {
    StepsLeft(Retry(env, cfg, blacklisted), r)
  }

  lemma EndsNext(env: Oracle, cfg: Config, blacklisted: set<int>, r: Round)
    requires Ends(env, cfg, blacklisted, r) && r.plan.start != [] && !NextRound(env, cfg, blacklisted, r).ok
    ensures var n := NextRound(env, cfg, blacklisted, r);
            Ends(env, cfg, blacklisted, n) && RoundsLeft(env, cfg, blacklisted, n) < RoundsLeft(env, cfg, blacklisted, r)
  {
    StopsNext(Retry(env, cfg, blacklisted), r);
  }

  /** The round with which the loop ends. */
  ghost function Fallback(env: Oracle, cfg: Config, blacklisted: set<int>, r: Round): Round
    requires Ends(env, cfg, blacklisted, r)
    decreases RoundsLeft(env, cfg, blacklisted, r)
  {
    if r.plan.start == [] then r
    else
      var n := NextRound(env, cfg, blacklisted, r);
      if n.ok then n
      else
        EndsNext(env, cfg, blacklisted, r);
        Fallback(env, cfg, blacklisted, n)
  }

  function AfterReload(env: Oracle, cfg: Config, r: Round): Round {
    if r.plan.reload == [] then r
    else
      var b := ReloadMany(env, cfg, r.state, r.plan.reload, r.failed);
      r.(state := b.state, failed := b.failed, ok := r.ok && b.ok)
  }

  function FinalPlan(cfg: Config, blacklisted: set<int>, r: Round): Round {
    Planned(cfg, blacklisted, r.state, RemoveFailed(r.available, r.failed), r.failed,
            r.allFailed + ToSet(r.failed), r.ok)
  }

  /** Retires what dropped out, cleans up what failed and dropped out. */
  function Execute(r: Round, reloadNeeded: bool): (ModelState, Code) {
    var retire := Those(r.plan.retire, ToSet(r.plan.retire) - r.allFailed);
    var cleanup := Those(r.plan.retire, r.allFailed);
    var (st1, ok1) := if retire == [] then (r.state, true) else RetireMany(r.state, retire);
    if !ok1 then (st1, RETIRE_FAILED)
    else
      var (st2, ok2) := if cleanup == [] then (st1, true) else CleanMany(st1, cleanup);
      if !ok2 then (st2, RETIRE_FAILED)
      else (st2, if r.ok then (if reloadNeeded then OK_RELOADED else Code.OK) else LOAD_FAILED)
  }

  function FirstRound(cfg: Config, blacklisted: set<int>, st: ModelState, available: seq<int>): Round {
    Planned(cfg, blacklisted, st, available, [], {}, true)
  }

  /** The call comes back from its fallback loop. */
  ghost predicate Returns(env: Oracle, cfg: Config, blacklisted: set<int>, available: seq<int>, st: ModelState) {
    cfg.policy.Valid() && Ends(env, cfg, blacklisted, FirstRound(cfg, blacklisted, st, available))
  }

  ghost function ReconcileListed(env: Oracle, cfg: Config, blacklisted: set<int>, available: seq<int>, st: ModelState)
    : (ModelState, Code)
    requires Returns(env, cfg, blacklisted, available, st)
  {
    var r := FirstRound(cfg, blacklisted, st, available);
    var reloadNeeded := r.plan.start != [] || r.plan.reload != [] || r.plan.retire != [];
    var n := Fallback(env, cfg, blacklisted, r);
    Execute(FinalPlan(cfg, blacklisted, AfterReload(env, cfg, n)), reloadNeeded)
  }

  function Blacklisted(w: World): set<int> {
    if w.loader.Some? then w.loader.value else {}
  }

  /** The call gets as far as planning. */
  predicate GetsToPlan(cfg: Config, w: World) {
    && !(w.subscribed && DynamicParameterEnabled(cfg))
    && w.listing.Some?
    && !(cfg.CustomLoaderRequired() && w.loader.None?)
  }

  ghost function Reconcile(env: Oracle, cfg: Config, w: World, st: ModelState): (ModelState, Code)
    requires GetsToPlan(cfg, w) ==> Returns(env, cfg, Blacklisted(w), w.listing.value, st)
  {
    if w.subscribed && DynamicParameterEnabled(cfg) then (st, SUBSCRIBED_DYNAMIC)
    else if w.listing.None? then (st, UNREADABLE)
    else if cfg.CustomLoaderRequired() && w.loader.None? then (RetireAll(st, Keys(st.versions.Keys)), Code.OK)
    else ReconcileListed(env, cfg, Blacklisted(w), w.listing.value, st)
  }

  method RemoveFailedVersions(available: seq<int>, failed: seq<int>) returns (remaining: seq<int>)
    ensures remaining == RemoveFailed(available, failed)
  {
    remaining := available;
    var i := 0;
    while i < |failed|
      invariant 0 <= i <= |failed|
      invariant remaining == RemoveFailed(available, failed[..i])
    {
      assert failed[..i+1][..i] == failed[..i];
      if BinarySearch(remaining, failed[i]) {
        remaining := Without(remaining, failed[i]);
      }
      i := i + 1;
    }
    assert failed[..i] == failed;
  }

  /** Applies the policy to the remaining versions and plans again. */
  method PlanVersions(cfg: Config, blacklisted: set<int>, model: Model, available: seq<int>,
                      ghost failed: seq<int>, ghost allFailed: set<int>, ghost ok: bool) returns (plan: Plan)
    requires model.Valid()
    modifies model.modelVersions.Values
    ensures model.Valid() && model.modelVersions == old(model.modelVersions)
    ensures Round(model.View(), available, plan, failed, allFailed, ok)
            == Planned(cfg, blacklisted, old(model.View()), available, failed, allFailed, ok)
  {
    ghost var before := model.View();
    var requested := FilterVersions(cfg.policy, available);
    plan := GetVersionsToChange(cfg, model, requested, blacklisted);
    PlannedIs(cfg, blacklisted, before, available, failed, allFailed, ok, plan);
  }

  lemma PlannedIs(cfg: Config, blacklisted: set<int>, st: ModelState, available: seq<int>,
                  failed: seq<int>, allFailed: set<int>, ok: bool, plan: Plan)
    requires plan == VersionsToChange(cfg, st.versions, Filter(cfg.policy, available), blacklisted)
    ensures Planned(cfg, blacklisted, st, available, failed, allFailed, ok)
            == Round(AfterPlanning(cfg, st, plan.reload), available, plan, failed, allFailed, ok)
  {
  }

  /** The fallback loop: start versions, and on failure plan again without the
      failed ones. */
  method StartWithFallback(env: Oracle, cfg: Config, blacklisted: set<int>, model: Model, available: seq<int>, first: Plan)
    returns (remaining: seq<int>, plan: Plan, versionsFailed: seq<int>, allFailedVersions: set<int>, ok: bool)
    requires model.Valid()
    requires Ends(env, cfg, blacklisted, Round(model.View(), available, first, [], {}, true))
    modifies model, model.modelVersions.Values
    ensures model.Valid() && fresh(model.modelVersions.Values - old(model.modelVersions.Values))
    ensures Round(model.View(), remaining, plan, versionsFailed, allFailedVersions, ok)
            == Fallback(env, cfg, blacklisted, Round(old(model.View()), available, first, [], {}, true))
  {
    remaining, plan, versionsFailed, allFailedVersions, ok := available, first, [], {}, true;
    ghost var r := Round(model.View(), available, first, [], {}, true);
    ghost var start := r;
    ghost var owned := model.modelVersions.Values;
    while plan.start != []
      invariant model.Valid()
      invariant forall o :: o in model.modelVersions.Values ==> o in owned || fresh(o)
      invariant r == Round(model.View(), remaining, plan, versionsFailed, allFailedVersions, ok)
      invariant Ends(env, cfg, blacklisted, r)
      invariant Fallback(env, cfg, blacklisted, r) == Fallback(env, cfg, blacklisted, start)
      decreases RoundsLeft(env, cfg, blacklisted, r)
    {
      FallbackUnfold(env, cfg, blacklisted, r);
      ok, remaining, plan, versionsFailed, allFailedVersions :=
        OneRound(env, cfg, blacklisted, model, remaining, plan, versionsFailed, allFailedVersions, ok, r);
      if ok {
        return;
      }
      r := NextRound(env, cfg, blacklisted, r);
    }
  }

  /** One pass through the body of the loop. */
  method OneRound(env: Oracle, cfg: Config, blacklisted: set<int>, model: Model, available: seq<int>, first: Plan,
                  failedBefore: seq<int>, allFailedBefore: set<int>, okBefore: bool, ghost r: Round)
    returns (ok: bool, remaining: seq<int>, plan: Plan, failed: seq<int>, allFailed: set<int>)
    requires model.Valid()
    requires r == Round(model.View(), available, first, failedBefore, allFailedBefore, okBefore)
    modifies model, model.modelVersions.Values
    ensures model.Valid()
    ensures forall o :: o in model.modelVersions.Values ==> o in old(model.modelVersions.Values) || fresh(o)
    ensures Round(model.View(), remaining, plan, failed, allFailed, ok) == NextRound(env, cfg, blacklisted, r)
  {
    remaining, plan, allFailed := available, first, allFailedBefore;
    ok, failed := model.AddVersions(env, cfg, first.start);
    if !ok {
      remaining, plan, allFailed := PlanRetry(env, cfg, blacklisted, model, r, available, failed, allFailedBefore);
    }
  }

  method PlanRetry(env: Oracle, cfg: Config, blacklisted: set<int>, model: Model, ghost previous: Round,
                   available: seq<int>, failed: seq<int>, allFailedBefore: set<int>)
    returns (remaining: seq<int>, plan: Plan, allFailed: set<int>)
    requires model.Valid()
    requires previous.available == available && previous.allFailed == allFailedBefore
    requires Batch(model.View(), failed, false) == AddMany(env, cfg, previous.state, previous.plan.start)
    modifies model.modelVersions.Values
    ensures model.Valid() && model.modelVersions == old(model.modelVersions)
    ensures Round(model.View(), remaining, plan, failed, allFailed, false) == NextRound(env, cfg, blacklisted, previous)
  {
    remaining := RemoveFailedVersions(available, failed);
    allFailed := allFailedBefore + ToSet(failed);
    ghost var before := model.View();
    plan := PlanVersions(cfg, blacklisted, model, remaining, failed, allFailed, false);
    NextRoundIs(env, cfg, blacklisted, previous, before, remaining, failed, allFailed);
  }

  lemma NextRoundIs(env: Oracle, cfg: Config, blacklisted: set<int>, r: Round, st: ModelState, remaining: seq<int>,
                    failed: seq<int>, allFailed: set<int>)
    requires Batch(st, failed, false) == AddMany(env, cfg, r.state, r.plan.start)
    requires remaining == RemoveFailed(r.available, failed) && allFailed == r.allFailed + ToSet(failed)
    ensures NextRound(env, cfg, blacklisted, r) == Planned(cfg, blacklisted, st, remaining, failed, allFailed, false)
  {
  }

  lemma FallbackUnfold(env: Oracle, cfg: Config, blacklisted: set<int>, r: Round)
    requires Ends(env, cfg, blacklisted, r) && r.plan.start != []
    ensures var n := NextRound(env, cfg, blacklisted, r);
            if n.ok then Fallback(env, cfg, blacklisted, r) == n
            else
              && Ends(env, cfg, blacklisted, n) && RoundsLeft(env, cfg, blacklisted, n) < RoundsLeft(env, cfg, blacklisted, r)
              && Fallback(env, cfg, blacklisted, r) == Fallback(env, cfg, blacklisted, n)
  {
    if !NextRound(env, cfg, blacklisted, r).ok {
      EndsNext(env, cfg, blacklisted, r);
    }
  }

  lemma NextPending(env: Oracle, cfg: Config, blacklisted: set<int>, r: Round)
    requires Pending(cfg, blacklisted, r) && !NextRound(env, cfg, blacklisted, r).ok
    ensures Pending(cfg, blacklisted, NextRound(env, cfg, blacklisted, r))
  {
    var b := AddMany(env, cfg, r.state, r.plan.start);
    PlannedPending(cfg, blacklisted, b.state, RemoveFailed(r.available, b.failed), b.failed, r.allFailed + ToSet(b.failed), false);
  }

  method PartitionFailed(versions: seq<int>, allFailed: set<int>) returns (retire: seq<int>, cleanup: seq<int>)
    ensures retire == Those(versions, ToSet(versions) - allFailed)
    ensures cleanup == Those(versions, allFailed)
  {
    retire, cleanup := [], [];
    var i := 0;
    while i < |versions|
      invariant 0 <= i <= |versions|
      invariant retire == Those(versions[..i], ToSet(versions) - allFailed)
      invariant cleanup == Those(versions[..i], allFailed)
    {
      assert versions[..i+1][..i] == versions[..i];
      if versions[i] in allFailed {
        cleanup := cleanup + [versions[i]];
      } else {
        retire := retire + [versions[i]];
      }
      i := i + 1;
    }
    assert versions[..i] == versions;
  }

  method ExecuteFinalPlan(model: Model, toRetire: seq<int>, allFailed: set<int>, ok: bool, reloadNeeded: bool,
                          ghost r: Round) returns (code: Code)
    requires model.Valid()
    requires r.state == model.View() && r.plan.retire == toRetire && r.allFailed == allFailed && r.ok == ok
    modifies model, model.modelVersions.Values
    ensures model.Valid()
    ensures (model.View(), code) == Execute(r, reloadNeeded)
  {
    var versionsToRetire, versionsToCleanup := PartitionFailed(toRetire, allFailed);
    if versionsToRetire != [] {
      var status := model.RetireVersions(versionsToRetire);
      if !status {
        return RETIRE_FAILED;
      }
    }
    if versionsToCleanup != [] {
      var status := model.CleanupFailedLoad(versionsToCleanup);
      if !status {
        return RETIRE_FAILED;
      }
    }
    if ok && reloadNeeded {
      return OK_RELOADED;
    }
    return if ok then Code.OK else LOAD_FAILED;
  }

  method ReconcileVersions(env: Oracle, cfg: Config, blacklisted: set<int>, listed: seq<int>, model: Model) returns (code: Code)
    requires model.Valid() && Returns(env, cfg, blacklisted, listed, model.View())
    modifies model, model.modelVersions.Values
    ensures model.Valid()
    ensures (model.View(), code) == ReconcileListed(env, cfg, blacklisted, listed, old(model.View()))
  {
    var plan := PlanVersions(cfg, blacklisted, model, listed, [], {}, true);
    var reloadNeeded := plan.start != [] || plan.reload != [] || plan.retire != [];
    var available, versionsFailed, allFailed, ok;
    available, plan, versionsFailed, allFailed, ok := StartWithFallback(env, cfg, blacklisted, model, listed, plan);
    code := ReloadAndRetire(env, cfg, blacklisted, available, plan, versionsFailed, allFailed, ok, reloadNeeded, model);
  }

  method ReloadAndRetire(env: Oracle, cfg: Config, blacklisted: set<int>, available: seq<int>, plan: Plan,
                         versionsFailed: seq<int>, allFailedVersions: set<int>, blockingOk: bool, reloadNeeded: bool,
                         model: Model) returns (code: Code)
    requires model.Valid()
    modifies model, model.modelVersions.Values
    ensures model.Valid()
    ensures (model.View(), code)
            == Execute(FinalPlan(cfg, blacklisted, AfterReload(env, cfg,
                                 Round(old(model.View()), available, plan, versionsFailed, allFailedVersions, blockingOk))),
                       reloadNeeded)
    ensures !blockingOk || (plan.reload != [] && !ReloadMany(env, cfg, old(model.View()), plan.reload, versionsFailed).ok) ==>
              code == LOAD_FAILED || code == RETIRE_FAILED
  {
    var failed, ok := versionsFailed, blockingOk;
    if plan.reload != [] {
      var status;
      status, failed := model.ReloadVersions(env, cfg, plan.reload, versionsFailed);
      ok := ok && status;
    }
    ghost var reloaded := AfterReload(env, cfg, Round(old(model.View()), available, plan, versionsFailed, allFailedVersions, blockingOk));
    assert reloaded == Round(model.View(), available, plan, failed, allFailedVersions, ok);
    code := PlanAndExecute(cfg, blacklisted, available, failed, allFailedVersions, ok, reloadNeeded, model, reloaded);
  }

  method PlanAndExecute(cfg: Config, blacklisted: set<int>, available: seq<int>, failed: seq<int>, allFailedVersions: set<int>,
                        ok: bool, reloadNeeded: bool, model: Model, ghost reloaded: Round) returns (code: Code)
    requires model.Valid()
    requires reloaded.(plan := Plan([], [], [])) == Round(model.View(), available, Plan([], [], []), failed, allFailedVersions, ok)
    modifies model, model.modelVersions.Values
    ensures model.Valid()
    ensures (model.View(), code) == Execute(FinalPlan(cfg, blacklisted, reloaded), reloadNeeded)
  {
    var remaining := RemoveFailedVersions(available, failed);
    var allFailed := allFailedVersions + ToSet(failed);
    ghost var before := model.View();
    var plan := PlanVersions(cfg, blacklisted, model, remaining, failed, allFailed, ok);
    FinalPlanIs(cfg, blacklisted, reloaded, before, remaining, failed, allFailed, ok);
    code := ExecuteFinalPlan(model, plan.retire, allFailed, ok, reloadNeeded,
                             Round(model.View(), remaining, plan, failed, allFailed, ok));
  }

  lemma FinalPlanIs(cfg: Config, blacklisted: set<int>, r: Round, st: ModelState, remaining: seq<int>,
                    failed: seq<int>, allFailed: set<int>, ok: bool)
    requires r.state == st && remaining == RemoveFailed(r.available, r.failed) && failed == r.failed
    requires allFailed == r.allFailed + ToSet(failed) && ok == r.ok
    ensures FinalPlan(cfg, blacklisted, r) == Planned(cfg, blacklisted, st, remaining, failed, allFailed, ok)
  {
  }

  // ---- the loop ends ----

  lemma PlannedPending(cfg: Config, blacklisted: set<int>, st: ModelState, available: seq<int>,
                       failed: seq<int>, allFailed: set<int>, ok: bool)
    requires cfg.policy.Valid()
    ensures var r := Planned(cfg, blacklisted, st, available, failed, allFailed, ok);
            Pending(cfg, blacklisted, r) && r.available == available && r.state.versions.Keys == st.versions.Keys
  {
    var requested := Filter(cfg.policy, available);
    var plan := VersionsToChange(cfg, st.versions, requested, blacklisted);
    assert Flagged(cfg, st.versions, plan.reload).Keys == st.versions.Keys;
  }

  lemma SetAppend(s: seq<int>, v: int)
    ensures ToSet(s + [v]) == ToSet(s) + {v}
  {
  }

  lemma {:induction false} AddManyDomain(env: Oracle, cfg: Config, st: ModelState, vs: seq<int>)
    ensures AddMany(env, cfg, st, vs).state.versions.Keys == st.versions.Keys + ToSet(vs)
  {
    if vs != [] {
      var front := vs[..|vs| - 1];
      AddManyDomain(env, cfg, st, front);
      assert vs == front + [vs[|vs| - 1]];
      SetAppend(front, vs[|vs| - 1]);
    }
  }

  lemma {:induction false} AddManyFailed(env: Oracle, cfg: Config, st: ModelState, vs: seq<int>)
    ensures var b := AddMany(env, cfg, st, vs);
            ToSet(b.failed) <= ToSet(vs) && (b.ok <==> b.failed == [])
  {
    if vs != [] {
      var front := vs[..|vs| - 1];
      AddManyFailed(env, cfg, st, front);
      assert vs == front + [vs[|vs| - 1]];
      SetAppend(front, vs[|vs| - 1]);
      SetAppend(AddMany(env, cfg, st, front).failed, vs[|vs| - 1]);
    }
  }

  lemma AddManyKeys(env: Oracle, cfg: Config, st: ModelState, vs: seq<int>)
    ensures var b := AddMany(env, cfg, st, vs);
            && b.state.versions.Keys == st.versions.Keys + ToSet(vs)
            && ToSet(b.failed) <= ToSet(vs)
            && (b.ok <==> b.failed == [])
  {
    AddManyDomain(env, cfg, st, vs);
    AddManyFailed(env, cfg, st, vs);
  }

  lemma {:induction false} RemoveFailedSubset(available: seq<int>, failed: seq<int>)
    ensures ToSet(RemoveFailed(available, failed)) <= ToSet(available)
    ensures ToSet(available) - ToSet(failed) <= ToSet(RemoveFailed(available, failed))
    ensures NoDup(available) ==> NoDup(RemoveFailed(available, failed))
    ensures Ascending(available) ==> Ascending(RemoveFailed(available, failed))
  {
    if failed == [] {
    } else {
      var front := failed[..|failed| - 1];
      var v := failed[|failed| - 1];
      assert failed == front + [v];
      RemoveFailedSubset(available, front);
      assert ToSet(failed) == ToSet(front) + {v};
      WithoutSet(RemoveFailed(available, front), v);
      WithoutKeepsOrder(RemoveFailed(available, front), v);
    }
  }

  /** On an ascending list every failed version is found and removed. */
  lemma {:induction false} RemoveFailedAscending(available: seq<int>, failed: seq<int>)
    requires Ascending(available)
    ensures ToSet(RemoveFailed(available, failed)) == ToSet(available) - ToSet(failed)
    ensures (exists x :: x in failed && x in available) ==> |RemoveFailed(available, failed)| < |available|
  {
    if failed == [] {
    } else {
      var front := failed[..|failed| - 1];
      var v := failed[|failed| - 1];
      assert failed == front + [v];
      RemoveFailedSubset(available, front);
      RemoveFailedAscending(available, front);
      var a := RemoveFailed(available, front);
      BinarySearchAscending(a, v);
      assert ToSet(failed) == ToSet(front) + {v};
      WithoutSet(a, v);
      if !BinarySearch(a, v) {
        assert v !in ToSet(a);
      }
      if v in a {
        assert |Without(a, v)| < |a|;
      }
    }
  }

  function Work(r: Round): nat {
    |ToSet(r.available) - r.state.versions.Keys| + |r.available|
  }

  /** Every failing round leaves less to do, although the set of wanted versions
      changes from round to round; for a list without duplicates the number of available
      versions that are not registered decreases by itself. */
  lemma FallbackProgress(env: Oracle, cfg: Config, blacklisted: set<int>, r: Round)
    requires Pending(cfg, blacklisted, r) && NeverStuck(r.available)
    requires r.plan.start != [] && !AddMany(env, cfg, r.state, r.plan.start).ok
    ensures var n := NextRound(env, cfg, blacklisted, r);
            && !n.ok && Pending(cfg, blacklisted, n) && NeverStuck(n.available) && Work(n) < Work(r)
            && (NoDup(r.available) ==>
                  |ToSet(n.available) - n.state.versions.Keys| < |ToSet(r.available) - r.state.versions.Keys|)
  {
    NextStage(env, cfg, blacklisted, r);
    var failed := AddMany(env, cfg, r.state, r.plan.start).failed;
    StillNeverStuck(r.available, failed);
    StartIsAvailable(cfg, blacklisted, r);
    assert RemoveFailed(r.available, []) == r.available;
    LessWork(r.available, RemoveFailed(r.available, failed), failed, r.plan.start, r.state.versions.Keys);
  }

  /** List, registered versions and load attempts after a failing round. */
  lemma NextStage(env: Oracle, cfg: Config, blacklisted: set<int>, r: Round)
    requires Pending(cfg, blacklisted, r) && !AddMany(env, cfg, r.state, r.plan.start).ok
    ensures var n := NextRound(env, cfg, blacklisted, r);
            var b := AddMany(env, cfg, r.state, r.plan.start);
            && Pending(cfg, blacklisted, n) && n.available == RemoveFailed(r.available, b.failed)
            && n.state.versions.Keys == r.state.versions.Keys + ToSet(r.plan.start) && n.state.loads == b.state.loads
            && b.failed != [] && ToSet(b.failed) <= ToSet(r.plan.start)
  {
    var b := AddMany(env, cfg, r.state, r.plan.start);
    var a := RemoveFailed(r.available, b.failed);
    AddManyKeys(env, cfg, r.state, r.plan.start);
    PlannedPending(cfg, blacklisted, b.state, a, b.failed, r.allFailed + ToSet(b.failed), false);
    NextRoundIs(env, cfg, blacklisted, r, b.state, a, b.failed, r.allFailed + ToSet(b.failed));
  }

  lemma RetryIs(env: Oracle, cfg: Config, blacklisted: set<int>, r: Round)
    ensures Retry(env, cfg, blacklisted)(r)
            == if r.plan.start == [] || AddMany(env, cfg, r.state, r.plan.start).ok then None
               else Some(NextRound(env, cfg, blacklisted, r))
  {
  }

  /** On a list that no removal gets stuck the loop ends, whatever loads fail. */
  lemma NeverStuckEnds(env: Oracle, cfg: Config, blacklisted: set<int>, r: Round)
    requires Pending(cfg, blacklisted, r) && NeverStuck(r.available)
    ensures Ends(env, cfg, blacklisted, r)
  {
    var next := Retry(env, cfg, blacklisted);
    var p := (x: Round) => Pending(cfg, blacklisted, x) && NeverStuck(x.available);
    forall x | p(x) && next(x).Some? ensures p(next(x).value) && Work(next(x).value) < Work(x) {
      RetryIs(env, cfg, blacklisted, x);
      FallbackProgress(env, cfg, blacklisted, x);
    }
    StopsByRank(next, p, Work, r);
  }

  /** Lists without duplicates and ascending lists are such lists. */
  lemma NoDupNeverStuck(available: seq<int>)
    requires NoDup(available)
    ensures NeverStuck(available)
  {
    forall vs: seq<int> ensures !Stuck(RemoveFailed(available, vs)) {
      RemoveFailedSubset(available, vs);
    }
  }

  lemma AscendingNeverStuck(available: seq<int>)
    requires Ascending(available)
    ensures NeverStuck(available)
  {
    forall vs: seq<int> ensures !Stuck(RemoveFailed(available, vs)) {
      var a := RemoveFailed(available, vs);
      RemoveFailedSubset(available, vs);
      forall v | multiset(a)[v] >= 2 ensures BinarySearch(a, v) {
        assert v in multiset(a);
        BinarySearchAscending(a, v);
      }
    }
  }

  /** A call for a listing that no removal gets stuck returns, for every policy, state and
      outcome of its loads. */
  lemma NeverStuckReturns(env: Oracle, cfg: Config, blacklisted: set<int>, available: seq<int>, st: ModelState)
    requires cfg.policy.Valid() && NeverStuck(available)
    ensures Returns(env, cfg, blacklisted, available, st)
  {
    PlannedPending(cfg, blacklisted, st, available, [], {}, true);
    NeverStuckEnds(env, cfg, blacklisted, FirstRound(cfg, blacklisted, st, available));
  }

  /** Without duplicates in the listing the call returns. */
  lemma NoDupReturns(env: Oracle, cfg: Config, blacklisted: set<int>, available: seq<int>, st: ModelState)
    requires cfg.policy.Valid() && NoDup(available)
    ensures Returns(env, cfg, blacklisted, available, st)
  {
    NoDupNeverStuck(available);
    NeverStuckReturns(env, cfg, blacklisted, available, st);
  }

  lemma {:induction false} RemoveFailedTwice(available: seq<int>, a: seq<int>, b: seq<int>)
    ensures RemoveFailed(available, a + b) == RemoveFailed(RemoveFailed(available, a), b)
  {
    if b == [] {
      assert a + b == a;
    } else {
      assert (a + b)[..|a + b| - 1] == a + b[..|b| - 1];
      RemoveFailedTwice(available, a, b[..|b| - 1]);
    }
  }

  lemma StillNeverStuck(available: seq<int>, failed: seq<int>)
    requires NeverStuck(available)
    ensures NeverStuck(RemoveFailed(available, failed))
  {
    forall vs: seq<int> ensures !Stuck(RemoveFailed(RemoveFailed(available, failed), vs)) {
      RemoveFailedTwice(available, failed, vs);
    }
  }

  lemma {:induction false} RemoveMissed(available: seq<int>, failed: seq<int>)
    requires forall x :: x in failed ==> !BinarySearch(available, x)
    ensures RemoveFailed(available, failed) == available
  {
    if failed != [] {
      RemoveMissed(available, failed[..|failed| - 1]);
    }
  }

  /** When one version failed, all its copies go if it is found. */
  lemma {:induction false} RemoveOne(available: seq<int>, failed: seq<int>, v: int)
    requires failed != [] && forall x :: x in failed ==> x == v
    ensures RemoveFailed(available, failed) == if BinarySearch(available, v) then Without(available, v) else available
  {
    var front := failed[..|failed| - 1];
    assert failed[|failed| - 1] in failed;
    if front == [] {
      assert RemoveFailed(available, front) == available;
    } else {
      assert forall x :: x in front ==> x in failed;
      RemoveOne(available, front, v);
      NotFoundAgain(available, v);
    }
  }

  lemma NotFoundAgain(available: seq<int>, v: int)
    ensures !BinarySearch(Without(available, v), v)
  {
    WithoutMembers(available, v);
    if BinarySearch(Without(available, v), v) {
      BinarySearchSound(Without(available, v), v);
    }
  }

  /** When the first failed version is found, all its copies go. */
  lemma FoundIsRemoved(available: seq<int>, failed: seq<int>)
    requires failed != [] && BinarySearch(available, failed[0])
    ensures |RemoveFailed(available, failed)| < |available|
  {
    var f := failed[0];
    assert RemoveFailed(available, []) == available;
    assert failed == [f] + failed[1..];
    RemoveFailedTwice(available, [f], failed[1..]);
    assert [f][..0] == [];
    BinarySearchSound(available, f);
    assert RemoveFailed(available, [f]) == Without(available, f);
  }

  lemma LessWork(available: seq<int>, remaining: seq<int>, failed: seq<int>, start: seq<int>, registered: set<int>)
    requires remaining == RemoveFailed(available, failed)
    requires failed != [] && ToSet(failed) <= ToSet(start) <= ToSet(available)
    requires NoDup(available) ==> ToSet(start) !! registered
    requires forall v :: v in start && v in registered ==> BinarySearch(available, v)
    ensures |ToSet(remaining) - (registered + ToSet(start))| + |remaining| < |ToSet(available) - registered| + |available|
    ensures NoDup(available) ==> |ToSet(remaining) - (registered + ToSet(start))| < |ToSet(available) - registered|
  {
    RemoveFailedSubset(available, failed);
    var f := failed[0];
    assert f in ToSet(failed);
    assert f in ToSet(start) && f in ToSet(available);
    if f !in registered {
      LessToRegister(ToSet(available), ToSet(remaining), registered, registered + ToSet(start), f);
    } else {
      SubsetSize(ToSet(remaining) - (registered + ToSet(start)), ToSet(available) - registered);
      assert f in start;
      FoundIsRemoved(available, failed);
    }
  }

  lemma LessToRegister(available: set<int>, available': set<int>, registered: set<int>, registered': set<int>, v: int)
    requires available' <= available && registered <= registered'
    requires v in available && v !in registered && v in registered'
    ensures |available' - registered'| < |available - registered|
  {
    SubsetSize(available' - registered', available - registered - {v});
  }

  lemma StartIsAvailable(cfg: Config, blacklisted: set<int>, r: Round)
    requires Pending(cfg, blacklisted, r)
    ensures ToSet(r.plan.start) <= ToSet(r.available)
    ensures NoDup(r.available) ==> ToSet(r.plan.start) !! r.state.versions.Keys
    ensures NoDup(r.available) ==> NoDup(r.plan.start)
    ensures forall v :: v in r.plan.start && v in r.state.versions ==> multiset(r.available)[v] >= 2
  {
    var requested := Filter(cfg.policy, r.available);
    PlanCorrect(cfg, r.state.versions, requested, blacklisted);
    FilterSubset(cfg.policy, r.available);
    if NoDup(r.available) {
      FilterMeaning(cfg.policy, r.available);
    }
    forall v | v in r.plan.start && v in r.state.versions ensures multiset(r.available)[v] >= 2 {
      StartedAgain(cfg, r.state.versions.Keys, requested, blacklisted, v);
      FilterCount(cfg.policy, r.available);
    }
  }

  /** A registered version is planned to start only if it is requested more than once,
      and unless it is blacklisted whenever it is. */
  lemma StartedAgain(cfg: Config, registered: set<int>, requested: seq<int>, blacklisted: set<int>, v: int)
    requires v in registered
    ensures v in ToStart(cfg, registered, requested, blacklisted)
            <==> multiset(requested)[v] >= 2 && (cfg.CustomLoaderRequired() ==> v !in blacklisted)
  {
    var q := Wanted(cfg, registered, requested, blacklisted);
    var r := Keys(registered);
    WantedMembers(cfg, registered, requested, blacklisted);
    KeysOrdered(registered);
    var bad := Those(r, blacklisted);
    ThoseMembers(r, blacklisted);
    WithoutAllCount(Sort(requested), bad, v);
    SurplusCount(q, r, v);
  }

  lemma SurplusCount(q: seq<int>, r: seq<int>, v: int)
    requires Ascending(q) && Ascending(r) && NoDup(r) && v in r
    ensures v in Difference(q, r) <==> multiset(q)[v] >= 2
  {
    DifferenceLaw(q, r);
    InMultiset(r);
    InMultiset(Difference(q, r));
    assert v in multiset(r) && multiset(r)[v] == 1;
    assert v in Difference(q, r) <==> v in multiset(Difference(q, r));
  }

  lemma {:induction false} WithoutAllCount(s: seq<int>, vs: seq<int>, v: int)
    ensures multiset(WithoutAll(s, vs))[v] == if v in vs then 0 else multiset(s)[v]
    decreases vs
  {
    if vs != [] {
      WithoutAllCount(Without(s, vs[0]), vs[1..], v);
      assert vs == [vs[0]] + vs[1..];
    }
  }

  lemma ThoseMembers(s: seq<int>, keep: set<int>)
    ensures forall x :: x in Those(s, keep) <==> x in s && x in keep
    ensures Ascending(s) ==> Ascending(Those(s, keep))
    ensures NoDup(s) ==> NoDup(Those(s, keep))
  {
    ThoseContents(s, keep);
    if Ascending(s) {
      ThoseAscending(s, keep);
    }
    if NoDup(s) {
      ThoseNoDup(s, keep);
    }
  }

  lemma {:induction false} ThoseContents(s: seq<int>, keep: set<int>)
    ensures forall x :: x in Those(s, keep) <==> x in s && x in keep
  {
    if s != [] {
      var front := s[..|s| - 1];
      assert s == front + [s[|s| - 1]];
      ThoseContents(front, keep);
    }
  }

  lemma {:induction false} ThoseAscending(s: seq<int>, keep: set<int>)
    requires Ascending(s)
    ensures Ascending(Those(s, keep))
  {
    if s != [] {
      var front := s[..|s| - 1];
      var x := s[|s| - 1];
      ThoseAscending(front, keep);
      ThoseContents(front, keep);
      var t := Those(front, keep);
      assert forall i :: 0 <= i < |t| ==> t[i] in t && t[i] in front;
    }
  }

  lemma {:induction false} ThoseNoDup(s: seq<int>, keep: set<int>)
    requires NoDup(s)
    ensures NoDup(Those(s, keep))
  {
    if s != [] {
      var front := s[..|s| - 1];
      var x := s[|s| - 1];
      NoDupFront(s);
      ThoseNoDup(front, keep);
      ThoseContents(front, keep);
      var t := Those(front, keep);
      assert x !in t;
      assert (t + [x])[..|t|] == t;
      NoDupFront(t + [x]);
    }
  }

  lemma {:induction false} WithoutAllMembers(s: seq<int>, vs: seq<int>)
    ensures forall x :: x in WithoutAll(s, vs) <==> x in s && x !in vs
    ensures Ascending(s) ==> Ascending(WithoutAll(s, vs))
    ensures NoDup(s) ==> NoDup(WithoutAll(s, vs))
    decreases vs
  {
    if vs == [] {
    } else {
      WithoutMembers(s, vs[0]);
      WithoutKeepsOrder(s, vs[0]);
      WithoutAllMembers(Without(s, vs[0]), vs[1..]);
    }
  }

  /** The versions that a call wants to have registered. */
  function WantedSet(cfg: Config, registered: set<int>, requested: seq<int>, blacklisted: set<int>): set<int> {
    ToSet(requested) - (if cfg.CustomLoaderRequired() then registered * blacklisted else {})
  }

  lemma WantedMembers(cfg: Config, registered: set<int>, requested: seq<int>, blacklisted: set<int>)
    ensures Ascending(Wanted(cfg, registered, requested, blacklisted))
    ensures NoDup(requested) ==> NoDup(Wanted(cfg, registered, requested, blacklisted))
    ensures ToSet(Wanted(cfg, registered, requested, blacklisted)) == WantedSet(cfg, registered, requested, blacklisted)
  {
    SortAscending(requested);
    SameCount(Sort(requested), requested);
    var bad := Those(Keys(registered), blacklisted);
    ThoseMembers(Keys(registered), blacklisted);
    WithoutAllMembers(Sort(requested), bad);
    forall x ensures x in bad <==> x in registered * blacklisted {
    }
  }

  /** The plan, from any registered state and for any request: start is what is wanted
      and not registered, reload what is both and needs it, retire what is registered,
      not wanted and not ending already. All three are ascending and disjoint. Without
      duplicates in the request the first inclusion is an equivalence too. */
  lemma PlanCorrect(cfg: Config, versions: map<int, Instance>, requested: seq<int>, blacklisted: set<int>)
    ensures var p := VersionsToChange(cfg, versions, requested, blacklisted);
            var q := WantedSet(cfg, versions.Keys, requested, blacklisted);
            && Ascending(p.start) && Ascending(p.reload) && Ascending(p.retire)
            && NoDup(p.reload) && NoDup(p.retire)
            && q - versions.Keys <= ToSet(p.start) <= q
            && ToSet(p.reload) == q * Reloadable(cfg, versions)
            && ToSet(p.retire) == NotEnding(versions) - q
            && (NoDup(requested) ==> ToSet(p.start) == q - versions.Keys && NoDup(p.start))
  {
    StartCorrect(cfg, versions.Keys, requested, blacklisted);
    var q := Wanted(cfg, versions.Keys, requested, blacklisted);
    var r := Keys(versions.Keys);
    WantedMembers(cfg, versions.Keys, requested, blacklisted);
    KeysOrdered(versions.Keys);
    assert ToSet(r) == versions.Keys;
    ReloadMembers(q, r, Reloadable(cfg, versions));
    RetireMembers(q, r, NotEnding(versions));
  }

  lemma StartCorrect(cfg: Config, registered: set<int>, requested: seq<int>, blacklisted: set<int>)
    ensures var start := ToStart(cfg, registered, requested, blacklisted);
            var q := WantedSet(cfg, registered, requested, blacklisted);
            && Ascending(start) && q - registered <= ToSet(start) <= q
            && (NoDup(requested) ==> ToSet(start) == q - registered && NoDup(start))
  {
    WantedMembers(cfg, registered, requested, blacklisted);
    KeysOrdered(registered);
    assert ToSet(Keys(registered)) == registered;
    StartMembers(Wanted(cfg, registered, requested, blacklisted), Keys(registered));
  }

  lemma StartMembers(q: seq<int>, r: seq<int>)
    requires Ascending(q) && Ascending(r)
    ensures Ascending(Difference(q, r))
    ensures ToSet(q) - ToSet(r) <= ToSet(Difference(q, r)) <= ToSet(q)
    ensures NoDup(q) ==> NoDup(Difference(q, r)) && ToSet(Difference(q, r)) == ToSet(q) - ToSet(r)
  {
    DifferenceMembers(q, r);
    forall x | x in ToSet(q) - ToSet(r) ensures x in Difference(q, r) {
      assert x in q && x !in r;
    }
  }

  lemma ReloadMembers(q: seq<int>, r: seq<int>, keep: set<int>)
    requires Ascending(q) && Ascending(r) && NoDup(r) && keep <= ToSet(r)
    ensures var s := Those(Intersection(q, r), keep);
            Ascending(s) && NoDup(s) && ToSet(s) == ToSet(q) * keep
  {
    IntersectionMembers(q, r);
    ThoseMembers(Intersection(q, r), keep);
    var s := Those(Intersection(q, r), keep);
    forall x ensures x in ToSet(s) <==> x in ToSet(q) * keep {
      assert x in s <==> x in Intersection(q, r) && x in keep;
    }
  }

  lemma RetireMembers(q: seq<int>, r: seq<int>, keep: set<int>)
    requires Ascending(q) && Ascending(r) && NoDup(r) && keep <= ToSet(r)
    ensures var s := Those(Difference(r, q), keep);
            Ascending(s) && NoDup(s) && ToSet(s) == keep - ToSet(q)
  {
    DifferenceMembers(r, q);
    ThoseMembers(Difference(r, q), keep);
    var s := Those(Difference(r, q), keep);
    forall x ensures x in ToSet(s) <==> x in keep - ToSet(q) {
      assert x in s <==> x in Difference(r, q) && x in keep;
    }
  }
}
