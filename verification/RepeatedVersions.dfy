/** What a listing does in which a version is there more than once, as directory names
    such as "2" and "02" give it. */
module RepeatedVersions {
  import opened Common
  import opened Iteration
  import opened Vectors
  import opened VersionPolicy
  import opened ModelConfig
  import opened ModelVersionStatus
  import opened Model
  import opened ModelManager
  import opened Reconciliation

  // ---- the history only grows ----

  lemma {:induction false} HistoryGrows(a: seq<Event>, b: seq<Event>, v: int)
    requires a <= b
    ensures |History(a, v)| <= |History(b, v)|
    decreases |b|
  {
    if |a| < |b| {
      assert a <= b[..|b| - 1];
      HistoryGrows(a, b[..|b| - 1], v);
    } else {
      assert a == b;
    }
  }

  lemma {:induction false} AddManyLog(env: Oracle, cfg: Config, st: ModelState, vs: seq<int>, v: int)
    ensures var end := AddMany(env, cfg, st, vs).state;
            st.log <= end.log && (v in vs ==> |History(st.log, v)| < |History(end.log, v)|)
  {
    if vs != [] {
      var front := vs[..|vs| - 1];
      var x := vs[|vs| - 1];
      assert vs == front + [x];
      AddManyLog(env, cfg, st, front, v);
      var mid := AddMany(env, cfg, st, front).state;
      HistoryAppend(mid.log, Started(x), v);
      HistoryGrows(st.log, mid.log, v);
    }
  }

  lemma {:induction false} ReloadManyLog(env: Oracle, cfg: Config, st: ModelState, vs: seq<int>, failed: seq<int>)
    ensures st.log <= ReloadMany(env, cfg, st, vs, failed).state.log
  {
    if vs != [] {
      ReloadManyLog(env, cfg, st, vs[..|vs| - 1], failed);
    }
  }

  lemma {:induction false} RetireManyLog(st: ModelState, vs: seq<int>)
    ensures st.log <= RetireMany(st, vs).0.log && st.log <= CleanMany(st, vs).0.log
  {
    if vs != [] {
      RetireManyLog(st, vs[..|vs| - 1]);
    }
  }

  lemma ExecuteLog(r: Round, reloadNeeded: bool)
    ensures r.state.log <= Execute(r, reloadNeeded).0.log
  {
    var retire := Those(r.plan.retire, ToSet(r.plan.retire) - r.allFailed);
    RetireManyLog(r.state, retire);
    var st1 := if retire == [] then r.state else RetireMany(r.state, retire).0;
    RetireManyLog(st1, Those(r.plan.retire, r.allFailed));
  }

  // ---- serving ----

  /** Whatever loads succeed, a call that returns leaves version v alone. */
  ghost predicate Uninterrupted(cfg: Config, blacklisted: set<int>, available: seq<int>, st: ModelState, v: int) {
    forall env :: Returns(env, cfg, blacklisted, available, st) ==>
      Spares(st, ReconcileListed(env, cfg, blacklisted, available, st).0, v)
  }

  /** Version v serves, is selected, and gives no reason to touch it. */
  ghost predicate InGoodOrder(cfg: Config, blacklisted: set<int>, available: seq<int>, st: ModelState, v: int) {
    && cfg.policy.Valid()
    && v in st.versions && st.versions[v].Serving() && !ReloadRequired(st.versions[v].config, cfg)
    && v in Filter(cfg.policy, available) && (cfg.CustomLoaderRequired() ==> v !in blacklisted)
  }

  function Always(): Oracle {
    (n, v) => true
  }

  /** A registered version that the policy takes twice is started in the first round of
      every call. */
  lemma TakenTwiceStarts(cfg: Config, blacklisted: set<int>, available: seq<int>, st: ModelState, v: int)
    requires v in st.versions && multiset(Filter(cfg.policy, available))[v] >= 2
    requires cfg.CustomLoaderRequired() ==> v !in blacklisted
    ensures v in FirstRound(cfg, blacklisted, st, available).plan.start
  {
    StartedAgain(cfg, st.versions.Keys, Filter(cfg.policy, available), blacklisted, v);
  }

  lemma InterruptedIfRepeated(cfg: Config, blacklisted: set<int>, available: seq<int>, st: ModelState, v: int)
    requires InGoodOrder(cfg, blacklisted, available, st, v) && multiset(Filter(cfg.policy, available))[v] >= 2
    ensures !Uninterrupted(cfg, blacklisted, available, st, v)
  {
    var env := Always();
    var r := FirstRound(cfg, blacklisted, st, available);
    TakenTwiceStarts(cfg, blacklisted, available, st, v);
    AllLoadsSucceed(env, cfg, r.state, r.plan.start);
    EndsAtOnce(env, cfg, blacklisted, r);
    CallLog(env, cfg, blacklisted, available, st);
    AddManyLog(env, cfg, r.state, r.plan.start, v);
    HistoryGrows(AddMany(env, cfg, r.state, r.plan.start).state.log,
                 ReconcileListed(env, cfg, blacklisted, available, st).0.log, v);
  }

  /** What the fallback loop did stays in the history. */
  lemma CallLog(env: Oracle, cfg: Config, blacklisted: set<int>, available: seq<int>, st: ModelState)
    requires Returns(env, cfg, blacklisted, available, st)
    ensures var r := FirstRound(cfg, blacklisted, st, available);
            st.log == r.state.log &&
            Fallback(env, cfg, blacklisted, r).state.log <= ReconcileListed(env, cfg, blacklisted, available, st).0.log
  {
    var r := FirstRound(cfg, blacklisted, st, available);
    LoopLog(env, cfg, blacklisted, Fallback(env, cfg, blacklisted, r),
            r.plan.start != [] || r.plan.reload != [] || r.plan.retire != []);
  }

  /** What follows the loop adds to its history. */
  lemma LoopLog(env: Oracle, cfg: Config, blacklisted: set<int>, n: Round, reloadNeeded: bool)
    ensures n.state.log <= Execute(FinalPlan(cfg, blacklisted, AfterReload(env, cfg, n)), reloadNeeded).0.log
  {
    ReloadManyLog(env, cfg, n.state, n.plan.reload, n.failed);
    var a := AfterReload(env, cfg, n);
    ExecuteLog(FinalPlan(cfg, blacklisted, a), reloadNeeded);
    assert n.state.log <= a.state.log == FinalPlan(cfg, blacklisted, a).state.log;
  }

  lemma UninterruptedIfOnce(cfg: Config, blacklisted: set<int>, available: seq<int>, st: ModelState, v: int)
    requires InGoodOrder(cfg, blacklisted, available, st, v) && SafelyListed(cfg.policy, available, v)
    ensures Uninterrupted(cfg, blacklisted, available, st, v)
  {
    forall env | Returns(env, cfg, blacklisted, available, st)
      ensures Spares(st, ReconcileListed(env, cfg, blacklisted, available, st).0, v)
    {
      ServingNotInterrupted(env, cfg, blacklisted, available, st, v);
    }
  }

  /** Under the all-versions and the specific policy, and for any listing: a version in
      good order is left alone by every call that returns, whatever loads fail, exactly if
      the policy does not take it twice. */
  lemma ServingExact(cfg: Config, blacklisted: set<int>, available: seq<int>, st: ModelState, v: int)
    requires InGoodOrder(cfg, blacklisted, available, st, v) && !cfg.policy.LatestVersions?
    ensures Uninterrupted(cfg, blacklisted, available, st, v) <==> multiset(Filter(cfg.policy, available))[v] <= 1
  {
    if multiset(Filter(cfg.policy, available))[v] >= 2 {
      InterruptedIfRepeated(cfg, blacklisted, available, st, v);
    } else {
      assert v in multiset(Filter(cfg.policy, available));
      UninterruptedIfOnce(cfg, blacklisted, available, st, v);
    }
  }

  // ---- serving under latest-k ----

  /** Binary search misses every version that the round starts, so none of them leaves
      the list. */
  ghost predicate AllMissed(cfg: Config, blacklisted: set<int>, available: seq<int>, r: Round, v: int) {
    && Pending(cfg, blacklisted, r) && r.available == available
    && v in r.state.versions && multiset(Filter(cfg.policy, available))[v] <= 1
    && forall x :: x in r.plan.start ==> !BinarySearch(available, x)
  }

  lemma MissedNext(env: Oracle, cfg: Config, blacklisted: set<int>, available: seq<int>, r: Round, v: int)
    requires AllMissed(cfg, blacklisted, available, r, v) && Retry(env, cfg, blacklisted)(r).Some?
    ensures AllMissed(cfg, blacklisted, available, Retry(env, cfg, blacklisted)(r).value, v)
  {
    RetryIs(env, cfg, blacklisted, r);
    NextStage(env, cfg, blacklisted, r);
    var n := NextRound(env, cfg, blacklisted, r);
    var failed := AddMany(env, cfg, r.state, r.plan.start).failed;
    forall x | x in failed ensures !BinarySearch(available, x) {
      assert x in ToSet(failed) && x in ToSet(r.plan.start);
    }
    RemoveMissed(available, failed);
    forall x | x in n.plan.start ensures x in r.plan.start {
      StartsBefore(cfg, blacklisted, r, n, x);
    }
  }

  /** On the same list nothing is started that was not started before. */
  lemma StartsBefore(cfg: Config, blacklisted: set<int>, r: Round, n: Round, x: int)
    requires Pending(cfg, blacklisted, r) && Pending(cfg, blacklisted, n) && r.available == n.available
    requires n.state.versions.Keys == r.state.versions.Keys + ToSet(r.plan.start) && x in n.plan.start
    ensures x in r.plan.start
  {
    var requested := Filter(cfg.policy, r.available);
    if x in r.state.versions {
      StartedAgain(cfg, n.state.versions.Keys, requested, blacklisted, x);
      StartedAgain(cfg, r.state.versions.Keys, requested, blacklisted, x);
    } else {
      PlanCorrect(cfg, n.state.versions, requested, blacklisted);
      PlanCorrect(cfg, r.state.versions, requested, blacklisted);
      assert x in ToSet(n.plan.start) && x in ToSet(requested);
      assert x in WantedSet(cfg, r.state.versions.Keys, requested, blacklisted);
      assert x in ToSet(r.plan.start);
    }
  }

  lemma MissedNeverStarts(env: Oracle, cfg: Config, blacklisted: set<int>, available: seq<int>, v: int)
    ensures NeverStarts(env, cfg, blacklisted, r => AllMissed(cfg, blacklisted, available, r, v), v)
  {
    forall r | AllMissed(cfg, blacklisted, available, r, v)
      ensures v !in r.plan.start
      ensures Retry(env, cfg, blacklisted)(r).Some? ==>
                AllMissed(cfg, blacklisted, available, Retry(env, cfg, blacklisted)(r).value, v)
    {
      StartedAgain(cfg, r.state.versions.Keys, Filter(cfg.policy, available), blacklisted, v);
      if Retry(env, cfg, blacklisted)(r).Some? {
        MissedNext(env, cfg, blacklisted, available, r, v);
      }
    }
  }

  lemma UninterruptedIfMissed(cfg: Config, blacklisted: set<int>, available: seq<int>, st: ModelState, v: int)
    requires InGoodOrder(cfg, blacklisted, available, st, v) && multiset(Filter(cfg.policy, available))[v] <= 1
    requires forall x :: x in FirstRound(cfg, blacklisted, st, available).plan.start ==> !BinarySearch(available, x)
    ensures Uninterrupted(cfg, blacklisted, available, st, v)
  {
    forall env | Returns(env, cfg, blacklisted, available, st)
      ensures Spares(st, ReconcileListed(env, cfg, blacklisted, available, st).0, v)
    {
      PlannedPending(cfg, blacklisted, st, available, [], {}, true);
      MissedNeverStarts(env, cfg, blacklisted, available, v);
      LeftAlone(env, cfg, blacklisted, available, st, r => AllMissed(cfg, blacklisted, available, r, v), v);
    }
  }

  /** The first round in which exactly the version x fails and leaves the list. */
  lemma FirstDrops(cfg: Config, blacklisted: set<int>, r: Round, x: int)
    requires Pending(cfg, blacklisted, r) && x in r.plan.start && BinarySearch(r.available, x)
    ensures var n := NextRound(AllBut(x), cfg, blacklisted, r);
            && Retry(AllBut(x), cfg, blacklisted)(r) == Some(n) && !n.ok && Pending(cfg, blacklisted, n)
            && n.available == Without(r.available, x) && r.state.versions.Keys <= n.state.versions.Keys
            && r.state.log <= n.state.log
  {
    var env := AllBut(x);
    AllButFails(cfg, r.state, r.plan.start, x);
    var b := AddMany(env, cfg, r.state, r.plan.start);
    AddManyFailed(env, cfg, r.state, r.plan.start);
    assert x in b.failed;
    RemoveOne(r.available, b.failed, x);
    NextStage(env, cfg, blacklisted, r);
    RetryIs(env, cfg, blacklisted, r);
    AddManyLog(env, cfg, r.state, r.plan.start, x);
    PlannedMatches(cfg, blacklisted, b.state, RemoveFailed(r.available, b.failed), b.failed,
                   r.allFailed + ToSet(b.failed), false);
  }

  /** The round after that starts v, which is now taken twice, and nothing fails. */
  lemma SecondStarts(cfg: Config, blacklisted: set<int>, n: Round, v: int, x: int)
    requires Pending(cfg, blacklisted, n) && v in n.state.versions && x !in n.available
    requires multiset(Filter(cfg.policy, n.available))[v] >= 2 && (cfg.CustomLoaderRequired() ==> v !in blacklisted)
    ensures Ends(AllBut(x), cfg, blacklisted, n)
    ensures var e := Fallback(AllBut(x), cfg, blacklisted, n);
            n.state.log <= e.state.log && |History(n.state.log, v)| < |History(e.state.log, v)|
  {
    StartedAgain(cfg, n.state.versions.Keys, Filter(cfg.policy, n.available), blacklisted, v);
    StartIsAvailable(cfg, blacklisted, n);
    assert x !in ToSet(n.plan.start);
    NothingFails(cfg, n.state, n.plan.start, x);
    EndsAtOnce(AllBut(x), cfg, blacklisted, n);
    AddManyLog(AllBut(x), cfg, n.state, n.plan.start, v);
  }

  /** A version that is listed twice and taken once is taken twice, and started again, when
      another version fails and leaves the list. */
  lemma InterruptedIfOneDrops(cfg: Config, blacklisted: set<int>, available: seq<int>, st: ModelState, v: int, x: int)
    requires InGoodOrder(cfg, blacklisted, available, st, v) && cfg.policy.LatestVersions?
    requires multiset(available)[v] >= 2 && multiset(Filter(cfg.policy, available))[v] <= 1
    requires x in FirstRound(cfg, blacklisted, st, available).plan.start && BinarySearch(available, x)
    ensures !Uninterrupted(cfg, blacklisted, available, st, v)
  {
    var env := AllBut(x);
    var r := FirstRound(cfg, blacklisted, st, available);
    PlannedPending(cfg, blacklisted, st, available, [], {}, true);
    FirstDrops(cfg, blacklisted, r, x);
    var n := NextRound(env, cfg, blacklisted, r);
    DropTakesTwice(cfg, blacklisted, r, v, x);
    WithoutMembers(available, x);
    SecondStarts(cfg, blacklisted, n, v, x);
    StopsBefore(Retry(env, cfg, blacklisted), r);
    FallbackUnfold(env, cfg, blacklisted, r);
    CallLog(env, cfg, blacklisted, available, st);
    HistoryGrows(st.log, n.state.log, v);
    HistoryGrows(Fallback(env, cfg, blacklisted, r).state.log, ReconcileListed(env, cfg, blacklisted, available, st).0.log, v);
  }

  lemma DropTakesTwice(cfg: Config, blacklisted: set<int>, r: Round, v: int, x: int)
    requires Pending(cfg, blacklisted, r) && cfg.policy.LatestVersions?
    requires v in r.state.versions && v in Filter(cfg.policy, r.available) && x in r.plan.start
    requires multiset(r.available)[v] >= 2 && multiset(Filter(cfg.policy, r.available))[v] <= 1
    ensures multiset(Filter(cfg.policy, Without(r.available, x)))[v] >= 2
  {
    var requested := Filter(cfg.policy, r.available);
    assert v in multiset(requested);
    StartedAgain(cfg, r.state.versions.Keys, requested, blacklisted, v);
    PlanCorrect(cfg, r.state.versions, requested, blacklisted);
    assert x in ToSet(r.plan.start) && x in ToSet(requested);
    OneMoreTaken(cfg.policy.num, r.available, v, x);
  }

  /** Under a latest-k policy, and for any listing: a version in good order is left alone by
      every call that returns exactly if it is listed once, or the policy takes it once and
      binary search misses every version the call starts first, so that nothing which fails
      there makes room for another copy. */
  lemma ServingLatest(cfg: Config, blacklisted: set<int>, available: seq<int>, st: ModelState, v: int)
    requires InGoodOrder(cfg, blacklisted, available, st, v) && cfg.policy.LatestVersions?
    ensures Uninterrupted(cfg, blacklisted, available, st, v)
            <==> multiset(available)[v] <= 1
                 || (&& multiset(Filter(cfg.policy, available))[v] <= 1
                     && forall x :: x in FirstRound(cfg, blacklisted, st, available).plan.start ==> !BinarySearch(available, x))
  {
    FilterCount(cfg.policy, available);
    assert v in multiset(Filter(cfg.policy, available));
    if multiset(available)[v] <= 1 {
      UninterruptedIfOnce(cfg, blacklisted, available, st, v);
    } else if multiset(Filter(cfg.policy, available))[v] >= 2 {
      InterruptedIfRepeated(cfg, blacklisted, available, st, v);
    } else if x :| x in FirstRound(cfg, blacklisted, st, available).plan.start && BinarySearch(available, x) {
      InterruptedIfOneDrops(cfg, blacklisted, available, st, v, x);
    } else {
      UninterruptedIfMissed(cfg, blacklisted, available, st, v);
    }
  }

  // ---- a serving version is taken down ----

  /** The state of the call after version v failed: it is off the list and counted as
      failed, and everything else loads. */
  ghost predicate OffTheList(r: Round, v: int) {
    v !in r.available && v in r.allFailed && v in r.state.versions && r.state.versions[v].Serving()
  }

  /** A serving version that the policy takes twice is taken down if the second load of it
      fails and binary search finds it: it ends as a version that failed to load. */
  lemma RepetitionTakesDown(cfg: Config, available: seq<int>, st: ModelState, v: int)
    requires InGoodOrder(cfg, {}, available, st, v)
    requires multiset(Filter(cfg.policy, available))[v] >= 2 && BinarySearch(available, v)
    ensures Returns(AllBut(v), cfg, {}, available, st)
    ensures var end := ReconcileListed(AllBut(v), cfg, {}, available, st).0;
            v in end.versions && end.versions[v].status == FAILED_STATUS
  {
    var env := AllBut(v);
    TwoRounds(cfg, available, st, v);
    AnyRounds(env, cfg, {}, available, st);
    AnyExecutes(env, cfg, {}, available, st);
    var e := Fallback(env, cfg, {}, FirstRound(cfg, {}, st, available));
    ReloadsSpare(cfg, e, v);
    CleanedUpLast(cfg, AfterReload(env, cfg, e), v);
  }

  lemma TwoRounds(cfg: Config, available: seq<int>, st: ModelState, v: int)
    requires InGoodOrder(cfg, {}, available, st, v)
    requires multiset(Filter(cfg.policy, available))[v] >= 2 && BinarySearch(available, v)
    ensures var r := FirstRound(cfg, {}, st, available);
            && Ends(AllBut(v), cfg, {}, r)
            && var e := Fallback(AllBut(v), cfg, {}, r); OffTheList(e, v) && v !in e.plan.reload
  {
    var env := AllBut(v);
    var r := FirstRound(cfg, {}, st, available);
    FirstFailure(cfg, available, st, v);
    var n := NextRound(env, cfg, {}, r);
    SecondRound(cfg, n, v);
    StopsBefore(Retry(env, cfg, {}), r);
    FallbackUnfold(env, cfg, {}, r);
  }

  lemma FirstFailure(cfg: Config, available: seq<int>, st: ModelState, v: int)
    requires InGoodOrder(cfg, {}, available, st, v)
    requires multiset(Filter(cfg.policy, available))[v] >= 2 && BinarySearch(available, v)
    ensures var r := FirstRound(cfg, {}, st, available);
            var n := NextRound(AllBut(v), cfg, {}, r);
            && r.plan.start != [] && Retry(AllBut(v), cfg, {})(r) == Some(n) && !n.ok
            && Pending(cfg, {}, n) && OffTheList(n, v) && v !in n.plan.reload
  {
    var env := AllBut(v);
    var r := FirstRound(cfg, {}, st, available);
    TakenTwiceStarts(cfg, {}, available, st, v);
    PlannedMatches(cfg, {}, st, available, [], {}, true);
    AllButFails(cfg, r.state, r.plan.start, v);
    var b := AddMany(env, cfg, r.state, r.plan.start);
    assert v in b.failed;
    AddManyKeys(env, cfg, r.state, r.plan.start);
    KeepsRegistered(env, cfg, r.state, r.plan.start, v);
    RemoveOne(available, b.failed, v);
    WithoutMembers(available, v);
    RetryIs(env, cfg, {}, r);
    var allFailed := r.allFailed + ToSet(b.failed);
    NextRoundIs(env, cfg, {}, r, b.state, RemoveFailed(available, b.failed), b.failed, allFailed);
    PlannedPending(cfg, {}, b.state, RemoveFailed(available, b.failed), b.failed, allFailed, false);
    NotReloaded(cfg, b.state, RemoveFailed(available, b.failed), b.failed, allFailed, false, v);
  }

  lemma MatchesOff(cfg: Config, r: Round, v: int)
    requires cfg.policy.Valid() && Matches(cfg, {}, r)
    requires v !in r.available && v in r.state.versions && r.state.versions[v].Serving()
    ensures v !in r.plan.reload && v in r.plan.retire
  {
    FilterSubset(cfg.policy, r.available);
    assert v !in ToSet(Filter(cfg.policy, r.available));
    assert v !in ToSet(r.plan.reload);
    assert v in NotEnding(r.state.versions);
    assert v in ToSet(r.plan.retire);
  }

  /** A version that is off the list is not reloaded but retired. */
  lemma NotReloaded(cfg: Config, st: ModelState, available: seq<int>, failed: seq<int>, allFailed: set<int>, ok: bool, v: int)
    requires cfg.policy.Valid() && v !in available && v in st.versions && st.versions[v].Serving()
    ensures var r := Planned(cfg, {}, st, available, failed, allFailed, ok);
            && v !in r.plan.reload && v in r.plan.retire && v in r.state.versions && r.state.versions[v] == st.versions[v]
            && r.allFailed == allFailed
  {
    PlannedMatches(cfg, {}, st, available, failed, allFailed, ok);
    MatchesOff(cfg, Planned(cfg, {}, st, available, failed, allFailed, ok), v);
  }

  /** Adding versions never replaces a registered instance. */
  lemma {:induction false} KeepsRegistered(env: Oracle, cfg: Config, st: ModelState, vs: seq<int>, v: int)
    requires v in st.versions
    ensures var m := AddMany(env, cfg, st, vs).state.versions; v in m && m[v] == st.versions[v]
  {
    if vs != [] {
      KeepsRegistered(env, cfg, st, vs[..|vs| - 1], v);
    }
  }

  lemma NothingFails(cfg: Config, st: ModelState, start: seq<int>, v: int)
    requires v !in start
    ensures AddMany(AllBut(v), cfg, st, start).ok && AddMany(AllBut(v), cfg, st, start).failed == []
  {
    AllButFails(cfg, st, start, v);
    AddManyFailed(AllBut(v), cfg, st, start);
    var failed := AddMany(AllBut(v), cfg, st, start).failed;
    assert forall i :: 0 <= i < |failed| ==> failed[i] in failed;
  }

  /** Without v nothing fails, so the loop is over with the second round. */
  lemma SecondRound(cfg: Config, n: Round, v: int)
    requires Pending(cfg, {}, n) && OffTheList(n, v)
    ensures Ends(AllBut(v), cfg, {}, n)
    ensures var e := Fallback(AllBut(v), cfg, {}, n); OffTheList(e, v) && e.plan == n.plan
  {
    StartIsAvailable(cfg, {}, n);
    assert v !in ToSet(n.plan.start);
    NothingFails(cfg, n.state, n.plan.start, v);
    KeepsRegistered(AllBut(v), cfg, n.state, n.plan.start, v);
    EndsAtOnce(AllBut(v), cfg, {}, n);
  }

  lemma ReloadsSpare(cfg: Config, e: Round, v: int)
    requires OffTheList(e, v) && ReloadsRegistered(e) && v !in e.plan.reload
    ensures OffTheList(AfterReload(AllBut(v), cfg, e), v)
  {
    ReloadManyEffect(AllBut(v), cfg, e.state, e.plan.reload, e.failed);
  }

  /** The final plan cleans version v up. */
  lemma CleanedUpLast(cfg: Config, a: Round, v: int)
    requires cfg.policy.Valid() && OffTheList(a, v)
    ensures var last := FinalPlan(cfg, {}, a);
            v in last.plan.retire && v in last.allFailed && v in last.state.versions
  {
    RemoveFailedSubset(a.available, a.failed);
    var remaining := RemoveFailed(a.available, a.failed);
    assert v !in ToSet(remaining);
    FinalPlanIs(cfg, {}, a, a.state, remaining, a.failed, a.allFailed + ToSet(a.failed), a.ok);
    NotReloaded(cfg, a.state, remaining, a.failed, a.allFailed + ToSet(a.failed), a.ok, v);
  }

  // ---- convergence ----

  /** While a registered version is taken twice no call finds nothing to do: it reports
      OK_RELOADED, or a failed load, but never OK. */
  lemma RepeatedNeverSettles(env: Oracle, cfg: Config, listed: seq<int>, st: ModelState, v: int)
    requires !cfg.CustomLoaderRequired() && Returns(env, cfg, {}, listed, st)
    requires v in st.versions && multiset(Filter(cfg.policy, listed))[v] >= 2
    ensures var (end, code) := ReconcileListed(env, cfg, {}, listed, st);
            && (code == OK_RELOADED || code == LOAD_FAILED) && v in end.versions
            && ((forall n, x :: env(n, x)) ==> code == OK_RELOADED)
  {
    TakenTwiceStarts(cfg, {}, listed, st, v);
    AnyRounds(env, cfg, {}, listed, st);
    var r := FirstRound(cfg, {}, st, listed);
    var last := LastRound(env, cfg, {}, listed, st);
    ExecuteEffect(last, true);
    KeysGrow(env, cfg, listed, st);
    if forall n, x :: env(n, x) {
      CallWithoutFailure(env, cfg, listed, st);
    }
  }

  /** Registered versions stay registered. */
  lemma KeysGrow(env: Oracle, cfg: Config, listed: seq<int>, st: ModelState)
    requires Returns(env, cfg, {}, listed, st)
    ensures st.versions.Keys <= LastRound(env, cfg, {}, listed, st).state.versions.Keys
  {
    AnyRounds(env, cfg, {}, listed, st);
    var r := FirstRound(cfg, {}, st, listed);
    PlannedMatches(cfg, {}, st, listed, [], {}, true);
    FallbackKeys(env, cfg, {}, r);
    var n := Fallback(env, cfg, {}, r);
    ReloadManyEffect(env, cfg, n.state, n.plan.reload, n.failed);
    var a := AfterReload(env, cfg, n);
    PlannedMatches(cfg, {}, a.state, RemoveFailed(a.available, a.failed), a.failed, a.allFailed + ToSet(a.failed), a.ok);
  }

  lemma {:induction false} FallbackKeys(env: Oracle, cfg: Config, blacklisted: set<int>, r: Round)
    requires Ends(env, cfg, blacklisted, r)
    ensures r.state.versions.Keys <= Fallback(env, cfg, blacklisted, r).state.versions.Keys
    decreases RoundsLeft(env, cfg, blacklisted, r)
  {
    if r.plan.start != [] {
      FallbackUnfold(env, cfg, blacklisted, r);
      AddManyKeys(env, cfg, r.state, r.plan.start);
      var b := AddMany(env, cfg, r.state, r.plan.start);
      if !b.ok {
        PlannedMatches(cfg, blacklisted, b.state, RemoveFailed(r.available, b.failed), b.failed,
                       r.allFailed + ToSet(b.failed), false);
        FallbackKeys(env, cfg, blacklisted, NextRound(env, cfg, blacklisted, r));
      }
    }
  }

  /** A second call, whatever its loads do, finds nothing to do. */
  ghost predicate Converged(cfg: Config, listed: seq<int>, st: ModelState) {
    forall later :: Returns(later, cfg, {}, listed, st) ==> ReconcileListed(later, cfg, {}, listed, st) == (st, Code.OK)
  }

  /** Without a custom loader, after a call in which every load succeeded the model has
      converged exactly if the policy takes no listed version twice. */
  lemma ConvergenceExact(env: Oracle, cfg: Config, listed: seq<int>, st: ModelState)
    requires cfg.policy.Valid() && !cfg.CustomLoaderRequired() && forall n, v :: env(n, v)
    ensures Returns(env, cfg, {}, listed, st)
    ensures Converged(cfg, listed, ReconcileListed(env, cfg, {}, listed, st).0) <==> NoDup(Filter(cfg.policy, listed))
  {
    CallWithoutFailure(env, cfg, listed, st);
    var end := ReconcileListed(env, cfg, {}, listed, st).0;
    if NoDup(Filter(cfg.policy, listed)) {
      forall later | Returns(later, cfg, {}, listed, end)
        ensures ReconcileListed(later, cfg, {}, listed, end) == (end, Code.OK)
      {
        Convergence(env, later, cfg, listed, st);
      }
    } else {
      var v :| multiset(Filter(cfg.policy, listed))[v] > 1;
      RequestedIsRegistered(env, cfg, listed, st, v);
      CallWithoutFailure(Always(), cfg, listed, end);
      RepeatedNeverSettles(Always(), cfg, listed, end, v);
    }
  }

  lemma RequestedIsRegistered(env: Oracle, cfg: Config, listed: seq<int>, st: ModelState, v: int)
    requires cfg.policy.Valid() && !cfg.CustomLoaderRequired() && forall n, x :: env(n, x)
    requires multiset(Filter(cfg.policy, listed))[v] > 1
    ensures Returns(env, cfg, {}, listed, st)
    ensures v in ReconcileListed(env, cfg, {}, listed, st).0.versions
  {
    CallWithoutFailure(env, cfg, listed, st);
    AnyRounds(env, cfg, {}, listed, st);
    AnyExecutes(env, cfg, {}, listed, st);
    var r := FirstRound(cfg, {}, st, listed);
    assert v in multiset(Filter(cfg.policy, listed));
    assert v in ToSet(Filter(cfg.policy, listed));
    assert v in r.state.versions.Keys + ToSet(r.plan.start);
    AddManyKeys(env, cfg, r.state, r.plan.start);
    var st1 := AddMany(env, cfg, r.state, r.plan.start).state;
    AllLoadsSucceed(env, cfg, st1, r.plan.reload);
    var st2 := ReloadMany(env, cfg, st1, r.plan.reload, []).state;
    PlannedMatches(cfg, {}, st2, listed, [], {}, true);
  }
}
