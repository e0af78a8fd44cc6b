/** What the result of a reconcile call says: the code, what serves after a success, and
    the answers the call gives before it plans anything. */
module CallOutcome {
  import opened Common
  import opened Vectors
  import opened VersionPolicy
  import opened ModelConfig
  import opened ModelVersionStatus
  import opened ModelInstance
  import opened Model
  import opened ModelManager
  import opened Reconciliation
  import opened RepeatedVersions

  // ---- what each part of a call adds to the history ----

  /** From a to b the history has grown by n events. */
  ghost predicate Grows(a: ModelState, b: ModelState, n: nat) {
    a.log <= b.log && |b.log| == |a.log| + n
  }

  /** Between a and b version v was reloaded. */
  ghost predicate ReloadedBetween(a: ModelState, b: ModelState, v: int) {
    exists i :: |a.log| <= i < |b.log| && b.log[i] == Reloading(v)
  }

  lemma OneMoreEvent(a: ModelState, b: ModelState, c: ModelState, e: Event)
    requires a.log <= b.log && c.log == b.log + [e]
    ensures forall v :: ReloadedBetween(a, c, v) ==> ReloadedBetween(a, b, v) || e == Reloading(v)
  {
    forall v | ReloadedBetween(a, c, v) && e != Reloading(v) ensures ReloadedBetween(a, b, v) {
      var i :| |a.log| <= i < |c.log| && c.log[i] == Reloading(v);
      assert b.log[i] == Reloading(v);
    }
  }

  lemma {:induction false} AddManyEvents(env: Oracle, cfg: Config, st: ModelState, vs: seq<int>)
    ensures var end := AddMany(env, cfg, st, vs).state;
            Grows(st, end, |vs|) && forall v :: !ReloadedBetween(st, end, v)
  {
    if vs != [] {
      AddManyEvents(env, cfg, st, vs[..|vs| - 1]);
      OneMoreEvent(st, AddMany(env, cfg, st, vs[..|vs| - 1]).state, AddMany(env, cfg, st, vs).state, Started(vs[|vs| - 1]));
    }
  }

  lemma {:induction false} ReloadManyEvents(env: Oracle, cfg: Config, st: ModelState, vs: seq<int>, failed: seq<int>)
    requires ToSet(vs) <= st.versions.Keys
    ensures var end := ReloadMany(env, cfg, st, vs, failed).state;
            && Grows(st, end, |vs|) && end.versions.Keys == st.versions.Keys
            && forall v :: ReloadedBetween(st, end, v) ==> v in vs
  {
    if vs != [] {
      var front := vs[..|vs| - 1];
      var x := vs[|vs| - 1];
      assert vs == front + [x];
      assert x in ToSet(vs);
      assert forall y :: y in ToSet(front) ==> y in ToSet(vs);
      ReloadManyEvents(env, cfg, st, front, failed);
      OneMoreEvent(st, ReloadMany(env, cfg, st, front, failed).state, ReloadMany(env, cfg, st, vs, failed).state, Reloading(x));
    }
  }

  lemma {:induction false} RetireManyEvents(st: ModelState, vs: seq<int>)
    requires ToSet(vs) <= st.versions.Keys
    ensures var end := RetireMany(st, vs).0;
            Grows(st, end, |vs|) && end.versions.Keys == st.versions.Keys && forall v :: !ReloadedBetween(st, end, v)
    ensures var end := CleanMany(st, vs).0;
            Grows(st, end, |vs|) && end.versions.Keys == st.versions.Keys && forall v :: !ReloadedBetween(st, end, v)
  {
    if vs != [] {
      var front := vs[..|vs| - 1];
      var x := vs[|vs| - 1];
      assert x in ToSet(vs);
      assert forall y :: y in ToSet(front) ==> y in ToSet(vs);
      RetireManyEvents(st, front);
      var retired, cleaned := RetireMany(st, front).0, CleanMany(st, front).0;
      OneMoreEvent(st, retired, RetireOne(retired, x), Retiring(x, WithDefault(retired, x).defaultVersion));
      OneMoreEvent(st, cleaned, CleanOne(cleaned, x), Cleaning(x, WithDefault(cleaned, x).defaultVersion));
    }
  }

  lemma {:induction false} PartsLength(s: seq<int>, all: set<int>, keep: set<int>)
    requires ToSet(s) <= all
    ensures |Those(s, all - keep)| + |Those(s, keep)| == |s|
  {
    if s != [] {
      var front := s[..|s| - 1];
      assert s == front + [s[|s| - 1]];
      assert s[|s| - 1] in ToSet(s);
      assert forall y :: y in ToSet(front) ==> y in ToSet(s);
      PartsLength(front, all, keep);
    }
  }

  /** The final step unloads every version of its retire list and reloads none. */
  lemma ExecuteEvents(r: Round, reloadNeeded: bool)
    requires NoDup(r.plan.retire) && ToSet(r.plan.retire) <= r.state.versions.Keys
    ensures var end := Execute(r, reloadNeeded).0;
            Grows(r.state, end, |r.plan.retire|) && forall v :: !ReloadedBetween(r.state, end, v)
  {
    var retire := Those(r.plan.retire, ToSet(r.plan.retire) - r.allFailed);
    var cleanup := Those(r.plan.retire, r.allFailed);
    RetireParts(r.plan.retire, r.allFailed);
    PartsLength(r.plan.retire, ToSet(r.plan.retire), r.allFailed);
    RetireManyEffect(r.state, retire);
    RetireManyEvents(r.state, retire);
    var mid := RetireMany(r.state, retire).0;
    CleanManyEffect(mid, cleanup);
    RetireManyEvents(mid, cleanup);
    var end := Execute(r, reloadNeeded).0;
    assert end == CleanMany(mid, cleanup).0;
    forall v ensures !ReloadedBetween(r.state, end, v) {
      NotBetween(r.state, mid, end, v);
    }
  }

  lemma NotBetween(a: ModelState, b: ModelState, c: ModelState, v: int)
    requires a.log <= b.log <= c.log
    ensures ReloadedBetween(a, c, v) ==> ReloadedBetween(a, b, v) || ReloadedBetween(b, c, v)
  {
    if ReloadedBetween(a, c, v) {
      var i :| |a.log| <= i < |c.log| && c.log[i] == Reloading(v);
      if i < |b.log| {
        assert b.log[i] == Reloading(v);
      }
    }
  }

  // ---- when the loop is over ----

  /** A version that needs nothing: AVAILABLE or at rest otherwise, neither ended nor
      failed, and with the compared fields of the configuration. */
  ghost predicate Current(st: ModelState, cfg: Config, v: int) {
    v in st.versions && !NeedsReload(st.versions[v], cfg)
  }

  /** The versions wanted from a list, given the blacklist. */
  ghost predicate Asked(cfg: Config, blacklisted: set<int>, available: seq<int>, v: int) {
    v in Filter(cfg.policy, available) && (cfg.CustomLoaderRequired() ==> v !in blacklisted)
  }

  /** Nothing wanted is left out: every wanted version is there and current, or it is going
      to be reloaded; only wanted versions are. */
  ghost predicate Covered(cfg: Config, blacklisted: set<int>, r: Round) {
    && ReloadsRegistered(r)
    && (forall v :: Asked(cfg, blacklisted, r.available, v) ==> v in r.plan.reload || Current(r.state, cfg, v))
    && (forall v :: v in r.plan.reload ==> Asked(cfg, blacklisted, r.available, v))
  }

  /** A successful load of a version that was not registered. */
  lemma {:induction false} AddManyFresh(env: Oracle, cfg: Config, st: ModelState, vs: seq<int>, v: int)
    requires AddMany(env, cfg, st, vs).ok && v in vs && v !in st.versions
    ensures var end := AddMany(env, cfg, st, vs).state;
            v in end.versions && end.versions[v] == Instance(AVAILABLE_STATUS, cfg.WithVersion(v), false)
  {
    var front := vs[..|vs| - 1];
    assert vs == front + [vs[|vs| - 1]];
    if v in front {
      AddManyFresh(env, cfg, st, front, v);
    } else {
      AddManyDomain(env, cfg, st, front);
      assert v !in ToSet(front);
    }
  }

  lemma StartedIsCovered(env: Oracle, cfg: Config, blacklisted: set<int>, r: Round, v: int)
    requires Matches(cfg, blacklisted, r) && Asked(cfg, blacklisted, r.available, v)
    requires r.plan.start == [] || AddMany(env, cfg, r.state, r.plan.start).ok
    ensures v in r.plan.reload || Current(AddMany(env, cfg, r.state, r.plan.start).state, cfg, v)
  {
    assert v in Goal(cfg, blacklisted, r.available, r.state.versions.Keys);
    if v in r.state.versions {
      KeepsRegistered(env, cfg, r.state, r.plan.start, v);
      assert v in r.plan.reload <==> v in ToSet(r.plan.reload);
    } else {
      assert v in ToSet(r.plan.start);
      AddManyFresh(env, cfg, r.state, r.plan.start, v);
    }
  }

  lemma StartedCovers(env: Oracle, cfg: Config, blacklisted: set<int>, r: Round)
    requires Matches(cfg, blacklisted, r) && ReloadsRegistered(r)
    requires r.plan.start == [] || AddMany(env, cfg, r.state, r.plan.start).ok
    ensures Covered(cfg, blacklisted, r.(state := AddMany(env, cfg, r.state, r.plan.start).state))
  {
    var end := AddMany(env, cfg, r.state, r.plan.start).state;
    AddManyKeys(env, cfg, r.state, r.plan.start);
    forall v | Asked(cfg, blacklisted, r.available, v) ensures v in r.plan.reload || Current(end, cfg, v) {
      StartedIsCovered(env, cfg, blacklisted, r, v);
    }
    forall v | v in r.plan.reload ensures Asked(cfg, blacklisted, r.available, v) {
      assert v in ToSet(r.plan.reload);
    }
  }

  /** What the loop ends with covers the wanted versions, and its status says whether the
      last starts failed. */
  lemma {:induction false} FallbackCovers(env: Oracle, cfg: Config, blacklisted: set<int>, r: Round)
    requires Ends(env, cfg, blacklisted, r) && Matches(cfg, blacklisted, r) && ReloadsRegistered(r)
    requires r.ok <==> r.failed == []
    ensures var n := Fallback(env, cfg, blacklisted, r);
            Covered(cfg, blacklisted, n) && (n.ok <==> n.failed == [])
    decreases RoundsLeft(env, cfg, blacklisted, r)
  {
    if r.plan.start == [] {
      StartedCovers(env, cfg, blacklisted, r);
    } else {
      FallbackUnfold(env, cfg, blacklisted, r);
      AddManyKeys(env, cfg, r.state, r.plan.start);
      var b := AddMany(env, cfg, r.state, r.plan.start);
      if b.ok {
        StartedCovers(env, cfg, blacklisted, r);
      } else {
        PlannedMatches(cfg, blacklisted, b.state, RemoveFailed(r.available, b.failed), b.failed,
                       r.allFailed + ToSet(b.failed), false);
        FallbackCovers(env, cfg, blacklisted, NextRound(env, cfg, blacklisted, r));
      }
    }
  }

  /** From a to b at least n events were added, and no reload. */
  ghost predicate NoReloads(a: ModelState, b: ModelState, n: nat) {
    a.log <= b.log && |a.log| + n <= |b.log| && forall v :: !ReloadedBetween(a, b, v)
  }

  lemma NoReloadsFurther(a: ModelState, b: ModelState, c: ModelState, d: ModelState, n: nat)
    requires NoReloads(a, b, n) && b.log == c.log && NoReloads(c, d, 0)
    ensures NoReloads(a, d, n)
  {
    forall v ensures !ReloadedBetween(a, d, v) {
      NotBetween(a, c, d, v);
      assert ReloadedBetween(a, c, v) ==> ReloadedBetween(a, b, v);
    }
  }

  /** The loop adds its starts to the history, and no reload. */
  lemma {:induction false} FallbackEvents(env: Oracle, cfg: Config, blacklisted: set<int>, r: Round)
    requires Ends(env, cfg, blacklisted, r)
    ensures NoReloads(r.state, Fallback(env, cfg, blacklisted, r).state, |r.plan.start|)
    decreases RoundsLeft(env, cfg, blacklisted, r)
  {
    if r.plan.start != [] {
      FallbackUnfold(env, cfg, blacklisted, r);
      AddManyEvents(env, cfg, r.state, r.plan.start);
      var b := AddMany(env, cfg, r.state, r.plan.start);
      if !b.ok {
        PlannedMatches(cfg, blacklisted, b.state, RemoveFailed(r.available, b.failed), b.failed,
                       r.allFailed + ToSet(b.failed), false);
        var n := NextRound(env, cfg, blacklisted, r);
        FallbackEvents(env, cfg, blacklisted, n);
        assert NoReloads(r.state, b.state, |r.plan.start|);
        NoReloadsFurther(r.state, b.state, n.state, Fallback(env, cfg, blacklisted, n).state, |r.plan.start|);
      }
    }
  }

  lemma LoadedIsCurrent(i: Instance, cfg: Config, v: int, failed: seq<int>)
    requires LoadedAs(i, cfg, v, failed) && v !in failed
    ensures !NeedsReload(i, cfg)
  {
    ReloadRequiredLaws(cfg, cfg, cfg, v);
  }

  /** After reloads that all succeeded every wanted version is current. */
  lemma ReloadsCover(env: Oracle, cfg: Config, blacklisted: set<int>, n: Round)
    requires Covered(cfg, blacklisted, n) && (n.ok <==> n.failed == [])
    ensures var a := AfterReload(env, cfg, n);
            && a.available == n.available && (a.ok <==> a.failed == []) && (a.ok ==> n.ok)
            && (a.ok ==> forall v :: Asked(cfg, blacklisted, n.available, v) ==> Current(a.state, cfg, v))
            && Grows(n.state, a.state, |n.plan.reload|)
            && (forall v :: ReloadedBetween(n.state, a.state, v) ==> v in n.plan.reload)
            && (!a.ok ==> !n.ok || n.plan.reload != [])
  {
    var a := AfterReload(env, cfg, n);
    if n.plan.reload != [] {
      ReloadManyEffect(env, cfg, n.state, n.plan.reload, n.failed);
      ReloadManyEvents(env, cfg, n.state, n.plan.reload, n.failed);
      assert n.failed + [] == n.failed;
    }
    if a.ok {
      forall v | Asked(cfg, blacklisted, n.available, v) ensures Current(a.state, cfg, v) {
        ReloadedIsCurrent(env, cfg, blacklisted, n, v);
      }
    }
  }

  lemma ReloadedIsCurrent(env: Oracle, cfg: Config, blacklisted: set<int>, n: Round, v: int)
    requires Covered(cfg, blacklisted, n) && n.failed == [] && AfterReload(env, cfg, n).ok
    requires Asked(cfg, blacklisted, n.available, v)
    ensures Current(AfterReload(env, cfg, n).state, cfg, v)
  {
    if n.plan.reload != [] {
      ReloadManyEffect(env, cfg, n.state, n.plan.reload, n.failed);
      if v in n.plan.reload {
        assert v in ToSet(n.plan.reload);
        LoadedIsCurrent(AfterReload(env, cfg, n).state.versions[v], cfg, v, []);
      }
    }
  }

  /** The final plan retires and flags nothing that is wanted and current. */
  lemma LastCovers(cfg: Config, blacklisted: set<int>, a: Round, v: int)
    requires a.failed == [] && Asked(cfg, blacklisted, a.available, v) && Current(a.state, cfg, v)
    ensures var last := FinalPlan(cfg, blacklisted, a);
            && last.available == a.available && v in last.state.versions && v !in last.plan.retire
            && last.state.versions[v] == a.state.versions[v]
  {
    assert RemoveFailed(a.available, []) == a.available;
    PlannedMatches(cfg, blacklisted, a.state, a.available, a.failed, a.allFailed + ToSet(a.failed), a.ok);
    var last := FinalPlan(cfg, blacklisted, a);
    MatchesSpares(cfg, blacklisted, last, v);
  }

  // ---- the result code ----

  /** The state between planning and final plan, with everything the code depends on. */
  lemma CallCovers(env: Oracle, cfg: Config, blacklisted: set<int>, listed: seq<int>, st: ModelState)
    requires Returns(env, cfg, blacklisted, listed, st)
    ensures var n := Fallback(env, cfg, blacklisted, FirstRound(cfg, blacklisted, st, listed));
            && Covered(cfg, blacklisted, n) && (n.ok <==> n.failed == [])
            && NoReloads(st, n.state, |FirstRound(cfg, blacklisted, st, listed).plan.start|)
  {
    PlannedMatches(cfg, blacklisted, st, listed, [], {}, true);
    AnyRounds(env, cfg, blacklisted, listed, st);
    var r := FirstRound(cfg, blacklisted, st, listed);
    FallbackCovers(env, cfg, blacklisted, r);
    FallbackEvents(env, cfg, blacklisted, r);
    StartFrom(st, r.state, Fallback(env, cfg, blacklisted, r).state, |r.plan.start|);
  }

  lemma StartFrom(a: ModelState, b: ModelState, c: ModelState, n: nat)
    requires a.log == b.log && NoReloads(b, c, n)
    ensures NoReloads(a, c, n)
  {
    forall v ensures !ReloadedBetween(a, c, v) {
      assert !ReloadedBetween(b, c, v);
    }
  }

  /** What the call reports when it does not report a failed load. */
  ghost predicate Succeeded(code: Code) {
    code == Code.OK || code == OK_RELOADED
  }

  /** The code is LOAD_FAILED exactly if the last starts of the loop failed, with nothing
      left to start instead, or a reload failed; otherwise it is OK or OK_RELOADED. */
  lemma CodeExact(env: Oracle, cfg: Config, blacklisted: set<int>, listed: seq<int>, st: ModelState)
    requires Returns(env, cfg, blacklisted, listed, st)
    ensures var n := Fallback(env, cfg, blacklisted, FirstRound(cfg, blacklisted, st, listed));
            var code := ReconcileListed(env, cfg, blacklisted, listed, st).1;
            && (code == LOAD_FAILED <==> n.failed != [] || ReloadMany(env, cfg, n.state, n.plan.reload, []).failed != [])
            && (code != LOAD_FAILED ==> Succeeded(code))
  {
    CallCovers(env, cfg, blacklisted, listed, st);
    AnyRounds(env, cfg, blacklisted, listed, st);
    var r := FirstRound(cfg, blacklisted, st, listed);
    var n := Fallback(env, cfg, blacklisted, r);
    ReloadManyEffect(env, cfg, n.state, n.plan.reload, n.failed);
    var last := LastRound(env, cfg, blacklisted, listed, st);
    ExecuteEffect(last, r.plan.start != [] || r.plan.reload != [] || r.plan.retire != []);
    SameStatus(cfg, blacklisted, AfterReload(env, cfg, n));
  }

  /** What a success says. For every listing for which the call returns, for every state and
      outcome of the loads: if the call does not report a failed load then every version the
      policy takes from the remaining list, without blacklisted ones, is registered, needs no
      reload, and has the compared fields of the configuration. */
  lemma SuccessIsCurrent(env: Oracle, cfg: Config, blacklisted: set<int>, listed: seq<int>, st: ModelState, v: int)
    requires Returns(env, cfg, blacklisted, listed, st)
    requires Succeeded(ReconcileListed(env, cfg, blacklisted, listed, st).1)
    requires Asked(cfg, blacklisted, LastRound(env, cfg, blacklisted, listed, st).available, v)
    ensures var end := ReconcileListed(env, cfg, blacklisted, listed, st).0;
            && Current(end, cfg, v) && end.versions[v].config.serving == cfg.serving
  {
    CallCovers(env, cfg, blacklisted, listed, st);
    CodeExact(env, cfg, blacklisted, listed, st);
    var n := Fallback(env, cfg, blacklisted, FirstRound(cfg, blacklisted, st, listed));
    ReloadsCover(env, cfg, blacklisted, n);
    var a := AfterReload(env, cfg, n);
    CodeOfLast(env, cfg, blacklisted, listed, st);
    assert RemoveFailed(a.available, []) == a.available;
    LastCovers(cfg, blacklisted, a, v);
    AnyExecutes(env, cfg, blacklisted, listed, st);
  }

  lemma CodeOfLast(env: Oracle, cfg: Config, blacklisted: set<int>, listed: seq<int>, st: ModelState)
    requires Returns(env, cfg, blacklisted, listed, st)
    ensures var a := AfterReload(env, cfg, Fallback(env, cfg, blacklisted, FirstRound(cfg, blacklisted, st, listed)));
            a.ok <==> Succeeded(ReconcileListed(env, cfg, blacklisted, listed, st).1)
  {
    AnyRounds(env, cfg, blacklisted, listed, st);
    var r := FirstRound(cfg, blacklisted, st, listed);
    ExecuteCode(LastRound(env, cfg, blacklisted, listed, st), r.plan.start != [] || r.plan.reload != [] || r.plan.retire != []);
    SameStatus(cfg, blacklisted, AfterReload(env, cfg, Fallback(env, cfg, blacklisted, r)));
  }

  lemma ExecuteCode(r: Round, reloadNeeded: bool)
    requires NoDup(r.plan.retire) && ToSet(r.plan.retire) <= r.state.versions.Keys
    ensures Succeeded(Execute(r, reloadNeeded).1) <==> r.ok
  {
    ExecuteEffect(r, reloadNeeded);
  }

  lemma SameStatus(cfg: Config, blacklisted: set<int>, a: Round)
    ensures FinalPlan(cfg, blacklisted, a).ok == a.ok
  {
  }

  /** A failed reload is reported: if the call reloaded version v and v ends as a version
      that failed to load, the code is LOAD_FAILED. */
  lemma FailedReloadReported(env: Oracle, cfg: Config, blacklisted: set<int>, listed: seq<int>, st: ModelState, v: int)
    requires Returns(env, cfg, blacklisted, listed, st)
    ensures var (end, code) := ReconcileListed(env, cfg, blacklisted, listed, st);
            ReloadedBetween(st, end, v) && v in end.versions && end.versions[v].status == FAILED_STATUS ==> code == LOAD_FAILED
  {
    CodeExact(env, cfg, blacklisted, listed, st);
    var (end, code) := ReconcileListed(env, cfg, blacklisted, listed, st);
    if Succeeded(code) && ReloadedBetween(st, end, v) {
      ReloadWasAsked(env, cfg, blacklisted, listed, st, v);
      SuccessIsCurrent(env, cfg, blacklisted, listed, st, v);
    }
  }

  /** After a success a reloaded version is still wanted. */
  lemma ReloadWasAsked(env: Oracle, cfg: Config, blacklisted: set<int>, listed: seq<int>, st: ModelState, v: int)
    requires Returns(env, cfg, blacklisted, listed, st)
    requires ReloadedBetween(st, ReconcileListed(env, cfg, blacklisted, listed, st).0, v)
    requires Succeeded(ReconcileListed(env, cfg, blacklisted, listed, st).1)
    ensures Asked(cfg, blacklisted, LastRound(env, cfg, blacklisted, listed, st).available, v)
  {
    CallCovers(env, cfg, blacklisted, listed, st);
    CodeOfLast(env, cfg, blacklisted, listed, st);
    var n := Fallback(env, cfg, blacklisted, FirstRound(cfg, blacklisted, st, listed));
    ReloadsCover(env, cfg, blacklisted, n);
    LastEvents(env, cfg, blacklisted, listed, st, v);
    var a := AfterReload(env, cfg, n);
    assert RemoveFailed(a.available, []) == a.available;
    PlannedMatches(cfg, blacklisted, a.state, a.available, a.failed, a.allFailed + ToSet(a.failed), a.ok);
  }

  lemma LastEvents(env: Oracle, cfg: Config, blacklisted: set<int>, listed: seq<int>, st: ModelState, v: int)
    requires Returns(env, cfg, blacklisted, listed, st)
    requires ReloadedBetween(st, ReconcileListed(env, cfg, blacklisted, listed, st).0, v)
    ensures v in Fallback(env, cfg, blacklisted, FirstRound(cfg, blacklisted, st, listed)).plan.reload
  {
    CallCovers(env, cfg, blacklisted, listed, st);
    AnyRounds(env, cfg, blacklisted, listed, st);
    var r := FirstRound(cfg, blacklisted, st, listed);
    var n := Fallback(env, cfg, blacklisted, r);
    ReloadsCover(env, cfg, blacklisted, n);
    var a := AfterReload(env, cfg, n);
    PlannedMatches(cfg, blacklisted, a.state, RemoveFailed(a.available, a.failed), a.failed, a.allFailed + ToSet(a.failed), a.ok);
    var last := LastRound(env, cfg, blacklisted, listed, st);
    ExecuteEvents(last, r.plan.start != [] || r.plan.reload != [] || r.plan.retire != []);
    var end := ReconcileListed(env, cfg, blacklisted, listed, st).0;
    NotBetween(st, n.state, end, v);
    NotBetween(n.state, last.state, end, v);
    assert !ReloadedBetween(last.state, end, v);
    assert ReloadedBetween(n.state, last.state, v) ==> ReloadedBetween(n.state, a.state, v);
  }

  /** How much a call adds to the history: at least its first starts, and all that follows
      the loop. */
  lemma CallGrows(env: Oracle, cfg: Config, blacklisted: set<int>, listed: seq<int>, st: ModelState)
    requires Returns(env, cfg, blacklisted, listed, st)
    ensures var r := FirstRound(cfg, blacklisted, st, listed);
            var end := ReconcileListed(env, cfg, blacklisted, listed, st).0;
            && |st.log| + |r.plan.start| <= |end.log|
            && |st.log| + |Fallback(env, cfg, blacklisted, r).plan.reload| <= |end.log|
            && |st.log| + |LastRound(env, cfg, blacklisted, listed, st).plan.retire| <= |end.log|
  {
    CallCovers(env, cfg, blacklisted, listed, st);
    AnyRounds(env, cfg, blacklisted, listed, st);
    var r := FirstRound(cfg, blacklisted, st, listed);
    var n := Fallback(env, cfg, blacklisted, r);
    ReloadsCover(env, cfg, blacklisted, n);
    var a := AfterReload(env, cfg, n);
    PlannedMatches(cfg, blacklisted, a.state, RemoveFailed(a.available, a.failed), a.failed, a.allFailed + ToSet(a.failed), a.ok);
    ExecuteEvents(LastRound(env, cfg, blacklisted, listed, st), r.plan.start != [] || r.plan.reload != [] || r.plan.retire != []);
  }

  /** Without starts and reloads the final plan is the first one. */
  lemma NothingToLoad(env: Oracle, cfg: Config, blacklisted: set<int>, listed: seq<int>, st: ModelState)
    requires Returns(env, cfg, blacklisted, listed, st)
    requires var r := FirstRound(cfg, blacklisted, st, listed); r.plan.start == [] && r.plan.reload == []
    ensures var r := FirstRound(cfg, blacklisted, st, listed);
            LastRound(env, cfg, blacklisted, listed, st) == r && r.state == st && r.ok
  {
    PlannedMatches(cfg, blacklisted, st, listed, [], {}, true);
    var r := FirstRound(cfg, blacklisted, st, listed);
    NothingFlagged(st, r.state);
    assert Fallback(env, cfg, blacklisted, r) == r;
    assert AfterReload(env, cfg, r) == r;
    assert RemoveFailed(listed, []) == listed;
    assert r.allFailed + ToSet([]) == r.allFailed;
  }

  /** OK, as opposed to OK_RELOADED, is the answer exactly if the call did nothing: no start,
      no reload, no retirement and no cleanup. The model is then the same. */
  lemma OkMeansNothingDone(env: Oracle, cfg: Config, blacklisted: set<int>, listed: seq<int>, st: ModelState)
    requires Returns(env, cfg, blacklisted, listed, st)
    ensures var (end, code) := ReconcileListed(env, cfg, blacklisted, listed, st);
            && (code == Code.OK <==> end.log == st.log)
            && (code == Code.OK ==> end == st)
  {
    CallGrows(env, cfg, blacklisted, listed, st);
    CodeExact(env, cfg, blacklisted, listed, st);
    var r := FirstRound(cfg, blacklisted, st, listed);
    if r.plan.start == [] && r.plan.reload == [] {
      NothingToLoad(env, cfg, blacklisted, listed, st);
      if r.plan.retire == [] {
        assert Execute(r, false) == (st, Code.OK);
      } else {
        AnyRounds(env, cfg, blacklisted, listed, st);
        ExecuteEffect(r, true);
      }
    } else {
      AnyRounds(env, cfg, blacklisted, listed, st);
      ExecuteEffect(LastRound(env, cfg, blacklisted, listed, st), true);
      if r.plan.start == [] {
        assert Fallback(env, cfg, blacklisted, r) == r;
      }
    }
  }

  // ---- what serves after a success ----

  /** Between calls a version serves, has ended or failed to load. */
  ghost predicate Resting(i: Instance) {
    i.Serving() || i.status.WillEndUnloaded() || i.status.IsFailedLoading()
  }

  ghost predicate AllResting(st: ModelState) {
    forall v :: v in st.versions ==> Resting(st.versions[v])
  }

  lemma {:induction false} AddManyResting(env: Oracle, cfg: Config, st: ModelState, vs: seq<int>)
    requires AllResting(st)
    ensures AllResting(AddMany(env, cfg, st, vs).state)
  {
    if vs != [] {
      AddManyResting(env, cfg, st, vs[..|vs| - 1]);
    }
  }

  lemma {:induction false} ReloadManyResting(env: Oracle, cfg: Config, st: ModelState, vs: seq<int>, failed: seq<int>)
    requires AllResting(st)
    ensures AllResting(ReloadMany(env, cfg, st, vs, failed).state)
  {
    if vs != [] {
      ReloadManyResting(env, cfg, st, vs[..|vs| - 1], failed);
    }
  }

  lemma FlagsResting(a: ModelState, b: ModelState, reload: seq<int>)
    requires AllResting(a) && SameButFlags(a, b, reload)
    ensures AllResting(b)
  {
    forall v | v in b.versions ensures Resting(b.versions[v]) {
      assert Resting(a.versions[v]);
    }
  }

  lemma {:induction false} FallbackResting(env: Oracle, cfg: Config, blacklisted: set<int>, r: Round)
    requires Ends(env, cfg, blacklisted, r) && AllResting(r.state)
    ensures AllResting(Fallback(env, cfg, blacklisted, r).state)
    decreases RoundsLeft(env, cfg, blacklisted, r)
  {
    if r.plan.start != [] {
      FallbackUnfold(env, cfg, blacklisted, r);
      AddManyResting(env, cfg, r.state, r.plan.start);
      var b := AddMany(env, cfg, r.state, r.plan.start);
      if !b.ok {
        var n := NextRound(env, cfg, blacklisted, r);
        PlannedMatches(cfg, blacklisted, b.state, RemoveFailed(r.available, b.failed), b.failed,
                       r.allFailed + ToSet(b.failed), false);
        FlagsResting(b.state, n.state, n.plan.reload);
        FallbackResting(env, cfg, blacklisted, n);
      }
    }
  }

  lemma LoadsRest(env: Oracle, cfg: Config, blacklisted: set<int>, listed: seq<int>, st: ModelState)
    requires Returns(env, cfg, blacklisted, listed, st) && AllResting(st)
    ensures AllResting(AfterReload(env, cfg, Fallback(env, cfg, blacklisted, FirstRound(cfg, blacklisted, st, listed))).state)
  {
    PlannedMatches(cfg, blacklisted, st, listed, [], {}, true);
    var r := FirstRound(cfg, blacklisted, st, listed);
    FlagsResting(st, r.state, r.plan.reload);
    FallbackResting(env, cfg, blacklisted, r);
    var n := Fallback(env, cfg, blacklisted, r);
    ReloadManyResting(env, cfg, n.state, n.plan.reload, n.failed);
  }

  lemma ExecutedRests(last: Round, end: ModelState)
    requires AllResting(last.state) && Executed(last, end)
    ensures AllResting(end)
  {
    forall v | v in end.versions ensures Resting(end.versions[v]) {
      assert Resting(last.state.versions[v]);
    }
  }

  /** A call leaves its model at rest. */
  lemma CallRests(env: Oracle, cfg: Config, blacklisted: set<int>, listed: seq<int>, st: ModelState)
    requires Returns(env, cfg, blacklisted, listed, st) && AllResting(st)
    ensures AllResting(ReconcileListed(env, cfg, blacklisted, listed, st).0)
  {
    LoadsRest(env, cfg, blacklisted, listed, st);
    var a := AfterReload(env, cfg, Fallback(env, cfg, blacklisted, FirstRound(cfg, blacklisted, st, listed)));
    PlannedMatches(cfg, blacklisted, a.state, RemoveFailed(a.available, a.failed), a.failed, a.allFailed + ToSet(a.failed), a.ok);
    var last := LastRound(env, cfg, blacklisted, listed, st);
    FlagsResting(a.state, last.state, last.plan.reload);
    AnyExecutes(env, cfg, blacklisted, listed, st);
    ExecutedRests(last, ReconcileListed(env, cfg, blacklisted, listed, st).0);
  }

  /** After a success exactly the versions that the policy takes from the remaining list,
      without blacklisted ones, are AVAILABLE, each with the compared fields of the
      configuration. */
  lemma SuccessServes(env: Oracle, cfg: Config, blacklisted: set<int>, listed: seq<int>, st: ModelState)
    requires Returns(env, cfg, blacklisted, listed, st) && AllResting(st)
    requires Succeeded(ReconcileListed(env, cfg, blacklisted, listed, st).1)
    ensures var end := ReconcileListed(env, cfg, blacklisted, listed, st).0;
            var remaining := LastRound(env, cfg, blacklisted, listed, st).available;
            && AllResting(end)
            && (forall v :: v in ServingVersions(end.versions) <==> Asked(cfg, blacklisted, remaining, v))
            && (forall v :: v in ServingVersions(end.versions) ==> end.versions[v].config.serving == cfg.serving)
  {
    CallRests(env, cfg, blacklisted, listed, st);
    PolicySafety(env, cfg, blacklisted, listed, st);
    var end := ReconcileListed(env, cfg, blacklisted, listed, st).0;
    var remaining := LastRound(env, cfg, blacklisted, listed, st).available;
    forall v | Asked(cfg, blacklisted, remaining, v)
      ensures v in ServingVersions(end.versions) && end.versions[v].config.serving == cfg.serving
    {
      SuccessIsCurrent(env, cfg, blacklisted, listed, st, v);
      assert Resting(end.versions[v]);
    }
    forall v | v in ServingVersions(end.versions) ensures Asked(cfg, blacklisted, remaining, v) {
      assert v in ToSet(Filter(cfg.policy, remaining));
    }
  }

  /** Without a custom loader, after a call in which every load succeeded exactly the
      versions that the policy takes from the listing are AVAILABLE, with the compared
      fields of the configuration, whatever the model was loaded with before. */
  lemma LoadsServe(env: Oracle, cfg: Config, listed: seq<int>, st: ModelState)
    requires cfg.policy.Valid() && !cfg.CustomLoaderRequired() && AllResting(st) && forall n, v :: env(n, v)
    ensures Returns(env, cfg, {}, listed, st)
    ensures var (end, code) := ReconcileListed(env, cfg, {}, listed, st);
            && Succeeded(code)
            && (forall v :: v in ServingVersions(end.versions) <==> v in Filter(cfg.policy, listed))
            && (forall v :: v in Filter(cfg.policy, listed) ==>
                  v in end.versions && end.versions[v].config.serving == cfg.serving)
  {
    CallWithoutFailure(env, cfg, listed, st);
    PlannedMatches(cfg, {}, st, listed, [], {}, true);
    var r := FirstRound(cfg, {}, st, listed);
    RoundsWithoutFailure(env, cfg, r);
    CodeOfLast(env, cfg, {}, listed, st);
    SuccessServes(env, cfg, {}, listed, st);
    var st2 := ReloadMany(env, cfg, AddMany(env, cfg, r.state, r.plan.start).state, r.plan.reload, []).state;
    PlannedMatches(cfg, {}, st2, listed, [], {}, true);
    var end := ReconcileListed(env, cfg, {}, listed, st).0;
    forall v | v in Filter(cfg.policy, listed) ensures v in end.versions && end.versions[v].config.serving == cfg.serving {
      assert Asked(cfg, {}, listed, v);
      assert v in ServingVersions(end.versions);
    }
  }

  // ---- the whole call ----

  /** A call that gets as far as planning. */
  ghost predicate Planning(cfg: Config, w: World) {
    && !(w.subscribed && (cfg.serving.batchingMode == AUTO
                          || exists n :: n in cfg.serving.shapes && cfg.serving.shapes[n].shapeMode == AUTO))
    && w.listing.Some?
    && (cfg.serving.customLoaderOptions != map[] ==> w.loader.Some?)
  }

  /** What a call with the given configuration and world promises about the model before and
      after it and about its code. Dynamic parameters are refused on a subscribed model, and
      unreadable versions are reported, without any effect. Without the loader it needs the
      model is unloaded. Otherwise only listed versions serve, and none that the loader
      blacklists; a failed reload is reported; OK means that nothing was done; and after a
      success what serves has the configuration. */
  ghost predicate Answers(cfg: Config, w: World, st: ModelState, end: ModelState, code: Code) {
    && (code == SUBSCRIBED_DYNAMIC <==>
          w.subscribed && (cfg.serving.batchingMode == AUTO
                           || exists n :: n in cfg.serving.shapes && cfg.serving.shapes[n].shapeMode == AUTO))
    && (code == UNREADABLE <==> code != SUBSCRIBED_DYNAMIC && w.listing.None?)
    && (code == SUBSCRIBED_DYNAMIC || code == UNREADABLE ==> end == st)
    && (code != SUBSCRIBED_DYNAMIC && code != UNREADABLE && !Planning(cfg, w) ==>
          code == Code.OK && end.versions.Keys == st.versions.Keys
          && forall v :: v in end.versions ==> end.versions[v].status == END_STATUS)
    && (Planning(cfg, w) ==>
          && (code == Code.OK || code == OK_RELOADED || code == LOAD_FAILED)
          && ServingVersions(end.versions) <= ToSet(w.listing.value)
          && (cfg.serving.customLoaderOptions != map[] ==> ServingVersions(end.versions) !! w.loader.value)
          && (forall v :: ReloadedBetween(st, end, v) && v in end.versions && end.versions[v].status == FAILED_STATUS ==>
                code == LOAD_FAILED)
          && (code == Code.OK <==> end.log == st.log) && (code == Code.OK ==> end == st)
          && (code != LOAD_FAILED && AllResting(st) ==>
                forall v :: v in ServingVersions(end.versions) ==> end.versions[v].config.serving == cfg.serving))
  }

  lemma {:induction false} RetireAllEnds(st: ModelState, vs: seq<int>)
    requires ToSet(vs) <= st.versions.Keys
    ensures var end := RetireAll(st, vs);
            end.versions.Keys == st.versions.Keys && forall v :: v in vs ==> end.versions[v].status == END_STATUS
  {
    if vs != [] {
      var front := vs[..|vs| - 1];
      assert vs == front + [vs[|vs| - 1]];
      assert vs[|vs| - 1] in ToSet(vs);
      assert forall y :: y in ToSet(front) ==> y in ToSet(vs);
      RetireAllEnds(st, front);
    }
  }

  lemma ListedAnswers(env: Oracle, cfg: Config, w: World, st: ModelState)
    requires Planning(cfg, w) && Returns(env, cfg, Blacklisted(w), w.listing.value, st)
    ensures var (end, code) := ReconcileListed(env, cfg, Blacklisted(w), w.listing.value, st);
            Answers(cfg, w, st, end, code)
  {
    var blacklisted, listed := Blacklisted(w), w.listing.value;
    var (end, code) := ReconcileListed(env, cfg, blacklisted, listed, st);
    PolicySafety(env, cfg, blacklisted, listed, st);
    var remaining := LastRound(env, cfg, blacklisted, listed, st).available;
    FilterSubset(cfg.policy, remaining);
    forall v | v in ServingVersions(end.versions) ensures v in ToSet(listed) {
      assert v in ToSet(Filter(cfg.policy, remaining));
      assert v in ToSet(remaining);
    }
    CodeExact(env, cfg, blacklisted, listed, st);
    OkMeansNothingDone(env, cfg, blacklisted, listed, st);
    forall v | ReloadedBetween(st, end, v) && v in end.versions && end.versions[v].status == FAILED_STATUS
      ensures code == LOAD_FAILED
    {
      FailedReloadReported(env, cfg, blacklisted, listed, st, v);
    }
    if code != LOAD_FAILED && AllResting(st) {
      SuccessServes(env, cfg, blacklisted, listed, st);
    }
  }

  lemma ReconcileAnswers(env: Oracle, cfg: Config, w: World, st: ModelState)
    requires GetsToPlan(cfg, w) ==> Returns(env, cfg, Blacklisted(w), w.listing.value, st)
    ensures var (end, code) := Reconcile(env, cfg, w, st); Answers(cfg, w, st, end, code)
  {
    assert Planning(cfg, w) <==> GetsToPlan(cfg, w);
    if GetsToPlan(cfg, w) {
      ListedAnswers(env, cfg, w, st);
    } else {
      assert ToSet(Keys(st.versions.Keys)) == st.versions.Keys;
      RetireAllEnds(st, Keys(st.versions.Keys));
    }
  }

  method ReloadModelWithVersions(env: Oracle, cfg: Config, w: World, model: Model) returns (code: Code)
    requires model.Valid()
    requires GetsToPlan(cfg, w) ==> Returns(env, cfg, Blacklisted(w), w.listing.value, model.View())
    modifies model, model.modelVersions.Values
    ensures model.Valid()
    ensures (model.View(), code) == Reconcile(env, cfg, w, old(model.View()))
    ensures Answers(cfg, w, old(model.View()), model.View(), code)
  {
    ReconcileAnswers(env, cfg, w, model.View());
    if w.subscribed && DynamicParameterEnabled(cfg) {
      return SUBSCRIBED_DYNAMIC;
    }
    if w.listing.None? {
      return UNREADABLE;
    }
    if cfg.CustomLoaderRequired() && w.loader.None? {
      assert model.Instances().Keys == model.modelVersions.Keys;
      model.RetireAllVersions();
      return Code.OK;
    }
    code := ReconcileVersions(env, cfg, Blacklisted(w), w.listing.value, model);
  }
}
