/** The fallback loop of a reconcile call, for load outcomes that are fixed per version:
    on an ascending list it ends with the best choice the policy allows. */
module FallbackOptimality {
  import opened Vectors
  import opened VersionPolicy
  import opened ModelConfig
  import opened ModelVersionStatus
  import opened Model
  import opened ModelManager
  import opened Reconciliation

  /** Every load of version v has the outcome ok(v). */
  function Fixed(ok: int -> bool): Oracle {
    (n, v) => ok(v)
  }

  const EMPTY_MODEL := ModelState(map[], 0, 0, [])

  function Loadable(ok: int -> bool, listed: seq<int>): set<int> {
    set v | v in listed && ok(v)
  }

  /** The registered versions are exactly those tried so far, and the failed ones are
      exactly those taken off the list. */
  ghost predicate Tried(ok: int -> bool, cfg: Config, listed: seq<int>, r: Round) {
    && (forall v :: v in r.state.versions ==>
          && v in listed
          && r.state.versions[v].config == cfg.WithVersion(v)
          && (ok(v) ==> r.state.versions[v].status == AVAILABLE_STATUS && Selected(cfg.policy, ToSet(r.available), v))
          && (!ok(v) ==> r.state.versions[v].status == FAILED_STATUS && v in r.allFailed && v !in r.available))
    && (forall v :: v in r.available ==> v in listed)
    && (forall v :: v in listed && v !in r.available ==> v in r.state.versions && !ok(v))
    && (forall v :: v in r.failed ==> v !in r.available)
    && NoDup(r.available) && Ascending(r.available)
    && r.plan.reload == []
  }

  /** Every selected version has been tried. */
  ghost predicate Exhausted(cfg: Config, r: Round) {
    Select(cfg.policy, ToSet(r.available)) <= r.state.versions.Keys
  }

  lemma {:induction false} FixedOutcomes(ok: int -> bool, cfg: Config, st: ModelState, vs: seq<int>)
    ensures forall v :: v in AddMany(Fixed(ok), cfg, st, vs).failed <==> v in vs && !ok(v)
  {
    if vs == [] {
    } else {
      var front := vs[..|vs| - 1];
      assert vs == front + [vs[|vs| - 1]];
      FixedOutcomes(ok, cfg, st, front);
      assert forall v :: v in vs <==> v in front || v == vs[|vs| - 1];
    }
  }

  lemma NothingToReload(ok: int -> bool, cfg: Config, r: Round)
    requires Fits(cfg, {}, r)
    requires forall v :: v in r.state.versions && ok(v) ==>
               r.state.versions[v].status == AVAILABLE_STATUS && r.state.versions[v].config == cfg.WithVersion(v)
    requires forall v :: v in r.state.versions && !ok(v) ==> v !in r.available
    ensures r.plan.reload == []
  {
    forall v ensures v !in ToSet(r.plan.reload) {
      assert v in Target(cfg, {}, r.available, r.state.versions.Keys) ==> v in r.available;
    }
    EmptyList(r.plan.reload);
  }

  lemma FirstTried(ok: int -> bool, cfg: Config, listed: seq<int>)
    requires cfg.policy.Valid() && NoDup(listed) && Ascending(listed)
    ensures var r := FirstRound(cfg, {}, EMPTY_MODEL, listed);
            Tried(ok, cfg, listed, r) && r.state == EMPTY_MODEL && Fits(cfg, {}, r)
  {
    PlannedFits(cfg, {}, EMPTY_MODEL, listed, [], {}, true);
    var r := FirstRound(cfg, {}, EMPTY_MODEL, listed);
    assert r.state.versions.Keys == {};
    assert r.state.versions == map[];
    NothingToReload(ok, cfg, r);
  }

  /** The versions after a round of starts. */
  lemma StartedTried(ok: int -> bool, cfg: Config, listed: seq<int>, r: Round, b: Batch)
    requires Tried(ok, cfg, listed, r) && Fits(cfg, {}, r)
    requires b == AddMany(Fixed(ok), cfg, r.state, r.plan.start)
    ensures b.state.versions.Keys == r.state.versions.Keys + ToSet(r.plan.start)
    ensures forall v :: v in b.failed <==> v in r.plan.start && !ok(v)
    ensures forall v :: v in b.state.versions ==>
              && v in listed
              && b.state.versions[v].config == cfg.WithVersion(v)
              && (ok(v) ==> b.state.versions[v].status == AVAILABLE_STATUS && Selected(cfg.policy, ToSet(r.available), v))
              && (!ok(v) ==> b.state.versions[v].status == FAILED_STATUS)
    ensures b.ok ==> Select(cfg.policy, ToSet(r.available)) <= b.state.versions.Keys
  {
    AddManyEffect(Fixed(ok), cfg, r.state, r.plan.start);
    AddManyKeys(Fixed(ok), cfg, r.state, r.plan.start);
    FixedOutcomes(ok, cfg, r.state, r.plan.start);
    forall v | v in b.state.versions
      ensures v in listed && b.state.versions[v].config == cfg.WithVersion(v)
      ensures ok(v) ==> b.state.versions[v].status == AVAILABLE_STATUS && Selected(cfg.policy, ToSet(r.available), v)
      ensures !ok(v) ==> b.state.versions[v].status == FAILED_STATUS
    {
      if v !in r.state.versions {
        assert v in ToSet(r.plan.start);
        assert v in r.plan.start;
        assert v in Select(cfg.policy, ToSet(r.available));
      }
    }
  }

  lemma FailedTried(ok: int -> bool, cfg: Config, listed: seq<int>, r: Round, b: Batch, n: Round)
    requires Tried(ok, cfg, listed, r) && Fits(cfg, {}, r)
    requires b == AddMany(Fixed(ok), cfg, r.state, r.plan.start)
    requires n.available == RemoveFailed(r.available, b.failed) && n.failed == b.failed
    requires n.allFailed == r.allFailed + ToSet(b.failed)
    requires Fits(cfg, {}, n) && SameButFlags(b.state, n.state, n.plan.reload)
    ensures Tried(ok, cfg, listed, n)
  {
    StartedTried(ok, cfg, listed, r, b);
    RemoveFailedSubset(r.available, b.failed);
    RemoveFailedAscending(r.available, b.failed);
    forall v ensures v in n.available <==> v in r.available && v !in b.failed {
      assert v in n.available <==> v in ToSet(n.available);
    }
    forall v | v in n.state.versions
      ensures ok(v) ==> Selected(cfg.policy, ToSet(n.available), v)
      ensures !ok(v) ==> v in n.allFailed && v !in n.available
    {
      assert v in b.state.versions;
      if ok(v) {
        assert v !in b.failed;
        StillSelected(cfg.policy, r.available, b.failed, v);
      } else if v !in r.state.versions {
        assert v in ToSet(r.plan.start);
        assert v in b.failed && v in ToSet(b.failed);
      }
    }
    NothingToReload(ok, cfg, n);
  }

  lemma NothingLeft(cfg: Config, r: Round)
    requires Fits(cfg, {}, r) && r.plan.start == []
    ensures Exhausted(cfg, r)
  {
    var q := Target(cfg, {}, r.available, r.state.versions.Keys);
    assert ToSet(r.plan.start) == {};
    assert forall x :: x in Select(cfg.policy, ToSet(r.available)) ==> x in q;
    assert forall x :: x in q ==> x in r.state.versions.Keys || x in q - r.state.versions.Keys;
  }

  lemma {:induction false} FallbackTried(ok: int -> bool, cfg: Config, listed: seq<int>, r: Round)
    requires cfg.policy.Valid() && Ends(Fixed(ok), cfg, {}, r) && Tried(ok, cfg, listed, r) && Fits(cfg, {}, r)
    ensures var n := Fallback(Fixed(ok), cfg, {}, r);
            Tried(ok, cfg, listed, n) && Exhausted(cfg, n)
    decreases RoundsLeft(Fixed(ok), cfg, {}, r)
  {
    if r.plan.start == [] {
      NothingLeft(cfg, r);
    } else {
      FallbackUnfold(Fixed(ok), cfg, {}, r);
      var b := AddMany(Fixed(ok), cfg, r.state, r.plan.start);
      var n := NextRound(Fixed(ok), cfg, {}, r);
      StartedTried(ok, cfg, listed, r, b);
      AddManyKeys(Fixed(ok), cfg, r.state, r.plan.start);
      if b.ok {
        NoneFailed(ok, cfg, listed, r, b);
      } else {
        RemoveFailedSubset(r.available, b.failed);
        PlannedFits(cfg, {}, b.state, RemoveFailed(r.available, b.failed), b.failed, r.allFailed + ToSet(b.failed), false);
        FailedTried(ok, cfg, listed, r, b, n);
        FallbackTried(ok, cfg, listed, n);
      }
    }
  }

  lemma NoneFailed(ok: int -> bool, cfg: Config, listed: seq<int>, r: Round, b: Batch)
    requires Tried(ok, cfg, listed, r) && Fits(cfg, {}, r)
    requires b == AddMany(Fixed(ok), cfg, r.state, r.plan.start) && b.ok && b.failed == []
    ensures Tried(ok, cfg, listed, r.(state := b.state, failed := b.failed, ok := true))
  {
    StartedTried(ok, cfg, listed, r, b);
    forall v | v in b.state.versions && !ok(v) ensures v in r.state.versions {
      assert v !in b.failed;
      assert v in r.state.versions || v in ToSet(r.plan.start);
    }
  }

  /** When everything selected has been tried, what is selected is what could be
      selected from the loadable versions alone. */
  lemma TriedIsBest(ok: int -> bool, cfg: Config, listed: seq<int>, r: Round)
    requires Tried(ok, cfg, listed, r) && Exhausted(cfg, r)
    ensures Select(cfg.policy, ToSet(r.available)) == Select(cfg.policy, Loadable(ok, listed))
    ensures ServingVersions(r.state.versions) == Select(cfg.policy, Loadable(ok, listed))
  {
    var chosen := Select(cfg.policy, ToSet(r.available));
    var good := Loadable(ok, listed);
    forall v | v in chosen ensures v in good && v in ServingVersions(r.state.versions) {
      assert v in r.available && v in r.state.versions;
    }
    forall v | v in good ensures v in ToSet(r.available) {
    }
    DropUnselected(cfg.policy, ToSet(r.available), good);
    forall v | v in ServingVersions(r.state.versions) ensures v in chosen {
      assert ok(v);
    }
  }

  lemma LastTried(ok: int -> bool, cfg: Config, listed: seq<int>, n: Round, last: Round)
    requires Tried(ok, cfg, listed, n) && Exhausted(cfg, n)
    requires ToSet(last.available) == ToSet(n.available) && last.allFailed == n.allFailed + ToSet(n.failed)
    requires Fits(cfg, {}, last) && SameButFlags(n.state, last.state, last.plan.reload)
    ensures var q := Select(cfg.policy, Loadable(ok, listed));
            forall v :: v in last.state.versions ==>
              && (v in last.plan.retire <==> v !in q)
              && (v !in q ==> v in last.allFailed && !ok(v))
              && (v in q ==> ok(v) && last.state.versions[v].status == AVAILABLE_STATUS)
  {
    TriedIsBest(ok, cfg, listed, n);
    var q := Select(cfg.policy, Loadable(ok, listed));
    assert Target(cfg, {}, last.available, last.state.versions.Keys) == q;
    forall v | v in last.state.versions
      ensures v in last.plan.retire <==> v !in q
      ensures v !in q ==> v in last.allFailed && !ok(v)
      ensures v in q ==> ok(v) && last.state.versions[v].status == AVAILABLE_STATUS
    {
      assert v in n.state.versions;
      assert v in last.plan.retire <==> v in ToSet(last.plan.retire);
      assert ok(v) ==> v in ServingVersions(n.state.versions);
    }
  }

  /** Fallback is optimal. Starting from nothing, on an ascending list without
      duplicates and for any load outcome per version, the call ends with exactly the
      versions AVAILABLE that the policy selects from the loadable ones - for latest-k
      the k greatest of them - and every other version it tried has failed to load and
      is in LOADING with error code UNKNOWN. */
  lemma FallbackOptimal(ok: int -> bool, cfg: Config, listed: seq<int>)
    requires cfg.policy.Valid() && NoDup(listed) && Ascending(listed)
    ensures Returns(Fixed(ok), cfg, {}, listed, EMPTY_MODEL)
    ensures var end := ReconcileListed(Fixed(ok), cfg, {}, listed, EMPTY_MODEL).0;
            && ServingVersions(end.versions) == Select(cfg.policy, Loadable(ok, listed))
            && (forall v :: v in end.versions && !end.versions[v].Serving() ==>
                  end.versions[v].status == FAILED_STATUS && !ok(v))
  {
    CallExecutes(Fixed(ok), cfg, {}, listed, EMPTY_MODEL);
    var last, n := LastRoundTried(ok, cfg, listed);
    OnlyLoadable(ok, cfg, listed, n, last, ReconcileListed(Fixed(ok), cfg, {}, listed, EMPTY_MODEL).0);
  }

  lemma LastRoundTried(ok: int -> bool, cfg: Config, listed: seq<int>) returns (last: Round, n: Round)
    requires cfg.policy.Valid() && NoDup(listed) && Ascending(listed)
    ensures Returns(Fixed(ok), cfg, {}, listed, EMPTY_MODEL)
    ensures last == LastRound(Fixed(ok), cfg, {}, listed, EMPTY_MODEL)
    ensures Tried(ok, cfg, listed, n) && Exhausted(cfg, n)
    ensures ToSet(last.available) == ToSet(n.available) && last.allFailed == n.allFailed + ToSet(n.failed)
    ensures Fits(cfg, {}, last) && SameButFlags(n.state, last.state, last.plan.reload)
  {
    CallRounds(Fixed(ok), cfg, {}, listed, EMPTY_MODEL);
    FirstTried(ok, cfg, listed);
    var r := FirstRound(cfg, {}, EMPTY_MODEL, listed);
    FallbackTried(ok, cfg, listed, r);
    n := Fallback(Fixed(ok), cfg, {}, r);
    FinalRound(ok, cfg, listed, n);
    assert AfterReload(Fixed(ok), cfg, n) == n;
    last := FinalPlan(cfg, {}, n);
  }

  lemma FinalRound(ok: int -> bool, cfg: Config, listed: seq<int>, n: Round)
    requires cfg.policy.Valid() && Tried(ok, cfg, listed, n)
    ensures var last := FinalPlan(cfg, {}, n);
            && ToSet(last.available) == ToSet(n.available) && last.allFailed == n.allFailed + ToSet(n.failed)
            && Fits(cfg, {}, last) && SameButFlags(n.state, last.state, last.plan.reload)
  {
    RemoveFailedSubset(n.available, n.failed);
    RemoveFailedAscending(n.available, n.failed);
    var remaining := RemoveFailed(n.available, n.failed);
    var allFailed := n.allFailed + ToSet(n.failed);
    FinalPlanIs(cfg, {}, n, n.state, remaining, n.failed, allFailed, n.ok);
    PlannedFits(cfg, {}, n.state, remaining, n.failed, allFailed, n.ok);
    forall v ensures v in ToSet(remaining) <==> v in ToSet(n.available) {
      assert v in ToSet(n.failed) ==> v !in ToSet(n.available);
    }
  }

  lemma OnlyLoadable(ok: int -> bool, cfg: Config, listed: seq<int>, n: Round, last: Round, end: ModelState)
    requires Tried(ok, cfg, listed, n) && Exhausted(cfg, n) && Executed(last, end)
    requires ToSet(last.available) == ToSet(n.available) && last.allFailed == n.allFailed + ToSet(n.failed)
    requires Fits(cfg, {}, last) && SameButFlags(n.state, last.state, last.plan.reload)
    ensures ServingVersions(end.versions) == Select(cfg.policy, Loadable(ok, listed))
    ensures forall v :: v in end.versions && !end.versions[v].Serving() ==> end.versions[v].status == FAILED_STATUS && !ok(v)
  {
    TriedIsBest(ok, cfg, listed, n);
    LastTried(ok, cfg, listed, n, last);
    var q := Select(cfg.policy, Loadable(ok, listed));
    forall v | v in end.versions
      ensures end.versions[v].Serving() <==> v in q
      ensures v !in q ==> end.versions[v].status == FAILED_STATUS && !ok(v)
    {
    }
    forall v ensures v in ServingVersions(end.versions) <==> v in q {
    }
  }
}
