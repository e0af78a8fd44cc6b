/** Where the optimality of the fallback loop ends. The list of versions comes from
    directory names in lexicographic order, so "10" stands before "2", but failed
    versions are looked up with a binary search. */
module FallbackLimits {
  import opened Vectors
  import opened VersionPolicy
  import opened ModelConfig
  import opened Model
  import opened ModelManager
  import opened Reconciliation
  import opened FallbackOptimality

  function WithLatest(cfg: Config, k: nat): Config {
    cfg.(policy := LatestVersions(k))
  }

  /** The call ends with the best choice that latest-k allows. */
  ghost predicate Optimal(cfg: Config, k: nat, listed: seq<int>, ok: int -> bool)
    requires NoDup(listed)
  {
    NoDupReturns(Fixed(ok), WithLatest(cfg, k), {}, listed, EMPTY_MODEL);
    ServingVersions(ReconcileListed(Fixed(ok), WithLatest(cfg, k), {}, listed, EMPTY_MODEL).0.versions)
    == Select(LatestVersions(k), Loadable(ok, listed))
  }

  // ---- what a binary search misses ----

  lemma {:induction false} LeastIsLowest(s: seq<int>, m: int, first: nat, len: nat)
    requires first + len <= |s| && forall x :: x in s ==> m <= x
    ensures LowerBound(s, m, first, len) == first
    decreases len
  {
    if len != 0 {
      var half := len / 2;
      var mid := first + half;
      assert s[mid] in s;
      assert !(s[mid] < m);
      LeastIsLowest(s, m, first, half);
    }
  }

  /** The greatest version is missed when it comes first. */
  lemma GreatestFirstMissed(s: seq<int>)
    requires |s| >= 2 && NoDup(s) && forall x :: x in s ==> x <= s[0]
    ensures !BinarySearch(s, s[0])
  {
    NoDupDistinct(s);
    var v := s[0];
    var mid := |s| / 2;
    assert s[mid] in s && s[mid] < v;
    LowerBoundStops(s, v, 0, |s|);
  }

  // ---- a version that is never started ----

  lemma NeverRegistered(env: Oracle, cfg: Config, listed: seq<int>, m: int)
    requires NoDup(listed) && Returns(env, cfg, {}, listed, EMPTY_MODEL)
    requires m !in Fallback(env, cfg, {}, FirstRound(cfg, {}, EMPTY_MODEL, listed)).state.versions
    ensures m !in ReconcileListed(env, cfg, {}, listed, EMPTY_MODEL).0.versions
  {
    CallRounds(env, cfg, {}, listed, EMPTY_MODEL);
    CallExecutes(env, cfg, {}, listed, EMPTY_MODEL);
    var n := Fallback(env, cfg, {}, FirstRound(cfg, {}, EMPTY_MODEL, listed));
    ReloadManyEffect(env, cfg, n.state, n.plan.reload, n.failed);
    var a := AfterReload(env, cfg, n);
    RemoveFailedSubset(a.available, a.failed);
    var allFailed := a.allFailed + ToSet(a.failed);
    FinalPlanIs(cfg, {}, a, a.state, RemoveFailed(a.available, a.failed), a.failed, allFailed, a.ok);
    PlannedFits(cfg, {}, a.state, RemoveFailed(a.available, a.failed), a.failed, allFailed, a.ok);
  }

  /** Latest-1 while a version other than the least one is in front of it. */
  ghost predicate Blocked(m: int, r: Round) {
    && NoDup(r.available) && m in r.available && r.available[0] != m
    && (forall x :: x in r.available ==> m <= x)
    && m !in r.state.versions
  }

  lemma OnlyGreatest(s: set<int>, x: int, y: int)
    requires Selected(LatestVersions(1), s, x) && y in s
    ensures y <= x
  {
    if y > x {
      SubsetSize({y}, Above(s, x));
    }
  }

  lemma {:induction false} BlockedForever(env: Oracle, cfg: Config, m: int, r: Round)
    requires cfg.policy == LatestVersions(1)
    requires Ends(env, cfg, {}, r) && Fits(cfg, {}, r) && Blocked(m, r)
    ensures m !in Fallback(env, cfg, {}, r).state.versions
    decreases RoundsLeft(env, cfg, {}, r)
  {
    if r.plan.start != [] {
      FallbackUnfold(env, cfg, {}, r);
      var b := AddMany(env, cfg, r.state, r.plan.start);
      AddManyKeys(env, cfg, r.state, r.plan.start);
      var t := r.plan.start[0];
      StartIsGreatest(cfg, r, t, m);
      if !b.ok {
        var n := NextRound(env, cfg, {}, r);
        RemoveFailedSubset(r.available, b.failed);
        PlannedFits(cfg, {}, b.state, RemoveFailed(r.available, b.failed), b.failed, r.allFailed + ToSet(b.failed), false);
        StillBlocked(r.available, b.failed, t, m);
        BlockedForever(env, cfg, m, n);
      }
    }
  }

  lemma StartIsGreatest(cfg: Config, r: Round, t: int, m: int)
    requires cfg.policy == LatestVersions(1) && Fits(cfg, {}, r) && Blocked(m, r) && t in r.plan.start
    ensures forall x :: x in r.plan.start ==> x == t
    ensures forall x :: x in r.available ==> x <= t
    ensures t in r.available && m != t
  {
    var a := ToSet(r.available);
    assert forall x :: x in r.plan.start ==> x in ToSet(r.plan.start);
    forall x | x in r.plan.start ensures Selected(LatestVersions(1), a, x) {
      assert x in Select(cfg.policy, a);
    }
    forall x, y | x in r.plan.start && y in r.available ensures y <= x {
      OnlyGreatest(a, x, y);
    }
    assert r.available[0] in r.available;
  }

  lemma StillBlocked(available: seq<int>, failed: seq<int>, t: int, m: int)
    requires NoDup(available) && m in available && available[0] != m
    requires forall x :: x in available ==> m <= x <= t
    requires t in available && m != t
    requires forall v :: v in ToSet(failed) ==> v == t
    ensures var a := RemoveFailed(available, failed);
            m in a && a[0] != m && forall x :: x in a ==> m <= x
  {
    if failed != [] {
      assert forall x :: x in failed ==> x in ToSet(failed);
      RemoveOne(available, failed, t);
    }
    WithoutMembers(available, t);
    if BinarySearch(available, t) {
      if available[0] == t {
        assert |available| >= 2;
        GreatestFirstMissed(available);
      }
      assert Without(available, t)[0] == available[0];
    }
  }

  /** Only version m loads. */
  ghost predicate OnlyLoading(ok: int -> bool, m: int) {
    forall x :: ok(x) <==> x == m
  }

  lemma BlockedNotOptimal(cfg: Config, listed: seq<int>, m: int, ok: int -> bool)
    requires NoDup(listed) && m in listed && listed[0] != m && forall x :: x in listed ==> m <= x
    requires OnlyLoading(ok, m)
    ensures !Optimal(cfg, 1, listed, ok)
  {
    BlockedLeavesOut(WithLatest(cfg, 1), listed, m, ok);
    OnlyOneWanted(listed, ok, m);
    NotOptimalIf(cfg, 1, listed, ok, m);
  }

  lemma OnlyOneWanted(listed: seq<int>, ok: int -> bool, m: int)
    requires m in listed && OnlyLoading(ok, m)
    ensures m in Select(LatestVersions(1), Loadable(ok, listed))
  {
    assert Above(Loadable(ok, listed), m) == {};
  }

  lemma BlockedLeavesOut(cfg: Config, listed: seq<int>, m: int, ok: int -> bool)
    requires NoDup(listed) && m in listed && listed[0] != m && forall x :: x in listed ==> m <= x
    requires cfg.policy == LatestVersions(1)
    ensures Returns(Fixed(ok), cfg, {}, listed, EMPTY_MODEL)
    ensures m !in ReconcileListed(Fixed(ok), cfg, {}, listed, EMPTY_MODEL).0.versions
  {
    NoDupReturns(Fixed(ok), cfg, {}, listed, EMPTY_MODEL);
    PlannedFits(cfg, {}, EMPTY_MODEL, listed, [], {}, true);
    var r := FirstRound(cfg, {}, EMPTY_MODEL, listed);
    assert m !in r.state.versions;
    BlockedForever(Fixed(ok), cfg, m, r);
    NeverRegistered(Fixed(ok), cfg, listed, m);
  }

  // ---- a failed version that keeps its place ----

  lemma AllButLeast(s: set<int>, m: int)
    requires m in s && forall x :: x in s ==> m <= x
    ensures Select(LatestVersions(|s| - 1), s) == s - {m}
  {
    assert Above(s, m) == s - {m};
    forall x | x in s && x != m ensures |Above(s, x)| < |s| - 1 {
      SubsetSize(Above(s, x), s - {m} - {x});
    }
  }

  /** Only version v fails to load. */
  ghost predicate OnlyFailing(ok: int -> bool, v: int) {
    forall x :: ok(x) <==> x != v
  }

  lemma MissedNotOptimal(cfg: Config, k: nat, listed: seq<int>, m: int, v: int, ok: int -> bool)
    requires NoDup(listed) && m in listed && forall x :: x in listed ==> m <= x
    requires v in listed && v != m && !BinarySearch(listed, v)
    requires k == |listed| - 1 && OnlyFailing(ok, v)
    ensures !Optimal(cfg, k, listed, ok)
  {
    MissedLeavesOut(WithLatest(cfg, k), listed, m, v, ok);
    StillWanted(listed, m, v, ok);
    NotOptimalIf(cfg, k, listed, ok, m);
  }

  lemma NotOptimalIf(cfg: Config, k: nat, listed: seq<int>, ok: int -> bool, m: int)
    requires NoDup(listed) && m in Select(LatestVersions(k), Loadable(ok, listed))
    requires Returns(Fixed(ok), WithLatest(cfg, k), {}, listed, EMPTY_MODEL)
    requires m !in ReconcileListed(Fixed(ok), WithLatest(cfg, k), {}, listed, EMPTY_MODEL).0.versions
    ensures !Optimal(cfg, k, listed, ok)
  {
  }

  lemma MissedLeavesOut(cfg: Config, listed: seq<int>, m: int, v: int, ok: int -> bool)
    requires NoDup(listed) && m in listed && forall x :: x in listed ==> m <= x
    requires v in listed && v != m && !BinarySearch(listed, v)
    requires cfg.policy == LatestVersions(|listed| - 1) && OnlyFailing(ok, v)
    ensures Returns(Fixed(ok), cfg, {}, listed, EMPTY_MODEL)
    ensures m !in ReconcileListed(Fixed(ok), cfg, {}, listed, EMPTY_MODEL).0.versions
  {
    NoDupReturns(Fixed(ok), cfg, {}, listed, EMPTY_MODEL);
    NeverStarted(cfg, listed, m, v, ok);
    NeverRegistered(Fixed(ok), cfg, listed, m);
  }

  lemma StillWanted(listed: seq<int>, m: int, v: int, ok: int -> bool)
    requires NoDup(listed) && m in listed && v in listed && v != m && OnlyFailing(ok, v)
    ensures m in Select(LatestVersions(|listed| - 1), Loadable(ok, listed))
  {
    var good := Loadable(ok, listed);
    forall x ensures x in good <==> x in ToSet(listed) - {v} {
      assert ok(x) <==> x != v;
    }
    assert good == ToSet(listed) - {v};
    NoDupDistinct(listed);
    NoDupSize(listed);
    SubsetSize(Above(good, m), good - {m});
  }

  lemma NeverStarted(cfg: Config, listed: seq<int>, m: int, v: int, ok: int -> bool)
    requires NoDup(listed) && m in listed && forall x :: x in listed ==> m <= x
    requires v in listed && v != m && !BinarySearch(listed, v)
    requires cfg.policy == LatestVersions(|listed| - 1) && OnlyFailing(ok, v)
    ensures var r := FirstRound(cfg, {}, EMPTY_MODEL, listed);
            Ends(Fixed(ok), cfg, {}, r) && m !in Fallback(Fixed(ok), cfg, {}, r).state.versions
  {
    NoDupDistinct(listed);
    NoDupSize(listed);
    AllButLeast(ToSet(listed), m);
    NoDupReturns(Fixed(ok), cfg, {}, listed, EMPTY_MODEL);
    PlannedFits(cfg, {}, EMPTY_MODEL, listed, [], {}, true);
    StuckAfterOneRound(cfg, FirstRound(cfg, {}, EMPTY_MODEL, listed), m, v, ok);
  }

  lemma StuckAfterOneRound(cfg: Config, r: Round, m: int, v: int, ok: int -> bool)
    requires cfg.policy.Valid() && Ends(Fixed(ok), cfg, {}, r) && Fits(cfg, {}, r) && NoDup(r.available)
    requires v in r.available && v != m && !BinarySearch(r.available, v)
    requires r.state.versions.Keys == {} && Select(cfg.policy, ToSet(r.available)) == ToSet(r.available) - {m}
    requires OnlyFailing(ok, v)
    ensures m !in Fallback(Fixed(ok), cfg, {}, r).state.versions
  {
    var env := Fixed(ok);
    assert ToSet(r.plan.start) == ToSet(r.available) - {m};
    assert v in ToSet(r.plan.start);
    FallbackUnfold(env, cfg, {}, r);
    var b := AddMany(env, cfg, r.state, r.plan.start);
    AddManyKeys(env, cfg, r.state, r.plan.start);
    FixedOutcomes(ok, cfg, r.state, r.plan.start);
    assert v in b.failed;
    RemoveMissed(r.available, b.failed);
    PlannedFits(cfg, {}, b.state, r.available, b.failed, r.allFailed + ToSet(b.failed), false);
    NextRoundIs(env, cfg, {}, r, b.state, r.available, b.failed, r.allFailed + ToSet(b.failed));
    NothingToStart(cfg, NextRound(env, cfg, {}, r));
  }

  lemma NothingToStart(cfg: Config, n: Round)
    requires Fits(cfg, {}, n) && Select(cfg.policy, ToSet(n.available)) <= n.state.versions.Keys
    ensures n.plan.start == []
  {
    EmptyList(n.plan.start);
  }

  // ---- the exact condition ----

  /** For a list without duplicates: the fallback loop reaches the best choice for every
      latest-k policy and every load outcome exactly when the list is ascending. */
  lemma FallbackExact(cfg: Config, listed: seq<int>)
    requires NoDup(listed)
    ensures (forall k: nat, ok: int -> bool :: Optimal(cfg, k, listed, ok)) <==> Ascending(listed)
  {
    if Ascending(listed) {
      forall k: nat, ok: int -> bool ensures Optimal(cfg, k, listed, ok) {
        FallbackOptimal(ok, WithLatest(cfg, k), listed);
      }
    } else {
      NotAscending(cfg, listed);
    }
  }

  ghost predicate Breaks(cfg: Config, listed: seq<int>)
    requires NoDup(listed)
  {
    exists k: nat, ok: int -> bool :: !Optimal(cfg, k, listed, ok)
  }

  lemma Witness(cfg: Config, k: nat, listed: seq<int>, ok: int -> bool)
    requires NoDup(listed) && !Optimal(cfg, k, listed, ok)
    ensures Breaks(cfg, listed)
  {
  }

  lemma BlockedBreaks(cfg: Config, listed: seq<int>, m: int)
    requires NoDup(listed) && m in listed && listed[0] != m && forall x :: x in listed ==> m <= x
    ensures Breaks(cfg, listed)
  {
    var ok := (v: int) => v == m;
    BlockedNotOptimal(cfg, listed, m, ok);
    Witness(cfg, 1, listed, ok);
  }

  lemma MissedBreaks(cfg: Config, listed: seq<int>, m: int, v: int)
    requires NoDup(listed) && m in listed && forall x :: x in listed ==> m <= x
    requires v in listed && v != m && !BinarySearch(listed, v)
    ensures Breaks(cfg, listed)
  {
    var k: nat := |listed| - 1;
    var ok := (x: int) => x != v;
    MissedNotOptimal(cfg, k, listed, m, v, ok);
    Witness(cfg, k, listed, ok);
  }

  lemma NotAscending(cfg: Config, listed: seq<int>)
    requires NoDup(listed) && !Ascending(listed)
    ensures Breaks(cfg, listed)
  {
    var v := SomeMissed(listed);
    var m := LeastOf(listed);
    if listed[0] != m {
      BlockedBreaks(cfg, listed, m);
    } else {
      MissedIsNotLeast(listed, m, v);
      MissedBreaks(cfg, listed, m, v);
    }
  }

  lemma LeastOf(listed: seq<int>) returns (m: int)
    requires listed != []
    ensures m in listed && forall x :: x in listed ==> m <= x
  {
    assert listed[0] in ToSet(listed);
    m := Least(ToSet(listed));
    forall x | x in listed ensures m <= x {
      assert x in ToSet(listed);
    }
  }

  lemma MissedIsNotLeast(listed: seq<int>, m: int, v: int)
    requires listed != [] && listed[0] == m && forall x :: x in listed ==> m <= x
    requires !BinarySearch(listed, v)
    ensures v != m
  {
    LeastIsLowest(listed, m, 0, |listed|);
  }

  /** Version directories 1, 2 and 10 are listed as 1, 10, 2. Under latest-2, if only
      version 2 fails to load then version 1 is never started. */
  lemma LexicographicListing(cfg: Config)
    ensures NoDup([1, 10, 2])
    ensures !Optimal(cfg, 2, [1, 10, 2], (v: int) => v != 2)
  {
    var listed := [1, 10, 2];
    NoDupDistinct(listed);
    assert LowerBound(listed, 2, 0, 1) == 1;
    assert LowerBound(listed, 2, 0, 3) == 1;
    MissedNotOptimal(cfg, 2, listed, 1, 2, (v: int) => v != 2);
  }
}
