/** When the fallback loop ends. Directory names such as "2" and "02" give a version
    twice; a version that the policy takes twice is started again in every round, and
    leaves the list only if binary search finds it. */
module FallbackTermination {
  import opened Common
  import opened Iteration
  import opened Vectors
  import opened VersionPolicy
  import opened ModelConfig
  import opened Model
  import opened ModelManager
  import opened Reconciliation
  import opened FallbackOptimality

  // ---- the loop as removals from a list ----

  /** What of a round decides which rounds can follow it. */
  datatype Stage = Stage(available: seq<int>, registered: set<int>)

  ghost function StageOf(r: Round): Stage {
    Stage(r.available, r.state.versions.Keys)
  }

  function Starts(cfg: Config, blacklisted: set<int>, s: Stage): seq<int> {
    ToStart(cfg, s.registered, Filter(cfg.policy, s.available), blacklisted)
  }

  /** The loads that fail in one round: some of those started, in order. */
  ghost predicate Failures(cfg: Config, blacklisted: set<int>, s: Stage, f: seq<int>) {
    f != [] && Ascending(f) && ToSet(f) <= ToSet(Starts(cfg, blacklisted, s))
  }

  function AfterFailures(cfg: Config, blacklisted: set<int>, s: Stage, f: seq<int>): Stage {
    Stage(RemoveFailed(s.available, f), s.registered + ToSet(Starts(cfg, blacklisted, s)))
  }

  /** A registered version is started again, and binary search misses it. */
  ghost predicate Repeats(cfg: Config, blacklisted: set<int>, s: Stage) {
    exists v :: v in s.registered && v in Starts(cfg, blacklisted, s) && !BinarySearch(s.available, v)
  }

  /** After rounds with these failures a registered version is started again and missed. */
  ghost predicate GetsStuck(cfg: Config, blacklisted: set<int>, s: Stage, fs: seq<seq<int>>)
    decreases |fs|
  {
    if fs == [] then Repeats(cfg, blacklisted, s)
    else
      && Failures(cfg, blacklisted, s, fs[0])
      && GetsStuck(cfg, blacklisted, AfterFailures(cfg, blacklisted, s, fs[0]), fs[1..])
  }

  /** What a caller can check of the listing and the registered versions: there is no way
      to choose failing versions round by round that gets stuck. */
  ghost predicate CannotGetStuck(cfg: Config, blacklisted: set<int>, s: Stage) {
    forall fs :: !GetsStuck(cfg, blacklisted, s, fs)
  }

  lemma StillNotStuck(cfg: Config, blacklisted: set<int>, s: Stage, f: seq<int>)
    requires CannotGetStuck(cfg, blacklisted, s) && Failures(cfg, blacklisted, s, f)
    ensures CannotGetStuck(cfg, blacklisted, AfterFailures(cfg, blacklisted, s, f))
  {
    var next := AfterFailures(cfg, blacklisted, s, f);
    forall fs ensures !GetsStuck(cfg, blacklisted, next, fs) {
      var longer := [f] + fs;
      assert longer[1..] == fs;
      assert !GetsStuck(cfg, blacklisted, s, longer);
    }
  }

  function WorkAt(s: Stage): nat {
    |ToSet(s.available) - s.registered| + |s.available|
  }

  lemma LessWorkAt(cfg: Config, blacklisted: set<int>, s: Stage, f: seq<int>)
    requires cfg.policy.Valid() && Failures(cfg, blacklisted, s, f) && !Repeats(cfg, blacklisted, s)
    ensures WorkAt(AfterFailures(cfg, blacklisted, s, f)) < WorkAt(s)
  {
    var requested := Filter(cfg.policy, s.available);
    StartCorrect(cfg, s.registered, requested, blacklisted);
    FilterSubset(cfg.policy, s.available);
    if NoDup(s.available) {
      FilterMeaning(cfg.policy, s.available);
    }
    LessWork(s.available, RemoveFailed(s.available, f), f, Starts(cfg, blacklisted, s), s.registered);
  }

  /** It is enough to look at as many rounds as there are listed versions to register and
      to remove; of the failures in a round only the set matters (SameRemoval). */
  lemma {:induction false} StuckSoon(cfg: Config, blacklisted: set<int>, s: Stage, fs: seq<seq<int>>)
    returns (short: seq<seq<int>>)
    requires cfg.policy.Valid() && GetsStuck(cfg, blacklisted, s, fs)
    ensures GetsStuck(cfg, blacklisted, s, short) && |short| <= WorkAt(s)
    decreases |fs|
  {
    if Repeats(cfg, blacklisted, s) {
      short := [];
    } else {
      LessWorkAt(cfg, blacklisted, s, fs[0]);
      var rest := StuckSoon(cfg, blacklisted, AfterFailures(cfg, blacklisted, s, fs[0]), fs[1..]);
      short := [fs[0]] + rest;
      assert short[1..] == rest;
    }
  }

  lemma NotRepeating(cfg: Config, blacklisted: set<int>, s: Stage)
    requires CannotGetStuck(cfg, blacklisted, s)
    ensures forall v :: v in s.registered && v in Starts(cfg, blacklisted, s) ==> BinarySearch(s.available, v)
  {
    assert !GetsStuck(cfg, blacklisted, s, []);
  }

  lemma {:induction false} FailedAscending(env: Oracle, cfg: Config, st: ModelState, vs: seq<int>)
    requires Ascending(vs)
    ensures Ascending(AddMany(env, cfg, st, vs).failed)
  {
    if vs != [] {
      var front := vs[..|vs| - 1];
      FailedAscending(env, cfg, st, front);
      AddManyKeys(env, cfg, st, front);
      var f := AddMany(env, cfg, st, front).failed;
      forall i | 0 <= i < |f| ensures f[i] <= vs[|vs| - 1] {
        assert f[i] in ToSet(f);
        assert f[i] in front;
      }
    }
  }

  /** A failing round is such a step. */
  lemma FailingRound(env: Oracle, cfg: Config, blacklisted: set<int>, r: Round)
    requires Pending(cfg, blacklisted, r) && Retry(env, cfg, blacklisted)(r).Some?
    ensures var n := NextRound(env, cfg, blacklisted, r);
            var failed := AddMany(env, cfg, r.state, r.plan.start).failed;
            && Retry(env, cfg, blacklisted)(r) == Some(n) && Pending(cfg, blacklisted, n)
            && r.plan.start == Starts(cfg, blacklisted, StageOf(r)) && Failures(cfg, blacklisted, StageOf(r), failed)
            && StageOf(n) == AfterFailures(cfg, blacklisted, StageOf(r), failed)
            && n.state.loads == r.state.loads + |r.plan.start|
  {
    RetryIs(env, cfg, blacklisted, r);
    NextStage(env, cfg, blacklisted, r);
    PlanCorrect(cfg, r.state.versions, Filter(cfg.policy, r.available), blacklisted);
    FailedAscending(env, cfg, r.state, r.plan.start);
    LoadsCount(env, cfg, r.state, r.plan.start);
  }

  lemma {:induction false} LoadsCount(env: Oracle, cfg: Config, st: ModelState, vs: seq<int>)
    ensures AddMany(env, cfg, st, vs).state.loads == st.loads + |vs|
  {
    if vs != [] {
      LoadsCount(env, cfg, st, vs[..|vs| - 1]);
    }
  }

  lemma {:induction false} SameBatch(a: Oracle, b: Oracle, cfg: Config, st: ModelState, vs: seq<int>)
    requires forall i: nat, v :: st.loads <= i < st.loads + |vs| ==> (a(i, v) <==> b(i, v))
    ensures AddMany(a, cfg, st, vs) == AddMany(b, cfg, st, vs)
  {
    if vs != [] {
      SameBatch(a, b, cfg, st, vs[..|vs| - 1]);
      LoadsCount(a, cfg, st, vs[..|vs| - 1]);
    }
  }

  // ---- the loop ends ----

  lemma StepUnlessStuck(env: Oracle, cfg: Config, blacklisted: set<int>, r: Round)
    requires Pending(cfg, blacklisted, r) && CannotGetStuck(cfg, blacklisted, StageOf(r))
    requires Retry(env, cfg, blacklisted)(r).Some?
    ensures var n := Retry(env, cfg, blacklisted)(r).value;
            Pending(cfg, blacklisted, n) && CannotGetStuck(cfg, blacklisted, StageOf(n)) && Work(n) < Work(r)
  {
    FailingRound(env, cfg, blacklisted, r);
    var failed := AddMany(env, cfg, r.state, r.plan.start).failed;
    StillNotStuck(cfg, blacklisted, StageOf(r), failed);
    NotRepeating(cfg, blacklisted, StageOf(r));
    LessWorkAt(cfg, blacklisted, StageOf(r), failed);
  }

  /** If no choice of failures gets stuck, the loop ends for every outcome of the loads. */
  lemma EndsUnlessStuck(env: Oracle, cfg: Config, blacklisted: set<int>, r: Round)
    requires Pending(cfg, blacklisted, r) && CannotGetStuck(cfg, blacklisted, StageOf(r))
    ensures Ends(env, cfg, blacklisted, r)
  {
    var next := Retry(env, cfg, blacklisted);
    var p := (x: Round) => Pending(cfg, blacklisted, x) && CannotGetStuck(cfg, blacklisted, StageOf(x));
    forall x | p(x) && next(x).Some? ensures p(next(x).value) && Work(next(x).value) < Work(x) {
      StepUnlessStuck(env, cfg, blacklisted, x);
    }
    StopsByRank(next, p, Work, r);
  }

  // ---- the loop goes on ----

  /** Two oracles agree from attempt n on. */
  ghost predicate AgreeFrom(a: Oracle, b: Oracle, n: nat) {
    forall i: nat, v :: i >= n ==> (a(i, v) <==> b(i, v))
  }

  lemma SameRetry(a: Oracle, b: Oracle, cfg: Config, blacklisted: set<int>, r: Round)
    requires AddMany(a, cfg, r.state, r.plan.start) == AddMany(b, cfg, r.state, r.plan.start)
    ensures Retry(a, cfg, blacklisted)(r) == Retry(b, cfg, blacklisted)(r)
  {
    RetryIs(a, cfg, blacklisted, r);
    RetryIs(b, cfg, blacklisted, r);
  }

  /** Attempts made before the round do not matter to it. */
  lemma {:induction false} LaterOnly(a: Oracle, b: Oracle, cfg: Config, blacklisted: set<int>, r: Round, n: nat)
    requires Pending(cfg, blacklisted, r) && AgreeFrom(a, b, r.state.loads) && StopsWithin(Retry(a, cfg, blacklisted), r, n)
    ensures StopsWithin(Retry(b, cfg, blacklisted), r, n)
    decreases n
  {
    SameBatch(a, b, cfg, r.state, r.plan.start);
    SameRetry(a, b, cfg, blacklisted, r);
    if Retry(a, cfg, blacklisted)(r).Some? {
      FailingRound(a, cfg, blacklisted, r);
      LaterOnly(a, b, cfg, blacklisted, Retry(a, cfg, blacklisted)(r).value, n - 1);
    }
  }

  /** Version v is registered, started again and missed. */
  ghost predicate Looping(cfg: Config, blacklisted: set<int>, r: Round, v: int) {
    Pending(cfg, blacklisted, r) && v in r.state.versions && v in r.plan.start && !BinarySearch(r.available, v)
  }

  lemma LoopsAgain(cfg: Config, blacklisted: set<int>, r: Round, v: int)
    requires Looping(cfg, blacklisted, r, v)
    ensures var n := NextRound(AllBut(v), cfg, blacklisted, r);
            Retry(AllBut(v), cfg, blacklisted)(r) == Some(n) && Looping(cfg, blacklisted, n, v)
  {
    AllButFails(cfg, r.state, r.plan.start, v);
    AddManyFailed(AllBut(v), cfg, r.state, r.plan.start);
    var failed := AddMany(AllBut(v), cfg, r.state, r.plan.start).failed;
    assert v in failed;
    RetryIs(AllBut(v), cfg, blacklisted, r);
    NextStage(AllBut(v), cfg, blacklisted, r);
    RemoveOne(r.available, failed, v);
    StartedAgain(cfg, r.state.versions.Keys, Filter(cfg.policy, r.available), blacklisted, v);
    StartedAgain(cfg, r.state.versions.Keys + ToSet(r.plan.start), Filter(cfg.policy, r.available), blacklisted, v);
  }

  /** If only v fails, such a round is followed by another one: the loop does not end. */
  lemma LoopsForever(cfg: Config, blacklisted: set<int>, r: Round, v: int)
    requires Looping(cfg, blacklisted, r, v)
    ensures !Ends(AllBut(v), cfg, blacklisted, r)
  {
    var next := Retry(AllBut(v), cfg, blacklisted);
    var p := (x: Round) => Looping(cfg, blacklisted, x, v);
    forall x | p(x) ensures next(x).Some? && p(next(x).value) {
      LoopsAgain(cfg, blacklisted, x, v);
    }
    forall n: nat ensures !StopsWithin(next, r, n) {
      GoesOn(next, p, r, n);
    }
  }

  /** First one oracle, then from attempt n on the other. */
  function Then(a: Oracle, n: nat, b: Oracle): Oracle {
    (i: nat, v: int) => if i < n then a(i, v) else b(i, v)
  }

  /** If the loop does not end after a round, with an oracle for what follows, then it does
      not end with that round in front. */
  lemma GoesOnAfter(a: Oracle, b: Oracle, cfg: Config, blacklisted: set<int>, r: Round, n: Round) returns (env: Oracle)
    requires Retry(a, cfg, blacklisted)(r) == Some(n) && n.state.loads == r.state.loads + |r.plan.start|
    requires Pending(cfg, blacklisted, n) && !Ends(b, cfg, blacklisted, n)
    ensures !Ends(env, cfg, blacklisted, r)
  {
    env := Then(a, n.state.loads, b);
    SameBatch(a, env, cfg, r.state, r.plan.start);
    SameRetry(a, env, cfg, blacklisted, r);
    if Ends(env, cfg, blacklisted, r) {
      StopsNext(Retry(env, cfg, blacklisted), r);
      var k :| StopsWithin(Retry(env, cfg, blacklisted), n, k);
      LaterOnly(env, b, cfg, blacklisted, n, k);
    }
  }

  /** Exactly the versions in f fail. */
  function Failing(f: set<int>): Oracle {
    (n, x) => x !in f
  }

  lemma {:induction false} FailingFails(cfg: Config, st: ModelState, vs: seq<int>, f: set<int>)
    ensures ToSet(AddMany(Failing(f), cfg, st, vs).failed) == ToSet(vs) * f
  {
    if vs != [] {
      var front := vs[..|vs| - 1];
      assert vs == front + [vs[|vs| - 1]];
      FailingFails(cfg, st, front, f);
      assert ToSet(vs) == ToSet(front) + {vs[|vs| - 1]};
      var b := AddMany(Failing(f), cfg, st, front).failed;
      assert ToSet(b + [vs[|vs| - 1]]) == ToSet(b) + {vs[|vs| - 1]};
    }
  }

  /** The round in which exactly the chosen versions fail. */
  lemma ChosenFail(cfg: Config, blacklisted: set<int>, r: Round, f: seq<int>)
    requires Pending(cfg, blacklisted, r) && Failures(cfg, blacklisted, StageOf(r), f)
    ensures var env := Failing(ToSet(f));
            var n := NextRound(env, cfg, blacklisted, r);
            && Retry(env, cfg, blacklisted)(r) == Some(n) && Pending(cfg, blacklisted, n)
            && StageOf(n) == AfterFailures(cfg, blacklisted, StageOf(r), f)
            && n.state.loads == r.state.loads + |r.plan.start|
  {
    var env := Failing(ToSet(f));
    var failed := AddMany(env, cfg, r.state, r.plan.start).failed;
    FailingFails(cfg, r.state, r.plan.start, ToSet(f));
    assert r.plan.start == Starts(cfg, blacklisted, StageOf(r));
    assert ToSet(failed) == ToSet(f);
    assert f[0] in ToSet(failed);
    AddManyFailed(env, cfg, r.state, r.plan.start);
    RetryIs(env, cfg, blacklisted, r);
    FailingRound(env, cfg, blacklisted, r);
    SameRemoval(r.available, failed, f);
  }

  /** If some choice of failures gets stuck, some loads keep the loop going: those that
      fail like that, and then the missed version fails for ever. */
  lemma {:induction false} Diverges(cfg: Config, blacklisted: set<int>, r: Round, fs: seq<seq<int>>) returns (env: Oracle)
    requires Pending(cfg, blacklisted, r) && GetsStuck(cfg, blacklisted, StageOf(r), fs)
    ensures !Ends(env, cfg, blacklisted, r)
    decreases |fs|
  {
    if fs == [] {
      var v :| v in r.state.versions && v in Starts(cfg, blacklisted, StageOf(r)) && !BinarySearch(r.available, v);
      LoopsForever(cfg, blacklisted, r, v);
      env := AllBut(v);
    } else {
      var first := Failing(ToSet(fs[0]));
      ChosenFail(cfg, blacklisted, r, fs[0]);
      var n := NextRound(first, cfg, blacklisted, r);
      var later := Diverges(cfg, blacklisted, n, fs[1..]);
      env := GoesOnAfter(first, later, cfg, blacklisted, r, n);
    }
  }

  /** For every policy, listing, registered state and custom loader: a call comes back for
      every outcome of its loads exactly if no choice of failing versions, round by round,
      leads to a registered version that is started again and that binary search misses. */
  lemma ReturnsExactly(cfg: Config, blacklisted: set<int>, listed: seq<int>, st: ModelState)
    requires cfg.policy.Valid()
    ensures (forall env :: Returns(env, cfg, blacklisted, listed, st))
            <==> CannotGetStuck(cfg, blacklisted, Stage(listed, st.versions.Keys))
  {
    PlannedPending(cfg, blacklisted, st, listed, [], {}, true);
    var r := FirstRound(cfg, blacklisted, st, listed);
    if CannotGetStuck(cfg, blacklisted, StageOf(r)) {
      forall env ensures Returns(env, cfg, blacklisted, listed, st) {
        EndsUnlessStuck(env, cfg, blacklisted, r);
      }
    } else {
      var fs :| GetsStuck(cfg, blacklisted, StageOf(r), fs);
      var env := Diverges(cfg, blacklisted, r, fs);
      assert !Returns(env, cfg, blacklisted, listed, st);
    }
  }

  /** Under a specific policy that names no version twice nothing is taken twice, so every
      call returns. */
  lemma SpecificReturns(env: Oracle, cfg: Config, blacklisted: set<int>, listed: seq<int>, st: ModelState)
    requires cfg.policy.Valid() && cfg.policy.SpecificVersions? && NoDup(cfg.policy.versions)
    ensures Returns(env, cfg, blacklisted, listed, st)
  {
    forall fs ensures !GetsStuck(cfg, blacklisted, Stage(listed, st.versions.Keys), fs) {
      SpecificNeverStuck(cfg, blacklisted, Stage(listed, st.versions.Keys), fs);
    }
    ReturnsExactly(cfg, blacklisted, listed, st);
  }

  lemma {:induction false} SpecificNeverStuck(cfg: Config, blacklisted: set<int>, s: Stage, fs: seq<seq<int>>)
    requires cfg.policy.Valid() && cfg.policy.SpecificVersions? && NoDup(cfg.policy.versions)
    ensures !GetsStuck(cfg, blacklisted, s, fs)
    decreases |fs|
  {
    if fs == [] {
      var requested := Filter(cfg.policy, s.available);
      SortAscending(s.available);
      IntersectionMembers(Sort(s.available), cfg.policy.versions);
      forall v | v in s.registered ensures v !in Starts(cfg, blacklisted, s) {
        StartedAgain(cfg, s.registered, requested, blacklisted, v);
      }
    } else {
      SpecificNeverStuck(cfg, blacklisted, AfterFailures(cfg, blacklisted, s, fs[0]), fs[1..]);
    }
  }

  // ---- the all-versions policy ----

  /** Removes versions that are still listed twice, as far as they are found. */
  function RemoveRepeated(available: seq<int>, vs: seq<int>): seq<int> {
    if vs == [] then available
    else
      var a := RemoveRepeated(available, vs[..|vs| - 1]);
      var v := vs[|vs| - 1];
      if multiset(a)[v] >= 2 && BinarySearch(a, v) then Without(a, v) else a
  }

  /** No removal of repeated versions gets the list stuck. */
  ghost predicate SettlesRepeats(available: seq<int>) {
    forall vs: seq<int> :: !Stuck(RemoveRepeated(available, vs))
  }

  /** What a caller can check of a listing: no removal of some listed versions in
      ascending order, followed by removals of versions that are still listed twice,
      leaves a version that is listed twice and not found. */
  ghost predicate EndsFromScratch(listed: seq<int>) {
    forall f :: f != [] && Ascending(f) && ToSet(f) <= ToSet(listed) ==> SettlesRepeats(RemoveFailed(listed, f))
  }

  lemma {:induction false} RemoveRepeatedTwice(available: seq<int>, a: seq<int>, b: seq<int>)
    ensures RemoveRepeated(available, a + b) == RemoveRepeated(RemoveRepeated(available, a), b)
  {
    if b == [] {
      assert a + b == a;
    } else {
      assert (a + b)[..|a + b| - 1] == a + b[..|b| - 1];
      RemoveRepeatedTwice(available, a, b[..|b| - 1]);
    }
  }

  lemma StillSettles(available: seq<int>, vs: seq<int>)
    requires SettlesRepeats(available)
    ensures SettlesRepeats(RemoveRepeated(available, vs))
  {
    forall ws: seq<int> ensures !Stuck(RemoveRepeated(RemoveRepeated(available, vs), ws)) {
      RemoveRepeatedTwice(available, vs, ws);
    }
  }

  /** A removal of versions that are all listed twice is such a removal. */
  lemma {:induction false} RepeatedOnly(available: seq<int>, failed: seq<int>)
    requires forall v :: v in failed ==> multiset(available)[v] >= 2
    ensures RemoveFailed(available, failed) == RemoveRepeated(available, failed)
    ensures var a := RemoveFailed(available, failed);
            forall v :: multiset(available)[v] >= 2 ==> multiset(a)[v] == 0 || multiset(a)[v] == multiset(available)[v]
  {
    if failed != [] {
      var front := failed[..|failed| - 1];
      var v := failed[|failed| - 1];
      RepeatedOnly(available, front);
      var a := RemoveFailed(available, front);
      if BinarySearch(a, v) {
        BinarySearchSound(a, v);
        assert v in multiset(a);
      }
    }
  }

  lemma LastOfAscending(s: seq<int>)
    requires s != [] && Ascending(s)
    ensures var v := s[|s| - 1]; v in s && forall x :: x in s ==> x <= v
  {
  }

  /** A repeated last element changes nothing. */
  lemma RepeatedLast(available: seq<int>, s: seq<int>)
    requires |s| >= 2 && s[|s| - 1] == s[|s| - 2]
    ensures RemoveFailed(available, s) == RemoveFailed(available, s[..|s| - 1])
  {
    var front := s[..|s| - 1];
    var v := s[|s| - 1];
    assert front[|front| - 1] == v;
    NotFoundAgain(RemoveFailed(available, front[..|front| - 1]), v);
  }

  /** In ascending order only the set of failed versions matters. */
  lemma {:induction false} SameRemoval(available: seq<int>, s: seq<int>, t: seq<int>)
    requires Ascending(s) && Ascending(t) && ToSet(s) == ToSet(t)
    ensures RemoveFailed(available, s) == RemoveFailed(available, t)
    decreases |s| + |t|
  {
    if s == [] || t == [] {
      EmptyList(s);
      EmptyList(t);
    } else {
      var m, n := |s| - 1, |t| - 1;
      LastOfAscending(s);
      LastOfAscending(t);
      assert s[m] in ToSet(t) && t[n] in ToSet(s);
      assert s[m] == t[n];
      if m > 0 && s[m - 1] == s[m] {
        RepeatedLast(available, s);
        FrontSet(s);
        SameRemoval(available, s[..m], t);
      } else if n > 0 && t[n - 1] == t[n] {
        RepeatedLast(available, t);
        FrontSet(t);
        SameRemoval(available, s, t[..n]);
      } else {
        FrontSet(s);
        FrontSet(t);
        SameRemoval(available, s[..m], t[..n]);
      }
    }
  }

  lemma FrontSet(s: seq<int>)
    requires s != [] && Ascending(s)
    ensures var n := |s| - 1;
            && Ascending(s[..n])
            && ToSet(s[..n]) == if n > 0 && s[n - 1] == s[n] then ToSet(s) else ToSet(s) - {s[n]}
  {
    var n := |s| - 1;
    assert s == s[..n] + [s[n]];
    assert ToSet(s) == ToSet(s[..n]) + {s[n]};
    if n > 0 && s[n - 1] == s[n] {
      assert s[..n][n - 1] == s[n];
    } else if n > 0 {
      assert forall i :: 0 <= i < n ==> s[..n][i] <= s[n - 1] < s[n];
    }
  }

  /** Under the all-versions policy what is not registered is started, and what is listed
      twice. */
  lemma AllStarts(cfg: Config, s: Stage)
    requires cfg.policy == AllVersions && !cfg.CustomLoaderRequired()
    ensures forall v :: v in Starts(cfg, {}, s) <==> v in s.available && (v !in s.registered || multiset(s.available)[v] >= 2)
  {
    var q := Wanted(cfg, s.registered, s.available, {});
    WantedMembers(cfg, s.registered, s.available, {});
    KeysOrdered(s.registered);
    DifferenceMembers(q, Keys(s.registered));
    forall v ensures v in Starts(cfg, {}, s) <==> v in s.available && (v !in s.registered || multiset(s.available)[v] >= 2) {
      assert v in q <==> v in ToSet(q);
      if v in s.registered {
        StartedAgain(cfg, s.registered, s.available, {}, v);
      }
    }
  }

  /** All listed versions are registered, so only repeated ones are started. */
  ghost predicate Caught(s: Stage) {
    ToSet(s.available) <= s.registered
  }

  lemma CaughtNext(cfg: Config, s: Stage, f: seq<int>)
    requires cfg.policy == AllVersions && !cfg.CustomLoaderRequired()
    requires Failures(cfg, {}, s, f)
    ensures Caught(AfterFailures(cfg, {}, s, f))
    ensures Caught(s) ==> forall v :: v in f ==> multiset(s.available)[v] >= 2
  {
    AllStarts(cfg, s);
    RemoveFailedSubset(s.available, f);
    forall v | v in s.available ensures v in AfterFailures(cfg, {}, s, f).registered {
      assert v in s.registered || v in ToSet(Starts(cfg, {}, s));
    }
    if Caught(s) {
      forall v | v in f ensures multiset(s.available)[v] >= 2 {
        assert v in ToSet(f) && v in ToSet(s.available);
      }
    }
  }

  /** Once everything is registered only repeated versions can fail, so a list that settles
      its repetitions does not get stuck. */
  lemma {:induction false} CaughtSettles(cfg: Config, s: Stage, fs: seq<seq<int>>)
    requires cfg.policy == AllVersions && !cfg.CustomLoaderRequired()
    requires Caught(s) && SettlesRepeats(s.available)
    ensures !GetsStuck(cfg, {}, s, fs)
    decreases |fs|
  {
    if fs == [] {
      assert RemoveRepeated(s.available, []) == s.available;
      AllStarts(cfg, s);
    } else if Failures(cfg, {}, s, fs[0]) {
      CaughtNext(cfg, s, fs[0]);
      RepeatedOnly(s.available, fs[0]);
      StillSettles(s.available, fs[0]);
      CaughtSettles(cfg, AfterFailures(cfg, {}, s, fs[0]), fs[1..]);
    }
  }

  lemma ScratchNotStuck(cfg: Config, listed: seq<int>, registered: set<int>)
    requires cfg.policy == AllVersions && !cfg.CustomLoaderRequired() && EndsFromScratch(listed)
    ensures CannotGetStuck(cfg, {}, Stage(listed, registered))
  {
    var s := Stage(listed, registered);
    AllStarts(cfg, s);
    forall fs ensures !GetsStuck(cfg, {}, s, fs) {
      if fs == [] {
        forall v | v in registered && v in Starts(cfg, {}, s) ensures BinarySearch(listed, v) {
          if !BinarySearch(listed, v) {
            MissedFirst(listed, v);
          }
        }
      } else if Failures(cfg, {}, s, fs[0]) {
        CaughtNext(cfg, s, fs[0]);
        assert forall v :: v in ToSet(fs[0]) ==> v in ToSet(Starts(cfg, {}, s)) && v in listed;
        CaughtSettles(cfg, AfterFailures(cfg, {}, s, fs[0]), fs[1..]);
      }
    }
  }

  /** A version that is listed twice and missed from the start may fail at once. */
  lemma MissedFirst(listed: seq<int>, v: int)
    requires multiset(listed)[v] >= 2 && !BinarySearch(listed, v)
    ensures !EndsFromScratch(listed)
  {
    var f := [v];
    assert v in multiset(listed);
    assert ToSet(f) == {v} && v in ToSet(listed);
    RemoveMissed(listed, f);
    assert RemoveRepeated(listed, []) == listed;
    assert Stuck(RemoveRepeated(RemoveFailed(listed, f), []));
  }

  lemma StuckRepeats(cfg: Config, s: Stage)
    requires cfg.policy == AllVersions && !cfg.CustomLoaderRequired()
    requires Caught(s) && Stuck(s.available)
    ensures Repeats(cfg, {}, s)
  {
    AllStarts(cfg, s);
    var v :| multiset(s.available)[v] >= 2 && !BinarySearch(s.available, v);
    assert v in multiset(s.available);
    assert v in ToSet(s.available);
  }

  /** The repeated version u fails alone. */
  lemma CaughtStep(cfg: Config, s: Stage, u: int, f: seq<int>)
    requires cfg.policy == AllVersions && !cfg.CustomLoaderRequired()
    requires Caught(s) && multiset(s.available)[u] >= 2 && f == [u]
    ensures Failures(cfg, {}, s, f) && Caught(AfterFailures(cfg, {}, s, f))
    ensures AfterFailures(cfg, {}, s, f).available == RemoveRepeated(s.available, f)
  {
    AllStarts(cfg, s);
    assert u in multiset(s.available);
    assert ToSet(f) == {u} && u in ToSet(Starts(cfg, {}, s));
    CaughtNext(cfg, s, f);
    RepeatedOnly(s.available, f);
  }

  /** Removals of repeated versions that get the list stuck, as failures round by round. */
  lemma {:induction false} CaughtGetsStuck(cfg: Config, s: Stage, vs: seq<int>) returns (fs: seq<seq<int>>)
    requires cfg.policy == AllVersions && !cfg.CustomLoaderRequired()
    requires Caught(s) && Stuck(RemoveRepeated(s.available, vs))
    ensures GetsStuck(cfg, {}, s, fs)
    decreases |vs|
  {
    if vs == [] {
      StuckRepeats(cfg, s);
      fs := [];
    } else {
      var first, rest := vs[..1], vs[1..];
      assert vs == first + rest;
      RemoveRepeatedTwice(s.available, first, rest);
      if multiset(s.available)[first[0]] < 2 {
        assert RemoveRepeated(s.available, first[..0]) == s.available;
        fs := CaughtGetsStuck(cfg, s, rest);
      } else {
        CaughtStep(cfg, s, first[0], first);
        var later := CaughtGetsStuck(cfg, AfterFailures(cfg, {}, s, first), rest);
        fs := [first] + later;
        assert fs[1..] == later;
      }
    }
  }

  lemma ScratchGetsStuck(cfg: Config, listed: seq<int>) returns (fs: seq<seq<int>>)
    requires cfg.policy == AllVersions && !cfg.CustomLoaderRequired() && !EndsFromScratch(listed)
    ensures GetsStuck(cfg, {}, Stage(listed, {}), fs)
  {
    var f :| f != [] && Ascending(f) && ToSet(f) <= ToSet(listed) && !SettlesRepeats(RemoveFailed(listed, f));
    var vs :| Stuck(RemoveRepeated(RemoveFailed(listed, f), vs));
    var s := Stage(listed, {});
    AllStarts(cfg, s);
    assert ToSet(f) <= ToSet(Starts(cfg, {}, s));
    CaughtNext(cfg, s, f);
    var later := CaughtGetsStuck(cfg, AfterFailures(cfg, {}, s, f), vs);
    fs := [f] + later;
    assert fs[1..] == later;
  }

  /** Under the all-versions policy and without a custom loader, every call for a listing,
      from every registered state, comes back for every outcome of its loads exactly if no
      removal of listed versions in ascending order, followed by removals of versions that
      are still listed twice, leaves a version that is listed twice and that binary search
      misses. It is enough to look at calls from an empty model. */
  lemma FallbackEndsExactly(cfg: Config, listed: seq<int>)
    requires cfg.policy == AllVersions && !cfg.CustomLoaderRequired()
    ensures (forall env, st :: Returns(env, cfg, {}, listed, st)) <==> EndsFromScratch(listed)
    ensures (forall env :: Returns(env, cfg, {}, listed, EMPTY_MODEL)) <==> EndsFromScratch(listed)
  {
    if EndsFromScratch(listed) {
      forall env, st ensures Returns(env, cfg, {}, listed, st) {
        ScratchNotStuck(cfg, listed, st.versions.Keys);
        ReturnsExactly(cfg, {}, listed, st);
      }
    } else {
      var fs := ScratchGetsStuck(cfg, listed);
      ReturnsExactly(cfg, {}, listed, EMPTY_MODEL);
      assert EMPTY_MODEL.versions.Keys == {};
    }
  }

  // ---- two listings ----

  /** Directories 02, 1, 10 and 2 are listed in this order: 2 is there twice and missed. */
  lemma TwiceTwo(listed: seq<int>)
    requires |listed| == 4 && listed[0] == 2 && listed[1] == 1 && listed[2] == 10 && listed[3] == 2
    ensures Stuck(listed) && !EndsFromScratch(listed)
  {
    assert listed == [2, 1, 10, 2];
    assert LowerBound(listed, 2, 2, 0) == 2;
    assert LowerBound(listed, 2, 0, 2) == 2;
    assert LowerBound(listed, 2, 0, 4) == 2;
    assert multiset(listed)[2] >= 2 && !BinarySearch(listed, 2);
    MissedFirst(listed, 2);
  }

  /** The listing of directories 01, 03, 1, 2 and 2 with another name. */
  ghost predicate OneThreeOneTwoTwo(s: seq<int>) {
    |s| == 5 && s[0] == 1 && s[1] == 3 && s[2] == 1 && s[3] == 2 && s[4] == 2
  }

  lemma BothFound(s: seq<int>)
    requires OneThreeOneTwoTwo(s)
    ensures BinarySearch(s, 1) && BinarySearch(s, 2)
  {
    assert LowerBound(s, 1, 0, 1) == 0;
    assert LowerBound(s, 1, 0, 2) == 0;
    assert LowerBound(s, 1, 0, 5) == 0;
    assert LowerBound(s, 2, 3, 1) == 3;
    assert LowerBound(s, 2, 3, 2) == 3;
    assert LowerBound(s, 2, 0, 5) == 3;
  }

  lemma WithoutOne(s: seq<int>)
    requires OneThreeOneTwoTwo(s)
    ensures var a := Without(s, 1); |a| == 3 && a[0] == 3 && a[1] == 2 && a[2] == 2
  {
    var b := s[1..];
    var c := b[1..];
    var d := c[1..];
    assert b[0] == 3 && c[0] == 1 && |d| == 2 && d[0] == 2 && d[1] == 2;
    WithoutAbsent(d, 1);
    assert Without(c, 1) == d;
    assert Without(b, 1) == [3] + d;
  }

  lemma TwoMissed(a: seq<int>)
    requires |a| == 3 && a[0] == 3 && a[1] == 2 && a[2] == 2
    ensures Stuck(a)
  {
    assert LowerBound(a, 2, 0, 1) == 0;
    assert LowerBound(a, 2, 0, 3) == 0;
    assert a == [a[0]] + [a[1]] + [a[2]];
    assert multiset(a)[2] >= 2 && !BinarySearch(a, 2);
  }

  /** Every repeated version is found at first, but once version 1 is gone, version 2 is
      missed. */
  lemma StuckAfterRemoval(listed: seq<int>)
    requires OneThreeOneTwoTwo(listed)
    ensures BinarySearch(listed, 1) && BinarySearch(listed, 2) && !EndsFromScratch(listed)
  {
    BothFound(listed);
    WithoutOne(listed);
    TwoMissed(Without(listed, 1));
    var f := [listed[0]];
    assert listed[0] in listed && ToSet(f) == {listed[0]};
    assert f[..0] == [];
    assert RemoveFailed(listed, f) == Without(listed, 1);
    assert RemoveRepeated(Without(listed, 1), []) == Without(listed, 1);
  }
}
