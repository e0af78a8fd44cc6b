/** A model: its registered versions and its default version. */
module Model {
  import opened Common
  import opened Vectors
  import opened ModelConfig
  import opened ModelVersionStatus
  import opened ModelInstance

  /** What the model did to its versions, in order. Retiring a version records the
      default version at the moment the version starts unloading. */
  datatype Event =
    | Started(version: int)
    | Reloading(version: int)
    | Retiring(version: int, defaultThen: int)
    | Cleaning(version: int, defaultThen: int)

  /** "loads" counts load attempts; "log" is the history of the model. */
  datatype ModelState = ModelState(
    versions: map<int, Instance>,
    defaultVersion: int,
    loads: nat,
    log: seq<Event>)

  /** Whether the n-th load attempt, which is for version v, succeeds. */
  type Oracle = (nat, int) -> bool

  /** The state after a batch of loads, the versions that failed in it (in order)
      and whether the call as a whole returned OK. */
  datatype Batch = Batch(state: ModelState, failed: seq<int>, ok: bool)

  // ---- the default version ----

  function ServingVersions(versions: map<int, Instance>): set<int> {
    set v | v in versions && versions[v].Serving()
  }

  /** The greatest element, or 0 for the empty set. */
  function Greatest(s: set<int>): (r: int)
    ensures s == {} ==> r == 0
    ensures s != {} ==> r in s && forall x :: x in s ==> x <= r
  {
    if s == {} then 0
    else
      HasGreatest(s);
      var m :| m in s && forall x :: x in s ==> x <= m;
      m
  }

  lemma HasGreatest(s: set<int>)
    requires s != {}
    ensures exists m :: m in s && forall x :: x in s ==> x <= m
  {
    var neg := set x | x in s :: -x;
    EmptyOrInhabited(s);
    var y :| y in s;
    assert -y in neg;
    var l := HasLeast(neg);
    assert -l in s;
    forall x | x in s ensures x <= -l {
      assert -x in neg;
    }
  }

  lemma GreatestIs(s: set<int>, m: int)
    requires m in s || (s == {} && m == 0)
    requires forall x :: x in s ==> x <= m
    ensures Greatest(s) == m
  {
  }

  function Positive(s: set<int>): set<int> {
    set v | v in s && v > 0
  }

  function DefaultIgnoring(versions: map<int, Instance>, ignored: int): int {
    Greatest(Positive(ServingVersions(versions)) - {ignored})
  }

  function WithDefault(st: ModelState, ignored: int): ModelState {
    st.(defaultVersion := DefaultIgnoring(st.versions, ToInt32(ignored)))
  }

  // ---- one version ----

  function Emplaced(env: Oracle, cfg: Config, st: ModelState, v: int): ModelState {
    var registered := if v in st.versions then st.versions
                      else st.versions[v := Loaded(cfg.WithVersion(v), env(st.loads, v))];
    ModelState(registered, st.defaultVersion, st.loads + 1, st.log + [Started(v)])
  }

  function AddOne(env: Oracle, cfg: Config, st: ModelState, v: int): ModelState {
    var st1 := Emplaced(env, cfg, st, v);
    if env(st.loads, v) then WithDefault(st1, 0) else st1
  }

  function ReloadedOnly(env: Oracle, cfg: Config, st: ModelState, v: int): ModelState
    requires v in st.versions
  {
    ModelState(st.versions[v := Reloaded(st.versions[v], cfg.WithVersion(v), env(st.loads, v))],
               st.defaultVersion, st.loads + 1, st.log + [Reloading(v)])
  }

  function ReloadOne(env: Oracle, cfg: Config, st: ModelState, v: int): ModelState
    requires v in st.versions
  {
    var st1 := ReloadedOnly(env, cfg, st, v);
    if env(st.loads, v) then WithDefault(st1, 0) else st1
  }

  function RetireOne(st: ModelState, v: int): ModelState
    requires v in st.versions
  {
    var st1 := WithDefault(st, v);
    st1.(versions := st1.versions[v := Retired(st1.versions[v])],
         log := st1.log + [Retiring(v, st1.defaultVersion)])
  }

  function RetireThenDefault(st: ModelState, v: int): ModelState
    requires v in st.versions
  {
    WithDefault(st.(versions := st.versions[v := Retired(st.versions[v])],
                    log := st.log + [Retiring(v, st.defaultVersion)]), 0)
  }

  function CleanOne(st: ModelState, v: int): ModelState
    requires v in st.versions
  {
    var st1 := WithDefault(st, v);
    st1.(versions := st1.versions[v := CleanedUp(st1.versions[v])],
         log := st1.log + [Cleaning(v, st1.defaultVersion)])
  }

  // ---- batches ----

  function AddMany(env: Oracle, cfg: Config, st: ModelState, vs: seq<int>): Batch {
    if vs == [] then Batch(st, [], true)
    else
      var b := AddMany(env, cfg, st, vs[..|vs| - 1]);
      var v := vs[|vs| - 1];
      var ok := env(b.state.loads, v);
      Batch(AddOne(env, cfg, b.state, v), if ok then b.failed else b.failed + [v], b.ok && ok)
  }

  /** Appends to the failed versions of the caller, as reloadVersions does. */
  function ReloadMany(env: Oracle, cfg: Config, st: ModelState, vs: seq<int>, failed: seq<int>): Batch {
    if vs == [] then Batch(st, failed, true)
    else
      var b := ReloadMany(env, cfg, st, vs[..|vs| - 1], failed);
      var v := vs[|vs| - 1];
      if v !in b.state.versions then Batch(b.state, b.failed, false)
      else
        var ok := env(b.state.loads, v);
        Batch(ReloadOne(env, cfg, b.state, v), if ok then b.failed else b.failed + [v], b.ok && ok)
  }

  function RetireMany(st: ModelState, vs: seq<int>): (ModelState, bool) {
    if vs == [] then (st, true)
    else
      var (st1, ok) := RetireMany(st, vs[..|vs| - 1]);
      var v := vs[|vs| - 1];
      if v !in st1.versions then (st1, false) else (RetireOne(st1, v), ok)
  }

  function CleanMany(st: ModelState, vs: seq<int>): (ModelState, bool) {
    if vs == [] then (st, true)
    else
      var (st1, ok) := CleanMany(st, vs[..|vs| - 1]);
      var v := vs[|vs| - 1];
      if v !in st1.versions then (st1, false) else (CleanOne(st1, v), ok)
  }

  /** retireAllVersions updates the default after each version, not before. */
  function RetireAll(st: ModelState, vs: seq<int>): ModelState {
    if vs == [] then st
    else
      var st1 := RetireAll(st, vs[..|vs| - 1]);
      var v := vs[|vs| - 1];
      if v !in st1.versions then st1 else RetireThenDefault(st1, v)
  }

  lemma RetireAllNext(st: ModelState, vs: seq<int>, i: nat)
    requires i < |vs|
    ensures var st1 := RetireAll(st, vs[..i]);
            RetireAll(st, vs[..i + 1]) == if vs[i] in st1.versions then RetireThenDefault(st1, vs[i]) else st1
  {
    assert vs[..i + 1][..i] == vs[..i];
  }

  /** A version that is not registered makes a batch report an error. */
  lemma {:induction false} UnknownReported(env: Oracle, cfg: Config, st: ModelState, vs: seq<int>, failed: seq<int>, v: int)
    requires v in vs && v !in st.versions
    ensures !ReloadMany(env, cfg, st, vs, failed).ok && v !in ReloadMany(env, cfg, st, vs, failed).state.versions
    ensures !RetireMany(st, vs).1 && v !in RetireMany(st, vs).0.versions
    ensures !CleanMany(st, vs).1 && v !in CleanMany(st, vs).0.versions
  {
    var front := vs[..|vs| - 1];
    assert vs == front + [vs[|vs| - 1]];
    if v in front {
      UnknownReported(env, cfg, st, front, failed, v);
    } else {
      StaysUnknown(env, cfg, st, front, failed, v);
    }
  }

  lemma {:induction false} StaysUnknown(env: Oracle, cfg: Config, st: ModelState, vs: seq<int>, failed: seq<int>, v: int)
    requires v !in st.versions
    ensures v !in ReloadMany(env, cfg, st, vs, failed).state.versions
    ensures v !in RetireMany(st, vs).0.versions && v !in CleanMany(st, vs).0.versions
  {
    if vs != [] {
      StaysUnknown(env, cfg, st, vs[..|vs| - 1], failed, v);
    }
  }

  class Model {
    var modelVersions: map<int, ModelInstance>
    var defaultVersion: int
    var loads: nat
    ghost var log: seq<Event>

    ghost predicate Valid()
      reads this
    {
      forall u, v :: u in modelVersions && v in modelVersions && u != v ==> modelVersions[u] != modelVersions[v]
    }

    ghost function Instances(): map<int, Instance>
      reads this, modelVersions.Values
    {
      map v | v in modelVersions :: modelVersions[v].View()
    }

    ghost function View(): ModelState
      reads this, modelVersions.Values
    {
      ModelState(Instances(), defaultVersion, loads, log)
    }

    /** If nothing happened to the other instances, the map of views is updated at one key. */
    twostate lemma OneChanged(version: int)
      requires Valid() && modelVersions == old(modelVersions) && version in modelVersions
      requires forall o :: o in modelVersions.Values && o != modelVersions[version] ==> unchanged(o)
      ensures Instances() == old(Instances())[version := modelVersions[version].View()]
    {
      forall u | u in modelVersions && u != version ensures modelVersions[u].View() == old(modelVersions[u].View()) {
        assert modelVersions[u] in modelVersions.Values;
      }
    }

    /** The same for a key that was added. */
    twostate lemma OneAdded(version: int)
      requires version !in old(modelVersions) && version in modelVersions
      requires modelVersions == old(modelVersions)[version := modelVersions[version]]
      requires forall o :: o in old(modelVersions.Values) ==> unchanged(o)
      ensures Instances() == old(Instances())[version := modelVersions[version].View()]
    {
      forall u | u in old(modelVersions) ensures modelVersions[u].View() == old(modelVersions[u].View()) {
        assert modelVersions[u] in old(modelVersions.Values);
      }
    }

    constructor ()
      ensures Valid() && View() == ModelState(map[], 0, 0, [])
    {
      modelVersions := map[];
      defaultVersion := 0;
      loads := 0;
      log := [];
      new;
      assert Instances() == map[];
    }

    method FindDefaultVersion(ignoredVersion: int) returns (newDefaultVersion: int)
      ensures newDefaultVersion == DefaultIgnoring(Instances(), ignoredVersion)
    {
      newDefaultVersion := 0;
      var keys := Keys(modelVersions.Keys);
      ghost var instances := Instances();
      ghost var candidates := Positive(ServingVersions(instances)) - {ignoredVersion};
      var i := 0;
      while i < |keys|
        invariant 0 <= i <= |keys|
        invariant newDefaultVersion == 0 || newDefaultVersion in candidates
        invariant newDefaultVersion >= 0
        invariant forall j :: 0 <= j < i && keys[j] in candidates ==> keys[j] <= newDefaultVersion
      {
        var version := keys[i];
        assert version in keys;
        var available := modelVersions[version].status.state == AVAILABLE;
        assert instances[version].Serving() <==> available;
        if version != ignoredVersion && version > newDefaultVersion && available {
          newDefaultVersion := version;
        }
        i := i + 1;
      }
      forall v | v in candidates ensures v <= newDefaultVersion {
        assert v in keys;
      }
      EmptyOrInhabited(candidates);
      GreatestIs(candidates, newDefaultVersion);
    }

    method UpdateDefaultVersion(ignoredVersion: int)
      modifies this`defaultVersion
      ensures View() == old(View()).(defaultVersion := DefaultIgnoring(old(Instances()), ignoredVersion))
    {
      defaultVersion := FindDefaultVersion(ignoredVersion);
      assert Instances() == old(Instances());
    }

    /** A new instance is put in the map unless the version is already there; it is
        loaded either way. */
    method EmplaceAndLoad(env: Oracle, cfg: Config) returns (ok: bool)
      requires Valid()
      modifies this
      ensures Valid() && fresh(modelVersions.Values - old(modelVersions.Values))
      ensures ok == env(old(loads), cfg.version)
      ensures View() == Emplaced(env, cfg, old(View()), cfg.version)
    {
      var version, outcome := cfg.version, env(loads, cfg.version);
      loads, log := loads + 1, log + [Started(version)];
      var modelInstance := new ModelInstance(cfg);
      assert cfg.WithVersion(version) == cfg;
      if version in modelVersions {
        ok := modelInstance.LoadModel(cfg, outcome);
        assert Instances() == old(Instances());
      } else {
        modelVersions := modelVersions[version := modelInstance];
        assert modelVersions.Values <= old(modelVersions.Values) + {modelInstance};
        ok := modelInstance.LoadModel(cfg, outcome);
        OneAdded(version);
      }
    }

    method AddVersion(env: Oracle, cfg: Config) returns (ok: bool)
      requires Valid()
      modifies this
      ensures Valid() && fresh(modelVersions.Values - old(modelVersions.Values))
      ensures ok == env(old(loads), cfg.version)
      ensures View() == AddOne(env, cfg, old(View()), cfg.version)
    {
      ok := EmplaceAndLoad(env, cfg);
      if ok {
        UpdateDefaultVersion(ToInt32(0));
      }
    }

    method AddVersions(env: Oracle, cfg: Config, versionsToStart: seq<int>) returns (ok: bool, versionsFailed: seq<int>)
      requires Valid()
      modifies this
      ensures Valid() && fresh(modelVersions.Values - old(modelVersions.Values))
      ensures Batch(View(), versionsFailed, ok) == AddMany(env, cfg, old(View()), versionsToStart)
    {
      ok := true;
      versionsFailed := [];
      var i := 0;
      while i < |versionsToStart|
        invariant 0 <= i <= |versionsToStart|
        invariant Valid() && fresh(modelVersions.Values - old(modelVersions.Values))
        invariant Batch(View(), versionsFailed, ok) == AddMany(env, cfg, old(View()), versionsToStart[..i])
      {
        var version := versionsToStart[i];
        var status := AddVersion(env, cfg.WithVersion(version));
        assert versionsToStart[..i+1][..i] == versionsToStart[..i];
        if !status {
          versionsFailed := versionsFailed + [version];
          ok := false;
        }
        i := i + 1;
      }
      assert versionsToStart[..i] == versionsToStart;
    }

    method RetireVersion(version: int)
      requires Valid() && version in modelVersions
      modifies this, modelVersions[version]
      ensures Valid() && modelVersions == old(modelVersions)
      ensures View() == RetireOne(old(View()), version)
    {
      UpdateDefaultVersion(ToInt32(version));
      log := log + [Retiring(version, defaultVersion)];
      modelVersions[version].RetireModel(true);
      OneChanged(version);
    }

    method RetireVersions(versionsToRetire: seq<int>) returns (ok: bool)
      requires Valid()
      modifies this, modelVersions.Values
      ensures Valid() && modelVersions == old(modelVersions)
      ensures (View(), ok) == RetireMany(old(View()), versionsToRetire)
    {
      ok := true;
      var i := 0;
      while i < |versionsToRetire|
        invariant 0 <= i <= |versionsToRetire|
        invariant Valid() && modelVersions == old(modelVersions)
        invariant (View(), ok) == RetireMany(old(View()), versionsToRetire[..i])
      {
        var version := versionsToRetire[i];
        assert versionsToRetire[..i+1][..i] == versionsToRetire[..i];
        if version !in modelVersions {
          ok := false;
        } else {
          RetireVersion(version);
        }
        i := i + 1;
      }
      assert versionsToRetire[..i] == versionsToRetire;
    }

    method CleanupVersion(version: int)
      requires Valid() && version in modelVersions
      modifies this, modelVersions[version]
      ensures Valid() && modelVersions == old(modelVersions)
      ensures View() == CleanOne(old(View()), version)
    {
      UpdateDefaultVersion(ToInt32(version));
      log := log + [Cleaning(version, defaultVersion)];
      modelVersions[version].CleanupFailedLoad();
      OneChanged(version);
    }

    method CleanupFailedLoad(versionsToCleanUp: seq<int>) returns (ok: bool)
      requires Valid()
      modifies this, modelVersions.Values
      ensures Valid() && modelVersions == old(modelVersions)
      ensures (View(), ok) == CleanMany(old(View()), versionsToCleanUp)
    {
      ok := true;
      var i := 0;
      while i < |versionsToCleanUp|
        invariant 0 <= i <= |versionsToCleanUp|
        invariant Valid() && modelVersions == old(modelVersions)
        invariant (View(), ok) == CleanMany(old(View()), versionsToCleanUp[..i])
      {
        var version := versionsToCleanUp[i];
        assert versionsToCleanUp[..i+1][..i] == versionsToCleanUp[..i];
        if version !in modelVersions {
          ok := false;
        } else {
          CleanupVersion(version);
        }
        i := i + 1;
      }
      assert versionsToCleanUp[..i] == versionsToCleanUp;
    }

    method RetireThenUpdate(version: int)
      requires Valid() && version in modelVersions
      modifies this, modelVersions[version]
      ensures Valid() && modelVersions == old(modelVersions)
      ensures View() == RetireThenDefault(old(View()), version)
    {
      log := log + [Retiring(version, defaultVersion)];
      modelVersions[version].RetireModel(true);
      OneChanged(version);
      UpdateDefaultVersion(ToInt32(0));
    }

    method RetireAllVersions()
      requires Valid()
      modifies this, modelVersions.Values
      ensures Valid() && modelVersions == old(modelVersions)
      ensures View() == RetireAll(old(View()), Keys(modelVersions.Keys))
    {
      var keys := Keys(modelVersions.Keys);
      var i := 0;
      while i < |keys|
        invariant 0 <= i <= |keys|
        invariant Valid() && modelVersions == old(modelVersions)
        invariant View() == RetireAll(old(View()), keys[..i])
      {
        var version := keys[i];
        RetireAllNext(old(View()), keys, i);
        assert version in modelVersions;
        RetireThenUpdate(version);
        i := i + 1;
      }
      assert keys[..i] == keys;
    }

    method ReloadInstance(env: Oracle, cfg: Config) returns (ok: bool)
      requires Valid() && cfg.version in modelVersions
      modifies this, modelVersions[cfg.version]
      ensures Valid() && modelVersions == old(modelVersions)
      ensures ok == env(old(loads), cfg.version)
      ensures View() == ReloadedOnly(env, cfg, old(View()), cfg.version)
    {
      var version := cfg.version;
      ok := modelVersions[version].ReloadModel(cfg.WithVersion(version), false, env(loads, version));
      OneChanged(version);
      loads := loads + 1;
      log := log + [Reloading(version)];
    }

    method ReloadVersion(env: Oracle, cfg: Config) returns (ok: bool)
      requires Valid() && cfg.version in modelVersions
      modifies this, modelVersions[cfg.version]
      ensures Valid() && modelVersions == old(modelVersions)
      ensures ok == env(old(loads), cfg.version)
      ensures View() == ReloadOne(env, cfg, old(View()), cfg.version)
    {
      ok := ReloadInstance(env, cfg);
      if ok {
        UpdateDefaultVersion(ToInt32(0));
      }
    }

    method ReloadVersions(env: Oracle, cfg: Config, versionsToReload: seq<int>, failedBefore: seq<int>)
      returns (ok: bool, versionsFailed: seq<int>)
      requires Valid()
      modifies this, modelVersions.Values
      ensures Valid() && modelVersions == old(modelVersions)
      ensures Batch(View(), versionsFailed, ok) == ReloadMany(env, cfg, old(View()), versionsToReload, failedBefore)
    {
      ok := true;
      versionsFailed := failedBefore;
      var i := 0;
      while i < |versionsToReload|
        invariant 0 <= i <= |versionsToReload|
        invariant Valid() && modelVersions == old(modelVersions)
        invariant Batch(View(), versionsFailed, ok) == ReloadMany(env, cfg, old(View()), versionsToReload[..i], failedBefore)
      {
        var version := versionsToReload[i];
        assert versionsToReload[..i+1][..i] == versionsToReload[..i];
        if version !in modelVersions {
          ok := false;
        } else {
          var status := ReloadVersion(env, cfg.WithVersion(version));
          if !status {
            ok := false;
            versionsFailed := versionsFailed + [version];
          }
        }
        i := i + 1;
      }
      assert versionsToReload[..i] == versionsToReload;
    }
  }
}
