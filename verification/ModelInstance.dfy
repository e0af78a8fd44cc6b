/** One version of a model, seen between its operations: the status, the configuration
    it was last loaded with, and the pending custom-loader change. The interleaving of
    these operations with requests is the subject of module UnloadProtocol. */
module ModelInstance {
  import opened Common
  import opened ModelConfig
  import opened ModelVersionStatus

  datatype Instance = Instance(status: Status, config: Config, loaderChanged: bool)
  {
    predicate Serving() {
      status.state == AVAILABLE
    }
  }

  /** The status that loadModelImpl leaves behind. */
  function LoadStatus(ok: bool): Status {
    if ok then AVAILABLE_STATUS else FAILED_STATUS
  }

  function Loaded(config: Config, ok: bool): Instance {
    Instance(LoadStatus(ok), config, false)
  }

  function Reloaded(i: Instance, config: Config, ok: bool): Instance {
    Instance(LoadStatus(ok), config, if i.config.CustomLoaderRequired() then false else i.loaderChanged)
  }

  function Retired(i: Instance): Instance {
    i.(status := END_STATUS)
  }

  function CleanedUp(i: Instance): Instance {
    i.(status := FAILED_STATUS)
  }

  /** How the reload that a request asks for ends. */
  datatype DynamicResult = Adapted | NotAdapted | Refused

  class ModelInstance {
    var status: Status
    var config: Config
    var isCustomLoaderConfigChanged: bool

    /** The components: None when they are torn down or only partly built, otherwise
        whether they were built with a dynamic batch size or shape. */
    var built: Option<bool>

    function View(): Instance
      reads this
    {
      Instance(status, config, isCustomLoaderConfigChanged)
    }

    constructor (initial: Config)
      ensures View() == Instance(START_STATUS, initial, false) && built == None
    {
      status := START_STATUS;
      config := initial;
      isCustomLoaderConfigChanged := false;
      built := None;
    }

    /** "outcome" stands for everything that can go right or wrong while the
        components are built. */
    method LoadModelImpl(newConfig: Config, parameter: bool, outcome: bool) returns (ok: bool)
      modifies this
      ensures ok == outcome
      ensures View() == old(View()).(status := LoadStatus(outcome), config := newConfig)
      ensures built == if outcome then Some(parameter) else None
    {
      config := newConfig;
      built := None;
      if !outcome {
        status := FAILED_STATUS;
        return false;
      }
      built := Some(parameter);
      status := AVAILABLE_STATUS;
      return true;
    }

    method LoadModel(newConfig: Config, outcome: bool) returns (ok: bool)
      modifies this
      ensures ok == outcome
      ensures View() == old(View()).(status := LoadStatus(outcome), config := newConfig)
      ensures built == if outcome then Some(false) else None
    {
      status := START_STATUS;
      status := LOADING_STATUS;
      ok := LoadModelImpl(newConfig, false, outcome);
    }

    method RetireModel(isPermanent: bool)
      modifies this
      ensures View() == old(View()).(status := if isPermanent then END_STATUS else LOADING_STATUS)
      ensures built == None
    {
      if isPermanent {
        status := UNLOADING_STATUS;
      } else {
        status := LOADING_STATUS;
      }
      built := None;
      if isPermanent {
        status := END_STATUS;
      }
    }

    method ReloadModel(newConfig: Config, parameter: bool, outcome: bool) returns (ok: bool)
      modifies this
      ensures ok == outcome
      ensures View() == Reloaded(old(View()), newConfig, outcome)
      ensures isCustomLoaderConfigChanged <==> old(isCustomLoaderConfigChanged) && |old(config).serving.customLoaderOptions| == 0
      ensures built == if outcome then Some(parameter) else None
    {
      status := LOADING_STATUS;
      if config.CustomLoaderRequired() && isCustomLoaderConfigChanged {
        isCustomLoaderConfigChanged := false;
        RetireModel(isCustomLoaderConfigChanged);
      }
      ok := LoadModelImpl(newConfig, parameter, outcome);
    }

    method RecoverFromReloadingError(outcome: bool)
      modifies this
      ensures View() == Reloaded(old(View()), old(config), outcome)
      ensures built == if outcome then Some(false) else None
    {
      RetireModel(false);
      var _ := ReloadModel(config, false, outcome);
    }

    method ReshapeWithFullReload(outcome: bool) returns (ok: bool)
      modifies this
      ensures ok == outcome
      ensures View() == Reloaded(old(View()), old(config), outcome)
      ensures built == if outcome then Some(true) else None
    {
      RetireModel(false);
      ok := ReloadModel(config, true, outcome);
    }

    /** The reload for the batch size or shape of a request. "first", "second" and
        "third" are the outcomes of its up to three loads. Success needs one of the
        first two loads; if both fail the third decides whether the stored
        configuration, which never changes, is served again. The guard is held
        afterwards exactly on success. Only a request without batch size and shapes is
        refused, and that leaves the instance alone. */
    method ReloadForRequest(hasParameter: bool, first: bool, second: bool, third: bool)
      returns (result: DynamicResult, guard: bool)
      modifies this
      ensures config == old(config)
      ensures guard <==> result.Adapted?
      ensures result.Refused? <==> !hasParameter
      ensures result.Refused? ==> View() == old(View()) && built == old(built)
      ensures hasParameter ==> (result.Adapted? <==> first || second)
      ensures result.Adapted? ==> status == AVAILABLE_STATUS && built == Some(true)
      ensures result.NotAdapted? && third ==> status == AVAILABLE_STATUS && built == Some(false)
      ensures result.NotAdapted? && !third ==> status == FAILED_STATUS && built == None
    {
      guard := false;
      if !hasParameter {
        return Refused, false;
      }
      var ok := ReloadModel(config, true, first);
      if !ok {
        ok := ReshapeWithFullReload(second);
        if !ok {
          RecoverFromReloadingError(third);
          return NotAdapted, false;
        }
      }
      return Adapted, true;
    }

    method CleanupFailedLoad()
      modifies this
      ensures View() == CleanedUp(old(View())) && built == None
    {
      status := FAILED_STATUS;
      built := None;
    }

    method SetCustomLoaderConfigChangeFlag()
      modifies this
      ensures View() == old(View()).(loaderChanged := true) && built == old(built)
    {
      isCustomLoaderConfigChanged := true;
    }
  }
}
