/** The fields of a model configuration and the comparison that decides on reloads. */
module ModelConfig {
  import opened Common
  import opened VersionPolicy

  datatype Mode = FIXED | AUTO

  datatype Dimension = Dimension(minimum: int, maximum: int)

  datatype ShapeInfo = ShapeInfo(shapeMode: Mode, shape: seq<Dimension>)

  datatype LayoutConfiguration = LayoutConfiguration(tensor: string, model: string)

  /** The fields that isReloadRequired compares. */
  datatype Serving = Serving(
    name: string,
    basePath: string,
    targetDevice: string,
    batchingMode: Mode,
    batchSize: Option<Dimension>,
    nireq: nat,
    pluginConfig: map<string, string>,
    layout: LayoutConfiguration,
    layouts: map<string, LayoutConfiguration>,
    shapes: map<string, ShapeInfo>,
    customLoaderOptions: map<string, string>,
    allowCache: bool)

  /** The policy and the version never force a reload. */
  datatype Config = Config(serving: Serving, policy: Policy, version: int)
  {
    predicate CustomLoaderRequired() {
      |serving.customLoaderOptions| > 0
    }

    function WithVersion(v: int): Config {
      this.(version := v)
    }
  }

  predicate ReloadRequired(a: Config, b: Config) {
    a.serving != b.serving
  }

  predicate CustomLoaderChanged(a: Config, b: Config) {
    a.serving.customLoaderOptions != b.serving.customLoaderOptions
  }

  /** Two maps of the same size agree as soon as one is contained in the other. */
  lemma SameSizeSubMap<K, V>(a: map<K, V>, b: map<K, V>)
    requires |a| == |b|
    requires forall k :: k in a ==> k in b && a[k] == b[k]
    ensures a == b
  {
    SubsetSize(a.Keys, b.Keys);
    assert |a.Keys| == |a| && |b.Keys| == |b|;
  }

  /** One pass over the left map, as the range-for loops of the comparisons do. */
  method ContainedIn<V(==)>(a: map<string, V>, b: map<string, V>) returns (r: bool)
    ensures r <==> forall k :: k in a ==> k in b && a[k] == b[k]
  {
    var rest := a.Keys;
    while rest != {}
      invariant rest <= a.Keys
      invariant forall k :: k in a && k !in rest ==> k in b && a[k] == b[k]
      decreases rest
    {
      var k :| k in rest;
      if k !in b {
        return false;
      }
      if a[k] != b[k] {
        return false;
      }
      rest := rest - {k};
    }
    return true;
  }

  method IsLayoutConfigurationEqual(a: Serving, b: Serving) returns (r: bool)
    ensures r <==> a.layout == b.layout && a.layouts == b.layouts
  {
    if a.layout != b.layout {
      return false;
    }
    if |a.layouts| != |b.layouts| {
      return false;
    }
    r := ContainedIn(a.layouts, b.layouts);
    if r {
      SameSizeSubMap(a.layouts, b.layouts);
    }
  }

  method IsShapeConfigurationEqual(a: Serving, b: Serving) returns (r: bool)
    ensures r <==> a.shapes == b.shapes
  {
    if |a.shapes| != |b.shapes| {
      return false;
    }
    r := ContainedIn(a.shapes, b.shapes);
    if r {
      SameSizeSubMap(a.shapes, b.shapes);
    }
  }

  method IsBatchSizeConfigurationEqual(a: Serving, b: Serving) returns (r: bool)
    ensures r <==> a.batchSize == b.batchSize
  {
    if a.batchSize.Some? != b.batchSize.Some? {
      return false;
    }
    if a.batchSize.Some? && a.batchSize.value != b.batchSize.value {
      return false;
    }
    return true;
  }

  method IsCustomLoaderConfigChanged(a: Config, b: Config) returns (r: bool)
    ensures r <==> a.serving.customLoaderOptions != b.serving.customLoaderOptions
  {
    if |a.serving.customLoaderOptions| != |b.serving.customLoaderOptions| {
      return true;
    }
    if |a.serving.customLoaderOptions| > 0 && |b.serving.customLoaderOptions| > 0 {
      if a.serving.customLoaderOptions != b.serving.customLoaderOptions {
        return true;
      }
      return false;
    }
    assert a.serving.customLoaderOptions == map[] && b.serving.customLoaderOptions == map[];
    return false;
  }

  /** ModelConfig::isReloadRequired, field by field in the order of the source. */
  method IsReloadRequired(a: Config, b: Config) returns (r: bool)
    ensures r <==> a.serving != b.serving
  {
    if a.serving.name != b.serving.name || a.serving.basePath != b.serving.basePath || a.serving.targetDevice != b.serving.targetDevice {
      return true;
    }
    if a.serving.batchingMode != b.serving.batchingMode {
      return true;
    }
    var same := IsBatchSizeConfigurationEqual(a.serving, b.serving);
    if !same {
      return true;
    }
    if a.serving.nireq != b.serving.nireq || a.serving.pluginConfig != b.serving.pluginConfig {
      return true;
    }
    same := IsLayoutConfigurationEqual(a.serving, b.serving);
    if !same {
      return true;
    }
    same := IsShapeConfigurationEqual(a.serving, b.serving);
    if !same {
      return true;
    }
    var changed := IsCustomLoaderConfigChanged(a, b);
    if changed {
      return true;
    }
    return a.serving.allowCache != b.serving.allowCache;
  }

  /** "No reload required" is an equivalence, and it survives setVersion, which is
      called on the configuration before every load. */
  lemma ReloadRequiredLaws(a: Config, b: Config, c: Config, v: int)
    ensures !ReloadRequired(a, a)
    ensures ReloadRequired(a, b) <==> ReloadRequired(b, a)
    ensures !ReloadRequired(a, b) && !ReloadRequired(b, c) ==> !ReloadRequired(a, c)
    ensures ReloadRequired(a.WithVersion(v), b) <==> ReloadRequired(a, b)
    ensures CustomLoaderChanged(a, b) ==> ReloadRequired(a, b)
  {
  }
}
