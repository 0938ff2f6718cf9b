/**
  The configuration resolver of the Bareos execution module: the connection
  settings every console session is opened with are the hard-coded defaults,
  overlaid with the blob the host's configuration store holds under
  `bareos.config` (when the store is reachable at all), overlaid in turn with
  those caller keyword arguments whose names are already settings.
 */
module ModBareos {

  datatype Option<+T> = None | Some(value: T)

  /** A setting's value as the host hands it over: a string, an integer, or Python's None. */
  datatype Value = Str(s: string) | Int(i: int) | Null

  /** A settings dictionary (also the shape of the caller's keyword arguments). */
  type Config = map<string, Value>

  /** The host's configuration store as `config.get` sees it: namespaced keys to configuration blobs. */
  type ConfigStore = map<string, Config>

  /** The name the module registers itself under with the host. */
  const VirtualName: string := "bareos"

  /** The five settings that always have a value. */
  const DefaultKeys: set<string> := {"address", "dirname", "port", "user", "password"}

  /** The store key the settings blob lives under: the module's name followed by `.config`. */
  function ConfigKey(): (key: string)
    ensures key == "bareos.config"
  {
    VirtualName + ".config"
  }

  /** The hard-coded defaults; every one of the five settings is present. */
  function Defaults(): (d: Config)
    ensures d.Keys == DefaultKeys
    ensures d["address"] == Str("localhost") && d["dirname"] == Null && d["port"] == Int(9101)
    ensures d["user"] == Str("*UserAgent*") && d["password"] == Str("")
  {
    map["address" := Str("localhost"),
        "dirname" := Null,
        "port" := Int(9101),
        "user" := Str("*UserAgent*"),
        "password" := Str("")]
  }

  /** The store's `config.get(key, default)`: the blob under `key`, or `default` when there is none. */
  function ConfigGet(store: ConfigStore, key: string, default: Config): (blob: Config)
    ensures key in store ==> blob == store[key]
    ensures key !in store ==> blob == default
  {
    if key in store then store[key] else default
  }

  /** What the store contributes: nothing when the accessor is absent, else the blob under ConfigKey() or an empty map. */
  function StoreLayer(salt: Option<ConfigStore>): (layer: Config)
    ensures salt.None? ==> layer == map[]
    ensures salt.Some? ==> layer == if ConfigKey() in salt.value then salt.value[ConfigKey()] else map[]
  {
    match salt
    case None => map[]
    case Some(store) => ConfigGet(store, ConfigKey(), map[])
  }

  /** The settings after the store overlay: `dict.update`, where the blob's entries win. */
  function Merged(salt: Option<ConfigStore>): (merged: Config)
    ensures merged.Keys == DefaultKeys + StoreLayer(salt).Keys
    ensures forall k :: k in StoreLayer(salt) ==> merged[k] == StoreLayer(salt)[k]
    ensures forall k :: k in DefaultKeys && k !in StoreLayer(salt) ==> merged[k] == Defaults()[k]
  {
    Defaults() + StoreLayer(salt)
  }

  /**
    The resolved settings: every key of the merged settings that the caller
    also passed takes the caller's value; no other keyword is looked at.
    Keywords never add settings, and the five defaults are always present.
   */
  function Resolve(salt: Option<ConfigStore>, kwargs: Config): (r: Config)
    ensures r.Keys == DefaultKeys + StoreLayer(salt).Keys
  {
    var merged := Merged(salt);
    map k | k in merged :: if k in kwargs then kwargs[k] else merged[k]
  }

  /**
    `_get_config`: starts from the defaults, applies the store blob when the
    store accessor exists, then assigns the caller's value to each key in the
    intersection of the settings' keys and the keyword names, in whatever
    order the set yields them.
   */
  method GetConfig(salt: Option<ConfigStore>, kwargs: Config) returns (config: Config)
    ensures config == Resolve(salt, kwargs)
  {
    config := Defaults();
    if salt.Some? {
      var configKey := ConfigKey();
      config := config + ConfigGet(salt.value, configKey, map[]);
    }
    ghost var merged := config;
    var pending := config.Keys * kwargs.Keys;
    while pending != {}
      invariant pending <= merged.Keys * kwargs.Keys
      invariant config.Keys == merged.Keys
      invariant forall k :: k in config ==>
                  config[k] == if k in kwargs && k !in pending then kwargs[k] else merged[k]
      decreases pending
    {
      var k :| k in pending;
      config := config[k := kwargs[k]];
      pending := pending - {k};
    }
  }
}
