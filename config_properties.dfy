/**
  What the resolver promises its callers, stated against ModBareos.Resolve
  (which GetConfig is proved to compute): the exact defaults, the precedence
  caller > store > defaults, and which keyword arguments are ignored.
 */
module ConfigProperties {
  import opened ModBareos

  /**
    An independent reading of the precedence, one key at a time: a key is a
    setting when the defaults or the store name it; its value is then the
    caller's if the caller passed it, else the store's, else the default.
   */
  function Layered(salt: Option<ConfigStore>, kwargs: Config, k: string): Option<Value>
  {
    var stored := StoreLayer(salt);
    if k !in DefaultKeys && k !in stored then None
    else if k in kwargs then Some(kwargs[k])
    else if k in stored then Some(stored[k])
    else Some(Defaults()[k])
  }

  /** With no store accessor and no keyword arguments the result is exactly the five defaults. */
  lemma NoStoreNoKwargsIsDefaults()
    ensures Resolve(None, map[]) ==
            map["address" := Str("localhost"), "dirname" := Null, "port" := Int(9101),
                "user" := Str("*UserAgent*"), "password" := Str("")]
  {
  }

  /** A store without a `bareos.config` entry, or with an empty one, changes nothing. */
  lemma EmptyStoreLeavesDefaults(store: ConfigStore, kwargs: Config)
    requires ConfigKey() !in store || store[ConfigKey()] == map[]
    ensures Resolve(Some(store), kwargs) == Resolve(None, kwargs)
  {
  }

  /** Each key the store supplies replaces the default, unless the caller passed that key. */
  lemma StoreReplacesDefault(salt: Option<ConfigStore>, kwargs: Config, k: string)
    requires k in StoreLayer(salt) && k !in kwargs
    ensures k in Resolve(salt, kwargs) && Resolve(salt, kwargs)[k] == StoreLayer(salt)[k]
  {
  }

  /** A keyword naming a default or stored setting replaces its value with exactly the caller's. */
  lemma KwargOverrides(salt: Option<ConfigStore>, kwargs: Config, k: string)
    requires k in kwargs && (k in DefaultKeys || k in StoreLayer(salt))
    ensures k in Resolve(salt, kwargs) && Resolve(salt, kwargs)[k] == kwargs[k]
  {
  }

  /**
    Unrecognised keyword arguments are ignored: dropping every keyword that
    names neither a default nor a stored setting gives the same result.
   */
  lemma UnknownKwargsIgnored(salt: Option<ConfigStore>, kwargs: Config)
    ensures Resolve(salt, kwargs) ==
            Resolve(salt, map k | k in kwargs && (k in DefaultKeys || k in StoreLayer(salt)) :: kwargs[k])
  {
  }

  /** Settings the caller did not name keep the stored value if there is one, and the default otherwise. */
  lemma UnnamedKeysKeepLayers(salt: Option<ConfigStore>, kwargs: Config, k: string)
    requires k !in kwargs
    ensures k in StoreLayer(salt) ==> k in Resolve(salt, kwargs) && Resolve(salt, kwargs)[k] == StoreLayer(salt)[k]
    ensures k !in StoreLayer(salt) && k in DefaultKeys ==>
              k in Resolve(salt, kwargs) && Resolve(salt, kwargs)[k] == Defaults()[k]
  {
  }

  /**
    The precedence caller > store > defaults, key by key and in both
    directions: a key is in the result exactly when Layered gives it a value,
    and then that is its value.
   */
  lemma Precedence(salt: Option<ConfigStore>, kwargs: Config, k: string)
    ensures k in Resolve(salt, kwargs) <==> Layered(salt, kwargs, k).Some?
    ensures k in Resolve(salt, kwargs) ==> Resolve(salt, kwargs)[k] == Layered(salt, kwargs, k).value
  {
  }

  /**
    A key only the store introduces can be overridden by a keyword of the same
    name, because the keys are intersected after the store overlay; without
    the store accessor the same keyword is dropped.
   */
  lemma StoreOnlyKeyOverridable(store: ConfigStore, kwargs: Config, k: string)
    requires k !in DefaultKeys && k in StoreLayer(Some(store)) && k in kwargs
    ensures k in Resolve(Some(store), kwargs) && Resolve(Some(store), kwargs)[k] == kwargs[k]
    ensures k !in Resolve(None, kwargs)
  {
  }

  /** The `api_kg` key of the configuration example: a stored `api_kg` takes the caller's value. */
  lemma ApiKgOverridable()
    ensures var kwargs := map["api_kg" := Str("secret")];
            var store := map[ConfigKey() := map["api_kg" := Null]];
            && Resolve(Some(store), kwargs)["api_kg"] == Str("secret")
            && "api_kg" !in Resolve(None, kwargs)
  {
    StoreOnlyKeyOverridable(map[ConfigKey() := map["api_kg" := Null]], map["api_kg" := Str("secret")], "api_kg");
  }
}
