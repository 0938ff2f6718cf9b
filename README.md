# Bareos execution module: configuration resolver

The Bareos module for Salt lets a minion open a console session on a Bareos
director and run commands there. Everything it does with the director goes
through the external `bareos.bsock` client library; the one piece of logic
of its own is `_get_config`, which works out the connection settings every
session is opened with. That resolver is what this project models and proves.

`_get_config` merges three layers of string-keyed settings:

1. five hard-coded defaults: `address` = `'localhost'`, `dirname` = None,
   `port` = 9101, `user` = `'*UserAgent*'`, `password` = `''`;
2. when the host's `__salt__` accessor exists, the blob its `config.get`
   returns for the key `bareos.config` (an empty map when there is none),
   applied with `dict.update`;
3. every caller keyword argument whose name is already a key of the merged
   settings, assigned one at a time in a loop over the key intersection.

In the model (`mod_bareos.dfy`, module `ModBareos`):

- `Value` is a setting's value: a string, an integer or Python's None.
- The store is an input, `Option<ConfigStore>`. `None` stands for a missing
  `__salt__` accessor. `Some(store)` maps namespaced keys to settings blobs.
- `GetConfig` is the function itself, written imperatively. It uses a local
  map, an update with the store blob, and a `while` loop. The loop picks each
  key of the intersection in an unspecified order, like iteration over a
  Python set.
- `GetConfig` is proved to compute the specification function `Resolve`.
- `config_properties.dfy` (module `ConfigProperties`) proves what callers rely
  on about `Resolve`. It also gives `Layered`, an independent key-by-key
  statement of the precedence, and proves it equal to `Resolve`.

Keyword names are intersected with the keys present after the store overlay
(salt/modules/mod_bareos.py:75-76), not with the five defaults. So a key that
only the store introduces, such as `api_kg` from the configuration example in
the module docstring (line 23), can be overridden too
(`ConfigProperties.StoreOnlyKeyOverridable`).

## Model

| member | source | states |
|---|---|---|
| `ModBareos.GetConfig` | salt/modules/mod_bareos.py:62-78 | the settings built by defaults, store update and the loop over the key intersection are exactly `Resolve(salt, kwargs)`, whatever order the loop takes the keys in |
| `ModBareos.ConfigKey` | salt/modules/mod_bareos.py:52-74 | the store is consulted under the key `bareos.config`, formed from the module's registered name |
| `ModBareos.Defaults` | salt/modules/mod_bareos.py:66-72 | the defaults name exactly the five settings, with address `localhost`, dirname None, port 9101, user `*UserAgent*` and an empty password |
| `ConfigProperties.NoStoreNoKwargsIsDefaults` | salt/modules/mod_bareos.py:66-73 | with no store accessor and no keyword arguments the result is exactly the five defaults |
| `ConfigProperties.EmptyStoreLeavesDefaults` | salt/modules/mod_bareos.py:73-75 | a store with no `bareos.config` entry (the `{}` fallback) or an empty one gives the same result as no store at all |
| `ConfigProperties.StoreReplacesDefault` | salt/modules/mod_bareos.py:73-75 | every key the store supplies and the caller does not pass takes the store's value over the default |
| `ConfigProperties.KwargOverrides` | salt/modules/mod_bareos.py:76-77 | a keyword naming a default or stored setting ends up with exactly the caller's value |
| `ModBareos.Resolve` | salt/modules/mod_bareos.py:66-78 | the result's keys are exactly the five default keys together with the store's keys: keywords add none, and the result is never partially populated |
| `ConfigProperties.UnknownKwargsIgnored` | salt/modules/mod_bareos.py:76 | dropping every keyword that names neither a default nor a stored setting leaves the result unchanged |
| `ConfigProperties.UnnamedKeysKeepLayers` | salt/modules/mod_bareos.py:66-78 | a setting the caller does not name keeps the store's value when the store has one, and the default otherwise |
| `ConfigProperties.Precedence` | salt/modules/mod_bareos.py:66-78 | for every key, in both directions: it is in the result exactly when `Layered` gives it a value, and its value is the caller's, else the store's, else the default |
| `ConfigProperties.StoreOnlyKeyOverridable` | salt/modules/mod_bareos.py:75-76 | for every key that only the store supplies, a same-named keyword's value wins; without the store accessor that keyword is dropped |
| `ConfigProperties.ApiKgOverridable` | salt/modules/mod_bareos.py:23 | the `api_kg` key of the configuration example, when stored, takes the caller's value, and is dropped without the store |
| `ModBareos.ConfigGet` | salt/modules/mod_bareos.py:75 | `config.get(key, {})` yields the blob stored under the key, and the given default when there is none |
| `ModBareos.StoreLayer` | salt/modules/mod_bareos.py:73-75 | without the `__salt__` accessor the store contributes nothing; with it, the blob under `bareos.config`, or an empty map |
| `ModBareos.Merged` | salt/modules/mod_bareos.py:66-75 | after `dict.update` the keys are the defaults' and the blob's; every blob entry wins, and the other defaults keep their values |

## Left out

- `_BareosConsole` and `_BareosConsoleJson` (lines 81-106) are left out. They open director sessions through `bareos.bsock`, an external library that is not part of this model. Their enter and exit methods only hand the handle back or drop it.
- `cmd` and `client_list` (lines 109-118) are left out. Each makes one call on such a session. The UTF-8 decoding in `cmd` applies to bytes that the external library produces.
- `__virtual__` and the `HAS_BAREOS` import gate (lines 46-59) are left out. They are part of how the host discovers modules when it loads them.
- The store lookup is a plain keyed lookup with a default. Salt's own `config.get` is not part of this model: it does nested lookups and merges minion options, pillar and grains. The blob it returns is taken to be a mapping. Non-mapping blobs are not modelled: `dict.update` raises on most of them (None, a number, a non-empty string), and applies an iterable of key/value pairs such as `[['port', 9102]]` as if it were a mapping.
- Values are limited to strings, integers and None. Other Python values would pass through the resolver unchanged in the same way.
- The module logger (line 43) and the usage text in the module docstring (lines 29-31) are left out. That text describes a different module.
