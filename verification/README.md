# ConfigManager of the cluster-management service, modelled in Dafny

The `ConfigManager` class of `ha/core/config/config_manager.py` is the process-wide
access point to the service's configuration. It keeps a class-level list `_conf`
of the configuration indexes already loaded into the key-path store `Conf`, and
`_safe_load` loads an index only when it is not yet in that list. `init` loads the
global index (from `yaml://HA_CONFIG_FILE` unless a config file is given) and,
for a non-empty service name, initialises logging with the log path and level read
from that index. `get_confstore` builds the key-value client once, from the
`scheme://host:port` endpoint in the global index, and caches it in
`_cluster_confstore`. `get_node_name` and `get_node_id` resolve node names and ids
through the mapping kept under `PVTFQDN_TO_NODEID_KEY` in the key-value store.

The model:

- `wrappers.dfy`: `Option`, `Result` and `Outcome`. Python exceptions become `Failure`/`Fail` values.
- `py_str.dfy` (module `PyStr`): `str.split(sep)` with a one-character separator and
  `str.strip(chars)`, with their round trips and characterisations.
- `stores.dfy` (module `Stores`): the collaborators as the manager sees them.
  `ConfStore` is `Conf`: documents that can be located, by URL; documents loaded,
  by index; and a ghost log of every `load` call. `KvClient` is `ConsulKvStore`:
  an immutable handle built from prefix, host, port and batching mode, whose `get`
  returns an insertion-ordered list of pairs (a Python dict; the model also
  accepts a list that repeats a key, which a Python dict never holds).
- `load_gate.dfy` (module `LoadGate`): `_safe_load` as a function `LoadOnce` on a
  snapshot of the registry state, and the gate's invariant. `_conf` has no
  duplicates. It names exactly the loaded indexes. Each of them was loaded
  successfully exactly once, and no other index was loaded successfully.
- `config_parsing.dfy` (module `ConfigParsing`): endpoint parsing, major version,
  last path segment, the first-match scan of `get_node_name` (a loop, as in the
  source) and `popitem` for `get_node_id`.
- `config_manager.dfy` (module `HaConfig`): the class `ConfigManager`. `_conf` is a
  `seq<string>` field, `_cluster_confstore` an `Option<KvClient>` field, and the
  `Log.init` calls are recorded in a `logInits` field. Every method that changes
  state is specified by the `LoadGate` function or by the parsing functions.

What the code does, and the model follows, in a few places where a reader might
expect otherwise:

- `strip("//")` removes every `/` at both ends of the host piece, not only a leading `//`.
- `get_major_version` returns a string, although its doc-comment says int.
- `get_node_id` returns the value of the last pair of the fetched mapping. That is the pair `popitem` removes.
- `init` never passes the caller's `level` on. With a service name, the level always
  comes from `LOG.level`. Without one, logging is not initialised at all.
- An endpoint without a scheme (`host:port`) yields the port as host (`ParseEndpointWithoutScheme`).

## Model

| member | source | states |
|---|---|---|
| `PyStr.Split` | ha/core/config/config_manager.py:82-83 | `split` always yields at least one piece, and no piece contains the separator |
| `PyStr.JoinOfSplit` | ha/core/config/config_manager.py:82-83 | joining the pieces with the separator gives the original string back |
| `PyStr.SplitOfJoin` | ha/core/config/config_manager.py:82-83 | splitting a join of separator-free pieces gives exactly those pieces |
| `PyStr.SplitHasSeveralPieces` | ha/core/config/config_manager.py:82 | there are at least two pieces, so index 1 exists, if and only if the separator occurs |
| `PyStr.SplitFirstPiece` | ha/core/config/config_manager.py:128-129 | piece 0 is a prefix, followed by the separator whenever it is shorter than the string |
| `PyStr.SplitLastPiece` | ha/core/config/config_manager.py:157 | piece -1 is a suffix, preceded by the separator whenever it is shorter than the string |
| `PyStr.LStrip` | ha/core/config/config_manager.py:82 | removes only stripped characters from the front, and the result does not start with one |
| `PyStr.RStrip` | ha/core/config/config_manager.py:82 | removes only stripped characters from the back, and the result does not end with one |
| `PyStr.Strip` | ha/core/config/config_manager.py:82 | a non-empty result neither starts nor ends with a stripped character; an empty result means every character was a stripped one |
| `PyStr.StripIsInfix` | ha/core/config/config_manager.py:82 | the result is the infix of the input left after removing stripped characters at both ends |
| `PyStr.StripFixedPoint` | ha/core/config/config_manager.py:82 | strip leaves a string unchanged if and only if it neither starts nor ends with a stripped character |
| `PyStr.StripAfterPrefix` | ha/core/config/config_manager.py:82 | a run of stripped characters before an already stripped word is removed, giving the word |
| `Stores.ConfStore.Load` | ha/core/config/config_manager.py:116 | `Conf.load` fails with a load error when the source cannot be located; otherwise it installs the document under the index; every call is logged |
| `Stores.ConfStore.Get` | ha/core/config/config_manager.py:127 | `Conf.get` succeeds exactly when the index is loaded and holds the key, and returns that value |
| `Stores.KvClient.constructor` | ha/core/config/config_manager.py:84-86 | the client is bound to the given prefix, host, port and batching mode |
| `Stores.KvClient.Get` | ha/core/config/config_manager.py:154 | the client's `get` returns the mapping stored under the key, or fails when there is none |
| `LoadGate.SafeLoadPreservesValid` | ha/core/config/config_manager.py:115-117 | the gate keeps the invariant: no duplicates, loaded list equals loaded indexes, at most one successful load per index |
| `LoadGate.LoadOnce` | ha/core/config/config_manager.py:115-117 | `_safe_load` on the registry state: the store is called exactly when the index was absent, and that call is logged; afterwards the index is loaded if and only if the call succeeded; on failure the list and the store are unchanged and the error names index and URL; on success only the index is appended |
| `LoadGate.SafeLoadTwiceLoadsOnce` | ha/core/config/config_manager.py:115-117 | two calls for a new index whose source can be located make exactly one underlying load, and the second call changes nothing |
| `LoadGate.SafeLoadTwiceAfterFailure` | ha/core/config/config_manager.py:115-117 | two calls for a new index whose source cannot be located make two underlying loads, both failing, and leave the index unloaded |
| `LoadGate.SafeLoadRetryAfterFailure` | ha/core/config/config_manager.py:115-117 | after a failed load the index stays unloaded, and a later call with a locatable source loads it |
| `LoadGate.AtMostOneSuccessfulLoad` | ha/core/config/config_manager.py:115-117 | in a valid registry an index was loaded successfully at most once, and exactly once if and only if the store holds it |
| `ConfigParsing.ParseEndpoint` | ha/core/config/config_manager.py:81-83 | fails with an index error if and only if the endpoint has no `:`; host and port contain no `:`, and the host neither starts nor ends with `/` |
| `ConfigParsing.StripKeepsColonOut` | ha/core/config/config_manager.py:82 | stripping cannot introduce a `:` into the host |
| `ConfigParsing.ParseFormattedEndpoint` | ha/core/config/config_manager.py:81-83 | parsing `scheme://host:port` returns exactly (host, port) |
| `ConfigParsing.ParseEndpointOfPieces` | ha/core/config/config_manager.py:81-83 | for every endpoint with at least one `:`, the host is its second `:`-piece with `/` stripped at both ends and the port is its last piece |
| `ConfigParsing.IPv6EndpointPieces` | ha/core/config/config_manager.py:82-83 | `http://[::1]:8500` consists of the `:`-pieces "http", "//[", "", "1]", "8500" |
| `ConfigParsing.ParseIPv6Pieces` | ha/core/config/config_manager.py:81-83 | those pieces give host "[" (the second piece "//[" stripped of `/`) and port "8500" |
| `ConfigParsing.ParseEndpointIPv6Example` | ha/core/config/config_manager.py:81-83 | a bracketed IPv6 endpoint `http://[::1]:8500` gives ("[", "8500") |
| `ConfigParsing.ParseEndpointWithoutScheme` | ha/core/config/config_manager.py:81-83 | for `host:port` without a scheme, the host is taken from the port piece |
| `ConfigParsing.ParseEndpointExample` | ha/core/config/config_manager.py:81-83 | `http://10.0.0.5:8500` gives ("10.0.0.5", "8500") |
| `ConfigParsing.MajorVersion` | ha/core/config/config_manager.py:127-129 | the major version is a dot-free prefix of the version, followed by a dot whenever it is shorter |
| `ConfigParsing.MajorVersionUnique` | ha/core/config/config_manager.py:127-129 | those properties determine the major version uniquely |
| `ConfigParsing.MajorVersionWithoutDot` | ha/core/config/config_manager.py:127-129 | a version with no dot is returned whole |
| `ConfigParsing.MajorVersionExamples` | ha/core/config/config_manager.py:127-129 | "2.0.0-beta" gives "2" and "10.3" gives "10" |
| `ConfigParsing.LastSegment` | ha/core/config/config_manager.py:157 | the node name is a slash-free suffix of the key, preceded by `/` whenever it is shorter |
| `ConfigParsing.LastSegmentUnique` | ha/core/config/config_manager.py:157 | those properties determine the last segment uniquely |
| `ConfigParsing.LastSegmentExample` | ha/core/config/config_manager.py:157 | "prefix/node2" gives "node2" |
| `ConfigParsing.FirstIndexOf` | ha/core/config/config_manager.py:155-156 | the position of the first pair whose value is the id, or the length when no pair has it |
| `ConfigParsing.InvalidNodeMessage` | ha/core/config/config_manager.py:159 | the `HAInvalidNode` message contains the requested node id |
| `ConfigParsing.NodeNameOf` | ha/core/config/config_manager.py:155-159 | fails with `HAInvalidNode` for the id if and only if no value equals the id; otherwise returns the last segment of the key of the first matching pair |
| `ConfigParsing.FindNodeName` | ha/core/config/config_manager.py:155-159 | the early-return loop over the pairs computes exactly `NodeNameOf` |
| `ConfigParsing.PopItem` | ha/core/config/config_manager.py:172 | `popitem` fails with a key error if and only if the dict is empty; otherwise the dict is the remaining pairs followed by the popped one |
| `ConfigParsing.NodeIdOf` | ha/core/config/config_manager.py:172-173 | fails if and only if the fetched mapping is empty; otherwise returns the value of its last pair |
| `ConfigParsing.NodeIdOfSingleEntry` | ha/core/config/config_manager.py:172-173 | a one-entry mapping {k: v} gives v |
| `ConfigParsing.NameIdRoundTrip` | ha/core/config/config_manager.py:153-173 | with unique ids, each entry's id resolves back to the last segment of its key, and its single-entry mapping resolves to its id |
| `ConfigParsing.NodeIdExample` | ha/core/config/config_manager.py:170-173 | {"prefix/node1": "id-A"} gives "id-A" |
| `ConfigParsing.NodeNameExample` | ha/core/config/config_manager.py:153-158 | in {"prefix/node1": "id-A", "prefix/node2": "id-B"}, "id-B" resolves to "node2" |
| `ConfigParsing.UnknownNodeExample` | ha/core/config/config_manager.py:153-159 | in the same mapping, "id-ZZZ" fails with `HAInvalidNode` naming "id-ZZZ" |
| `HaConfig.ConfigManager.constructor` | ha/core/config/config_manager.py:38-39 | at process start nothing is loaded, there is no client and logging has not been initialised |
| `HaConfig.ConfigManager.Key` | ha/core/config/config_manager.py:55-56 | a key path reads the section, then `_DELIM`, then the name, as the f-strings of lines 55, 56, 81, 127, 136 and 143 build it |
| `HaConfig.ConfigManager.SafeLoad` | ha/core/config/config_manager.py:110-117 | `_safe_load` moves the registry state exactly as `LoadOnce` does and keeps the invariant |
| `HaConfig.ConfigManager.ConfigUrl` | ha/core/config/config_manager.py:70-71 | the given config file when it is truthy, `yaml://HA_CONFIG_FILE` otherwise |
| `HaConfig.ConfigManager.ConfInit` | ha/core/config/config_manager.py:65-72 | `_conf_init` is the gate applied to the global index and that URL |
| `HaConfig.ConfigManager.LoadControllerSchema` | ha/core/config/config_manager.py:89-94 | the gate applied to the controller index and its `json://` schema path |
| `HaConfig.ConfigManager.LoadFilterRules` | ha/core/config/config_manager.py:96-101 | the gate applied to the alert filter index and its `json://` rules path |
| `HaConfig.ConfigManager.LoadAlertEventsRules` | ha/core/config/config_manager.py:103-108 | the gate applied to the alert event index and its `json://` rules path |
| `HaConfig.ConfigManager.ResolveLogOptions` | ha/core/config/config_manager.py:53-62 | log path from the caller when truthy, else `LOG.path`; level always `LOG.level`; other options as given; fails exactly when a needed key is missing |
| `HaConfig.ConfigManager.Init` | ha/core/config/config_manager.py:41-63 | always loads the global index; initialises logging exactly once with the resolved options when the service name is non-empty and everything loads; never otherwise |
| `HaConfig.ConfigManager.ConsulAddress` | ha/core/config/config_manager.py:81-83 | succeeds exactly when the endpoint key is present and contains `:`, giving the parsed host and port |
| `HaConfig.ConfigManager.GetConfstore` | ha/core/config/config_manager.py:74-87 | a cached client is returned unchanged whatever the batching argument; otherwise a fresh client is built from the parsed endpoint and this call's batching mode, and cached; on failure nothing is cached |
| `HaConfig.ConfigManager.GetNodeName` | ha/core/config/config_manager.py:145-159 | with a client, the result is `NodeNameOf` on the mapping under `PVTFQDN_TO_NODEID_KEY`; errors of the client and the fetch propagate; a client built by this call is fresh, uses the parsed endpoint's host and port and no batching, and none is cached when the endpoint cannot be read or parsed |
| `HaConfig.ConfigManager.GetNodeId` | ha/core/config/config_manager.py:161-173 | with a client, the result is `NodeIdOf` on the mapping under `PVTFQDN_TO_NODEID_KEY/name`; errors propagate; a client built by this call is fresh, uses the parsed endpoint's host and port and no batching, and none is cached when the endpoint cannot be read or parsed |
| `HaConfig.ConfigManager.GetMajorVersion` | ha/core/config/config_manager.py:119-129 | fails exactly when `VERSION.version` is missing; otherwise returns the dot-free prefix of it that ends at the first dot |
| `HaConfig.ConfigManager.GetLocalNode` | ha/core/config/config_manager.py:131-136 | the value of `CLUSTER_MANAGER.local_node` in the global index |
| `HaConfig.ConfigManager.GetHwEnv` | ha/core/config/config_manager.py:138-143 | the value of `CLUSTER_MANAGER.env` in the global index |
| `HaConfig.ConfstoreIsShared` | ha/core/config/config_manager.py:74-87 | two calls return the same object, and the second call's batching argument has no effect |
| `HaConfig.SafeLoadTwice` | ha/core/config/config_manager.py:110-117 | two loads of one index: one store call when the first succeeds, none for an index already loaded, and two failing calls when the first fails, leaving the index unloaded |

## Left out

- The values of the `ha.const` constants (`ha/const.py` is not part of this model). They are fields of the `HaConst` record, so every property holds for any values.
- How `Conf` locates and parses YAML/JSON sources. A source either can be located (it is in `files`) or its load fails.
- Stores.ConfStore.Get: a missing key is modelled as a `KeyNotFound` failure. The `Conf` source (`cortx.utils.conf_store`) is not part of this model; if it returns `None` for a missing key, the members below differ from the program for that case.
- HaConfig.ConfigManager.GetLocalNode: fails with `KeyNotFound` where the program would return the store's missing-key value (`None`) unchanged, as line 136 does.
- HaConfig.ConfigManager.GetHwEnv: fails with `KeyNotFound` where the program would return the store's missing-key value (`None`) unchanged, as line 143 does.
- HaConfig.ConfigManager.ResolveLogOptions: fails with `KeyNotFound` for a missing `LOG.path` (when no log path is given) or `LOG.level`, where the program would put `None` into the options at lines 55-56.
- HaConfig.ConfigManager.Init: for a missing `LOG.path` or `LOG.level` it returns `Fail` and records no `Log.init` call, where the program would call `Log.init` (lines 59-62) with `None` as log path or level.
- HaConfig.ConfigManager.GetMajorVersion and HaConfig.ConfigManager.ConsulAddress: for a missing key they fail with `KeyNotFound`, where the program would raise `AttributeError` from calling `split` on `None` (lines 82 and 128).
- `Log.init` and `Log.info`: no logging happens. `init` only records the options it would pass to `Log.init`.
- The network transport of `ConsulKvStore`, and how its prefix is joined to keys. The namespace under the prefix is a fixed map from key to an ordered list of pairs. What `get` does for a missing key is modelled as a `KeyNotFound` failure.
- Stores.KvClient.Get: it does not depend on the client's host or port. A client built from a mis-parsed endpoint still reaches the namespace in the model, whereas the real client would contact the wrong host. Examples are `http://[::1]:8500`, which gives host `[`, and `host:port`, which gives the port as host. The model records the host and port the program would use (`GetConfstore`, `ParseEndpoint`), but not the effect of connecting to them.
- Thread safety: `_conf` and `_cluster_confstore` are shared without locking. The model assumes sequential calls.
- `log_name` is modelled as a string, and the falsy `None` as the empty string.
