/**
  `ConfigManager`: the process-wide registry of loaded configuration sources
  (`_conf`), the lazily built key-value client (`_cluster_confstore`) and the
  node name/id resolution built on them. The class-level state of the Python
  class is the state of one `ConfigManager` object.
*/
module HaConfig {
  import opened Wrappers
  import opened Stores
  import opened LoadGate
  import opened ConfigParsing

  /** The `ha.const` names the manager uses; their values are configuration of the deployment. */
  datatype HaConst = HaConst(
    globalIndex: string,             // HA_GLOBAL_INDEX
    configFile: string,              // HA_CONFIG_FILE
    delim: string,                   // _DELIM, separator of key paths
    clusterConfstorePrefix: string,  // CLUSTER_CONFSTORE_PREFIX
    controllerIndex: string,         // CM_CONTROLLER_INDEX
    controllerSchema: string,        // CM_CONTROLLER_SCHEMA
    alertFilterIndex: string,        // ALERT_FILTER_INDEX
    alertFilterRulesFile: string,    // ALERT_FILTER_RULES_FILE
    alertEventIndex: string,         // ALERT_EVENT_INDEX
    alertEventRulesFile: string,     // ALERT_EVENT_RULES_FILE
    pvtfqdnToNodeIdKey: string)      // PVTFQDN_TO_NODEID_KEY

  /** The options `Log.init` receives. */
  datatype LogOptions = LogOptions(
    serviceName: string, logPath: string, level: string,
    backupCount: int, fileSizeInMb: int,
    syslogServer: Option<string>, syslogPort: Option<int>, consoleOutput: bool)

  /** Python truthiness of an optional string: neither `None` nor empty. */
  predicate Truthy(s: Option<string>)
  {
    s.Some? && s.value != ""
  }

  class ConfigManager {
    const names: HaConst
    const conf: ConfStore               // the key-path store `Conf`
    const cluster: map<string, Dict>    // the key-value namespace under the cluster prefix
    var loaded: seq<string>             // `_conf`
    var clusterConfstore: Option<KvClient>  // `_cluster_confstore`
    var logInits: seq<LogOptions>       // the calls of `Log.init` made so far

    ghost function Snapshot(): Registry
      reads this, conf
    {
      Registry(loaded, conf.indexes, conf.loadLog)
    }

    ghost predicate Valid()
      reads this, conf
    {
      && RegistryValid(Snapshot())
      && (clusterConfstore.Some? ==>
            clusterConfstore.value.namespace == cluster
            && clusterConfstore.value.prefix == names.clusterConfstorePrefix)
    }

    /** The state at process start: nothing loaded, no client, no logging. */
    constructor (names: HaConst, files: map<string, Document>, cluster: map<string, Dict>)
      ensures Valid() && fresh(conf)
      ensures this.names == names && this.cluster == cluster && conf.files == files
      ensures loaded == [] && conf.indexes == map[] && conf.loadLog == []
      ensures clusterConfstore == None && logInits == []
    {
      this.names := names;
      this.cluster := cluster;
      conf := new ConfStore(files);
      loaded := [];
      clusterConfstore := None;
      logInits := [];
    }

    /** The key path `section<_DELIM>name`: the section, the delimiter, then the name. */
    function Key(section: string, name: string): (k: string)
      ensures |k| == |section| + |names.delim| + |name|
      ensures k[..|section|] == section
      ensures k[|section|..|section| + |names.delim|] == names.delim
      ensures k[|section| + |names.delim|..] == name
    {
      section + names.delim + name
    }

    /** `_safe_load(index, url)`: calls `Conf.load` only for an index not yet in `_conf`, and records it only after the load returned. */
    method SafeLoad(index: string, url: string) returns (r: Outcome<Error>)
      requires Valid()
      modifies this`loaded, conf
      ensures Valid()
      ensures (Snapshot(), r) == LoadOnce(old(Snapshot()), conf.files, index, url)
    {
      if index !in loaded {
        ghost var before := Snapshot();
        r := conf.Load(index, url);
        if r.Fail? {
          return;
        }
        loaded := loaded + [index];
        SafeLoadPreservesValid(before, conf.files, index, url);
      } else {
        r := Pass;
      }
    }

    /** The URL `_conf_init` loads the global index from. */
    function ConfigUrl(configFile: Option<string>): (url: string)
      ensures Truthy(configFile) ==> url == configFile.value
      ensures !Truthy(configFile) ==> url == "yaml://" + names.configFile
    {
      if Truthy(configFile) then configFile.value else "yaml://" + names.configFile
    }

    /** `_conf_init(config_file)`: loads the global index once. */
    method ConfInit(configFile: Option<string>) returns (r: Outcome<Error>)
      requires Valid()
      modifies this`loaded, conf
      ensures Valid()
      ensures (Snapshot(), r) == LoadOnce(old(Snapshot()), conf.files, names.globalIndex, ConfigUrl(configFile))
    {
      r := SafeLoad(names.globalIndex, ConfigUrl(configFile));
    }

    /** `load_controller_schema`. */
    method LoadControllerSchema() returns (r: Outcome<Error>)
      requires Valid()
      modifies this`loaded, conf
      ensures Valid()
      ensures (Snapshot(), r) == LoadOnce(old(Snapshot()), conf.files, names.controllerIndex, "json://" + names.controllerSchema)
    {
      r := SafeLoad(names.controllerIndex, "json://" + names.controllerSchema);
    }

    /** `load_filter_rules`. */
    method LoadFilterRules() returns (r: Outcome<Error>)
      requires Valid()
      modifies this`loaded, conf
      ensures Valid()
      ensures (Snapshot(), r) == LoadOnce(old(Snapshot()), conf.files, names.alertFilterIndex, "json://" + names.alertFilterRulesFile)
    {
      r := SafeLoad(names.alertFilterIndex, "json://" + names.alertFilterRulesFile);
    }

    /** `load_alert_events_rules`. */
    method LoadAlertEventsRules() returns (r: Outcome<Error>)
      requires Valid()
      modifies this`loaded, conf
      ensures Valid()
      ensures (Snapshot(), r) == LoadOnce(old(Snapshot()), conf.files, names.alertEventIndex, "json://" + names.alertEventRulesFile)
    {
      r := SafeLoad(names.alertEventIndex, "json://" + names.alertEventRulesFile);
    }

    /**
      The options `init` hands to `Log.init`: the caller's log path when it is
      truthy, `LOG.path` of the global index otherwise, and always the level
      `LOG.level` of the global index, whatever level the caller passed.
    */
    function ResolveLogOptions(logName: string, logPath: Option<string>, backupCount: int, fileSizeInMb: int,
                               syslogServer: Option<string>, syslogPort: Option<int>, consoleOutput: bool): (r: Result<LogOptions, Error>)
      reads conf
      ensures var g := names.globalIndex;
        r.Success? <==> g in conf.indexes && Key("LOG", "level") in conf.indexes[g]
                        && (Truthy(logPath) || Key("LOG", "path") in conf.indexes[g])
      ensures r.Success? ==> var doc := conf.indexes[names.globalIndex];
        && r.value.logPath == (if Truthy(logPath) then logPath.value else doc[Key("LOG", "path")])
        && r.value.level == doc[Key("LOG", "level")]
        && r.value == LogOptions(logName, r.value.logPath, r.value.level, backupCount, fileSizeInMb,
                                 syslogServer, syslogPort, consoleOutput)
    {
      var path :- if Truthy(logPath) then Success(logPath.value) else conf.Get(names.globalIndex, Key("LOG", "path"));
      var level :- conf.Get(names.globalIndex, Key("LOG", "level"));
      Success(LogOptions(logName, path, level, backupCount, fileSizeInMb, syslogServer, syslogPort, consoleOutput))
    }

    /**
      `init`: always loads the global index; then, for a non-empty `logName`,
      initialises logging exactly once with the resolved options. The `level`
      argument never reaches `Log.init`.
    */
    method Init(logName: string, logPath: Option<string> := None, level: string := "INFO",
                backupCount: int := 5, fileSizeInMb: int := 10, syslogServer: Option<string> := None,
                syslogPort: Option<int> := None, consoleOutput: bool := true,
                configFile: Option<string> := None) returns (r: Outcome<Error>)
      requires Valid()
      modifies this`loaded, this`logInits, conf
      ensures Valid()
      ensures Snapshot() == LoadOnce(old(Snapshot()), conf.files, names.globalIndex, ConfigUrl(configFile)).0
      ensures var load := LoadOnce(old(Snapshot()), conf.files, names.globalIndex, ConfigUrl(configFile)).1;
        if load.Fail? then r == load && logInits == old(logInits)
        else if logName == "" then r == Pass && logInits == old(logInits)
        else match ResolveLogOptions(logName, logPath, backupCount, fileSizeInMb, syslogServer, syslogPort, consoleOutput)
          case Success(opts) => r == Pass && logInits == old(logInits) + [opts]
          case Failure(e) => r == Fail(e) && logInits == old(logInits)
    {
      r := ConfInit(configFile);
      if r.Fail? || logName == "" {
        return;
      }
      var options := ResolveLogOptions(logName, logPath, backupCount, fileSizeInMb, syslogServer, syslogPort, consoleOutput);
      if options.Failure? {
        return Fail(options.error);
      }
      logInits := logInits + [options.value];
    }

    /** Host and port of the key-value store, from `consul_config.endpoint` of the global index. */
    function ConsulAddress(): (r: Result<(string, string), Error>)
      reads conf
      ensures var g := names.globalIndex; var key := Key("consul_config", "endpoint");
        && (r.Success? <==> g in conf.indexes && key in conf.indexes[g] && ':' in conf.indexes[g][key])
        && (r.Success? ==> r == ParseEndpoint(conf.indexes[g][key]))
    {
      var endpoint :- conf.Get(names.globalIndex, Key("consul_config", "endpoint"));
      ParseEndpoint(endpoint)
    }

    /**
      `get_confstore(kv_enable_batch)`: builds the client on the first
      successful call and returns that same object on every later call,
      whatever `kvEnableBatch` then is; the cached client is never dropped.
    */
    method GetConfstore(kvEnableBatch: bool := false) returns (r: Result<KvClient, Error>)
      requires Valid()
      modifies this`clusterConfstore
      ensures Valid()
      ensures old(clusterConfstore).Some? ==> clusterConfstore == old(clusterConfstore) && r == Success(clusterConfstore.value)
      ensures old(clusterConfstore).None? ==> match ConsulAddress()
        case Failure(e) => r == Failure(e) && clusterConfstore == None
        case Success(address) =>
          && r.Success? && fresh(r.value) && clusterConfstore == Some(r.value)
          && r.value.host == address.0 && r.value.port == address.1
          && r.value.enableBatch == kvEnableBatch
    {
      if clusterConfstore.None? {
        var address :- ConsulAddress();
        var client := new KvClient(names.clusterConfstorePrefix, address.0, address.1, kvEnableBatch, cluster);
        clusterConfstore := Some(client);
      }
      return Success(clusterConfstore.value);
    }

    /**
      `get_node_name(node_id)`: with a client at hand, the result of the
      first-match scan over the mapping under `PVTFQDN_TO_NODEID_KEY`.
    */
    method GetNodeName(nodeId: string) returns (r: Result<string, Error>)
      requires Valid()
      modifies this`clusterConfstore
      ensures Valid()
      ensures old(clusterConfstore).Some? ==> clusterConfstore == old(clusterConfstore)
      ensures old(clusterConfstore).None? && clusterConfstore.Some? ==> !clusterConfstore.value.enableBatch
      ensures old(clusterConfstore).None? ==> (clusterConfstore.Some? <==> ConsulAddress().Success?)
      ensures old(clusterConfstore).None? && clusterConfstore.Some? ==>
        fresh(clusterConfstore.value)
        && ConsulAddress() == Success((clusterConfstore.value.host, clusterConfstore.value.port))
      ensures clusterConfstore.None? ==> ConsulAddress().Failure? && r == Failure(ConsulAddress().error)
      ensures clusterConfstore.Some? ==> r == match clusterConfstore.value.Get(names.pvtfqdnToNodeIdKey)
        case Success(d) => NodeNameOf(d, nodeId)
        case Failure(e) => Failure(e)
    {
      var confstore :- GetConfstore();
      var nodeidDict :- confstore.Get(names.pvtfqdnToNodeIdKey);
      r := FindNodeName(nodeidDict, nodeId);
    }

    /**
      `get_node_id(node_name)`: with a client at hand, the value of the pair
      `popitem` takes from the mapping under `PVTFQDN_TO_NODEID_KEY/node_name`.
    */
    method GetNodeId(nodeName: string) returns (r: Result<string, Error>)
      requires Valid()
      modifies this`clusterConfstore
      ensures Valid()
      ensures old(clusterConfstore).Some? ==> clusterConfstore == old(clusterConfstore)
      ensures old(clusterConfstore).None? && clusterConfstore.Some? ==> !clusterConfstore.value.enableBatch
      ensures old(clusterConfstore).None? ==> (clusterConfstore.Some? <==> ConsulAddress().Success?)
      ensures old(clusterConfstore).None? && clusterConfstore.Some? ==>
        fresh(clusterConfstore.value)
        && ConsulAddress() == Success((clusterConfstore.value.host, clusterConfstore.value.port))
      ensures clusterConfstore.None? ==> ConsulAddress().Failure? && r == Failure(ConsulAddress().error)
      ensures clusterConfstore.Some? ==> r == match clusterConfstore.value.Get(names.pvtfqdnToNodeIdKey + "/" + nodeName)
        case Success(d) => NodeIdOf(d)
        case Failure(e) => Failure(e)
    {
      var confstore :- GetConfstore();
      var keyVal :- confstore.Get(names.pvtfqdnToNodeIdKey + "/" + nodeName);
      var popped :- PopItem(keyVal);
      var (_, nodeIdValue) := popped.0;
      return Success(nodeIdValue);
    }

    /** `get_major_version`: the first `.`-separated component of `VERSION.version`, as a string. */
    function GetMajorVersion(): (r: Result<string, Error>)
      reads conf
      ensures var g := names.globalIndex; var key := Key("VERSION", "version");
        && (r.Success? <==> g in conf.indexes && key in conf.indexes[g])
        && (r.Success? ==> var v := conf.indexes[g][key];
              r.value <= v && '.' !in r.value && (|r.value| < |v| ==> v[|r.value|] == '.'))
    {
      var version :- conf.Get(names.globalIndex, Key("VERSION", "version"));
      Success(MajorVersion(version))
    }

    /** `get_local_node`: `CLUSTER_MANAGER.local_node` of the global index. */
    function GetLocalNode(): (r: Result<string, Error>)
      reads conf
      ensures var g := names.globalIndex; var key := Key("CLUSTER_MANAGER", "local_node");
        && (r.Success? <==> g in conf.indexes && key in conf.indexes[g])
        && (r.Success? ==> r.value == conf.indexes[g][key])
    {
      conf.Get(names.globalIndex, Key("CLUSTER_MANAGER", "local_node"))
    }

    /** `get_hw_env`: `CLUSTER_MANAGER.env` of the global index. */
    function GetHwEnv(): (r: Result<string, Error>)
      reads conf
      ensures var g := names.globalIndex; var key := Key("CLUSTER_MANAGER", "env");
        && (r.Success? <==> g in conf.indexes && key in conf.indexes[g])
        && (r.Success? ==> r.value == conf.indexes[g][key])
    {
      conf.Get(names.globalIndex, Key("CLUSTER_MANAGER", "env"))
    }
  }

  /** Two `get_confstore` calls give one client, built with the first call's batching mode. */
  method ConfstoreIsShared(m: ConfigManager) returns (first: Result<KvClient, Error>, second: Result<KvClient, Error>)
    requires m.Valid()
    modifies m`clusterConfstore
    ensures m.Valid()
    ensures first.Success? ==> second == first && m.clusterConfstore == Some(first.value)
    ensures old(m.clusterConfstore).None? && first.Success? ==> second.value.enableBatch
  {
    first := m.GetConfstore(true);
    second := m.GetConfstore(false);
  }

  /**
    Two `_safe_load` calls for the same index: one underlying load when the
    first succeeds, none when the index was loaded already, and two when the
    first fails, since a failed index is tried again.
  */
  method SafeLoadTwice(m: ConfigManager, index: string, url: string) returns (first: Outcome<Error>, second: Outcome<Error>)
    requires m.Valid()
    modifies m`loaded, m.conf
    ensures m.Valid()
    ensures first.Pass? ==> second.Pass? && index in m.loaded
    ensures index !in old(m.loaded) && first.Pass? ==>
      m.conf.loadLog == old(m.conf.loadLog) + [LoadAttempt(index, url, true)] && m.loaded == old(m.loaded) + [index]
    ensures index in old(m.loaded) ==> m.conf.loadLog == old(m.conf.loadLog) && m.loaded == old(m.loaded)
    ensures index !in old(m.loaded) && first.Fail? ==>
      second.Fail? && m.loaded == old(m.loaded)
      && m.conf.loadLog == old(m.conf.loadLog) + [LoadAttempt(index, url, false), LoadAttempt(index, url, false)]
  {
    first := m.SafeLoad(index, url);
    second := m.SafeLoad(index, url);
  }
}
