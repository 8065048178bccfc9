/**
  The collaborators the configuration manager talks to, reduced to what it
  observes of them: the key-path configuration store `Conf` (documents loaded
  under an index name, read by key) and the client of the distributed
  key-value namespace (a handle built from prefix, host, port and batching
  mode whose `get` returns an insertion-ordered mapping).
*/
module Stores {
  import opened Wrappers

  /** A parsed configuration document: key path to value. */
  type Document = map<string, string>

  /** A Python dict of strings as the key-value client returns it, in insertion order.
      The model also accepts a list that repeats a key, which a Python dict never holds. */
  type Dict = seq<(string, string)>

  /** The exceptions that reach the caller of the configuration manager. */
  datatype Error =
    | ConfLoadError(index: string, url: string)  // the store could not locate or parse the source
    | KeyNotFound(store: string, key: string)    // no value under that key
    | IndexError(message: string)                // a Python list index out of range
    | KeyError(message: string)                  // `popitem` on an empty dict
    | HAInvalidNode(message: string)             // no node carries the requested id

  /** One call of `Conf.load`, and whether it succeeded. */
  datatype LoadAttempt = LoadAttempt(index: string, url: string, ok: bool)

  /**
    The key-path store. `files` are the documents that can be located and
    parsed, by URL; `indexes` are the documents loaded so far, by index name;
    `loadLog` records every call of `Load`.
  */
  class ConfStore {
    const files: map<string, Document>
    var indexes: map<string, Document>
    ghost var loadLog: seq<LoadAttempt>

    constructor (files: map<string, Document>)
      ensures this.files == files && indexes == map[] && loadLog == []
    {
      this.files := files;
      indexes := map[];
      loadLog := [];
    }

    /** `Conf.load(index, url)`: fails when the source cannot be located or parsed. */
    method Load(index: string, url: string) returns (r: Outcome<Error>)
      modifies this
      ensures r == if url in files then Pass else Fail(ConfLoadError(index, url))
      ensures indexes == if url in files then old(indexes)[index := files[url]] else old(indexes)
      ensures loadLog == old(loadLog) + [LoadAttempt(index, url, r.Pass?)]
    {
      if url in files {
        indexes := indexes[index := files[url]];
        r := Pass;
      } else {
        r := Fail(ConfLoadError(index, url));
      }
      loadLog := loadLog + [LoadAttempt(index, url, r.Pass?)];
    }

    /** `Conf.get(index, key)`: the value under `key` in the document loaded as `index`. */
    function Get(index: string, key: string): (r: Result<string, Error>)
      reads this
      ensures r.Success? <==> index in indexes && key in indexes[index]
      ensures r.Success? ==> r.value == indexes[index][key]
    {
      if index in indexes && key in indexes[index] then Success(indexes[index][key])
      else Failure(KeyNotFound(index, key))
    }
  }

  /**
    `ConsulKvStore`: an immutable handle on the namespace found at `host:port`.
    `namespace` is what the remote store holds under `prefix`.
  */
  class KvClient {
    const prefix: string
    const host: string
    const port: string
    const enableBatch: bool
    const namespace: map<string, Dict>

    constructor (prefix: string, host: string, port: string, enableBatch: bool, namespace: map<string, Dict>)
      ensures this.prefix == prefix && this.host == host && this.port == port
      ensures this.enableBatch == enableBatch && this.namespace == namespace
    {
      this.prefix := prefix;
      this.host := host;
      this.port := port;
      this.enableBatch := enableBatch;
      this.namespace := namespace;
    }

    /** `get(key)`: the mapping stored under `key`. */
    function Get(key: string): (r: Result<Dict, Error>)
      ensures r.Success? <==> key in namespace
      ensures r.Success? ==> r.value == namespace[key]
    {
      if key in namespace then Success(namespace[key]) else Failure(KeyNotFound(prefix, key))
    }
  }
}
