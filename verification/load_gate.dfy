/**
  The load-once gate `_safe_load` as a function on a snapshot of the registry
  state, and the properties the gate promises: an index is loaded at most once,
  a failed load leaves it unloaded so that a later call tries again, and the
  list of loaded indexes holds no duplicates.
*/
module LoadGate {
  import opened Wrappers
  import opened Stores

  /** The state the gate reads and writes: `_conf`, the store's loaded documents and its load calls. */
  datatype Registry = Registry(loaded: seq<string>, indexes: map<string, Document>, loadLog: seq<LoadAttempt>)

  predicate NoDuplicates(s: seq<string>)
  {
    forall i, j :: 0 <= i < j < |s| ==> s[i] != s[j]
  }

  /** The number of calls of `Conf.load` for `index` that succeeded. */
  function SuccessfulLoads(log: seq<LoadAttempt>, index: string): nat
    decreases |log|
  {
    if log == [] then 0
    else SuccessfulLoads(log[..|log| - 1], index) + (if log[|log| - 1].ok && log[|log| - 1].index == index then 1 else 0)
  }

  /**
    The registry invariant: `_conf` has no duplicates, names exactly the
    indexes the store holds, and each of them was loaded successfully exactly
    once while no other index was loaded successfully at all.
  */
  ghost predicate RegistryValid(s: Registry)
  {
    && NoDuplicates(s.loaded)
    && (forall i :: i in s.indexes <==> i in s.loaded)
    && (forall i :: SuccessfulLoads(s.loadLog, i) == if i in s.loaded then 1 else 0)
  }

  /**
    `_safe_load(index, url)` on the state `s`, with `files` the sources the store
    can locate. The store is called exactly when `index` was not yet loaded;
    afterwards `index` is loaded if and only if the call succeeded; `_conf` only
    ever gains `index`, and only on success.
  */
  function LoadOnce(s: Registry, files: map<string, Document>, index: string, url: string): (res: (Registry, Outcome<Error>))
    ensures var (t, r) := res;
      && (index in s.loaded ==> t == s && r == Pass)
      && (index !in s.loaded ==> |t.loadLog| == |s.loadLog| + 1 && t.loadLog[..|s.loadLog|] == s.loadLog
                                 && t.loadLog[|s.loadLog|] == LoadAttempt(index, url, r.Pass?))
      && (r.Pass? <==> index in t.loaded)
      && (r.Pass? <==> index in s.loaded || url in files)
      && (r.Fail? ==> r == Fail(ConfLoadError(index, url)))
      && t.loaded == (if index in s.loaded || r.Fail? then s.loaded else s.loaded + [index])
      && t.indexes == (if index in s.loaded || r.Fail? then s.indexes else s.indexes[index := files[url]])
  {
    if index in s.loaded then (s, Pass)
    else if url in files then
      (Registry(s.loaded + [index], s.indexes[index := files[url]], s.loadLog + [LoadAttempt(index, url, true)]), Pass)
    else
      (s.(loadLog := s.loadLog + [LoadAttempt(index, url, false)]), Fail(ConfLoadError(index, url)))
  }

  lemma SuccessfulLoadsAppend(log: seq<LoadAttempt>, a: LoadAttempt, index: string)
    ensures SuccessfulLoads(log + [a], index) == SuccessfulLoads(log, index) + (if a.ok && a.index == index then 1 else 0)
  {
    assert (log + [a])[..|log|] == log;
  }

  /** The gate keeps the registry invariant. */
  lemma SafeLoadPreservesValid(s: Registry, files: map<string, Document>, index: string, url: string)
    requires RegistryValid(s)
    ensures RegistryValid(LoadOnce(s, files, index, url).0)
  {
    if index !in s.loaded {
      var t := LoadOnce(s, files, index, url).0;
      var ok := url in files;
      forall i
        ensures SuccessfulLoads(t.loadLog, i) == if i in t.loaded then 1 else 0
      {
        SuccessfulLoadsAppend(s.loadLog, LoadAttempt(index, url, ok), i);
      }
    }
  }

  /** Two calls in a row for a new index whose source can be located make exactly one underlying load, and the second call changes nothing. */
  lemma SafeLoadTwiceLoadsOnce(s: Registry, files: map<string, Document>, index: string, url: string)
    requires index !in s.loaded && url in files
    ensures var t := LoadOnce(s, files, index, url).0;
      var (u, r) := LoadOnce(t, files, index, url);
      && r == Pass && u == t
      && u.loadLog == s.loadLog + [LoadAttempt(index, url, true)]
      && u.loaded == s.loaded + [index]
  {
  }

  /** A failed load does not poison the index: a later call with a locatable source loads it. */
  lemma SafeLoadRetryAfterFailure(s: Registry, files: map<string, Document>, index: string, bad: string, good: string)
    requires index !in s.loaded && bad !in files && good in files
    ensures var (t, r) := LoadOnce(s, files, index, bad);
      var (u, r') := LoadOnce(t, files, index, good);
      && r.Fail? && t.loaded == s.loaded && index !in t.loaded
      && r' == Pass && index in u.loaded
      && u.indexes[index] == files[good]
  {
  }

  /** A failed load is attempted again by the next call: two failing calls make two underlying loads. */
  lemma SafeLoadTwiceAfterFailure(s: Registry, files: map<string, Document>, index: string, url: string)
    requires index !in s.loaded && url !in files
    ensures var t := LoadOnce(s, files, index, url).0;
      var (u, r) := LoadOnce(t, files, index, url);
      && r.Fail? && u.loaded == s.loaded && u.indexes == s.indexes
      && u.loadLog == s.loadLog + [LoadAttempt(index, url, false), LoadAttempt(index, url, false)]
  {
  }

  /** In a valid registry every index has been loaded successfully at most once. */
  lemma AtMostOneSuccessfulLoad(s: Registry, index: string)
    requires RegistryValid(s)
    ensures SuccessfulLoads(s.loadLog, index) <= 1
    ensures SuccessfulLoads(s.loadLog, index) == 1 <==> index in s.indexes
  {
  }
}
