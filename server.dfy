/**
 * The MCP server's side of the wrappers: one tsserver wrapper per workspace root, kept
 * in a cache, restarted when it is no longer running, all disposed at shutdown; and the
 * envelope of every tool call, which turns anything that escapes the handler into a
 * LANGUAGE_SERVER_ERROR response.
 */
module Server {
  import opened Wrappers
  import opened Workspace
  import TsServer

  /** The cache of wrappers, one per workspace root. */
  class Registry {
    var cache: map<string, TsServer.TSServerWrapper>

    /** Each cached wrapper serves the root it is cached under, and keeps its own invariant. */
    ghost predicate Valid()
      reads this, cache.Values
    {
      forall root | root in cache :: cache[root].workspaceRoot == root && cache[root].Valid()
    }

    constructor ()
      ensures Valid() && cache == map[]
    {
      cache := map[];
    }

    /**
     * `getTSServer`: the cached wrapper when it is running, untouched; otherwise the stale
     * one (if any) is disposed and dropped, and a new wrapper is started (`launch` is
     * what its spawn gives) and cached. When the start fails the error escapes and no
     * wrapper is cached for the root.
     */
    method GetTSServer(root: string, launch: Result<TsServer.ProcessId, string>,
                       parse: string -> Option<TsServer.Message>, encode: TsServer.Request -> string)
      returns (r: Result<TsServer.TSServerWrapper, string>)
      requires Valid()
      requires forall q :: '\n' !in encode(q)
      modifies this, if root in cache && !cache[root].IsRunning() then {cache[root]} else {}
      ensures Valid()
      ensures root in old(cache) && old(cache[root].IsRunning()) ==>
                r == Success(old(cache[root])) && cache == old(cache) && r.value.IsRunning()
      ensures !(root in old(cache) && old(cache[root].IsRunning())) ==>
                (root in old(cache) ==> Retired(old(cache[root])))
                && (r.Success? <==> launch.Success?)
                && (r.Success? ==>
                      fresh(r.value) && r.value.IsRunning() && r.value.workspaceRoot == root
                      && r.value.process == Some(launch.value) && cache == old(cache)[root := r.value])
                && (r.Failure? ==>
                      r.error == "Failed to start tsserver: " + launch.error && cache == old(cache) - {root})
      ensures forall k | k in old(cache) && k != root :: k in cache && cache[k] == old(cache[k])
      ensures forall k | k in old(cache) && k != root :: unchanged(cache[k])
    {
      if root in cache && cache[root].IsRunning() {
        return Success(cache[root]);
      }
      if root in cache {
        Evict(root);
      } else {
        RemoveAbsent(cache, root);
      }
      r := Launch(root, launch, parse, encode);
      if r.Success? {
        RemoveThenSet(old(cache), root, r.value);
        cache := cache[root := r.value];
      }
    }

    /** A wrapper that is no longer running is disposed and dropped from the cache. */
    method Evict(root: string)
      requires Valid() && root in cache
      modifies this, cache[root]
      ensures Valid() && cache == old(cache) - {root}
      ensures Retired(old(cache[root]))
    {
      var stale := cache[root];
      assert forall k | k in cache && k != root :: cache[k] != stale;
      Retire(stale);
      cache := cache - {root};
    }

    /** `disposeAllTSServers`: every cached wrapper is disposed, then the cache is cleared. */
    method DisposeAll()
      requires Valid()
      modifies this, cache.Values
      ensures Valid() && cache == map[]
      ensures forall root | root in old(cache) :: Retired(old(cache[root]))
    {
      var remaining := cache.Keys;
      while remaining != {}
        invariant remaining <= cache.Keys && cache == old(cache)
        invariant forall root | root in cache && root !in remaining :: Retired(cache[root])
        decreases remaining
      {
        var root :| root in remaining;
        var tsserver := cache[root];
        assert forall k | k in cache && k != root :: cache[k] != tsserver;
        Retire(tsserver);
        remaining := remaining - {root};
      }
      cache := map[];
    }
  }

  lemma {:induction false} RemoveAbsent<K, V>(m: map<K, V>, k: K)
    requires k !in m
    ensures m - {k} == m
  {
  }

  lemma {:induction false} RemoveThenSet<K, V>(m: map<K, V>, k: K, v: V)
    ensures (m - {k})[k := v] == m[k := v]
  {
  }

  /** A disposed wrapper: stopped, holding no process, with nothing pending. */
  predicate Retired(tsserver: TsServer.TSServerWrapper)
    reads tsserver
  {
    tsserver.isDisposed && !tsserver.IsRunning() && tsserver.process.None? && tsserver.pendingRequests == map[]
  }

  /** `dispose`, as the registry sees it: the wrapper ends stopped and with nothing pending. */
  method Retire(tsserver: TsServer.TSServerWrapper)
    modifies tsserver
    ensures old(tsserver.Valid()) ==> tsserver.Valid()
    ensures Retired(tsserver)
  {
    tsserver.Dispose();
  }

  /**
   * `new TSServerWrapper(root)` followed by `start()`: a new wrapper for the root, running
   * the spawned process, or the start error.
   */
  method Launch(root: string, launch: Result<TsServer.ProcessId, string>,
                parse: string -> Option<TsServer.Message>, encode: TsServer.Request -> string)
    returns (r: Result<TsServer.TSServerWrapper, string>)
    requires forall q :: '\n' !in encode(q)
    ensures r.Success? <==> launch.Success?
    ensures r.Success? ==>
              fresh(r.value) && r.value.Valid() && r.value.IsRunning() && r.value.workspaceRoot == root
              && r.value.process == Some(launch.value)
    ensures r.Failure? ==> r.error == "Failed to start tsserver: " + launch.error
  {
    var tsserver := new TsServer.TSServerWrapper(root, parse, encode);
    var started := tsserver.Start(launch);
    if started.Failure? {
      return Failure(started.error);
    }
    r := Success(tsserver);
  }

  /** The catch of a tool callback: an exception becomes LANGUAGE_SERVER_ERROR with its message. */
  function Envelope<S>(r: Response<S>): (e: Response<S>)
    ensures !e.Thrown?
    ensures r.Thrown? ==> e.Err? && e.error == ErrorInfo(LanguageServerError, r.message)
    ensures !r.Thrown? ==> e == r
  {
    match r
    case Thrown(message) => Err(ErrorInfo(LanguageServerError, message))
    case _ => r
  }

  /**
   * A tool callback: obtain the root's wrapper, then run the handler on it (`handler`
   * gives the handler's answer for a wrapper), under the envelope. When no running
   * wrapper is cached and the start fails, the answer is LANGUAGE_SERVER_ERROR with the
   * start error, and the handler does not run.
   */
  method CallTool<S>(registry: Registry, root: string, launch: Result<TsServer.ProcessId, string>,
                     parse: string -> Option<TsServer.Message>, encode: TsServer.Request -> string,
                     handler: TsServer.TSServerWrapper -> Response<S>)
    returns (e: Response<S>)
    requires registry.Valid()
    requires forall q :: '\n' !in encode(q)
    modifies registry
    modifies if root in registry.cache && !registry.cache[root].IsRunning() then {registry.cache[root]} else {}
    ensures registry.Valid()
    ensures !e.Thrown?
    ensures root in old(registry.cache) && old(registry.cache[root].IsRunning()) ==>
              e == Envelope(handler(old(registry.cache[root])))
    ensures !(root in old(registry.cache) && old(registry.cache[root].IsRunning())) ==>
              if launch.Failure? then e == Err(ErrorInfo(LanguageServerError, "Failed to start tsserver: " + launch.error))
              else root in registry.cache && e == Envelope(handler(registry.cache[root]))
  {
    var wrapper := registry.GetTSServer(root, launch, parse, encode);
    match wrapper {
      case Failure(message) =>
        e := Err(ErrorInfo(LanguageServerError, message));
      case Success(tsserver) =>
        e := Envelope(handler(tsserver));
    }
  }
}
