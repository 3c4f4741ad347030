/** The closure handler: a handler class whose `execute` applies a stored
    closure and whose `config` defaults to `{delete: true}`. It runs under the
    bury-capable runner. The closure itself is opaque: only what calling it
    yields is modelled. */
module Closure {
  import opened Php
  import opened Lifecycle
  import opened HandlerString
  import opened JobConfig
  import Policy
  import IndigoJob

  /** The `config` property before the constructor runs. */
  const DefaultConfig: map<string, Value> := map["delete" := Bool(true)]

  /** The `config` property after the constructor: when `data['config']` is
      set (present and not `null`) it is merged over the default; under
      PHP 5/7 merging with a non-array yields `null`. */
  function ClosureConfig(data: map<string, Value>): (c: Value)
    ensures Get(data, "config") == Null ==> c == Arr(DefaultConfig)
    ensures Get(data, "config").Arr? ==> c.Arr? && c.m.Keys == DefaultConfig.Keys + data["config"].m.Keys
    ensures Get(data, "config").Arr? ==>
      forall k :: Get(c.m, k) == (if k in data["config"].m then data["config"].m[k] else Get(DefaultConfig, k))
    ensures Get(data, "config") != Null && !Get(data, "config").Arr? ==> c == Null
  {
    var given := Get(data, "config");
    if given == Null then Arr(DefaultConfig)
    else if given.Arr? then Arr(ArrayMerge(DefaultConfig, given.m))
    else Null
  }

  /** The handler object built from `data`, whose closure yields `call` when
      `execute` applies it to the job and its data. */
  function ClosureHandler(data: map<string, Value>, call: Outcome): (h: Handler)
    ensures !h.ctorThrows && h.methods.Keys == {"execute"} && h.methods["execute"] == call
    ensures h.config == ClosureConfig(data)
    ensures h.executeProp == Null && h.failureProp == Null
  {
    Handler(false, Null, Null, ClosureConfig(data), map["execute" := call])
  }

  /** The configuration the runner ends up with: the closure is deleted after
      success unless `data['config']` is an array that sets `delete` itself. */
  lemma EffectiveDelete(data: map<string, Value>)
    ensures var cfg := ResolveBuryConfig(ClosureConfig(data));
      var given := Get(data, "config");
      && (given == Null ==> IsTrue(Get(cfg, "delete")))
      && (given.Arr? && "delete" !in given.m ==> IsTrue(Get(cfg, "delete")))
      && (given.Arr? && "delete" in given.m ==> Get(cfg, "delete") == given.m["delete"])
      && (given != Null && !given.Arr? ==> cfg == BuryDefaults)
  {
  }

  /** `execute()` returns whatever the closure returns, and without a
      `config` entry in `data` the job is then deleted. */
  lemma SuccessIsDeleted(cls: string, data: map<string, Value>, attempts: nat, v: Value)
    requires SepFree(cls) && "config" !in data
    ensures var env := Env(map[cls := ClosureHandler(data, Ok(v))], attempts, Cooperative);
      IndigoJob.Execute(env, Envelope(cls, Arr(data))) == Run([Invoke("execute"), Delete], Returned(v))
  {
    var h := ClosureHandler(data, Ok(v));
    var env := Env(map[cls := h], attempts, Cooperative);
    ClosureResolves(cls, data, Ok(v), attempts);
    IndigoJob.SuccessReturnsResult(env, Envelope(cls, Arr(data)), h, "execute", "failure", v);
  }

  /** A closure that throws has no failure callback to consult; with
      `retry 0` from the first reservation on, the default policy deletes
      it, and `execute()` returns `null`. */
  lemma FailureIsDeleted(cls: string, data: map<string, Value>, attempts: nat)
    requires SepFree(cls) && "config" !in data && attempts >= 1
    ensures var env := Env(map[cls := ClosureHandler(data, Throws)], attempts, Cooperative);
      IndigoJob.Execute(env, Envelope(cls, Arr(data))) == Run([Invoke("execute"), Delete], Returned(Null))
  {
    var h := ClosureHandler(data, Throws);
    var env := Env(map[cls := h], attempts, Cooperative);
    ClosureResolves(cls, data, Throws, attempts);
    IndigoJob.ResolvedRun(env, Envelope(cls, Arr(data)), h, "execute", "failure");
    var cfg := ResolveBuryConfig(h.config);
    DefaultPolicy(data, attempts);
    IndigoJob.FailureFollowsPolicy(env, h, "execute", "failure", cfg);
  }

  /** Without a `config` entry the runner's configuration allows no retry
      from the first reservation on, does not bury and deletes. */
  lemma DefaultPolicy(data: map<string, Value>, attempts: nat)
    requires "config" !in data && attempts >= 1
    ensures var cfg := ResolveBuryConfig(ClosureConfig(data));
      && !Policy.RetryAllowed(attempts, cfg)
      && Get(cfg, "bury") == Bool(false) && Get(cfg, "delete") == Bool(true)
  {
    var cfg := ResolveBuryConfig(ClosureConfig(data));
    assert Get(cfg, "retry") == Int(0);
  }

  /** The bury-capable runner finds the closure handler under a plain class
      name, with the default callback names. */
  lemma ClosureResolves(cls: string, data: map<string, Value>, call: Outcome, attempts: nat)
    requires SepFree(cls)
    ensures IndigoJob.Resolves(Env(map[cls := ClosureHandler(data, call)], attempts, Cooperative),
                               Envelope(cls, Arr(data)), ClosureHandler(data, call), "execute", "failure")
  {
    assert ParseJob(cls, "execute", "failure") == HandlerRef(cls, "execute", "failure");
  }
}
