/** The bury-capable runner: the job wrapper that resolves
    `Class@execute:failure`, lets the handler rename its callbacks, merges its
    array config over `{retry 0, delay 0, bury false, delete false}` and
    disposes of the job through its own `delete()`, `release()` and `bury()`. */
module IndigoJob {
  import opened Php
  import opened Lifecycle
  import opened HandlerString
  import opened Policy
  import opened Flow
  import opened JobConfig

  /** `!empty($callback) and is_string($callback)`. */
  predicate IsValidCallback(v: Value) {
    v.Str? && Truthy(v)
  }

  /** The handler's `execute`/`failure` properties replace the parsed names
      when they are non-empty strings (PHP counts `"0"` as empty). */
  function ResolveCallbacks(h: Handler, exec: string, fail: string): (r: (string, string))
    ensures h.executeProp.Str? && h.executeProp.s !in {"", "0"} ==> r.0 == h.executeProp.s
    ensures !(h.executeProp.Str? && h.executeProp.s !in {"", "0"}) ==> r.0 == exec
    ensures h.failureProp.Str? && h.failureProp.s !in {"", "0"} ==> r.1 == h.failureProp.s
    ensures !(h.failureProp.Str? && h.failureProp.s !in {"", "0"}) ==> r.1 == fail
  {
    (if IsValidCallback(h.executeProp) then h.executeProp.s else exec,
     if IsValidCallback(h.failureProp) then h.failureProp.s else fail)
  }

  /** `runExecute` once the job is resolved: a missing execute callback makes
      `execute()` return `false` without any disposition. */
  function RunResolved(env: Env, h: Handler, exec: string, fail: string, cfg: map<string, Value>): Run
  {
    if exec !in h.methods then Run([], Returned(Bool(false)))
    else
      var fc := if fail in h.methods then Present(fail, h.methods[fail]) else Absent;
      OnExecute(exec, h.methods[exec], IsTrue(Get(cfg, "delete")), env.responses.delete,
                fc, RetryBuryDelete(env.attempts, cfg, env.responses))
  }

  /** `execute()` on a job whose payload is `payload`. `resolveJob` declares
      its data parameter `array` and is called outside the `try`, so data
      that is not an array (a missing `data` reads as `null`) raises an error
      that escapes before the class is even looked up. */
  function Execute(env: Env, payload: Envelope): (r: Run)
    ensures !payload.data.Arr? ==> r == Run([], Aborted)
    ensures payload.data.Arr? && ParseJob(payload.job, "execute", "failure").cls !in env.registry ==>
      r == DeleteAndReturnFalse(env.responses.delete)
    ensures r.trace == [] && r.ending == Aborted ==>
      !payload.data.Arr? || env.registry[ParseJob(payload.job, "execute", "failure").cls].ctorThrows
  {
    var ref := ParseJob(payload.job, "execute", "failure");
    if !payload.data.Arr? then Run([], Aborted)
    else if ref.cls !in env.registry then DeleteAndReturnFalse(env.responses.delete)
    else
      var h := env.registry[ref.cls];
      if h.ctorThrows then Run([], Aborted)
      else
        var names := ResolveCallbacks(h, ref.exec, ref.fail);
        RunResolved(env, h, names.0, names.1, ResolveBuryConfig(h.config))
  }

  /** The handler a payload with array data names, when its class exists. */
  predicate Resolves(env: Env, payload: Envelope, h: Handler, exec: string, fail: string) {
    var ref := ParseJob(payload.job, "execute", "failure");
    && payload.data.Arr?
    && ref.cls in env.registry
    && env.registry[ref.cls] == h
    && !h.ctorThrows
    && (exec, fail) == ResolveCallbacks(h, ref.exec, ref.fail)
  }

  /** A resolved job runs its callbacks under its merged config. */
  lemma ResolvedRun(env: Env, payload: Envelope, h: Handler, exec: string, fail: string)
    requires Resolves(env, payload, h, exec, fail)
    ensures Execute(env, payload) == RunResolved(env, h, exec, fail, ResolveBuryConfig(h.config))
  {
  }

  /** An unknown class is deleted once and `false` returned; no callback
      runs. */
  lemma UnknownClassIsDeleted(env: Env, payload: Envelope)
    requires payload.data.Arr?
    requires ParseJob(payload.job, "execute", "failure").cls !in env.registry
    requires env.responses.delete.Ok?
    ensures Execute(env, payload) == Run([Delete], Returned(Bool(false)))
    ensures NoCallbacks(Execute(env, payload).trace)
  {
  }

  /** A handler without the execute callback makes `execute()` return `false`
      with no callback and no disposition at all. */
  lemma MissingExecuteDoesNothing(env: Env, payload: Envelope, h: Handler, exec: string, fail: string)
    requires Resolves(env, payload, h, exec, fail)
    requires exec !in h.methods
    ensures Execute(env, payload) == Run([], Returned(Bool(false)))
  {
  }

  /** On success `execute()` returns the callback's result, and deletes the
      job exactly when `config['delete'] === true`. */
  lemma SuccessReturnsResult(env: Env, payload: Envelope, h: Handler, exec: string, fail: string, v: Value)
    requires Resolves(env, payload, h, exec, fail)
    requires exec in h.methods && h.methods[exec] == Ok(v)
    requires env.responses.delete.Ok?
    ensures Execute(env, payload).ending == Returned(v)
    ensures Delete in Execute(env, payload).trace <==> IsTrue(Get(ResolveBuryConfig(h.config), "delete"))
    ensures Execute(env, payload).trace[1..] == if IsTrue(Get(ResolveBuryConfig(h.config), "delete")) then [Delete] else []
  {
  }

  /** When the execute callback throws and the failure callback returns
      anything but `false`, the failure counts as handled: no disposition,
      `null` returned. */
  lemma HandledFailureDisposesNothing(env: Env, payload: Envelope, h: Handler, exec: string, fail: string, v: Value)
    requires Resolves(env, payload, h, exec, fail)
    requires exec in h.methods && h.methods[exec] == Throws
    requires fail in h.methods && h.methods[fail] == Ok(v) && !IsFalse(v)
    ensures Execute(env, payload) == Run([Invoke(exec), Invoke(fail)], Returned(Null))
    ensures NoDispositions(Execute(env, payload).trace)
  {
  }

  /** When the execute callback throws and the failure callback is absent or
      returns `false`, a cooperative queue sees at most one disposition, the
      first enabled of release (within the retry budget), bury, delete; and
      `execute()` returns `null`. */
  lemma UnhandledFailureFollowsPolicy(env: Env, payload: Envelope, h: Handler, exec: string, fail: string)
    requires Resolves(env, payload, h, exec, fail)
    requires exec in h.methods && h.methods[exec] == Throws
    requires fail !in h.methods || h.methods[fail] == Ok(Bool(false))
    requires env.responses == Cooperative
    ensures var cfg := ResolveBuryConfig(h.config);
      var callbacks := [Invoke(exec)] + (if fail in h.methods then [Invoke(fail)] else []);
      Execute(env, payload) == Run(callbacks +
        if RetryAllowed(env.attempts, cfg) then [Release(Get(cfg, "delay"))]
        else if IsTrue(Get(cfg, "bury")) then [Bury]
        else if IsTrue(Get(cfg, "delete")) then [Delete]
        else [], Returned(Null))
  {
    ResolvedRun(env, payload, h, exec, fail);
    FailureFollowsPolicy(env, h, exec, fail, ResolveBuryConfig(h.config));
  }

  /** `UnhandledFailureFollowsPolicy` once the job is resolved. */
  lemma FailureFollowsPolicy(env: Env, h: Handler, exec: string, fail: string, cfg: map<string, Value>)
    requires exec in h.methods && h.methods[exec] == Throws
    requires fail !in h.methods || h.methods[fail] == Ok(Bool(false))
    requires env.responses == Cooperative
    ensures var callbacks := [Invoke(exec)] + (if fail in h.methods then [Invoke(fail)] else []);
      RunResolved(env, h, exec, fail, cfg) == Run(callbacks +
        if RetryAllowed(env.attempts, cfg) then [Release(Get(cfg, "delay"))]
        else if IsTrue(Get(cfg, "bury")) then [Bury]
        else if IsTrue(Get(cfg, "delete")) then [Delete]
        else [], Returned(Null))
  {
    var policy := RetryBuryDelete(env.attempts, cfg, env.responses);
    var tail := if RetryAllowed(env.attempts, cfg) then [Release(Get(cfg, "delay"))]
      else if IsTrue(Get(cfg, "bury")) then [Bury]
      else if IsTrue(Get(cfg, "delete")) then [Delete]
      else [];
    assert policy.events == tail && !policy.aborted by {
      RetryBuryDeleteCooperative(env.attempts, cfg);
    }
    var fc := if fail in h.methods then Present(fail, h.methods[fail]) else Absent;
    var r := OnFailure([Invoke(exec)], fc, policy);
    assert RunResolved(env, h, exec, fail, cfg) == r;
    var mid := if fail in h.methods then [Invoke(fail)] else [];
    assert r.trace[1..] == mid + tail;
    assert r.trace == [Invoke(exec)] + (mid + tail) by {
      assert r.trace == r.trace[..1] + r.trace[1..];
    }
    assert [Invoke(exec)] + (mid + tail) == ([Invoke(exec)] + mid) + tail;
  }

  /** A handler config that sets only some keys keeps the defaults for the
      others. */
  lemma PartialConfigKeepsDefaults(m: map<string, Value>)
    ensures forall k :: k in BuryDefaults && k !in m ==> Get(ResolveBuryConfig(Arr(m)), k) == BuryDefaults[k]
    ensures "retry" !in m ==> !RetryAllowed(1, ResolveBuryConfig(Arr(m)))
    ensures "bury" !in m ==> !IsTrue(Get(ResolveBuryConfig(Arr(m)), "bury"))
    ensures "delete" !in m ==> !IsTrue(Get(ResolveBuryConfig(Arr(m)), "delete"))
  {
  }

  /** Scenario: a class `cls` (say `Noop`) with `{retry 0, delete true}`
      whose execute callback returns 42 is deleted, and `execute()` returns
      42. */
  lemma NoopScenario(cls: string)
    requires SepFree(cls)
    ensures var noop := Handler(false, Null, Null, Arr(map["retry" := Int(0), "delete" := Bool(true)]),
                                map["execute" := Ok(Int(42))]);
      Execute(Env(map[cls := noop], 1, Cooperative), Envelope(cls, Arr(map[])))
        == Run([Invoke("execute"), Delete], Returned(Int(42)))
  {
  }

  /** Scenario: a class `cls` (say `AlwaysFails`) with `{retry 2, delay 5,
      bury true}` whose execute callback always throws, and no failure
      callback, is released with delay 5 on its first two attempts and buried
      on the third. */
  lemma AlwaysFailsScenario(cls: string, attempts: nat)
    requires SepFree(cls)
    requires 1 <= attempts <= 3
    ensures var fails := Handler(false, Null, Null,
                                 Arr(map["retry" := Int(2), "delay" := Int(5), "bury" := Bool(true)]),
                                 map["execute" := Throws]);
      Execute(Env(map[cls := fails], attempts, Cooperative), Envelope(cls, Arr(map[])))
        == Run([Invoke("execute")] + (if attempts <= 2 then [Release(Int(5))] else [Bury]), Returned(Null))
  {
    var fails := Handler(false, Null, Null,
                         Arr(map["retry" := Int(2), "delay" := Int(5), "bury" := Bool(true)]),
                         map["execute" := Throws]);
    var env := Env(map[cls := fails], attempts, Cooperative);
    var payload := Envelope(cls, Arr(map[]));
    var cfg := ResolveBuryConfig(fails.config);
    assert Get(cfg, "retry") == Int(2) && Get(cfg, "delay") == Int(5) && Get(cfg, "bury") == Bool(true);
    assert "failure" !in fails.methods;
    assert ParseJob(cls, "execute", "failure") == HandlerRef(cls, "execute", "failure");
    ResolvedRun(env, payload, fails, "execute", "failure");
    FailureFollowsPolicy(env, fails, "execute", "failure", cfg);
  }
}
