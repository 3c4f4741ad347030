/** The connector-based runner: the job wrapper that resolves
    `Class@execute:failure`, turns every resolution problem into an exception
    answered by `connector->delete($this)`, merges the handler's config over
    `{retry 0, delay 0, delete false}` and never buries. */
module ConnectorJob {
  import opened Php
  import opened Lifecycle
  import opened HandlerString
  import opened Policy
  import opened Flow
  import opened JobConfig

  /** The shared body of `execute()`. `mergeHandlerConfig` chooses between the
      configuration the code evidently intends (the handler's config merged
      over the defaults) and the one it computes as written (the defaults
      alone, because the guard reads `config` from the class-name string). */
  function ExecuteWith(env: Env, payload: Envelope, mergeHandlerConfig: bool): (r: Run)
    ensures NoCallbacks(r.trace) ==> r.trace == [Delete] || r.trace == []
  {
    // The job's fields start as null, "execute" and "failure", so these are
    // the defaults the parse falls back on.
    var ref := ParseJob(payload.job, "execute", "failure");
    if ref.cls !in env.registry then DeleteAndReturnFalse(env.responses.delete)
    else
      var h := env.registry[ref.cls];
      if h.ctorThrows || ref.exec !in h.methods then DeleteAndReturnFalse(env.responses.delete)
      else
        // A failure callback that is not callable resolves to `false`
        // without an exception.
        var fc := if ref.fail in h.methods then Present(ref.fail, h.methods[ref.fail]) else Absent;
        var cfg := if mergeHandlerConfig then ResolveConfig(h.config) else Defaults;
        OnExecute(ref.exec, h.methods[ref.exec], IsTrue(Get(cfg, "delete")), env.responses.delete,
                  fc, RetryOrDelete(env.attempts, cfg, env.responses))
  }

  /** `execute()` with the handler's config taking effect. */
  function Execute(env: Env, payload: Envelope): (r: Run)
    ensures Bury !in r.trace
  {
    NeverBuries(env, payload, true);
    ExecuteWith(env, payload, true)
  }

  /** `execute()` as written: the handler's config never takes effect. */
  function ExecuteAsWritten(env: Env, payload: Envelope): (r: Run)
    ensures Bury !in r.trace
  {
    NeverBuries(env, payload, false);
    ExecuteWith(env, payload, false)
  }

  /** Neither configuration ever leads to a bury. */
  lemma NeverBuries(env: Env, payload: Envelope, merge: bool)
    ensures Bury !in ExecuteWith(env, payload, merge).trace
  {
    var ref := ParseJob(payload.job, "execute", "failure");
    if ref.cls in env.registry {
      var h := env.registry[ref.cls];
      if !h.ctorThrows && ref.exec in h.methods {
        var cfg := if merge then ResolveConfig(h.config) else Defaults;
        RetryOrDeleteNeverBuries(env.attempts, cfg, env.responses);
      }
    }
  }

  /** The class, its construction and the execute callback must all resolve;
      otherwise the job is deleted once, `false` is returned and no callback
      runs. */
  lemma UnresolvableIsDeleted(env: Env, payload: Envelope)
    requires var ref := ParseJob(payload.job, "execute", "failure");
      ref.cls !in env.registry || env.registry[ref.cls].ctorThrows || ref.exec !in env.registry[ref.cls].methods
    requires env.responses.delete.Ok?
    ensures Execute(env, payload) == Run([Delete], Returned(Bool(false)))
    ensures NoCallbacks(Execute(env, payload).trace)
  {
  }

  /** The handler a payload names, resolved with both callbacks' names. */
  predicate Resolves(env: Env, payload: Envelope, h: Handler, exec: string, fail: string) {
    var ref := ParseJob(payload.job, "execute", "failure");
    && ref.cls in env.registry && env.registry[ref.cls] == h
    && !h.ctorThrows && ref.exec in h.methods
    && ref.exec == exec && ref.fail == fail
  }

  /** On success `execute()` returns the callback's result and calls the
      connector's delete exactly when `config['delete'] === true`. */
  lemma SuccessReturnsResult(env: Env, payload: Envelope, h: Handler, exec: string, fail: string, v: Value)
    requires Resolves(env, payload, h, exec, fail)
    requires h.methods[exec] == Ok(v) && env.responses.delete.Ok?
    ensures Execute(env, payload).ending == Returned(v)
    ensures Execute(env, payload).trace ==
      [Invoke(exec)] + if IsTrue(Get(ResolveConfig(h.config), "delete")) then [Delete] else []
  {
  }

  /** A failure callback that is missing does not stop the run: the default
      policy applies as if it had returned `false`. When the callback returns
      anything but `false`, no disposition follows. */
  lemma FailureCallbackDecides(env: Env, payload: Envelope, h: Handler, exec: string, fail: string)
    requires Resolves(env, payload, h, exec, fail)
    requires h.methods[exec] == Throws
    requires fail !in h.methods || h.methods[fail].Ok?
    ensures var policy := RetryOrDelete(env.attempts, ResolveConfig(h.config), env.responses);
      var r := Execute(env, payload);
      if fail in h.methods && !IsFalse(h.methods[fail].v) then
        r == Run([Invoke(exec), Invoke(fail)], Returned(Null))
      else
        r.trace == [Invoke(exec)] + (if fail in h.methods then [Invoke(fail)] else []) + policy.events
        && (r.ending == Aborted <==> policy.aborted)
  {
    var fc := if fail in h.methods then Present(fail, h.methods[fail]) else Absent;
    var policy := RetryOrDelete(env.attempts, ResolveConfig(h.config), env.responses);
    var r := OnFailure([Invoke(exec)], fc, policy);
    assert r.trace == r.trace[..1] + r.trace[1..];
  }

  /** With a connector whose release and delete return `true`, an unhandled
      failure is released with `config['delay']` exactly when `attempts() <=
      config['retry']`, and otherwise deleted exactly when `config['delete']
      === true`. */
  lemma UnhandledFailureReleasesOrDeletes(env: Env, payload: Envelope, h: Handler, exec: string, fail: string)
    requires Resolves(env, payload, h, exec, fail)
    requires h.methods[exec] == Throws
    requires fail !in h.methods || h.methods[fail] == Ok(Bool(false))
    requires env.responses.release == Ok(Bool(true)) && env.responses.delete == Ok(Bool(true))
    ensures var cfg := ResolveConfig(h.config);
      Execute(env, payload) == Run(
        [Invoke(exec)] + (if fail in h.methods then [Invoke(fail)] else []) +
        (if RetryAllowed(env.attempts, cfg) then [Release(Get(cfg, "delay"))]
         else if IsTrue(Get(cfg, "delete")) then [Delete] else []),
        Returned(Null))
  {
    RetryOrDeleteAtMostOne(env.attempts, ResolveConfig(h.config), env.responses);
    RetryOrDeleteMatches(env.attempts, ResolveConfig(h.config), env.responses);
    FailureCallbackDecides(env, payload, h, exec, fail);
  }

  /** The registry with every handler's `config` property removed. */
  function WithoutConfig(env: Env): (e: Env)
    ensures e.registry.Keys == env.registry.Keys && e.attempts == env.attempts && e.responses == env.responses
    ensures forall k :: k in e.registry ==> e.registry[k] == env.registry[k].(config := Null)
  {
    env.(registry := map k | k in env.registry :: env.registry[k].(config := Null))
  }

  /** As written, the runner behaves exactly as if no handler had a `config`
      property at all. */
  lemma AsWrittenIgnoresHandlerConfig(env: Env, payload: Envelope)
    ensures ExecuteAsWritten(env, payload) == Execute(WithoutConfig(env), payload)
  {
  }

  /** The discrepancy on a concrete input: a handler declaring
      `config = ['delete' => true]` whose execute callback succeeds is deleted
      by the intended runner but not by the runner as written. */
  lemma AsWrittenDropsDeleteOnSuccess(cls: string, v: Value)
    requires SepFree(cls)
    ensures var h := Handler(false, Null, Null, Arr(map["delete" := Bool(true)]), map["execute" := Ok(v)]);
      var env := Env(map[cls := h], 1, Cooperative);
      && Execute(env, Envelope(cls, Arr(map[]))) == Run([Invoke("execute"), Delete], Returned(v))
      && ExecuteAsWritten(env, Envelope(cls, Arr(map[]))) == Run([Invoke("execute")], Returned(v))
  {
  }
}
