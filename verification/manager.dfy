/** The manager runner: a leased message bound to its queue and connector.
    The payload's `job` is a bare class name; the handler object supplies
    `execute($manager)` and `fail($manager, $e)` itself. */
module Manager {
  import opened Php
  import opened Lifecycle
  import opened Policy
  import opened Flow
  import opened JobConfig

  /** The manager's own state: the queue and connector it was built with and
      the decoded payload. */
  datatype ManagerState<C> = ManagerState(queue: string, connector: C, payload: map<string, Value>)

  /** The constructor keeps the queue and connector it is given; the payload
      starts empty until a concrete manager decodes its message. */
  function NewManager<C>(queue: string, connector: C): (m: ManagerState<C>)
    ensures m.queue == queue && m.connector == connector
    ensures |m.payload| == 0
  {
    ManagerState(queue, connector, map[])
  }

  /** `execute()`. An unknown class raises `JobNotFoundException`, which is
      caught and answered with one delete. Any other problem while resolving,
      and calling a method the handler lacks, is not caught. */
  function Execute(env: Env, payload: Envelope): (r: Run)
    ensures payload.job !in env.registry ==> r == DeleteAndReturnFalse(env.responses.delete)
    ensures Bury !in r.trace
    ensures payload.job in env.registry && "execute" !in env.registry[payload.job].methods ==> r.ending == Aborted
  {
    NeverBuries(env, payload);
    var cls := payload.job;
    if cls !in env.registry then DeleteAndReturnFalse(env.responses.delete)
    else
      var h := env.registry[cls];
      if h.ctorThrows || "execute" !in h.methods then Run([], Aborted)
      else
        var cfg := ResolveConfig(h.config);
        var fc := if "fail" in h.methods then Present("fail", h.methods["fail"]) else Undefined;
        OnExecute("execute", h.methods["execute"], IsTrue(Get(cfg, "delete")), env.responses.delete,
                  fc, RetryOrDelete(env.attempts, cfg, env.responses))
  }

  /** The manager's connector is never asked to bury. */
  lemma NeverBuries(env: Env, payload: Envelope)
    ensures payload.job in env.registry ==>
      Bury !in RetryOrDelete(env.attempts, ResolveConfig(env.registry[payload.job].config), env.responses).events
  {
    if payload.job in env.registry {
      RetryOrDeleteNeverBuries(env.attempts, ResolveConfig(env.registry[payload.job].config), env.responses);
    }
  }

  /** The class is found, constructed and has `execute`. */
  predicate Found(env: Env, payload: Envelope, h: Handler) {
    && payload.job in env.registry && env.registry[payload.job] == h
    && !h.ctorThrows && "execute" in h.methods
  }

  /** The class is found, constructed and has both methods. */
  predicate Resolves(env: Env, payload: Envelope, h: Handler) {
    Found(env, payload, h) && "fail" in h.methods
  }

  /** An unknown class is deleted once and `false` returned, and neither
      `execute` nor `fail` is called. */
  lemma UnknownClassIsDeleted(env: Env, payload: Envelope)
    requires payload.job !in env.registry && env.responses.delete.Ok?
    ensures Execute(env, payload) == Run([Delete], Returned(Bool(false)))
    ensures NoCallbacks(Execute(env, payload).trace)
  {
  }

  /** On success `execute()` returns what the handler's `execute` returned,
      and deletes exactly when `config['delete'] === true`; whether the
      handler has `fail` does not matter. */
  lemma SuccessReturnsResult(env: Env, payload: Envelope, h: Handler, v: Value)
    requires Found(env, payload, h)
    requires h.methods["execute"] == Ok(v) && env.responses.delete.Ok?
    ensures Execute(env, payload).ending == Returned(v)
    ensures Execute(env, payload).trace ==
      [Invoke("execute")] + if IsTrue(Get(ResolveConfig(h.config), "delete")) then [Delete] else []
  {
  }

  /** On an exception `fail` is called; only an exactly-`false` answer lets the
      default policy run, and `execute()` returns `null`. */
  lemma FailDecides(env: Env, payload: Envelope, h: Handler, v: Value)
    requires Resolves(env, payload, h)
    requires h.methods["execute"] == Throws && h.methods["fail"] == Ok(v)
    ensures var policy := RetryOrDelete(env.attempts, ResolveConfig(h.config), env.responses);
      var r := Execute(env, payload);
      && r.trace[..2] == [Invoke("execute"), Invoke("fail")]
      && (IsFalse(v) ==> r.trace[2..] == policy.events && (r.ending == Aborted <==> policy.aborted))
      && (!IsFalse(v) ==> r == Run([Invoke("execute"), Invoke("fail")], Returned(Null)))
      && (r.ending.Returned? ==> r.ending.v == Null)
  {
  }

  /** With a connector whose release returns `true` and whose delete
      succeeds, an unhandled failure ends in at most one disposition: a
      release with `config['delay']` within the retry budget, else a delete
      when enabled; never a bury. */
  lemma UnhandledFailureAtMostOne(env: Env, payload: Envelope, h: Handler)
    requires Resolves(env, payload, h)
    requires h.methods["execute"] == Throws && h.methods["fail"] == Ok(Bool(false))
    requires env.responses.release == Ok(Bool(true)) && env.responses.delete.Ok?
    ensures var cfg := ResolveConfig(h.config);
      Execute(env, payload) == Run([Invoke("execute"), Invoke("fail")] +
        (if RetryAllowed(env.attempts, cfg) then [Release(Get(cfg, "delay"))]
         else if IsTrue(Get(cfg, "delete")) then [Delete] else []),
        Returned(Null))
  {
    var cfg := ResolveConfig(h.config);
    RetryOrDeleteAtMostOne(env.attempts, cfg, env.responses);
    RetryOrDeleteMatches(env.attempts, cfg, env.responses);
  }

  /** The configuration of a handler without `config` is the defaults: a
      failing job reserved for the first time is neither released nor
      deleted. */
  lemma DefaultsOnFirstAttempt(env: Env, payload: Envelope, h: Handler)
    requires Resolves(env, payload, h) && h.config == Null && env.attempts == 1
    requires h.methods["execute"] == Throws && h.methods["fail"] == Ok(Bool(false))
    ensures Execute(env, payload) == Run([Invoke("execute"), Invoke("fail")], Returned(Null))
  {
    var policy := RetryOrDelete(env.attempts, Defaults, env.responses);
    var s0 := Step(RetryAllowed(env.attempts, Defaults), Release(Get(Defaults, "delay")), env.responses.release);
    var s1 := Step(IsTrue(Get(Defaults, "delete")), Delete, env.responses.delete);
    OrChainCons(s1, []);
    assert [s1] + [] == [s1];
    OrChainCons(s0, [s1]);
    assert [s0] + [s1] == [s0, s1];
  }
}
