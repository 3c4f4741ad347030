/** The default failure policy. All three runners express it as PHP `or`
    short circuits over guarded disposition calls (`$a <= $b and
    $this->release(...)`, `$x === true and $this->bury()`): a step whose guard
    fails yields `false` without calling anything, a called step yields its
    return value, and the chain stops at the first truthy step. An exception
    from a disposition call is not caught there and ends the run. */
module Policy {
  import opened Php
  import opened Lifecycle

  /** One operand of the chain: the guard, the disposition it requests and
      what the queue answers. */
  datatype Step = Step(guard: bool, event: Event, response: Outcome)

  /** The dispositions the chain requested, and whether one of them threw. */
  datatype Chain = Chain(events: seq<Event>, aborted: bool)

  /** The dispositions of all guarded steps, in order: what the chain would
      request if no step stopped it. */
  function Guarded(steps: seq<Step>): seq<Event>
  {
    if steps == [] then []
    else (if steps[0].guard then [steps[0].event] else []) + Guarded(steps[1..])
  }

  /** The call returned normally with a truthy value. */
  predicate Reports(o: Outcome) {
    o.Ok? && Truthy(o.v)
  }

  /** Some guarded step's call throws. */
  predicate SomeGuardedThrows(steps: seq<Step>) {
    exists i :: 0 <= i < |steps| && steps[i].guard && steps[i].response.Throws?
  }

  /** No guarded step's call reports success. */
  predicate NoneReports(steps: seq<Step>) {
    forall i :: 0 <= i < |steps| && steps[i].guard ==> !Reports(steps[i].response)
  }

  /** Evaluates `s1 or s2 or ...`. */
  function OrChain(steps: seq<Step>): Chain
  {
    if steps == [] then Chain([], false)
    else
      var s := steps[0];
      var rest := OrChain(steps[1..]);
      if !s.guard then rest
      else match s.response
        case Throws => Chain([s.event], true)
        case Ok(v) =>
          if Truthy(v) then Chain([s.event], false)
          else Chain([s.event] + rest.events, rest.aborted)
  }

  /** The calls a chain makes are a prefix of its guarded calls, in order; it
      throws only if some guarded call throws; and when no call throws or
      reports success, every guarded call is made. */
  lemma {:induction false} OrChainPrefix(steps: seq<Step>)
    ensures OrChain(steps).events <= Guarded(steps)
    ensures OrChain(steps).aborted ==> SomeGuardedThrows(steps)
    ensures !SomeGuardedThrows(steps) && NoneReports(steps) ==> OrChain(steps) == Chain(Guarded(steps), false)
  {
    if steps != [] {
      var s := steps[0];
      var rest := steps[1..];
      OrChainPrefix(rest);
      assert steps == [s] + rest;
      OrChainCons(s, rest);
      assert SomeGuardedThrows(rest) ==> SomeGuardedThrows(steps) by {
        if SomeGuardedThrows(rest) {
          var i :| 0 <= i < |rest| && rest[i].guard && rest[i].response.Throws?;
          assert steps[i + 1] == rest[i];
        }
      }
      assert NoneReports(steps) ==> NoneReports(rest) by {
        forall i | 0 <= i < |rest| ensures rest[i] == steps[i + 1] { }
      }
    }
  }

  /** One step of the chain, unfolded. */
  lemma OrChainCons(s: Step, rest: seq<Step>)
    ensures OrChain([s] + rest) ==
      if !s.guard then OrChain(rest)
      else if s.response.Throws? then Chain([s.event], true)
      else if Truthy(s.response.v) then Chain([s.event], false)
      else Chain([s.event] + OrChain(rest).events, OrChain(rest).aborted)
    ensures Guarded([s] + rest) == (if s.guard then [s.event] else []) + Guarded(rest)
  {
    assert ([s] + rest)[0] == s;
    assert ([s] + rest)[1..] == rest;
  }

  /** The chain of a single step. */
  lemma OrChainLast(s: Step)
    ensures OrChain([s]) == Chain(if s.guard then [s.event] else [], s.guard && s.response.Throws?)
  {
    OrChainCons(s, []);
    assert [s] + [] == [s];
  }

  /** The guard of a retry: `attempts() <= config['retry']`. */
  predicate RetryAllowed(attempts: nat, cfg: map<string, Value>) {
    LooseLe(attempts, Get(cfg, "retry"))
  }

  /** `tryRetry() or tryBury() or tryDelete()` of the bury-capable runner. */
  function RetryBuryDelete(attempts: nat, cfg: map<string, Value>, r: Responses): Chain
  {
    OrChain([
      Step(RetryAllowed(attempts, cfg), Release(Get(cfg, "delay")), r.release),
      Step(IsTrue(Get(cfg, "bury")), Bury, r.bury),
      Step(IsTrue(Get(cfg, "delete")), Delete, r.delete)])
  }

  /** `autoRetry() or autoDelete()` of the connector-based runners.
      `autoRetry` returns the release result when the budget allows and `null`
      otherwise, which the `or` treats like a failed guard. */
  function RetryOrDelete(attempts: nat, cfg: map<string, Value>, r: Responses): Chain
  {
    OrChain([
      Step(RetryAllowed(attempts, cfg), Release(Get(cfg, "delay")), r.release),
      Step(IsTrue(Get(cfg, "delete")), Delete, r.delete)])
  }

  /** The bury-capable policy stated flatly, for queues whose disposition
      calls do not throw: release when the budget allows; bury when enabled
      and the release did not report success; delete when enabled and neither
      earlier step reported success. */
  function ExpectedRetryBuryDelete(attempts: nat, cfg: map<string, Value>, r: Responses): seq<Event>
  {
    var retry := RetryAllowed(attempts, cfg);
    var bury := IsTrue(Get(cfg, "bury"));
    var delete := IsTrue(Get(cfg, "delete"));
    var afterRetry := !(retry && Reports(r.release));
    var afterBury := afterRetry && !(bury && Reports(r.bury));
    (if retry then [Release(Get(cfg, "delay"))] else [])
      + (if afterRetry && bury then [Bury] else [])
      + (if afterBury && delete then [Delete] else [])
  }

  lemma RetryBuryDeleteMatches(attempts: nat, cfg: map<string, Value>, r: Responses)
    requires r.release.Ok? && r.bury.Ok? && r.delete.Ok?
    ensures RetryBuryDelete(attempts, cfg, r) == Chain(ExpectedRetryBuryDelete(attempts, cfg, r), false)
  {
    var s0 := Step(RetryAllowed(attempts, cfg), Release(Get(cfg, "delay")), r.release);
    var s1 := Step(IsTrue(Get(cfg, "bury")), Bury, r.bury);
    var s2 := Step(IsTrue(Get(cfg, "delete")), Delete, r.delete);
    ThreeSteps(s0, s1, s2);
  }

  /** A chain of three calls that do not throw, stated flatly: each guarded
      call is made unless an earlier call reported success. */
  lemma ThreeSteps(s0: Step, s1: Step, s2: Step)
    requires s0.response.Ok? && s1.response.Ok? && s2.response.Ok?
    ensures var go1 := !(s0.guard && Reports(s0.response));
      var go2 := go1 && !(s1.guard && Reports(s1.response));
      OrChain([s0, s1, s2]) == Chain((if s0.guard then [s0.event] else [])
        + (if go1 && s1.guard then [s1.event] else [])
        + (if go2 && s2.guard then [s2.event] else []), false)
  {
    OrChainLast(s2);
    var c1 := OrChain([s1, s2]);
    assert c1 == Chain((if s1.guard then [s1.event] else [])
      + (if !(s1.guard && Reports(s1.response)) && s2.guard then [s2.event] else []), false) by {
      OrChainCons(s1, [s2]);
      assert [s1] + [s2] == [s1, s2];
    }
    OrChainCons(s0, [s1, s2]);
    assert [s0] + [s1, s2] == [s0, s1, s2];
  }

  /** With a cooperative queue exactly the first enabled step runs: release
      within the retry budget, else bury if enabled, else delete if enabled,
      else nothing. */
  lemma RetryBuryDeleteCooperative(attempts: nat, cfg: map<string, Value>)
    ensures RetryBuryDelete(attempts, cfg, Cooperative).events ==
      if RetryAllowed(attempts, cfg) then [Release(Get(cfg, "delay"))]
      else if IsTrue(Get(cfg, "bury")) then [Bury]
      else if IsTrue(Get(cfg, "delete")) then [Delete]
      else []
    ensures !RetryBuryDelete(attempts, cfg, Cooperative).aborted
  {
    RetryBuryDeleteMatches(attempts, cfg, Cooperative);
  }

  /** A release that returns `null` (as the synchronous test job's does)
      counts as not done, so the chain goes on to bury and delete. */
  lemma NullReleaseFallsThrough(attempts: nat, cfg: map<string, Value>, r: Responses)
    requires r.release == Ok(Null) && r.bury.Ok? && r.delete.Ok?
    requires RetryAllowed(attempts, cfg) && IsTrue(Get(cfg, "bury"))
    ensures |RetryBuryDelete(attempts, cfg, r).events| >= 2
    ensures RetryBuryDelete(attempts, cfg, r).events[..2] == [Release(Get(cfg, "delay")), Bury]
  {
    RetryBuryDeleteMatches(attempts, cfg, r);
  }

  /** The two-step policy stated flatly, for queues whose disposition calls do
      not throw. */
  function ExpectedRetryOrDelete(attempts: nat, cfg: map<string, Value>, r: Responses): seq<Event>
  {
    var retry := RetryAllowed(attempts, cfg);
    (if retry then [Release(Get(cfg, "delay"))] else [])
      + (if !(retry && Reports(r.release)) && IsTrue(Get(cfg, "delete")) then [Delete] else [])
  }

  lemma RetryOrDeleteMatches(attempts: nat, cfg: map<string, Value>, r: Responses)
    requires r.release.Ok? && r.delete.Ok?
    ensures RetryOrDelete(attempts, cfg, r) == Chain(ExpectedRetryOrDelete(attempts, cfg, r), false)
  {
    var s0 := Step(RetryAllowed(attempts, cfg), Release(Get(cfg, "delay")), r.release);
    var s1 := Step(IsTrue(Get(cfg, "delete")), Delete, r.delete);
    OrChainCons(s1, []);
    assert [s1] + [] == [s1];
    OrChainCons(s0, [s1]);
    assert [s0] + [s1] == [s0, s1];
  }

  /** The two-step policy never buries, whatever the queue answers. */
  lemma RetryOrDeleteNeverBuries(attempts: nat, cfg: map<string, Value>, r: Responses)
    ensures Bury !in RetryOrDelete(attempts, cfg, r).events
  {
    var s0 := Step(RetryAllowed(attempts, cfg), Release(Get(cfg, "delay")), r.release);
    var s1 := Step(IsTrue(Get(cfg, "delete")), Delete, r.delete);
    OrChainCons(s1, []);
    assert [s1] + [] == [s1];
    OrChainCons(s0, [s1]);
    assert [s0] + [s1] == [s0, s1];
    var g := Guarded([s0, s1]);
    assert Bury !in g;
    OrChainPrefix([s0, s1]);
  }

  /** Because a connector's release returns `true`, one failure leads to at
      most one disposition: a release within the budget, else a delete when
      enabled. */
  lemma RetryOrDeleteAtMostOne(attempts: nat, cfg: map<string, Value>, r: Responses)
    requires r.release == Ok(Bool(true)) && r.delete.Ok?
    ensures RetryOrDelete(attempts, cfg, r).events ==
      if RetryAllowed(attempts, cfg) then [Release(Get(cfg, "delay"))]
      else if IsTrue(Get(cfg, "delete")) then [Delete]
      else []
  {
    RetryOrDeleteMatches(attempts, cfg, r);
  }
}
