/** The vocabulary shared by the three job runners: what a handler class looks
    like once class lookup and `is_callable` are replaced by data, what the
    outside world answers when a callback or a disposition is invoked, and the
    observable result of one `execute()` call. */
module Lifecycle {
  import opened Php

  /** What one call into foreign code does: return a value or throw an
      `Exception`. */
  datatype Outcome = Ok(v: Value) | Throws

  /** A handler class as the runners see it.
      - `ctorThrows`: constructing the class throws an exception;
      - `executeProp`, `failureProp`: the public `execute`/`failure` properties
        (`Null` when the class declares none);
      - `config`: the public `config` property (`Null` when unset);
      - `methods`: the callable methods, each with what calling it yields in
        this run. A name outside the map is not callable. */
  datatype Handler = Handler(
    ctorThrows: bool,
    executeProp: Value,
    failureProp: Value,
    config: Value,
    methods: map<string, Outcome>)

  /** What the queue answers to a disposition call during this run. */
  datatype Responses = Responses(delete: Outcome, release: Outcome, bury: Outcome)

  /** Everything foreign a run depends on: the class registry standing in for
      `class_exists`/`new $class`, the reservation count `attempts()` reports,
      and the answers of the disposition calls. */
  datatype Env = Env(registry: map<string, Handler>, attempts: nat, responses: Responses)

  /** The decoded payload `{job: "Class@execute:failure", data: ...}`. */
  datatype Envelope = Envelope(job: string, data: Value)

  /** One observable step of a run: a callback invoked on the handler, or a
      disposition requested from the queue. */
  datatype Event = Invoke(name: string) | Delete | Release(delay: Value) | Bury

  /** How `execute()` ends: with a return value, or with an exception escaping
      it. */
  datatype Ending = Returned(v: Value) | Aborted

  datatype Run = Run(trace: seq<Event>, ending: Ending)

  /** The answers a queue gives when every disposition call succeeds and
      returns `true`, as the connector interface documents. */
  const Cooperative: Responses := Responses(Ok(Bool(true)), Ok(Bool(true)), Ok(Bool(true)))

  predicate IsDisposition(e: Event) {
    !e.Invoke?
  }

  /** No handler callback appears in the trace. */
  predicate NoCallbacks(t: seq<Event>) {
    forall i :: 0 <= i < |t| ==> !t[i].Invoke?
  }

  /** No disposition appears in the trace. */
  predicate NoDispositions(t: seq<Event>) {
    forall i :: 0 <= i < |t| ==> t[i].Invoke?
  }
}
