/** The part of a run after resolution, which the three runners share: call
    the execute callback inside a `try`; on success return its result,
    deleting first when `config['delete'] === true`; on an exception (from the
    callback or from that delete) call the failure callback outside any `try`
    and run the default policy when it is absent or returns exactly `false`.
    On the failure path `execute()` returns `null`. */
module Flow {
  import opened Php
  import opened Lifecycle
  import opened Policy

  /** What the failure path can find on the handler. */
  datatype FailureCall =
    | Absent                                   // not callable: treated like a `false` answer
    | Present(name: string, result: Outcome)   // callable, with what calling it yields
    | Undefined                                // called although no such method exists: a fatal error

  /** The run that ends with the policy chain after `prefix`. */
  function Finish(prefix: seq<Event>, c: Chain): (r: Run)
    ensures |r.trace| == |prefix| + |c.events|
    ensures r.trace[..|prefix|] == prefix && r.trace[|prefix|..] == c.events
    ensures r.ending == if c.aborted then Aborted else Returned(Null)
  {
    Run(prefix + c.events, if c.aborted then Aborted else Returned(Null))
  }

  /** The `catch` branch, entered with the events so far. */
  function OnFailure(prefix: seq<Event>, fc: FailureCall, policy: Chain): (r: Run)
    ensures |r.trace| >= |prefix| && r.trace[..|prefix|] == prefix
    ensures r.ending.Returned? ==> r.ending.v == Null
    ensures fc.Present? && fc.result.Ok? && !IsFalse(fc.result.v) ==>
      r == Run(prefix + [Invoke(fc.name)], Returned(Null))
    ensures fc.Absent? || (fc.Present? && fc.result == Ok(Bool(false))) ==>
      r.trace[|prefix|..] == (if fc.Present? then [Invoke(fc.name)] else []) + policy.events
      && (r.ending == Aborted <==> policy.aborted)
    ensures fc.Undefined? || (fc.Present? && fc.result.Throws?) ==> r.ending == Aborted && NoDispositions(r.trace[|prefix|..])
    ensures forall i :: |prefix| <= i < |r.trace| && IsDisposition(r.trace[i]) ==> r.trace[i] in policy.events
  {
    match fc
    case Absent => Finish(prefix, policy)
    case Undefined => Run(prefix, Aborted)
    case Present(name, result) =>
      var t := prefix + [Invoke(name)];
      match result
      case Throws => Run(t, Aborted)
      case Ok(v) => if IsFalse(v) then Finish(t, policy) else Run(t, Returned(Null))
  }

  /** The `try` block around the execute callback `exec`. */
  function OnExecute(exec: string, result: Outcome, deleteOn: bool, deleteAnswer: Outcome,
                     fc: FailureCall, policy: Chain): (r: Run)
    ensures |r.trace| >= 1 && r.trace[0] == Invoke(exec)
    ensures result.Ok? && (!deleteOn || deleteAnswer.Ok?) ==>
      r == Run([Invoke(exec)] + (if deleteOn then [Delete] else []), Returned(result.v))
    ensures result.Throws? ==> r == OnFailure([Invoke(exec)], fc, policy)
    ensures result.Ok? && deleteOn && deleteAnswer.Throws? ==> r == OnFailure([Invoke(exec), Delete], fc, policy)
    ensures forall i :: 0 <= i < |r.trace| && IsDisposition(r.trace[i]) ==> r.trace[i] == Delete || r.trace[i] in policy.events
  {
    var t := [Invoke(exec)];
    match result
    case Throws => OnFailure(t, fc, policy)
    case Ok(v) =>
      if !deleteOn then Run(t, Returned(v))
      else if deleteAnswer.Throws? then OnFailure(t + [Delete], fc, policy)
      else Run(t + [Delete], Returned(v))
  }

  /** The answer of the delete issued when a job cannot be resolved: `false`,
      unless the delete itself throws. */
  function DeleteAndReturnFalse(deleteAnswer: Outcome): (r: Run)
    ensures r.trace == [Delete] && NoCallbacks(r.trace)
    ensures r.ending == if deleteAnswer.Throws? then Aborted else Returned(Bool(false))
  {
    Run([Delete], if deleteAnswer.Throws? then Aborted else Returned(Bool(false)))
  }
}
