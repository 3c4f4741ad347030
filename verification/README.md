# indigophp/queue: job lifecycle and connectors, in Dafny

This project models the core of the Indigo queue library. The library
is a backend-agnostic job queue: a producer pushes a message naming a
handler class (`Class@execute:failure`) and its data, a worker pops it, and
the job wrapper does four things:

- resolves the handler;
- calls its execute callback;
- on success deletes the job when the handler's config asks for it;
- on an exception consults the handler's failure callback, and unless that
  callback handled the failure, applies the default policy: release within
  the retry budget, else bury when enabled, else delete when enabled.

Three runner variants of this lifecycle are modelled:

- the bury-capable job wrapper (`IndigoJob`);
- the connector-based job wrapper (`ConnectorJob`);
- the manager (`Manager`).

The project also models:

- the closure handler (`Closure`);
- the beanstalkd adapter and the IronMQ connector over an abstract backend
  of ready, delayed, buried and reserved jobs (`Connector`);
- the worker's queue resolution and `work` step (`Worker`).

Modules:

| module | what it holds |
|---|---|
| `Php` | the PHP values the core handles, and their semantics: truthiness, `=== true` and `=== false`, `<=` between an int and a config value, `array_merge`, array `+` |
| `Lifecycle` | handlers as data, and a run as a trace of events plus an ending |
| `HandlerString` | `preg_split('/[:@]/', …)` and the positional parse of `Class@execute:failure` |
| `Policy` | PHP `or` chains of guarded disposition calls, and the two default policies built from them |
| `Flow` | the shared `try` around the execute callback and the shared `catch` path |
| `JobConfig` | defaults, and the handler config merged over them |
| `IndigoJob`, `ConnectorJob`, `Manager` | the three runners |
| `Closure` | the closure handler |
| `Connector` | the beanstalkd adapter and the IronMQ connector over an abstract backend |
| `Worker` | building the driver class name, constructing the worker, and `work` |

Foreign things become data:

- Class lookup (`class_exists`, `new $class`) is a registry from class names
  to `Handler` records.
- A handler record says whether its constructor throws, what its
  `execute`/`failure`/`config` properties hold, and which methods it has,
  with what calling each one yields.
- `attempts()` is a number.
- The answers of the disposition calls (`delete`, `release`, `bury`) are
  parameters of a run.
- A run's result is the sequence of callback calls and disposition requests
  it makes, and either the value `execute()` returns or `Aborted` when an
  exception escapes `execute()`.

Behaviour worth noting, as the code does it:

- In the bury-capable runner, a missing execute callback makes `execute()`
  return `false` with no delete.
- An exception thrown by the success-path delete is caught by the same
  `try` and leads into the failure path.
- A failure callback that returns anything but `false` ends the run with no
  disposition at all.
- The callback names in the handler string are positional, so
  `Foo:bar@baz` executes `bar` just as `Foo@bar:baz` does.
- The manager's unknown-class branch writes no log: the log call comes after
  the `throw`.
- In the bury-capable runner, payload data that is not an array (a missing
  `data` reads as `null`) fails `resolveJob`'s `array` parameter type
  before the class is looked up. The call sits outside the `try`, so the
  error escapes `execute()`: nothing is deleted and no callback runs.

## Model

| member | source | states |
|---|---|---|
| Php.ArrayMerge | src/Manager/AbstractManager.php:156-158 | `array_merge` of string-keyed arrays: every key of the second array takes the second array's value, every other key keeps the first's |
| Php.MergeIdempotent | src/Indigo/Queue/Job/AbstractJob.php:207 | merging the same overrides a second time changes nothing |
| Php.LooseLeReadsDecimal | src/Indigo/Queue/Job/AbstractJob.php:299 | `attempts <= retry` with a decimal string as the budget compares with the number the string spells |
| Php.LooseLeMonotone | src/Job/AbstractJob.php:248 | once a reservation count is over the retry budget, every larger count is too |
| Php.ArrayUnion | src/Adapter/BeanstalkdAdapter.php:94 | PHP array `+`: every key of the left array keeps the left value; keys only on the right are added |
| HandlerString.SplitCount | src/Indigo/Queue/Job/AbstractJob.php:142 | splitting on `:` and `@` yields one more piece than there are separators |
| HandlerString.SplitPiecesSepFree | src/Indigo/Queue/Job/AbstractJob.php:142 | no piece of the split contains a separator |
| HandlerString.SplitJoin | src/Indigo/Queue/Job/AbstractJob.php:142 | joining the pieces back with `:` gives the input with every `@` read as `:`, so the split loses nothing but the choice of separator |
| HandlerString.ParseJob | src/Indigo/Queue/Job/AbstractJob.php:140-146 | the class is the text before the first separator (the whole string when there is none, with both default callback names); the execute name is the text between the first and second separators; the failure name falls back to its default when there is no second separator |
| HandlerString.ParseThree | src/Job/AbstractJob.php:136-142 | `C@e:f` (separators in either order) parses to class `C`, execute `e` and failure `f`; pieces after the third are ignored |
| HandlerString.ParseTwo | src/Job/AbstractJob.php:136-142 | `C:e` parses to class `C`, execute `e` and the default failure name |
| Policy.OrChainPrefix | src/Indigo/Queue/Job/AbstractJob.php:275 | a short-circuit `or` over guarded calls: the calls made are a prefix of the guarded ones, in order; the chain throws only if some guarded call throws; when every call answers falsy, all guarded calls are made |
| Policy.RetryBuryDeleteMatches | src/Indigo/Queue/Job/AbstractJob.php:273-320 | the bury-capable policy equals its flat reference: release when `attempts <= retry`; bury when `bury === true` and the release did not report success; delete when `delete === true` and neither earlier step reported success |
| Policy.RetryBuryDeleteCooperative | src/Indigo/Queue/Job/AbstractJob.php:297-320 | when every disposition call returns `true`, exactly the first enabled of release, bury and delete happens, and nothing is thrown |
| Policy.NullReleaseFallsThrough | src/Indigo/Queue/Job/AbstractJob.php:275-310 | a release that returns `null` does not stop the chain, so an enabled bury follows it |
| Policy.RetryOrDeleteMatches | src/Job/AbstractJob.php:236-261 | the two-step policy equals its flat reference: release when `attempts <= retry`, then delete when `delete === true` unless the release reported success |
| Policy.RetryOrDeleteNeverBuries | src/Manager/AbstractManager.php:170-199 | the two-step policy never buries, whatever the connector answers |
| Policy.RetryOrDeleteAtMostOne | src/Manager/AbstractManager.php:170-187 | because a connector's release returns `true`, one failure leads to at most one disposition: a release within the retry budget, otherwise a delete when enabled |
| Flow.OnFailure | src/Indigo/Queue/Job/AbstractJob.php:251-266 | the failure path returns `null` when it returns at all; a failure callback answering anything but `false` ends it with no disposition; a missing callback or a `false` answer runs the policy; a callback that throws ends the run with no disposition; every disposition on this path comes from the policy |
| Flow.OnExecute | src/Indigo/Queue/Job/AbstractJob.php:91-97 | the execute callback is called first; on success its value is returned, after a delete when one is enabled; an exception from the callback, or from that delete, enters the failure path; every disposition is that delete or one from the policy |
| Flow.DeleteAndReturnFalse | src/Indigo/Queue/Job/AbstractJob.php:86-89 | an unresolvable job gets one delete and no callback, and `false` is returned unless the delete throws |
| JobConfig.ResolveBuryConfig | src/Indigo/Queue/Job/AbstractJob.php:201-211 | an array `config` overrides the defaults `{retry 0, delay 0, bury false, delete false}` key by key; anything else leaves the defaults exactly |
| JobConfig.ResolveConfig | src/Job/AbstractJob.php:79-83 | with no `config` the defaults `{retry 0, delay 0, delete false}` hold; an array overrides them key by key; any other value leaves every key `null` |
| JobConfig.DefaultsMeanNoRetry | src/Indigo/Queue/Job/AbstractJob.php:70-75 | under the defaults a job past its first reservation is not released, and neither bury nor delete is enabled |
| IndigoJob.ResolveCallbacks | src/Indigo/Queue/Job/AbstractJob.php:173-193 | a handler's `execute`/`failure` property replaces the parsed name exactly when it is a string other than `""` and `"0"` |
| IndigoJob.Execute | src/Indigo/Queue/Job/AbstractJob.php:80-164 | payload data that is not an array aborts `execute()` before the class lookup, with no event; with array data, a class that does not exist is answered by one delete and `false`; a run that aborts with no event has non-array data or a throwing constructor |
| IndigoJob.UnknownClassIsDeleted | src/Indigo/Queue/Job/AbstractJob.php:155-164 | an unknown class is deleted once, `false` is returned and no callback runs |
| IndigoJob.MissingExecuteDoesNothing | src/Indigo/Queue/Job/AbstractJob.php:219-230 | a handler without the execute callback makes `execute()` return `false` with no callback and no disposition |
| IndigoJob.SuccessReturnsResult | src/Indigo/Queue/Job/AbstractJob.php:233-240 | on success `execute()` returns the callback's value, and deletes exactly when `config['delete'] === true` |
| IndigoJob.HandledFailureDisposesNothing | src/Indigo/Queue/Job/AbstractJob.php:259-266 | a failure callback that answers anything but `false` leaves the job alone, and `null` is returned |
| IndigoJob.UnhandledFailureFollowsPolicy | src/Indigo/Queue/Job/AbstractJob.php:251-275 | with no failure callback, or one answering `false`, a queue that answers `true` sees at most one disposition: release with `config['delay']` within the retry budget, else bury, else delete, each only when enabled; `null` is returned |
| IndigoJob.PartialConfigKeepsDefaults | src/Indigo/Queue/Job/AbstractJob.php:201-211 | every default key (`retry`, `delay`, `bury`, `delete`) an array config does not set keeps its default value; so without `retry` no retry happens from the first reservation on, and without `bury` or `delete` neither is enabled |
| IndigoJob.NoopScenario | src/Indigo/Queue/Job/AbstractJob.php:233-240 | a handler with `{retry 0, delete true}` whose callback returns 42 is deleted, and 42 is returned |
| IndigoJob.AlwaysFailsScenario | src/Indigo/Queue/Job/AbstractJob.php:297-310 | a handler with `{retry 2, delay 5, bury true}` whose callback always throws is released with delay 5 on attempts 1 and 2, and buried on attempt 3 |
| ConnectorJob.Execute | src/Job/AbstractJob.php:88-107 | the connector-based runner never buries |
| ConnectorJob.UnresolvableIsDeleted | src/Job/AbstractJob.php:94-100 | a missing class, a throwing constructor or a missing execute callback is answered by one connector delete and `false`, with no callback run |
| ConnectorJob.SuccessReturnsResult | src/Job/AbstractJob.php:191-202 | on success the callback's value is returned, and the connector deletes exactly when `config['delete'] === true` |
| ConnectorJob.FailureCallbackDecides | src/Job/AbstractJob.php:212-229 | a missing failure callback counts as `false`, so the policy runs; one answering anything else ends the run with no disposition; `null` is returned |
| ConnectorJob.UnhandledFailureReleasesOrDeletes | src/Job/AbstractJob.php:236-261 | with a connector answering `true`, an unhandled failure is released with `config['delay']` exactly when `attempts <= retry`, else deleted exactly when `delete === true` |
| ConnectorJob.ExecuteAsWritten | src/Job/AbstractJob.php:115-128 | the runner as written never buries |
| ConnectorJob.AsWrittenIgnoresHandlerConfig | src/Job/AbstractJob.php:119-127 | as written, the runner behaves exactly as if no handler had a `config` property |
| ConnectorJob.AsWrittenDropsDeleteOnSuccess | src/Job/AbstractJob.php:119-127 | as written, a handler with `config = ['delete' => true]` whose callback succeeds is not deleted; the corrected runner deletes it |
| Manager.NewManager | src/Manager/AbstractManager.php:67-73 | the constructor keeps the queue and connector it is given, and the payload starts empty |
| Manager.Execute | src/Manager/AbstractManager.php:103-134 | an unknown class is answered by one delete and `false`; a handler without `execute` ends the run with an escaping error; the manager never buries |
| Manager.UnknownClassIsDeleted | src/Manager/AbstractManager.php:109-115 | an unknown class is deleted once and `false` is returned, with neither `execute` nor `fail` called |
| Manager.SuccessReturnsResult | src/Manager/AbstractManager.php:117-126 | once the class is found, constructed and has `execute`, with or without `fail`, success makes `execute()` return the handler's value and delete exactly when `config['delete'] === true` |
| Manager.FailDecides | src/Manager/AbstractManager.php:127-133 | on an exception `fail` is called; only an exact `false` answer runs the policy; `null` is returned |
| Manager.UnhandledFailureAtMostOne | src/Manager/AbstractManager.php:170-199 | with a connector whose release returns `true`, an unhandled failure makes at most one disposition: release within the budget, else delete when enabled; never bury |
| Manager.DefaultsOnFirstAttempt | src/Manager/AbstractManager.php:55-59 | a handler without `config` that fails on its first reservation is neither released nor deleted |
| Closure.ClosureConfig | src/Closure.php:30-35 | the closure's config is `{delete: true}` when `data` has no `config`; an array `data['config']` overrides it key by key; any other value leaves `null` |
| Closure.ClosureHandler | src/Closure.php:43-49 | the closure handler has exactly one callback, `execute`, which yields what the closure yields |
| Closure.EffectiveDelete | src/Closure.php:30-34 | under the bury-capable runner a closure is deleted after success when its data has no config, or an array config that does not set `delete`; an array config that sets `delete` decides it; a config that is not an array makes `array_merge` yield `null`, so the runner's defaults apply and nothing is deleted |
| Closure.SuccessIsDeleted | src/Closure.php:43-49 | when `data` has no `config`, `execute()` returns what the closure returns, after which the job is deleted |
| Closure.DefaultPolicy | src/Indigo/Queue/Job/AbstractJob.php:70-74 | merged over the runner's defaults, a closure without `config` gets no retry from the first reservation on, no bury, and delete |
| Closure.FailureIsDeleted | src/Closure.php:30 | when `data` has no `config`, a closure that throws on any reservation from the first on is deleted by the default policy, and `null` is returned |
| Connector.IsConnected | src/Connector/IronConnector.php:47-50 | the IronMQ connector is always connected |
| Connector.PushOptions | src/Adapter/BeanstalkdAdapter.php:92-103 | the beanstalkd adapter's delay, time to run and priority (0, 60, 1024) win over a message's own options; the message's other options are kept |
| Connector.Push | src/Adapter/BeanstalkdAdapter.php:92-103 | a push adds one job with a fresh id, held back when its delay is positive and otherwise ready last; no other queue changes |
| Connector.BeanstalkdPushIsReady | src/Adapter/BeanstalkdAdapter.php:32-36 | since the adapter's zero delay always wins, a push through it is never held back |
| Connector.IronDelayedMessage | src/Connector/IronConnector.php:67-76 | `delayed` sets the message's `delay` option and keeps its other options and its payload |
| Connector.IronDelayed | src/Connector/IronConnector.php:67-76 | the queue gains exactly one job with a fresh id, the message's payload and its options with `delay` set; it is held back for a positive delay and otherwise ready last; no other job and no other queue changes |
| Connector.Count | src/Adapter/BeanstalkdAdapter.php:122-127 | `count` is the queue's jobs less the delayed, buried and reserved ones, which is the ready jobs |
| Connector.PopLowersCount | src/Adapter/BeanstalkdAdapter.php:108-127 | a successful `pop` lowers `count` by one |
| Connector.DelayedPushKeepsCount | src/Adapter/BeanstalkdAdapter.php:92-127 | a push held back by a positive delay leaves `count` unchanged |
| Connector.BuryKeepsCount | src/Adapter/BeanstalkdAdapter.php:122-185 | a bury leaves `count` unchanged |
| Connector.CountZeroIffPopEmpty | src/Adapter/BeanstalkdAdapter.php:108-127 | `count` is 0 exactly when `pop` raises `QueueEmptyException` |
| Connector.Pop | src/Adapter/BeanstalkdAdapter.php:108-117 | with nothing ready, `pop` raises `QueueEmptyException` for the queue; otherwise the first ready job is reserved and its manager is bound to the queue, reporting one more attempt |
| Connector.Remove | src/Adapter/BeanstalkdAdapter.php:132-137 | what remains after removing an id holds no job with that id, only jobs that were there, and is no longer |
| Connector.RemoveCounts | src/Adapter/BeanstalkdAdapter.php:132-137 | a removal keeps every job with another id exactly as often as it occurred |
| Connector.RemoveConcat | src/Adapter/BeanstalkdAdapter.php:132-137 | removal distributes over concatenation, so the jobs that stay keep their order |
| Connector.RemoveShrinks | src/Adapter/BeanstalkdAdapter.php:132-137 | a removal shortens the sequence when a job has the id, and changes nothing otherwise |
| Connector.DeleteJob | src/Connector/ConnectorInterface.php:70-77 | `delete` answers `true` and removes exactly the jobs with that id from each state, keeping the order of the rest; deleting a job the backend does not hold is an error; no other queue changes |
| Connector.DeleteKeepsOtherJobs | src/Connector/ConnectorInterface.php:70-77 | after a delete every job with another id is still there, as often as before, in the state it was in |
| Connector.ReleaseJob | src/Connector/ConnectorInterface.php:88-96 | `release` answers `true` and moves the handle's reserved job, with its body and reservation count and with `delay` set, to the end of the delayed jobs for a positive delay and of the ready jobs otherwise (the model's first-in-first-out reading of the backend); every other job keeps its place; the beanstalkd adapter gives it the default priority 1024; a job not reserved is an error |
| Connector.BuryJob | src/Adapter/BeanstalkdAdapter.php:180-185 | the beanstalkd adapter moves the handle's reserved job to the end of the buried jobs, keeps every other job in place and answers `true`; a job not reserved is an error; IronMQ has no bury |
| Connector.BuryKeepsJobs | src/Adapter/BeanstalkdAdapter.php:180-185 | a bury neither loses nor duplicates a job: the queue holds the same multiset of jobs |
| Connector.Drain | src/Adapter/BeanstalkdAdapter.php:161-171 | the peek-and-delete loop empties the state, or stops silently where the server raises an error |
| Connector.Clear | src/Adapter/BeanstalkdAdapter.php:142-149 | `clear` answers `true`; the beanstalkd adapter drains ready, buried and delayed jobs and leaves reserved ones alone; IronMQ empties the queue; when nothing fails, `count` is 0 afterwards |
| Connector.PushAllCount | src/Adapter/BeanstalkdAdapter.php:122-127 | each push of an undelayed message raises `count` by one |
| Connector.ClearThenPushCount | src/Connector/ConnectorInterface.php:63-68 | after a clear that meets no error, pushing n undelayed messages gives a `count` of n |
| Connector.PushThenPop | src/Connector/ConnectorInterface.php:51-61 | a job pushed onto a queue with nothing ready is the next popped, on its first attempt |
| Connector.ReleaseThenPop | src/Connector/IronConnector.php:125-130 | a job released without delay onto an empty queue is popped again with one more attempt |
| Worker.DriverClassName | src/Phresque/Worker.php:42 | the class name is `Phresque\Queue\`, then the driver lower-cased, then first letter upper-cased, then trimmed, then `Queue` |
| Worker.TrimLeft | src/Phresque/Worker.php:42 | stripping the front of a string removes only stripped characters and stops at the first kept one |
| Worker.TrimRight | src/Phresque/Worker.php:42 | stripping the end of a string removes only stripped characters and stops at the last kept one |
| Worker.TrimIsInfix | src/Phresque/Worker.php:42 | what `trim` keeps is a stretch of its input with only stripped characters around it |
| Worker.CaseInsensitiveDriver | src/Phresque/Worker.php:42 | driver names that differ only in letter case give the same class name |
| Worker.LeadingSpaceKeepsLowerCase | src/Phresque/Worker.php:42 | `ucfirst` runs before `trim`, so a leading space leaves the driver's first letter lower-case, while without it the letter is upper-case |
| Worker.NewWorker | src/Phresque/Worker.php:21-28 | a queue object is used as given; a queue name builds the driver class from the driver name, lower-cases the queue name and passes the connector on |
| Worker.QueueNameCaseInsensitive | src/Phresque/Worker.php:40-47 | queue names that differ only in letter case build the same queue |
| Worker.Work | src/Phresque/Worker.php:65-71 | `work` executes the popped value exactly when it is a job |

## Left out

- Logging is left out. It is a side channel with no effect on dispositions. The connector-based runner calls its logger without a null check, so without a logger it fails at the first log call; the model assumes a logger is set.
- JSON encoding and decoding of payloads, and `unserialize` of closures, are left out. Payloads are already decoded, and a closure is represented by what calling it yields.
- Class lookup, `is_callable` and `call_user_func` become a registry of handler records, so reflection is not modelled. PHP's case-insensitive class and method names are not modelled either: names match exactly.
- Values are limited to null, booleans, integers, strings and string-keyed arrays. Floats, objects and integer array keys are not modelled.
- PHP semantics are those of PHP 5 and 7. In particular, `array_merge` with a non-array argument yields `null` rather than throwing.
- A numeric string is compared with `<=` through its leading optional whitespace, sign and digits only. Exponents and decimals are not modelled.
- The connector-based runner passes an undefined `$sata` to the handler constructor. The model's handlers do not depend on constructor data.
- The answers of `delete`, `release` and `bury` are fixed for the whole run. Two calls to the same method always get the same answer.
- The bury-capable runner's own `delete`, `release` and `bury` methods are abstract in the source, so they are represented only by their answers.
- `Worker::listen` is process control (`memory_get_usage`, `die`) and is not modelled.
- The worker's direct queue and the concrete managers are thin wrappers and are not modelled. `attempts` is a number, and the payload is already decoded.
- Waiting in `pop` (its timeout) is not modelled. A pop sees what is ready at that moment.
- Time-driven moves of the backend are not modelled: a delayed job never becomes ready and a reservation never times out by itself.
- Connector.Count: IronMQ's `count` is the size the service reports, cast to int; the model takes it to be the number of ready jobs.
- The connector contract is a datatype of the two implementations with one function per operation, rather than an interface.
- Connector.DeleteJob: the model addresses a job through its manager's queue and its id; the beanstalkd adapter deletes the Pheanstalk job itself, whose id is global. This makes no difference while ids are unique.
- Connector.Push: the backend's answer to a push is taken to be the new job's id.
- Connector.ReleaseJob: the ready jobs are taken to be first-in-first-out, so a job released without delay goes to the end. The beanstalkd server orders ready jobs by priority and then by id, and a released job keeps its id, so after push A, push B, pop A and release A the server hands out A again where the model hands out B. IronMQ's service-side treatment of priorities is not modelled either.
- Connector.Delays: only a positive integer delay holds a job back; a delay given as a numeric string or a boolean is not converted and counts as no delay.
- Worker.Work: the popped job's `execute` is a parameter; which runner it is does not matter to `work`.
- Worker.DriverClassName: `strtolower`, `ucfirst` and `trim` are modelled on ASCII letters only; locale-dependent case mapping is not modelled.
- Manager.Execute: `__construct` and other methods are not distinguished; only `execute` and `fail` are looked up.

## Findings

| source | as written | input that shows it | evidently intended | confidence | as-written member | corrected member |
|---|---|---|---|---|---|---|
| src/Job/AbstractJob.php:119-127 | the guard reads `config` from `$job`, which after `list(...)` is the class-name string, so `isset` is false and the handler's config is never merged | a handler declaring `config = ['delete' => true]` whose execute callback succeeds: it is not deleted | the resolved handler object's `config` merged over the defaults, as the other two runners do | high, not executed | ConnectorJob.AsWrittenDropsDeleteOnSuccess | ConnectorJob.Execute |
