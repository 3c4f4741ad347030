/** The connector contract and its two implementations, the beanstalkd
    adapter and the IronMQ connector, over an abstract backend. A backend
    holds, per queue (a beanstalkd tube), the jobs in each state: ready,
    delayed, buried and reserved. Only the connectors' own decisions are
    modelled; what the backend does with a request is the simplest reading of
    the request. */
module Connector {
  import opened Php

  /** A job held by the backend. `reserves` counts its reservations. */
  datatype Job = Job(id: nat, body: Value, options: map<string, Value>, reserves: nat)

  datatype Tube = Tube(ready: seq<Job>, delayed: seq<Job>, buried: seq<Job>, reserved: seq<Job>)

  const EmptyTube := Tube([], [], [], [])

  datatype Backend = Backend(tubes: map<string, Tube>, nextId: nat, listening: bool)

  /** Which implementation of the contract. */
  datatype Kind = Beanstalkd | Iron

  /** A message to push: its payload and its own options. */
  datatype Message = Message(payload: Value, options: map<string, Value>)

  /** The manager `pop` returns: bound to its queue and the reserved job,
      whose reservation count is what `attempts()` reports. */
  datatype Handle = Handle(queue: string, id: nat, attempts: nat)

  datatype Error =
    | QueueEmpty(queue: string)   // nothing to reserve
    | ServerError                 // the backend rejected the request
    | Unsupported                 // the connector has no such operation

  /** The answer of a call: a value and the new backend, or an exception and
      the backend as it stands. */
  datatype Reply<T> = Done(value: T, state: Backend) | Failed(error: Error, state: Backend)

  /** The adapter's own options: Pheanstalk's default delay, time to run and
      priority. */
  const BeanstalkdOptions: map<string, Value> :=
    map["delay" := Int(0), "timeout" := Int(60), "priority" := Int(1024)]

  const DefaultPriority: Value := Int(1024)

  function TubeOf(b: Backend, q: string): Tube {
    if q in b.tubes then b.tubes[q] else EmptyTube
  }

  function WithTube(b: Backend, q: string, t: Tube): (r: Backend)
    ensures TubeOf(r, q) == t
    ensures forall p :: p != q ==> TubeOf(r, p) == TubeOf(b, p)
    ensures r.nextId == b.nextId && r.listening == b.listening
  {
    b.(tubes := b.tubes[q := t])
  }

  /** All jobs of a queue, in any state. */
  function Total(t: Tube): nat {
    |t.ready| + |t.delayed| + |t.buried| + |t.reserved|
  }

  predicate Holds(s: seq<Job>, id: nat) {
    exists i :: 0 <= i < |s| && s[i].id == id
  }

  /** A delay the backend honours by holding the job back. */
  predicate Delays(d: Value) {
    d.Int? && d.i > 0
  }

  /** `isConnected`: the beanstalkd adapter asks whether the service is
      listening; the IronMQ connector always answers `true`. */
  function IsConnected(k: Kind, b: Backend): (r: bool)
    ensures k.Iron? ==> r
    ensures k.Beanstalkd? ==> (r <==> b.listening)
  {
    match k
    case Beanstalkd => b.listening
    case Iron => true
  }

  /** The options a push hands to the backend. The beanstalkd adapter uses
      PHP's `+`, so its own delay, time to run and priority win over the
      message's; the IronMQ connector passes the message's options through. */
  function PushOptions(k: Kind, m: Message): (o: map<string, Value>)
    ensures k.Beanstalkd? ==> o.Keys == BeanstalkdOptions.Keys + m.options.Keys
    ensures k.Beanstalkd? ==> forall key :: key in BeanstalkdOptions ==> Get(o, key) == BeanstalkdOptions[key]
    ensures k.Beanstalkd? ==> forall key :: key in m.options && key !in BeanstalkdOptions ==> Get(o, key) == m.options[key]
    ensures k.Iron? ==> o == m.options
  {
    match k
    case Beanstalkd => ArrayUnion(BeanstalkdOptions, m.options)
    case Iron => m.options
  }

  /** `push`: a new job with a fresh id, held back when its delay is positive
      and otherwise ready at the end of the queue. */
  function Push(k: Kind, b: Backend, q: string, m: Message): (r: Reply<nat>)
    ensures r.Done? && r.value == b.nextId && r.state.nextId == b.nextId + 1
    ensures forall p :: p != q ==> TubeOf(r.state, p) == TubeOf(b, p)
    ensures var t := TubeOf(b, q); var j := Job(b.nextId, m.payload, PushOptions(k, m), 0);
      TubeOf(r.state, q) ==
        if Delays(Get(PushOptions(k, m), "delay")) then t.(delayed := t.delayed + [j]) else t.(ready := t.ready + [j])
    ensures Total(TubeOf(r.state, q)) == Total(TubeOf(b, q)) + 1
  {
    var opts := PushOptions(k, m);
    var j := Job(b.nextId, m.payload, opts, 0);
    var t := TubeOf(b, q);
    var t' := if Delays(Get(opts, "delay")) then t.(delayed := t.delayed + [j]) else t.(ready := t.ready + [j]);
    Done(b.nextId, WithTube(b, q, t').(nextId := b.nextId + 1))
  }

  /** The beanstalkd adapter's own zero delay always wins, so a push through
      it never holds a job back, whatever the message asks for. */
  lemma BeanstalkdPushIsReady(b: Backend, q: string, m: Message)
    ensures !Delays(Get(PushOptions(Beanstalkd, m), "delay"))
    ensures TubeOf(Push(Beanstalkd, b, q, m).state, q).ready ==
      TubeOf(b, q).ready + [Job(b.nextId, m.payload, PushOptions(Beanstalkd, m), 0)]
  {
  }

  /** IronMQ's `delayed(q, d, m)`: the message's `delay` option becomes `d`,
      its other options stay, and the message is pushed. */
  function IronDelayedMessage(d: Value, m: Message): (r: Message)
    ensures r.payload == m.payload
    ensures r.options.Keys == m.options.Keys + {"delay"} && r.options["delay"] == d
    ensures forall key :: key in m.options && key != "delay" ==> r.options[key] == m.options[key]
  {
    m.(options := m.options["delay" := d])
  }

  function IronDelayed(b: Backend, q: string, d: Value, m: Message): (r: Reply<nat>)
    ensures r.Done? && r.value == b.nextId && r.state.nextId == b.nextId + 1
    ensures forall p :: p != q ==> TubeOf(r.state, p) == TubeOf(b, p)
    ensures var t := TubeOf(b, q); var j := Job(b.nextId, m.payload, IronDelayedMessage(d, m).options, 0);
      TubeOf(r.state, q) == if Delays(d) then t.(delayed := t.delayed + [j]) else t.(ready := t.ready + [j])
  {
    Push(Iron, b, q, IronDelayedMessage(d, m))
  }

  /** `pop`: the first ready job is reserved and returned bound to the queue;
      with nothing ready, `QueueEmptyException(queue)` is raised. Waiting
      for a job is not modelled. */
  function Pop(k: Kind, b: Backend, q: string): (r: Reply<Handle>)
    ensures TubeOf(b, q).ready == [] <==> r == Failed(QueueEmpty(q), b)
    ensures r.Done? ==> var t := TubeOf(b, q); var j := t.ready[0].(reserves := t.ready[0].reserves + 1);
      && r.value == Handle(q, j.id, j.reserves)
      && TubeOf(r.state, q) == t.(ready := t.ready[1..], reserved := t.reserved + [j])
      && forall p :: p != q ==> TubeOf(r.state, p) == TubeOf(b, p)
    ensures Total(TubeOf(r.state, q)) == Total(TubeOf(b, q))
  {
    var t := TubeOf(b, q);
    if t.ready == [] then Failed(QueueEmpty(q), b)
    else
      var j := t.ready[0].(reserves := t.ready[0].reserves + 1);
      Done(Handle(q, j.id, j.reserves), WithTube(b, q, t.(ready := t.ready[1..], reserved := t.reserved + [j])))
  }

  /** `count`: the queue's ready jobs. The beanstalkd adapter reports the
      tube's `current-jobs-ready`; IronMQ's reported size is taken to be the
      same number. */
  function Count(k: Kind, b: Backend, q: string): (n: nat)
    ensures var t := TubeOf(b, q); n + |t.delayed| + |t.buried| + |t.reserved| == Total(t)
  {
    |TubeOf(b, q).ready|
  }

  /** A successful pop reserves one ready job, so the count drops by one. */
  lemma PopLowersCount(k: Kind, b: Backend, q: string)
    requires Pop(k, b, q).Done?
    ensures Count(k, Pop(k, b, q).state, q) + 1 == Count(k, b, q)
  {
  }

  /** A push the backend holds back does not change the count. */
  lemma DelayedPushKeepsCount(k: Kind, b: Backend, q: string, m: Message)
    requires Delays(Get(PushOptions(k, m), "delay"))
    ensures Count(k, Push(k, b, q, m).state, q) == Count(k, b, q)
  {
  }

  /** Burying moves a reserved job, so the count does not change. */
  lemma BuryKeepsCount(b: Backend, h: Handle)
    requires BuryJob(Beanstalkd, b, h).Done?
    ensures Count(Beanstalkd, BuryJob(Beanstalkd, b, h).state, h.queue) == Count(Beanstalkd, b, h.queue)
  {
  }

  /** A queue counts zero jobs exactly when a pop from it raises
      `QueueEmptyException`. */
  lemma CountZeroIffPopEmpty(k: Kind, b: Backend, q: string)
    ensures Count(k, b, q) == 0 <==> Pop(k, b, q) == Failed(QueueEmpty(q), b)
  {
  }

  /** `s` without the jobs with id `id`. */
  function Remove(s: seq<Job>, id: nat): (r: seq<Job>)
    ensures forall i :: 0 <= i < |r| ==> r[i].id != id && r[i] in s
    ensures |r| <= |s|
  {
    if s == [] then []
    else if s[0].id == id then Remove(s[1..], id)
    else [s[0]] + Remove(s[1..], id)
  }

  /** A removal shortens the sequence exactly when some job has the id. */
  lemma {:induction false} RemoveShrinks(s: seq<Job>, id: nat)
    ensures Holds(s, id) ==> |Remove(s, id)| < |s|
    ensures !Holds(s, id) ==> Remove(s, id) == s
    decreases |s|
  {
    if s != [] {
      var t := s[1..];
      RemoveShrinks(t, id);
      if Holds(s, id) && s[0].id != id {
        var i :| 0 <= i < |s| && s[i].id == id;
        assert t[i - 1] == s[i];
      }
    }
  }

  /** The first job decides the first step of a removal. */
  lemma RemoveCons(x: Job, t: seq<Job>, id: nat)
    ensures Remove([x] + t, id) == if x.id == id then Remove(t, id) else [x] + Remove(t, id)
  {
    assert ([x] + t)[0] == x && ([x] + t)[1..] == t;
  }

  /** A removal keeps every job with another id as often as it occurs. */
  lemma {:induction false} RemoveCounts(s: seq<Job>, id: nat, j: Job)
    requires j.id != id
    ensures multiset(Remove(s, id))[j] == multiset(s)[j]
    decreases |s|
  {
    if s != [] {
      var t := s[1..];
      assert s == [s[0]] + t;
      RemoveCons(s[0], t, id);
      RemoveCounts(t, id, j);
    }
  }

  /** Removing from two stretches one after the other is removing from
      their concatenation: the jobs that stay keep their order. */
  lemma {:induction false} RemoveConcat(a: seq<Job>, c: seq<Job>, id: nat)
    ensures Remove(a + c, id) == Remove(a, id) + Remove(c, id)
    decreases |a|
  {
    if a == [] {
      assert a + c == c;
    } else {
      assert (a + c)[0] == a[0];
      assert (a + c)[1..] == a[1..] + c;
      RemoveConcat(a[1..], c, id);
    }
  }

  /** `delete`: the job goes, in whatever state it is; the answer is `true`.
      Deleting a job the backend does not hold is rejected by the server. */
  function DeleteJob(k: Kind, b: Backend, h: Handle): (r: Reply<bool>)
    ensures var t := TubeOf(b, h.queue);
      !(Holds(t.ready, h.id) || Holds(t.delayed, h.id) || Holds(t.buried, h.id) || Holds(t.reserved, h.id))
      <==> r == Failed(ServerError, b)
    ensures r.Done? ==> r.value && Total(TubeOf(r.state, h.queue)) < Total(TubeOf(b, h.queue))
    ensures r.Done? ==> var t := TubeOf(r.state, h.queue);
      !Holds(t.ready, h.id) && !Holds(t.delayed, h.id) && !Holds(t.buried, h.id) && !Holds(t.reserved, h.id)
    ensures r.Done? ==> var before := TubeOf(b, h.queue); var after := TubeOf(r.state, h.queue);
      after == Tube(Remove(before.ready, h.id), Remove(before.delayed, h.id),
                    Remove(before.buried, h.id), Remove(before.reserved, h.id))
    ensures forall p :: p != h.queue ==> TubeOf(r.state, p) == TubeOf(b, p)
    ensures r.state.nextId == b.nextId
  {
    var t := TubeOf(b, h.queue);
    if !(Holds(t.ready, h.id) || Holds(t.delayed, h.id) || Holds(t.buried, h.id) || Holds(t.reserved, h.id)) then
      Failed(ServerError, b)
    else
      RemoveShrinks(t.ready, h.id);
      RemoveShrinks(t.delayed, h.id);
      RemoveShrinks(t.buried, h.id);
      RemoveShrinks(t.reserved, h.id);
      Done(true, WithTube(b, h.queue, Tube(Remove(t.ready, h.id), Remove(t.delayed, h.id),
                                           Remove(t.buried, h.id), Remove(t.reserved, h.id))))
  }

  /** Position of the first job with id `id`, if any. */
  function IndexOf(s: seq<Job>, id: nat): (i: Option<nat>)
    ensures i.Some? ==> i.v < |s| && s[i.v].id == id
    ensures i.Some? ==> forall k :: 0 <= k < i.v ==> s[k].id != id
    ensures i.None? <==> !Holds(s, id)
  {
    if s == [] then None
    else if s[0].id == id then Some(0)
    else match IndexOf(s[1..], id)
      case None => None
      case Some(n) => Some(n + 1)
  }

  /** `release(manager, delay)`: the reserved job returns to the queue, held
      back for `delay` seconds when that is positive (0 means no delay); the
      beanstalkd adapter also sets Pheanstalk's default priority. The answer
      is `true`; a job not reserved is rejected by the server. */
  function ReleaseJob(k: Kind, b: Backend, h: Handle, delay: Value): (r: Reply<bool>)
    ensures !Holds(TubeOf(b, h.queue).reserved, h.id) <==> r == Failed(ServerError, b)
    ensures r.Done? ==> r.value && Total(TubeOf(r.state, h.queue)) == Total(TubeOf(b, h.queue))
    ensures r.Done? ==> var before := TubeOf(b, h.queue); var after := TubeOf(r.state, h.queue);
      var i := IndexOf(before.reserved, h.id).v;
      && after.reserved == before.reserved[..i] + before.reserved[i + 1..]
      && after.buried == before.buried
      && (Delays(delay) ==> after.ready == before.ready && |after.delayed| == |before.delayed| + 1
                            && after.delayed[..|before.delayed|] == before.delayed)
      && (!Delays(delay) ==> after.delayed == before.delayed && |after.ready| == |before.ready| + 1
                             && after.ready[..|before.ready|] == before.ready)
    ensures r.Done? ==> var before := TubeOf(b, h.queue); var after := TubeOf(r.state, h.queue);
      var moved := before.reserved[IndexOf(before.reserved, h.id).v];
      var back := if Delays(delay) then after.delayed else after.ready;
      && back[|back| - 1].id == h.id
      && back[|back| - 1].body == moved.body && back[|back| - 1].reserves == moved.reserves
      && Get(back[|back| - 1].options, "delay") == delay
      && (k.Beanstalkd? ==> Get(back[|back| - 1].options, "priority") == DefaultPriority)
      && (forall key :: key in moved.options && key != "delay" && (k.Iron? || key != "priority") ==>
            Get(back[|back| - 1].options, key) == moved.options[key])
    ensures forall p :: p != h.queue ==> TubeOf(r.state, p) == TubeOf(b, p)
    ensures r.state.nextId == b.nextId
  {
    var t := TubeOf(b, h.queue);
    match IndexOf(t.reserved, h.id)
    case None => Failed(ServerError, b)
    case Some(i) =>
      var j := t.reserved[i];
      var j' := match k
        case Beanstalkd => j.(options := j.options["priority" := DefaultPriority]["delay" := delay])
        case Iron => j.(options := j.options["delay" := delay]);
      var rest := t.reserved[..i] + t.reserved[i + 1..];
      var t' := if Delays(delay) then t.(delayed := t.delayed + [j'], reserved := rest)
                else t.(ready := t.ready + [j'], reserved := rest);
      Done(true, WithTube(b, h.queue, t'))
  }

  /** `bury`: the beanstalkd adapter moves the reserved job to the buried
      state and answers `true`; the IronMQ connector has no bury. */
  function BuryJob(k: Kind, b: Backend, h: Handle): (r: Reply<bool>)
    ensures k.Iron? ==> r == Failed(Unsupported, b)
    ensures k.Beanstalkd? ==> (!Holds(TubeOf(b, h.queue).reserved, h.id) <==> r == Failed(ServerError, b))
    ensures r.Done? ==> r.value && Total(TubeOf(r.state, h.queue)) == Total(TubeOf(b, h.queue))
    ensures r.Done? ==> var before := TubeOf(b, h.queue); var after := TubeOf(r.state, h.queue);
      var i := IndexOf(before.reserved, h.id).v;
      && after.ready == before.ready && after.delayed == before.delayed
      && after.reserved == before.reserved[..i] + before.reserved[i + 1..]
      && after.buried == before.buried + [before.reserved[i]]
      && after.buried[|before.buried|].id == h.id
    ensures forall p :: p != h.queue ==> TubeOf(r.state, p) == TubeOf(b, p)
    ensures r.state.nextId == b.nextId
  {
    match k
    case Iron => Failed(Unsupported, b)
    case Beanstalkd =>
      var t := TubeOf(b, h.queue);
      match IndexOf(t.reserved, h.id)
      case None => Failed(ServerError, b)
      case Some(i) =>
        Done(true, WithTube(b, h.queue, t.(buried := t.buried + [t.reserved[i]],
                                           reserved := t.reserved[..i] + t.reserved[i + 1..])))
  }

  /** Every job of a queue, whatever its state. */
  function AllJobs(t: Tube): multiset<Job> {
    multiset(t.ready) + multiset(t.delayed) + multiset(t.buried) + multiset(t.reserved)
  }

  /** Deleting a job the queue holds touches only the jobs with the
      handle's id: every other job stays, in the state it was in. */
  lemma DeleteKeepsOtherJobs(k: Kind, b: Backend, h: Handle, j: Job)
    requires var t := TubeOf(b, h.queue);
      Holds(t.ready, h.id) || Holds(t.delayed, h.id) || Holds(t.buried, h.id) || Holds(t.reserved, h.id)
    requires j.id != h.id
    ensures var before := TubeOf(b, h.queue); var after := TubeOf(DeleteJob(k, b, h).state, h.queue);
      && multiset(after.ready)[j] == multiset(before.ready)[j]
      && multiset(after.delayed)[j] == multiset(before.delayed)[j]
      && multiset(after.buried)[j] == multiset(before.buried)[j]
      && multiset(after.reserved)[j] == multiset(before.reserved)[j]
  {
    var before := TubeOf(b, h.queue);
    RemoveCounts(before.ready, h.id, j);
    RemoveCounts(before.delayed, h.id, j);
    RemoveCounts(before.buried, h.id, j);
    RemoveCounts(before.reserved, h.id, j);
  }

  /** A bury neither loses nor duplicates a job: the queue holds the same
      jobs, one of them moved from reserved to buried. */
  lemma BuryKeepsJobs(b: Backend, h: Handle)
    requires BuryJob(Beanstalkd, b, h).Done?
    ensures AllJobs(TubeOf(BuryJob(Beanstalkd, b, h).state, h.queue)) == AllJobs(TubeOf(b, h.queue))
  {
    var before := TubeOf(b, h.queue);
    var after := TubeOf(BuryJob(Beanstalkd, b, h).state, h.queue);
    var i := IndexOf(before.reserved, h.id).v;
    TakeOut(before.reserved, i);
    assert multiset(after.buried) == multiset(before.buried) + multiset{before.reserved[i]};
  }

  /** Taking one element out of a sequence and keeping it aside loses
      nothing. */
  lemma TakeOut(s: seq<Job>, i: nat)
    requires i < |s|
    ensures multiset(s[..i] + s[i + 1..]) + multiset{s[i]} == multiset(s)
  {
    assert s == s[..i] + [s[i]] + s[i + 1..];
  }

  /** Where each of the beanstalkd adapter's three drains meets a server
      error: after that many deletions, or never. */
  datatype ClearFaults = ClearFaults(ready: Option<nat>, buried: Option<nat>, delayed: Option<nat>)

  const NoFaults := ClearFaults(None, None, None)

  /** What a drain leaves: nothing, or what remains when the server error
      stops it. */
  function Drained(s: seq<Job>, fault: Option<nat>): (r: seq<Job>)
    ensures fault.None? ==> r == []
    ensures fault.Some? && fault.v >= |s| ==> r == []
    ensures fault.Some? && fault.v < |s| ==> r == s[fault.v..] && |r| > 0
  {
    match fault
    case None => []
    case Some(n) => if n < |s| then s[n..] else []
  }

  /** The queue after `clear`. The beanstalkd adapter drains ready, buried
      and delayed jobs and leaves reserved ones alone; IronMQ clears the
      whole queue. */
  function Cleared(k: Kind, t: Tube, f: ClearFaults): (r: Tube)
    ensures k.Beanstalkd? ==> r.reserved == t.reserved
    ensures k.Beanstalkd? && f == NoFaults ==> r == Tube([], [], [], t.reserved)
    ensures k.Iron? ==> r == EmptyTube
    ensures |r.ready| <= |t.ready| && |r.buried| <= |t.buried| && |r.delayed| <= |t.delayed|
  {
    match k
    case Beanstalkd => Tube(Drained(t.ready, f.ready), Drained(t.delayed, f.delayed), Drained(t.buried, f.buried), t.reserved)
    case Iron => EmptyTube
  }

  /** One of `doClear`'s loops: peek at a job in the state, delete it, until
      the state is empty or the server raises an error, which is swallowed. */
  method Drain(s: seq<Job>, fault: Option<nat>) returns (rest: seq<Job>)
    ensures rest == Drained(s, fault)
  {
    rest := s;
    var deleted := 0;
    while rest != [] && (fault.None? || deleted < fault.v)
      invariant 0 <= deleted <= |s| && rest == s[deleted..]
      invariant fault.Some? ==> deleted <= fault.v
      decreases |rest|
    {
      rest := rest[1..];
      deleted := deleted + 1;
    }
  }

  /** `clear`: always answers `true`; only the cleared queue changes. */
  method Clear(k: Kind, b: Backend, q: string, f: ClearFaults) returns (ok: bool, after: Backend)
    ensures ok
    ensures TubeOf(after, q) == Cleared(k, TubeOf(b, q), f)
    ensures forall p :: p != q ==> TubeOf(after, p) == TubeOf(b, p)
    ensures after.nextId == b.nextId
    ensures f == NoFaults ==> Count(k, after, q) == 0
  {
    var t := TubeOf(b, q);
    if k.Iron? {
      after := WithTube(b, q, EmptyTube);
    } else {
      var ready := Drain(t.ready, f.ready);
      var buried := Drain(t.buried, f.buried);
      var delayed := Drain(t.delayed, f.delayed);
      after := WithTube(b, q, Tube(ready, delayed, buried, t.reserved));
    }
    ok := true;
  }

  /** Pushes `ms` in order. */
  function PushAll(k: Kind, b: Backend, q: string, ms: seq<Message>): Backend
    decreases |ms|
  {
    if ms == [] then b else PushAll(k, Push(k, b, q, ms[0]).state, q, ms[1..])
  }

  /** Each push of a message that asks for no delay adds one ready job. */
  lemma {:induction false} PushAllCount(k: Kind, b: Backend, q: string, ms: seq<Message>)
    requires forall i :: 0 <= i < |ms| ==> !Delays(Get(PushOptions(k, ms[i]), "delay"))
    ensures Count(k, PushAll(k, b, q, ms), q) == Count(k, b, q) + |ms|
    decreases |ms|
  {
    if ms != [] {
      var b1 := Push(k, b, q, ms[0]).state;
      assert forall i :: 0 <= i < |ms[1..]| ==> ms[1..][i] == ms[i + 1];
      PushAllCount(k, b1, q, ms[1..]);
    }
  }

  /** After a clear that meets no error, pushing n undelayed messages leaves a
      count of n; through the beanstalkd adapter every message is undelayed. */
  lemma ClearThenPushCount(k: Kind, b: Backend, q: string, ms: seq<Message>)
    requires k.Beanstalkd? || forall i :: 0 <= i < |ms| ==> !Delays(Get(ms[i].options, "delay"))
    ensures Count(k, PushAll(k, WithTube(b, q, Cleared(k, TubeOf(b, q), NoFaults)), q, ms), q) == |ms|
  {
    var cleared := WithTube(b, q, Cleared(k, TubeOf(b, q), NoFaults));
    AllUndelayed(k, ms);
    PushAllCount(k, cleared, q, ms);
  }

  /** Messages that ask for no delay stay undelayed through either
      connector. */
  lemma AllUndelayed(k: Kind, ms: seq<Message>)
    requires k.Beanstalkd? || forall i :: 0 <= i < |ms| ==> !Delays(Get(ms[i].options, "delay"))
    ensures forall i :: 0 <= i < |ms| ==> !Delays(Get(PushOptions(k, ms[i]), "delay"))
  {
    forall i | 0 <= i < |ms|
      ensures !Delays(Get(PushOptions(k, ms[i]), "delay"))
    {
      if k.Beanstalkd? {
        assert Get(PushOptions(k, ms[i]), "delay") == Int(0);
      }
    }
  }

  /** A job pushed onto a queue with nothing ready is the next one popped,
      and its manager reports its first attempt. */
  lemma PushThenPop(k: Kind, b: Backend, q: string, m: Message)
    requires TubeOf(b, q).ready == [] && !Delays(Get(PushOptions(k, m), "delay"))
    ensures var pushed := Push(k, b, q, m);
      Pop(k, pushed.state, q).Done? && Pop(k, pushed.state, q).value == Handle(q, pushed.value, 1)
  {
  }

  /** A job released without delay onto an otherwise empty queue is popped
      again with one more attempt. */
  lemma ReleaseThenPop(k: Kind, b: Backend, h: Handle, reserves: nat)
    requires TubeOf(b, h.queue).ready == []
    requires exists j :: j in TubeOf(b, h.queue).reserved && j.id == h.id && j.reserves == reserves
    requires forall j :: j in TubeOf(b, h.queue).reserved && j.id == h.id ==> j.reserves == reserves
    ensures var released := ReleaseJob(k, b, h, Int(0));
      && released.Done?
      && Pop(k, released.state, h.queue).Done?
      && Pop(k, released.state, h.queue).value == Handle(h.queue, h.id, reserves + 1)
  {
    var t := TubeOf(b, h.queue);
    var j :| j in t.reserved && j.id == h.id && j.reserves == reserves;
    assert Holds(t.reserved, h.id) by {
      var i :| 0 <= i < |t.reserved| && t.reserved[i] == j;
    }
    var i := IndexOf(t.reserved, h.id).v;
    assert t.reserved[i] in t.reserved;
  }
}
