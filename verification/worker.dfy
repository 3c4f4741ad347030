/** The worker: it takes a queue object as given or builds one from a driver
    name, and `work` executes what one pop yields when it is a job. Driver
    classes are looked up by the name built from the driver string; PHP's
    `strtolower`, `ucfirst` and `trim` are modelled on ASCII. */
module Worker {
  import opened Php

  predicate IsUpper(c: char) { 'A' <= c <= 'Z' }

  predicate IsLower(c: char) { 'a' <= c <= 'z' }

  function LowerChar(c: char): (r: char)
    ensures IsUpper(c) ==> IsLower(r)
    ensures !IsUpper(c) ==> r == c
  {
    if IsUpper(c) then (c as int - 'A' as int + 'a' as int) as char else c
  }

  function UpperChar(c: char): (r: char)
    ensures IsLower(c) ==> IsUpper(r)
    ensures !IsLower(c) ==> r == c
  {
    if IsLower(c) then (c as int - 'a' as int + 'A' as int) as char else c
  }

  /** `strtolower`. */
  function ToLower(s: string): (r: string)
    ensures |r| == |s|
    ensures forall i :: 0 <= i < |s| ==> r[i] == LowerChar(s[i])
  {
    seq(|s|, i requires 0 <= i < |s| => LowerChar(s[i]))
  }

  /** `ucfirst`. */
  function UcFirst(s: string): (r: string)
    ensures |r| == |s|
    ensures |s| > 0 ==> r[0] == UpperChar(s[0]) && r[1..] == s[1..]
  {
    if s == [] then s else [UpperChar(s[0])] + s[1..]
  }

  /** The characters `trim` strips by default: space, tab, newline, carriage
      return, NUL and vertical tab. */
  predicate IsTrimmed(c: char) {
    c == ' ' || c == '\t' || c == '\n' || c == '\r' || c == 0 as char || c == 11 as char
  }

  function TrimLeft(s: string): (r: string)
    ensures |r| <= |s| && r == s[|s| - |r|..]
    ensures forall i :: 0 <= i < |s| - |r| ==> IsTrimmed(s[i])
    ensures r == [] || !IsTrimmed(r[0])
  {
    if s != [] && IsTrimmed(s[0]) then TrimLeft(s[1..]) else s
  }

  function TrimRight(s: string): (r: string)
    ensures |r| <= |s| && r == s[..|r|]
    ensures forall i :: |r| <= i < |s| ==> IsTrimmed(s[i])
    ensures r == [] || !IsTrimmed(r[|r| - 1])
  {
    if s != [] && IsTrimmed(s[|s| - 1]) then TrimRight(s[..|s| - 1]) else s
  }

  /** `trim`: the longest stretch of `s` that neither starts nor ends with a
      stripped character, found by dropping such characters from both ends. */
  function Trim(s: string): (r: string)
    ensures r == [] || (!IsTrimmed(r[0]) && !IsTrimmed(r[|r| - 1]))
  {
    TrimRight(TrimLeft(s))
  }

  /** What `trim` keeps is a stretch of its input with only stripped
      characters around it. */
  lemma TrimIsInfix(s: string)
    ensures exists i, j ::
      && 0 <= i <= j <= |s| && Trim(s) == s[i..j]
      && (forall k :: 0 <= k < i ==> IsTrimmed(s[k]))
      && (forall k :: j <= k < |s| ==> IsTrimmed(s[k]))
  {
    var left := TrimLeft(s);
    var i := |s| - |left|;
    assert Trim(s) == s[i..i + |Trim(s)|];
  }

  const DriverPrefix := "Phresque\\Queue\\"
  const DriverSuffix := "Queue"

  /** The middle of the driver class name. */
  function DriverSegment(driver: string): string {
    Trim(UcFirst(ToLower(driver)))
  }

  /** `resolveQueue`'s class name for `driver`. A `null` driver reads as the
      empty string. */
  function DriverClassName(driver: string): (r: string)
    ensures |r| == |DriverPrefix| + |DriverSegment(driver)| + |DriverSuffix|
    ensures r[..|DriverPrefix|] == DriverPrefix && r[|r| - |DriverSuffix|..] == DriverSuffix
    ensures r[|DriverPrefix|..|r| - |DriverSuffix|] == DriverSegment(driver)
  {
    DriverPrefix + DriverSegment(driver) + DriverSuffix
  }

  /** Two driver strings that differ only in ASCII letter case. */
  predicate SameIgnoringCase(a: string, b: string) {
    |a| == |b| && forall i :: 0 <= i < |a| ==> LowerChar(a[i]) == LowerChar(b[i])
  }

  /** Driver names that differ only in letter case name the same class. */
  lemma CaseInsensitiveDriver(a: string, b: string)
    requires SameIgnoringCase(a, b)
    ensures DriverClassName(a) == DriverClassName(b)
  {
    assert ToLower(a) == ToLower(b);
  }

  /** `ucfirst` runs before `trim`: a driver with a leading space keeps its
      first letter in lower case, while the same driver without the space has
      it upper-cased. */
  lemma LeadingSpaceKeepsLowerCase(d: string)
    requires |d| > 0 && (IsLower(d[0]) || IsUpper(d[0]))
    ensures |DriverSegment(d)| > 0 && IsUpper(DriverSegment(d)[0])
    ensures |DriverSegment([' '] + d)| > 0 && IsLower(DriverSegment([' '] + d)[0])
    ensures DriverSegment([' '] + d)[0] == LowerChar(d[0]) && DriverSegment(d)[0] == UpperChar(LowerChar(d[0]))
  {
    SegmentHead(d);
    SpacedSegment(d);
    LowerHead(d);
  }

  lemma SegmentHead(d: string)
    requires |d| > 0 && (IsLower(d[0]) || IsUpper(d[0]))
    ensures |DriverSegment(d)| > 0 && DriverSegment(d)[0] == UpperChar(LowerChar(d[0]))
  {
    var u := UcFirst(ToLower(d));
    assert IsUpper(u[0]);
    TrimKeepsHead(u);
  }

  lemma LowerHead(d: string)
    requires |d| > 0 && (IsLower(d[0]) || IsUpper(d[0]))
    ensures |Trim(ToLower(d))| > 0 && Trim(ToLower(d))[0] == LowerChar(d[0])
  {
    var lower := ToLower(d);
    assert lower[0] == LowerChar(d[0]);
    TrimKeepsHead(lower);
  }

  /** With a leading space, `ucfirst` meets the space, and `trim` then
      removes it. */
  lemma SpacedSegment(d: string)
    ensures DriverSegment([' '] + d) == Trim(ToLower(d))
  {
    ToLowerSpaced(d);
    TrimSkipsSpace(ToLower(d));
  }

  /** A leading space survives `strtolower` and `ucfirst` unchanged. */
  lemma ToLowerSpaced(d: string)
    ensures UcFirst(ToLower([' '] + d)) == [' '] + ToLower(d)
  {
    var spaced := ToLower([' '] + d);
    assert spaced == [' '] + ToLower(d);
  }

  /** A string that starts with a kept character keeps it in front. */
  lemma TrimKeepsHead(s: string)
    requires |s| > 0 && !IsTrimmed(s[0])
    ensures |Trim(s)| > 0 && Trim(s)[0] == s[0]
  {
    assert TrimLeft(s) == s;
  }

  /** A leading space is stripped. */
  lemma TrimSkipsSpace(s: string)
    ensures Trim([' '] + s) == Trim(s)
  {
    assert ([' '] + s)[1..] == s;
  }

  /** The queue a worker works on. */
  datatype Queue<Q, C> =
    | Given(queue: Q)                                         // a queue object passed in
    | Built(driverClass: string, name: string, connector: C)  // `new $driver($queue, $connector)`

  /** The constructor's first argument: a queue object or a queue name. */
  datatype QueueArg<Q> = QueueObject(queue: Q) | QueueName(name: string)

  /** `new Worker($queue, $driver, $connector)`. */
  function NewWorker<Q, C>(arg: QueueArg<Q>, driver: string, connector: C): (w: Queue<Q, C>)
    ensures arg.QueueObject? ==> w == Given(arg.queue)
    ensures arg.QueueName? ==>
      && w.Built? && w.driverClass == DriverClassName(driver)
      && w.name == ToLower(arg.name) && w.connector == connector
  {
    match arg
    case QueueObject(q) => Given(q)
    case QueueName(name) => Built(DriverClassName(driver), ToLower(name), connector)
  }

  /** A queue name is taken case-insensitively. */
  lemma QueueNameCaseInsensitive<Q, C>(a: string, b: string, driver: string, connector: C)
    requires SameIgnoringCase(a, b)
    ensures NewWorker<Q, C>(QueueName(a), driver, connector) == NewWorker<Q, C>(QueueName(b), driver, connector)
  {
    assert ToLower(a) == ToLower(b);
  }

  /** What one pop yields: a job, or anything else. */
  datatype Popped<J> = AJob(job: J) | NotAJob

  /** `work`: the popped value is executed only when it is a job; the result
      is what its `execute` yields. */
  function Work<J, R>(popped: Popped<J>, execute: J -> R): (r: Option<R>)
    ensures r.Some? <==> popped.AJob?
    ensures popped.AJob? ==> r == Some(execute(popped.job))
  {
    match popped
    case AJob(j) => Some(execute(j))
    case NotAJob => None
  }
}
