/** The slice of PHP's value semantics the queue code relies on: loosely typed
    values, truthiness, strict identity with `true`/`false`, the `int <= mixed`
    comparison used for the retry budget, and the two ways of combining arrays
    (`array_merge` and `+`).

    Semantics follow PHP 5/7, the language versions the code was written for. */
module Php {

  /** A PHP value as far as the queue cares: scalars and string-keyed arrays. */
  datatype Value =
    | Null
    | Bool(b: bool)
    | Int(i: int)
    | Str(s: string)
    | Arr(m: map<string, Value>)

  /** A value that may be missing. */
  datatype Option<T> = None | Some(v: T)

  /** PHP's boolean conversion: `null`, `false`, `0`, `""`, `"0"` and the
      empty array are falsy; everything else is truthy. */
  predicate Truthy(v: Value) {
    match v
    case Null => false
    case Bool(b) => b
    case Int(i) => i != 0
    case Str(s) => s != "" && s != "0"
    case Arr(m) => |m| > 0
  }

  /** `$v === true` */
  predicate IsTrue(v: Value) {
    v == Bool(true)
  }

  /** `$v === false` */
  predicate IsFalse(v: Value) {
    v == Bool(false)
  }

  /** Reading `$array[$key]`: a missing key reads as `null`. */
  function Get(a: map<string, Value>, key: string): (v: Value)
    ensures key in a ==> v == a[key]
    ensures key !in a ==> v == Null
  {
    if key in a then a[key] else Null
  }

  predicate IsDigit(c: char) {
    '0' <= c <= '9'
  }

  /** Whitespace PHP skips before a number in a string. */
  predicate IsNumericSpace(c: char) {
    c == ' ' || c == '\t' || c == '\n' || c == '\r' || c == 11 as char || c == 12 as char
  }

  /** The value of the run of leading digits of `s` (0 when there is none). */
  function LeadingDigits(s: string, acc: nat): (n: nat)
    ensures n >= acc
  {
    if s != [] && IsDigit(s[0]) then LeadingDigits(s[1..], acc * 10 + (s[0] as int - '0' as int))
    else acc
  }

  /** The integer PHP reads from the front of a string when it compares the
      string with an integer: leading whitespace, an optional sign, then
      digits; a string with no such prefix reads as 0. */
  function LeadingInt(s: string): int
    decreases |s|
  {
    if s == [] then 0
    else if IsNumericSpace(s[0]) then LeadingInt(s[1..])
    else if s[0] == '-' then -(LeadingDigits(s[1..], 0) as int)
    else if s[0] == '+' then LeadingDigits(s[1..], 0)
    else LeadingDigits(s, 0)
  }

  /** `$n <= $v` for an integer `$n`. A `null` or boolean operand makes PHP
      compare both sides as booleans, a string is read as a number, and an
      array is greater than any integer. */
  predicate LooseLe(n: int, v: Value) {
    match v
    case Null => n == 0
    case Bool(b) => n == 0 || b
    case Int(i) => n <= i
    case Str(s) => n <= LeadingInt(s)
    case Arr(_) => true
  }

  /** An integer written in decimal, with a leading `-` when negative. */
  function DecimalString(d: int): (s: string)
    ensures |s| > 0
  {
    if d < 0 then "-" + Decimal(-d) else Decimal(d)
  }

  /** The decimal digits of `d`, most significant first. */
  function Decimal(d: nat): (s: string)
    ensures |s| > 0 && forall i :: 0 <= i < |s| ==> IsDigit(s[i])
  {
    if d < 10 then [('0' as int + d) as char] else Decimal(d / 10) + [('0' as int + d % 10) as char]
  }

  /** Reading a run of digits takes them one at a time. */
  lemma {:induction false} LeadingDigitsAppend(s: string, c: char, acc: nat)
    requires forall i :: 0 <= i < |s| ==> IsDigit(s[i])
    requires IsDigit(c)
    ensures LeadingDigits(s + [c], acc) == LeadingDigits(s, acc) * 10 + (c as int - '0' as int)
    decreases |s|
  {
    if s == [] {
      assert [] + [c] == [c] && [c][1..] == [];
    } else {
      assert (s + [c])[1..] == s[1..] + [c];
      LeadingDigitsAppend(s[1..], c, acc * 10 + (s[0] as int - '0' as int));
    }
  }

  /** The digits of `d` read back as `d`. */
  lemma {:induction false} ReadsDecimal(d: nat)
    ensures LeadingDigits(Decimal(d), 0) == d
    decreases d
  {
    if d < 10 {
      assert [('0' as int + d) as char][1..] == [];
    } else {
      ReadsDecimal(d / 10);
      LeadingDigitsAppend(Decimal(d / 10), ('0' as int + d % 10) as char, 0);
    }
  }

  /** An integer compared with a decimal string is compared with the number
      the string spells, so a retry budget given as `"3"` acts as `3`. */
  lemma LooseLeReadsDecimal(n: int, d: int)
    ensures LooseLe(n, Str(DecimalString(d))) <==> LooseLe(n, Int(d))
  {
    var s := DecimalString(d);
    if d < 0 {
      ReadsDecimal(-d);
      assert s[0] == '-' && s[1..] == Decimal(-d);
    } else {
      ReadsDecimal(d);
      assert IsDigit(s[0]);
    }
  }

  /** For reservation counts the comparison is monotone: once a count
      exceeds the budget, every later count does too. */
  lemma LooseLeMonotone(m: nat, n: nat, v: Value)
    requires m <= n && LooseLe(n, v)
    ensures LooseLe(m, v)
  {
  }

  /** `array_merge($base, $over)` on string-keyed arrays: every key of either
      array, the later array winning on a shared key. */
  function ArrayMerge(base: map<string, Value>, over: map<string, Value>): (r: map<string, Value>)
    ensures r.Keys == base.Keys + over.Keys
    ensures forall k :: k in over ==> r[k] == over[k]
    ensures forall k :: k in base && k !in over ==> r[k] == base[k]
  {
    base + over
  }

  /** `$left + $right` on arrays: every key of either array, the EARLIER array
      winning on a shared key. */
  function ArrayUnion(left: map<string, Value>, right: map<string, Value>): (r: map<string, Value>)
    ensures r.Keys == left.Keys + right.Keys
    ensures forall k :: k in left ==> r[k] == left[k]
    ensures forall k :: k in right && k !in left ==> r[k] == right[k]
  {
    map k | k in left.Keys + right.Keys :: if k in left then left[k] else right[k]
  }

  /** The two array combinations are mirror images of each other. */
  lemma UnionIsFlippedMerge(a: map<string, Value>, b: map<string, Value>)
    ensures ArrayUnion(a, b) == ArrayMerge(b, a)
  {
  }

  /** Merging the same overrides twice changes nothing more than merging once. */
  lemma MergeIdempotent(base: map<string, Value>, over: map<string, Value>)
    ensures ArrayMerge(ArrayMerge(base, over), over) == ArrayMerge(base, over)
  {
  }
}
