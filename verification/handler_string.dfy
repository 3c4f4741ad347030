/** The handler identifier `Class@execute:failure` and how the runners take it
    apart: `preg_split('/[:@]/', ...)` followed by an array union with the
    defaults for the positions the split did not produce. */
module HandlerString {

  predicate IsSep(c: char) {
    c == ':' || c == '@'
  }

  predicate SepFree(s: string) {
    forall i :: 0 <= i < |s| ==> !IsSep(s[i])
  }

  /** `preg_split('/[:@]/', s)`: the pieces between separators, empty pieces
      included; there is always at least one. */
  function Split(s: string): (parts: seq<string>)
    ensures |parts| >= 1
  {
    if s == [] then [""]
    else
      var rest := Split(s[1..]);
      if IsSep(s[0]) then [""] + rest else [[s[0]] + rest[0]] + rest[1..]
  }

  /** The pieces joined back with `:` between them. */
  function Join(parts: seq<string>): string
  {
    if parts == [] then "" else if |parts| == 1 then parts[0] else parts[0] + ":" + Join(parts[1..])
  }

  /** `s` with every `@` written as `:`. */
  function Normalize(s: string): (r: string)
    ensures |r| == |s|
    ensures forall i :: 0 <= i < |s| ==> r[i] == if s[i] == '@' then ':' else s[i]
  {
    if s == [] then "" else [if s[0] == '@' then ':' else s[0]] + Normalize(s[1..])
  }

  function CountSeps(s: string): nat
  {
    if s == [] then 0 else (if IsSep(s[0]) then 1 else 0) + CountSeps(s[1..])
  }

  /** No piece contains a separator. */
  lemma {:induction false} SplitPiecesSepFree(s: string)
    ensures forall j :: 0 <= j < |Split(s)| ==> SepFree(Split(s)[j])
  {
    if s != [] {
      SplitPiecesSepFree(s[1..]);
      var rest := Split(s[1..]);
      if !IsSep(s[0]) {
        assert SepFree([s[0]] + rest[0]) by {
          assert SepFree(rest[0]);
        }
      }
    }
  }

  /** There is one piece more than there are separators. */
  lemma {:induction false} SplitCount(s: string)
    ensures |Split(s)| == CountSeps(s) + 1
  {
    if s != [] {
      SplitCount(s[1..]);
    }
  }

  /** Joining the pieces with `:` gives back the input, up to which of the
      two separators was used: nothing but the separators is lost. */
  lemma {:induction false} SplitJoin(s: string)
    ensures Join(Split(s)) == Normalize(s)
  {
    if s != [] {
      SplitJoin(s[1..]);
      var rest := Split(s[1..]);
      if IsSep(s[0]) {
        assert Split(s) == [""] + rest;
        assert Join(Split(s)) == "" + ":" + Join(rest);
      } else {
        var p := [s[0]] + rest[0];
        if |rest| == 1 {
          assert Split(s) == [p];
        } else {
          assert Split(s) == [p] + rest[1..];
          assert Join(Split(s)) == p + ":" + Join(rest[1..]);
          assert Join(rest) == rest[0] + ":" + Join(rest[1..]);
        }
      }
    }
  }

  /** A separator-free string is a single piece. */
  lemma {:induction false} SplitSepFree(s: string)
    requires SepFree(s)
    ensures Split(s) == [s]
  {
    if s != [] {
      assert SepFree(s[1..]) by {
        forall i | 0 <= i < |s[1..]| ensures !IsSep(s[1..][i]) {
          assert s[1..][i] == s[i + 1];
        }
      }
      SplitSepFree(s[1..]);
      assert !IsSep(s[0]);
      assert [s[0]] + s[1..] == s;
    }
  }

  /** A separator-free prefix followed by a separator is the first piece, and
      the rest is split on its own. */
  lemma {:induction false} SplitAfterFirst(a: string, c: char, b: string)
    requires SepFree(a) && IsSep(c)
    ensures Split(a + [c] + b) == [a] + Split(b)
  {
    if a == [] {
      assert a + [c] + b == [c] + b;
      assert ([c] + b)[1..] == b;
    } else {
      assert (a + [c] + b)[1..] == a[1..] + [c] + b;
      SplitAfterFirst(a[1..], c, b);
      assert [a[0]] + a[1..] == a;
    }
  }

  /** The first piece is the text before the first separator. */
  lemma {:induction false} SplitHead(s: string)
    ensures Split(s)[0] <= s
    ensures SepFree(Split(s)[0])
    ensures |Split(s)[0]| < |s| ==> IsSep(s[|Split(s)[0]|])
    ensures |Split(s)| == 1 <==> SepFree(s)
  {
    SplitPiecesSepFree(s);
    if s != [] {
      SplitHead(s[1..]);
      if !IsSep(s[0]) {
        assert SepFree(s) <==> SepFree(s[1..]) by {
          if SepFree(s[1..]) {
            forall i | 0 <= i < |s| ensures !IsSep(s[i]) {
              if i > 0 { assert s[i] == s[1..][i - 1]; }
            }
          }
        }
      } else {
        assert !SepFree(s) by { assert IsSep(s[0]); }
      }
    }
  }

  /** After the first separator, the second piece is the text up to the next
      separator, and it is the last piece when no separator follows. */
  lemma SplitSecond(s: string)
    ensures !SepFree(s) ==> |Split(s)| > 1 && var k := |Split(s)[0]|;
      k < |s| && Split(s)[1] <= s[k + 1..] && SepFree(Split(s)[1])
      && (k + 1 + |Split(s)[1]| < |s| ==> IsSep(s[k + 1 + |Split(s)[1]|]))
      && (k + 1 + |Split(s)[1]| == |s| ==> |Split(s)| == 2)
  {
    SplitHead(s);
    if SepFree(s) { return; }
    var k := |Split(s)[0]|;
    var rest := s[k + 1..];
    assert s == Split(s)[0] + [s[k]] + rest;
    SplitAfterFirst(Split(s)[0], s[k], rest);
    SplitHead(rest);
    if k + 1 + |Split(s)[1]| == |s| {
      assert Split(rest)[0] == rest;
      assert SepFree(rest);
      SplitSepFree(rest);
    }
  }

  /** The three names a handler identifier stands for. */
  datatype HandlerRef = HandlerRef(cls: string, exec: string, fail: string)

  /** `preg_split` followed by `+ [$cls, $exec, $fail]` and `list(...)`:
      position, not the separator, decides the role, missing positions take
      the defaults, and pieces after the third are ignored. Position 0 always
      exists, so its default is never used. */
  function ParseJob(s: string, dExec: string, dFail: string): (r: HandlerRef)
    ensures r.cls <= s && SepFree(r.cls)
    ensures |r.cls| < |s| ==> IsSep(s[|r.cls|])
    ensures SepFree(s) ==> r == HandlerRef(s, dExec, dFail)
    ensures !SepFree(s) ==> |r.cls| < |s| && r.exec <= s[|r.cls| + 1..] && SepFree(r.exec)
    ensures !SepFree(s) && |r.cls| + 1 + |r.exec| < |s| ==> IsSep(s[|r.cls| + 1 + |r.exec|])
    ensures !SepFree(s) && |r.cls| + 1 + |r.exec| == |s| ==> r.fail == dFail
  {
    var parts := Split(s);
    SplitHead(s);
    SplitSecond(s);
    HandlerRef(
      parts[0],
      if |parts| > 1 then parts[1] else dExec,
      if |parts| > 2 then parts[2] else dFail)
  }

  /** `"Class@exec:fail"` with any mix of the two separators, and any further
      pieces, names class, execute and failure callback by position. */
  lemma ParseThree(c: string, x: char, e: string, y: char, f: string, extra: string, dExec: string, dFail: string)
    requires SepFree(c) && SepFree(e) && SepFree(f) && IsSep(x) && IsSep(y)
    requires extra == [] || IsSep(extra[0])
    ensures ParseJob(c + [x] + e + [y] + f + extra, dExec, dFail) == HandlerRef(c, e, f)
  {
    var tail := f + extra;
    var mid := e + [y] + tail;
    var s := c + [x] + e + [y] + f + extra;
    assert s == c + [x] + mid;
    SplitAfterFirst(c, x, mid);
    SplitAfterFirst(e, y, tail);
    assert Split(tail)[0] == f by {
      if extra == [] {
        assert tail == f;
        SplitSepFree(f);
      } else {
        assert tail == f + [extra[0]] + extra[1..];
        SplitAfterFirst(f, extra[0], extra[1..]);
      }
    }
    var parts := Split(s);
    assert parts == [c] + ([e] + Split(tail));
    assert parts[0] == c && parts[1] == e && parts[2] == f;
  }

  /** With one separator the second piece is the execute callback, whichever
      separator it was (`"Foo:bar"` executes `bar`); the failure callback keeps
      its default. */
  lemma ParseTwo(c: string, x: char, e: string, dExec: string, dFail: string)
    requires SepFree(c) && SepFree(e) && IsSep(x)
    ensures ParseJob(c + [x] + e, dExec, dFail) == HandlerRef(c, e, dFail)
  {
    SplitAfterFirst(c, x, e);
    SplitSepFree(e);
  }
}
