/** Python's exceptions, and the few `str` and `int` builtins the scraper relies on,
    written out so that their edge cases (negative slice bounds, `rfind` returning -1,
    non-overlapping `replace`) are part of the model. */
module Python {

  /** The exceptions the modelled code can raise. */
  datatype Exception =
    | ValueError
    | KeyError
    | IndexError
    | TypeError
    | AttributeError
    | UnboundLocalError

  /** The outcome of a Python expression: a value, or a raised exception. */
  datatype Result<+T> = Ok(value: T) | Raise(error: Exception) {
    predicate IsFailure() { Raise? }

    function PropagateFailure<U>(): Result<U>
      requires Raise?
    {
      Raise(error)
    }

    function Extract(): T
      requires Ok?
    {
      value
    }
  }

  datatype Option<+T> = None | Some(value: T)

  /** `sep.join(parts)` */
  function Join(parts: seq<string>, sep: string): (r: string)
    ensures parts == [] ==> r == ""
    ensures |parts| > 0 ==> |r| >= |parts[0]| + (|parts| - 1) * |sep|
  {
    if |parts| == 0 then ""
    else if |parts| == 1 then parts[0]
    else parts[0] + sep + Join(parts[1..], sep)
  }

  /** `s.split(sep)` for a one-character separator: the pieces between separators,
      empty pieces included, so that joining them back gives `s`. */
  function Split(s: string, sep: char): (parts: seq<string>)
    ensures |parts| >= 1
    ensures forall i :: 0 <= i < |parts| ==> sep !in parts[i]
    ensures Join(parts, [sep]) == s
  {
    if s == [] then [""]
    else
      var rest := Split(s[1..], sep);
      if s[0] == sep then
        assert s == [sep] + s[1..];
        [""] + rest
      else
        assert s == [s[0]] + s[1..];
        [[s[0]] + rest[0]] + rest[1..]
  }

  /** A string without the separator splits into itself alone. */
  lemma {:induction false} SplitWithoutSeparator(s: string, sep: char)
    requires sep !in s
    ensures Split(s, sep) == [s]
  {
    if s != [] {
      SplitWithoutSeparator(s[1..], sep);
      assert [s[0]] + s[1..] == s;
    }
  }

  /** Splitting cuts at the first separator: the piece before it comes first. */
  lemma {:induction false} SplitAtFirstSeparator(a: string, sep: char, b: string)
    requires sep !in a
    ensures Split(a + [sep] + b, sep) == [a] + Split(b, sep)
  {
    var s := a + [sep] + b;
    if a == [] {
      assert s[1..] == b;
    } else {
      assert s[1..] == a[1..] + [sep] + b;
      SplitAtFirstSeparator(a[1..], sep, b);
      assert [a[0]] + a[1..] == a;
    }
  }

  /** Splitting undoes joining, as long as no piece holds the separator. */
  lemma {:induction false} SplitJoin(parts: seq<string>, sep: char)
    requires |parts| >= 1
    requires forall i :: 0 <= i < |parts| ==> sep !in parts[i]
    ensures Split(Join(parts, [sep]), sep) == parts
  {
    if |parts| == 1 {
      SplitWithoutSeparator(parts[0], sep);
    } else {
      SplitJoin(parts[1..], sep);
      SplitAtFirstSeparator(parts[0], sep, Join(parts[1..], [sep]));
      assert parts[0] + [sep] + Join(parts[1..], [sep]) == Join(parts, [sep]);
      assert [parts[0]] + parts[1..] == parts;
    }
  }

  predicate IsDigit(c: char) { '0' <= c <= '9' }

  predicate AllDigits(s: string) { forall i :: 0 <= i < |s| ==> IsDigit(s[i]) }

  /** The value of a string of decimal digits (leading zeros allowed). */
  function DigitsValue(s: string): nat
    requires AllDigits(s)
  {
    if s == [] then 0 else DigitsValue(s[..|s| - 1]) * 10 + (s[|s| - 1] as int - '0' as int)
  }

  /** `int(s)` on a string: an optional sign and at least one decimal digit; anything
      else raises ValueError. */
  function IntOfString(s: string): (r: Result<int>)
    ensures r.Raise? ==> r.error == ValueError
    ensures r.Ok? ==> |s| >= 1
  {
    var signed := |s| > 0 && (s[0] == '-' || s[0] == '+');
    var digits := if signed then s[1..] else s;
    if |digits| > 0 && AllDigits(digits) then
      Ok(if signed && s[0] == '-' then 0 - DigitsValue(digits) else DigitsValue(digits) as int)
    else
      Raise(ValueError)
  }

  /** The decimal digits of a natural number, without leading zeros. */
  function DigitsOf(n: nat): (s: string)
    ensures |s| >= 1 && AllDigits(s)
    ensures DigitsValue(s) == n
    ensures |s| > 1 ==> s[0] != '0'
  {
    if n < 10 then [('0' as int + n) as char]
    else
      var s := DigitsOf(n / 10) + [('0' as int + n % 10) as char];
      assert s[..|s| - 1] == DigitsOf(n / 10);
      s
  }

  /** `str(n)` for an integer. */
  function StrOfInt(n: int): (s: string)
    ensures |s| >= 1
    ensures forall i :: 0 <= i < |s| ==> IsDigit(s[i]) || s[i] == '-'
  {
    if n < 0 then "-" + DigitsOf(-n) else DigitsOf(n)
  }

  /** `int(str(n)) == n`. */
  lemma IntOfStrOfInt(n: int)
    ensures IntOfString(StrOfInt(n)) == Ok(n)
  {
    var s := StrOfInt(n);
    if n < 0 {
      assert s[1..] == DigitsOf(-n);
    } else {
      assert !IsDigit('-');
      assert s[0] != '-' && s[0] != '+';
    }
  }

  /** `s[:stop]`: a negative stop counts from the end; out-of-range stops are clamped. */
  function SliceTo(s: string, stop: int): (r: string)
    ensures |r| <= |s| && r == s[..|r|]
    ensures 0 <= stop <= |s| ==> |r| == stop
    ensures -|s| <= stop < 0 ==> |r| == |s| + stop
  {
    if stop >= 0 then s[..if stop < |s| then stop else |s|]
    else s[..if |s| + stop > 0 then |s| + stop else 0]
  }

  /** `s.rfind(c)` for one character: its last index, or -1 when it does not occur. */
  function RFind(s: string, c: char): (r: int)
    ensures -1 <= r < |s|
    ensures r == -1 <==> c !in s
    ensures r >= 0 ==> s[r] == c && c !in s[r + 1..]
  {
    if s == [] then -1
    else if s[|s| - 1] == c then |s| - 1
    else
      var r := RFind(s[..|s| - 1], c);
      assert s == s[..|s| - 1] + [s[|s| - 1]];
      assert r >= 0 ==> s[r + 1..] == s[..|s| - 1][r + 1..] + [s[|s| - 1]];
      r
  }

  /** Does `pattern` occur in `s` at position `i`? */
  predicate OccursAt(s: string, pattern: string, i: nat)
  {
    i + |pattern| <= |s| && s[i..i + |pattern|] == pattern
  }

  /** `s.replace(pat, rep)` for a non-empty `pat`: every occurrence found scanning
      from the left, without overlaps, is replaced. */
  function Replace(s: string, pat: string, rep: string): (r: string)
    requires |pat| > 0
    ensures |rep| <= |pat| ==> |r| <= |s|
    ensures (forall i: nat :: !OccursAt(s, pat, i)) ==> r == s
    decreases |s|
  {
    if |s| < |pat| then s
    else if s[..|pat|] == pat then
      assert OccursAt(s, pat, 0);
      rep + Replace(s[|pat|..], pat, rep)
    else
      assert forall i: nat :: OccursAt(s[1..], pat, i) ==> OccursAt(s, pat, i + 1) by {
        forall i: nat | OccursAt(s[1..], pat, i) ensures OccursAt(s, pat, i + 1) {
          assert s[1..][i..i + |pat|] == s[i + 1..i + 1 + |pat|];
        }
      }
      assert s == [s[0]] + s[1..];
      [s[0]] + Replace(s[1..], pat, rep)
  }

  /** The scan of `replace` at a position where `pat` occurs. */
  lemma ReplaceHere(s: string, pat: string, rep: string)
    requires |pat| > 0 && OccursAt(s, pat, 0)
    ensures Replace(s, pat, rep) == rep + Replace(s[|pat|..], pat, rep)
  {
    assert s[..|pat|] == pat;
  }

  /** The scan of `replace` at a position where `pat` does not occur. */
  lemma ReplacePast(s: string, pat: string, rep: string)
    requires |pat| > 0 && |s| >= |pat| && !OccursAt(s, pat, 0)
    ensures Replace(s, pat, rep) == [s[0]] + Replace(s[1..], pat, rep)
  {
    assert s[..|pat|] != pat;
  }

  /** An occurrence in the tail of a text is an occurrence in the text, one place later. */
  lemma OccursInTail(s: string, pat: string, i: nat)
    requires |s| > 0 && OccursAt(s[1..], pat, i)
    ensures OccursAt(s, pat, i + 1)
  {
    assert s[1..][i..i + |pat|] == s[i + 1..i + 1 + |pat|];
  }

  lemma TailConcat(a: string, u: string, v: string)
    requires |a| > 0
    ensures (a + u + v)[0] == a[0] && (a + u + v)[1..] == a[1..] + u + v
  {
  }

  lemma ConsConcat(a: string, u: string, v: string)
    requires |a| > 0
    ensures [a[0]] + (a[1..] + u + v) == a + u + v
  {
    assert a == [a[0]] + a[1..];
  }

  /** An occurrence of `pat` with no earlier one starting inside the text before it is
      replaced, and the scan carries on after it. */
  lemma {:induction false} ReplaceAt(a: string, pat: string, rep: string, b: string)
    requires |pat| > 0
    requires forall i: nat :: i < |a| ==> !OccursAt(a + pat + b, pat, i)
    ensures Replace(a + pat + b, pat, rep) == a + rep + Replace(b, pat, rep)
    decreases |a|
  {
    if a == [] {
      assert a + pat + b == pat + b && (pat + b)[|pat|..] == b;
      assert OccursAt(pat + b, pat, 0);
      ReplaceHere(pat + b, pat, rep);
    } else {
      TailConcat(a, pat, b);
      forall i: nat | i < |a[1..]|
        ensures !OccursAt(a[1..] + pat + b, pat, i)
      {
        if OccursAt(a[1..] + pat + b, pat, i) {
          OccursInTail(a + pat + b, pat, i);
        }
      }
      ReplaceAt(a[1..], pat, rep, b);
      ReplacePast(a + pat + b, pat, rep);
      ConsConcat(a, rep, Replace(b, pat, rep));
    }
  }

  /** Replacing a character by nothing removes every copy of it and keeps the others. */
  lemma {:induction false} ReplaceRemovesChar(s: string, c: char)
    ensures c !in Replace(s, [c], "")
    ensures forall x :: x in s && x != c ==> x in Replace(s, [c], "")
  {
    if s != [] {
      ReplaceRemovesChar(s[1..], c);
      assert s == [s[0]] + s[1..];
      if s[..1] == [c] {
        assert s[1..] == s[|[c]|..];
      }
    }
  }

  /** `s` with every copy of `c` taken out. */
  function Without(s: string, c: char): (r: string)
    ensures c !in r && |r| <= |s|
  {
    if s == [] then []
    else (if s[0] == c then [] else [s[0]]) + Without(s[1..], c)
  }

  /** Replacing one character by nothing is filtering it out. */
  lemma {:induction false} ReplaceCharIsWithout(s: string, c: char)
    ensures Replace(s, [c], "") == Without(s, c)
  {
    if s != [] {
      ReplaceCharIsWithout(s[1..], c);
      if s[..1] == [c] {
        assert s[1..] == s[|[c]|..];
      } else {
        assert s[0] != c;
      }
    }
  }

  /** Filtering distributes over concatenation. */
  lemma {:induction false} WithoutAppend(a: string, b: string, c: char)
    ensures Without(a + b, c) == Without(a, c) + Without(b, c)
  {
    if a == [] {
      assert a + b == b;
    } else {
      var head := if a[0] == c then [] else [a[0]];
      assert (a + b)[0] == a[0] && (a + b)[1..] == a[1..] + b;
      calc {
        Without(a + b, c);
        head + Without(a[1..] + b, c);
        { WithoutAppend(a[1..], b, c); }
        head + (Without(a[1..], c) + Without(b, c));
        (head + Without(a[1..], c)) + Without(b, c);
      }
    }
  }

  /** Filtering out a character that does not occur changes nothing. */
  lemma {:induction false} WithoutAbsent(s: string, c: char)
    requires c !in s
    ensures Without(s, c) == s
  {
    if s != [] {
      WithoutAbsent(s[1..], c);
    }
  }
}
