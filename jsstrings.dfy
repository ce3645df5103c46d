/** The few JavaScript string operations the pipeline relies on, with the
    semantics of ECMAScript: `Array.prototype.join`, `String.prototype.split`
    on a one-character separator, `String.prototype.trim`, `length` (counted
    in UTF-16 code units) and the decimal rendering of a non-negative integer
    in a template literal. */
module JsStrings {

  // ---------------------------------------------------------------------------
  // join and split
  // ---------------------------------------------------------------------------

  /** `parts.join(sep)`: the parts with `sep` between consecutive ones. */
  function Join(parts: seq<string>, sep: string): string
    decreases |parts|
  {
    if |parts| == 0 then ""
    else if |parts| == 1 then parts[0]
    else parts[0] + sep + Join(parts[1..], sep)
  }

  /** `s.split(c)` for a one-character separator `c`: the maximal pieces of `s`
      between occurrences of `c`; an empty string gives one empty piece. */
  function Split(s: string, c: char): (r: seq<string>)
    ensures |r| >= 1
    decreases |s|
  {
    if |s| == 0 then [""]
    else
      var rest := Split(s[1..], c);
      if s[0] == c then [""] + rest else [[s[0]] + rest[0]] + rest[1..]
  }

  /** A join of non-empty parts is empty exactly when there are no parts. */
  lemma {:induction false} JoinEmptyIff(parts: seq<string>, sep: string)
    requires forall k :: 0 <= k < |parts| ==> parts[k] != ""
    ensures Join(parts, sep) == "" <==> parts == []
  {
    if |parts| > 1 {
      assert |Join(parts, sep)| >= |parts[0]|;
    }
  }

  /** Splitting undoes joining: the separator occurs nowhere else. */
  lemma {:induction false} JoinSplit(s: string, c: char)
    ensures Join(Split(s, c), [c]) == s
    decreases |s|
  {
    if |s| > 0 {
      var rest := Split(s[1..], c);
      JoinSplit(s[1..], c);
      if s[0] == c {
        assert Split(s, c) == [""] + rest;
        if |rest| == 1 {
          assert Join([""] + rest, [c]) == "" + [c] + rest[0];
        } else {
          assert ([""] + rest)[1..] == rest;
        }
        assert s == [c] + s[1..];
      } else {
        var first := [s[0]] + rest[0];
        assert Split(s, c) == [first] + rest[1..];
        if |rest| == 1 {
          assert Join([first], [c]) == first;
          assert s == [s[0]] + s[1..];
        } else {
          assert ([first] + rest[1..])[1..] == rest[1..];
          assert Join(rest, [c]) == rest[0] + [c] + Join(rest[1..], [c]);
          assert s == [s[0]] + s[1..];
        }
      }
    }
  }

  /** Splitting a piece free of the separator, followed by anything, glues the
      piece onto the first part of the split of the rest. */
  lemma {:induction false} SplitPrefixFree(a: string, t: string, c: char)
    requires c !in a
    ensures Split(a + t, c) == [a + Split(t, c)[0]] + Split(t, c)[1..]
    decreases |a|
  {
    if |a| > 0 {
      var parts := Split(t, c);
      var rest := Split(a[1..] + t, c);
      SplitPrefixFree(a[1..], t, c);
      assert (a + t)[1..] == a[1..] + t;
      assert (a + t)[0] == a[0] != c;
      assert Split(a + t, c) == [[a[0]] + rest[0]] + rest[1..];
      assert [a[0]] + (a[1..] + parts[0]) == a + parts[0];
    } else {
      var parts := Split(t, c);
      assert a + t == t;
      assert a + parts[0] == parts[0];
      assert parts == [parts[0]] + parts[1..];
    }
  }

  /** Joining undoes splitting when no part contains the separator. */
  lemma {:induction false} SplitJoin(parts: seq<string>, c: char)
    requires |parts| >= 1
    requires forall k :: 0 <= k < |parts| ==> c !in parts[k]
    ensures Split(Join(parts, [c]), c) == parts
    decreases |parts|
  {
    if |parts| == 1 {
      SplitPrefixFree(parts[0], "", c);
      assert parts[0] + "" == parts[0];
    } else {
      var tail := Join(parts[1..], [c]);
      SplitJoin(parts[1..], c);
      SplitPrefixFree(parts[0], [c] + tail, c);
      assert parts[0] + [c] + tail == parts[0] + ([c] + tail);
      assert ([c] + tail)[1..] == tail;
      assert Split([c] + tail, c) == [""] + parts[1..];
      assert parts[0] + "" == parts[0];
    }
  }

  /** In `a + c + b` with no `c` in `b`, position `|a|` holds the last `c`. */
  lemma LastSeparatorAt(a: string, b: string, c: char)
    requires c !in b
    ensures var s := a + [c] + b;
      s[|a|] == c && forall k :: |a| < k < |s| ==> s[k] != c
  {
    var s := a + [c] + b;
    forall k | |a| < k < |s| ensures s[k] != c {
      assert s[k] == b[k - |a| - 1];
    }
  }

  /** When the right-hand parts contain no `c`, the last `c` in a string
      decides the split: `a + c + b` determines `a` and `b`. */
  lemma SplitAtLastSeparator(a: string, b: string, a': string, b': string, c: char)
    requires c !in b && c !in b'
    requires a + [c] + b == a' + [c] + b'
    ensures a == a' && b == b'
  {
    var s := a + [c] + b;
    LastSeparatorAt(a, b, c);
    LastSeparatorAt(a', b', c);
    assert |a| == |a'|;
    assert a == s[..|a|] == a';
    assert b == s[|a| + 1..] == b';
  }

  /** A common suffix can be cancelled. */
  lemma CancelSuffix(x: string, y: string, suffix: string)
    requires x + suffix == y + suffix
    ensures x == y
  {
    assert |x| == |y|;
    assert x == (x + suffix)[..|x|];
    assert y == (y + suffix)[..|y|];
  }

  /** A common prefix can be cancelled. */
  lemma CancelPrefix(prefix: string, x: string, y: string)
    requires prefix + x == prefix + y
    ensures x == y
  {
    assert x == (prefix + x)[|prefix|..];
    assert y == (prefix + y)[|prefix|..];
  }

  // ---------------------------------------------------------------------------
  // trim
  // ---------------------------------------------------------------------------

  /** The code points `String.prototype.trim` removes: ECMAScript WhiteSpace
      (tab, vertical tab, form feed, space, no-break space, byte order mark and
      every other space separator of Unicode category Zs) and LineTerminator
      (line feed, carriage return, line separator, paragraph separator). */
  predicate IsJsWhitespace(c: char) {
    var n := c as int;
    n == 0x09 || n == 0x0B || n == 0x0C || n == 0x20 || n == 0xA0 || n == 0xFEFF
    || n == 0x1680 || (0x2000 <= n <= 0x200A) || n == 0x202F || n == 0x205F || n == 0x3000
    || n == 0x0A || n == 0x0D || n == 0x2028 || n == 0x2029
  }

  /** `s` with its leading whitespace removed. */
  function TrimStart(s: string): (r: string)
    ensures |r| <= |s|
    decreases |s|
  {
    if |s| > 0 && IsJsWhitespace(s[0]) then TrimStart(s[1..]) else s
  }

  /** `s` with its trailing whitespace removed. */
  function TrimEnd(s: string): (r: string)
    ensures |r| <= |s|
    decreases |s|
  {
    if |s| > 0 && IsJsWhitespace(s[|s| - 1]) then TrimEnd(s[..|s| - 1]) else s
  }

  /** `s.trim()`. */
  function Trim(s: string): string {
    TrimEnd(TrimStart(s))
  }

  /** TrimStart leaves a suffix of `s` that begins with a non-whitespace
      character, or nothing, and cuts only whitespace. */
  lemma {:induction false} TrimStartSuffix(s: string)
    ensures var r := TrimStart(s);
      && r == s[|s| - |r|..]
      && (forall k :: 0 <= k < |s| - |r| ==> IsJsWhitespace(s[k]))
      && (r == "" || !IsJsWhitespace(r[0]))
    decreases |s|
  {
    if |s| > 0 && IsJsWhitespace(s[0]) {
      TrimStartSuffix(s[1..]);
    }
  }

  /** TrimEnd leaves a prefix of `s` that ends with a non-whitespace
      character, or nothing, and cuts only whitespace. */
  lemma {:induction false} TrimEndPrefix(s: string)
    ensures var r := TrimEnd(s);
      && r == s[..|r|]
      && (forall k :: |r| <= k < |s| ==> IsJsWhitespace(s[k]))
      && (r == "" || !IsJsWhitespace(r[|r| - 1]))
    decreases |s|
  {
    if |s| > 0 && IsJsWhitespace(s[|s| - 1]) {
      TrimEndPrefix(s[..|s| - 1]);
    }
  }

  /** Trim keeps the contiguous middle of `s` that starts after the leading
      whitespace; only whitespace lies around it, and none is left at either
      end of the result. */
  lemma TrimCharacterization(s: string)
    ensures var r := Trim(s);
      var i := |s| - |TrimStart(s)|;
      && i + |r| <= |s|
      && s[i..i + |r|] == r
      && (forall k :: 0 <= k < i ==> IsJsWhitespace(s[k]))
      && (forall k :: i + |r| <= k < |s| ==> IsJsWhitespace(s[k]))
      && (r == "" || (!IsJsWhitespace(r[0]) && !IsJsWhitespace(r[|r| - 1])))
  {
    TrimKeepsMiddle(s);
    TrimCutsWhitespace(s);
  }

  /** The trimmed text sits in `s` right after the leading whitespace. */
  lemma TrimKeepsMiddle(s: string)
    ensures var r := Trim(s);
      var i := |s| - |TrimStart(s)|;
      i + |r| <= |s| && s[i..i + |r|] == r
  {
    var t := TrimStart(s);
    var r := TrimEnd(t);
    var i := |s| - |t|;
    TrimStartSuffix(s);
    TrimEndPrefix(t);
    assert t == s[i..];
    assert r == t[..|r|];
  }

  /** What trim removes is whitespace, and it leaves none at either end. */
  lemma TrimCutsWhitespace(s: string)
    ensures var r := Trim(s);
      var i := |s| - |TrimStart(s)|;
      && i + |r| <= |s|
      && (forall k :: 0 <= k < i ==> IsJsWhitespace(s[k]))
      && (forall k :: i + |r| <= k < |s| ==> IsJsWhitespace(s[k]))
      && (r == "" || (!IsJsWhitespace(r[0]) && !IsJsWhitespace(r[|r| - 1])))
  {
    var t := TrimStart(s);
    var r := TrimEnd(t);
    var i := |s| - |t|;
    TrimStartSuffix(s);
    TrimEndPrefix(t);
    forall k | i + |r| <= k < |s| ensures IsJsWhitespace(s[k]) {
      assert s[k] == t[k - i];
    }
    assert r != "" ==> r[0] == t[0];
  }

  /** No whitespace at either end. */
  predicate IsTrimmed(s: string) {
    s == "" || (!IsJsWhitespace(s[0]) && !IsJsWhitespace(s[|s| - 1]))
  }

  /** A string without whitespace at either end is its own trim. */
  lemma TrimUntouched(s: string)
    requires IsTrimmed(s)
    ensures Trim(s) == s
  {
    assert TrimStart(s) == s;
  }

  /** Trimming a trimmed string changes nothing. */
  lemma TrimIdempotent(s: string)
    ensures Trim(Trim(s)) == Trim(s)
  {
    var r := Trim(s);
    TrimCharacterization(s);
    if r != "" {
      assert TrimStart(r) == r;
    }
  }

  // ---------------------------------------------------------------------------
  // length in UTF-16 code units
  // ---------------------------------------------------------------------------

  /** JavaScript's `s.length`: a character outside the Basic Multilingual Plane
      is a surrogate pair and counts twice. */
  function Utf16Length(s: string): (n: nat)
    ensures |s| <= n <= 2 * |s|
    decreases |s|
  {
    if |s| == 0 then 0
    else Utf16Length(s[..|s| - 1]) + (if s[|s| - 1] as int >= 0x1_0000 then 2 else 1)
  }

  /** The length of a concatenation is the sum of the lengths. */
  lemma {:induction false} Utf16LengthConcat(a: string, b: string)
    ensures Utf16Length(a + b) == Utf16Length(a) + Utf16Length(b)
    decreases |b|
  {
    if |b| > 0 {
      var b0 := b[..|b| - 1];
      Utf16LengthConcat(a, b0);
      assert (a + b)[..|a + b| - 1] == a + b0;
    } else {
      assert a + b == a;
    }
  }

  /** On text inside the Basic Multilingual Plane the two lengths agree. */
  lemma {:induction false} Utf16LengthBmp(s: string)
    requires forall k :: 0 <= k < |s| ==> (s[k] as int) < 0x1_0000
    ensures Utf16Length(s) == |s|
    decreases |s|
  {
    if |s| > 0 {
      Utf16LengthBmp(s[..|s| - 1]);
    }
  }

  // ---------------------------------------------------------------------------
  // decimal rendering of a non-negative integer
  // ---------------------------------------------------------------------------

  predicate IsDigit(c: char) {
    '0' as int <= c as int <= '9' as int
  }

  /** `${n}` for a non-negative integer: decimal digits without leading zeros. */
  function NatToDecimal(n: nat): (r: string)
    ensures |r| >= 1
    ensures forall k :: 0 <= k < |r| ==> IsDigit(r[k])
    ensures r[0] == '0' ==> n == 0
    ensures n == 0 ==> r == "0"
    decreases n
  {
    var last := [('0' as int + n % 10) as char];
    if n < 10 then last else NatToDecimal(n / 10) + last
  }

  /** The value of a string of decimal digits. */
  function DecimalValue(s: string): nat
    requires forall k :: 0 <= k < |s| ==> IsDigit(s[k])
    decreases |s|
  {
    if |s| == 0 then 0
    else
      assert IsDigit(s[|s| - 1]);
      DecimalValue(s[..|s| - 1]) * 10 + (s[|s| - 1] as int - '0' as int)
  }

  /** Reading the rendering back gives the number. */
  lemma {:induction false} DecimalRoundTrip(n: nat)
    ensures DecimalValue(NatToDecimal(n)) == n
    decreases n
  {
    var r := NatToDecimal(n);
    if n >= 10 {
      DecimalRoundTrip(n / 10);
      assert r[..|r| - 1] == NatToDecimal(n / 10);
    }
  }

  /** Distinct numbers render differently. */
  lemma DecimalInjective(m: nat, n: nat)
    requires NatToDecimal(m) == NatToDecimal(n)
    ensures m == n
  {
    DecimalRoundTrip(m);
    DecimalRoundTrip(n);
  }

  /** A rendering never contains the given non-digit character. */
  lemma DecimalAvoids(n: nat, c: char)
    requires !IsDigit(c)
    ensures c !in NatToDecimal(n)
  {
  }
}
