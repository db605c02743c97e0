/** String helpers that mirror the few Python `str` operations the jukebox
    relies on: `rfind`, `split(c)[-1]`, `replace`, `lower`, `strip` and
    `str(n)` for natural numbers. */
module Text {

  /** Index of the last occurrence of `c` in `s`, or -1 (Python `s.rfind(c)`). */
  function RFind(s: string, c: char): (r: int)
    ensures -1 <= r < |s|
    ensures r >= 0 ==> s[r] == c
    ensures forall j :: r < j < |s| ==> s[j] != c
  {
    if s == [] then -1
    else if s[|s| - 1] == c then |s| - 1
    else RFind(s[..|s| - 1], c)
  }

  /** A `c` with no `c` after it is the last one. */
  lemma RFindLast(s: string, c: char, i: int)
    requires 0 <= i < |s| && s[i] == c && c !in s[i + 1..]
    ensures RFind(s, c) == i
  {
    forall m | i < m < |s| ensures s[m] != c {
      assert s[m] == s[i + 1..][m - i - 1];
    }
  }

  /** The text after the last `c`, or all of `s` when `c` does not occur:
      Python's `s.split(c)[-1]`, and `s.rsplit(c, 1)[1]` when `c in s`. */
  function AfterLast(s: string, c: char): string
  {
    s[RFind(s, c) + 1..]
  }

  lemma AfterLastSpec(s: string, c: char)
    ensures c !in AfterLast(s, c)
    ensures c !in s ==> AfterLast(s, c) == s
    ensures c in s ==> exists i :: 0 <= i < |s| && s == s[..i] + [c] + AfterLast(s, c)
  {
    var i := RFind(s, c);
    if c in s {
      var k :| 0 <= k < |s| && s[k] == c;
      assert i >= k;
      assert s == s[..i] + [c] + s[i + 1..];
    }
  }

  /** RFind over a concatenation: the last `c` is in the right part if it has one. */
  lemma {:induction false} RFindAppend(x: string, y: string, c: char)
    ensures RFind(x + y, c) == if c in y then |x| + RFind(y, c) else RFind(x, c)
    decreases |y|
  {
    if y == [] {
      assert x + y == x;
    } else {
      var y' := y[..|y| - 1];
      assert (x + y)[..|x + y| - 1] == x + y';
      if y[|y| - 1] != c {
        RFindAppend(x, y', c);
        assert c in y <==> c in y' by {
          assert y == y' + [y[|y| - 1]];
        }
        if c in y' {
          assert y[..|y| - 1] == y';
        }
      }
    }
  }

  /** Splitting the text after the last separator recovers it. */
  lemma AfterLastOfJoin(x: string, c: char, y: string)
    requires c !in y
    ensures AfterLast(x + [c] + y, c) == y
  {
    RFindAppend(x + [c], y, c);
    RFindAppend(x, [c], c);
    assert (x + [c] + y)[|x| + 1..] == y;
  }

  /** `pat` occurs somewhere in `s` (Python `pat in s`). */
  predicate Contains(s: string, pat: string)
    decreases |s|
  {
    |s| >= |pat| && (s[..|pat|] == pat || Contains(s[1..], pat))
  }

  /** Python `s.replace(pat, rep)`: leftmost, non-overlapping replacement. */
  function ReplaceAll(s: string, pat: string, rep: string): (r: string)
    requires pat != []
    ensures rep == pat ==> r == s
    ensures |rep| <= |pat| ==> |r| <= |s|
    decreases |s|
  {
    if |s| < |pat| then s
    else if s[..|pat|] == pat then rep + ReplaceAll(s[|pat|..], pat, rep)
    else [s[0]] + ReplaceAll(s[1..], pat, rep)
  }

  lemma {:induction false} ReplaceAllAbsent(s: string, pat: string, rep: string)
    requires pat != [] && !Contains(s, pat)
    ensures ReplaceAll(s, pat, rep) == s
    decreases |s|
  {
    if |s| >= |pat| {
      ReplaceAllAbsent(s[1..], pat, rep);
      assert s == [s[0]] + s[1..];
    }
  }

  /** Replacing a character everywhere (`s.replace(a, b)` for one-character strings). */
  function ReplaceChar(s: string, a: char, b: char): (r: string)
    ensures |r| == |s|
    ensures forall i :: 0 <= i < |s| ==> r[i] == if s[i] == a then b else s[i]
  {
    if s == [] then [] else [if s[0] == a then b else s[0]] + ReplaceChar(s[1..], a, b)
  }

  /** ASCII lower-casing. */
  function LowerChar(c: char): char
  {
    if 'A' <= c <= 'Z' then (c as int - 'A' as int + 'a' as int) as char else c
  }

  function Lower(s: string): (r: string)
    ensures |r| == |s|
    ensures forall i :: 0 <= i < |s| ==> r[i] == LowerChar(s[i])
  {
    if s == [] then [] else [LowerChar(s[0])] + Lower(s[1..])
  }

  /** The characters for which Python's `str.isspace()` holds. */
  predicate IsSpace(c: char)
  {
    '\t' <= c <= '\r' || '\U{1c}' <= c <= ' ' || c == '\U{85}' || c == '\U{a0}'
    || c == '\U{1680}' || '\U{2000}' <= c <= '\U{200a}' || c == '\U{2028}' || c == '\U{2029}'
    || c == '\U{202f}' || c == '\U{205f}' || c == '\U{3000}'
  }

  function TrimStart(s: string): (r: string)
    ensures |r| <= |s| && r == s[|s| - |r|..]
    ensures forall i {:trigger IsSpace(s[i])} :: 0 <= i < |s| - |r| ==> IsSpace(s[i])
    ensures r != [] ==> !IsSpace(r[0])
  {
    if s != [] && IsSpace(s[0]) then TrimStart(s[1..]) else s
  }

  function TrimEnd(s: string): (r: string)
    ensures |r| <= |s| && r == s[..|r|]
    ensures forall i {:trigger IsSpace(s[i])} :: |r| <= i < |s| ==> IsSpace(s[i])
    ensures r != [] ==> !IsSpace(r[|r| - 1])
  {
    if s != [] && IsSpace(s[|s| - 1]) then TrimEnd(s[..|s| - 1]) else s
  }

  /** `r` is the text of `s` from offset `a` on, with only white space
      before and after it. */
  predicate StrippedAt(s: string, a: int, r: string)
  {
    0 <= a && a + |r| <= |s|
    && (forall k :: 0 <= k < |r| ==> r[k] == s[a + k])
    && (forall i {:trigger IsSpace(s[i])} :: 0 <= i < a ==> IsSpace(s[i]))
    && (forall i {:trigger IsSpace(s[i])} :: a + |r| <= i < |s| ==> IsSpace(s[i]))
  }

  /** Python `s.strip()`: the text between the leading and the trailing
      white space. */
  function Strip(s: string): (r: string)
    ensures |r| <= |s|
    ensures r == [] || (!IsSpace(r[0]) && !IsSpace(r[|r| - 1]))
    ensures exists a :: StrippedAt(s, a, r)
  {
    var t := TrimStart(s);
    TrimBoth(s, t, TrimEnd(t));
    TrimEnd(t)
  }

  /** Trimming both ends keeps a slice with only white space around it. */
  lemma TrimBoth(s: string, t: string, r: string)
    requires t == TrimStart(s) && r == TrimEnd(t)
    ensures StrippedAt(s, |s| - |t|, r)
  {
    var a := |s| - |t|;
    assert t == s[a..];
    assert r == t[..|r|];
    forall k | 0 <= k < |r| ensures r[k] == s[a + k] {
      assert r[k] == t[..|r|][k] == t[k];
      assert t[k] == s[a..][k];
    }
    forall i | a + |r| <= i < |s| ensures IsSpace(s[i]) {
      assert s[i] == s[a..][i - a];
    }
    assert StrippedAt(s, a, r);
  }

  /** `strip()` leaves nothing exactly when every character is white space. */
  lemma StripEmpty(s: string)
    ensures Strip(s) == [] <==> forall i :: 0 <= i < |s| ==> IsSpace(s[i])
  {
    var t := TrimStart(s);
    if Strip(s) == [] {
      assert |t| == 0;
    } else {
      var r := Strip(s);
      assert r[0] == t[0];
      assert t[0] == s[|s| - |t|];
    }
  }

  /** The decimal digits; `Digit(d)` is the character of digit `d`. */
  const Digits := "0123456789"

  function Digit(d: nat): char
    requires d < 10
  {
    Digits[d]
  }

  predicate IsDigit(c: char)
  {
    '0' <= c <= '9'
  }

  /** Python `str(n)` for a natural number: the shortest decimal spelling. */
  function Decimal(n: nat): (s: string)
    ensures |s| >= 1
    ensures forall i :: 0 <= i < |s| ==> IsDigit(s[i])
    ensures |s| > 1 ==> s[0] != '0'
    decreases n
  {
    if n < 10 then [Digit(n)] else Decimal(n / 10) + [Digit(n % 10)]
  }

  /** The number a string of decimal digits denotes (Python `int(s)`). */
  function DecimalValue(s: string): nat
    requires forall i :: 0 <= i < |s| ==> IsDigit(s[i])
  {
    if s == [] then 0
    else
      assert IsDigit(s[|s| - 1]);
      DecimalValue(s[..|s| - 1]) * 10 + (s[|s| - 1] as int - '0' as int)
  }

  /** `int(str(n)) == n`. */
  lemma {:induction false} DecimalRoundTrip(n: nat)
    ensures DecimalValue(Decimal(n)) == n
    decreases n
  {
    if n >= 10 {
      DecimalRoundTrip(n / 10);
      var s := Decimal(n);
      assert s[..|s| - 1] == Decimal(n / 10);
    }
  }

  /** Different numbers are spelt differently. */
  lemma DecimalInjective(m: nat, n: nat)
    ensures Decimal(m) == Decimal(n) ==> m == n
  {
    DecimalRoundTrip(m);
    DecimalRoundTrip(n);
  }

  function Pow10(k: nat): (r: nat)
    ensures r >= 1
  {
    if k == 0 then 1 else 10 * Pow10(k - 1)
  }

  lemma {:induction false} Pow10Monotone(a: nat, b: nat)
    requires a <= b
    ensures Pow10(a) <= Pow10(b)
    decreases b
  {
    if a < b {
      Pow10Monotone(a, b - 1);
    }
  }

  /** A number needs more digits than any power of ten it reaches. */
  lemma {:induction false} DecimalLengthBound(n: nat)
    ensures n < Pow10(|Decimal(n)|)
    decreases n
  {
    if n >= 10 {
      DecimalLengthBound(n / 10);
      assert |Decimal(n)| == |Decimal(n / 10)| + 1;
    }
  }

  /** Python `sep.join(parts)` with a one-character separator. */
  function JoinWith(parts: seq<string>, sep: char): string
  {
    if parts == [] then []
    else if |parts| == 1 then parts[0]
    else parts[0] + [sep] + JoinWith(parts[1..], sep)
  }

  /** Python `s.split(sep)` with a one-character separator. */
  function SplitOn(s: string, sep: char): (r: seq<string>)
    ensures |r| >= 1
  {
    if s == [] then [[]]
    else if s[0] == sep then [[]] + SplitOn(s[1..], sep)
    else
      var rest := SplitOn(s[1..], sep);
      [[s[0]] + rest[0]] + rest[1..]
  }

  lemma {:induction false} SplitOnPlain(x: string, sep: char)
    requires sep !in x
    ensures SplitOn(x, sep) == [x]
  {
    if x != [] {
      SplitOnPlain(x[1..], sep);
      assert [x[0]] + x[1..] == x;
    }
  }

  lemma {:induction false} SplitOnSeparated(x: string, sep: char, y: string)
    requires sep !in x
    ensures SplitOn(x + [sep] + y, sep) == [x] + SplitOn(y, sep)
  {
    if x == [] {
      assert x + [sep] + y == [sep] + y;
      assert ([sep] + y)[1..] == y;
    } else {
      SplitOnSeparated(x[1..], sep, y);
      assert (x + [sep] + y)[1..] == x[1..] + [sep] + y;
      assert [x[0]] + x[1..] == x;
    }
  }

  /** Splitting a join of separator-free parts gives the parts back. */
  lemma {:induction false} SplitJoin(parts: seq<string>, sep: char)
    requires parts != []
    requires forall i :: 0 <= i < |parts| ==> sep !in parts[i]
    ensures SplitOn(JoinWith(parts, sep), sep) == parts
  {
    if |parts| == 1 {
      SplitOnPlain(parts[0], sep);
    } else {
      SplitJoin(parts[1..], sep);
      SplitOnSeparated(parts[0], sep, JoinWith(parts[1..], sep));
      assert [parts[0]] + parts[1..] == parts;
    }
  }
}
