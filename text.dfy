/** The handful of Python `str` operations the core relies on, written as functions
    over `seq<char>`: `isspace`, `strip`, `lower`, `split`, `splitlines`, `join`,
    substring search, the `\w+` and `\d+` character classes, `int()` of a digit
    string and `str()` of a natural number. */
module Text {

  /** Python's `str.isspace` for a single character. */
  predicate IsSpace(c: char) {
    c == ' ' || c == '\t' || c == '\n' || c == '\r' || c == '\U{0B}' || c == '\U{0C}' ||
    c == '\U{1C}' || c == '\U{1D}' || c == '\U{1E}' || c == '\U{1F}' ||
    c == '\U{85}' || c == '\U{A0}' || c == '\U{1680}' ||
    ('\U{2000}' <= c <= '\U{200A}') ||
    c == '\U{2028}' || c == '\U{2029}' || c == '\U{202F}' || c == '\U{205F}' || c == '\U{3000}'
  }

  /** The characters at which Python's `str.splitlines` breaks a line. */
  predicate IsLineBreak(c: char) {
    c == '\n' || c == '\r' || c == '\U{0B}' || c == '\U{0C}' ||
    c == '\U{1C}' || c == '\U{1D}' || c == '\U{1E}' || c == '\U{85}' ||
    c == '\U{2028}' || c == '\U{2029}'
  }

  /** A character matched by the regular-expression class `\w` (ASCII letters, digits, `_`). */
  predicate IsWordChar(c: char) {
    ('a' <= c <= 'z') || ('A' <= c <= 'Z') || ('0' <= c <= '9') || c == '_'
  }

  predicate IsDigit(c: char) {
    '0' <= c <= '9'
  }

  predicate AllDigits(s: string) {
    forall i :: 0 <= i < |s| ==> IsDigit(s[i])
  }

  /** A string with no leading and no trailing whitespace. */
  predicate IsStripped(s: string) {
    s == [] || (!IsSpace(s[0]) && !IsSpace(s[|s| - 1]))
  }

  // ---------------------------------------------------------------- strip

  /** Leading whitespace removed. */
  function TrimLeft(s: string): (r: string)
    ensures |r| <= |s|
    decreases |s|
  {
    if |s| > 0 && IsSpace(s[0]) then TrimLeft(s[1..]) else s
  }

  /** Trailing whitespace removed. */
  function TrimRight(s: string): (r: string)
    ensures |r| <= |s|
    decreases |s|
  {
    if |s| > 0 && IsSpace(s[|s| - 1]) then TrimRight(s[..|s| - 1]) else s
  }

  /** `TrimLeft` drops exactly the leading run of whitespace. */
  lemma {:induction false} TrimLeftSpec(s: string)
    ensures var r := TrimLeft(s);
      |r| <= |s| && r == s[|s| - |r|..]
      && (r == [] || !IsSpace(r[0]))
      && (forall i :: 0 <= i < |s| - |r| ==> IsSpace(s[i]))
    decreases |s|
  {
    if |s| > 0 && IsSpace(s[0]) {
      TrimLeftSpec(s[1..]);
    }
  }

  /** `TrimRight` drops exactly the trailing run of whitespace. */
  lemma {:induction false} TrimRightSpec(s: string)
    ensures var r := TrimRight(s);
      |r| <= |s| && r == s[..|r|]
      && (r == [] || !IsSpace(r[|r| - 1]))
      && (forall i :: |r| <= i < |s| ==> IsSpace(s[i]))
    decreases |s|
  {
    if |s| > 0 && IsSpace(s[|s| - 1]) {
      TrimRightSpec(s[..|s| - 1]);
    }
  }

  /** Python's `str.strip()`: whitespace removed from both ends. */
  function Strip(s: string): (r: string)
    ensures |r| <= |s|
  {
    TrimRight(TrimLeft(s))
  }

  /** `Strip` keeps the middle of `s` between a whitespace prefix and a whitespace
      suffix, and that middle neither starts nor ends with whitespace. */
  lemma {:induction false} StripSpec(s: string)
    ensures var a := |s| - |TrimLeft(s)|;
      var r := Strip(s);
      a + |r| <= |s| && r == s[a..a + |r|] && IsStripped(r)
      && (forall i :: 0 <= i < a ==> IsSpace(s[i]))
      && (forall i :: a + |r| <= i < |s| ==> IsSpace(s[i]))
  {
    var t := TrimLeft(s);
    TrimLeftSpec(s);
    TrimRightSpec(t);
    var r := TrimRight(t);
    MiddleSlice(s, t, r);
    assert Strip(s) == r;
  }

  /** A prefix `r` of a suffix `t` of `s`, where `t` follows a whitespace prefix of
      `s` and `r` is followed in `t` by whitespace only, is the middle of `s` between
      those two runs; it is stripped when `t` does not start and `r` does not end with
      whitespace. */
  lemma {:induction false} MiddleSlice(s: string, t: string, r: string)
    requires |t| <= |s| && t == s[|s| - |t|..] && (t == [] || !IsSpace(t[0]))
    requires |r| <= |t| && r == t[..|r|] && (r == [] || !IsSpace(r[|r| - 1]))
    requires forall i :: |r| <= i < |t| ==> IsSpace(t[i])
    ensures var a := |s| - |t|;
      r == s[a..a + |r|] && IsStripped(r) && forall i :: a + |r| <= i < |s| ==> IsSpace(s[i])
  {
    var a := |s| - |t|;
    forall i | a + |r| <= i < |s| ensures IsSpace(s[i]) {
      assert s[i] == t[i - a];
    }
    if r != [] {
      assert r[0] == t[0];
    }
  }

  /** A string strips to nothing exactly when it is all whitespace. */
  lemma StripEmpty(s: string)
    ensures Strip(s) == [] <==> forall i :: 0 <= i < |s| ==> IsSpace(s[i])
  {
    StripSpec(s);
  }

  /** Stripping a string that has nothing to strip leaves it unchanged. */
  lemma StripStripped(s: string)
    requires IsStripped(s)
    ensures Strip(s) == s
  {
  }

  // ---------------------------------------------------------------- lower

  function LowerChar(c: char): char {
    if 'A' <= c <= 'Z' then (c as int + 32) as char else c
  }

  /** Python's `str.lower()` restricted to ASCII letters. */
  function Lower(s: string): (r: string)
    ensures |r| == |s|
  {
    seq(|s|, i requires 0 <= i < |s| => LowerChar(s[i]))
  }

  /** Lower-casing twice is lower-casing once. */
  lemma LowerIdempotent(s: string)
    ensures Lower(Lower(s)) == Lower(s)
  {
  }

  // ---------------------------------------------------------------- join

  /** Python's `sep.join(xs)`. */
  function Join(xs: seq<string>, sep: string): string
    decreases |xs|
  {
    if |xs| == 0 then "" else if |xs| == 1 then xs[0] else xs[0] + sep + Join(xs[1..], sep)
  }

  /** Joining onto a non-empty list: the first piece, then the separator and the rest. */
  lemma JoinCons(x: string, xs: seq<string>, sep: string)
    requires |xs| > 0
    ensures Join([x] + xs, sep) == x + sep + Join(xs, sep)
  {
    assert ([x] + xs)[1..] == xs;
  }

  /** Concatenation of a list of strings (Python's `"".join(xs)`), kept for readability. */
  function Concat(xs: seq<string>): string
    decreases |xs|
  {
    if |xs| == 0 then "" else xs[0] + Concat(xs[1..])
  }

  lemma ConcatAppend(xs: seq<string>, x: string)
    ensures Concat(xs + [x]) == Concat(xs) + x
    decreases |xs|
  {
    if |xs| == 0 {
      assert xs + [x] == [x];
    } else {
      assert (xs + [x])[1..] == xs[1..] + [x];
      ConcatAppend(xs[1..], x);
    }
  }

  /** Each piece of a join sits between some text before it and some text after it. */
  lemma {:induction false} JoinHas(xs: seq<string>, sep: string, k: nat) returns (before: string, after: string)
    requires k < |xs|
    ensures Join(xs, sep) == before + xs[k] + after
    decreases k
  {
    if k == 0 {
      if |xs| == 1 {
        before, after := "", "";
      } else {
        before, after := "", sep + Join(xs[1..], sep);
      }
    } else {
      var b, a := JoinHas(xs[1..], sep, k - 1);
      before, after := xs[0] + sep + b, a;
    }
  }

  /** Each piece of a concatenation sits between some text before it and some text after it. */
  lemma {:induction false} ConcatHas(xs: seq<string>, k: nat) returns (before: string, after: string)
    requires k < |xs|
    ensures Concat(xs) == before + xs[k] + after
    decreases k
  {
    if k == 0 {
      before, after := "", Concat(xs[1..]);
    } else {
      var b, a := ConcatHas(xs[1..], k - 1);
      before, after := xs[0] + b, a;
    }
  }

  /** Python's `xs[:n]` length for an integer `n` (negative `n` counts from the end). */
  function SliceEnd(n: int, len: nat): (r: nat)
    ensures r <= len
    ensures n >= 0 ==> r == if n < len then n else len
  {
    if n >= 0 then (if n < len then n else len)
    else if len + n > 0 then len + n else 0
  }

  /** Python's `s[:n]` for `n >= 0`. */
  function Take(s: string, n: nat): (r: string)
    ensures |r| == if n < |s| then n else |s|
    ensures r <= s
  {
    if n < |s| then s[..n] else s
  }

  // ---------------------------------------------------------------- split(sep)

  /** How many times `c` occurs in `s`. */
  function Count(s: string, c: char): nat
    decreases |s|
  {
    if |s| == 0 then 0 else (if s[0] == c then 1 else 0) + Count(s[1..], c)
  }

  /** Python's `s.split(c)` for a one-character separator. */
  function SplitOn(s: string, c: char): (r: seq<string>)
    ensures |r| >= 1
    decreases |s|
  {
    if |s| == 0 then [""]
    else
      var rest := SplitOn(s[1..], c);
      if s[0] == c then [""] + rest else [[s[0]] + rest[0]] + rest[1..]
  }

  /** `s.split(c)` has one more piece than `s` has separators. */
  lemma {:induction false} SplitOnLength(s: string, c: char)
    ensures |SplitOn(s, c)| == Count(s, c) + 1
    decreases |s|
  {
    if |s| > 0 {
      SplitOnLength(s[1..], c);
    }
  }

  /** No piece of `s.split(c)` contains the separator. */
  lemma {:induction false} SplitOnPieces(s: string, c: char)
    ensures forall k, i :: 0 <= k < |SplitOn(s, c)| && 0 <= i < |SplitOn(s, c)[k]| ==> SplitOn(s, c)[k][i] != c
    decreases |s|
  {
    if |s| > 0 {
      SplitOnPieces(s[1..], c);
      var rest := SplitOn(s[1..], c);
      var r := SplitOn(s, c);
      if s[0] != c {
        forall k, i | 0 <= k < |r| && 0 <= i < |r[k]| ensures r[k][i] != c {
          if k == 0 {
            if i > 0 {
              assert r[0][i] == rest[0][i - 1];
            }
          } else {
            assert r[k] == rest[k];
          }
        }
      }
    }
  }

  /** Splitting a separator-joined list of separator-free pieces gives the pieces back. */
  lemma {:induction false} SplitOnJoin(xs: seq<string>, c: char)
    requires |xs| >= 1
    requires forall k, i :: 0 <= k < |xs| && 0 <= i < |xs[k]| ==> xs[k][i] != c
    ensures SplitOn(Join(xs, [c]), c) == xs
    decreases |xs|
  {
    if |xs| == 1 {
      SplitOnNoSep(xs[0], c);
    } else {
      SplitOnJoin(xs[1..], c);
      SplitOnPrefix(xs[0], c, Join(xs[1..], [c]));
    }
  }

  lemma {:induction false} SplitOnNoSep(s: string, c: char)
    requires forall i :: 0 <= i < |s| ==> s[i] != c
    ensures SplitOn(s, c) == [s]
    decreases |s|
  {
    if |s| > 0 {
      SplitOnNoSep(s[1..], c);
      assert [s[0]] + s[1..] == s;
    }
  }

  lemma {:induction false} SplitOnPrefix(x: string, c: char, t: string)
    requires forall i :: 0 <= i < |x| ==> x[i] != c
    ensures SplitOn(x + [c] + t, c) == [x] + SplitOn(t, c)
    decreases |x|
  {
    var s := x + [c] + t;
    if |x| == 0 {
      assert s[0] == c && s[1..] == t;
    } else {
      assert s[0] == x[0] && s[1..] == x[1..] + [c] + t;
      SplitOnPrefix(x[1..], c, t);
      assert [x[0]] + x[1..] == x;
    }
  }

  /** The last piece of `s.split(c)` is the text after the last separator (all of
      `s` when there is none). */
  lemma {:induction false} SplitOnLast(s: string, c: char) returns (i: nat)
    ensures i <= |s| && SplitOn(s, c)[|SplitOn(s, c)| - 1] == s[i..]
    ensures i > 0 ==> s[i - 1] == c
    ensures i == 0 <==> |SplitOn(s, c)| == 1
    ensures forall j :: i <= j < |s| ==> s[j] != c
    decreases |s|
  {
    if |s| == 0 {
      i := 0;
    } else {
      var rest := SplitOn(s[1..], c);
      var i' := SplitOnLast(s[1..], c);
      if s[0] == c || |rest| > 1 {
        i := i' + 1;
        assert s[1..][i'..] == s[i..];
        if i' > 0 {
          assert s[1..][i' - 1] == s[i - 1];
        }
      } else {
        i := 0;
        assert [s[0]] + s[1..] == s;
      }
    }
  }

  // ---------------------------------------------------------------- runs of a character class

  /** Length of the longest prefix of `s` whose characters all satisfy `p`. */
  function RunLength(s: string, p: char -> bool): (n: nat)
    ensures n <= |s|
    ensures forall i :: 0 <= i < n ==> p(s[i])
    ensures n < |s| ==> !p(s[n])
    decreases |s|
  {
    if |s| > 0 && p(s[0]) then 1 + RunLength(s[1..], p) else 0
  }

  /** The maximal non-empty runs of characters satisfying `p`, left to right: with
      `p` = "not whitespace" this is Python's `s.split()`, with `p` = `\w` it is
      `re.findall(r'\w+', s)`. */
  function Runs(s: string, p: char -> bool): (r: seq<string>)
    ensures forall k :: 0 <= k < |r| ==> |r[k]| > 0
    ensures forall k, i :: 0 <= k < |r| && 0 <= i < |r[k]| ==> p(r[k][i])
    decreases |s|
  {
    if |s| == 0 then []
    else if !p(s[0]) then Runs(s[1..], p)
    else
      var n := RunLength(s, p);
      [s[..n]] + Runs(s[n..], p)
  }

  function NotSpace(c: char): bool { !IsSpace(c) }

  /** Python's `s.split()` with no argument. */
  function Words(s: string): seq<string> {
    Runs(s, NotSpace)
  }

  // ---------------------------------------------------------------- splitlines

  function NotLineBreak(c: char): bool { !IsLineBreak(c) }

  /** Python's `s.splitlines()`: lines without their terminators, `\r\n` counting as
      one terminator, and no empty line after a final terminator. */
  function SplitLines(s: string): (r: seq<string>)
    decreases |s|
  {
    if |s| == 0 then []
    else
      var n := RunLength(s, NotLineBreak);
      if n == |s| then [s]
      else
        var skip := if s[n] == '\r' && n + 1 < |s| && s[n + 1] == '\n' then 2 else 1;
        [s[..n]] + SplitLines(s[n + skip..])
  }

  predicate NoLineBreak(t: string) {
    forall i :: 0 <= i < |t| ==> !IsLineBreak(t[i])
  }

  /** Only the empty string has no lines, and no line holds a line break. */
  lemma SplitLinesSpec(s: string)
    ensures SplitLines(s) == [] <==> s == []
    ensures forall k :: 0 <= k < |SplitLines(s)| ==> NoLineBreak(SplitLines(s)[k])
  {
    SplitLinesNoBreak(s);
  }

  lemma {:induction false} SplitLinesNoBreak(s: string)
    ensures forall k :: 0 <= k < |SplitLines(s)| ==> NoLineBreak(SplitLines(s)[k])
    decreases |s|
  {
    if |s| > 0 {
      var n := RunLength(s, NotLineBreak);
      var first := s[..n];
      assert NoLineBreak(first) by {
        forall i | 0 <= i < n ensures !IsLineBreak(first[i]) {
          assert NotLineBreak(s[i]);
        }
      }
      if n < |s| {
        var skip := if s[n] == '\r' && n + 1 < |s| && s[n + 1] == '\n' then 2 else 1;
        SplitLinesNoBreak(s[n + skip..]);
        var rest := SplitLines(s[n + skip..]);
        assert SplitLines(s) == [first] + rest;
        forall k | 0 <= k < |SplitLines(s)| ensures NoLineBreak(SplitLines(s)[k]) {
          if k > 0 {
            assert SplitLines(s)[k] == rest[k - 1];
          }
        }
      } else {
        assert first == s;
        assert SplitLines(s) == [s];
      }
    }
  }

  // ---------------------------------------------------------------- substrings

  /** Python's `pat in s`. */
  predicate Contains(s: string, pat: string)
    decreases |s|
  {
    |pat| <= |s| && (s[..|pat|] == pat || (|s| > 0 && Contains(s[1..], pat)))
  }

  /** A substring found at an explicit position is found by `Contains`. */
  lemma {:induction false} ContainsAt(s: string, pat: string, i: nat)
    requires i + |pat| <= |s| && s[i..i + |pat|] == pat
    ensures Contains(s, pat)
    decreases i
  {
    if i > 0 {
      assert s[1..][i - 1..i - 1 + |pat|] == s[i..i + |pat|];
      ContainsAt(s[1..], pat, i - 1);
    }
  }

  // ---------------------------------------------------------------- numbers

  function DigitValue(c: char): nat
    requires IsDigit(c)
  {
    (c as int) - ('0' as int)
  }

  function DigitChar(d: nat): (c: char)
    requires d < 10
    ensures IsDigit(c) && DigitValue(c) == d
  {
    ('0' as int + d) as char
  }

  /** Python's `int(ds)` for a non-empty string of ASCII digits. */
  function ParseDigits(ds: string): nat
    requires AllDigits(ds)
    decreases |ds|
  {
    if |ds| == 0 then 0 else 10 * ParseDigits(ds[..|ds| - 1]) + DigitValue(ds[|ds| - 1])
  }

  /** Python's `str(n)` for a natural number. */
  function NatToString(n: nat): (r: string)
    ensures |r| >= 1 && AllDigits(r)
    ensures n >= 10 ==> r[0] != '0'
    decreases n
  {
    if n < 10 then [DigitChar(n)] else NatToString(n / 10) + [DigitChar(n % 10)]
  }

  /** Python's `str(n)` for any integer. */
  function IntToString(n: int): string {
    if n < 0 then "-" + NatToString(-n) else NatToString(n)
  }

  /** `int(str(n)) == n`. */
  lemma {:induction false} ParseNatToString(n: nat)
    ensures ParseDigits(NatToString(n)) == n
    decreases n
  {
    var s := NatToString(n);
    if n >= 10 {
      ParseNatToString(n / 10);
      assert s[..|s| - 1] == NatToString(n / 10);
    }
  }
}
