/**
 The string operations the bot relies on, written out: substring search
 (Python's `in` on strings), `str.strip()`, `str.lower()`, `str.split(' ', 1)`,
 `", ".join(...)` and `str(int)`.
 */
module Text {

  datatype Option<T> = None | Some(value: T)

  /* ---------------- substring search ---------------- */

  /** `t in s` for Python strings: t occurs somewhere in s. */
  predicate Contains(s: string, t: string)
    decreases |s|
  {
    t <= s || (s != [] && Contains(s[1..], t))
  }

  /** The occurrence-at-an-index reading of `Contains`. */
  ghost predicate OccursAt(s: string, t: string, i: int)
  {
    0 <= i && i + |t| <= |s| && s[i..i + |t|] == t
  }

  /** `Contains` holds exactly when the token occurs at some index. */
  lemma {:induction false} ContainsIff(s: string, t: string)
    ensures Contains(s, t) <==> exists i :: OccursAt(s, t, i)
    decreases |s|
  {
    if t <= s {
      assert OccursAt(s, t, 0);
    } else if s != [] {
      ContainsIff(s[1..], t);
      assert !OccursAt(s, t, 0);
      forall i | OccursAt(s, t, i) && i > 0 ensures OccursAt(s[1..], t, i - 1) {
        OccursShift(s, t, i - 1);
      }
      if Contains(s[1..], t) {
        var i :| OccursAt(s[1..], t, i);
        OccursShift(s, t, i);
      }
    }
  }

  /** An occurrence one place further in s is an occurrence in s without its first character. */
  lemma OccursShift(s: string, t: string, i: nat)
    requires s != []
    ensures OccursAt(s, t, i + 1) <==> OccursAt(s[1..], t, i)
  {
    if i + |t| <= |s[1..]| {
      assert s[1..][i..i + |t|] == s[i + 1..i + 1 + |t|];
    }
  }

  /** A token placed anywhere in a string is found there. */
  lemma ContainsInfix(a: string, t: string, b: string)
    ensures Contains(a + t + b, t)
  {
    var s := a + t + b;
    assert s[|a|..|a| + |t|] == t;
    assert OccursAt(s, t, |a|);
    ContainsIff(s, t);
  }

  /* ---------------- whitespace and str.strip() ---------------- */

  /** Python's `str.isspace()` for one character (the characters `str.strip()` removes). */
  predicate IsSpace(c: char)
  {
    || c == ' ' || c == '\t' || c == '\n' || c == '\r'
    || c == '\U{000B}' || c == '\U{000C}'
    || ('\U{001C}' <= c <= '\U{001F}')
    || c == '\U{0085}' || c == '\U{00A0}' || c == '\U{1680}'
    || ('\U{2000}' <= c <= '\U{200A}')
    || c == '\U{2028}' || c == '\U{2029}' || c == '\U{202F}' || c == '\U{205F}'
    || c == '\U{3000}'
  }

  /** The number of whitespace characters at the start of s. */
  function LeadingSpaces(s: string): (n: nat)
    ensures n <= |s|
    ensures forall k :: 0 <= k < n ==> IsSpace(s[k])
    ensures n < |s| ==> !IsSpace(s[n])
  {
    if s != [] && IsSpace(s[0]) then 1 + LeadingSpaces(s[1..]) else 0
  }

  /** The number of whitespace characters at the end of s. */
  function TrailingSpaces(s: string): (n: nat)
    ensures n <= |s|
    ensures forall k :: |s| - n <= k < |s| ==> IsSpace(s[k])
    ensures n < |s| ==> !IsSpace(s[|s| - n - 1])
  {
    if s != [] && IsSpace(s[|s| - 1]) then 1 + TrailingSpaces(s[..|s| - 1]) else 0
  }

  /** Python's `str.strip()` with no argument. */
  function Strip(s: string): string
  {
    var t := s[LeadingSpaces(s)..];
    t[..|t| - TrailingSpaces(t)]
  }

  /**
   What `str.strip()` promises about the slice s[i..j] it returns: everything
   cut away on either side is whitespace, and the slice neither starts nor
   ends with whitespace.
   */
  ghost predicate StripsTo(s: string, i: int, j: int)
  {
    && 0 <= i <= j <= |s|
    && (forall k :: 0 <= k < i ==> IsSpace(s[k]))
    && (forall k :: j <= k < |s| ==> IsSpace(s[k]))
    && (i < j ==> !IsSpace(s[i]) && !IsSpace(s[j - 1]))
  }

  lemma StripMeetsSpec(s: string)
    ensures exists i, j :: StripsTo(s, i, j) && Strip(s) == s[i..j]
  {
    var i := LeadingSpaces(s);
    var t := s[i..];
    var m := TrailingSpaces(t);
    var j := i + |t| - m;
    assert |t| == |s| - i && j <= |s|;
    assert t[..|t| - m] == s[i..j];
    forall k | j <= k < |s| ensures IsSpace(s[k]) {
      assert s[k] == t[k - i];
    }
    if i < j {
      assert s[j - 1] == t[|t| - m - 1];
    }
    assert StripsTo(s, i, j);
  }

  /** The stripped text is unique: any slice meeting the promise is `Strip(s)`. */
  lemma StripUnique(s: string, i: int, j: int)
    requires StripsTo(s, i, j)
    ensures s[i..j] == Strip(s)
  {
    if i == j {
      StripAllSpaces(s, i);
    } else {
      var t := s[i..];
      assert LeadingSpaces(s) == i;
      assert t[|t| - (|s| - j) - 1] == s[j - 1];
      forall k | |t| - (|s| - j) <= k < |t| ensures IsSpace(t[k]) {
        assert t[k] == s[k + i];
      }
      TrailingSpacesExact(t, |s| - j);
    }
  }

  lemma StripAllSpaces(s: string, i: int)
    requires StripsTo(s, i, i)
    ensures Strip(s) == []
  {
    forall k | 0 <= k < |s| ensures IsSpace(s[k]) {
      if k < i {} else {}
    }
    assert LeadingSpaces(s) == |s|;
  }

  /** The trailing-space count is the one index where the whitespace run ends. */
  lemma {:induction false} TrailingSpacesExact(t: string, m: nat)
    requires m < |t| && !IsSpace(t[|t| - m - 1])
    requires forall k :: |t| - m <= k < |t| ==> IsSpace(t[k])
    ensures TrailingSpaces(t) == m
  {
    if m > 0 {
      var u := t[..|t| - 1];
      assert u[|u| - (m - 1) - 1] == t[|t| - m - 1];
      forall k | |u| - (m - 1) <= k < |u| ensures IsSpace(u[k]) {
        assert u[k] == t[k];
      }
      TrailingSpacesExact(u, m - 1);
    }
  }

  lemma StripIdempotent(s: string)
    ensures Strip(Strip(s)) == Strip(s)
  {
    var r := Strip(s);
    StripMeetsSpec(s);
    var i, j :| StripsTo(s, i, j) && r == s[i..j];
    assert StripsTo(r, 0, |r|) by {
      if r != [] { assert r[0] == s[i] && r[|r| - 1] == s[j - 1]; }
    }
    StripUnique(r, 0, |r|);
  }

  /* ---------------- str.lower() ---------------- */

  /** `str.lower()` on one character, for A–Z, А–Я and Ё; every other character is kept. */
  function LowerChar(c: char): char
  {
    if 'A' <= c <= 'Z' then (c as int + 32) as char
    else if 'А' <= c <= 'Я' then (c as int + 32) as char
    else if c == 'Ё' then 'ё'
    else c
  }

  function Lower(s: string): (r: string)
    ensures |r| == |s|
    ensures forall k :: 0 <= k < |s| ==> r[k] == LowerChar(s[k])
  {
    seq(|s|, k requires 0 <= k < |s| => LowerChar(s[k]))
  }

  /** Lower-casing twice changes nothing more. */
  lemma LowerIdempotent(s: string)
    ensures Lower(Lower(s)) == Lower(s)
  {
  }

  /* ---------------- str.split(' ', 1) ---------------- */

  /** The index of the first occurrence of c in s, if any. */
  function IndexOf(s: string, c: char): (r: Option<nat>)
    ensures r.None? <==> c !in s
    ensures r.Some? ==> r.value < |s| && s[r.value] == c && c !in s[..r.value]
  {
    if s == [] then None
    else if s[0] == c then Some(0)
    else match IndexOf(s[1..], c)
      case None => None
      case Some(i) =>
        assert s[..i + 1] == [s[0]] + s[1..][..i];
        Some(i + 1)
  }

  /**
   `s.split(sep, 1)`: the part before the first separator and the part after
   it, or the whole string alone when there is no separator.
   */
  function SplitOnce(s: string, sep: char): (parts: seq<string>)
    ensures 1 <= |parts| <= 2
    ensures |parts| == 1 <==> sep !in s
    ensures |parts| == 1 ==> parts[0] == s
    ensures |parts| == 2 ==> s == parts[0] + [sep] + parts[1] && sep !in parts[0]
  {
    match IndexOf(s, sep)
    case None => [s]
    case Some(i) =>
      assert s == s[..i] + [sep] + s[i + 1..];
      [s[..i], s[i + 1..]]
  }

  /* ---------------- ", ".join(...) ---------------- */

  function Join(xs: seq<string>, sep: string): string
  {
    if xs == [] then []
    else if |xs| == 1 then xs[0]
    else xs[0] + sep + Join(xs[1..], sep)
  }

  /* ---------------- str(int) ---------------- */

  function DigitChar(d: nat): char
    requires d < 10
  {
    ('0' as int + d) as char
  }

  /** The decimal digits of n, most significant first, without leading zeros. */
  function Digits(n: nat): (r: string)
    ensures |r| >= 1
    ensures forall k :: 0 <= k < |r| ==> '0' <= r[k] <= '9'
    ensures n >= 10 <==> |r| >= 2
  {
    if n < 10 then [DigitChar(n)] else Digits(n / 10) + [DigitChar(n % 10)]
  }

  /** Python's `str(n)` for an integer. */
  function DecimalString(n: int): string
  {
    if n < 0 then "-" + Digits(-n) else Digits(n)
  }

  /** Appending one element is injective. */
  lemma SnocInjective<T>(x: seq<T>, a: T, y: seq<T>, b: T)
    requires x + [a] == y + [b]
    ensures x == y && a == b
  {
    assert |x| == |y|;
    assert x == (x + [a])[..|x|] && y == (y + [b])[..|y|];
    assert a == (x + [a])[|x|] && b == (y + [b])[|y|];
  }

  lemma {:induction false} DigitsInjective(a: nat, b: nat)
    requires Digits(a) == Digits(b)
    ensures a == b
  {
    if a < 10 {
      assert b < 10;
      assert Digits(a)[0] == DigitChar(a) && Digits(b)[0] == DigitChar(b);
    } else {
      assert b >= 10;
      SnocInjective(Digits(a / 10), DigitChar(a % 10), Digits(b / 10), DigitChar(b % 10));
      DigitsInjective(a / 10, b / 10);
      assert a % 10 == b % 10;
    }
  }

  /** Different user ids are stored under different keys. */
  lemma DecimalStringInjective(a: int, b: int)
    requires a != b
    ensures DecimalString(a) != DecimalString(b)
  {
    if a < 0 && b < 0 {
      if DecimalString(a) == DecimalString(b) {
        assert DecimalString(a)[1..] == Digits(-a) && DecimalString(b)[1..] == Digits(-b);
        DigitsInjective(-a, -b);
      }
    } else if a >= 0 && b >= 0 {
      if Digits(a) == Digits(b) {
        DigitsInjective(a, b);
      }
    } else {
      assert DecimalString(a)[0] != DecimalString(b)[0];
    }
  }
}
