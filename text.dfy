/**
 * The Python string operations the back end relies on: `str.strip()`,
 * `str.upper()`, `str.find`, `str.rfind` and `str(i)` for a non-negative int.
 */
module Text {

  /** Python's `str.isspace()` for a single character (also what `\s` matches). */
  predicate IsSpace(c: char) {
    ('\t' <= c <= '\r') || ('\U{1C}' <= c <= ' ')
    || c == '\U{85}' || c == '\U{A0}' || c == '\U{1680}'
    || ('\U{2000}' <= c <= '\U{200A}')
    || c == '\U{2028}' || c == '\U{2029}' || c == '\U{202F}' || c == '\U{205F}' || c == '\U{3000}'
  }

  /** A newline is whitespace. */
  lemma NewlineIsSpace()
    ensures IsSpace('\n')
  {
  }

  /** The braces are not whitespace. */
  lemma BracesAreNotSpace()
    ensures !IsSpace('{') && !IsSpace('}')
  {
  }

  /** Neither end of `s` is whitespace. */
  predicate IsStripped(s: string) {
    s == [] || (!IsSpace(s[0]) && !IsSpace(s[|s| - 1]))
  }

  /** Number of whitespace characters at the front of `s`. */
  function LeadingSpaces(s: string): (k: nat)
    ensures k <= |s|
  {
    if |s| > 0 && IsSpace(s[0]) then 1 + LeadingSpaces(s[1..]) else 0
  }

  /** Number of whitespace characters at the back of `s`. */
  function TrailingSpaces(s: string): (k: nat)
    ensures k <= |s|
  {
    if |s| > 0 && IsSpace(s[|s| - 1]) then 1 + TrailingSpaces(s[..|s| - 1]) else 0
  }

  /** Where `s.strip()` begins inside `s`. */
  function StripStart(s: string): (a: nat)
    ensures a <= |s|
  {
    LeadingSpaces(s)
  }

  /** Where `s.strip()` ends inside `s`. */
  function StripStop(s: string): (b: nat)
    ensures StripStart(s) <= b <= |s|
  {
    |s| - TrailingSpaces(s[StripStart(s)..])
  }

  /** `s.strip()`: `s` without the whitespace at either end. */
  function Strip(s: string): string
  {
    if |s| > 0 && IsSpace(s[0]) then Strip(s[1..])
    else if |s| > 0 && IsSpace(s[|s| - 1]) then Strip(s[..|s| - 1])
    else s
  }

  /** Stripping keeps exactly the slice between the two whitespace runs. */
  lemma {:induction false} StripIsSlice(s: string)
    ensures Strip(s) == s[StripStart(s)..StripStop(s)]
  {
    if |s| > 0 && IsSpace(s[0]) {
      var t := s[1..];
      StripIsSlice(t);
      var a := StripStart(t);
      assert StripStart(s) == a + 1;
      assert s[a + 1..] == t[a..];
      assert StripStop(s) == StripStop(t) + 1;
      assert s[a + 1..StripStop(s)] == t[a..StripStop(t)];
    } else if |s| > 0 && IsSpace(s[|s| - 1]) {
      var t := s[..|s| - 1];
      StripIsSlice(t);
      assert StripStart(s) == 0;
      assert StripStart(t) == 0;
      assert s[0..] == s;
      assert t[0..] == t;
      assert TrailingSpaces(s) == 1 + TrailingSpaces(t);
      assert StripStop(s) == StripStop(t);
      assert s[0..StripStop(s)] == t[0..StripStop(t)];
    }
  }

  /** `LeadingSpaces` counts exactly the whitespace run at the front. */
  lemma {:induction false} LeadingSpacesSpec(s: string)
    ensures forall i :: 0 <= i < LeadingSpaces(s) ==> IsSpace(s[i])
    ensures LeadingSpaces(s) < |s| ==> !IsSpace(s[LeadingSpaces(s)])
  {
    if |s| > 0 && IsSpace(s[0]) {
      LeadingSpacesSpec(s[1..]);
    }
  }

  /** `TrailingSpaces` counts exactly the whitespace run at the back. */
  lemma {:induction false} TrailingSpacesSpec(s: string)
    ensures forall i :: |s| - TrailingSpaces(s) <= i < |s| ==> IsSpace(s[i])
    ensures TrailingSpaces(s) < |s| ==> !IsSpace(s[|s| - TrailingSpaces(s) - 1])
  {
    if |s| > 0 && IsSpace(s[|s| - 1]) {
      TrailingSpacesSpec(s[..|s| - 1]);
    }
  }

  /** The slice between the two whitespace runs starts and ends with non-whitespace. */
  lemma StripBounds(s: string)
    ensures forall i :: 0 <= i < StripStart(s) ==> IsSpace(s[i])
    ensures forall i :: StripStop(s) <= i < |s| ==> IsSpace(s[i])
    ensures StripStart(s) < StripStop(s) ==> !IsSpace(s[StripStart(s)]) && !IsSpace(s[StripStop(s) - 1])
  {
    var a, b := StripStart(s), StripStop(s);
    var t := s[a..];
    LeadingSpacesSpec(s);
    TrailingSpacesSpec(t);
    assert b == a + |t| - TrailingSpaces(t);
    forall i | b <= i < |s|
      ensures IsSpace(s[i])
    {
      assert s[i] == t[i - a];
    }
    if a < b {
      assert s[b - 1] == t[b - 1 - a];
    }
  }

  /**
   * `s.strip()` removes whitespace only, and only at the two ends, and what
   * it leaves begins and ends with a non-whitespace character.
   */
  lemma StripSpec(s: string)
    ensures Strip(s) == s[StripStart(s)..StripStop(s)]
    ensures forall i :: 0 <= i < StripStart(s) ==> IsSpace(s[i])
    ensures forall i :: StripStop(s) <= i < |s| ==> IsSpace(s[i])
    ensures IsStripped(Strip(s))
  {
    StripIsSlice(s);
    StripBounds(s);
  }

  /** Every character of `s` is whitespace. */
  predicate AllSpace(s: string) {
    forall i :: 0 <= i < |s| ==> IsSpace(s[i])
  }

  /**
   * Stripping is determined by the shape `u + y + v`: whitespace runs around
   * a piece that neither starts nor ends with whitespace leave exactly that piece.
   */
  lemma {:induction false} StripUnique(u: string, y: string, v: string)
    requires AllSpace(u) && AllSpace(v) && IsStripped(y)
    ensures Strip(u + y + v) == y
    decreases |u| + |v|
  {
    var x := u + y + v;
    if |u| > 0 {
      assert x[0] == u[0] && IsSpace(u[0]);
      StripPeelsFront(x);
      assert x[1..] == u[1..] + y + v;
      StripUnique(u[1..], y, v);
    } else if |y| > 0 && |v| > 0 {
      assert x[0] == y[0];
      assert x[|x| - 1] == v[|v| - 1] && IsSpace(v[|v| - 1]);
      StripPeelsBack(x);
      assert x[..|x| - 1] == u + y + v[..|v| - 1];
      StripUnique(u, y, v[..|v| - 1]);
    } else if |y| > 0 {
      assert x == y;
    } else if |v| > 0 {
      assert x[0] == v[0] && IsSpace(v[0]);
      StripPeelsFront(x);
      assert x[1..] == u + y + v[1..];
      StripUnique(u, y, v[1..]);
    }
  }

  /** A leading whitespace character is dropped. */
  lemma StripPeelsFront(x: string)
    requires |x| > 0 && IsSpace(x[0])
    ensures Strip(x) == Strip(x[1..])
  {
  }

  /** With no leading whitespace, a trailing whitespace character is dropped. */
  lemma StripPeelsBack(x: string)
    requires |x| > 0 && !IsSpace(x[0]) && IsSpace(x[|x| - 1])
    ensures Strip(x) == Strip(x[..|x| - 1])
  {
  }

  lemma AllSpaceConcat(a: string, b: string)
    requires AllSpace(a) && AllSpace(b)
    ensures AllSpace(a + b)
  {
    forall i | 0 <= i < |a + b|
      ensures IsSpace((a + b)[i])
    {
      if i >= |a| {
        assert (a + b)[i] == b[i - |a|];
      }
    }
  }

  /** What `strip` removes from `s` is whitespace on both sides of the kept slice. */
  lemma StripSplit(s: string)
    ensures var a, b := StripStart(s), StripStop(s);
            s == s[..a] + s[a..b] + s[b..] && AllSpace(s[..a]) && AllSpace(s[b..])
  {
    StripBounds(s);
    var a, b := StripStart(s), StripStop(s);
    assert s == s[..a] + s[a..b] + s[b..];
    forall i | 0 <= i < |s[b..]|
      ensures IsSpace(s[b..][i])
    {
      assert s[b..][i] == s[b + i];
    }
  }

  /** `(u + s + v).strip() == s.strip()` when `u` and `v` are whitespace. */
  lemma StripIgnoresSurroundingSpace(u: string, s: string, v: string)
    requires AllSpace(u) && AllSpace(v)
    ensures Strip(u + s + v) == Strip(s)
  {
    StripSplit(s);
    StripSpec(s);
    var p, y, q := s[..StripStart(s)], s[StripStart(s)..StripStop(s)], s[StripStop(s)..];
    AllSpaceConcat(u, p);
    AllSpaceConcat(q, v);
    assert u + s + v == (u + p) + y + (q + v);
    StripUnique(u + p, y, q + v);
  }

  /** `c.upper()` on the ASCII letters; every other character is kept. */
  function UpperChar(c: char): (u: char)
    ensures 'a' <= c <= 'z' ==> 'A' <= u <= 'Z' && u as int - 'A' as int == c as int - 'a' as int
    ensures !('a' <= c <= 'z') ==> u == c
  {
    if 'a' <= c <= 'z' then (c as int - 'a' as int + 'A' as int) as char else c
  }

  /** `s.upper()`, character by character. */
  function Upper(s: string): (r: string)
    ensures |r| == |s|
  {
    if s == [] then [] else [UpperChar(s[0])] + Upper(s[1..])
  }

  /** Upper-casing leaves a string with no lower-case ASCII letter unchanged. */
  lemma {:induction false} UpperKeepsUpperCase(s: string)
    requires forall i :: 0 <= i < |s| ==> !('a' <= s[i] <= 'z')
    ensures Upper(s) == s
  {
    if s != [] {
      UpperKeepsUpperCase(s[1..]);
      assert s == [s[0]] + s[1..];
    }
  }

  /** The lowest index at or after `i` holding `c`, or -1 when there is none. */
  function FindFrom(s: string, c: char, i: nat): (r: int)
    requires i <= |s|
    ensures r == -1 || i <= r < |s|
    ensures r == -1 ==> forall k :: i <= k < |s| ==> s[k] != c
    ensures r >= 0 ==> s[r] == c && forall k :: i <= k < r ==> s[k] != c
    decreases |s| - i
  {
    if i == |s| then -1
    else if s[i] == c then i
    else FindFrom(s, c, i + 1)
  }

  lemma {:induction false} UpperSpec(s: string)
    ensures forall i :: 0 <= i < |s| ==> Upper(s)[i] == UpperChar(s[i])
  {
    if s != [] {
      UpperSpec(s[1..]);
    }
  }

  /** `s.find(c)`: the lowest index holding `c`, or -1 when there is none. */
  function Find(s: string, c: char): (r: int)
    ensures -1 <= r < |s|
    ensures r == -1 ==> forall k :: 0 <= k < |s| ==> s[k] != c
    ensures r >= 0 ==> s[r] == c && forall k :: 0 <= k < r ==> s[k] != c
  {
    FindFrom(s, c, 0)
  }

  /** The highest index below `j` holding `c`, or -1 when there is none. */
  function FindBefore(s: string, c: char, j: nat): (r: int)
    requires j <= |s|
    ensures -1 <= r < j
    ensures r == -1 ==> forall k :: 0 <= k < j ==> s[k] != c
    ensures r >= 0 ==> s[r] == c && forall k :: r < k < j ==> s[k] != c
  {
    if j == 0 then -1
    else if s[j - 1] == c then j - 1
    else FindBefore(s, c, j - 1)
  }

  /** `s.rfind(c)`: the highest index holding `c`, or -1 when there is none. */
  function RFind(s: string, c: char): (r: int)
    ensures -1 <= r < |s|
    ensures r == -1 ==> forall k :: 0 <= k < |s| ==> s[k] != c
    ensures r >= 0 ==> s[r] == c && forall k :: r < k < |s| ==> s[k] != c
  {
    FindBefore(s, c, |s|)
  }

  predicate IsDigit(c: char) {
    '0' <= c <= '9'
  }

  function DigitChar(d: nat): (c: char)
    requires d < 10
    ensures IsDigit(c) && c as int - '0' as int == d
  {
    ('0' as int + d) as char
  }

  /** `str(n)` for a non-negative int: its decimal digits, most significant first. */
  function Decimal(n: nat): (r: string)
    ensures |r| >= 1
    ensures forall i :: 0 <= i < |r| ==> IsDigit(r[i])
    ensures n >= 10 <==> |r| >= 2
    ensures r[|r| - 1] == DigitChar(n % 10)
  {
    if n < 10 then [DigitChar(n)] else Decimal(n / 10) + [DigitChar(n % 10)]
  }

  /** Different numbers have different decimal renderings. */
  lemma {:induction false} DecimalInjective(m: nat, n: nat)
    requires Decimal(m) == Decimal(n)
    ensures m == n
  {
    var dm, dn := Decimal(m), Decimal(n);
    assert m % 10 == n % 10 by {
      assert DigitChar(m % 10) == DigitChar(n % 10);
    }
    if m >= 10 {
      assert dm[..|dm| - 1] == Decimal(m / 10);
      assert dn[..|dn| - 1] == Decimal(n / 10);
      DecimalInjective(m / 10, n / 10);
    }
  }
}
