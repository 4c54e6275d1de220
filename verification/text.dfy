/**
 * String helpers with Python's meaning: decimal rendering of integers
 * (`str(n)` / f-strings), `startswith`, the substring test `a in s`, and
 * `sorted` on a list of strings (code-point lexicographic order).
 */
module Text {

  /** The decimal digit for `d`. */
  function DigitChar(d: nat): (c: char)
    requires d < 10
    ensures '0' <= c <= '9'
    ensures c as int - '0' as int == d
  {
    ('0' as int + d) as char
  }

  /** `str(n)` for a non-negative integer: decimal digits, no leading zeros. */
  function NatToString(n: nat): (s: string)
    ensures |s| >= 1
    ensures forall i :: 0 <= i < |s| ==> '0' <= s[i] <= '9'
    ensures n >= 10 ==> |s| >= 2
  {
    if n < 10 then [DigitChar(n)] else NatToString(n / 10) + [DigitChar(n % 10)]
  }

  /** `str(i)` for any integer. */
  function IntToString(i: int): (s: string)
    ensures |s| >= 1
  {
    if i < 0 then "-" + NatToString(-i) else NatToString(i)
  }

  /** Different numbers render as different strings. */
  lemma {:induction false} NatToStringInjective(a: nat, b: nat)
    requires NatToString(a) == NatToString(b)
    ensures a == b
  {
    var s := NatToString(a);
    if a < 10 && b < 10 {
      assert DigitChar(a) == s[0] == DigitChar(b);
    } else if a >= 10 && b >= 10 {
      assert NatToString(a / 10) == s[..|s| - 1] == NatToString(b / 10);
      NatToStringInjective(a / 10, b / 10);
      assert DigitChar(a % 10) == s[|s| - 1] == DigitChar(b % 10);
    }
  }

  /** `s.startswith(p)`. */
  predicate StartsWith(s: string, p: string) {
    |p| <= |s| && s[..|p|] == p
  }

  /** Python's `p in s` on strings: `p` occurs as a contiguous substring of `s`. */
  predicate IsSubstring(p: string, s: string)
    decreases |s|
  {
    StartsWith(s, p) || (|s| > 0 && IsSubstring(p, s[1..]))
  }

  /** Python's `a <= b` on strings: code-point lexicographic order. */
  predicate LexLe(a: string, b: string)
    decreases |a|
  {
    |a| == 0 || (|b| > 0 && (a[0] < b[0] || (a[0] == b[0] && LexLe(a[1..], b[1..]))))
  }

  lemma {:induction false} LexLeTotal(a: string, b: string)
    ensures LexLe(a, b) || LexLe(b, a)
    decreases |a|
  {
    if |a| > 0 && |b| > 0 && a[0] == b[0] {
      LexLeTotal(a[1..], b[1..]);
    }
  }

  lemma {:induction false} LexLeTransitive(a: string, b: string, c: string)
    requires LexLe(a, b) && LexLe(b, c)
    ensures LexLe(a, c)
    decreases |a|
  {
    if |a| > 0 && a[0] == b[0] && b[0] == c[0] {
      LexLeTransitive(a[1..], b[1..], c[1..]);
    }
  }

  predicate Sorted(s: seq<string>) {
    forall i, j :: 0 <= i < j < |s| ==> LexLe(s[i], s[j])
  }

  /** Insert `x` into the sorted sequence `s`, before the first element not below it. */
  function Insert(x: string, s: seq<string>): (r: seq<string>)
    requires Sorted(s)
    ensures Sorted(r)
    ensures multiset(r) == multiset(s) + multiset{x}
  {
    if |s| == 0 then [x]
    else if LexLe(x, s[0]) then
      assert forall j :: 0 < j < |s| ==> LexLe(x, s[j]) by {
        forall j | 0 < j < |s| ensures LexLe(x, s[j]) {
          LexLeTransitive(x, s[0], s[j]);
        }
      }
      [x] + s
    else
      LexLeTotal(x, s[0]);
      var t := Insert(x, s[1..]);
      assert s == [s[0]] + s[1..];
      assert forall y :: y in multiset(t) ==> LexLe(s[0], y);
      ConsSorted(s[0], t);
      [s[0]] + t
  }

  /** A sorted sequence stays sorted behind a head that is at most each of its elements. */
  lemma ConsSorted(h: string, t: seq<string>)
    requires Sorted(t)
    requires forall y :: y in multiset(t) ==> LexLe(h, y)
    ensures Sorted([h] + t)
  {
    forall i, j | 0 <= i < j < |[h] + t|
      ensures LexLe(([h] + t)[i], ([h] + t)[j])
    {
      assert t[j - 1] in multiset(t);
    }
  }

  /** Python's `sorted` on a list of strings. */
  function Sort(s: seq<string>): (r: seq<string>)
    ensures Sorted(r)
    ensures multiset(r) == multiset(s)
  {
    if |s| == 0 then []
    else
      assert s == [s[0]] + s[1..];
      Insert(s[0], Sort(s[1..]))
  }
}
