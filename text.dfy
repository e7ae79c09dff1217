/**
 * The few Python string operations the crawler relies on, written out:
 * `str.find`, `int(str)`, `str(int)`, the slice `s[k:]` and the code-point
 * order that `sort_keys` uses.
 */
module Text {
  import opened Wrappers

  // ---------------------------------------------------------------------
  // str.find
  // ---------------------------------------------------------------------

  /** True iff `sub` occurs in `s` starting at index `i`. */
  predicate OccursAt(sub: string, s: string, i: nat)
  {
    i <= |s| && sub <= s[i..]
  }

  /**
   * Python's `s.find(sub)`: the lowest index at which `sub` occurs in `s`,
   * or -1 when it occurs nowhere.
   */
  function Find(s: string, sub: string): (r: int)
    ensures -1 <= r <= |s|
    ensures r >= 0 ==> OccursAt(sub, s, r) && forall i: nat | i < r :: !OccursAt(sub, s, i)
    ensures r == -1 <==> forall i: nat | i <= |s| :: !OccursAt(sub, s, i)
    decreases |s|
  {
    if sub <= s then 0
    else if s == [] then -1
    else
      var r := Find(s[1..], sub);
      assert forall i: nat | 1 <= i <= |s| :: OccursAt(sub, s, i) == OccursAt(sub, s[1..], i - 1) by {
        forall i: nat | 1 <= i <= |s| ensures s[1..][i - 1..] == s[i..] { }
      }
      if r < 0 then -1 else r + 1
  }

  // ---------------------------------------------------------------------
  // int(str) and str(int)
  // ---------------------------------------------------------------------

  /** The ASCII characters Python's `int()` strips around a literal: space, and tab to carriage return. */
  predicate IsSpace(c: char)
  {
    c == ' ' || '\t' <= c <= '\r'
  }

  predicate IsDigit(c: char)
  {
    '0' <= c <= '9'
  }

  function DigitValue(c: char): nat
    requires IsDigit(c)
  {
    (c as int - '0' as int) as nat
  }

  function DigitChar(d: nat): (c: char)
    requires d < 10
    ensures IsDigit(c) && DigitValue(c) == d
  {
    ('0' as int + d) as char
  }

  function TrimLeft(s: string): string
  {
    if |s| > 0 && IsSpace(s[0]) then TrimLeft(s[1..]) else s
  }

  function TrimRight(s: string): string
  {
    if |s| > 0 && IsSpace(s[|s| - 1]) then TrimRight(s[..|s| - 1]) else s
  }

  /**
   * A decimal literal as `int()` accepts it: digits, where a single
   * underscore may stand between two digits.
   */
  predicate DigitGroups(u: string)
  {
    && |u| > 0
    && IsDigit(u[0])
    && forall i | 0 <= i < |u| :: IsDigit(u[i]) || (u[i] == '_' && i + 1 < |u| && IsDigit(u[i + 1]))
  }

  /** The value of a run of digits and underscores, underscores ignored. */
  function DecimalValue(u: string): nat
  {
    if u == [] then 0
    else if IsDigit(u[|u| - 1]) then DecimalValue(u[..|u| - 1]) * 10 + DigitValue(u[|u| - 1])
    else DecimalValue(u[..|u| - 1])
  }

  /**
   * Python's `int(s)` on a `str`: surrounding whitespace is ignored, one
   * optional sign, then a decimal literal; anything else raises ValueError,
   * which is `None` here.
   */
  function ParseInt(s: string): Option<int>
  {
    var t := TrimRight(TrimLeft(s));
    if |t| > 0 && (t[0] == '+' || t[0] == '-') then
      if DigitGroups(t[1..]) then
        var v: int := DecimalValue(t[1..]);
        Some(if t[0] == '-' then -v else v)
      else None
    else if DigitGroups(t) then Some(DecimalValue(t))
    else None
  }

  /** Python's `str(n)` for a non-negative `n`. */
  function NatToString(n: nat): (s: string)
    ensures |s| > 0 && forall i | 0 <= i < |s| :: IsDigit(s[i])
  {
    if n < 10 then [DigitChar(n)] else NatToString(n / 10) + [DigitChar(n % 10)]
  }

  /** Python's `str(i)`. */
  function IntToString(i: int): string
  {
    if i < 0 then "-" + NatToString(-i) else NatToString(i)
  }

  lemma {:induction false} NatToStringValue(n: nat)
    ensures DecimalValue(NatToString(n)) == n
    decreases n
  {
    var s := NatToString(n);
    if n >= 10 {
      NatToStringValue(n / 10);
      assert s[..|s| - 1] == NatToString(n / 10);
    }
  }

  lemma TrimDigitsUnchanged(u: string)
    requires |u| > 0 && !IsSpace(u[0]) && !IsSpace(u[|u| - 1])
    ensures TrimRight(TrimLeft(u)) == u
  {
  }

  /** `int(str(i)) == i`: the decimal rendering of an integer parses back to it. */
  lemma {:induction false} ParseIntToString(i: int)
    ensures ParseInt(IntToString(i)) == Some(i)
  {
    var digits := NatToString(if i < 0 then -i else i);
    NatToStringValue(if i < 0 then -i else i);
    var s := IntToString(i);
    TrimDigitsUnchanged(s);
    if i < 0 {
      assert s[1..] == digits;
    } else {
      assert s == digits;
    }
  }

  // ---------------------------------------------------------------------
  // s[k:]
  // ---------------------------------------------------------------------

  /** Python's `s[k:]` for a non-negative `k`: empty when `k` is past the end. */
  function SliceFrom(s: string, k: nat): (r: string)
    ensures |r| == if k <= |s| then |s| - k else 0
    ensures forall i | 0 <= i < |r| :: r[i] == s[k + i]
    ensures s[..if k <= |s| then k else |s|] + r == s
  {
    if k <= |s| then s[k..] else ""
  }

  // ---------------------------------------------------------------------
  // code-point order of strings (what sort_keys sorts by)
  // ---------------------------------------------------------------------

  /** Python's `a < b` on `str`: lexicographic by code point. */
  predicate StrLess(a: string, b: string)
  {
    if a == [] then b != []
    else if b == [] then false
    else a[0] < b[0] || (a[0] == b[0] && StrLess(a[1..], b[1..]))
  }

  lemma {:induction false} StrLessIrreflexive(a: string)
    ensures !StrLess(a, a)
  {
    if a != [] {
      StrLessIrreflexive(a[1..]);
    }
  }

  lemma {:induction false} StrLessTransitive(a: string, b: string, c: string)
    requires StrLess(a, b) && StrLess(b, c)
    ensures StrLess(a, c)
  {
    if a != [] && b != [] && c != [] && a[0] == b[0] == c[0] {
      StrLessTransitive(a[1..], b[1..], c[1..]);
    }
  }

  /** Strings that agree before position `n` and differ there are ordered by that character. */
  lemma {:induction false} StrLessAt(a: string, b: string, n: nat)
    requires n < |a| && n < |b| && a[n] < b[n]
    requires forall i | 0 <= i < n :: a[i] == b[i]
    ensures StrLess(a, b)
  {
    if n > 0 {
      StrLessAt(a[1..], b[1..], n - 1);
    }
  }

  /** Strictly increasing in code-point order, hence also free of repeats. */
  predicate StrictlySorted(keys: seq<string>)
  {
    forall i | 0 <= i < |keys| - 1 :: StrLess(keys[i], keys[i + 1])
  }

  lemma {:induction false} StrictlySortedDistinct(keys: seq<string>, i: nat, j: nat)
    requires StrictlySorted(keys) && i < j < |keys|
    ensures StrLess(keys[i], keys[j]) && keys[i] != keys[j]
    decreases j - i
  {
    if j == i + 1 {
    } else {
      StrictlySortedDistinct(keys, i, j - 1);
      StrLessTransitive(keys[i], keys[j - 1], keys[j]);
    }
    if keys[i] == keys[j] {
      StrLessIrreflexive(keys[i]);
    }
  }
}
