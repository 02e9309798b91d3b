/**
  String helpers standing for the JavaScript built-ins the components call:
  `toLowerCase`, `includes` on strings, `Number.prototype.toString` for
  integers, and the default `Array.prototype.sort` order on strings.
 */
module Text {

  /** ASCII lower-casing of one character; other characters are unchanged. */
  function LowerChar(c: char): char {
    if 'A' <= c <= 'Z' then (c as int + 32) as char else c
  }

  /** `s.toLowerCase()`, restricted to ASCII letters. */
  function Lower(s: string): (r: string)
    ensures |r| == |s|
    ensures forall i :: 0 <= i < |s| ==> r[i] == LowerChar(s[i])
  {
    seq(|s|, i requires 0 <= i < |s| => LowerChar(s[i]))
  }

  /** Lower-casing twice is the same as lower-casing once. */
  lemma LowerIdempotent(s: string)
    ensures Lower(Lower(s)) == Lower(s)
  {
    var l := Lower(s);
    assert forall i :: 0 <= i < |l| ==> LowerChar(l[i]) == l[i];
  }

  /** Lower-casing is character-wise, so it commutes with taking a slice. */
  lemma LowerSlice(s: string, i: int, j: int)
    requires 0 <= i <= j <= |s|
    ensures Lower(s)[i..j] == Lower(s[i..j])
  {
    var t := s[i..j];
    var l, m := Lower(s)[i..j], Lower(t);
    forall k | 0 <= k < j - i
      ensures l[k] == m[k]
    {
      assert t[k] == s[i + k];
    }
    assert l == m;
  }

  /** `sub` occurs in `s` starting at index `i`. */
  predicate OccursAt(s: string, sub: string, i: int) {
    0 <= i <= |s| - |sub| && s[i..i + |sub|] == sub
  }

  /** `s.includes(sub)`: `sub` occurs in `s` at some position. */
  predicate Contains(s: string, sub: string) {
    exists i | 0 <= i <= |s| - |sub| :: OccursAt(s, sub, i)
  }

  /** Substring containment is transitive. */
  lemma ContainsTransitive(a: string, b: string, c: string)
    requires Contains(a, b) && Contains(b, c)
    ensures Contains(a, c)
  {
    var i :| 0 <= i <= |a| - |b| && OccursAt(a, b, i);
    var j :| 0 <= j <= |b| - |c| && OccursAt(b, c, j);
    assert b == a[i..i + |b|];
    forall k | 0 <= k < |c|
      ensures a[i + j + k] == c[k]
    {
      assert c[k] == b[j + k] == a[i + j + k];
    }
    assert a[i + j..i + j + |c|] == c;
    assert OccursAt(a, c, i + j);
  }

  /** If `sub` occurs in `s`, its lower-cased form occurs in `s` lower-cased. */
  lemma ContainsLower(s: string, sub: string)
    requires Contains(s, sub)
    ensures Contains(Lower(s), Lower(sub))
  {
    var i :| 0 <= i <= |s| - |sub| && OccursAt(s, sub, i);
    LowerSlice(s, i, i + |sub|);
    assert OccursAt(Lower(s), Lower(sub), i);
  }

  function DigitChar(d: int): char
    requires 0 <= d < 10
  {
    ('0' as int + d) as char
  }

  predicate IsDigit(c: char) {
    '0' <= c <= '9'
  }

  function DigitValue(c: char): (d: nat)
    requires IsDigit(c)
    ensures d < 10
  {
    c as int - '0' as int
  }

  /** The decimal digits of a natural number, without leading zeros. */
  function Decimal(n: nat): (r: string)
    ensures |r| >= 1
    ensures forall i :: 0 <= i < |r| ==> IsDigit(r[i])
    ensures n >= 10 ==> |r| >= 2
    decreases n
  {
    if n < 10 then [DigitChar(n)] else Decimal(n / 10) + [DigitChar(n % 10)]
  }

  /** `n.toString()` for an integer: a minus sign, then the digits. */
  function NumberString(n: int): (r: string)
    ensures n >= 0 ==> r == Decimal(n)
    ensures n < 0 ==> |r| >= 2 && r[0] == '-' && r[1..] == Decimal(-n)
  {
    if n < 0 then "-" + Decimal(-n) else Decimal(n)
  }

  /** The value of a string of decimal digits. */
  function DigitsValue(s: string): nat
    requires forall i :: 0 <= i < |s| ==> IsDigit(s[i])
  {
    if |s| == 0 then 0
    else 10 * DigitsValue(s[..|s| - 1]) + DigitValue(s[|s| - 1])
  }

  /** Reading the digits back gives the number: `Decimal` loses nothing. */
  lemma {:induction false} DecimalRoundTrip(n: nat)
    ensures DigitsValue(Decimal(n)) == n
    decreases n
  {
    if n >= 10 {
      var d := Decimal(n);
      assert d[..|d| - 1] == Decimal(n / 10);
      DecimalRoundTrip(n / 10);
    }
  }

  function Pow10(k: nat): (r: nat)
    ensures r >= 1
  {
    if k == 0 then 1 else 10 * Pow10(k - 1)
  }

  lemma {:induction false} Pow10Monotone(j: nat, k: nat)
    requires j <= k
    ensures Pow10(j) <= Pow10(k)
    decreases k
  {
    if j < k {
      Pow10Monotone(j, k - 1);
    }
  }

  /** A number with `k` decimal digits lies in `[10^(k-1), 10^k)`. */
  lemma {:induction false} DecimalLength(n: nat)
    ensures n < Pow10(|Decimal(n)|)
    ensures n >= 1 ==> Pow10(|Decimal(n)| - 1) <= n
    decreases n
  {
    if n >= 10 {
      DecimalLength(n / 10);
    }
  }

  /** A positive number prints with exactly `k` digits iff it lies in `[10^(k-1), 10^k)`. */
  lemma DecimalLengthIff(n: nat, k: nat)
    requires n >= 1 && k >= 1
    ensures |Decimal(n)| == k <==> Pow10(k - 1) <= n < Pow10(k)
  {
    var d := |Decimal(n)|;
    DecimalLength(n);
    if Pow10(k - 1) <= n < Pow10(k) && d != k {
      if d < k {
        Pow10Monotone(d, k - 1);
      } else {
        Pow10Monotone(k, d - 1);
      }
    }
  }

  /**
    The default `sort()` order on strings: lexicographic by character code,
    a proper prefix sorting first.
   */
  predicate LexLess(a: string, b: string) {
    if |a| == 0 then |b| > 0
    else if |b| == 0 then false
    else a[0] < b[0] || (a[0] == b[0] && LexLess(a[1..], b[1..]))
  }

  lemma {:induction false} LexLessIrreflexive(a: string)
    ensures !LexLess(a, a)
  {
    if |a| > 0 {
      LexLessIrreflexive(a[1..]);
    }
  }

  lemma {:induction false} LexLessTransitive(a: string, b: string, c: string)
    requires LexLess(a, b) && LexLess(b, c)
    ensures LexLess(a, c)
  {
    if |a| > 0 && |b| > 0 && |c| > 0 && a[0] == b[0] && b[0] == c[0] {
      LexLessTransitive(a[1..], b[1..], c[1..]);
    }
  }

  lemma {:induction false} LexLessTotal(a: string, b: string)
    requires a != b
    ensures LexLess(a, b) || LexLess(b, a)
  {
    if |a| > 0 && |b| > 0 && a[0] == b[0] {
      assert a == [a[0]] + a[1..] && b == [b[0]] + b[1..];
      LexLessTotal(a[1..], b[1..]);
    }
  }
}
