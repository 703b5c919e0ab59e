/**
 * String helpers the key codec and the image handlers rely on: JavaScript's
 * decimal rendering of an integer in a template string, `lastIndexOf`,
 * `endsWith`, and the lexicographic order the store sorts string keys by.
 */
module Text {

  /** True when every character of `s` is a decimal digit. */
  predicate IsDigits(s: string) {
    forall i :: 0 <= i < |s| ==> '0' <= s[i] <= '9'
  }

  function DigitChar(d: nat): (c: char)
    requires d < 10
    ensures '0' <= c <= '9'
  {
    (('0' as int) + d) as char
  }

  function DigitValue(c: char): (d: nat)
    requires '0' <= c <= '9'
    ensures d < 10
  {
    (c as int) - ('0' as int)
  }

  /**
   * `${n}` for a non-negative integer: its decimal digits, most significant
   * first, with no leading zero.
   */
  function Decimal(n: nat): (s: string)
    ensures |s| > 0 && IsDigits(s)
    ensures |s| > 1 ==> s[0] != '0'
    decreases n
  {
    if n < 10 then [DigitChar(n)] else Decimal(n / 10) + [DigitChar(n % 10)]
  }

  /** The value of a string of decimal digits. */
  function ParseDecimal(s: string): nat
    requires IsDigits(s)
    decreases |s|
  {
    if s == [] then 0 else 10 * ParseDecimal(s[..|s| - 1]) + DigitValue(s[|s| - 1])
  }

  /** Reading back the rendering of `n` gives `n`. */
  lemma {:induction false} DecimalRoundTrip(n: nat)
    ensures ParseDecimal(Decimal(n)) == n
    decreases n
  {
    var s := Decimal(n);
    if n >= 10 {
      DecimalRoundTrip(n / 10);
      assert s[..|s| - 1] == Decimal(n / 10);
    }
  }

  /** Different numbers render differently. */
  lemma DecimalInjective(a: nat, b: nat)
    ensures Decimal(a) == Decimal(b) <==> a == b
  {
    if Decimal(a) == Decimal(b) {
      DecimalRoundTrip(a);
      DecimalRoundTrip(b);
    }
  }

  /** A character that is not a digit never occurs in a rendered number. */
  lemma DecimalLacks(n: nat, c: char)
    requires !('0' <= c <= '9')
    ensures c !in Decimal(n)
  {
  }

  /**
   * A string built as `x + c + p` is split back into `x` and `p` at its first
   * `c`: if neither head contains the separator, equal strings have equal
   * heads and equal tails.
   */
  lemma SplitAtFirst(x: string, p: string, y: string, q: string, c: char)
    requires c !in x && c !in y
    requires x + [c] + p == y + [c] + q
    ensures x == y && p == q
  {
    var s := x + [c] + p;
    FirstSeparator(x, p, c);
    FirstSeparator(y, q, c);
    assert |x| == |y|;
    assert x == s[..|x|] && y == s[..|y|];
    assert p == s[|x| + 1..] && q == s[|y| + 1..];
  }

  /** In `x + c + p` with `c` not in `x`, the first `c` stands at index `|x|`. */
  lemma FirstSeparator(x: string, p: string, c: char)
    requires c !in x
    ensures (x + [c] + p)[|x|] == c
    ensures forall i :: 0 <= i < |x| ==> (x + [c] + p)[i] != c
  {
    forall i | 0 <= i < |x| ensures (x + [c] + p)[i] != c {
      assert (x + [c] + p)[i] == x[i];
    }
  }

  /** Equal strings with a common head have equal tails. */
  lemma CancelHead(a: string, x: string, y: string)
    requires a + x == a + y
    ensures x == y
  {
    assert x == (a + x)[|a|..];
    assert y == (a + y)[|a|..];
  }

  /** Equal strings with a common tail have equal heads. */
  lemma CancelTail(x: string, y: string, a: string)
    requires x + a == y + a
    ensures x == y
  {
    assert x == (x + a)[..|x|];
    assert y == (y + a)[..|y|];
  }

  /**
   * `s.lastIndexOf(c)`: the index of the last occurrence of `c`, or -1 when
   * there is none.
   */
  function LastIndexOf(s: string, c: char): (r: int)
    ensures -1 <= r < |s|
    ensures r == -1 <==> c !in s
    ensures r >= 0 ==> s[r] == c && c !in s[r + 1..]
    decreases |s|
  {
    if s == [] then -1
    else if s[|s| - 1] == c then |s| - 1
    else
      assert s == s[..|s| - 1] + [s[|s| - 1]];
      LastIndexOf(s[..|s| - 1], c)
  }

  /** In `x + c + u` with `c` not in `u`, the last `c` stands at index `|x|`. */
  lemma LastSeparator(x: string, u: string, c: char)
    requires c !in u
    ensures LastIndexOf(x + [c] + u, c) == |x|
    ensures (x + [c] + u)[|x| + 1..] == u
  {
    var s := x + [c] + u;
    var r := LastIndexOf(s, c);
    assert s[|x|] == c;
    assert s[|x| + 1..] == u;
    NotInSuffix(s, |x|, c);
    NotInSuffix(s, r, c);
  }

  /** No `c` in `s[r + 1..]` means no index past `r` holds `c`. */
  lemma NotInSuffix(s: string, r: int, c: char)
    requires 0 <= r < |s| && c !in s[r + 1..]
    ensures forall j :: r < j < |s| ==> s[j] != c
  {
    forall j | r < j < |s| ensures s[j] != c {
      assert s[j] == s[r + 1..][j - r - 1];
    }
  }

  /** `s.endsWith(suffix)`. */
  predicate EndsWith(s: string, suffix: string) {
    |suffix| <= |s| && s[|s| - |suffix|..] == suffix
  }

  /**
   * The order in which the store sorts string keys: lexicographic by
   * character code, a proper prefix sorting first.
   */
  predicate Below(a: string, b: string)
    decreases |a|
  {
    |a| == 0 || (|b| > 0 && (a[0] < b[0] || (a[0] == b[0] && Below(a[1..], b[1..]))))
  }

  lemma {:induction false} BelowReflexive(a: string)
    ensures Below(a, a)
    decreases |a|
  {
    if |a| > 0 { BelowReflexive(a[1..]); }
  }

  lemma {:induction false} BelowAntisymmetric(a: string, b: string)
    requires Below(a, b) && Below(b, a)
    ensures a == b
    decreases |a|
  {
    if |a| > 0 {
      BelowAntisymmetric(a[1..], b[1..]);
      assert a == [a[0]] + a[1..] && b == [b[0]] + b[1..];
    }
  }

  lemma {:induction false} BelowTransitive(a: string, b: string, c: string)
    requires Below(a, b) && Below(b, c)
    ensures Below(a, c)
    decreases |a|
  {
    if |a| > 0 && a[0] == b[0] && b[0] == c[0] {
      BelowTransitive(a[1..], b[1..], c[1..]);
    }
  }

  lemma {:induction false} BelowTotal(a: string, b: string)
    ensures Below(a, b) || Below(b, a)
    decreases |a|
  {
    if |a| > 0 && |b| > 0 && a[0] == b[0] {
      BelowTotal(a[1..], b[1..]);
    }
  }
}
