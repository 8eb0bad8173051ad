/** The string operations the scraper takes from Python: `str(n)` for a
    non-negative integer, `s.startswith(p)` and `s.rstrip(c)`. */
module Text {

  predicate IsDigit(c: char) {
    '0' <= c <= '9'
  }

  predicate AllDigits(s: string) {
    forall i :: 0 <= i < |s| ==> IsDigit(s[i])
  }

  /** `s.startswith(prefix)` */
  predicate StartsWith(s: string, prefix: string) {
    |prefix| <= |s| && s[..|prefix|] == prefix
  }

  function DigitChar(d: nat): (c: char)
    requires d < 10
    ensures IsDigit(c) && c as int - '0' as int == d
  {
    ('0' as int + d) as char
  }

  /** `str(n)`: the decimal numeral of `n`, at least one character long. */
  function Decimal(n: nat): (s: string)
    ensures 1 <= |s|
  {
    if n < 10 then [DigitChar(n)] else Decimal(n / 10) + [DigitChar(n % 10)]
  }

  /** A numeral is made of digits only. */
  lemma {:induction false} DecimalDigits(n: nat)
    ensures AllDigits(Decimal(n))
  {
    if n >= 10 {
      DecimalDigits(n / 10);
    }
  }

  /** The number a string of digits denotes; the partner of Decimal. */
  function DigitsValue(s: string): nat
    requires AllDigits(s)
  {
    if s == [] then 0
    else DigitsValue(s[..|s| - 1]) * 10 + (s[|s| - 1] as int - '0' as int)
  }

  lemma {:induction false} DigitsValueOfDecimal(n: nat)
    ensures AllDigits(Decimal(n)) && DigitsValue(Decimal(n)) == n
  {
    var s := Decimal(n);
    DecimalDigits(n);
    if n >= 10 {
      assert s[..|s| - 1] == Decimal(n / 10);
      DigitsValueOfDecimal(n / 10);
    } else {
      assert s[..|s| - 1] == [];
    }
  }

  /** Distinct numbers have distinct numerals. */
  lemma DecimalInjective(m: nat, n: nat)
    ensures Decimal(m) == Decimal(n) ==> m == n
  {
    DigitsValueOfDecimal(m);
    DigitsValueOfDecimal(n);
  }

  /** The length of what is left of `s[..n]` once every trailing `c` is
      removed. */
  function KeptLength(s: string, c: char, n: nat): (k: nat)
    requires n <= |s|
    ensures k <= n
  {
    if n > 0 && s[n - 1] == c then KeptLength(s, c, n - 1) else n
  }

  /** `s.rstrip(c)`: what is left of `s` once every trailing `c` is removed. */
  function RStrip(s: string, c: char): (r: string)
    ensures |r| <= |s|
  {
    s[..KeptLength(s, c, |s|)]
  }

  lemma {:induction false} KeptLengthStopsAtOther(s: string, c: char, n: nat)
    requires n <= |s|
    ensures var k := KeptLength(s, c, n);
      && (k == 0 || s[k - 1] != c)
      && forall i :: k <= i < n ==> s[i] == c
  {
    if n > 0 && s[n - 1] == c {
      KeptLengthStopsAtOther(s, c, n - 1);
    }
  }

  /** What rstrip leaves is a prefix of `s` that does not end in `c`, and
      everything it removed was `c`. */
  lemma RStripRemovesOnlyTrailing(s: string, c: char)
    ensures var r := RStrip(s, c);
      && r == s[..|r|]
      && (r == [] || r[|r| - 1] != c)
      && forall i :: |r| <= i < |s| ==> s[i] == c
  {
    KeptLengthStopsAtOther(s, c, |s|);
  }

  lemma {:induction false} KeptLengthOfPrefix(s: string, t: string, c: char, n: nat)
    requires n <= |s|
    ensures KeptLength(s + t, c, n) == KeptLength(s, c, n)
  {
    if n > 0 {
      assert (s + t)[n - 1] == s[n - 1];
      KeptLengthOfPrefix(s, t, c, n - 1);
    }
  }

  lemma {:induction false} KeptLengthPastTrailing(s: string, tail: string, c: char, m: nat)
    requires forall i :: 0 <= i < |tail| ==> tail[i] == c
    requires m <= |tail|
    ensures KeptLength(s + tail, c, |s| + m) == KeptLength(s + tail, c, |s|)
  {
    if m > 0 {
      assert (s + tail)[|s| + m - 1] == tail[m - 1];
      KeptLengthPastTrailing(s, tail, c, m - 1);
    }
  }

  /** Appending more copies of `c` does not change what rstrip leaves. */
  lemma RStripIgnoresTrailing(s: string, c: char, tail: string)
    requires forall i :: 0 <= i < |tail| ==> tail[i] == c
    ensures RStrip(s + tail, c) == RStrip(s, c)
  {
    KeptLengthPastTrailing(s, tail, c, |tail|);
    KeptLengthOfPrefix(s, tail, c, |s|);
    var k := KeptLength(s, c, |s|);
    assert (s + tail)[..k] == s[..k];
  }

  /** The number of digits a string starts with. */
  function LeadingDigits(s: string): (n: nat)
    ensures n <= |s|
  {
    if s != [] && IsDigit(s[0]) then 1 + LeadingDigits(s[1..]) else 0
  }

  lemma {:induction false} LeadingDigitsBeforeSlash(x: string, rest: string)
    requires AllDigits(x)
    ensures LeadingDigits(x + "/" + rest) == |x|
  {
    if x != [] {
      assert (x + "/" + rest)[1..] == x[1..] + "/" + rest;
      LeadingDigitsBeforeSlash(x[1..], rest);
    }
  }

  lemma {:induction false} LeadingDigitsOfDigits(x: string)
    requires AllDigits(x)
    ensures LeadingDigits(x) == |x|
  {
    if x != [] {
      LeadingDigitsOfDigits(x[1..]);
    }
  }

  /** A digit string followed by '/' can be split back into its two parts. */
  lemma DigitsThenSlash(x: string, r: string, y: string, t: string)
    requires AllDigits(x) && AllDigits(y)
    ensures x + "/" + r == y + "/" + t ==> x == y && r == t
  {
    if x + "/" + r == y + "/" + t {
      LeadingDigitsBeforeSlash(x, r);
      LeadingDigitsBeforeSlash(y, t);
      var u := x + "/" + r;
      assert x == u[..|x|] && r == u[|x| + 1..];
      assert y == u[..|y|] && t == u[|y| + 1..];
    }
  }

  /** A digit string never equals a string with a '/' after its leading digits. */
  lemma DigitsHaveNoSlash(x: string, r: string, y: string)
    requires AllDigits(x) && AllDigits(y)
    ensures x + "/" + r != y
  {
    LeadingDigitsBeforeSlash(x, r);
    LeadingDigitsOfDigits(y);
  }

  lemma PrefixCancel(a: string, x: string, y: string)
    ensures a + x == a + y ==> x == y
  {
    assert (a + x)[|a|..] == x;
    assert (a + y)[|a|..] == y;
  }

  lemma SuffixCancel(x: string, y: string, e: string)
    ensures x + e == y + e ==> x == y
  {
    assert (x + e)[..|x|] == x;
    assert (y + e)[..|y|] == y;
  }
}
