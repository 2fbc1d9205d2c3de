/** Character and string helpers: ASCII case folding, substring tests,
    decimal rendering and parsing, and the `\d+` runs that `re.findall` returns. */
module Text {

  predicate IsDigit(c: char) { '0' <= c <= '9' }

  predicate AllDigits(s: string) { forall i :: 0 <= i < |s| ==> IsDigit(s[i]) }

  function DigitValue(c: char): (d: nat)
    requires IsDigit(c)
    ensures d < 10
  {
    c as int - '0' as int
  }

  function DigitChar(d: nat): (c: char)
    requires d < 10
    ensures IsDigit(c) && DigitValue(c) == d
  {
    ('0' as int + d) as char
  }

  /** `str.lower()` restricted to ASCII letters. */
  function LowerChar(c: char): char {
    if 'A' <= c <= 'Z' then (c as int + 32) as char else c
  }

  function Lower(s: string): string {
    seq(|s|, i requires 0 <= i < |s| => LowerChar(s[i]))
  }

  predicate IsPrefix(p: string, s: string) { |p| <= |s| && s[..|p|] == p }

  /** Python's `needle in s`, scanning start positions from the left. */
  predicate Contains(s: string, needle: string)
    decreases |s|
  {
    IsPrefix(needle, s) || (|s| > 0 && Contains(s[1..], needle))
  }

  /** `Contains` holds exactly when the needle occurs at some position of `s`. */
  lemma {:induction false} ContainsIff(s: string, needle: string)
    ensures Contains(s, needle) <==> exists i :: 0 <= i <= |s| && IsPrefix(needle, s[i..])
    decreases |s|
  {
    if IsPrefix(needle, s) {
      assert s[0..] == s;
    } else if |s| == 0 {
    } else {
      ContainsIff(s[1..], needle);
      if Contains(s[1..], needle) {
        var i :| 0 <= i <= |s[1..]| && IsPrefix(needle, s[1..][i..]);
        assert s[1..][i..] == s[i + 1..];
      } else {
        forall i | 0 <= i <= |s| ensures !IsPrefix(needle, s[i..]) {
          if i > 0 {
            assert s[1..][i - 1..] == s[i..];
          } else {
            assert s[0..] == s;
          }
        }
      }
    }
  }

  /** Every string contains the empty string (so an empty accessor key matches any column). */
  lemma {:induction false} ContainsEmpty(s: string)
    ensures Contains(s, "")
  {
  }

  /** Python's `str(n)` for a natural number: decimal digits without leading zeros. */
  function NatToString(n: nat): (r: string)
    ensures 1 <= |r| && AllDigits(r)
    ensures |r| > 1 ==> r[0] != '0'
    decreases n
  {
    if n < 10 then [DigitChar(n)] else NatToString(n / 10) + [DigitChar(n % 10)]
  }

  /** Python's `str(i)` for an integer of either sign. */
  function IntToString(i: int): string {
    if i < 0 then "-" + NatToString(-i) else NatToString(i)
  }

  function Pow10(k: nat): (p: nat)
    ensures p >= 1
  {
    if k == 0 then 1 else 10 * Pow10(k - 1)
  }

  lemma Pow10Small()
    ensures Pow10(1) == 10 && Pow10(2) == 100 && Pow10(3) == 1000 && Pow10(4) == 10000
  {
    assert Pow10(1) == 10 * Pow10(0);
    assert Pow10(2) == 10 * Pow10(1);
    assert Pow10(3) == 10 * Pow10(2);
    assert Pow10(4) == 10 * Pow10(3);
  }

  /** The value of a string of decimal digits (Python's `int(s)` on such a string). */
  function ParseDigits(s: string): nat
    requires AllDigits(s)
    decreases |s|
  {
    if s == [] then 0 else ParseDigits(s[..|s| - 1]) * 10 + DigitValue(s[|s| - 1])
  }

  /** `int(str(n)) == n`. */
  lemma {:induction false} ParseNatToString(n: nat)
    ensures ParseDigits(NatToString(n)) == n
    decreases n
  {
    if n >= 10 {
      ParseNatToString(n / 10);
      var s := NatToString(n / 10) + [DigitChar(n % 10)];
      assert s[..|s| - 1] == NatToString(n / 10);
    }
  }

  /** A number has exactly k decimal digits when it lies in [10^(k-1), 10^k). */
  lemma {:induction false} NatToStringLength(n: nat, k: nat)
    requires k >= 1
    requires (k == 1 && n < 10) || (Pow10(k - 1) <= n < Pow10(k))
    ensures |NatToString(n)| == k
    decreases k
  {
    if n >= 10 {
      assert k >= 2;
      NatToStringLength(n / 10, k - 1);
    }
  }

  lemma AllDigitsAppend(a: string, b: string)
    requires AllDigits(a) && AllDigits(b)
    ensures AllDigits(a + b)
  {
    forall i | 0 <= i < |a + b| ensures IsDigit((a + b)[i]) {
      if i < |a| { assert (a + b)[i] == a[i]; } else { assert (a + b)[i] == b[i - |a|]; }
    }
  }

  /** Reading the digits of a concatenation: the left part is scaled by 10^|b|. */
  lemma {:induction false} ParseDigitsAppend(a: string, b: string)
    requires AllDigits(a) && AllDigits(b)
    ensures AllDigits(a + b)
    ensures ParseDigits(a + b) == ParseDigits(a) * Pow10(|b|) + ParseDigits(b)
    decreases |b|
  {
    AllDigitsAppend(a, b);
    if b == [] {
      assert a + b == a;
    } else {
      var b' := b[..|b| - 1];
      assert (a + b)[..|a + b| - 1] == a + b';
      assert (a + b)[|a + b| - 1] == b[|b| - 1];
      ParseDigitsAppend(a, b');
      var x, y, d, p := ParseDigits(a), ParseDigits(b'), DigitValue(b[|b| - 1]), Pow10(|b'|);
      assert ParseDigits(a + b) == ParseDigits(a + b') * 10 + d;
      assert ParseDigits(b) == y * 10 + d;
      assert Pow10(|b|) == 10 * p;
      Regroup(x, p, y, d);
    }
  }

  lemma Regroup(x: int, p: int, y: int, d: int)
    ensures (x * p + y) * 10 + d == x * (10 * p) + (y * 10 + d)
  {
  }

  function Zeros(k: nat): (r: string)
    ensures |r| == k && AllDigits(r)
  {
    seq(k, _ => '0')
  }

  /** Python's `str.zfill(width)` for an unsigned digit string. */
  function ZFill(s: string, width: nat): string {
    if |s| < width then Zeros(width - |s|) + s else s
  }

  /** Leading zeros do not change the value read back. */
  lemma {:induction false} ZerosValue(k: nat)
    ensures ParseDigits(Zeros(k)) == 0
    decreases k
  {
    if k > 0 {
      assert Zeros(k)[..k - 1] == Zeros(k - 1);
      ZerosValue(k - 1);
    }
  }

  /** Zero-filling keeps the digits, the value, and reaches at least the width. */
  lemma ZFillDigits(s: string, width: nat)
    requires AllDigits(s)
    ensures AllDigits(ZFill(s, width))
    ensures |ZFill(s, width)| == if |s| < width then width else |s|
    ensures ParseDigits(ZFill(s, width)) == ParseDigits(s)
  {
    if |s| < width {
      ParseDigitsAppend(Zeros(width - |s|), s);
      ZerosValue(width - |s|);
    }
  }

  /** Number of leading digit characters of `s`. */
  function LeadingDigits(s: string): (n: nat)
    ensures n <= |s|
    ensures forall i :: 0 <= i < n ==> IsDigit(s[i])
    ensures n < |s| ==> !IsDigit(s[n])
    decreases |s|
  {
    if s == [] || !IsDigit(s[0]) then 0 else 1 + LeadingDigits(s[1..])
  }

  /** `re.findall(r"\d+", s)`: the maximal runs of ASCII digits, left to right. */
  function DigitRuns(s: string): (runs: seq<string>)
    decreases |s|
  {
    if s == [] then []
    else if !IsDigit(s[0]) then DigitRuns(s[1..])
    else
      var n := LeadingDigits(s);
      [s[..n]] + DigitRuns(s[n..])
  }

  /** Every run is a nonempty string of digits. */
  lemma {:induction false} DigitRunsDigits(s: string)
    ensures forall k :: 0 <= k < |DigitRuns(s)| ==> |DigitRuns(s)[k]| >= 1 && AllDigits(DigitRuns(s)[k])
    decreases |s|
  {
    if s == [] {
    } else if !IsDigit(s[0]) {
      DigitRunsDigits(s[1..]);
    } else {
      DigitRunsDigits(s[LeadingDigits(s)..]);
    }
  }

  /** Runs of a concatenation split at a non-digit boundary are the runs of each side. */
  lemma {:induction false} DigitRunsAppend(a: string, b: string)
    requires a == [] || !IsDigit(a[|a| - 1]) || b == [] || !IsDigit(b[0])
    ensures DigitRuns(a + b) == DigitRuns(a) + DigitRuns(b)
    decreases |a|
  {
    if a == [] {
      assert a + b == b;
    } else if !IsDigit(a[0]) {
      assert (a + b)[0] == a[0];
      assert (a + b)[1..] == a[1..] + b;
      DigitRunsAppend(a[1..], b);
    } else {
      var n := LeadingDigits(a);
      var rest := a[n..];
      assert rest != [] ==> rest[|rest| - 1] == a[|a| - 1];
      DigitRunsAppend(rest, b);
      DigitRunsAppendRun(a, b);
    }
  }

  /** One unfolding of `DigitRuns` on a concatenation whose left side starts with a digit. */
  lemma DigitRunsAppendRun(a: string, b: string)
    requires a != [] && IsDigit(a[0])
    requires !IsDigit(a[|a| - 1]) || b == [] || !IsDigit(b[0])
    ensures DigitRuns(a + b) == [a[..LeadingDigits(a)]] + DigitRuns(a[LeadingDigits(a)..] + b)
  {
    var n := LeadingDigits(a);
    LeadingDigitsAppend(a, b);
    ConcatSlices(a, b, n);
    DigitRunsUnfold(a + b, n, a[..n], a[n..] + b);
  }

  /** A string starting with a digit begins with its leading run `head` of `n` digits. */
  lemma DigitRunsUnfold(s: string, n: nat, head: string, tail: string)
    requires s != [] && IsDigit(s[0]) && n == LeadingDigits(s)
    requires head == s[..n] && tail == s[n..]
    ensures DigitRuns(s) == [head] + DigitRuns(tail)
  {
  }

  /** Cutting a concatenation inside its left side. */
  lemma ConcatSlices(a: string, b: string, n: nat)
    requires n <= |a|
    ensures (a + b)[..n] == a[..n] && (a + b)[n..] == a[n..] + b
    ensures a != [] ==> (a + b)[0] == a[0]
  {
  }

  lemma {:induction false} LeadingDigitsAppend(a: string, b: string)
    requires a != [] && IsDigit(a[0])
    requires !IsDigit(a[|a| - 1]) || b == [] || !IsDigit(b[0])
    ensures LeadingDigits(a + b) == LeadingDigits(a)
    decreases |a|
  {
    assert (a + b)[0] == a[0];
    assert (a + b)[1..] == a[1..] + b;
    if |a| == 1 {
      assert a[1..] + b == b;
      assert LeadingDigits(a[1..]) == 0;
    } else if IsDigit(a[1]) {
      assert a[1..][|a[1..]| - 1] == a[|a| - 1];
      LeadingDigitsAppend(a[1..], b);
    } else {
      assert (a[1..] + b)[0] == a[1];
    }
  }

  /** An all-digit string is a single run. */
  lemma {:induction false} DigitRunsOfNumber(s: string)
    requires |s| >= 1 && AllDigits(s)
    ensures DigitRuns(s) == [s]
  {
    AllDigitsLeading(s);
    assert s[..|s|] == s;
    assert s[|s|..] == [];
  }

  lemma {:induction false} AllDigitsLeading(s: string)
    requires AllDigits(s)
    ensures LeadingDigits(s) == |s|
    decreases |s|
  {
    if s != [] {
      AllDigitsLeading(s[1..]);
    }
  }

  /** A string with no digit has no run. */
  lemma {:induction false} DigitRunsNone(s: string)
    requires forall i :: 0 <= i < |s| ==> !IsDigit(s[i])
    ensures DigitRuns(s) == []
    decreases |s|
  {
    if s != [] {
      DigitRunsNone(s[1..]);
    }
  }
}
