/**
 * Positional numerals in a base between 2 and 10, written with the
 * characters '0' .. '9'. PHP's decoct/octdec and its int-to-string and
 * numeric-string conversions are all instances of these two functions.
 */
module Numerals {

  /** c is one of the digits of base b. */
  predicate IsDigit(c: char, b: nat) {
    '0' <= c && c as int - '0' as int < b
  }

  function DigitValue(c: char): nat
    requires '0' <= c
  {
    c as int - '0' as int
  }

  function DigitChar(d: nat): (c: char)
    requires d < 10
    ensures '0' <= c && DigitValue(c) == d
  {
    ('0' as int + d) as char
  }

  /**
   * The value of the base-b digits of s, read left to right. A character
   * that is not a base-b digit is passed over, as PHP's octdec does.
   */
  function ValueOf(s: string, b: nat): nat
  {
    if s == [] then 0
    else if IsDigit(s[|s| - 1], b) then ValueOf(s[..|s| - 1], b) * b + DigitValue(s[|s| - 1])
    else ValueOf(s[..|s| - 1], b)
  }

  /** The base-b digits of n, most significant first, with no leading zero. */
  function DigitsOf(n: nat, b: nat): string
    requires 2 <= b <= 10
    decreases n
  {
    if n < b then [DigitChar(n)] else DigitsOf(n / b, b) + [DigitChar(n % b)]
  }

  /** s is a non-empty string of base-b digits without a leading zero. */
  predicate IsCanonical(s: string, b: nat) {
    && |s| > 0
    && (forall i :: 0 <= i < |s| ==> IsDigit(s[i], b))
    && (|s| > 1 ==> s[0] != '0')
  }

  lemma MulAtLeast(k: int, b: nat)
    requires k >= 1
    ensures k * b >= b
  {
    var j := k - 1;
    assert k * b == j * b + b;
    assert j * b >= 0;
  }

  lemma QuotientBounds(n: nat, b: nat, q: nat, r: nat)
    requires 2 <= b <= n && n == q * b + r && r < b
    ensures 1 <= q < n
  {
    MulAtLeast(b - 1, q);
    assert q * b == q * (b - 1) + q;
  }

  lemma DivMod(n: nat, b: nat)
    requires 2 <= b
    ensures n == n / b * b + n % b && 0 <= n % b < b
    ensures n >= b ==> 1 <= n / b < n
  {
    if n >= b {
      QuotientBounds(n, b, n / b, n % b);
    }
  }

  /** Quotient and remainder of q * b + d, for a digit d of base b. */
  lemma DivUnique(n: nat, b: nat, q: nat, d: nat)
    requires 2 <= b && d < b && n == q * b + d
    ensures n / b == q && n % b == d
  {
    DivMod(n, b);
    var q', d' := n / b, n % b;
    assert q' * b + d' == q * b + d;
    if q' > q {
      assert q' * b - q * b == (q' - q) * b;
      MulAtLeast(q' - q, b);
    } else if q' < q {
      assert q * b - q' * b == (q - q') * b;
      MulAtLeast(q - q', b);
    }
  }

  lemma {:induction false} DigitsOfCanonical(n: nat, b: nat)
    requires 2 <= b <= 10
    ensures IsCanonical(DigitsOf(n, b), b)
    decreases n
  {
    if n >= b {
      DivMod(n, b);
      var s := DigitsOf(n / b, b);
      DigitsOfCanonical(n / b, b);
      assert s[0] != '0' by {
        if n / b >= b {
          DivMod(n / b, b);
          assert |s| == |DigitsOf(n / b / b, b)| + 1;
        } else {
          assert s == [DigitChar(n / b)];
        }
      }
      assert DigitsOf(n, b) == s + [DigitChar(n % b)];
    }
  }

  lemma {:induction false} ValueOfDigitsOf(n: nat, b: nat)
    requires 2 <= b <= 10
    ensures ValueOf(DigitsOf(n, b), b) == n
    decreases n
  {
    if n >= b {
      DivMod(n, b);
      var s := DigitsOf(n, b);
      assert s[..|s| - 1] == DigitsOf(n / b, b);
      ValueOfDigitsOf(n / b, b);
    }
  }

  lemma {:induction false} CanonicalPositive(s: string, b: nat)
    requires IsCanonical(s, b) && s[0] != '0'
    ensures ValueOf(s, b) > 0
  {
    if |s| > 1 {
      var init := s[..|s| - 1];
      assert init[0] == s[0];
      CanonicalPositive(init, b);
      MulAtLeast(ValueOf(init, b), b);
    }
  }

  lemma {:induction false} DigitsOfValueOf(s: string, b: nat)
    requires 2 <= b <= 10
    requires IsCanonical(s, b)
    ensures DigitsOf(ValueOf(s, b), b) == s
  {
    var last := s[|s| - 1];
    var init := s[..|s| - 1];
    assert IsDigit(last, b);
    assert DigitChar(DigitValue(last)) == last;
    if |s| > 1 {
      assert init[0] == s[0];
      var v := ValueOf(init, b);
      CanonicalPositive(init, b);
      DigitsOfValueOf(init, b);
      MulAtLeast(v, b);
      DivUnique(ValueOf(s, b), b, v, DigitValue(last));
      assert s == init + [last];
    }
  }

  /** Two canonical numerals of one base are equal exactly when their values are. */
  lemma CanonicalInjective(s: string, t: string, b: nat)
    requires 2 <= b <= 10
    requires IsCanonical(s, b) && IsCanonical(t, b)
    ensures ValueOf(s, b) == ValueOf(t, b) <==> s == t
  {
    if ValueOf(s, b) == ValueOf(t, b) {
      DigitsOfValueOf(s, b);
      DigitsOfValueOf(t, b);
    }
  }

  /** Taking out a character that is not a digit of the base leaves the value as it was. */
  lemma {:induction false} ValueOfSkip(s: string, b: nat, i: nat)
    requires i < |s| && !IsDigit(s[i], b)
    ensures ValueOf(s, b) == ValueOf(s[..i] + s[i + 1..], b)
    decreases |s|
  {
    var u := s[..i] + s[i + 1..];
    if i == |s| - 1 {
      assert u == s[..|s| - 1];
    } else {
      var init := s[..|s| - 1];
      ValueOfSkip(init, b, i);
      assert u[..|u| - 1] == init[..i] + init[i + 1..];
      assert u[|u| - 1] == s[|s| - 1];
    }
  }

  /** Every character that is not a digit of the base is passed over. */
  lemma ValueOfSkips(s: string, b: nat)
    ensures forall i :: 0 <= i < |s| && !IsDigit(s[i], b) ==> ValueOf(s, b) == ValueOf(s[..i] + s[i + 1..], b)
  {
    forall i | 0 <= i < |s| && !IsDigit(s[i], b)
      ensures ValueOf(s, b) == ValueOf(s[..i] + s[i + 1..], b)
    {
      ValueOfSkip(s, b, i);
    }
  }

  /** The digits of a base are digits of every larger base too. */
  lemma CanonicalWiden(s: string, b: nat, c: nat)
    requires IsCanonical(s, b) && b <= c
    ensures IsCanonical(s, c)
  {
  }
}
