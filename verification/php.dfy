/**
 * The parts of PHP's own semantics that the script's logic depends on:
 * decoct and octdec, the int-to-string conversion, loose comparison with
 * ==, rtrim($s, '/'), and the way a `while ($f = readdir($dh))` loop
 * reads a directory.
 */
module Php {
  import opened Numerals

  /** A PHP scalar, as json_decode produces one for a manifest field. */
  datatype Scalar = Int(i: int) | Str(s: string)

  /** octdec: the base-8 value of s; characters that are not octal digits are passed over. */
  function Octdec(s: string): (r: nat)
    ensures forall i :: 0 <= i < |s| && !IsDigit(s[i], 8) ==> r == ValueOf(s[..i] + s[i + 1..], 8)
    ensures IsCanonical(s, 8) ==> DigitsOf(r, 8) == s
  {
    ValueOfSkips(s, 8);
    if IsCanonical(s, 8) then
      DigitsOfValueOf(s, 8);
      ValueOf(s, 8)
    else
      ValueOf(s, 8)
  }

  /** decoct: the base-8 digits of n without leading zeros; octdec reads them back as n. */
  function Decoct(n: nat): (s: string)
    ensures IsCanonical(s, 8) && Octdec(s) == n
  {
    DigitsOfCanonical(n, 8);
    ValueOfDigitsOf(n, 8);
    DigitsOf(n, 8)
  }

  /** A canonical octal numeral is exactly what decoct writes for its value. */
  lemma DecoctOctdec(s: string)
    requires IsCanonical(s, 8)
    ensures Decoct(Octdec(s)) == s
  {
    DigitsOfValueOf(s, 8);
  }

  /** PHP's conversion of an int to a string: an optional minus sign and the decimal digits. */
  function IntToString(n: int): string
  {
    if n < 0 then "-" + DigitsOf(-n, 10) else DigitsOf(n, 10)
  }

  /** The string PHP uses when a scalar is passed where a string is expected. */
  function ToString(v: Scalar): string
  {
    match v
    case Int(n) => IntToString(n)
    case Str(s) => s
  }

  /** A string that == compares as a number: here, a non-empty run of decimal digits. */
  predicate IsNumeric(s: string)
  {
    |s| > 0 && forall i :: 0 <= i < |s| ==> IsDigit(s[i], 10)
  }

  /**
   * PHP 8's loose comparison ==: two numeric operands compare by value,
   * an int and a non-numeric string compare as strings, and two strings
   * that are not both numeric compare character by character.
   */
  predicate LooseEquals(x: Scalar, y: Scalar)
    ensures x == y ==> LooseEquals(x, y)
  {
    match (x, y)
    case (Int(a), Int(b)) => a == b
    case (Str(s), Int(n)) => if IsNumeric(s) then ValueOf(s, 10) == n else s == IntToString(n)
    case (Int(n), Str(s)) => if IsNumeric(s) then ValueOf(s, 10) == n else s == IntToString(n)
    case (Str(s), Str(t)) =>
      if IsNumeric(s) && IsNumeric(t) then ValueOf(s, 10) == ValueOf(t, 10) else s == t
  }

  /** Two octal numerals as decoct writes them are loosely equal exactly when they are the same string. */
  lemma LooseEqualsOctal(s: string, t: string)
    requires IsCanonical(s, 8) && IsCanonical(t, 8)
    ensures LooseEquals(Str(s), Str(t)) <==> s == t
  {
    CanonicalWiden(s, 8, 10);
    CanonicalWiden(t, 8, 10);
    CanonicalInjective(s, t, 10);
  }

  /** An octal numeral as decoct writes it is loosely equal to a non-negative int exactly when it spells that int in decimal. */
  lemma OctalMatchesInt(s: string, n: nat)
    requires IsCanonical(s, 8)
    ensures LooseEquals(Str(s), Int(n)) <==> s == IntToString(n)
  {
    CanonicalWiden(s, 8, 10);
    if ValueOf(s, 10) == n {
      DigitsOfValueOf(s, 10);
    }
    if s == IntToString(n) {
      ValueOfDigitsOf(n, 10);
    }
  }

  /** rtrim($s, '/'): s without its trailing slashes. */
  function RTrimSlash(s: string): (r: string)
    ensures r <= s
    ensures r == [] || r[|r| - 1] != '/'
    ensures forall i :: |r| <= i < |s| ==> s[i] == '/'
  {
    if |s| > 0 && s[|s| - 1] == '/' then RTrimSlash(s[..|s| - 1]) else s
  }

  /** Trimming twice is trimming once. */
  lemma RTrimSlashIdempotent(s: string)
    ensures RTrimSlash(RTrimSlash(s)) == RTrimSlash(s)
  {
  }

  /**
   * The names a `while ($f = readdir($dh))` loop sees when readdir returns
   * the entries `names` in order: it stops early at an entry named "0",
   * because PHP reads that string as false.
   */
  function ReaddirSeen(names: seq<string>): (seen: seq<string>)
    ensures seen <= names
    ensures "0" !in seen
    ensures |seen| < |names| ==> names[|seen|] == "0"
  {
    if names == [] || names[0] == "0" then [] else [names[0]] + ReaddirSeen(names[1..])
  }
}
