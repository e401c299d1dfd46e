/**
 * The default modes. The configuration writes them as the int literals
 * 0755 and 0644 (493 and 420), while restore treats a saved mode as a
 * string of octal digits: it compares it loosely with decoct's string and
 * hands octdec of it to chmod. Under the configuration as written a member
 * without a mode is therefore applied as octdec("493") = 043 (directory) or
 * octdec("420") = 0420 (file); with the defaults written as the strings
 * "755" and "644" it is applied as 0755 and 0644.
 */
module Defaults {
  import opened Numerals
  import opened Php
  import opened PermsConfig
  import opened Records
  import opened RestoreDir

  /** Reading one more character: a digit of the base shifts the value, anything else is passed over. */
  lemma ValueOfSnoc(s: string, c: char, b: nat)
    ensures ValueOf(s + [c], b) == if IsDigit(c, b) then ValueOf(s, b) * b + DigitValue(c) else ValueOf(s, b)
  {
    assert (s + [c])[..|s|] == s;
  }

  /** The value of a three-character string, character by character. */
  lemma ValueOf3(x: char, y: char, z: char, b: nat)
    ensures ValueOf([x, y, z], b)
              == var v0 := if IsDigit(x, b) then DigitValue(x) else 0;
                 var v1 := if IsDigit(y, b) then v0 * b + DigitValue(y) else v0;
                 if IsDigit(z, b) then v1 * b + DigitValue(z) else v1
  {
    ValueOfSnoc([], x, b);
    assert [] + [x] == [x];
    ValueOfSnoc([x], y, b);
    assert [x] + [y] == [x, y];
    ValueOfSnoc([x, y], z, b);
    assert [x, y] + [z] == [x, y, z];
  }

  /** The decimal digits of a three-digit number. */
  lemma DigitsOf3(n: nat)
    requires 100 <= n < 1000
    ensures DigitsOf(n, 10) == [DigitChar(n / 100), DigitChar(n / 10 % 10), DigitChar(n % 10)]
  {
    assert DigitsOf(n, 10) == DigitsOf(n / 10, 10) + [DigitChar(n % 10)];
    assert DigitsOf(n / 10, 10) == DigitsOf(n / 10 / 10, 10) + [DigitChar(n / 10 % 10)];
    assert n / 10 / 10 == n / 100;
  }

  /** octdec skips the '9' of "493": chmod receives 043. */
  lemma DirectoryDefaultValue()
    ensures IntToString(493) == "493"
    ensures ChmodValue(Int(493)) == 35
  {
    DigitsOf3(493);
    ValueOf3('4', '9', '3', 8);
  }

  /** octdec("420") is 0420, not 0644. */
  lemma FileDefaultValue()
    ensures IntToString(420) == "420"
    ensures ChmodValue(Int(420)) == 272
    ensures IsCanonical("420", 8)
  {
    DigitsOf3(420);
    ValueOf3('4', '2', '0', 8);
  }

  /** The corrected defaults are canonical octal strings for 0755 and 0644. */
  lemma IntendedDefaultValues()
    ensures CanonicalMode(Str("755")) && ChmodValue(Str("755")) == 493
    ensures CanonicalMode(Str("644")) && ChmodValue(Str("644")) == 420
  {
    ValueOf3('7', '5', '5', 8);
    ValueOf3('6', '4', '4', 8);
  }

  /**
   * As written: restoring a "." member that has no mode always reports the
   * directory, chmods it to 043, and the next restore reports it again,
   * since no decoct string is loosely equal to the int 493.
   */
  lemma SourceDirectoryDefault(attrs: map<Path, Attrs>, d: Path, r: SavedRecord)
    requires d in attrs && r.mode.None?
    ensures var e := Member(".", r);
            var first := RestoreEntry(Source, attrs, d, e, false);
            var second := RestoreEntry(Source, first.attrs, d, e, false);
            && |first.lines| == 1
            && PermissionBits(first.attrs[d].mode) == 35
            && |second.lines| == 1
  {
    var e := Member(".", r);
    DirectoryDefaultValue();
    var first := RestoreEntry(Source, attrs, d, e, false);
    var s := FilePermissions(attrs[d]).mode.s;
    OctalMatchesInt(s, 493);
    NotOctal(s, "493", 1);
    var s' := FilePermissions(first.attrs[d]).mode.s;
    OctalMatchesInt(s', 493);
    NotOctal(s', "493", 1);
  }

  /** A string with a character that is not an octal digit is not an octal numeral. */
  lemma NotOctal(s: string, t: string, i: nat)
    requires IsCanonical(s, 8) && i < |t| && !IsDigit(t[i], 8)
    ensures s != t
  {
  }

  /**
   * As written: restoring a file member that has no mode leaves the file
   * with permission bits 0420 rather than 0644 (and, since "420" is loosely
   * equal to 420, later restores accept that).
   */
  lemma SourceFileDefault(attrs: map<Path, Attrs>, d: Path, name: string, r: SavedRecord)
    requires name != "." && name !in Source.ignoreFiles && Join(d, name) in attrs && r.mode.None?
    ensures var e := Member(name, r);
            var t := Join(d, name);
            var first := RestoreEntry(Source, attrs, d, e, false);
            && PermissionBits(first.attrs[t].mode) == 272
            && RestoreEntry(Source, first.attrs, d, e, false).lines == []
  {
    var e := Member(name, r);
    var t := Join(d, name);
    FileDefaultValue();
    var first := RestoreEntry(Source, attrs, d, e, false);
    var a := first.attrs[t];
    var s := FilePermissions(a).mode.s;
    OctalMatchesInt(s, 420);
    DecoctOctdec("420");
  }

  /**
   * Corrected: with the defaults written as octal strings, a member without
   * a mode gets 0755 (the directory) or 0644 (a file), and the next restore,
   * or compare, reports nothing for it.
   */
  lemma IntendedDefaults(attrs: map<Path, Attrs>, d: Path, key: string, r: SavedRecord)
    requires r.mode.None?
    requires key == "." ==> d in attrs
    requires key != "." ==> key !in Intended.ignoreFiles && Join(d, key) in attrs
    ensures var e := Member(key, r);
            var t := Target(d, key);
            var first := RestoreEntry(Intended, attrs, d, e, false);
            && t in first.attrs
            && PermissionBits(first.attrs[t].mode) == (if key == "." then 493 else 420)
            && RestoreEntry(Intended, first.attrs, d, e, false).lines == []
            && RestoreEntry(Intended, first.attrs, d, e, true).lines == []
  {
    var e := Member(key, r);
    var t := Target(d, key);
    IntendedDefaultValues();
    var first := RestoreEntry(Intended, attrs, d, e, false);
    var saved := FillDefaults(Intended, key, r);
    var a := first.attrs[t];
    SettledMeansEqual(a, saved);
    LooseEqualsOctal(FilePermissions(a).mode.s, saved.mode.s);
  }
}
