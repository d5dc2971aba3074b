/**
  The alphanumeric version suffix: three ASCII digits and a lowercase ASCII letter
  at the end of the project name ("Proj001a"). A minor increment advances the
  letter, a major increment raises the number and restarts the letter at `a`.
 */
module Alphanum {
  import opened Optional
  import opened PyStr
  import opened PyInt

  /** `([0-9]{3})([a-z]{1})`: three ASCII digits and one lowercase ASCII letter. */
  predicate IsVersionSuffix(s: string) {
    |s| == 4 && IsDigit(s[0]) && IsDigit(s[1]) && IsDigit(s[2]) && IsLower(s[3])
  }

  /** The pieces `re.split` returns around the suffix: the text before it and its two groups. */
  datatype Parts = Parts(prefix: string, digits: string, letter: char)

  /** `re.split(r'([0-9]{3})([a-z]{1})$', name)` when it matches (the list then has
      more than three items). Without the multiline flag `$` matches at the very end
      and also just before a final newline; the text after the match, that newline
      or nothing, is the list's fourth item, which the add-on never reads. */
  function SplitVersion(name: string): (r: Option<Parts>)
    ensures r.Some? ==> |r.value.digits| == 3 && AllDigits(r.value.digits) && IsLower(r.value.letter)
    ensures r.Some? ==>
      var v := r.value.prefix + r.value.digits + [r.value.letter];
      name == v || name == v + "\n"
    ensures r.Some? ==> StartsWith(name, r.value.prefix)
  {
    var n := |name|;
    // A name ending in a newline cannot end in a suffix, so the two anchors never
    // compete and the one before the newline may be tried first.
    if n >= 5 && name[n - 1] == '\n' && IsVersionSuffix(name[n - 5..n - 1]) then
      var p := PartsAt(name, n - 5);
      assert name == name[..n - 1] + "\n";
      Some(p)
    else if n >= 4 && IsVersionSuffix(name[n - 4..]) then
      var p := PartsAt(name, n - 4);
      assert name[..n] == name;
      Some(p)
    else None
  }

  /** The suffix at offset `k` split into its digits and its letter, with the text before it. */
  function PartsAt(s: string, k: nat): (p: Parts)
    requires k + 4 <= |s| && IsVersionSuffix(s[k..k + 4])
    ensures |p.digits| == 3 && AllDigits(p.digits) && IsLower(p.letter)
    ensures s[..k + 4] == p.prefix + p.digits + [p.letter]
    ensures p.prefix == s[..k]
  {
    var v := s[k..k + 4];
    assert v[0] == s[k] && v[1] == s[k + 1] && v[2] == s[k + 2] && v[3] == s[k + 3];
    assert s[..k + 4] == s[..k] + s[k..k + 3] + [s[k + 3]];
    Parts(s[..k], s[k..k + 3], s[k + 3])
  }

  /** `chr(ord(c) + 1)`. */
  function NextLetter(c: char): char
    requires IsLower(c)
  {
    (c as int + 1) as char
  }

  /** The number and letter text the alphanumeric scheme substitutes. */
  datatype Version = Version(num: string, chr: string)

  /** Lines 56-62: a major increment formats the number plus one with the configured
      format and restarts at `a`; a minor increment keeps the digit text as it is
      and takes the next code point as the letter. */
  function Increment(p: Parts, major: bool, versionFormat: string): (v: Version)
    requires AllDigits(p.digits) && IsLower(p.letter)
    requires IsSimpleSpec(versionFormat)
    ensures !major ==> v.num == p.digits && |v.chr| == 1 && v.chr[0] as int == p.letter as int + 1
    ensures major ==> v.chr == "a" && EndsWith(v.num, NatToString(DecimalValue(p.digits) + 1))
  {
    if major then
      FormatLength(DecimalValue(p.digits) + 1, ParseSpec(versionFormat));
      Version(FormatInt(DecimalValue(p.digits) + 1, ParseSpec(versionFormat)), "a")
    else Version(p.digits, [NextLetter(p.letter)])
  }

  /** The project name, number and letter the alphanumeric branch leaves behind. */
  datatype Derived = Derived(project: string, version: Version)

  /** Lines 52-66: split the name; with a suffix, the prefix becomes the project name
      and the suffix is incremented; without one, the project name becomes the literal
      template text `{project}{separator}` and the version starts at 1 and `a`. */
  function Derive(name: string, major: bool, versionFormat: string): (d: Derived)
    requires IsSimpleSpec(versionFormat)
    ensures SplitVersion(name).Some? ==>
      var p := SplitVersion(name).value;
      && StartsWith(name, d.project)
      && (name == d.project + p.digits + [p.letter] || name == d.project + p.digits + [p.letter] + "\n")
      && d.version == Increment(p, major, versionFormat)
    ensures SplitVersion(name).None? ==>
      d.project == "{project}{separator}" && d.version.chr == "a" && EndsWith(d.version.num, "1")
  {
    match SplitVersion(name)
    case Some(p) => Derived(p.prefix, Increment(p, major, versionFormat))
    case None =>
      assert NatToString(1) == "1";
      FormatLength(1, ParseSpec(versionFormat));
      Derived("{project}{separator}", Version(FormatInt(1, ParseSpec(versionFormat)), "a"))
  }

  /** The split finds every suffix it should: a name that ends in three digits and a
      lowercase letter splits at that suffix ... */
  lemma SplitAtEnd(prefix: string, suffix: string)
    requires IsVersionSuffix(suffix)
    ensures SplitVersion(prefix + suffix) == Some(Parts(prefix, suffix[..3], suffix[3]))
  {
    var name := prefix + suffix;
    var n := |name|;
    assert name[n - 1] == suffix[3];
    assert name[n - 4..] == suffix;
    assert name[n - 4..n - 1] == suffix[..3];
    assert name[..n - 4] == prefix;
  }

  /** ... and so does one with a single newline after the suffix. */
  lemma SplitBeforeNewline(prefix: string, suffix: string)
    requires IsVersionSuffix(suffix)
    ensures SplitVersion(prefix + suffix + "\n") == Some(Parts(prefix, suffix[..3], suffix[3]))
  {
    var name := prefix + suffix + "\n";
    var n := |name|;
    assert name[n - 1] == '\n';
    assert name[n - 5..n - 1] == suffix;
    assert name[n - 5..n - 2] == suffix[..3];
    assert name[n - 2] == suffix[3];
    assert name[..n - 5] == prefix;
  }

  /** A minor increment before `z` gives a name that splits again, with the same digits
      and the letter one code point further. */
  lemma MinorRoundTrip(p: Parts, versionFormat: string)
    requires |p.digits| == 3 && AllDigits(p.digits) && 'a' <= p.letter < 'z'
    requires IsSimpleSpec(versionFormat)
    ensures var v := Increment(p, false, versionFormat);
      && v.num == p.digits
      && |v.chr| == 1 && v.chr[0] as int == p.letter as int + 1
      && SplitVersion(p.prefix + v.num + v.chr) == Some(Parts(p.prefix, p.digits, v.chr[0]))
  {
    var v := Increment(p, false, versionFormat);
    var suffix := p.digits + v.chr;
    assert IsVersionSuffix(suffix);
    SplitAtEnd(p.prefix, suffix);
    assert p.prefix + suffix == p.prefix + v.num + v.chr;
    assert suffix[..3] == p.digits;
  }

  /** Past `z` the letter becomes `{`, and the resulting name no longer splits: the
      next save treats it as a name without a version. */
  lemma MinorPastZ(p: Parts, versionFormat: string)
    requires AllDigits(p.digits) && p.letter == 'z'
    requires IsSimpleSpec(versionFormat)
    ensures Increment(p, false, versionFormat).chr == "{"
    ensures SplitVersion(p.prefix + p.digits + "{") == None
  {
    var name := p.prefix + p.digits + "{";
    assert name[|name| - 1] == '{';
  }

  /** A major increment with zero fill to width `w`: digits whose value is one more
      than the old number, at least `w` of them, and the letter `a`. */
  lemma MajorIncrement(p: Parts, versionFormat: string, w: nat)
    requires AllDigits(p.digits) && IsLower(p.letter)
    requires IsSimpleSpec(versionFormat) && ParseSpec(versionFormat) == Spec(true, w)
    ensures var v := Increment(p, true, versionFormat);
      && AllDigits(v.num)
      && DecimalValue(v.num) == DecimalValue(p.digits) + 1
      && |v.num| >= w
      && v.chr == "a"
  {
    ZeroFill(DecimalValue(p.digits) + 1, w);
  }

  /** With the three-digit format (the default) and a number below 999, a major
      increment gives a name that splits again at the new number and `a`. */
  lemma MajorRoundTrip(p: Parts, versionFormat: string)
    requires |p.digits| == 3 && AllDigits(p.digits) && IsLower(p.letter)
    requires DecimalValue(p.digits) < 999
    requires IsSimpleSpec(versionFormat) && ParseSpec(versionFormat) == Spec(true, 3)
    ensures var v := Increment(p, true, versionFormat);
      SplitVersion(p.prefix + v.num + v.chr) == Some(Parts(p.prefix, v.num, 'a'))
  {
    var v := Increment(p, true, versionFormat);
    ThreeDigitMajor(p, versionFormat);
    SuffixSplit(p.prefix, v.num, 'a');
  }

  lemma ThreeDigitMajor(p: Parts, versionFormat: string)
    requires AllDigits(p.digits) && IsLower(p.letter)
    requires DecimalValue(p.digits) < 999
    requires IsSimpleSpec(versionFormat) && ParseSpec(versionFormat) == Spec(true, 3)
    ensures var v := Increment(p, true, versionFormat);
      |v.num| == 3 && AllDigits(v.num) && v.chr == "a"
  {
    var n := DecimalValue(p.digits) + 1;
    ZeroFill(n, 3);
    ShortNumber(n);
  }

  /** Three digits and a lowercase letter at the end split off again. */
  lemma SuffixSplit(prefix: string, digits: string, letter: char)
    requires |digits| == 3 && AllDigits(digits) && IsLower(letter)
    ensures SplitVersion(prefix + digits + [letter]) == Some(Parts(prefix, digits, letter))
  {
    var suffix := digits + [letter];
    assert suffix[0] == digits[0] && suffix[1] == digits[1] && suffix[2] == digits[2];
    assert IsVersionSuffix(suffix);
    SplitAtEnd(prefix, suffix);
    assert prefix + suffix == prefix + digits + [letter];
    assert suffix[..3] == digits;
  }
}
