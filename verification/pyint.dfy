/**
  Python's conversions between integers and decimal text: `int(digits)`,
  `str(n)` and `format(n, spec)` for the format specifications the add-ons
  build (an optional `-` sign option, an optional `0` flag, a width).
 */
module PyInt {
  import opened PyStr

  function DigitValue(c: char): nat
    requires IsDigit(c)
  {
    c as int - '0' as int
  }

  function DigitChar(d: nat): (c: char)
    requires d < 10
    ensures IsDigit(c) && DigitValue(c) == d
  {
    ('0' as int + d) as char
  }

  /** `int(s)` on a string of ASCII digits. */
  function DecimalValue(s: string): nat
    requires AllDigits(s)
    decreases |s|
  {
    if |s| == 0 then 0 else DecimalValue(s[..|s| - 1]) * 10 + DigitValue(s[|s| - 1])
  }

  /** `str(n)` for a non-negative integer: no sign, no leading zero. */
  function NatToString(n: nat): (r: string)
    ensures |r| >= 1 && AllDigits(r)
    ensures DecimalValue(r) == n
    ensures n >= 1 ==> r[0] != '0'
    decreases n
  {
    if n < 10 then [DigitChar(n)]
    else
      var h := NatToString(n / 10);
      var r := h + [DigitChar(n % 10)];
      assert r[..|r| - 1] == h;
      r
  }

  /** `c * k` in Python: empty when `k` is not positive. */
  function Repeat(c: char, k: int): (r: string)
    ensures |r| == if k > 0 then k else 0
    ensures forall i :: 0 <= i < |r| ==> r[i] == c
    decreases if k > 0 then k else 0
  {
    if k <= 0 then [] else [c] + Repeat(c, k - 1)
  }

  /** The parts of a format specification the add-ons use: the `0` flag and the width. */
  datatype Spec = Spec(zeroFill: bool, width: nat)

  /** Format specifications of the shape `[-][digits]`: a sign option, then an
      optional `0` flag and the width, both written as digits. */
  predicate IsSimpleSpec(s: string) {
    if |s| > 0 && s[0] == '-' then AllDigits(s[1..]) else AllDigits(s)
  }

  /** How Python reads such a specification: a leading `0` after the sign is the
      zero-fill flag and the digits after it are the width; a missing width is 0. */
  function ParseSpec(s: string): Spec
    requires IsSimpleSpec(s)
  {
    var body := if |s| > 0 && s[0] == '-' then s[1..] else s;
    if |body| > 0 && body[0] == '0' then Spec(true, DecimalValue(body[1..]))
    else Spec(false, DecimalValue(body))
  }

  /** `format(n, spec)`: zero fill goes between the sign and the digits, space fill
      in front of the sign; padding only ever lengthens, never truncates. */
  function FormatInt(n: int, spec: Spec): string {
    var digits := NatToString(if n < 0 then -n else n);
    var sign := if n < 0 then "-" else "";
    var pad := spec.width - |sign| - |digits|;
    if spec.zeroFill then sign + Repeat('0', pad) + digits
    else Repeat(' ', pad) + sign + digits
  }

  /** Whatever the specification, the text ends in the digits of `str(abs(n))` and is
      as long as the width or as sign and digits together, whichever is longer: the
      padding never truncates. */
  lemma FormatLength(n: int, spec: Spec)
    ensures var r := FormatInt(n, spec);
      var d := NatToString(if n < 0 then -n else n);
      var k := |d| + (if n < 0 then 1 else 0);
      && EndsWith(r, d)
      && |r| == if spec.width > k then spec.width else k
  {
    var d := NatToString(if n < 0 then -n else n);
    var sign := if n < 0 then "-" else "";
    var pad := spec.width - |sign| - |d|;
    if spec.zeroFill {
      SuffixOfConcat(sign + Repeat('0', pad), d);
    } else {
      SuffixOfConcat(Repeat(' ', pad) + sign, d);
    }
  }

  /** `int(s)` ignores leading zeros. */
  lemma {:induction false} LeadingZeros(k: int, s: string)
    requires AllDigits(s)
    ensures AllDigits(Repeat('0', k) + s)
    ensures DecimalValue(Repeat('0', k) + s) == DecimalValue(s)
    decreases |s|
  {
    var z := Repeat('0', k);
    if |s| == 0 {
      assert z + s == z;
      ZerosValue(k);
    } else {
      var t := z + s;
      assert t[..|t| - 1] == z + s[..|s| - 1];
      LeadingZeros(k, s[..|s| - 1]);
    }
  }

  lemma {:induction false} ZerosValue(k: int)
    ensures AllDigits(Repeat('0', k))
    ensures DecimalValue(Repeat('0', k)) == 0
    decreases if k > 0 then k else 0
  {
    if k > 0 {
      var z := Repeat('0', k);
      assert z[..|z| - 1] == Repeat('0', k - 1) by {
        RepeatSnoc(k);
      }
      ZerosValue(k - 1);
    }
  }

  lemma RepeatSnoc(k: int)
    requires k > 0
    ensures Repeat('0', k) == Repeat('0', k - 1) + ['0']
  {
  }

  /** A number below 1000 is written with at most three digits. */
  lemma ShortNumber(n: nat)
    requires n < 1000
    ensures |NatToString(n)| <= 3
  {
    if n >= 10 {
      var m := n / 10;
      assert m < 100;
      if m >= 10 {
        assert |NatToString(m / 10)| == 1;
        assert |NatToString(m)| == 2;
      }
      assert |NatToString(m)| <= 2;
      assert NatToString(n) == NatToString(m) + [DigitChar(n % 10)];
    }
  }

  /** A number of at least 1000 is written with at least four digits. */
  lemma {:induction false} LongNumber(n: nat)
    requires n >= 1000
    ensures |NatToString(n)| >= 4
    decreases n
  {
    if n / 10 >= 1000 {
      LongNumber(n / 10);
    } else {
      assert n / 10 >= 100;
      assert |NatToString(n / 10 / 10)| >= 1;
    }
  }

  /** Zero-filled formatting of a non-negative number: the digits of `str(n)`,
      left-padded with zeros to the width, denoting the same number. */
  lemma ZeroFill(n: nat, w: nat)
    ensures var r := FormatInt(n, Spec(true, w));
      && AllDigits(r)
      && |r| == (if w > |NatToString(n)| then w else |NatToString(n)|)
      && EndsWith(r, NatToString(n))
      && DecimalValue(r) == n
  {
    ZeroFillShape(n, w);
    PaddedDigits(w - |NatToString(n)|, NatToString(n));
  }

  /** Digits behind zeros: still digits, as long as the padding asks for, ending in
      the original digits and denoting the same number. */
  lemma PaddedDigits(k: int, d: string)
    requires AllDigits(d)
    ensures var r := Repeat('0', k) + d;
      && AllDigits(r)
      && |r| == (if k > 0 then k else 0) + |d|
      && EndsWith(r, d)
      && DecimalValue(r) == DecimalValue(d)
  {
    LeadingZeros(k, d);
    SuffixOfConcat(Repeat('0', k), d);
  }

  lemma ZeroFillShape(n: nat, w: nat)
    ensures FormatInt(n, Spec(true, w)) == Repeat('0', w - |NatToString(n)|) + NatToString(n)
  {
    var d := NatToString(n);
    var z := Repeat('0', w - |d|);
    assert "" + z == z;
  }

  /** Space-filled formatting: only blanks come before the digits of `str(n)`, the
      digits after them read back as `n`, and the width pads but never truncates. */
  lemma SpaceFill(n: nat, w: nat)
    ensures var r := FormatInt(n, Spec(false, w));
      && EndsWith(r, NatToString(n))
      && (forall i :: 0 <= i < |r| - |NatToString(n)| ==> r[i] == ' ')
      && DecimalValue(r[|r| - |NatToString(n)|..]) == n
      && |r| == (if w > |NatToString(n)| then w else |NatToString(n)|)
  {
    var d := NatToString(n);
    var z := Repeat(' ', w - |d|);
    assert z + "" == z;
    var r := FormatInt(n, Spec(false, w));
    assert r == z + d;
    assert r[|z|..] == d;
  }

  /** `format(p, '02')` is always a specification of the simple shape, and reading
      it back yields: zero fill to width `p` for `0 <= p <= 9`, blank fill to width
      `p` for `p >= 10` (no leading `0` flag), and for a negative `p` the `-` is read
      as the sign option, leaving blank fill to width `-p`. */
  lemma {:induction false} TwoDigitSpec(p: int)
    ensures IsSimpleSpec(FormatInt(p, Spec(true, 2)))
    ensures ParseSpec(FormatInt(p, Spec(true, 2))) ==
      if 0 <= p <= 9 then Spec(true, p)
      else if p >= 10 then Spec(false, p)
      else Spec(false, -p)
  {
    var s := FormatInt(p, Spec(true, 2));
    if 0 <= p <= 9 {
      assert s == ['0'] + [DigitChar(p)];
      assert s[1..] == [DigitChar(p)];
      assert DecimalValue(s[1..]) == DecimalValue([] + [DigitChar(p)]);
    } else if p >= 10 {
      var d := NatToString(p);
      assert |d| >= 2 by {
        assert d == NatToString(p / 10) + [DigitChar(p % 10)];
      }
      assert s == d;
    } else {
      var d := NatToString(-p);
      assert s == "-" + d;
      assert s[1..] == d;
    }
  }

  /** Formatted numbers hold nothing but digits, blanks and a minus sign. */
  lemma FormatChars(n: int, spec: Spec)
    ensures var r := FormatInt(n, spec);
      forall i :: 0 <= i < |r| ==> IsDigit(r[i]) || r[i] == ' ' || r[i] == '-'
  {
  }
}
