/**
 `parseInt(s, 10)` of ECMA-262 (section 19.2.5 of the 2024 edition): skip
 leading white space, take an optional sign, read the longest run of decimal
 digits. No digits gives NaN; a value too large for a double gives an
 infinity.
 */
module JsNumber {

  import JsString

  /** The results `parseInt` can produce. */
  datatype Number = NaN | Finite(value: int) | Infinite(positive: bool)

  /** The smallest integer that rounds to Infinity as a double: 2^1024 - 2^970. */
  const OverflowThreshold: nat := 179769313486231580793728971405303415079934132710037826936173778980444968292764750946649017977587207096330286416692887910946555547851940402630657488671505820681908902000708383676273854845817711531764475730270069855571366959622842914819860834936475292719074168444365510704342711559699508093042880177904174497792

  predicate IsDigit(c: char) {
    '0' <= c <= '9'
  }

  predicate AllDigits(s: string) {
    forall i :: 0 <= i < |s| ==> IsDigit(s[i])
  }

  function DigitValue(c: char): nat
    requires IsDigit(c)
  {
    c as int - '0' as int
  }

  function DigitChar(d: nat): (c: char)
    requires d < 10
    ensures IsDigit(c) && DigitValue(c) == d
  {
    ('0' as int + d) as char
  }

  /** The length of the longest prefix of `s` made of decimal digits. */
  function DigitRun(s: string): (k: nat)
    ensures k <= |s|
    ensures AllDigits(s[..k])
    ensures k == |s| || !IsDigit(s[k])
  {
    if |s| > 0 && IsDigit(s[0]) then
      var k := 1 + DigitRun(s[1..]);
      assert forall i :: 1 <= i < k ==> s[..k][i] == s[1..][..k - 1][i - 1];
      k
    else 0
  }

  /** The integer a string of decimal digits denotes, most significant first. */
  function DigitsValue(s: string): nat
    requires AllDigits(s)
  {
    if |s| == 0 then 0 else DigitsValue(s[..|s| - 1]) * 10 + DigitValue(s[|s| - 1])
  }

  /** `parseInt(s, 10)`. */
  function ParseInt(s: string): (r: Number)
    ensures (forall i :: 0 <= i < |s| ==> !IsDigit(s[i])) ==> r == NaN
    ensures r.Finite? && r.value != 0 ==> exists i :: 0 <= i < |s| && '1' <= s[i] <= '9'
  {
    var t := JsString.TrimStart(s);
    JsString.TrimStartDropsBlank(s);
    var r := ReadSigned(t);
    assert r.Finite? && r.value != 0 ==> exists i :: 0 <= i < |s| && '1' <= s[i] <= '9' by {
      if r.Finite? && r.value != 0 {
        var j :| 0 <= j < |t| && '1' <= t[j] <= '9';
        assert s[|s| - |t| + j] == t[j];
      }
    }
    r
  }

  /** What `parseInt` reads once leading white space is gone: an optional sign, then digits. */
  function ReadSigned(t: string): (r: Number)
    ensures (forall i :: 0 <= i < |t| ==> !IsDigit(t[i])) ==> r == NaN
    ensures r.Finite? && r.value != 0 ==> exists i :: 0 <= i < |t| && '1' <= t[i] <= '9'
  {
    if |t| > 0 && (t[0] == '-' || t[0] == '+') then
      var r := ReadUnsigned(t[1..]);
      assert r.Finite? && r.value != 0 ==> exists i :: 0 <= i < |t| && '1' <= t[i] <= '9' by {
        if r.Finite? && r.value != 0 {
          var j :| 0 <= j < |t| - 1 && '1' <= t[1..][j] <= '9';
          assert t[j + 1] == t[1..][j];
        }
      }
      if t[0] == '-' then Negate(r) else r
    else ReadUnsigned(t)
  }

  /** `-x` on the results `parseInt` can produce. */
  function Negate(n: Number): (r: Number)
    ensures n.NaN? <==> r.NaN?
    ensures n.Finite? ==> r == Finite(-n.value)
  {
    match n
    case NaN => NaN
    case Finite(v) => Finite(-v)
    case Infinite(p) => Infinite(!p)
  }

  /** The longest run of leading digits read as a non-negative number; none gives NaN. */
  function ReadUnsigned(u: string): (r: Number)
    ensures |u| == 0 || !IsDigit(u[0]) <==> r == NaN
    ensures r.Finite? ==> r.value >= 0
    ensures r.Finite? && r.value != 0 ==> exists i :: 0 <= i < |u| && '1' <= u[i] <= '9'
  {
    var k := DigitRun(u);
    if k == 0 then NaN
    else
      var m := DigitsValue(u[..k]);
      assert m != 0 ==> exists i :: 0 <= i < |u| && '1' <= u[i] <= '9' by {
        if m != 0 {
          NonZeroHasNonZeroDigit(u[..k]);
          var j :| 0 <= j < k && '1' <= u[..k][j] <= '9';
          assert u[j] == u[..k][j];
        }
      }
      if m >= OverflowThreshold then Infinite(true) else Finite(m)
  }

  /** Digits not followed by a digit read back as their value when it is finite. */
  lemma ReadDigits(d: string, rest: string)
    requires |d| > 0 && AllDigits(d) && DigitsValue(d) < OverflowThreshold
    requires |rest| == 0 || !IsDigit(rest[0])
    ensures ReadUnsigned(d + rest) == Finite(DigitsValue(d))
  {
    DigitRunOfDigitsThen(d, rest);
    assert (d + rest)[..|d|] == d;
  }

  lemma {:induction false} NonZeroHasNonZeroDigit(s: string)
    requires AllDigits(s)
    ensures DigitsValue(s) != 0 ==> exists i :: 0 <= i < |s| && '1' <= s[i] <= '9'
  {
    if |s| > 0 && DigitsValue(s) != 0 {
      var last := s[|s| - 1];
      if '1' <= last <= '9' {
      } else {
        NonZeroHasNonZeroDigit(s[..|s| - 1]);
        var i :| 0 <= i < |s| - 1 && '1' <= s[..|s| - 1][i] <= '9';
        assert s[i] == s[..|s| - 1][i];
      }
    }
  }

  /** The plain decimal numeral of `n`, without leading zeros. */
  function Decimal(n: nat): (r: string)
    ensures |r| >= 1 && AllDigits(r)
    ensures r[0] != '0' || n == 0
  {
    if n < 10 then [DigitChar(n)] else Decimal(n / 10) + [DigitChar(n % 10)]
  }

  /** Reading back a numeral gives the number it was printed from. */
  lemma {:induction false} DigitsValueOfDecimal(n: nat)
    ensures DigitsValue(Decimal(n)) == n
  {
    if n >= 10 {
      var d := Decimal(n);
      assert d[..|d| - 1] == Decimal(n / 10);
      DigitsValueOfDecimal(n / 10);
    }
  }

  /**
   The round trip: `parseInt` reads back the numeral of any `n` below the
   overflow threshold, whatever non-digit text follows it.
   */
  lemma ParseIntOfDecimal(n: nat, rest: string)
    requires n < OverflowThreshold
    requires |rest| == 0 || !IsDigit(rest[0])
    ensures ParseInt(Decimal(n) + rest) == Finite(n)
  {
    var d := Decimal(n);
    DigitsValueOfDecimal(n);
    assert (d + rest)[0] == d[0];
    ParseIntOfUnpadded(d + rest);
    ReadDigits(d, rest);
    assert ReadSigned(d + rest) == ReadUnsigned(d + rest);
  }

  /** Text that starts with a minus sign never reads as a positive number. */
  lemma MinusNeverPositive(s: string)
    requires |s| > 0 && s[0] == '-'
    ensures var n := ParseInt(s); !(n.Finite? && n.value > 0)
  {
    var m := ReadUnsigned(s[1..]);
    assert ParseInt(s) == Negate(m) by {
      assert !JsString.IsSpace(s[0]);
      ParseIntOfUnpadded(s);
      MinusNegates(s);
    }
    NegateNonPositive(m);
  }

  /** Without leading white space, `parseInt` goes straight to the sign and digits. */
  lemma ParseIntOfUnpadded(s: string)
    requires |s| > 0 && !JsString.IsSpace(s[0])
    ensures ParseInt(s) == ReadSigned(s)
  {
    assert JsString.TrimStart(s) == s;
  }

  lemma NegateNonPositive(n: Number)
    requires n.Finite? ==> n.value >= 0
    ensures !(Negate(n).Finite? && Negate(n).value > 0)
  {
  }

  lemma MinusNegates(t: string)
    requires |t| > 0 && t[0] == '-'
    ensures ReadSigned(t) == Negate(ReadUnsigned(t[1..]))
  {
  }

  lemma {:induction false} DigitRunOfDigitsThen(d: string, rest: string)
    requires AllDigits(d)
    requires |rest| == 0 || !IsDigit(rest[0])
    ensures DigitRun(d + rest) == |d|
  {
    if |d| > 0 {
      assert (d + rest)[1..] == d[1..] + rest;
      DigitRunOfDigitsThen(d[1..], rest);
    } else {
      assert d + rest == rest;
    }
  }

  /** Leading white space never changes what `parseInt` reads. */
  lemma {:induction false} ParseIntSkipsLeadingSpace(w: string, s: string)
    requires JsString.Blank(w)
    ensures ParseInt(w + s) == ParseInt(s)
  {
    LeadingSpaceTrimmed(w, s);
    assert ParseInt(w + s) == ReadSigned(JsString.TrimStart(s));
  }

  lemma {:induction false} LeadingSpaceTrimmed(w: string, s: string)
    requires JsString.Blank(w)
    ensures JsString.TrimStart(w + s) == JsString.TrimStart(s)
  {
    if |w| > 0 {
      assert (w + s)[0] == w[0];
      assert (w + s)[1..] == w[1..] + s;
      LeadingSpaceTrimmed(w[1..], s);
    } else {
      assert w + s == s;
    }
  }
}
