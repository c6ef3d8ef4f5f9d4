/** Decimal numerals: Rust's `Display` for unsigned integers (used for the
    `__vector_{}` symbols and for clap's rendered default) and `usize::from_str`
    (used by `valid_version`). */
module Numerals {
  import opened Wrappers

  /** Largest `usize` on the 64-bit host the generator runs on. */
  const UsizeMax: nat := 0xFFFF_FFFF_FFFF_FFFF

  predicate IsDigit(c: char) {
    '0' <= c <= '9'
  }

  predicate AllDigits(s: string) {
    forall i :: 0 <= i < |s| ==> IsDigit(s[i])
  }

  function DigitChar(d: nat): (c: char)
    requires d < 10
    ensures IsDigit(c)
  {
    ('0' as int + d) as char
  }

  function DigitValue(c: char): (d: nat)
    requires IsDigit(c)
    ensures d < 10
    ensures DigitChar(d) == c
  {
    c as int - '0' as int
  }

  /** The value of a run of decimal digits, most significant first. */
  function DigitsValue(s: string): (v: nat)
    requires AllDigits(s)
  {
    if |s| == 0 then 0 else DigitsValue(s[..|s| - 1]) * 10 + DigitValue(s[|s| - 1])
  }

  /** Decimal rendering of `n` without sign or leading zeros. */
  function Decimal(n: nat): (s: string)
  {
    if n < 10 then [DigitChar(n)] else Decimal(n / 10) + [DigitChar(n % 10)]
  }

  /** A run of `k` zero digits. */
  function Zeros(k: nat): (z: string)
  {
    seq(k, _ => '0')
  }

  /** `s` spells `v`: an optional `'+'`, then any number of `'0'`s, then the
      canonical decimal rendering of `v`. */
  predicate IsNumeral(s: string, v: nat) {
    var sign := if |s| > 0 && s[0] == '+' then 1 else 0;
    var d := Decimal(v);
    sign + |d| <= |s| && s[sign..] == Zeros(|s| - sign - |d|) + d
  }

  /** `usize::from_str`: an optional `'+'`, then at least one ASCII digit, and a
      value that fits in a `usize`. A `'-'` is never a digit of an unsigned
      number, so `"-0"` is refused like any other non-digit. Whatever parses is
      a numeral of the value it parses to. */
  function ParseUsize(s: string): (r: Option<nat>)
    ensures r.Some? ==> r.value <= UsizeMax
    ensures r.Some? ==> IsNumeral(s, r.value)
  {
    if |s| == 0 then None
    else
      var digits := if s[0] == '+' then s[1..] else s;
      if |digits| == 0 || !AllDigits(digits) then None
      else
        var v := DigitsValue(digits);
        if v > UsizeMax then None
        else
          DigitsCanonical(digits);
          Some(v)
  }

  lemma {:induction false} ZerosValue(k: nat)
    ensures AllDigits(Zeros(k)) && DigitsValue(Zeros(k)) == 0
  {
    if k > 0 {
      ZerosValue(k - 1);
      assert Zeros(k)[..k - 1] == Zeros(k - 1);
    }
  }

  /** Leading zeros change neither digit-ness nor value. */
  lemma {:induction false} LeadingZeros(k: nat, d: string)
    requires AllDigits(d)
    ensures AllDigits(Zeros(k) + d) && DigitsValue(Zeros(k) + d) == DigitsValue(d)
    decreases |d|
  {
    if |d| == 0 {
      assert Zeros(k) + d == Zeros(k);
      ZerosValue(k);
    } else {
      var s := Zeros(k) + d;
      LeadingZeros(k, d[..|d| - 1]);
      assert s[..|s| - 1] == Zeros(k) + d[..|d| - 1];
    }
  }

  /** Every non-empty run of digits is zeros followed by the canonical
      rendering of its value. */
  lemma {:induction false} DigitsCanonical(d: string)
    requires AllDigits(d) && |d| > 0
    ensures |Decimal(DigitsValue(d))| <= |d|
    ensures d == Zeros(|d| - |Decimal(DigitsValue(d))|) + Decimal(DigitsValue(d))
    decreases |d|
  {
    var n := |d|;
    var c := d[n - 1];
    var v := DigitsValue(d);
    if n == 1 {
      assert DigitsValue(d[..0]) == 0;
      assert v == DigitsValue(d[..0]) * 10 + DigitValue(c);
      assert Decimal(v) == [c];
      assert d == Zeros(0) + [c];
    } else {
      var front := d[..n - 1];
      DigitsCanonical(front);
      var v' := DigitsValue(front);
      assert d == front + [c];
      if v' == 0 {
        assert Decimal(v) == [c];
        assert front == Zeros(n - 2) + "0";
        assert front == Zeros(n - 1);
      } else {
        assert v / 10 == v' && v % 10 == DigitValue(c);
        assert Decimal(v) == Decimal(v') + [c];
      }
    }
  }

  /** Rendering yields a non-empty run of digits whose value is the number rendered. */
  lemma {:induction false} DecimalDigits(n: nat)
    ensures |Decimal(n)| > 0
    ensures AllDigits(Decimal(n))
    ensures DigitsValue(Decimal(n)) == n
  {
    if n >= 10 {
      DecimalDigits(n / 10);
      var s := Decimal(n / 10) + [DigitChar(n % 10)];
      assert s[..|s| - 1] == Decimal(n / 10);
    }
  }

  /** `ParseUsize` accepts exactly the numerals of values that fit in a
      `usize`: both directions of the round trip between strings and values. */
  lemma ParseUsizeExactly(s: string, v: nat)
    ensures ParseUsize(s) == Some(v) <==> v <= UsizeMax && IsNumeral(s, v)
  {
    if v <= UsizeMax && IsNumeral(s, v) {
      var sign := if |s| > 0 && s[0] == '+' then 1 else 0;
      var d := Decimal(v);
      var k := |s| - sign - |d|;
      DecimalDigits(v);
      LeadingZeros(k, d);
      assert |d| > 0;
      if sign == 0 {
        assert s == Zeros(k) + d;
        if k > 0 {
          assert s[0] == '0';
        } else {
          assert s[0] == d[0];
        }
      }
    }
  }

  /** Parsing what `Decimal` renders gives the number back, for every `usize`. */
  lemma ParseDecimal(n: nat)
    requires n <= UsizeMax
    ensures ParseUsize(Decimal(n)) == Some(n)
  {
    DecimalDigits(n);
    assert Decimal(n)[0] != '+';
    assert Decimal(n) == Zeros(0) + Decimal(n);
    ParseUsizeExactly(Decimal(n), n);
  }

  /** Distinct numbers render to distinct numerals. */
  lemma DecimalInjective(a: nat, b: nat)
    requires Decimal(a) == Decimal(b)
    ensures a == b
  {
    DecimalDigits(a);
    DecimalDigits(b);
  }

  /** Strings that are not numerals are refused. */
  lemma ParseRejectsNonNumerals()
    ensures ParseUsize("") == None
    ensures ParseUsize("+") == None
    ensures ParseUsize("-1") == None
    ensures ParseUsize("one") == None
    ensures ParseUsize("1 ") == None
  {
    assert !IsDigit("-1"[0]);
    assert !IsDigit("one"[0]);
    assert !IsDigit("1 "[1]);
  }
}
