/**
 * Decimal text as the system writes and reads it: `std::to_string`, `"%d"`,
 * the ten-digit zero padding of sequence node names, and
 * `boost::lexical_cast<int>` for parsing.
 */
module Decimal {
  import opened Results

  /** Bounds of a 32-bit C++ `int`. */
  const IntMin: int := -0x8000_0000
  const IntMax: int := 0x7fff_ffff

  predicate IsDigit(c: char) {
    '0' <= c <= '9'
  }

  predicate AllDigits(s: string) {
    forall i :: 0 <= i < |s| ==> IsDigit(s[i])
  }

  function DigitChar(d: nat): (c: char)
    requires d < 10
    ensures IsDigit(c) && c as int - '0' as int == d
  {
    ('0' as int + d) as char
  }

  /** The shortest decimal text of `n`: no sign, no leading zero. */
  function NatToString(n: nat): (s: string)
    ensures |s| >= 1 && AllDigits(s)
    ensures s[0] == '0' <==> n == 0
  {
    if n < 10 then [DigitChar(n)] else NatToString(n / 10) + [DigitChar(n % 10)]
  }

  /** Decimal text of a signed integer, with a leading '-' when negative. */
  function IntToString(i: int): (s: string)
    ensures |s| >= 1
    ensures (s[0] == '-') == (i < 0)
  {
    if i < 0 then "-" + NatToString(-i) else NatToString(i)
  }

  /** The number a string of digits denotes; leading zeros are allowed. */
  function DigitsValue(s: string): nat
    requires AllDigits(s)
  {
    if s == [] then 0 else DigitsValue(s[..|s| - 1]) * 10 + (s[|s| - 1] as int - '0' as int)
  }

  function Pow10(k: nat): (p: nat)
    ensures p >= 1
  {
    if k == 0 then 1 else 10 * Pow10(k - 1)
  }

  lemma {:induction false} NatToStringValue(n: nat)
    ensures DigitsValue(NatToString(n)) == n
  {
    if n >= 10 {
      var s := NatToString(n);
      assert s[..|s| - 1] == NatToString(n / 10);
      NatToStringValue(n / 10);
    }
  }

  /** Distinct numbers have distinct decimal texts. */
  lemma NatToStringInjective(m: nat, n: nat)
    requires NatToString(m) == NatToString(n)
    ensures m == n
  {
    NatToStringValue(m);
    NatToStringValue(n);
  }

  /** A number below 10^k takes at most k digits. */
  lemma {:induction false} NatToStringLength(n: nat, k: nat)
    requires k >= 1 && n < Pow10(k)
    ensures |NatToString(n)| <= k
  {
    if n >= 10 {
      assert Pow10(1) == 10;
      assert n / 10 < Pow10(k - 1);
      NatToStringLength(n / 10, k - 1);
    }
  }

  function Zeros(k: nat): (z: string)
    ensures |z| == k && forall i :: 0 <= i < k ==> z[i] == '0'
  {
    if k == 0 then [] else "0" + Zeros(k - 1)
  }

  lemma {:induction false} ZerosValue(k: nat, s: string)
    requires AllDigits(s)
    ensures AllDigits(Zeros(k) + s) && DigitsValue(Zeros(k) + s) == DigitsValue(s)
  {
    var t := Zeros(k) + s;
    if s == [] {
      assert t == Zeros(k);
      ZerosValueOnly(k);
    } else {
      assert t[..|t| - 1] == Zeros(k) + s[..|s| - 1];
      ZerosValue(k, s[..|s| - 1]);
    }
  }

  lemma {:induction false} ZerosValueOnly(k: nat)
    ensures DigitsValue(Zeros(k)) == 0
  {
    if k > 0 {
      assert Zeros(k)[..k - 1] == Zeros(k - 1);
      ZerosValueOnly(k - 1);
    }
  }

  /** `"%010d"` of a non-negative number: its digits, left-padded with zeros to ten characters. */
  function Pad10(n: nat): (s: string)
    ensures |s| >= 10 && AllDigits(s)
  {
    var d := NatToString(n);
    if |d| >= 10 then d else Zeros(10 - |d|) + d
  }

  /** Padding loses nothing: the padded text still denotes `n`. */
  lemma Pad10Value(n: nat)
    ensures DigitsValue(Pad10(n)) == n
  {
    NatToStringValue(n);
    var d := NatToString(n);
    if |d| < 10 {
      ZerosValue(10 - |d|, d);
    }
  }

  /** Below 10^10 the padded text is exactly ten characters long. */
  lemma Pad10Length(n: nat)
    requires n < 10_000_000_000
    ensures |Pad10(n)| == 10
  {
    assert Pow10(10) == 10_000_000_000;
    NatToStringLength(n, 10);
  }

  lemma Pad10Injective(m: nat, n: nat)
    requires Pad10(m) == Pad10(n)
    ensures m == n
  {
    Pad10Value(m);
    Pad10Value(n);
  }

  /** Keeps a parsed value only when it fits a 32-bit `int`. */
  function FitInt(v: int): Option<int>
  {
    if IntMin <= v <= IntMax then Some(v) else None
  }

  /**
   * `boost::lexical_cast<int>`: an optional sign followed by one or more digits
   * and nothing else, whose value fits an `int`; anything else fails.
   */
  function LexicalCastInt(s: string): (r: Option<int>)
    ensures r.Some? ==> IntMin <= r.value <= IntMax
    ensures r.Some? ==> |s| >= 1 && (IsDigit(s[0]) || s[0] == '-' || s[0] == '+')
  {
    if |s| > 1 && (s[0] == '-' || s[0] == '+') && AllDigits(s[1..]) then
      var magnitude: int := DigitsValue(s[1..]);
      FitInt(if s[0] == '-' then -magnitude else magnitude)
    else if |s| > 0 && AllDigits(s) then
      FitInt(DigitsValue(s))
    else
      None
  }

  /** The number that a sign ("", "+" or "-") followed by digits denotes. */
  function SignedValue(sign: string, digits: string): int
    requires AllDigits(digits)
  {
    if sign == "-" then -(DigitsValue(digits) as int) else DigitsValue(digits)
  }

  /**
   * A text made of an optional sign and at least one digit, leading zeros
   * allowed, is accepted exactly when the number it denotes fits an `int`,
   * and the cast gives that number.
   */
  lemma LexicalCastSignedDigits(sign: string, digits: string)
    requires sign == "" || sign == "+" || sign == "-"
    requires |digits| >= 1 && AllDigits(digits)
    ensures LexicalCastInt(sign + digits).Some? <==> IntMin <= SignedValue(sign, digits) <= IntMax
    ensures LexicalCastInt(sign + digits).Some? ==> LexicalCastInt(sign + digits).value == SignedValue(sign, digits)
  {
    var s := sign + digits;
    if sign == "" {
      assert s == digits;
    } else {
      assert s[0] == sign[0] && s[1..] == digits;
    }
  }

  /** Only such texts are accepted: an accepted text is an optional sign and then digits only. */
  lemma LexicalCastAcceptedForm(s: string)
    requires LexicalCastInt(s).Some?
    ensures var sign := if s[0] == '-' || s[0] == '+' then s[..1] else "";
      && |s| > |sign| && AllDigits(s[|sign|..]) && s == sign + s[|sign|..]
      && LexicalCastInt(s).value == SignedValue(sign, s[|sign|..])
  {
    if s[0] == '-' || s[0] == '+' {
      assert s[..1] == [s[0]];
    } else {
      assert s[0..] == s;
    }
  }

  /** A '+' sign and leading zeros are accepted; a bare sign or a trailing letter is not. */
  lemma LexicalCastExamples()
    ensures LexicalCastInt("+7") == Some(7)
    ensures LexicalCastInt("007") == Some(7)
    ensures LexicalCastInt("-12") == Some(-12)
    ensures LexicalCastInt("+") == None && LexicalCastInt("") == None && LexicalCastInt("7a") == None
  {
    assert "+7"[1..] == "7";
    assert "007"[..2] == "00" && "00"[..1] == "0" && "0"[..0] == [];
    assert "-12"[1..] == "12" && "12"[..1] == "1";
    assert !IsDigit("7a"[1]);
  }

  /** Parsing what `IntToString` printed gives the number back, for every `int`. */
  lemma IntToStringRoundTrip(i: int)
    requires IntMin <= i <= IntMax
    ensures LexicalCastInt(IntToString(i)) == Some(i)
  {
    var s := IntToString(i);
    if i < 0 {
      var d := NatToString(-i);
      assert s == "-" + d && s[1..] == d;
      NatToStringValue(-i);
      assert |s| > 1 && s[0] == '-' && AllDigits(s[1..]);
      assert DigitsValue(s[1..]) == -i;
    } else {
      NatToStringValue(i);
      assert IsDigit(s[0]) && AllDigits(s) && DigitsValue(s) == i;
    }
  }

  /** A string holding a space (or any non-digit past the sign) is not an `int`. */
  lemma LexicalCastRejectsSpace(s: string, k: nat)
    requires k < |s| && s[k] == ' '
    ensures LexicalCastInt(s) == None
  {
  }
}
