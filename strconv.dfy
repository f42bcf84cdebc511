/**
  * Go's `strconv.Atoi` on a 64-bit platform (where `int` is 64 bits wide), and the
  * decimal formatting that inverts it.
  *
  * Atoi accepts an optional `+` or `-` sign followed by at least one decimal digit,
  * with no other characters, and fails when the value does not fit a signed 64-bit
  * integer. `strconv.ParseInt(s, 10, 64)` accepts exactly the same strings.
  */
module Strconv {
  import opened Wrappers

  const MinInt64: int := -0x8000_0000_0000_0000
  const MaxInt64: int := 0x7FFF_FFFF_FFFF_FFFF

  predicate InInt64(n: int) { MinInt64 <= n <= MaxInt64 }

  predicate IsDigit(c: char) { '0' <= c <= '9' }

  predicate AllDigits(s: string) { forall i :: 0 <= i < |s| ==> IsDigit(s[i]) }

  function DigitValue(c: char): nat
    requires IsDigit(c)
  {
    (c as int) - ('0' as int)
  }

  /** The value of a run of decimal digits, most significant first. */
  function DigitsValue(s: string): nat
    requires AllDigits(s)
  {
    if |s| == 0 then 0 else DigitsValue(s[..|s| - 1]) * 10 + DigitValue(s[|s| - 1])
  }

  /** Splits off an optional leading sign: (negative?, digits part). */
  function SplitSign(s: string): (bool, string)
  {
    if |s| > 0 && (s[0] == '-' || s[0] == '+') then (s[0] == '-', s[1..]) else (false, s)
  }

  /** The string has Atoi's shape: optional sign, then one or more digits. */
  predicate Numeral(s: string)
  {
    var (_, body) := SplitSign(s);
    |body| > 0 && AllDigits(body)
  }

  /** The mathematical value of a numeral, before the 64-bit range check. */
  function NumeralValue(s: string): int
    requires Numeral(s)
  {
    var (neg, body) := SplitSign(s);
    var v: int := DigitsValue(body);
    if neg then -v else v
  }

  /** `strconv.Atoi(s)`: the parsed value, or None for a syntax or range error. */
  function Atoi(s: string): (r: Option<int>)
    ensures r.Some? <==> Numeral(s) && InInt64(NumeralValue(s))
    ensures r.Some? ==> r.value == NumeralValue(s) && InInt64(r.value)
    ensures r.Some? ==> |s| > 0
  {
    if Numeral(s) && InInt64(NumeralValue(s)) then Some(NumeralValue(s)) else None
  }

  const MaxUint64: int := 0xFFFF_FFFF_FFFF_FFFF

  /** The longest run of decimal digits at the start of `s`. */
  function LeadingDigits(s: string): (d: string)
    ensures |d| <= |s| && d == s[..|d|] && AllDigits(d)
    ensures |d| < |s| ==> !IsDigit(s[|d|])
    ensures AllDigits(s) ==> d == s
  {
    if |s| == 0 || !IsDigit(s[0]) then "" else [s[0]] + LeadingDigits(s[1..])
  }

  /**
    * Atoi reports a range error: the digits after the sign exceed 2^64 - 1 before the
    * first non-digit (`ParseUint` checks for overflow digit by digit, so it stops there
    * before it can see that the string is malformed), or the numeral is well formed and
    * outside the signed 64-bit range.
    */
  predicate RangeError(s: string)
  {
    DigitsValue(LeadingDigits(SplitSign(s).1)) > MaxUint64 || (Numeral(s) && !InInt64(NumeralValue(s)))
  }

  /**
    * The integer Atoi returns alongside its error: the bound of the sign's direction after
    * a range error, and 0 after a syntax error.
    */
  function AtoiValue(s: string): (n: int)
    ensures InInt64(n)
    ensures Atoi(s).Some? ==> n == Atoi(s).value
    ensures Atoi(s).None? ==> n == 0 || n == MinInt64 || n == MaxInt64
    ensures RangeError(s) ==> n == (if SplitSign(s).0 then MinInt64 else MaxInt64)
    ensures !RangeError(s) && !Numeral(s) ==> n == 0
  {
    if RangeError(s) then (if SplitSign(s).0 then MinInt64 else MaxInt64)
    else if !Numeral(s) then 0
    else NumeralValue(s)
  }

  function Pow10(k: nat): nat
  {
    if k == 0 then 1 else 10 * Pow10(k - 1)
  }

  /** A run of digits is worth at least its first digit times its place value. */
  lemma {:induction false} DigitsValueAtLeast(d: string)
    requires |d| > 0 && AllDigits(d)
    ensures DigitsValue(d) >= DigitValue(d[0]) * Pow10(|d| - 1)
  {
    if |d| > 1 {
      var init := d[..|d| - 1];
      DigitsValueAtLeast(init);
      var lead := DigitValue(d[0]);
      assert init[0] == d[0];
      assert lead * Pow10(|d| - 1) == (lead * Pow10(|d| - 2)) * 10;
    }
  }

  /**
    * Twenty nines and then a non-digit: the digits overflow 2^64 - 1 before the non-digit
    * is read, so Atoi returns the range error's bound rather than the syntax error's 0.
    */
  lemma OverflowBeforeJunk(s: string, neg: bool)
    requires |s| == 21 && (forall i :: 0 <= i < 20 ==> s[i] == '9') && !IsDigit(s[20])
    ensures var t := if neg then "-" + s else s;
      Atoi(t) == None && AtoiValue(t) == (if neg then MinInt64 else MaxInt64)
  {
    var t := if neg then "-" + s else s;
    assert SplitSign(t) == (neg, s);
    var d := LeadingDigits(s);
    assert forall i :: 0 <= i < 20 ==> IsDigit(s[i]);
    assert |d| == 20;
    assert d[0] == '9';
    DigitsValueAtLeast(d);
    Pow10Nineteen();
    assert !AllDigits(s);
  }

  lemma Pow10Nineteen()
    ensures Pow10(19) == 10_000_000_000_000_000_000
  {
    assert Pow10(4) == 10_000;
    assert Pow10(8) == 100_000_000;
    assert Pow10(12) == 1_000_000_000_000;
    assert Pow10(16) == 10_000_000_000_000_000;
  }

  /** A run of digits is worth less than the next place value. */
  lemma {:induction false} DigitsValueBelow(d: string)
    requires AllDigits(d)
    ensures DigitsValue(d) < Pow10(|d|)
  {
    if |d| > 0 {
      DigitsValueBelow(d[..|d| - 1]);
    }
  }

  /**
    * Malformed text of at most 19 characters cannot overflow, so Atoi's error is a syntax
    * error and its value is 0.
    */
  lemma ShortMalformedIsZero(s: string)
    requires |s| <= 19 && !Numeral(s)
    ensures Atoi(s) == None && AtoiValue(s) == 0
  {
    var d := LeadingDigits(SplitSign(s).1);
    DigitsValueBelow(d);
    Pow10Monotone(|d|, 19);
    Pow10Nineteen();
  }

  lemma {:induction false} Pow10Monotone(j: nat, k: nat)
    requires j <= k
    ensures Pow10(j) <= Pow10(k)
  {
    if j < k {
      Pow10Monotone(j, k - 1);
    }
  }

  function DigitChar(d: nat): char
    requires d < 10
  {
    ('0' as int + d) as char
  }

  /** Decimal digits of a natural number, without leading zeros. */
  function NatDigits(n: nat): (s: string)
    ensures |s| > 0 && AllDigits(s)
  {
    if n < 10 then [DigitChar(n)] else NatDigits(n / 10) + [DigitChar(n % 10)]
  }

  /** `strconv.Itoa(n)`: a `-` for negative numbers, then the digits. */
  function Itoa(n: int): string
  {
    if n < 0 then "-" + NatDigits(-n) else NatDigits(n)
  }

  lemma {:induction false} NatDigitsValue(n: nat)
    ensures DigitsValue(NatDigits(n)) == n
  {
    var s := NatDigits(n);
    if n >= 10 {
      NatDigitsValue(n / 10);
      assert s[..|s| - 1] == NatDigits(n / 10);
    }
  }

  /** Formatting then parsing gives back every 64-bit integer. */
  lemma AtoiItoa(n: int)
    requires InInt64(n)
    ensures Atoi(Itoa(n)) == Some(n)
  {
    var m: nat := if n < 0 then -n else n;
    NatDigitsValue(m);
    var digits := NatDigits(m);
    if n < 0 {
      assert SplitSign(Itoa(n)) == (true, digits);
    } else {
      assert SplitSign(Itoa(n)) == (false, digits);
    }
  }

  /**
    * The converse of `AtoiItoa`: every string Atoi accepts is an optional sign, then zeros,
    * then the digits Itoa writes for the value's magnitude; a `-` sign comes only with a
    * value of at most 0, and a negative value only with a `-` sign.
    */
  lemma AtoiAccepted(s: string)
    requires Atoi(s).Some?
    ensures var n := Atoi(s).value;
      var (neg, body) := SplitSign(s);
      && (n < 0 ==> neg) && (neg ==> n <= 0)
      && exists k :: 0 <= k < |body| && (forall i :: 0 <= i < k ==> body[i] == '0') &&
           body[k..] == NatDigits(if n < 0 then -n else n)
  {
    var (neg, body) := SplitSign(s);
    var k := StripZeros(body);
  }

  /** A run of digits is zeros followed by the canonical digits of its value. */
  lemma {:induction false} StripZeros(body: string) returns (k: nat)
    requires |body| > 0 && AllDigits(body)
    ensures k < |body| && (forall i :: 0 <= i < k ==> body[i] == '0')
    ensures body[k..] == NatDigits(DigitsValue(body))
  {
    if |body| > 1 && body[0] == '0' {
      var rest := body[1..];
      var k' := StripZeros(rest);
      k := k' + 1;
      ZeroLead(rest);
      assert body == ['0'] + rest;
      assert body[k..] == rest[k'..];
    } else {
      k := 0;
      CanonicalDigits(body);
    }
  }

  /** A leading zero does not change the value. */
  lemma {:induction false} ZeroLead(t: string)
    requires AllDigits(t)
    ensures DigitsValue(['0'] + t) == DigitsValue(t)
  {
    var z := ['0'] + t;
    if |t| > 0 {
      ZeroLead(t[..|t| - 1]);
      assert z[..|z| - 1] == ['0'] + t[..|t| - 1];
    } else {
      assert z[..|z| - 1] == [];
    }
  }

  /** Digits without a leading zero are the digits Itoa writes for their value. */
  lemma {:induction false} CanonicalDigits(d: string)
    requires |d| > 0 && AllDigits(d) && (|d| == 1 || d[0] != '0')
    ensures NatDigits(DigitsValue(d)) == d
  {
    if |d| > 1 {
      var init := d[..|d| - 1];
      assert init[0] == d[0];
      CanonicalDigits(init);
      DigitsValueAtLeast(init);
      Pow10Monotone(0, |init| - 1);
      var v := DigitsValue(d);
      assert v / 10 == DigitsValue(init) && v % 10 == DigitValue(d[|d| - 1]);
      assert d == init + [d[|d| - 1]];
    } else {
      assert d[..0] == [];
    }
  }

  /** A formatted number contains a `-` only as its first character. */
  lemma ItoaNoInnerMinus(n: int)
    ensures forall i :: 0 < i < |Itoa(n)| ==> Itoa(n)[i] != '-'
    ensures n >= 0 ==> forall i :: 0 <= i < |Itoa(n)| ==> Itoa(n)[i] != '-'
  {
  }

  /** The empty string and a bare sign are syntax errors. */
  lemma AtoiRejectsEmpty()
    ensures Atoi("") == None && Atoi("-") == None && Atoi("+") == None
  {
    assert SplitSign("-").1 == "";
    assert SplitSign("+").1 == "";
  }

  /** A `-` anywhere after the first character is a syntax error. */
  lemma AtoiRejectsInnerMinus(s: string, i: int)
    requires 0 < i < |s| && s[i] == '-'
    ensures Atoi(s) == None
  {
    var (_, body) := SplitSign(s);
    if |body| == |s| {
      assert !IsDigit(body[i]);
    } else {
      assert !IsDigit(body[i - 1]);
    }
  }
}
