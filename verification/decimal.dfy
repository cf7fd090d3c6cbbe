/** Decimal integers as text: Go's strconv.Itoa / fmt's `%d` and
    strconv.Atoi on a 64-bit platform. */
module Decimal {
  import opened Base

  const Int64Min: int := -0x8000_0000_0000_0000
  const Int64Max: int := 0x7FFF_FFFF_FFFF_FFFF

  /** `n` fits Go's `int64` (and `int` on a 64-bit platform). */
  predicate IsInt64(n: int) {
    Int64Min <= n <= Int64Max
  }

  predicate IsDigit(c: char) {
    '0' <= c <= '9'
  }

  predicate AllDigits(s: string) {
    forall i :: 0 <= i < |s| ==> IsDigit(s[i])
  }

  function DigitValue(c: char): (d: nat)
    requires IsDigit(c)
    ensures d < 10
  {
    c as int - '0' as int
  }

  function DigitChar(d: nat): (c: char)
    requires d < 10
    ensures IsDigit(c) && DigitValue(c) == d
  {
    ('0' as int + d) as char
  }

  /** The value of a digit string read most-significant first; leading
      zeros contribute nothing. */
  function DigitsValue(s: string): nat
    requires AllDigits(s)
  {
    if |s| == 0 then 0
    else DigitsValue(s[..|s| - 1]) * 10 + DigitValue(s[|s| - 1])
  }

  /** The shortest decimal spelling of a natural number. */
  function NatToString(n: nat): (s: string)
    ensures |s| >= 1 && AllDigits(s)
    ensures |s| > 1 ==> s[0] != '0'
  {
    if n < 10 then [DigitChar(n)]
    else NatToString(n / 10) + [DigitChar(n % 10)]
  }

  /** strconv.Itoa and `%d`: a minus sign for negatives, no leading zeros. */
  function Itoa(n: int): (s: string)
    ensures |s| >= 1
  {
    if n < 0 then "-" + NatToString(-n) else NatToString(n)
  }

  /** The two reasons strconv gives for rejecting a number: a character
      that does not belong (ErrSyntax) or a value the type cannot hold
      (ErrRange). */
  datatype NumErrorKind = ErrSyntax | ErrRange

  /** strconv.NumError: the offending input and why it was rejected. */
  datatype NumError = NumError(input: string, kind: NumErrorKind)

  /** The largest uint64, the bound of strconv.ParseUint's accumulator. */
  const MaxUint64: int := 0xFFFF_FFFF_FFFF_FFFF

  /** The error for a missing number or one with a bad character:
      ErrRange when some run of digits at the start already exceeds a
      uint64, ErrSyntax otherwise. */
  function BadCharKind(body: string): NumErrorKind
  {
    if exists k :: 0 <= k <= |body| && AllDigits(body[..k]) && DigitsValue(body[..k]) > MaxUint64 then ErrRange
    else ErrSyntax
  }

  /** strconv.Atoi: an optional sign followed by one or more decimal
      digits whose value fits 64 bits. A bad character is ErrSyntax, except
      that the digits are accumulated from the left and the scan stops with
      ErrRange as soon as they exceed a uint64, before a later bad
      character is seen; an all-digit value outside int64 is ErrRange. */
  function Atoi(s: string): (r: Result<int, NumError>)
    ensures r.Success? ==> IsInt64(r.value)
    ensures r.Failure? ==> r.error.input == s
  {
    if |s| == 0 then Failure(NumError(s, ErrSyntax))
    else
      var body := if s[0] == '-' || s[0] == '+' then s[1..] else s;
      if |body| == 0 || !AllDigits(body) then Failure(NumError(s, BadCharKind(body)))
      else
        var v: int := if s[0] == '-' then -(DigitsValue(body) as int) else DigitsValue(body);
        if IsInt64(v) then Success(v) else Failure(NumError(s, ErrRange))
  }

  function Pow10(n: nat): (p: nat)
    ensures p >= 1
  {
    if n == 0 then 1 else 10 * Pow10(n - 1)
  }

  lemma {:induction false} Pow10Monotone(a: nat, b: nat)
    requires a <= b
    ensures Pow10(a) <= Pow10(b)
    decreases b
  {
    if a < b {
      Pow10Monotone(a, b - 1);
    }
  }

  lemma Pow10Eighteen()
    ensures Pow10(18) == 1_000_000_000_000_000_000
  {
    assert Pow10(6) == 1_000_000;
    assert Pow10(12) == 1_000_000_000_000;
  }

  /** A string of k digits has a value below 10^k. */
  lemma {:induction false} DigitsValueBound(s: string)
    requires AllDigits(s)
    ensures DigitsValue(s) < Pow10(|s|)
    decreases |s|
  {
    if |s| > 0 {
      DigitsValueBound(s[..|s| - 1]);
    }
  }

  lemma {:induction false} DigitsOfNat(n: nat)
    ensures DigitsValue(NatToString(n)) == n
  {
    if n >= 10 {
      var s := NatToString(n);
      assert s[..|s| - 1] == NatToString(n / 10);
      DigitsOfNat(n / 10);
    }
  }

  /** Parsing what Itoa printed gives the number back. */
  lemma AtoiItoa(n: int)
    requires IsInt64(n)
    ensures Atoi(Itoa(n)) == Success(n)
  {
    if n < 0 {
      AtoiNegative(-n);
    } else {
      AtoiDigits(n);
    }
  }

  lemma AtoiDigits(n: nat)
    requires n <= Int64Max
    ensures Atoi(NatToString(n)) == Success(n)
  {
    var s := NatToString(n);
    assert IsDigit(s[0]);
    DigitsOfNat(n);
  }

  lemma AtoiNegative(m: nat)
    requires 0 < m <= -Int64Min
    ensures Atoi("-" + NatToString(m)) == Success(-(m as int))
  {
    var s := "-" + NatToString(m);
    assert s[0] == '-' && s[1..] == NatToString(m);
    DigitsOfNat(m);
  }

  lemma {:induction false} LeadingZeroValue(s: string)
    requires AllDigits(s)
    ensures AllDigits("0" + s) && DigitsValue("0" + s) == DigitsValue(s)
    decreases |s|
  {
    var z := "0" + s;
    if |s| > 0 {
      assert z[..|z| - 1] == "0" + s[..|s| - 1];
      LeadingZeroValue(s[..|s| - 1]);
    }
  }

  /** A leading zero does not change the parsed value ("08090" reads as 8090). */
  lemma AtoiLeadingZero(s: string)
    requires |s| > 0 && AllDigits(s)
    ensures Atoi("0" + s).Success? <==> Atoi(s).Success?
    ensures Atoi(s).Success? ==> Atoi("0" + s).value == Atoi(s).value
  {
    LeadingZeroValue(s);
    assert ("0" + s)[0] == '0';
  }

  /** A digit string with any other character in it is rejected. */
  lemma AtoiRejectsNonDigit(s: string, i: nat)
    requires 0 < i < |s| && !IsDigit(s[i])
    ensures Atoi(s).Failure?
  {
    if s[0] == '-' || s[0] == '+' {
      assert s[1..][i - 1] == s[i];
    }
  }

  /** Atoi's fast path for inputs shorter than 19 characters: nothing that
      short overflows, so every rejection is ErrSyntax. */
  lemma AtoiShortIsSyntax(s: string)
    requires |s| < 19
    ensures Atoi(s).Failure? ==> Atoi(s).error.kind == ErrSyntax
  {
    Pow10Eighteen();
    if |s| > 0 {
      var body := if s[0] == '-' || s[0] == '+' then s[1..] else s;
      if |body| > 0 {
        if AllDigits(body) {
          DigitsValueBound(body);
          Pow10Monotone(|body|, 18);
          assert IsInt64(DigitsValue(body)) && IsInt64(-(DigitsValue(body) as int));
        } else {
          forall k | 0 <= k <= |body| && AllDigits(body[..k])
            ensures DigitsValue(body[..k]) <= MaxUint64
          {
            DigitsValueBound(body[..k]);
            Pow10Monotone(k, 18);
          }
        }
      }
    }
  }

  /** A digit string whose value is outside int64 is ErrRange, with either
      sign. */
  lemma AtoiOutOfRange(n: nat)
    requires n > Int64Max
    ensures Atoi(NatToString(n)) == Failure(NumError(NatToString(n), ErrRange))
    ensures Atoi("-" + NatToString(n + 1)) == Failure(NumError("-" + NatToString(n + 1), ErrRange))
  {
    var s := NatToString(n);
    assert IsDigit(s[0]);
    DigitsOfNat(n);
    var t := "-" + NatToString(n + 1);
    assert t[0] == '-' && t[1..] == NatToString(n + 1);
    DigitsOfNat(n + 1);
  }

  /** Digits that already overflow a uint64 give ErrRange even when a bad
      character follows them: ParseUint stops at the overflow. */
  lemma AtoiOverflowBeforeBadChar(n: nat, t: string)
    requires n > MaxUint64 && |t| > 0 && !IsDigit(t[0])
    ensures Atoi(NatToString(n) + t) == Failure(NumError(NatToString(n) + t, ErrRange))
  {
    var d := NatToString(n);
    var s := d + t;
    assert s[0] == d[0] && IsDigit(s[0]);
    assert s[|d|] == t[0];
    assert s[..|d|] == d;
    DigitsOfNat(n);
  }
}
