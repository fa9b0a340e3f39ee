/**
 * The parts of Go's fmt and strconv packages the codec relies on: `%d` and
 * `%t` formatting, `strconv.Atoi` (64-bit int) and `strconv.ParseBool`.
 */
module Strconv {
  import opened Wrappers
  import opened Errors

  const MaxInt64: int := 0x7fff_ffff_ffff_ffff
  const MinInt64: int := -0x8000_0000_0000_0000
  const MaxUint64: int := 0xffff_ffff_ffff_ffff

  predicate IsDigit(c: char) { '0' <= c <= '9' }

  predicate AllDigits(s: string) { forall i :: 0 <= i < |s| ==> IsDigit(s[i]) }

  function DigitChar(d: nat): char
    requires d < 10
  {
    ('0' as int + d) as char
  }

  function DigitValue(c: char): nat
    requires IsDigit(c)
  {
    c as int - '0' as int
  }

  /** `fmt.Sprintf("%d", n)` for a non-negative n: digits, no sign, no leading zero. */
  function NatToDecimal(n: nat): (s: string)
    ensures |s| > 0 && AllDigits(s)
    ensures s[0] == '0' ==> n == 0
  {
    if n < 10 then [DigitChar(n)] else NatToDecimal(n / 10) + [DigitChar(n % 10)]
  }

  /** `fmt.Sprintf("%d", i)` for any integer. */
  function IntToDecimal(i: int): (s: string)
    ensures |s| > 0 && (s[0] == '-' <==> i < 0)
    ensures var d := if i < 0 then s[1..] else s;
            |d| > 0 && AllDigits(d) && (d[0] == '0' ==> i == 0)
  {
    if i < 0 then "-" + NatToDecimal(-i) else NatToDecimal(i)
  }

  /** `fmt.Sprintf("%t", b)`. */
  function FormatBool(b: bool): (s: string)
    ensures s == "true" || s == "false"
    ensures s[0] == 't' <==> b
  {
    if b then "true" else "false"
  }

  /** The value of a digit string, read from the left. */
  function DigitsValue(s: string): nat
    requires AllDigits(s)
  {
    if s == [] then 0 else DigitsValue(s[..|s| - 1]) * 10 + DigitValue(s[|s| - 1])
  }

  /**
   * The digit loop of `strconv.ParseUint` in base 10 from index i, with the
   * value of the digits before i in acc: a non-digit is a syntax error, a
   * value above the uint64 maximum is a range error, whichever comes first.
   */
  function ScanUint(s: string, i: nat, acc: nat, s0: string): (r: Result<nat, Error>)
    requires i <= |s|
    ensures r.Failure? ==> r.error == NumSyntax("Atoi", s0) || r.error == NumRange("Atoi", s0)
    decreases |s| - i
  {
    if i == |s| then Success(acc)
    else if !IsDigit(s[i]) then Failure(NumSyntax("Atoi", s0))
    else if acc * 10 + DigitValue(s[i]) > MaxUint64 then Failure(NumRange("Atoi", s0))
    else ScanUint(s, i + 1, acc * 10 + DigitValue(s[i]), s0)
  }

  /** `strconv.Atoi` for a 64-bit int: optional sign, decimal digits, int64 range. */
  function Atoi(s: string): (r: Result<int, Error>)
    ensures r.Success? ==> MinInt64 <= r.value <= MaxInt64
    ensures r.Failure? ==> r.error == NumSyntax("Atoi", s) || r.error == NumRange("Atoi", s)
  {
    var neg := |s| > 0 && s[0] == '-';
    var digits := if |s| > 0 && (s[0] == '+' || s[0] == '-') then s[1..] else s;
    if digits == "" then Failure(NumSyntax("Atoi", s))
    else
      match ScanUint(digits, 0, 0, s)
      case Failure(e) => Failure(e)
      case Success(u) =>
        var n: int := if neg then -(u as int) else u;
        if n < MinInt64 || n > MaxInt64 then Failure(NumRange("Atoi", s)) else Success(n)
  }

  /** `strconv.ParseBool`. */
  function ParseBool(s: string): (r: Result<bool, Error>)
    ensures r.Failure? ==> r.error == NumSyntax("ParseBool", s)
    ensures r.Success? ==> 1 <= |s| <= 5 && (r.value <==> s[0] in "1tT")
  {
    if s in {"1", "t", "T", "true", "TRUE", "True"} then Success(true)
    else if s in {"0", "f", "F", "false", "FALSE", "False"} then Success(false)
    else Failure(NumSyntax("ParseBool", s))
  }

  lemma {:induction false} DecimalValue(n: nat)
    ensures DigitsValue(NatToDecimal(n)) == n
  {
    if n >= 10 {
      var s := NatToDecimal(n);
      assert s[..|s| - 1] == NatToDecimal(n / 10);
      DecimalValue(n / 10);
    }
  }

  lemma {:induction false} PrefixValueBound(s: string, j: nat)
    requires AllDigits(s) && j <= |s|
    ensures DigitsValue(s[..j]) <= DigitsValue(s)
    decreases |s| - j
  {
    if j < |s| {
      var t := s[..j + 1];
      assert t[..|t| - 1] == s[..j];
      assert DigitsValue(t) == DigitsValue(s[..j]) * 10 + DigitValue(t[|t| - 1]);
      PrefixValueBound(s, j + 1);
    } else {
      assert s[..j] == s;
    }
  }

  lemma {:induction false} ScanDigits(s: string, i: nat, s0: string)
    requires AllDigits(s) && i <= |s| && DigitsValue(s) <= MaxUint64
    ensures ScanUint(s, i, DigitsValue(s[..i]), s0) == Success(DigitsValue(s))
    decreases |s| - i
  {
    if i == |s| {
      assert s[..i] == s;
    } else {
      var t := s[..i + 1];
      assert t[..|t| - 1] == s[..i];
      PrefixValueBound(s, i + 1);
      ScanDigits(s, i + 1, s0);
    }
  }

  /** `%d` output of an int64 survives `Atoi`: the two are inverse on the int64 range. */
  lemma AtoiOfDecimal(i: int)
    requires MinInt64 <= i <= MaxInt64
    ensures Atoi(IntToDecimal(i)) == Success(i)
  {
    var n: nat := if i < 0 then -i else i;
    var d := NatToDecimal(n);
    DecimalValue(n);
    assert d[..0] == "";
    ScanDigits(d, 0, IntToDecimal(i));
    if i < 0 {
      assert IntToDecimal(i)[1..] == d;
    }
  }

  /** A uint64 above the int64 maximum formats fine but `Atoi` rejects its digits. */
  lemma AtoiRejectsLargeUint(n: nat)
    requires MaxInt64 < n <= MaxUint64
    ensures Atoi(NatToDecimal(n)).Failure?
    ensures Atoi(NatToDecimal(n)).error == NumRange("Atoi", NatToDecimal(n))
  {
    var d := NatToDecimal(n);
    DecimalValue(n);
    assert d[..0] == "";
    ScanDigits(d, 0, d);
  }

  /** `%t` output survives `ParseBool`. */
  lemma ParseBoolOfFormat(b: bool)
    ensures ParseBool(FormatBool(b)) == Success(b)
  {
  }
}
