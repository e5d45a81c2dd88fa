/**
  Decimal text of integers: `strconv.FormatInt(n, 10)` and
  `strconv.ParseInt(s, 10, 64)` (which `strconv.Atoi` matches on a 64-bit
  platform).
 */
module Decimal {
  import opened Wrappers
  import opened Text

  const MAX_INT64: int := 0x7fff_ffff_ffff_ffff
  const MIN_INT64: int := -0x8000_0000_0000_0000

  function Pow10(k: nat): (r: nat)
    ensures r >= 1
  {
    if k == 0 then 1 else 10 * Pow10(k - 1)
  }

  function DigitChar(d: nat): (c: char)
    requires d < 10
    ensures IsDigit(c)
  {
    ('0' as int + d) as char
  }

  function DigitValue(c: char): (d: nat)
    requires IsDigit(c)
    ensures d < 10 && DigitChar(d) == c
  {
    c as int - '0' as int
  }

  /** The decimal digits of `n`, most significant first, without leading zeros. */
  function Digits(n: nat): (s: string)
    ensures |s| >= 1 && AllDigits(s)
    ensures |s| > 1 ==> s[0] != '0'
  {
    if n < 10 then [DigitChar(n)] else Digits(n / 10) + [DigitChar(n % 10)]
  }

  /** `strconv.FormatInt(n, 10)`. */
  function FormatInt(n: int): string {
    if n < 0 then "-" + Digits(-n) else Digits(n)
  }

  /** The number a string of decimal digits denotes. */
  function Value(s: string): (v: nat)
    requires AllDigits(s)
    ensures v < Pow10(|s|)
  {
    if s == [] then 0 else Value(s[..|s| - 1]) * 10 + DigitValue(s[|s| - 1])
  }

  /**
    `strconv.ParseInt(s, 10, 64)`: an optional sign, then at least one
    decimal digit and nothing else, and a value inside the int64 range.
   */
  function ParseInt64(s: string): (r: Option<int>)
    ensures r.Some? ==> MIN_INT64 <= r.value <= MAX_INT64
    ensures r.Some? ==> s != [] && (AllDigits(s) || s[0] == '+' || s[0] == '-')
  {
    if s == [] then None
    else
      var negative := s[0] == '-';
      var body := if s[0] == '+' || s[0] == '-' then s[1..] else s;
      if body == [] || !AllDigits(body) then None
      else
        var v: int := Value(body);
        if negative then (if v <= MAX_INT64 + 1 then Some(-v) else None)
        else (if v <= MAX_INT64 then Some(v) else None)
  }

  /** A string of digits within the int64 range parses to its value. */
  lemma ParseDigits(s: string)
    requires s != [] && AllDigits(s) && Value(s) <= MAX_INT64
    ensures ParseInt64(s) == Some(Value(s))
  {
    assert s[0] != '-' && s[0] != '+' by {
      assert IsDigit(s[0]);
    }
  }

  /** A minus sign and digits within the int64 range parse to the negated value. */
  lemma ParseNegative(d: string)
    requires d != [] && AllDigits(d) && Value(d) <= MAX_INT64 + 1
    ensures ParseInt64("-" + d) == Some(-(Value(d) as int))
  {
    var s := "-" + d;
    assert s[0] == '-' && s[1..] == d;
  }

  lemma {:induction false} ValueOfDigits(n: nat)
    ensures Value(Digits(n)) == n
  {
    if n >= 10 {
      var s := Digits(n);
      assert s[..|s| - 1] == Digits(n / 10);
      ValueOfDigits(n / 10);
    }
  }

  /** `Digits(n)` has at most `k` characters exactly when `n < 10^k`. */
  lemma {:induction false} DigitsLength(n: nat, k: nat)
    requires k >= 1
    ensures |Digits(n)| <= k <==> n < Pow10(k)
  {
    if n >= 10 {
      assert n == 10 * (n / 10) + n % 10;
      if k == 1 {
        assert Pow10(1) == 10;
      } else {
        DigitsLength(n / 10, k - 1);
      }
    } else {
      PowAtLeastTen(k);
    }
  }

  lemma {:induction false} PowAtLeastTen(k: nat)
    requires k >= 1
    ensures Pow10(k) >= 10
  {
    if k > 1 {
      PowAtLeastTen(k - 1);
    }
  }

  /** Exactly the ten-digit numbers have ten-character decimal text. */
  lemma TenDigits(n: nat)
    ensures |Digits(n)| == 10 <==> 1_000_000_000 <= n < 10_000_000_000
  {
    assert Pow10(9) == 1_000_000_000;
    assert Pow10(10) == 10_000_000_000;
    DigitsLength(n, 9);
    DigitsLength(n, 10);
  }

  /** Parsing what FormatInt wrote gives the number back, for every int64. */
  lemma FormatParseRoundTrip(n: int)
    requires MIN_INT64 <= n <= MAX_INT64
    ensures ParseInt64(FormatInt(n)) == Some(n)
  {
    if n < 0 {
      ValueOfDigits(-n);
      ParseNegative(Digits(-n));
    } else {
      ValueOfDigits(n);
      ParseDigits(Digits(n));
    }
  }
}
