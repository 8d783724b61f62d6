/** Signed 64-bit integers and their decimal text, as `fmt.Sprint` prints and `strconv.ParseInt` reads them. */
module Decimal {
  import opened Options

  const MIN_INT64 := -0x8000_0000_0000_0000
  const MAX_INT64 := 0x7fff_ffff_ffff_ffff

  /** Two's-complement wrap-around of a mathematical integer to 64 bits. */
  function WrapInt64(n: int): (r: int)
    ensures MIN_INT64 <= r <= MAX_INT64
    ensures MIN_INT64 <= n <= MAX_INT64 ==> r == n
  {
    (n - MIN_INT64) % 0x1_0000_0000_0000_0000 + MIN_INT64
  }

  lemma WrapsAround(n: int)
    ensures (n - WrapInt64(n)) % 0x1_0000_0000_0000_0000 == 0
  {
  }

  predicate IsDigit(c: char)
  {
    '0' <= c <= '9'
  }

  function DigitChar(d: nat): (c: char)
    requires d < 10
    ensures IsDigit(c) && DigitValue(c) == d
  {
    '0' + d as char
  }

  function DigitValue(c: char): (d: nat)
    requires IsDigit(c)
    ensures d < 10
  {
    (c as int) - ('0' as int)
  }

  function PrintNat(n: nat): (s: string)
    ensures s != [] && AllDigits(s)
  {
    if n < 10 then [DigitChar(n)] else PrintNat(n / 10) + [DigitChar(n % 10)]
  }

  function Print(n: int): string
  {
    if n < 0 then ['-'] + PrintNat(-n) else PrintNat(n)
  }

  predicate AllDigits(s: string)
  {
    forall i :: 0 <= i < |s| ==> IsDigit(s[i])
  }

  function Value(s: string): nat
    requires AllDigits(s)
  {
    if s == [] then 0 else Value(s[..|s| - 1]) * 10 + DigitValue(s[|s| - 1])
  }

  /** Base ten, an optional sign, at least one digit, and the 64-bit range; anything else is an error. */
  function ParseInt64(s: string): Option<int>
  {
    if s == [] then None
    else
      var negative := s[0] == '-';
      var digits := if s[0] == '-' || s[0] == '+' then s[1..] else s;
      if digits == [] || !AllDigits(digits) then None
      else
        var magnitude: int := Value(digits);
        var n := if negative then -magnitude else magnitude;
        if MIN_INT64 <= n <= MAX_INT64 then Some(n) else None
  }

  lemma {:induction false} ValuePrint(n: nat)
    ensures Value(PrintNat(n)) == n
  {
    if n >= 10 {
      ValuePrint(n / 10);
      var s := PrintNat(n);
      assert s[..|s| - 1] == PrintNat(n / 10);
    }
  }

  lemma {:induction false} ParseDigits(s: string)
    requires s != [] && AllDigits(s) && Value(s) <= MAX_INT64
    ensures ParseInt64(s) == Some(Value(s))
  {
    assert IsDigit(s[0]);
  }

  lemma {:induction false} ParseNegative(s: string)
    requires s != [] && AllDigits(s) && Value(s) <= -MIN_INT64
    ensures ParseInt64(['-'] + s) == Some(-(Value(s) as int))
  {
    assert (['-'] + s)[1..] == s;
  }

  /** The i-th decimal place of a number. */
  function Place(n: nat, i: nat): (d: nat)
    ensures d < 10
  {
    if i == 0 then n % 10 else Place(n / 10, i - 1)
  }

  /** The text of a number has no leading zero, and its i-th digit from the right is its i-th place. */
  lemma {:induction false} DigitAt(n: nat, i: nat)
    requires i < |PrintNat(n)|
    ensures PrintNat(n)[|PrintNat(n)| - 1 - i] == '0' + Place(n, i) as char
    ensures PrintNat(n)[0] == '0' ==> n == 0
  {
    if n >= 10 {
      DigitAt(n / 10, if i > 0 then i - 1 else 0);
    }
  }

  /** It has a sign exactly if the number is negative. */
  lemma SignIff(n: int)
    ensures Print(n) != [] && (Print(n)[0] == '-' <==> n < 0)
    ensures Print(n) == if n < 0 then "-" + PrintNat(-n) else PrintNat(n)
  {
    if n >= 0 {
      assert AllDigits(PrintNat(n));
    }
  }

  /** A text reads as a number exactly if it is at least one digit, with a sign in front or not, and fits 64 bits. */
  lemma ReadsIff(s: string)
    ensures ParseInt64(s).Some? <==>
      var digits := if s != [] && s[0] in {'-', '+'} then s[1..] else s;
      && digits != [] && AllDigits(digits)
      && (if s[0] == '-' then Value(digits) <= 0x8000_0000_0000_0000 else Value(digits) <= 0x7fff_ffff_ffff_ffff)
  {
  }

  /** Every 64-bit integer survives being printed and parsed. */
  lemma RoundTrip(n: int)
    requires MIN_INT64 <= n <= MAX_INT64
    ensures ParseInt64(Print(n)) == Some(n)
  {
    if n < 0 {
      ValuePrint(-n);
      ParseNegative(PrintNat(-n));
    } else {
      ValuePrint(n);
      ParseDigits(PrintNat(n));
    }
  }
}
