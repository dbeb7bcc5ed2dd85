/**
 * strconv.Atoi and strconv.Itoa on a 64-bit platform, as used by the
 * commit-type menu.
 */
module Strconv {
  import opened Wrappers
  import opened Text

  const MinInt64: int := -0x8000_0000_0000_0000
  const MaxInt64: int := 0x7FFF_FFFF_FFFF_FFFF

  predicate AllDigits(s: string) {
    forall k :: 0 <= k < |s| ==> IsDigit(s[k])
  }

  function DigitValue(c: char): nat
    requires IsDigit(c)
  {
    c as int - '0' as int
  }

  /** The value of a string of decimal digits, most significant first. */
  function DecimalValue(ds: string): nat
    requires AllDigits(ds)
    decreases |ds|
  {
    if ds == [] then 0
    else DecimalValue(ds[..|ds| - 1]) * 10 + DigitValue(ds[|ds| - 1])
  }

  /**
   * strconv.Atoi: an optional '+' or '-' followed by one or more decimal
   * digits, whose value fits in 64 bits; anything else is an error (None).
   */
  function Atoi(s: string): (r: Option<int>)
    ensures r.Some? ==> |s| > 0 && (IsDigit(s[0]) || s[0] == '+' || s[0] == '-')
    ensures r.Some? ==> MinInt64 <= r.value <= MaxInt64
    ensures |s| > 0 && IsDigit(s[0]) ==>
      r == if AllDigits(s) && DecimalValue(s) <= MaxInt64 then Some(DecimalValue(s) as int) else None
    ensures |s| > 0 && s[0] == '+' ==>
      r == if |s| > 1 && AllDigits(s[1..]) && DecimalValue(s[1..]) <= MaxInt64
           then Some(DecimalValue(s[1..]) as int) else None
    ensures |s| > 0 && s[0] == '-' ==>
      r == if |s| > 1 && AllDigits(s[1..]) && DecimalValue(s[1..]) <= -MinInt64
           then Some(-(DecimalValue(s[1..]) as int)) else None
  {
    if |s| == 0 then None
    else
      var negative := s[0] == '-';
      var digits := if s[0] == '-' || s[0] == '+' then s[1..] else s;
      if |digits| == 0 || !AllDigits(digits) then None
      else
        var v := if negative then -(DecimalValue(digits) as int) else DecimalValue(digits) as int;
        if v < MinInt64 || v > MaxInt64 then None else Some(v)
  }

  function DigitChar(d: nat): (c: char)
    requires d < 10
    ensures IsDigit(c) && DigitValue(c) == d
  {
    ('0' as int + d) as char
  }

  /** strconv.Itoa for a non-negative number: its shortest decimal form. */
  function Itoa(n: nat): (s: string)
    ensures |s| > 0 && AllDigits(s)
    ensures s[0] == '0' ==> n == 0
    decreases n
  {
    if n < 10 then [DigitChar(n)] else Itoa(n / 10) + [DigitChar(n % 10)]
  }

  /** Reading back the digits Itoa writes gives the number. */
  lemma {:induction false} DecimalValueOfItoa(n: nat)
    ensures DecimalValue(Itoa(n)) == n
    decreases n
  {
    if n >= 10 {
      var s := Itoa(n);
      assert s[..|s| - 1] == Itoa(n / 10);
      DecimalValueOfItoa(n / 10);
    }
  }

  /** Atoi inverts Itoa on every number that fits in 64 bits. */
  lemma AtoiOfItoa(n: nat)
    requires n <= MaxInt64
    ensures Atoi(Itoa(n)) == Some(n)
  {
    DecimalValueOfItoa(n);
  }

  /** Atoi examples: signs, leading zeros, blanks and junk. */
  lemma AtoiExamples()
    ensures Atoi("7") == Some(7) && Atoi("+7") == Some(7) && Atoi("-3") == Some(-3)
    ensures Atoi("007") == Some(7) && Atoi("10") == Some(10)
    ensures Atoi("") == None && Atoi("-") == None && Atoi("3x") == None && Atoi("1 0") == None
  {
    assert DecimalValue("00") == 0 by { assert "00"[..1] == "0"; }
    assert "007"[..2] == "00";
    assert "10"[..1] == "1";
  }
}
