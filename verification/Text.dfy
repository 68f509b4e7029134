module Options {
  datatype Option<+T> = None | Some(value: T)
}

/** Decimal rendering of integers, as Go's `%d` and Python's f-strings print them. */
module Text {

  /** UnixMilli timestamps and Go's int64. */
  const INT64_MIN := -0x8000_0000_0000_0000
  const INT64_MAX := 0x7fff_ffff_ffff_ffff

  type int64 = n: int | INT64_MIN <= n <= INT64_MAX

  predicate IsDigit(c: char) {
    '0' <= c <= '9'
  }

  predicate AllDigits(s: string) {
    forall k :: 0 <= k < |s| ==> IsDigit(s[k])
  }

  /** Optional minus sign, then at least one digit and no superfluous leading zero. */
  predicate IsDecimal(s: string) {
    var digits := if s != "" && s[0] == '-' then s[1..] else s;
    digits != "" && AllDigits(digits) && (|digits| > 1 ==> digits[0] != '0')
  }

  function NatText(n: nat): string {
    if n < 10 then [(n as char) + '0'] else NatText(n / 10) + [((n % 10) as char) + '0']
  }

  function IntText(n: int): string {
    if n < 0 then "-" + NatText(-n) else NatText(n)
  }

  function NatValue(s: string): nat
    requires AllDigits(s)
  {
    if s == "" then 0
    else NatValue(s[..|s| - 1]) * 10 + (s[|s| - 1] as int - '0' as int)
  }

  function IntValue(s: string): int
    requires IsDecimal(s)
  {
    if s[0] == '-' then 0 - NatValue(s[1..]) else NatValue(s)
  }

  lemma {:induction false} NatTextIsDecimal(n: nat)
    ensures NatText(n) != "" && AllDigits(NatText(n))
    ensures n > 0 ==> NatText(n)[0] != '0'
    ensures n < 10 ==> |NatText(n)| == 1
    ensures NatValue(NatText(n)) == n
  {
    if n >= 10 {
      NatTextIsDecimal(n / 10);
      assert NatText(n)[..|NatText(n)| - 1] == NatText(n / 10);
    } else {
      assert NatText(n)[..0] == "";
      assert NatValue("") == 0;
    }
  }

  /** Reading back a printed integer gives the integer, so printing is injective. */
  lemma IntTextRoundTrip(n: int)
    ensures IsDecimal(IntText(n)) && IntValue(IntText(n)) == n
  {
    if n < 0 {
      NatTextIsDecimal(-n);
      assert IntText(n)[1..] == NatText(-n);
    } else {
      NatTextIsDecimal(n);
    }
  }
}
