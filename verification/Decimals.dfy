/** Decimal numbers as text. */
module Decimals {
  import opened Prelude

  const INT64_LIMIT: int := 0x8000_0000_0000_0000

  function Digit(d: nat): char
    requires d < 10
  {
    ('0' as int + d) as char
  }

  predicate IsDigit(c: char) {
    '0' <= c <= '9'
  }

  /** `strconv.FormatInt` of a number that is not negative. */
  function Decimal(n: nat): (s: string)
    ensures s != "" && forall i | 0 <= i < |s| :: IsDigit(s[i])
  {
    if n < 10 then [Digit(n)] else Decimal(n / 10) + [Digit(n % 10)]
  }

  predicate AllDigits(s: string) {
    forall i | 0 <= i < |s| :: IsDigit(s[i])
  }

  /** The number a string of digits denotes. */
  function Value(s: string): nat
    requires AllDigits(s)
  {
    if s == "" then 0 else 10 * Value(s[..|s| - 1]) + (s[|s| - 1] as int - '0' as int)
  }

  lemma {:induction false} ValueOfDecimal(n: nat)
    ensures Value(Decimal(n)) == n
  {
    if n >= 10 {
      ValueOfDecimal(n / 10);
      var s := Decimal(n);
      assert s[..|s| - 1] == Decimal(n / 10);
    }
  }

  /** `strconv.ParseInt` of a string of digits. */
  function ParseInt(s: string): Option<int>
    requires AllDigits(s)
  {
    if Value(s) < INT64_LIMIT then Some(Value(s)) else None
  }

  /** `strconv.Atoi`: an optional sign and digits, within 64 bits. */
  function Atoi(s: string): Option<int> {
    var signed := s != "" && (s[0] == '-' || s[0] == '+');
    var digits := if signed then s[1..] else s;
    if digits == "" || !AllDigits(digits) then None
    else if signed && s[0] == '-' then
      var n := -(Value(digits) as int);
      if n >= -INT64_LIMIT then Some(n) else None
    else
      ParseInt(digits)
  }

  lemma AtoiOfDecimal(n: nat)
    requires n < INT64_LIMIT
    ensures Atoi(Decimal(n)) == Some(n)
  {
    ValueOfDecimal(n);
  }
}
