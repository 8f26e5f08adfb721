/** Instants in the text form Docker takes, printed and parsed. */
module LogTime {
  import opened Prelude
  import opened Text
  import opened Decimals

  const SECOND: int := 1_000_000_000

  // -------------------------------------------------------------- fixed-width decimals

  function Power10(k: nat): nat {
    if k == 0 then 1 else 10 * Power10(k - 1)
  }

  /** `%0kd` of a number of at most k digits. */
  function Padded(n: nat, k: nat): (s: string)
    ensures |s| == k && AllDigits(s)
  {
    if k == 0 then "" else Padded(n / 10, k - 1) + [Digit(n % 10)]
  }

  lemma {:induction false} ValueOfPadded(n: nat, k: nat)
    requires n < Power10(k)
    ensures Value(Padded(n, k)) == n
    decreases k
  {
    if k > 0 {
      ValueOfPadded(n / 10, k - 1);
      var s := Padded(n, k);
      assert s[..|s| - 1] == Padded(n / 10, k - 1);
    }
  }

  function Zeros(k: nat): (s: string)
    ensures |s| == k && AllDigits(s)
  {
    if k == 0 then "" else Zeros(k - 1) + "0"
  }

  /** `strings.TrimRight(s, "0")`. */
  function TrimZeros(s: string): string {
    if s != "" && s[|s| - 1] == '0' then TrimZeros(s[..|s| - 1]) else s
  }

  /** Trimmed zeros can be put back. */
  lemma {:induction false} ZerosComeBack(s: string)
    ensures |TrimZeros(s)| <= |s| && TrimZeros(s) + Zeros(|s| - |TrimZeros(s)|) == s
    decreases |s|
  {
    if s != "" && s[|s| - 1] == '0' {
      var init := s[..|s| - 1];
      ZerosComeBack(init);
      assert s == init + "0";
    }
  }

  lemma {:induction false} ValueOfZeros(k: nat)
    ensures Value(Zeros(k)) == 0
  {
    if k > 0 {
      ValueOfZeros(k - 1);
      assert Zeros(k)[..k - 1] == Zeros(k - 1);
    }
  }

  // ------------------------------------------------------------ printing and parsing

  /** An instant: seconds since the epoch, and the nanoseconds after them. */
  datatype Instant = Instant(seconds: int, nanos: nat)

  function Total(t: Instant): int {
    t.seconds * SECOND + t.nanos
  }

  /** `formatDockerLogTime`; instants before the epoch go out as RFC 3339. */
  function Format(t: Instant, rfc3339: Instant -> string): string {
    if t.seconds < 0 then rfc3339(t)
    else if t.nanos == 0 then Decimal(t.seconds)
    else Decimal(t.seconds) + "." + Fraction(t.nanos)
  }

  /** The nanoseconds as nine digits, trailing zeros dropped. */
  function Fraction(nanos: nat): string {
    TrimZeros(Padded(nanos, 9))
  }

  method IsAsciiDigits(s: string) returns (ok: bool)
    ensures ok <==> s != "" && AllDigits(s)
  {
    if s == "" {
      return false;
    }
    for i := 0 to |s|
      invariant forall j | 0 <= j < i :: IsDigit(s[j])
    {
      if s[i] < '0' || s[i] > '9' {
        return false;
      }
    }
    ok := true;
  }

  /** `parseUnixTimestamp`, its result in nanoseconds since the epoch. */
  function Parse(raw: string): Option<int> {
    var negative := HasPrefix(raw, "-");
    var parts := Split(if negative then raw[1..] else raw, '.');
    var total := if |parts| == 2 then FromParts(parts[0], parts[1]) else None;
    if total.None? then None else Some(if negative then -total.value else total.value)
  }

  /** The number two parts denote: seconds, and a fraction. */
  function FromParts(whole: string, frac: string): Option<int> {
    if whole == "" || frac == "" || !AllDigits(whole) || !AllDigits(frac) || |frac| > 9 then None
    else
      var seconds, nanos := ParseInt(whole), ParseInt(NinePlaces(frac));
      if seconds.None? || nanos.None? then None else Some(seconds.value * SECOND + nanos.value)
  }

  /** Digits padded with zeros on the right. */
  function NinePlaces(frac: string): (s: string)
    requires AllDigits(frac) && |frac| <= 9
    ensures |s| == 9 && AllDigits(s)
  {
    frac + Zeros(9 - |frac|)
  }

  lemma PlainDigits(s: string)
    requires AllDigits(s)
    ensures '.' !in s && '-' !in s
  {}

  /** Printing an instant with a fractional part and parsing the text gives the same instant,
      to the nanosecond. */
  lemma PrintParseRoundTrip(t: Instant, rfc3339: Instant -> string)
    requires 0 <= t.seconds < INT64_LIMIT && 0 < t.nanos < SECOND
    ensures Parse(Format(t, rfc3339)) == Some(Total(t))
  {
    PartsRoundTrip(t.seconds, t.nanos);
    assert Format(t, rfc3339) == Decimal(t.seconds) + ['.'] + Fraction(t.nanos);
  }

  lemma PartsRoundTrip(seconds: nat, nanos: nat)
    requires seconds < INT64_LIMIT && 0 < nanos < SECOND
    ensures Parse(Decimal(seconds) + ['.'] + Fraction(nanos)) == Some(seconds * SECOND + nanos)
  {
    ValueOfDecimal(seconds);
    FractionSpec(nanos);
    ParseOfParts(Decimal(seconds), Fraction(nanos));
  }

  /** What two runs of digits with a point between them denote. */
  lemma ParseOfParts(whole: string, frac: string)
    requires whole != "" && frac != "" && AllDigits(whole) && AllDigits(frac) && |frac| <= 9
    requires Value(whole) < INT64_LIMIT
    ensures Parse(whole + ['.'] + frac) == Some(Value(whole) * SECOND + Value(NinePlaces(frac)))
  {
    PlainDigits(whole);
    PlainDigits(frac);
    SplitPair(whole, '.', frac);
    FromPair(whole, frac);
    NoMinus(whole, ['.'] + frac);
    assert whole + ['.'] + frac == whole + (['.'] + frac);
  }

  lemma FromPair(whole: string, frac: string)
    requires whole != "" && frac != "" && AllDigits(whole) && AllDigits(frac) && |frac| <= 9
    requires Value(whole) < INT64_LIMIT
    ensures FromParts(whole, frac) == Some(Value(whole) * SECOND + Value(NinePlaces(frac)))
  {
    FractionIsBounded(frac);
  }

  lemma NoMinus(digits: string, more: string)
    requires digits != "" && AllDigits(digits)
    ensures !HasPrefix(digits + more, "-")
  {
    assert (digits + more)[..1] == [digits[0]];
  }

  /** The trimmed fraction, padded again, is the fraction. */
  lemma FractionSpec(nanos: nat)
    requires 0 < nanos < SECOND
    ensures
      var frac := Fraction(nanos);
      && frac != "" && |frac| <= 9 && AllDigits(frac)
      && Value(NinePlaces(frac)) == nanos
  {
    var padded := Padded(nanos, 9);
    var frac := TrimZeros(padded);
    NinePowers();
    ValueOfPadded(nanos, 9);
    ZerosComeBack(padded);
    if frac == "" {
      assert padded == Zeros(9);
      ValueOfZeros(9);
    }
    assert frac == padded[..|frac|];
  }

  lemma NinePowers()
    ensures Power10(9) == SECOND
  {
    assert Power10(3) == 1000;
    assert Power10(6) == 1_000_000;
  }

  /** Digits denote less than the power of ten their number gives. */
  lemma {:induction false} ValueIsBounded(s: string)
    requires AllDigits(s)
    ensures Value(s) < Power10(|s|)
    decreases |s|
  {
    if s != "" {
      ValueIsBounded(s[..|s| - 1]);
    }
  }

  /** Any text that denotes an instant from the epoch on, with a fractional part, can be parsed
      and printed afresh without moving the instant, whatever leading or trailing zeros it had. */
  lemma ParsePrintKeepsInstant(raw: string, rfc3339: Instant -> string)
    requires Parse(raw).Some? && Parse(raw).value >= 0 && Parse(raw).value % SECOND != 0
    ensures Parse(Format(Instant(Parse(raw).value / SECOND, Parse(raw).value % SECOND), rfc3339)) == Parse(raw)
  {
    var v := Parse(raw).value;
    ParsedIsBounded(raw);
    PrintParseRoundTrip(Instant(v / SECOND, v % SECOND), rfc3339);
  }

  lemma ParsedIsBounded(raw: string)
    requires Parse(raw).Some?
    ensures Parse(raw).value / SECOND < INT64_LIMIT
  {
    var parts := Split(if HasPrefix(raw, "-") then raw[1..] else raw, '.');
    PartsAreBounded(parts[0], parts[1]);
  }

  lemma PartsAreBounded(whole: string, frac: string)
    requires FromParts(whole, frac).Some?
    ensures FromParts(whole, frac).value / SECOND < INT64_LIMIT && (-FromParts(whole, frac).value) / SECOND <= 0
  {
    FractionIsBounded(frac);
    WholeSeconds(Value(whole), Value(NinePlaces(frac)));
  }

  lemma FractionIsBounded(frac: string)
    requires AllDigits(frac) && |frac| <= 9
    ensures Value(NinePlaces(frac)) < SECOND
  {
    ValueIsBounded(NinePlaces(frac));
    NinePowers();
  }

  lemma WholeSeconds(whole: nat, fraction: nat)
    requires whole < INT64_LIMIT && fraction < SECOND
    ensures (whole * SECOND + fraction) / SECOND == whole && (-(whole * SECOND + fraction)) / SECOND <= 0
  {}
}
