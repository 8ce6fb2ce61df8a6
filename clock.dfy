/**
 * Points in time and their string encodings in sort keys.
 *
 * An Instant counts nanoseconds from Go's zero time (0001-01-01T00:00:00Z),
 * so the zero value of a Go `time.Time` is the Instant 0. Instants stay below
 * 10^21 ns (10^12 s, past the year 9999 that RFC 3339 can write).
 *
 * The RFC 3339 layouts are modelled by fixed-width decimal strings, which share
 * the two properties the keys rely on: the encoding is injective, and string
 * order agrees with time order. `FormatNano` (RFC3339Nano) keeps every
 * nanosecond; `FormatSeconds` (RFC3339) keeps whole seconds only.
 */
module Clock {
  import opened Optional
  import Text

  const NanosPerSecond: nat := 1_000_000_000
  const NanoWidth: nat := 21
  const SecondWidth: nat := 12

  type Instant = t: nat | t < 1_000_000_000_000_000_000_000

  function Pow10(n: nat): (p: nat)
    ensures p >= 1
  {
    if n == 0 then 1 else 10 * Pow10(n - 1)
  }

  predicate IsDigit(c: char)
  {
    '0' <= c <= '9'
  }

  predicate AllDigits(s: string)
  {
    forall i :: 0 <= i < |s| ==> IsDigit(s[i])
  }

  function DigitChar(d: nat): (c: char)
    requires d < 10
    ensures IsDigit(c)
  {
    ('0' as int + d) as char
  }

  function DigitValue(c: char): (d: nat)
    requires IsDigit(c)
    ensures d < 10 && DigitChar(d) == c
  {
    c as int - '0' as int
  }

  /** `n` written with exactly `width` decimal digits, most significant first. */
  function Decimal(n: nat, width: nat): (s: string)
    requires n < Pow10(width)
    ensures |s| == width && AllDigits(s)
  {
    if width == 0 then "" else Decimal(n / 10, width - 1) + [DigitChar(n % 10)]
  }

  /** The number a string of decimal digits denotes. */
  function ValueOf(s: string): nat
    requires AllDigits(s)
  {
    if |s| == 0 then 0 else 10 * ValueOf(s[..|s| - 1]) + DigitValue(s[|s| - 1])
  }

  lemma {:induction false} ValueOfDecimal(n: nat, width: nat)
    requires n < Pow10(width)
    ensures ValueOf(Decimal(n, width)) == n
  {
    if width > 0 {
      var s := Decimal(n, width);
      assert s[..|s| - 1] == Decimal(n / 10, width - 1);
      ValueOfDecimal(n / 10, width - 1);
    }
  }

  lemma {:induction false} ValueOfBound(s: string)
    requires AllDigits(s)
    ensures ValueOf(s) < Pow10(|s|)
  {
    if |s| > 0 {
      ValueOfBound(s[..|s| - 1]);
    }
  }

  lemma {:induction false} DecimalOfValue(s: string)
    requires AllDigits(s)
    ensures ValueOf(s) < Pow10(|s|) && Decimal(ValueOf(s), |s|) == s
  {
    ValueOfBound(s);
    if |s| > 0 {
      var init := s[..|s| - 1];
      DecimalOfValue(init);
      assert s == init + [s[|s| - 1]];
    }
  }

  lemma DecimalInjective(n: nat, m: nat, width: nat)
    requires n < Pow10(width) && m < Pow10(width)
    requires Decimal(n, width) == Decimal(m, width)
    ensures n == m
  {
    ValueOfDecimal(n, width);
    ValueOfDecimal(m, width);
  }

  /** Fixed-width decimals sort as strings exactly as the numbers do. */
  lemma {:induction false} DecimalOrder(n: nat, m: nat, width: nat)
    requires n < Pow10(width) && m < Pow10(width)
    ensures n < m <==> Text.Less(Decimal(n, width), Decimal(m, width))
  {
    if width == 0 {
    } else {
      DecimalOrder(n / 10, m / 10, width - 1);
      Text.LessSnoc(Decimal(n / 10, width - 1), Decimal(m / 10, width - 1), DigitChar(n % 10), DigitChar(m % 10));
      if Decimal(n / 10, width - 1) == Decimal(m / 10, width - 1) {
        DecimalInjective(n / 10, m / 10, width - 1);
      }
    }
  }

  lemma Pow10Values()
    ensures Pow10(SecondWidth) == 1_000_000_000_000
    ensures Pow10(NanoWidth) == 1_000_000_000_000_000_000_000
  {
  }

  /** RFC3339Nano: every nanosecond of the instant survives. */
  function FormatNano(t: Instant): (s: string)
    ensures |s| == NanoWidth && AllDigits(s)
  {
    Pow10Values();
    Decimal(t, NanoWidth)
  }

  lemma FormatNanoInjective(t: Instant, u: Instant)
    requires FormatNano(t) == FormatNano(u)
    ensures t == u
  {
    Pow10Values();
    DecimalInjective(t, u, NanoWidth);
  }

  lemma FormatNanoOrder(t: Instant, u: Instant)
    ensures t < u <==> Text.Less(FormatNano(t), FormatNano(u))
  {
    Pow10Values();
    DecimalOrder(t, u, NanoWidth);
  }

  /** The instant cut down to a whole second, as RFC 3339 without fractions keeps it. */
  function Truncate(t: Instant): (r: Instant)
    ensures r <= t && t - r < NanosPerSecond && r % NanosPerSecond == 0
  {
    (t / NanosPerSecond) * NanosPerSecond
  }

  /** RFC3339: the whole seconds of the instant. */
  function FormatSeconds(t: Instant): (s: string)
    ensures |s| == SecondWidth && AllDigits(s)
  {
    Pow10Values();
    Decimal(t / NanosPerSecond, SecondWidth)
  }

  /** time.Parse(time.RFC3339, s): None where Go returns a parse error. */
  function ParseSeconds(s: string): (r: Option<Instant>)
    ensures r.Some? ==> r.value % NanosPerSecond == 0
  {
    if |s| == SecondWidth && AllDigits(s) then
      ValueOfBound(s);
      Pow10Values();
      Some(ValueOf(s) * NanosPerSecond)
    else
      None
  }

  /** Formatting then parsing loses exactly the fraction of a second. */
  lemma ParseFormatSeconds(t: Instant)
    ensures ParseSeconds(FormatSeconds(t)) == Some(Truncate(t))
  {
    Pow10Values();
    ValueOfDecimal(t / NanosPerSecond, SecondWidth);
  }

  /** Every string the parser accepts is the encoding of what it parses to. */
  lemma FormatParseSeconds(s: string)
    requires ParseSeconds(s).Some?
    ensures FormatSeconds(ParseSeconds(s).value) == s
  {
    Pow10Values();
    DecimalOfValue(s);
    assert ParseSeconds(s).value / NanosPerSecond == ValueOf(s);
  }

  /** Seconds-precision keys sort as the whole seconds of their instants. */
  lemma FormatSecondsOrder(t: Instant, u: Instant)
    ensures Truncate(t) < Truncate(u) <==> Text.Less(FormatSeconds(t), FormatSeconds(u))
  {
    Pow10Values();
    DecimalOrder(t / NanosPerSecond, u / NanosPerSecond, SecondWidth);
  }
}
