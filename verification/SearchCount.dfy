/** The count parameter: decimal text of any length, read without overflow. */
module SearchCount {
  import opened Values
  import opened Order

  predicate Digit(c: char) { '0' <= c <= '9' }

  function DigitValue(c: char): nat
    requires Digit(c)
  {
    c as int - '0' as int
  }

  predicate AllDigits(s: string) { forall i | 0 <= i < |s| :: Digit(s[i]) }

  function Weigh(n: nat): nat { if n == 0 then 1 else 10 * Weigh(n - 1) }

  /** The number a decimal text denotes. */
  function Decimal(s: string): nat
    requires AllDigits(s)
  {
    if s == "" then 0 else DigitValue(s[0]) * Weigh(|s| - 1) + Decimal(s[1..])
  }

  /** Decimal text without leading zeros. */
  function Numeral(n: nat): (s: string)
    ensures AllDigits(s)
  {
    if n == 0 then "" else Numeral(n / 10) + [(n % 10 + '0' as int) as char]
  }

  function Unsigned(raw: string): string {
    if raw != "" && (raw[0] == '-' || raw[0] == '+') then raw[1..] else raw
  }

  predicate IntegerText(raw: string) { Unsigned(raw) != "" && AllDigits(Unsigned(raw)) }

  function IntegerValue(raw: string): int
    requires IntegerText(raw)
  {
    var n: int := Decimal(Unsigned(raw));
    if raw[0] == '-' then -n else n
  }

  function Clamp(v: int, maximum: nat): nat { if v < 0 then 0 else if v > maximum then maximum else v }

  lemma Scale(d: nat, e: nat, w: nat)
    requires d < e
    ensures d * w + w <= e * w
  {
    assert (d + 1) * w <= e * w;
  }

  lemma {:induction false} DecimalIsBelow(s: string)
    requires AllDigits(s)
    ensures Decimal(s) < Weigh(|s|)
  {
    if s != "" {
      DecimalIsBelow(s[1..]);
      Scale(DigitValue(s[0]), 10, Weigh(|s| - 1));
    }
  }

  /** Texts of one length compare as their numbers do. */
  lemma {:induction false} TextOrderIsNumeric(a: string, b: string)
    requires AllDigits(a) && AllDigits(b) && |a| == |b|
    ensures CompareText(a, b) > 0 <==> Decimal(a) > Decimal(b)
    ensures CompareText(a, b) < 0 <==> Decimal(a) < Decimal(b)
  {
    if a != "" {
      var x, y, w := DigitValue(a[0]), DigitValue(b[0]), Weigh(|a| - 1);
      DecimalIsBelow(a[1..]);
      DecimalIsBelow(b[1..]);
      TextOrderIsNumeric(a[1..], b[1..]);
      hide Weigh;
      if x < y {
        Scale(x, y, w);
      } else if y < x {
        Scale(y, x, w);
      }
    }
  }

  lemma {:induction false} WeighGrows(m: nat, n: nat)
    requires m <= n
    ensures 1 <= Weigh(m) <= Weigh(n)
  {
    if m < n {
      WeighGrows(m, n - 1);
    } else if m > 0 {
      WeighGrows(m - 1, m - 1);
    }
  }

  /** Without leading zeros the longer number is the larger one. */
  lemma LongerIsLarger(a: string, b: string)
    requires AllDigits(a) && AllDigits(b) && |a| > |b| && a[0] != '0'
    ensures Decimal(a) > Decimal(b)
  {
    DecimalIsBelow(b);
    WeighGrows(|b|, |a| - 1);
    hide Weigh;
    Scale(0, DigitValue(a[0]), Weigh(|a| - 1));
  }

  lemma {:induction false} DecimalAppend(s: string, c: char)
    requires AllDigits(s) && Digit(c)
    ensures Decimal(s + [c]) == 10 * Decimal(s) + DigitValue(c)
  {
    var t := s + [c];
    if s != "" {
      DecimalAppend(s[1..], c);
      assert t[1..] == s[1..] + [c] && t[0] == s[0];
      Tenfold(DigitValue(s[0]), |s|);
    } else {
      assert t == [c] && Weigh(0) == 1 && Decimal(t[1..]) == 0;
    }
  }

  lemma Tenfold(d: nat, n: nat)
    requires n > 0
    ensures d * Weigh(n) == 10 * (d * Weigh(n - 1))
  {
  }

  lemma {:induction false} NumeralRoundTrip(n: nat)
    ensures Decimal(Numeral(n)) == n
    ensures n > 0 ==> Numeral(n) != "" && Numeral(n)[0] != '0'
  {
    if n > 0 {
      NumeralRoundTrip(n / 10);
      DecimalAppend(Numeral(n / 10), (n % 10 + '0' as int) as char);
    }
  }

  /** Reads a count of any length without overflow: malformed text is refused, and otherwise the
      result is the number it denotes, clamped to [0, maximum]. */
  method ParseCount(raw: string, maximum: nat) returns (r: Option<nat>)
    requires maximum > 0
    ensures r == if IntegerText(raw) then Some(Clamp(IntegerValue(raw), maximum)) else None
  {
    if raw == "" {
      return None;
    }
    var start, negative := 0, false;
    if raw[0] == '-' || raw[0] == '+' {
      negative := raw[0] == '-';
      start := 1;
    }
    if start == |raw| {
      return None;
    }
    assert Unsigned(raw) == raw[start..];
    for index := start to |raw|
      invariant forall i | start <= i < index :: Digit(raw[i])
    {
      if !Digit(raw[index]) {
        assert !Digit(Unsigned(raw)[index - start]);
        return None;
      }
    }
    if negative {
      return Some(0);
    }
    var n := ParseDigits(raw[start..], maximum);
    return Some(n);
  }

  /** The library conversion is only reached when the number fits. */
  method ParseDigits(raw: string, maximum: nat) returns (r: nat)
    requires maximum > 0 && AllDigits(raw)
    ensures r == Clamp(Decimal(raw), maximum)
  {
    var digits := raw;
    while digits != "" && digits[0] == '0'
      invariant AllDigits(digits) && Decimal(digits) == Decimal(raw)
      decreases |digits|
    {
      digits := digits[1..];
    }
    if digits == "" {
      return 0;
    }
    var maximumText := Numeral(maximum);
    NumeralRoundTrip(maximum);
    hide Decimal;
    if |digits| > |maximumText| {
      LongerIsLarger(digits, maximumText);
      return maximum;
    }
    if |digits| < |maximumText| {
      LongerIsLarger(maximumText, digits);
      return Decimal(digits);
    }
    TextOrderIsNumeric(digits, maximumText);
    return if CompareText(digits, maximumText) > 0 then maximum else Decimal(digits);
  }
}
