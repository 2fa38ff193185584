/** The order number shown after checkout (app/order-confirmation/page.tsx):
    "LUM-" followed by the last six characters of the decimal rendering of
    the current time in milliseconds. The clock reading is a parameter. */
module OrderNumber {

  predicate IsDigit(c: char) {
    '0' <= c <= '9'
  }

  predicate AllDigits(s: string) {
    forall i | 0 <= i < |s| :: IsDigit(s[i])
  }

  function DigitChar(d: nat): (c: char)
    requires d < 10
    ensures IsDigit(c)
  {
    ('0' as int + d) as char
  }

  function DigitValue(c: char): nat
    requires IsDigit(c)
  {
    c as int - '0' as int
  }

  /** `t.toString()` for a non-negative integer: no sign, no leading zero. */
  function Decimal(t: nat): (r: string)
    ensures |r| > 0 && AllDigits(r)
    decreases t
  {
    if t < 10 then [DigitChar(t)] else Decimal(t / 10) + [DigitChar(t % 10)]
  }

  /** The number a digit string denotes. */
  function Value(s: string): nat
    requires AllDigits(s)
  {
    if |s| == 0 then 0 else Value(s[..|s| - 1]) * 10 + DigitValue(s[|s| - 1])
  }

  function Pow10(k: nat): (r: nat)
    ensures r > 0
  {
    if k == 0 then 1 else 10 * Pow10(k - 1)
  }

  /** Reading back the decimal rendering gives the number. */
  lemma {:induction false} DecimalRoundTrip(t: nat)
    ensures Value(Decimal(t)) == t
    decreases t
  {
    if t >= 10 {
      DecimalRoundTrip(t / 10);
      var s := Decimal(t);
      assert s[..|s| - 1] == Decimal(t / 10);
    }
  }

  /** A decimal rendering is longer than `k` digits exactly when the number
      reaches `10^k`. */
  lemma {:induction false} DecimalLength(t: nat, k: nat)
    requires k >= 1
    ensures |Decimal(t)| > k <==> t >= Pow10(k)
    decreases t
  {
    if t >= 10 && k >= 2 {
      DecimalLength(t / 10, k - 1);
    }
  }

  /** A digit string of length `k` denotes less than `10^k`. */
  lemma {:induction false} ValueBound(b: string)
    requires AllDigits(b)
    ensures Value(b) < Pow10(|b|)
    decreases |b|
  {
    if |b| > 0 {
      ValueBound(b[..|b| - 1]);
    }
  }

  /** Splitting a digit string splits its value. */
  lemma {:induction false} ValueSplit(a: string, b: string)
    requires AllDigits(a) && AllDigits(b)
    ensures AllDigits(a + b)
    ensures Value(a + b) == Value(a) * Pow10(|b|) + Value(b)
    decreases |b|
  {
    assert AllDigits(a + b);
    if |b| == 0 {
      assert a + b == a;
    } else {
      var b' := b[..|b| - 1];
      ValueSplit(a, b');
      assert (a + b)[..|a + b| - 1] == a + b';
      ShiftDigit(Value(a), Pow10(|b'|), Value(b'), DigitValue(b[|b| - 1]));
    }
  }

  /** The arithmetic step of `ValueSplit`: appending a digit multiplies the
      higher part's weight by ten. */
  lemma ShiftDigit(x: int, p: int, y: int, d: int)
    ensures (x * p + y) * 10 + d == x * (10 * p) + (y * 10 + d)
  {
  }

  /** JavaScript's `s.slice(-6)`: the last six characters, or all of a shorter
      string. */
  function LastSix(s: string): (r: string)
    ensures |s| <= 6 ==> r == s
    ensures |s| > 6 ==> |r| == 6 && s == s[..|s| - 6] + r
  {
    if |s| <= 6 then s else s[|s| - 6..]
  }

  const Prefix := "LUM-"

  /** The order number for clock reading `t`. */
  function FormatOrderNumber(t: nat): (r: string)
    ensures |r| > |Prefix| && r[..|Prefix|] == Prefix
    ensures AllDigits(r[|Prefix|..]) && |r| <= |Prefix| + 6
  {
    var suffix := LastSix(Decimal(t));
    assert AllDigits(suffix);
    Prefix + suffix
  }

  /** From 100000 on, the suffix has exactly six digits (leading zeros kept)
      and denotes `t mod 1000000`; below that it is the whole rendering. */
  lemma OrderSuffix(t: nat)
    ensures t >= 100000 ==>
      |FormatOrderNumber(t)| == |Prefix| + 6 &&
      Value(FormatOrderNumber(t)[|Prefix|..]) == t % 1000000
    ensures t < 100000 ==> FormatOrderNumber(t)[|Prefix|..] == Decimal(t)
  {
    var s := Decimal(t);
    var suffix := FormatOrderNumber(t)[|Prefix|..];
    assert suffix == LastSix(s);
    assert Pow10(5) == 100000;
    DecimalLength(t, 5);
    if t >= 100000 {
      DecimalRoundTrip(t);
      var head := s[..|s| - 6];
      assert s == head + suffix;
      assert AllDigits(head);
      ValueSplit(head, suffix);
      ValueBound(suffix);
      assert Pow10(6) == 1000000;
      LowDigits(Value(head), Value(suffix));
    }
  }

  /** The low six digits of `q * 10^6 + d` are `d`. */
  lemma LowDigits(q: nat, d: nat)
    requires d < 1000000
    ensures (q * 1000000 + d) % 1000000 == d
  {
  }
}
