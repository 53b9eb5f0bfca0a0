/** Decimal digit strings and the exact natural numbers they denote. */
module Digits {

  predicate IsDigit(c: char) {
    '0' <= c <= '9'
  }

  predicate AllDigits(s: string) {
    forall i | 0 <= i < |s| :: IsDigit(s[i])
  }

  function DigitChar(n: nat): (c: char)
    requires n < 10
    ensures IsDigit(c)
  {
    ('0' as int + n) as char
  }

  function DigitValue(c: char): (n: nat)
    requires IsDigit(c)
    ensures n < 10
  {
    c as int - '0' as int
  }

  /** The value of a digit string read as a decimal numeral; the empty string denotes 0. */
  function Value(s: string): nat
    requires AllDigits(s)
  {
    if s == [] then 0 else Value(s[..|s| - 1]) * 10 + DigitValue(s[|s| - 1])
  }

  function Pow10(n: nat): (p: nat)
    ensures p >= 1
  {
    if n == 0 then 1 else 10 * Pow10(n - 1)
  }

  /** `c.repeat(n)`. */
  function Repeat(c: char, n: nat): (r: string)
    ensures |r| == n
    ensures forall i | 0 <= i < n :: r[i] == c
  {
    if n == 0 then [] else Repeat(c, n - 1) + [c]
  }

  /** `s.padStart(width, c)`: never shortens. */
  function PadStart(s: string, width: nat, c: char): string {
    if |s| >= width then s else Repeat(c, width - |s|) + s
  }

  /** `s.padEnd(width, c)`: never shortens. */
  function PadEnd(s: string, width: nat, c: char): string {
    if |s| >= width then s else s + Repeat(c, width - |s|)
  }

  /** `String(n)` for a non-negative integer: no leading zeros, and "0" for zero. */
  function ToDecimal(n: nat): (r: string)
    ensures AllDigits(r) && |r| >= 1
  {
    if n < 10 then [DigitChar(n)] else ToDecimal(n / 10) + [DigitChar(n % 10)]
  }

  /** `String(i)` for any integer. */
  function IntToString(i: int): string {
    if i < 0 then "-" + ToDecimal(-i) else ToDecimal(i)
  }

  lemma {:induction false} ValueSnoc(s: string, c: char)
    requires AllDigits(s) && IsDigit(c)
    ensures AllDigits(s + [c]) && Value(s + [c]) == Value(s) * 10 + DigitValue(c)
  {
    assert (s + [c])[..|s|] == s;
  }

  lemma {:induction false} ToDecimalValue(n: nat)
    ensures Value(ToDecimal(n)) == n
  {
    if n >= 10 {
      ToDecimalValue(n / 10);
      ValueSnoc(ToDecimal(n / 10), DigitChar(n % 10));
    }
  }

  lemma {:induction false} ToDecimalLeading(n: nat)
    ensures n > 0 ==> ToDecimal(n)[0] != '0'
  {
    if n >= 10 {
      ToDecimalLeading(n / 10);
    }
  }

  lemma {:induction false} ValueConcat(a: string, b: string)
    requires AllDigits(a) && AllDigits(b)
    ensures AllDigits(a + b)
    ensures Value(a + b) == Value(a) * Pow10(|b|) + Value(b)
    decreases |b|
  {
    if b == [] {
      assert a + b == a;
    } else {
      var b' := b[..|b| - 1];
      var c := b[|b| - 1];
      assert b == b' + [c];
      assert a + b == (a + b') + [c];
      ValueConcat(a, b');
      ValueSnoc(a + b', c);
      ValueSnoc(b', c);
      assert Pow10(|b|) == 10 * Pow10(|b'|);
      ShiftDigit(Value(a), Value(b'), Pow10(|b'|), DigitValue(c));
    }
  }

  /** Appending a digit to the lower part of a two-part numeral. */
  lemma {:induction false} ShiftDigit(high: nat, low: nat, p: nat, d: nat)
    ensures (high * p + low) * 10 + d == high * (10 * p) + (low * 10 + d)
  {
  }

  lemma {:induction false} ValueBound(s: string)
    requires AllDigits(s)
    ensures Value(s) < Pow10(|s|)
  {
    if s != [] {
      ValueBound(s[..|s| - 1]);
    }
  }

  lemma {:induction false} ValueLowerBound(s: string)
    requires AllDigits(s) && |s| >= 1 && s[0] != '0'
    ensures Value(s) >= Pow10(|s| - 1)
  {
    if |s| > 1 {
      ValueLowerBound(s[..|s| - 1]);
    }
  }

  lemma {:induction false} ValueOfRepeat(c: char, n: nat)
    requires IsDigit(c)
    ensures AllDigits(Repeat(c, n))
    ensures Value(Repeat(c, n)) * 9 == DigitValue(c) * (Pow10(n) - 1)
  {
    if n == 0 {
      assert Repeat(c, n) == [];
      assert Pow10(n) - 1 == 0;
      assert DigitValue(c) * (Pow10(n) - 1) == 0;
    } else {
      var r := Repeat(c, n - 1);
      ValueOfRepeat(c, n - 1);
      ValueSnoc(r, c);
      assert Repeat(c, n) == r + [c];
      var x, d := Value(r), DigitValue(c);
      assert Value(Repeat(c, n)) == x * 10 + d;
      RepeatDigitStep(x, d, Pow10(n - 1), Pow10(n));
    }
  }

  lemma {:induction false} RepeatDigitStep(x: nat, d: nat, p: nat, q: nat)
    requires p >= 1 && q == 10 * p && x * 9 == d * (p - 1)
    ensures (x * 10 + d) * 9 == d * (q - 1)
  {
  }

  lemma {:induction false} ValueZeros(n: nat)
    ensures AllDigits(Repeat('0', n)) && Value(Repeat('0', n)) == 0
  {
    ValueOfRepeat('0', n);
  }

  lemma {:induction false} ValueNines(n: nat)
    ensures AllDigits(Repeat('9', n)) && Value(Repeat('9', n)) == Pow10(n) - 1
  {
    ValueOfRepeat('9', n);
  }

  lemma {:induction false} ValuePadStart(s: string, width: nat)
    requires AllDigits(s)
    ensures AllDigits(PadStart(s, width, '0'))
    ensures |PadStart(s, width, '0')| == if |s| >= width then |s| else width
    ensures Value(PadStart(s, width, '0')) == Value(s)
  {
    if |s| < width {
      ValueZeros(width - |s|);
      ValueConcat(Repeat('0', width - |s|), s);
    }
  }

  lemma {:induction false} Pow10Add(a: nat, b: nat)
    ensures Pow10(a + b) == Pow10(a) * Pow10(b)
    decreases b
  {
    if b > 0 {
      Pow10Add(a, b - 1);
    }
  }

  lemma {:induction false} Pow10Split(a: nat, b: nat, c: nat)
    requires c == a + b
    ensures Pow10(c) == Pow10(a) * Pow10(b)
  {
    Pow10Add(a, b);
  }

  lemma {:induction false} Pow10Monotone(a: nat, b: nat)
    requires a <= b
    ensures Pow10(a) <= Pow10(b)
    decreases b
  {
    if a < b {
      Pow10Monotone(a, b - 1);
    }
  }

  /** The length of `String(n)` is the number of decimal places `n` needs. */
  lemma {:induction false} ToDecimalLength(n: nat, k: nat)
    requires k >= 1
    ensures |ToDecimal(n)| <= k <==> n < Pow10(k)
  {
    var s := ToDecimal(n);
    ToDecimalValue(n);
    ValueBound(s);
    if |s| <= k {
      Pow10Monotone(|s|, k);
    } else {
      ToDecimalLeading(n);
      if n > 0 {
        ValueLowerBound(s);
        Pow10Monotone(k, |s| - 1);
      }
    }
  }

  /** `String(10^n - 1)` is n nines. */
  lemma {:induction false} ToDecimalNines(n: nat)
    requires n >= 1
    ensures ToDecimal(Pow10(n) - 1) == Repeat('9', n)
  {
    if n > 1 {
      ToDecimalNines(n - 1);
      var m := Pow10(n) - 1;
      assert m == (Pow10(n - 1) - 1) * 10 + 9;
      assert m / 10 == Pow10(n - 1) - 1 && m % 10 == 9;
    }
  }

  /** A numeral's value determines it among numerals of the same length. */
  lemma {:induction false} ValueInjective(a: string, b: string)
    requires AllDigits(a) && AllDigits(b) && |a| == |b| && Value(a) == Value(b)
    ensures a == b
  {
    if a != [] {
      var n := |a| - 1;
      assert Value(a) % 10 == DigitValue(a[n]);
      assert Value(b) % 10 == DigitValue(b[n]);
      assert Value(a) / 10 == Value(a[..n]);
      assert Value(b) / 10 == Value(b[..n]);
      ValueInjective(a[..n], b[..n]);
      assert a == a[..n] + [a[n]] && b == b[..n] + [b[n]];
    }
  }

  lemma {:induction false} RepeatAdd(c: char, a: nat, b: nat)
    ensures Repeat(c, a) + Repeat(c, b) == Repeat(c, a + b)
  {
    if b > 0 {
      RepeatAdd(c, a, b - 1);
      assert Repeat(c, a) + Repeat(c, b) == (Repeat(c, a) + Repeat(c, b - 1)) + [c];
    }
  }
}
