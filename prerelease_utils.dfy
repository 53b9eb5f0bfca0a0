/**
 * The prerelease encoder: a fixed character-to-code table, the fixed-width prerelease formatter,
 * and the component-by-component encoding of a prerelease label into a digit string.
 */
module PrereleaseUtils {
  import opened Wrappers
  import opened Digits
  import opened Errors
  import opened Config
  import opened NumericUtils

  // ---------------------------------------------------------------------------------------------
  // The character table

  /** `prereleaseCharToPrecedence[c]`: a two-digit code, or `None` (JavaScript's `undefined`). */
  function PrereleaseCharToPrecedence(c: char): Option<string> {
    match c
    case '0' => Some("37")
    case '1' => Some("38")
    case '2' => Some("39")
    case '3' => Some("40")
    case '4' => Some("41")
    case '5' => Some("42")
    case '6' => Some("43")
    case '7' => Some("44")
    case '8' => Some("45")
    case '9' => Some("46")
    case '-' => Some("47")
    case 'A' => Some("48")
    case 'B' => Some("49")
    case 'C' => Some("50")
    case 'D' => Some("51")
    case 'E' => Some("52")
    case 'F' => Some("53")
    case 'G' => Some("54")
    case 'H' => Some("55")
    case 'I' => Some("56")
    case 'J' => Some("57")
    case 'K' => Some("58")
    case 'L' => Some("59")
    case 'M' => Some("60")
    case 'N' => Some("61")
    case 'O' => Some("62")
    case 'P' => Some("63")
    case 'Q' => Some("64")
    case 'R' => Some("65")
    case 'S' => Some("66")
    case 'T' => Some("67")
    case 'U' => Some("68")
    case 'V' => Some("69")
    case 'W' => Some("70")
    case 'X' => Some("71")
    case 'Y' => Some("72")
    case 'Z' => Some("73")
    case 'a' => Some("74")
    case 'b' => Some("75")
    case 'c' => Some("76")
    case 'd' => Some("77")
    case 'e' => Some("78")
    case 'f' => Some("79")
    case 'g' => Some("80")
    case 'h' => Some("81")
    case 'i' => Some("82")
    case 'j' => Some("83")
    case 'k' => Some("84")
    case 'l' => Some("85")
    case 'm' => Some("86")
    case 'n' => Some("87")
    case 'o' => Some("88")
    case 'p' => Some("89")
    case 'q' => Some("90")
    case 'r' => Some("91")
    case 's' => Some("92")
    case 't' => Some("93")
    case 'u' => Some("94")
    case 'v' => Some("95")
    case 'w' => Some("96")
    case 'x' => Some("97")
    case 'y' => Some("98")
    case 'z' => Some("99")
    case _ => None
  }

  /** The characters the table lists: digits, '-', upper-case and lower-case letters. */
  predicate IsPrereleaseChar(c: char) {
    ('0' <= c <= '9') || c == '-' || ('A' <= c <= 'Z') || ('a' <= c <= 'z')
  }

  /** The group a listed character belongs to, in the order the table lists the groups. */
  function Group(c: char): nat {
    if '0' <= c <= '9' then 0 else if c == '-' then 1 else if 'A' <= c <= 'Z' then 2 else 3
  }

  /** Listed order: digits, then '-', then 'A'..'Z', then 'a'..'z', each group in character order. */
  predicate ListedBefore(a: char, b: char) {
    Group(a) < Group(b) || (Group(a) == Group(b) && a < b)
  }

  /** The position of a listed character in the table. */
  function Rank(c: char): (r: nat)
    requires IsPrereleaseChar(c)
    ensures r < 63
  {
    if '0' <= c <= '9' then c as int - '0' as int
    else if c == '-' then 10
    else if 'A' <= c <= 'Z' then 11 + (c as int - 'A' as int)
    else 37 + (c as int - 'a' as int)
  }

  function TwoDigits(n: nat): (s: string)
    requires n < 100
    ensures |s| == 2 && AllDigits(s)
  {
    [DigitChar(n / 10), DigitChar(n % 10)]
  }

  lemma {:induction false} TwoDigitsValue(n: nat)
    requires n < 100
    ensures Value(TwoDigits(n)) == n
  {
    var s := TwoDigits(n);
    assert s == [s[0]] + [s[1]];
    assert s[..1] == [s[0]] && s[..1][..0] == [];
    assert Value(s[..1]) == n / 10;
  }

  /** The table has an entry exactly for the listed characters. */
  lemma {:induction false} TableKeys(c: char)
    ensures PrereleaseCharToPrecedence(c).Some? <==> IsPrereleaseChar(c)
  {
    if IsPrereleaseChar(c) {
      TableCodes(c);
    }
  }

  /** The table gives the character at position `i` of the listing the code `37 + i`. */
  lemma {:induction false} TableCodes(c: char)
    requires IsPrereleaseChar(c)
    ensures PrereleaseCharToPrecedence(c) == Some(TwoDigits(37 + Rank(c)))
  {
    if c == '-' {
    } else if '0' <= c <= '2' {
      DigitCodes02(c);
    } else if '3' <= c <= '5' {
      DigitCodes35(c);
    } else if '6' <= c <= '9' {
      DigitCodes69(c);
    } else if 'A' <= c <= 'C' {
      UpperCodesAC(c);
    } else if 'D' <= c <= 'F' {
      UpperCodesDF(c);
    } else if 'G' <= c <= 'I' {
      UpperCodesGI(c);
    } else if 'J' <= c <= 'L' {
      UpperCodesJL(c);
    } else if 'M' <= c <= 'O' {
      UpperCodesMO(c);
    } else if 'P' <= c <= 'R' {
      UpperCodesPR(c);
    } else if 'S' <= c <= 'U' {
      UpperCodesSU(c);
    } else if 'V' <= c <= 'X' {
      UpperCodesVX(c);
    } else if 'Y' <= c <= 'Z' {
      UpperCodesYZ(c);
    } else if 'a' <= c <= 'c' {
      LowerCodesAC(c);
    } else if 'd' <= c <= 'f' {
      LowerCodesDF(c);
    } else if 'g' <= c <= 'i' {
      LowerCodesGI(c);
    } else if 'j' <= c <= 'l' {
      LowerCodesJL(c);
    } else if 'm' <= c <= 'o' {
      LowerCodesMO(c);
    } else if 'p' <= c <= 'r' {
      LowerCodesPR(c);
    } else if 's' <= c <= 'u' {
      LowerCodesSU(c);
    } else if 'v' <= c <= 'x' {
      LowerCodesVX(c);
    } else if 'y' <= c <= 'z' {
      LowerCodesYZ(c);
    }
  }

  // The table checked a few entries at a time.

  lemma {:induction false} DigitCodes02(c: char)
    requires '0' <= c <= '2'
    ensures PrereleaseCharToPrecedence(c) == Some(TwoDigits(37 + Rank(c)))
  {
  }

  lemma {:induction false} DigitCodes35(c: char)
    requires '3' <= c <= '5'
    ensures PrereleaseCharToPrecedence(c) == Some(TwoDigits(37 + Rank(c)))
  {
  }

  lemma {:induction false} DigitCodes69(c: char)
    requires '6' <= c <= '9'
    ensures PrereleaseCharToPrecedence(c) == Some(TwoDigits(37 + Rank(c)))
  {
  }

  lemma {:induction false} UpperCodesAC(c: char)
    requires 'A' <= c <= 'C'
    ensures PrereleaseCharToPrecedence(c) == Some(TwoDigits(37 + Rank(c)))
  {
  }

  lemma {:induction false} UpperCodesDF(c: char)
    requires 'D' <= c <= 'F'
    ensures PrereleaseCharToPrecedence(c) == Some(TwoDigits(37 + Rank(c)))
  {
  }

  lemma {:induction false} UpperCodesGI(c: char)
    requires 'G' <= c <= 'I'
    ensures PrereleaseCharToPrecedence(c) == Some(TwoDigits(37 + Rank(c)))
  {
  }

  lemma {:induction false} UpperCodesJL(c: char)
    requires 'J' <= c <= 'L'
    ensures PrereleaseCharToPrecedence(c) == Some(TwoDigits(37 + Rank(c)))
  {
  }

  lemma {:induction false} UpperCodesMO(c: char)
    requires 'M' <= c <= 'O'
    ensures PrereleaseCharToPrecedence(c) == Some(TwoDigits(37 + Rank(c)))
  {
  }

  lemma {:induction false} UpperCodesPR(c: char)
    requires 'P' <= c <= 'R'
    ensures PrereleaseCharToPrecedence(c) == Some(TwoDigits(37 + Rank(c)))
  {
  }

  lemma {:induction false} UpperCodesSU(c: char)
    requires 'S' <= c <= 'U'
    ensures PrereleaseCharToPrecedence(c) == Some(TwoDigits(37 + Rank(c)))
  {
  }

  lemma {:induction false} UpperCodesVX(c: char)
    requires 'V' <= c <= 'X'
    ensures PrereleaseCharToPrecedence(c) == Some(TwoDigits(37 + Rank(c)))
  {
  }

  lemma {:induction false} UpperCodesYZ(c: char)
    requires 'Y' <= c <= 'Z'
    ensures PrereleaseCharToPrecedence(c) == Some(TwoDigits(37 + Rank(c)))
  {
  }

  lemma {:induction false} LowerCodesAC(c: char)
    requires 'a' <= c <= 'c'
    ensures PrereleaseCharToPrecedence(c) == Some(TwoDigits(37 + Rank(c)))
  {
  }

  lemma {:induction false} LowerCodesDF(c: char)
    requires 'd' <= c <= 'f'
    ensures PrereleaseCharToPrecedence(c) == Some(TwoDigits(37 + Rank(c)))
  {
  }

  lemma {:induction false} LowerCodesGI(c: char)
    requires 'g' <= c <= 'i'
    ensures PrereleaseCharToPrecedence(c) == Some(TwoDigits(37 + Rank(c)))
  {
  }

  lemma {:induction false} LowerCodesJL(c: char)
    requires 'j' <= c <= 'l'
    ensures PrereleaseCharToPrecedence(c) == Some(TwoDigits(37 + Rank(c)))
  {
  }

  lemma {:induction false} LowerCodesMO(c: char)
    requires 'm' <= c <= 'o'
    ensures PrereleaseCharToPrecedence(c) == Some(TwoDigits(37 + Rank(c)))
  {
  }

  lemma {:induction false} LowerCodesPR(c: char)
    requires 'p' <= c <= 'r'
    ensures PrereleaseCharToPrecedence(c) == Some(TwoDigits(37 + Rank(c)))
  {
  }

  lemma {:induction false} LowerCodesSU(c: char)
    requires 's' <= c <= 'u'
    ensures PrereleaseCharToPrecedence(c) == Some(TwoDigits(37 + Rank(c)))
  {
  }

  lemma {:induction false} LowerCodesVX(c: char)
    requires 'v' <= c <= 'x'
    ensures PrereleaseCharToPrecedence(c) == Some(TwoDigits(37 + Rank(c)))
  {
  }

  lemma {:induction false} LowerCodesYZ(c: char)
    requires 'y' <= c <= 'z'
    ensures PrereleaseCharToPrecedence(c) == Some(TwoDigits(37 + Rank(c)))
  {
  }

  /** Every code of a listed character is a two-digit string between 37 and 99. */
  lemma {:induction false} CodeRange(a: char)
    requires IsPrereleaseChar(a)
    ensures |CharCode(a)| == 2 && AllDigits(CharCode(a)) && Value(CharCode(a)) == 37 + Rank(a) <= 99
  {
    TwoDigitsValue(37 + Rank(a));
  }

  /**
   * Codes strictly increase in listed order, so the table is injective. ('-' is listed, and
   * coded, after the digits, unlike ASCII.)
   */
  lemma {:induction false} TableOrder(a: char, b: char)
    requires IsPrereleaseChar(a) && IsPrereleaseChar(b)
    ensures AllDigits(CharCode(a)) && AllDigits(CharCode(b))
    ensures Value(CharCode(a)) < Value(CharCode(b)) <==> ListedBefore(a, b)
    ensures CharCode(a) == CharCode(b) <==> a == b
  {
    CodeRange(a);
    CodeRange(b);
    RankOrder(a, b);
  }

  /** Positions follow listed order, so distinct characters have distinct positions. */
  lemma {:induction false} RankOrder(a: char, b: char)
    requires IsPrereleaseChar(a) && IsPrereleaseChar(b)
    ensures Rank(a) < Rank(b) <==> ListedBefore(a, b)
    ensures Rank(a) == Rank(b) <==> a == b
  {
  }

  /**
   * The text `prereleaseCharToPrecedence[c]` contributes to a string concatenation: the code of a
   * listed character at position i is 37 + i, written with two digits; JavaScript writes "undefined"
   * for a missing entry.
   */
  function CharCode(c: char): (code: string)
    ensures |code| == (if IsPrereleaseChar(c) then 2 else 9)
  {
    if IsPrereleaseChar(c) then TwoDigits(37 + Rank(c)) else "undefined"
  }

  /** `CharCode` is the table lookup, with `undefined` for an absent entry. */
  lemma {:induction false} CharCodeIsLookup(c: char)
    ensures CharCode(c) == match PrereleaseCharToPrecedence(c)
                           case Some(code) => code
                           case None => "undefined"
  {
    TableKeys(c);
    if IsPrereleaseChar(c) {
      TableCodes(c);
    }
  }

  /** The codes of a component's characters, concatenated in order. */
  function AsciiCodes(component: string): string {
    if component == [] then [] else AsciiCodes(component[..|component| - 1]) + CharCode(component[|component| - 1])
  }

  predicate AllPrereleaseChars(s: string) {
    forall i | 0 <= i < |s| :: IsPrereleaseChar(s[i])
  }

  /** A component of listed characters becomes two digits per character. */
  lemma {:induction false} AsciiCodesOfListedChars(component: string)
    requires AllPrereleaseChars(component)
    ensures |AsciiCodes(component)| == 2 * |component| && AllDigits(AsciiCodes(component))
  {
    if component != [] {
      var n := |component| - 1;
      var front := component[..n];
      assert AllPrereleaseChars(front) by {
        assert forall i | 0 <= i < n :: front[i] == component[i];
      }
      AsciiCodesOfListedChars(front);
    }
  }

  // ---------------------------------------------------------------------------------------------
  // Splitting at '.'

  /** `parts.join('.')`. */
  function JoinDots(parts: seq<string>): string
    requires |parts| >= 1
  {
    if |parts| == 1 then parts[0] else JoinDots(parts[..|parts| - 1]) + "." + parts[|parts| - 1]
  }

  /** `s.split('.')`: the dot-free pieces between the dots, empty pieces included. */
  function SplitDots(s: string): (parts: seq<string>)
    ensures |parts| >= 1
    ensures forall k | 0 <= k < |parts| :: '.' !in parts[k]
    ensures JoinDots(parts) == s
  {
    if s == [] then
      [[]]
    else
      var front := s[..|s| - 1];
      var c := s[|s| - 1];
      var rest := SplitDots(front);
      assert s == front + [c];
      if c == '.' then
        assert (rest + [[]])[..|rest|] == rest;
        rest + [[]]
      else
        var n := |rest| - 1;
        var parts := rest[..n] + [rest[n] + [c]];
        assert n > 0 ==> parts[..n] == rest[..n];
        assert JoinDots(parts) == s by {
          if n > 0 {
            assert JoinDots(rest) == JoinDots(rest[..n]) + "." + rest[n];
          }
        }
        parts
  }

  lemma {:induction false} SplitDotFree(p: string)
    requires '.' !in p
    ensures SplitDots(p) == [p]
  {
    if p != [] {
      SplitDotFree(p[..|p| - 1]);
    }
  }

  lemma {:induction false} SplitAppendPart(x: string, p: string)
    requires '.' !in p
    ensures SplitDots(x + "." + p) == SplitDots(x) + [p]
    decreases |p|
  {
    var s := x + "." + p;
    if p == [] {
      assert s == x + ".";
      assert s[..|s| - 1] == x && s[|s| - 1] == '.';
    } else {
      var p' := p[..|p| - 1];
      SplitAppendPart(x, p');
      assert s[..|s| - 1] == x + "." + p';
      assert s[|s| - 1] == p[|p| - 1] && p == p' + [p[|p| - 1]];
      var rest := SplitDots(x + "." + p');
      assert rest[..|rest| - 1] == SplitDots(x);
    }
  }

  /** Splitting undoes joining dot-free pieces: `split` and `join` are inverse. */
  lemma {:induction false} SplitJoin(parts: seq<string>)
    requires |parts| >= 1
    requires forall k | 0 <= k < |parts| :: '.' !in parts[k]
    ensures SplitDots(JoinDots(parts)) == parts
  {
    if |parts| == 1 {
      SplitDotFree(parts[0]);
    } else {
      var n := |parts| - 1;
      var front := parts[..n];
      assert front + [parts[n]] == parts;
      assert JoinDots(parts) == JoinDots(front) + "." + parts[n];
      assert forall k | 0 <= k < |front| :: front[k] == parts[k];
      SplitJoin(front);
      SplitAppendPart(JoinDots(front), parts[n]);
    }
  }

  lemma {:induction false} JoinDotsChars(parts: seq<string>, k: nat, j: nat)
    requires |parts| >= 1 && k < |parts| && j < |parts[k]|
    ensures parts[k][j] in JoinDots(parts)
  {
    if k < |parts| - 1 {
      JoinDotsChars(parts[..|parts| - 1], k, j);
    }
  }

  // ---------------------------------------------------------------------------------------------
  // Fixed-width prerelease formatting

  /** A prerelease digit string of the exact width, and whether rounding narrowed it. */
  datatype PrecisionResult = PrecisionResult(strNum: string, hasPrecisionLoss: bool)

  lemma {:induction false} DivUnique(a: nat, s: nat, q: nat, r: nat)
    requires s > 0 && a == q * s + r && r < s
    ensures a / s == q
  {
    var d, m := a / s, a % s;
    if d < q {
      MulMonotone(q, d + 1, s);
    } else if d > q {
      MulMonotone(d, q + 1, s);
    }
  }

  /** The digits before and after position `d` contribute separately to the value. */
  lemma {:induction false} SplitValue(s: string, d: nat)
    requires AllDigits(s) && d < |s|
    ensures AllDigits(s[..d]) && AllDigits(s[d + 1..])
    ensures Value(s) == Value(s[..d]) * Pow10(|s| - d)
                        + DigitValue(s[d]) * Pow10(|s| - d - 1) + Value(s[d + 1..])
    ensures Value(s[d + 1..]) < Pow10(|s| - d - 1) && IsDigit(s[d])
    ensures Pow10(|s| - d) == 10 * Pow10(|s| - d - 1)
  {
    assert s == s[..d] + [s[d]] + s[d + 1..];
    ValueAroundDigit(s[..d], s[d], s[d + 1..], |s| - d, |s| - d - 1);
  }

  lemma {:induction false} ValueAroundDigit(a: string, c: char, t: string, hi: nat, lo: nat)
    requires AllDigits(a) && IsDigit(c) && AllDigits(t) && lo == |t| && hi == lo + 1
    ensures AllDigits(a + [c] + t)
    ensures Value(a + [c] + t) == Value(a) * Pow10(hi) + DigitValue(c) * Pow10(lo) + Value(t)
    ensures Value(t) < Pow10(lo) && Pow10(hi) == 10 * Pow10(lo)
  {
    assert Pow10(hi) == 10 * Pow10(|t|);
    ValueSnoc(a, c);
    ValueConcat(a + [c], t);
    ValueBound(t);
    DigitShift(Value(a), DigitValue(c), Value(t), Value(a + [c]), Value(a + [c] + t), Pow10(|t|), Pow10(hi));
  }

  lemma {:induction false} DigitShift(high: nat, digit: nat, low: nat, front: nat, whole: nat, p: nat, q: nat)
    requires front == high * 10 + digit && whole == front * p + low && q == 10 * p
    ensures whole == high * q + digit * p + low
  {
  }

  /** Adding half a scale unit and dividing carries exactly when the next digit is 5 or more. */
  lemma {:induction false} CarryArithmetic(v: nat, front: nat, digit: char, tail: nat, low: nat, scale: nat)
    requires IsDigit(digit) && tail < low && scale == 10 * low
    requires v == front * scale + DigitValue(digit) * low + tail
    ensures (v + scale / 2) / scale == front + (if digit >= '5' then 1 else 0)
  {
    var x := DigitValue(digit);
    assert scale / 2 == 5 * low;
    var carry := if x >= 5 then 1 else 0;
    var rest := x * low + tail + 5 * low - carry * scale;
    if carry == 1 {
      assert rest == (x - 5) * low + tail;
      MulMonotone(4, x - 5, low);
    } else {
      assert rest == (x + 5) * low + tail;
      MulMonotone(9, x + 5, low);
    }
    assert v + scale / 2 == (front + carry) * scale + rest;
    DivUnique(v + scale / 2, scale, front + carry, rest);
  }

  /** Rounding half-up on the first dropped digit: the carry is 1 exactly when that digit is 5 or more. */
  lemma {:induction false} RoundingCarry(s: string, d: nat)
    requires AllDigits(s) && d < |s|
    ensures (Value(s) + Pow10(|s| - d) / 2) / Pow10(|s| - d) == Value(s[..d]) + (if s[d] >= '5' then 1 else 0)
  {
    SplitValue(s, d);
    CarryArithmetic(Value(s), Value(s[..d]), s[d], Value(s[d + 1..]), Pow10(|s| - d - 1), Pow10(|s| - d));
  }

  /** The rounded fraction has at most `d` digits, or is exactly `10^d` and leaves `d` zeros. */
  lemma {:induction false} RoundedDigits(s: string, d: nat, fixed: nat)
    requires AllDigits(s) && 1 <= d < |s|
    requires fixed == Value(s[..d]) + (if s[d] >= '5' then 1 else 0)
    ensures fixed <= Pow10(d)
    ensures fixed == Pow10(d) ==> AllDigits(Repeat('0', d)) && Value(Repeat('0', d)) == fixed % Pow10(d)
    ensures fixed < Pow10(d) ==>
      var padded := PadStart(ToDecimal(fixed), d, '0');
      |padded| == d && AllDigits(padded) && Value(padded) == fixed % Pow10(d)
  {
    var top := Pow10(d);
    ValueBound(s[..d]);
    ValueZeros(d);
    if fixed == top {
      ModOfModulus(top);
    } else {
      ModOfSmall(fixed, top);
      ToDecimalLength(fixed, d);
      ToDecimalValue(fixed);
      ValuePadStart(ToDecimal(fixed), d);
    }
  }

  lemma {:induction false} ModOfModulus(m: nat)
    requires m > 0
    ensures m % m == 0
  {
  }

  lemma {:induction false} ModOfSmall(v: nat, m: nat)
    requires v < m
    ensures v % m == v
  {
  }

  /** Right-padding a digit string with '0' keeps it a digit string. */
  lemma {:induction false} ZeroPadding(s: string, d: int)
    ensures AllDigits(s) && |s| < d ==>
      PadEnd(s, d, '0') == s + Repeat('0', d - |s|) && AllDigits(PadEnd(s, d, '0'))
  {
    if AllDigits(s) && |s| < d {
      ValueZeros(d - |s|);
      ValueConcat(s, Repeat('0', d - |s|));
    }
  }

  /** The prerelease formatter's message for a width that is not positive. */
  const NonPositiveWidth: string := "desiredLength must be an integer > 0, got "

  /**
   * `fmtFixedSizePrerelease`: exactly `desiredDigits` digits. A shorter input is right-padded with
   * '0'; a longer one is read as the fraction 0.<input> and rounded half-up to `desiredDigits`
   * decimals (`toFixed`), keeping leading zeros; a carry out of the top digit ("1.000...") leaves
   * all zeros once the "1." is sliced off.
   */
  function FmtFixedSizePrerelease(strNumIn: string, desiredDigits: int): (r: Result<PrecisionResult, string>)
    ensures r.Failure? <==> desiredDigits <= 0 || !AllDigits(strNumIn)
    ensures r.Success? ==> |r.value.strNum| == desiredDigits && AllDigits(r.value.strNum)
    ensures r.Success? ==> (r.value.hasPrecisionLoss <==> |strNumIn| > desiredDigits)
    ensures r.Success? && |strNumIn| <= desiredDigits ==>
      r.value.strNum == strNumIn + Repeat('0', desiredDigits - |strNumIn|)
    ensures r.Success? && |strNumIn| > desiredDigits ==>
      Value(r.value.strNum)
        == (Value(strNumIn[..desiredDigits]) + (if strNumIn[desiredDigits] >= '5' then 1 else 0)) % Pow10(desiredDigits)
  {
    ZeroPadding(strNumIn, desiredDigits);
    if desiredDigits <= 0 then
      Failure(NonPositiveWidth + IntToString(desiredDigits))
    else if !AllDigits(strNumIn) then
      Failure(NotDigits + strNumIn)
    else if |strNumIn| < desiredDigits then
      Success(PrecisionResult(PadEnd(strNumIn, desiredDigits, '0'), false))
    else if |strNumIn| > desiredDigits then
      var scaleFactor := Pow10(|strNumIn| - desiredDigits);
      var fixed := (Value(strNumIn) + scaleFactor / 2) / scaleFactor;
      RoundingCarry(strNumIn, desiredDigits);
      RoundedDigits(strNumIn, desiredDigits, fixed);
      if fixed == Pow10(desiredDigits) then
        Success(PrecisionResult(Repeat('0', desiredDigits), true))
      else
        Success(PrecisionResult(PadStart(ToDecimal(fixed), desiredDigits, '0'), true))
    else
      Success(PrecisionResult(strNumIn, false))
  }

  // ---------------------------------------------------------------------------------------------
  // Encoding the components

  /** `table.findIndex(v => v == component)`: the first position holding `component`, or -1. */
  function FindIndex(table: seq<string>, component: string): (i: int)
    ensures -1 <= i < |table|
    ensures i == -1 <==> component !in table
    ensures i >= 0 ==> table[i] == component && component !in table[..i]
  {
    if table == [] then -1
    else if table[0] == component then 0
    else
      var j := FindIndex(table[1..], component);
      assert j >= 0 ==> table[..j + 1] == [table[0]] + table[1..][..j];
      if j == -1 then -1 else j + 1
  }

  /** `s.repeat(n)` for a string. */
  function RepeatString(s: string, n: nat): (r: string)
    ensures |r| == |s| * n
  {
    if n == 0 then [] else s + RepeatString(s, n - 1)
  }

  lemma {:induction false} RepeatCodeDigits(n: nat)
    ensures AllDigits(RepeatString(CharCode('0'), n))
    ensures n > 0 ==> RepeatString(CharCode('0'), n)[0] == '3'
  {
    if n > 0 {
      RepeatCodeDigits(n - 1);
    }
  }

  /**
   * `prereleaseCharToPrecedence['0'].repeat(max(1, k / 2)).slice(0, k)`: the first k digits of
   * "3737...", the floor that a numeric component is clamped below. (`repeat` truncates k / 2.)
   */
  function MinAsciiComponent(desiredComponentDigits: nat): (m: string)
    ensures AllDigits(m) && |m| <= desiredComponentDigits
    ensures desiredComponentDigits >= 1 ==> |m| >= 1 && m[0] == '3'
  {
    var count := if desiredComponentDigits / 2 > 1 then desiredComponentDigits / 2 else 1;
    var codes := RepeatString(CharCode('0'), count);
    RepeatCodeDigits(count);
    codes[..if desiredComponentDigits < |codes| then desiredComponentDigits else |codes|]
  }

  lemma {:induction false} MinAsciiComponentBounds(desiredComponentDigits: nat)
    ensures desiredComponentDigits >= 1 ==>
      3 <= Value(MinAsciiComponent(desiredComponentDigits)) < Pow10(desiredComponentDigits)
  {
    var minAsciiComponent := MinAsciiComponent(desiredComponentDigits);
    if desiredComponentDigits >= 1 {
      ValueBound(minAsciiComponent);
      Pow10Monotone(|minAsciiComponent|, desiredComponentDigits);
      assert Value(minAsciiComponent[..1]) == 3 by {
        assert minAsciiComponent[..1][..0] == [];
      }
      assert minAsciiComponent == minAsciiComponent[..1] + minAsciiComponent[1..];
      ValueConcat(minAsciiComponent[..1], minAsciiComponent[1..]);
    }
  }

  /** `Number(minAsciiComponent) - 1`: the largest value a numeric component is encoded as. */
  function MaxNumericComponentNum(desiredComponentDigits: nat): (m: int)
    ensures desiredComponentDigits == 0 ==> m == -1
    ensures desiredComponentDigits >= 1 ==> 2 <= m < Pow10(desiredComponentDigits) - 1
  {
    var minAsciiComponent := MinAsciiComponent(desiredComponentDigits);
    MinAsciiComponentBounds(desiredComponentDigits);
    Value(minAsciiComponent) - 1
  }

  lemma {:induction false} ClampedFormatting(clamped: int, desiredComponentDigits: nat)
    requires desiredComponentDigits >= 1 ==> 0 <= clamped < Pow10(desiredComponentDigits)
    ensures desiredComponentDigits >= 1 ==>
      IsStrictInt(IntToString(clamped)) && |ToDecimal(clamped)| <= desiredComponentDigits
    ensures FmtFixedSizeNumeric(IntToString(clamped), desiredComponentDigits).Success?
    ensures desiredComponentDigits == 0 ==>
      FmtFixedSizeNumeric(IntToString(clamped), desiredComponentDigits).value == NumericResult("", true)
    ensures desiredComponentDigits >= 1 ==>
      FmtFixedSizeNumeric(IntToString(clamped), desiredComponentDigits).value
        == NumericResult(PadStart(ToDecimal(clamped), desiredComponentDigits, '0'), false)
  {
    FixedSizeSpec(IntToString(clamped), desiredComponentDigits);
    if desiredComponentDigits >= 1 {
      var s := ToDecimal(clamped);
      ToDecimalValue(clamped);
      StrictIntIsCanonical(s);
      ToDecimalLength(clamped, desiredComponentDigits);
      StrictIntFormatting(s, desiredComponentDigits);
    }
  }

  /**
   * The digits a numeric component contributes: its value clamped to `MaxNumericComponentNum`,
   * formatted to the component width. With a width of at least one digit it never overflows.
   */
  function NumericComponent(component: string, desiredComponentDigits: nat): (r: NumericResult)
    requires IsStrictInt(component)
    ensures |r.strNum| == desiredComponentDigits
    ensures desiredComponentDigits == 0 ==> r == NumericResult("", true)
    ensures desiredComponentDigits >= 1 ==>
      var ceiling := MaxNumericComponentNum(desiredComponentDigits);
      && !r.hasOverflow
      && r.strNum == PadStart(ToDecimal(if Value(component) > ceiling then ceiling else Value(component)),
                              desiredComponentDigits, '0')
  {
    var num := Value(component);
    var maxNumericComponentNum := MaxNumericComponentNum(desiredComponentDigits);
    var clamped := if num > maxNumericComponentNum then maxNumericComponentNum else num;
    ClampedFormatting(clamped, desiredComponentDigits);
    FmtFixedSizeNumeric(IntToString(clamped), desiredComponentDigits).value
  }

  /** What the component loop has built: the digit accumulator and the component errors. */
  datatype Accumulated = Accumulated(prereleaseNumber: string, errs: seq<SemverIntError>)

  /** What one pass of the loop body decides: go on with a longer accumulator, or stop with a final state. */
  datatype Step = Continue(prereleaseNumber: string) | Stop(result: Accumulated)

  /**
   * One pass of the component loop for component `i`: the first component goes through the
   * override table when there is one; a strict integer is clamped and formatted, and ends the
   * loop; any other component is replaced by its character codes, truncated (padding the rest of
   * the budget with '9' and ending the loop) when those exceed the component width, and the loop
   * ends once the budget is reached.
   */
  function EncodeStep(component: string, i: nat, prereleaseNumber: string, errs: seq<SemverIntError>,
                      desiredDigits: nat, desiredComponentDigits: nat,
                      firstPrereleaseComponentToDigit: Option<OverrideTable>): Step
  {
    if i == 0 && firstPrereleaseComponentToDigit.Some? then
      var firstDigit := FindIndex(firstPrereleaseComponentToDigit.value, component) + 1;
      Continue(prereleaseNumber + IntToString(firstDigit))
    else if IsStrictInt(component) then
      var result := NumericComponent(component, desiredComponentDigits);
      var extended := prereleaseNumber + result.strNum;
      if result.hasOverflow then
        Stop(Accumulated(PadEnd(extended, desiredDigits, '9'), errs + [OverflowError(PrereleaseComponent, component)]))
      else
        Stop(Accumulated(extended, errs))
    else
      var asciiComponentNum := AsciiCodes(component);
      if |asciiComponentNum| > desiredComponentDigits then
        var extended := prereleaseNumber + asciiComponentNum[..desiredComponentDigits];
        Stop(Accumulated(PadEnd(extended, desiredDigits, '9'), errs + [OverflowError(PrereleaseComponent, component)]))
      else
        var extended := prereleaseNumber + asciiComponentNum;
        if |extended| >= desiredDigits then Stop(Accumulated(extended, errs)) else Continue(extended)
  }

  /** The component loop from component `i` on, given what it has built so far. */
  function EncodeComponents(components: seq<string>, i: nat, prereleaseNumber: string,
                            errs: seq<SemverIntError>, desiredDigits: nat, desiredComponentDigits: nat,
                            firstPrereleaseComponentToDigit: Option<OverrideTable>): Accumulated
    requires i <= |components|
    decreases |components| - i
  {
    if i == |components| then
      Accumulated(prereleaseNumber, errs)
    else
      match EncodeStep(components[i], i, prereleaseNumber, errs, desiredDigits, desiredComponentDigits,
                       firstPrereleaseComponentToDigit)
      case Continue(extended) =>
        EncodeComponents(components, i + 1, extended, errs, desiredDigits, desiredComponentDigits,
                         firstPrereleaseComponentToDigit)
      case Stop(result) => result
  }

  /** `{ strNum, errs }` of `prereleaseToInt`. */
  datatype PrereleaseResult = PrereleaseResult(strNum: string, errs: seq<SemverIntError>)

  /**
   * `prereleaseToInt` as a function: an empty label is all nines, a zero budget drops the label
   * with an overflow, and otherwise the accumulated digits are fixed to the budget, with a
   * precision-loss error after any component error when the accumulator was too long.
   */
  function PrereleaseEncoding(prerelease: string, desiredDigits: nat, desiredComponentDigits: nat,
                              firstPrereleaseComponentToDigit: Option<OverrideTable>): (r: Result<PrereleaseResult, string>)
    ensures prerelease == "" ==> r == Success(PrereleaseResult(Repeat('9', desiredDigits), []))
    ensures prerelease != "" && desiredDigits == 0 ==>
      r == Success(PrereleaseResult("", [OverflowError(Prerelease, prerelease)]))
    ensures r.Success? ==> |r.value.strNum| == desiredDigits && AllDigits(r.value.strNum)
  {
    if prerelease == "" then
      Success(PrereleaseResult(Repeat('9', desiredDigits), []))
    else if desiredDigits == 0 then
      Success(PrereleaseResult("", [OverflowError(Prerelease, prerelease)]))
    else
      var acc := EncodeComponents(SplitDots(prerelease), 0, "", [], desiredDigits, desiredComponentDigits,
                                  firstPrereleaseComponentToDigit);
      var prereleaseResult :- FmtFixedSizePrerelease(acc.prereleaseNumber, desiredDigits);
      Success(PrereleaseResult(prereleaseResult.strNum,
        acc.errs + if prereleaseResult.hasPrecisionLoss then [PrecisionLossError(Prerelease, prerelease)] else []))
  }

  // ---------------------------------------------------------------------------------------------
  // The component loop, step by step

  /**
   * With an override table, the first component contributes the single digit `index + 1` of the
   * first entry equal to it, or '0' when none is; it is neither numeric- nor ASCII-encoded, and the
   * loop continues whatever the accumulator's length.
   */
  lemma {:induction false} OverrideComponent(components: seq<string>, prereleaseNumber: string, errs: seq<SemverIntError>,
                          desiredDigits: nat, desiredComponentDigits: nat, table: OverrideTable)
    requires |components| >= 1
    ensures var digit := FindIndex(table, components[0]) + 1;
      && 0 <= digit <= 9
      && (digit == 0 <==> components[0] !in table)
      && (digit > 0 ==> table[digit - 1] == components[0] && components[0] !in table[..digit - 1])
      && EncodeComponents(components, 0, prereleaseNumber, errs, desiredDigits, desiredComponentDigits, Some(table))
         == EncodeComponents(components, 1, prereleaseNumber + [DigitChar(digit)], errs,
                             desiredDigits, desiredComponentDigits, Some(table))
  {
    var digit := FindIndex(table, components[0]) + 1;
    assert IntToString(digit) == [DigitChar(digit)];
    var step := EncodeStep(components[0], 0, prereleaseNumber, errs, desiredDigits, desiredComponentDigits, Some(table));
    assert step == Continue(prereleaseNumber + [DigitChar(digit)]);
  }

  /**
   * A strict-integer component ends the loop. With a component width of at least one digit it is
   * clamped and left-padded to exactly that width, with no error; with width 0 it overflows: the
   * budget is filled with '9' and one component error is recorded.
   */
  lemma {:induction false} NumericComponentEndsLoop(components: seq<string>, i: nat, prereleaseNumber: string,
                                 errs: seq<SemverIntError>, desiredDigits: nat, desiredComponentDigits: nat,
                                 table: Option<OverrideTable>)
    requires i < |components| && !(i == 0 && table.Some?) && IsStrictInt(components[i])
    ensures var res := EncodeComponents(components, i, prereleaseNumber, errs, desiredDigits, desiredComponentDigits, table);
      var ceiling := MaxNumericComponentNum(desiredComponentDigits);
      var num := if Value(components[i]) > ceiling then ceiling else Value(components[i]);
      && (desiredComponentDigits >= 1 ==>
            && res == Accumulated(prereleaseNumber + PadStart(ToDecimal(num), desiredComponentDigits, '0'), errs)
            && |res.prereleaseNumber| == |prereleaseNumber| + desiredComponentDigits
            && 0 <= num < Pow10(desiredComponentDigits) - 1)
      && (desiredComponentDigits == 0 ==>
            res == Accumulated(PadEnd(prereleaseNumber, desiredDigits, '9'),
                               errs + [OverflowError(PrereleaseComponent, components[i])]))
  {
  }

  /**
   * An ASCII component whose codes exceed the component width is cut to that width, then the
   * budget is filled with '9'; one component error is recorded and the loop ends.
   */
  lemma {:induction false} AsciiComponentOverflow(components: seq<string>, i: nat, prereleaseNumber: string,
                               errs: seq<SemverIntError>, desiredDigits: nat, desiredComponentDigits: nat,
                               table: Option<OverrideTable>)
    requires i < |components| && !(i == 0 && table.Some?) && !IsStrictInt(components[i])
    requires |AsciiCodes(components[i])| > desiredComponentDigits
    ensures var res := EncodeComponents(components, i, prereleaseNumber, errs, desiredDigits, desiredComponentDigits, table);
      var kept := prereleaseNumber + AsciiCodes(components[i])[..desiredComponentDigits];
      && res.errs == errs + [OverflowError(PrereleaseComponent, components[i])]
      && |res.prereleaseNumber| == (if |kept| >= desiredDigits then |kept| else desiredDigits)
      && res.prereleaseNumber[..|kept|] == kept
      && (forall n | |kept| <= n < |res.prereleaseNumber| :: res.prereleaseNumber[n] == '9')
  {
  }

  /**
   * An ASCII component whose codes fit the component width is appended whole; the loop goes on to
   * the next component only while the accumulator is shorter than the budget.
   */
  lemma {:induction false} AsciiComponentFits(components: seq<string>, i: nat, prereleaseNumber: string,
                           errs: seq<SemverIntError>, desiredDigits: nat, desiredComponentDigits: nat,
                           table: Option<OverrideTable>)
    requires i < |components| && !(i == 0 && table.Some?) && !IsStrictInt(components[i])
    requires |AsciiCodes(components[i])| <= desiredComponentDigits
    ensures var extended := prereleaseNumber + AsciiCodes(components[i]);
      EncodeComponents(components, i, prereleaseNumber, errs, desiredDigits, desiredComponentDigits, table)
        == if |extended| >= desiredDigits then Accumulated(extended, errs)
           else EncodeComponents(components, i + 1, extended, errs, desiredDigits, desiredComponentDigits, table)
  {
  }

  /** One pass only appends, and adds at most one error: a component overflow naming this component. */
  lemma {:induction false} StepAppendsOnly(component: string, i: nat, prereleaseNumber: string, errs: seq<SemverIntError>,
                        desiredDigits: nat, desiredComponentDigits: nat, table: Option<OverrideTable>)
    ensures match EncodeStep(component, i, prereleaseNumber, errs, desiredDigits, desiredComponentDigits, table)
      case Continue(extended) => prereleaseNumber <= extended
      case Stop(res) =>
        && prereleaseNumber <= res.prereleaseNumber
        && (res.errs == errs
            || (res.errs == errs + [OverflowError(PrereleaseComponent, component)]
                && |res.prereleaseNumber| >= desiredDigits))
  {
  }

  /**
   * The loop only appends: the accumulator and the error list keep what they had, at most one
   * error is added, it is a component overflow naming one of the remaining components, and when it
   * is added the accumulator has been filled up to the budget.
   */
  lemma {:induction false} LoopAppendsOnly(components: seq<string>, i: nat, prereleaseNumber: string,
                                           errs: seq<SemverIntError>, desiredDigits: nat,
                                           desiredComponentDigits: nat, table: Option<OverrideTable>)
    requires i <= |components|
    ensures var res := EncodeComponents(components, i, prereleaseNumber, errs, desiredDigits, desiredComponentDigits, table);
      && prereleaseNumber <= res.prereleaseNumber
      && errs <= res.errs && |res.errs| <= |errs| + 1
      && (forall n | |errs| <= n < |res.errs| ::
            && res.errs[n].OverflowError?
            && res.errs[n].componentName == PrereleaseComponent
            && res.errs[n].strNum in components[i..])
      && (|res.errs| > |errs| ==> |res.prereleaseNumber| >= desiredDigits)
    decreases |components| - i
  {
    if i < |components| {
      var component := components[i];
      assert components[i..] == [component] + components[i + 1..];
      StepAppendsOnly(component, i, prereleaseNumber, errs, desiredDigits, desiredComponentDigits, table);
      match EncodeStep(component, i, prereleaseNumber, errs, desiredDigits, desiredComponentDigits, table)
      case Continue(extended) =>
        LoopAppendsOnly(components, i + 1, extended, errs, desiredDigits, desiredComponentDigits, table);
      case Stop(res) =>
    }
  }

  lemma {:induction false} DigitsConcat(a: string, b: string)
    requires AllDigits(a) && AllDigits(b)
    ensures AllDigits(a + b)
  {
    ValueConcat(a, b);
  }

  lemma {:induction false} NinePadding(s: string, width: nat)
    requires AllDigits(s)
    ensures AllDigits(PadEnd(s, width, '9'))
  {
    if |s| < width {
      ValueOfRepeat('9', width - |s|);
      DigitsConcat(s, Repeat('9', width - |s|));
    }
  }

  /** The digits a strict-integer component contributes, including the overflow fill. */
  lemma {:induction false} NumericStepDigits(component: string, prereleaseNumber: string, desiredDigits: nat,
                          desiredComponentDigits: nat)
    requires IsStrictInt(component) && AllDigits(prereleaseNumber)
    ensures var result := NumericComponent(component, desiredComponentDigits);
      AllDigits(prereleaseNumber + result.strNum)
      && AllDigits(PadEnd(prereleaseNumber + result.strNum, desiredDigits, '9'))
  {
    var result := NumericComponent(component, desiredComponentDigits);
    if desiredComponentDigits >= 1 {
      var ceiling := MaxNumericComponentNum(desiredComponentDigits);
      ValuePadStart(ToDecimal(if Value(component) > ceiling then ceiling else Value(component)),
                    desiredComponentDigits);
    }
    DigitsConcat(prereleaseNumber, result.strNum);
    NinePadding(prereleaseNumber + result.strNum, desiredDigits);
  }

  /** The digits a listed-character component contributes, truncated or whole. */
  lemma {:induction false} AsciiStepDigits(component: string, prereleaseNumber: string, desiredDigits: nat,
                        desiredComponentDigits: nat)
    requires AllPrereleaseChars(component) && AllDigits(prereleaseNumber)
    ensures var codes := AsciiCodes(component);
      && AllDigits(prereleaseNumber + codes)
      && (|codes| > desiredComponentDigits ==>
            AllDigits(PadEnd(prereleaseNumber + codes[..desiredComponentDigits], desiredDigits, '9')))
  {
    var codes := AsciiCodes(component);
    AsciiCodesOfListedChars(component);
    DigitsConcat(prereleaseNumber, codes);
    if |codes| > desiredComponentDigits {
      var kept := codes[..desiredComponentDigits];
      assert AllDigits(kept);
      DigitsConcat(prereleaseNumber, kept);
      NinePadding(prereleaseNumber + kept, desiredDigits);
    }
  }

  /** One pass over a listed-character component (or the overridden first one) appends only digits. */
  lemma {:induction false} StepDigits(component: string, i: nat, prereleaseNumber: string, errs: seq<SemverIntError>,
                   desiredDigits: nat, desiredComponentDigits: nat, table: Option<OverrideTable>)
    requires AllDigits(prereleaseNumber)
    requires !(i == 0 && table.Some?) ==> AllPrereleaseChars(component)
    ensures match EncodeStep(component, i, prereleaseNumber, errs, desiredDigits, desiredComponentDigits, table)
      case Continue(extended) => AllDigits(extended)
      case Stop(res) => AllDigits(res.prereleaseNumber)
  {
    if i == 0 && table.Some? {
      DigitsConcat(prereleaseNumber, IntToString(FindIndex(table.value, component) + 1));
    } else if IsStrictInt(component) {
      NumericStepDigits(component, prereleaseNumber, desiredDigits, desiredComponentDigits);
    } else {
      AsciiStepDigits(component, prereleaseNumber, desiredDigits, desiredComponentDigits);
    }
  }

  /** Components made of listed characters (the overridden first one excepted) accumulate only digits. */
  lemma {:induction false} LoopDigits(components: seq<string>, i: nat, prereleaseNumber: string,
                                      errs: seq<SemverIntError>, desiredDigits: nat,
                                      desiredComponentDigits: nat, table: Option<OverrideTable>)
    requires i <= |components| && AllDigits(prereleaseNumber)
    requires forall j | i <= j < |components| && !(j == 0 && table.Some?) :: AllPrereleaseChars(components[j])
    ensures AllDigits(EncodeComponents(components, i, prereleaseNumber, errs, desiredDigits,
                                       desiredComponentDigits, table).prereleaseNumber)
    decreases |components| - i
  {
    if i < |components| {
      var step := EncodeStep(components[i], i, prereleaseNumber, errs, desiredDigits, desiredComponentDigits, table);
      StepDigits(components[i], i, prereleaseNumber, errs, desiredDigits, desiredComponentDigits, table);
      if step.Continue? {
        LoopDigits(components, i + 1, step.prereleaseNumber, errs, desiredDigits, desiredComponentDigits, table);
      }
    }
  }

  // ---------------------------------------------------------------------------------------------
  // The whole prerelease

  /** A label of listed characters and dots always encodes: no "undefined" reaches the formatter. */
  lemma {:induction false} ListedCharsEncode(prerelease: string, desiredDigits: nat, desiredComponentDigits: nat,
                          table: Option<OverrideTable>)
    requires forall n | 0 <= n < |prerelease| :: IsPrereleaseChar(prerelease[n]) || prerelease[n] == '.'
    ensures PrereleaseEncoding(prerelease, desiredDigits, desiredComponentDigits, table).Success?
  {
    if prerelease != "" && desiredDigits > 0 {
      var components := SplitDots(prerelease);
      forall j | 0 <= j < |components|
        ensures AllPrereleaseChars(components[j])
      {
        forall n | 0 <= n < |components[j]|
          ensures IsPrereleaseChar(components[j][n])
        {
          JoinDotsChars(components, j, n);
        }
      }
      LoopDigits(components, 0, "", [], desiredDigits, desiredComponentDigits, table);
    }
  }

  /** For a non-empty label and a positive budget, the encoding is the loop's result, formatted. */
  lemma {:induction false} EncodingOfLoop(prerelease: string, desiredDigits: nat, desiredComponentDigits: nat,
                       table: Option<OverrideTable>)
    requires prerelease != "" && desiredDigits > 0
    ensures var acc := EncodeComponents(SplitDots(prerelease), 0, "", [], desiredDigits, desiredComponentDigits, table);
      var formatted := FmtFixedSizePrerelease(acc.prereleaseNumber, desiredDigits);
      var r := PrereleaseEncoding(prerelease, desiredDigits, desiredComponentDigits, table);
      && (r.Failure? <==> formatted.Failure?)
      && (r.Success? ==>
            r.value == PrereleaseResult(formatted.value.strNum,
              acc.errs + if formatted.value.hasPrecisionLoss then [PrecisionLossError(Prerelease, prerelease)] else []))
  {
  }

  /**
   * For a non-empty label and a positive budget, the encoding fails exactly when a non-digit (an
   * "undefined" for an unlisted character) was accumulated.
   */
  lemma {:induction false} PrereleaseFailure(prerelease: string, desiredDigits: nat, desiredComponentDigits: nat,
                          table: Option<OverrideTable>)
    requires prerelease != "" && desiredDigits > 0
    ensures var acc := EncodeComponents(SplitDots(prerelease), 0, "", [], desiredDigits, desiredComponentDigits, table);
      (PrereleaseEncoding(prerelease, desiredDigits, desiredComponentDigits, table).Failure?
       <==> !AllDigits(acc.prereleaseNumber))
  {
    EncodingOfLoop(prerelease, desiredDigits, desiredComponentDigits, table);
  }

  /**
   * For a non-empty label and a positive budget, a successful encoding reports at most one
   * component overflow, naming a component of the label, and a precision-loss error after it
   * exactly when the accumulator was longer than the budget; a shorter accumulator is
   * right-padded with '0'.
   */
  lemma {:induction false} PrereleaseErrors(prerelease: string, desiredDigits: nat, desiredComponentDigits: nat,
                         table: Option<OverrideTable>)
    requires prerelease != "" && desiredDigits > 0
    ensures var acc := EncodeComponents(SplitDots(prerelease), 0, "", [], desiredDigits, desiredComponentDigits, table);
      var r := PrereleaseEncoding(prerelease, desiredDigits, desiredComponentDigits, table);
      r.Success? ==>
        && |acc.errs| <= 1
        && (forall e | e in acc.errs ::
              e.OverflowError? && e.componentName == PrereleaseComponent && e.strNum in SplitDots(prerelease))
        && (|acc.prereleaseNumber| > desiredDigits ==>
              r.value.errs == acc.errs + [PrecisionLossError(Prerelease, prerelease)])
        && (|acc.prereleaseNumber| <= desiredDigits ==>
              && r.value.errs == acc.errs
              && r.value.strNum == acc.prereleaseNumber + Repeat('0', desiredDigits - |acc.prereleaseNumber|))
  {
    var components := SplitDots(prerelease);
    var acc := EncodeComponents(components, 0, "", [], desiredDigits, desiredComponentDigits, table);
    LoopAppendsOnly(components, 0, "", [], desiredDigits, desiredComponentDigits, table);
    assert components[0..] == components;
    EncodingOfLoop(prerelease, desiredDigits, desiredComponentDigits, table);
    forall e | e in acc.errs
      ensures e.OverflowError? && e.componentName == PrereleaseComponent && e.strNum in components
    {
      var n :| 0 <= n < |acc.errs| && acc.errs[n] == e;
    }
  }

  /** Whatever the label and budget, a successful encoding reports at most two errors, all about the prerelease. */
  lemma {:induction false} PrereleaseErrorTags(prerelease: string, desiredDigits: nat, desiredComponentDigits: nat,
                            table: Option<OverrideTable>)
    ensures var r := PrereleaseEncoding(prerelease, desiredDigits, desiredComponentDigits, table);
      r.Success? ==>
        && |r.value.errs| <= 2
        && (forall e | e in r.value.errs :: e.componentName == Prerelease || e.componentName == PrereleaseComponent)
  {
    if prerelease != "" && desiredDigits > 0 {
      PrereleaseErrors(prerelease, desiredDigits, desiredComponentDigits, table);
    }
  }

  /** The inner loop of `prereleaseToInt`: the character codes of a component, appended one by one. */
  method AsciiComponentNum(component: string) returns (asciiComponentNum: string)
    ensures asciiComponentNum == AsciiCodes(component)
  {
    asciiComponentNum := "";
    var j := 0;
    while j < |component|
      invariant 0 <= j <= |component|
      invariant asciiComponentNum == AsciiCodes(component[..j])
    {
      assert component[..j + 1][..j] == component[..j];
      asciiComponentNum := asciiComponentNum + CharCode(component[j]);
      j := j + 1;
    }
    assert component[..j] == component;
  }

  /**
   * The body of the component loop of `prereleaseToInt`: the override `continue`, the numeric and
   * overflow `break`s, and the budget check, as the step the loop takes next.
   */
  method EncodeComponent(component: string, i: nat, prereleaseNumber: string, errs: seq<SemverIntError>,
                         desiredDigits: nat, desiredComponentDigits: nat,
                         firstPrereleaseComponentToDigit: Option<OverrideTable>)
    returns (step: Step)
    ensures step == EncodeStep(component, i, prereleaseNumber, errs, desiredDigits, desiredComponentDigits,
                               firstPrereleaseComponentToDigit)
  {
    var prereleaseNumber := prereleaseNumber;
    var errs := errs;
    if i == 0 && firstPrereleaseComponentToDigit.Some? {
      var firstDigit := FindIndex(firstPrereleaseComponentToDigit.value, component) + 1;
      prereleaseNumber := prereleaseNumber + IntToString(firstDigit);
      return Continue(prereleaseNumber);
    }

    if IsStrictInt(component) {
      var num := Value(component);
      var minAsciiComponent := MinAsciiComponent(desiredComponentDigits);
      var maxNumericComponentNum := Value(minAsciiComponent) - 1;
      assert maxNumericComponentNum == MaxNumericComponentNum(desiredComponentDigits);
      if num > maxNumericComponentNum {
        num := maxNumericComponentNum;
      }
      ClampedFormatting(num, desiredComponentDigits);
      var result := FmtFixedSizeNumeric(IntToString(num), desiredComponentDigits).value;
      assert result == NumericComponent(component, desiredComponentDigits);
      prereleaseNumber := prereleaseNumber + result.strNum;
      if result.hasOverflow {
        var remainingDigits := desiredDigits - |prereleaseNumber|;
        if remainingDigits > 0 {
          prereleaseNumber := prereleaseNumber + Repeat('9', remainingDigits);
        }
        errs := errs + [OverflowError(PrereleaseComponent, component)];
      }
      return Stop(Accumulated(prereleaseNumber, errs));
    }

    var asciiComponentNum := AsciiComponentNum(component);
    if |asciiComponentNum| > desiredComponentDigits {
      asciiComponentNum := asciiComponentNum[..desiredComponentDigits];
      prereleaseNumber := prereleaseNumber + asciiComponentNum;
      var remainingDigits := desiredDigits - |prereleaseNumber|;
      if remainingDigits > 0 {
        prereleaseNumber := prereleaseNumber + Repeat('9', remainingDigits);
      }
      errs := errs + [OverflowError(PrereleaseComponent, component)];
      return Stop(Accumulated(prereleaseNumber, errs));
    }

    prereleaseNumber := prereleaseNumber + asciiComponentNum;
    if |prereleaseNumber| >= desiredDigits {
      return Stop(Accumulated(prereleaseNumber, errs));
    }
    return Continue(prereleaseNumber);
  }

  /** The component loop of `prereleaseToInt` over `prerelease.split('.')`. */
  method EncodeComponentsLoop(components: seq<string>, desiredDigits: nat, desiredComponentDigits: nat,
                              firstPrereleaseComponentToDigit: Option<OverrideTable>)
    returns (prereleaseNumber: string, errs: seq<SemverIntError>)
    ensures Accumulated(prereleaseNumber, errs)
            == EncodeComponents(components, 0, "", [], desiredDigits, desiredComponentDigits,
                                firstPrereleaseComponentToDigit)
  {
    prereleaseNumber := "";
    errs := [];
    ghost var final := EncodeComponents(components, 0, "", [], desiredDigits, desiredComponentDigits,
                                        firstPrereleaseComponentToDigit);
    var i := 0;
    while i < |components|
      invariant 0 <= i <= |components|
      invariant EncodeComponents(components, i, prereleaseNumber, errs, desiredDigits, desiredComponentDigits,
                                 firstPrereleaseComponentToDigit) == final
      decreases |components| - i
    {
      var step := EncodeComponent(components[i], i, prereleaseNumber, errs, desiredDigits, desiredComponentDigits,
                                  firstPrereleaseComponentToDigit);
      match step {
        case Continue(extended) =>
          prereleaseNumber := extended;
          i := i + 1;
        case Stop(result) =>
          prereleaseNumber, errs := result.prereleaseNumber, result.errs;
          break;
      }
    }
  }

  /** `prereleaseToInt`: the empty and zero-budget cases, the component loop, then the fixed-width format. */
  method PrereleaseToInt(prerelease: string, desiredDigits: nat, desiredComponentDigits: nat,
                         firstPrereleaseComponentToDigit: Option<OverrideTable>)
    returns (r: Result<PrereleaseResult, string>)
    ensures r == PrereleaseEncoding(prerelease, desiredDigits, desiredComponentDigits, firstPrereleaseComponentToDigit)
  {
    if prerelease == "" {
      return Success(PrereleaseResult(Repeat('9', desiredDigits), []));
    }

    if desiredDigits == 0 {
      var errs: seq<SemverIntError> := [];
      if |prerelease| > 0 {
        errs := errs + [OverflowError(Prerelease, prerelease)];
      }
      assert errs == [OverflowError(Prerelease, prerelease)];
      return Success(PrereleaseResult("", errs));
    }

    var prereleaseNumber, errs := EncodeComponentsLoop(SplitDots(prerelease), desiredDigits, desiredComponentDigits,
                                                       firstPrereleaseComponentToDigit);
    var prereleaseResult :- FmtFixedSizePrerelease(prereleaseNumber, desiredDigits);
    ghost var loopErrs := errs;
    if prereleaseResult.hasPrecisionLoss {
      errs := errs + [PrecisionLossError(Prerelease, prerelease)];
    }
    assert errs == loopErrs + if prereleaseResult.hasPrecisionLoss then [PrecisionLossError(Prerelease, prerelease)] else [];
    return Success(PrereleaseResult(prereleaseResult.strNum, errs));
  }
}
