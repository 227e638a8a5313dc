// Card numbers as typed: the checksum that rejects typing mistakes and the grouping shown
// while typing (src/lib/card-validation.ts).
module CardValidation {

  import opened Text

  // ---- digits ---------------------------------------------------------------------------

  /** Everything but the ASCII digits is dropped. */
  function DigitsOnly(value: string): (digits: string)
    ensures AllDigits(digits)
  {
    if value == [] then [] else (if IsDigit(value[0]) then [value[0]] else []) + DigitsOnly(value[1..])
  }

  lemma DigitsOnlyStep(s: string)
    ensures s == [] ==> DigitsOnly(s) == []
    ensures s != [] && IsDigit(s[0]) ==> DigitsOnly(s) == [s[0]] + DigitsOnly(s[1..])
    ensures s != [] && !IsDigit(s[0]) ==> DigitsOnly(s) == DigitsOnly(s[1..])
  {
  }

  lemma {:induction false} DigitsOnlyOfConcat(a: string, b: string)
    ensures DigitsOnly(a + b) == DigitsOnly(a) + DigitsOnly(b)
  {
    hide DigitsOnly;
    DigitsOnlyStep(a);
    DigitsOnlyStep(a + b);
    if a == [] {
      assert a + b == b;
    } else {
      assert (a + b)[1..] == a[1..] + b;
      DigitsOnlyOfConcat(a[1..], b);
    }
  }

  lemma {:induction false} DigitsOnlyOfDigits(s: string)
    requires AllDigits(s)
    ensures DigitsOnly(s) == s
  {
    if s != [] {
      DigitsOnlyOfDigits(s[1..]);
    }
  }

  lemma {:induction false} DigitsOnlyOfOthers(s: string)
    requires forall i :: 0 <= i < |s| ==> !IsDigit(s[i])
    ensures DigitsOnly(s) == []
  {
    if s != [] {
      DigitsOnlyOfOthers(s[1..]);
    }
  }

  // ---- the checksum ------------------------------------------------------------------------

  predicate IsTens(n: int) {
    n % 10 == 0
  }

  predicate IsOdd(n: nat) {
    n % 2 == 1
  }

  /** Multiples of ten less than ten apart are equal. */
  lemma NearestTens(m: int, n: int)
    requires IsTens(m) && -9 <= m - n <= 9
    ensures IsTens(n) <==> m == n
  {
  }

  function DigitSum(n: nat): nat {
    if n < 10 then n else n % 10 + DigitSum(n / 10)
  }

  /**
   * Annex B of ISO/IEC 7812-1: what a digit adds, `place` counted from the right starting at 0. Every other digit is
   * doubled, and the digits of the product are added.
   */
  function Weight(place: nat, d: nat): nat {
    if IsOdd(place) then DigitSum(2 * d) else d
  }

  /** The sum for digits that stand to the left of `place` further ones. */
  function LuhnSum(digits: string, place: nat): nat
    requires AllDigits(digits)
  {
    if digits == [] then 0
    else Weight(place + |digits| - 1, DigitValue(digits[0])) + LuhnSum(digits[1..], place)
  }

  predicate IsAccepted(cardNumber: string) {
    var digits := DigitsOnly(cardNumber);
    12 <= |digits| <= 19 && IsTens(LuhnSum(digits, 0))
  }

  lemma DoubledDigit(d: nat)
    requires d <= 9
    ensures DigitSum(2 * d) == if 2 * d > 9 then 2 * d - 9 else 2 * d
  {
    assert 2 * d >= 10 ==> (2 * d) / 10 == 1;
  }

  lemma LuhnSumFrom(digits: string, i: nat)
    requires AllDigits(digits) && i < |digits|
    ensures DigitValue(digits[i]) <= 9
    ensures LuhnSum(digits[i..], 0) == Weight(|digits| - 1 - i, DigitValue(digits[i])) + LuhnSum(digits[i + 1..], 0)
    ensures Weight(|digits| - 1 - i, DigitValue(digits[i]))
         == if !IsOdd(|digits| - 1 - i) then DigitValue(digits[i])
            else if 2 * DigitValue(digits[i]) > 9 then 2 * DigitValue(digits[i]) - 9 else 2 * DigitValue(digits[i])
  {
    hide DigitSum, IsOdd;
    assert digits[i..][1..] == digits[i + 1..];
    DoubledDigit(DigitValue(digits[i]));
  }

  method LuhnCheck(cardNumber: string) returns (ok: bool)
    ensures ok <==> IsAccepted(cardNumber)
  {
    hide DigitSum, DigitsOnly, Weight, LuhnSum, DigitValue;
    var digits := DigitsOnly(cardNumber);
    if |digits| < 12 || |digits| > 19 {
      return false;
    }
    var sum := 0;
    var shouldDouble := false;
    var i := |digits| - 1;
    EmptySum();
    assert digits[i + 1..] == "";
    while i >= 0
      invariant -1 <= i < |digits|
      invariant shouldDouble <==> IsOdd(|digits| - 1 - i)
      invariant sum == LuhnSum(digits[i + 1..], 0)
    {
      var digit := DigitValue(digits[i]);
      LuhnSumFrom(digits, i);
      if shouldDouble {
        digit := digit * 2;
        if digit > 9 {
          digit := digit - 9;
        }
      }
      sum := sum + digit;
      shouldDouble := !shouldDouble;
      i := i - 1;
    }
    assert digits[0..] == digits;
    return sum % 10 == 0;
  }

  /** How many of the characters are digits. */
  lemma {:induction false} DigitsAreCounted(s: string)
    ensures |DigitsOnly(s)| == |set i | 0 <= i < |s| && IsDigit(s[i])|
  {
    if s != [] {
      var n := |s| - 1;
      DigitsAreCounted(s[..n]);
      DigitsOnlyOfConcat(s[..n], [s[n]]);
      DigitsOnlyStep([s[n]]);
      assert s == s[..n] + [s[n]];
      var before := set i | 0 <= i < n && IsDigit(s[..n][i]);
      assert (set i | 0 <= i < |s| && IsDigit(s[i])) == if IsDigit(s[n]) then before + {n} else before;
    }
  }

  /** With fewer than 12 or more than 19 digits no text is accepted; what stands between the digits does not matter. */
  lemma WrongLengthIsRejected(cardNumber: string)
    ensures IsAccepted(cardNumber) ==> 12 <= |set i | 0 <= i < |cardNumber| && IsDigit(cardNumber[i])| <= 19
    ensures IsAccepted(DigitsOnly(cardNumber)) <==> IsAccepted(cardNumber)
  {
    DigitsAreCounted(cardNumber);
    DigitsOnlyOfDigits(DigitsOnly(cardNumber));
  }

  lemma {:induction false} LuhnSumOfConcat(a: string, b: string, place: nat)
    requires AllDigits(a) && AllDigits(b)
    ensures LuhnSum(a + b, place) == LuhnSum(a, place + |b|) + LuhnSum(b, place)
  {
    if a == [] {
      assert a + b == b;
    } else {
      assert (a + b)[1..] == a[1..] + b;
      LuhnSumOfConcat(a[1..], b, place);
    }
  }

  lemma LuhnSumOfOne(c: char, place: nat)
    requires IsDigit(c)
    ensures LuhnSum([c], place) == Weight(place, DigitValue(c))
  {
    assert [c][1..] == [];
  }

  /** At either kind of place different digits add different amounts, all below ten. */
  lemma WeightIsInjective(place: nat, x: nat, y: nat)
    requires x <= 9 && y <= 9
    ensures Weight(place, x) <= 9 && Weight(place, y) <= 9
    ensures Weight(place, x) == Weight(place, y) <==> x == y
  {
    hide DigitSum, IsOdd;
    DoubledDigit(x);
    DoubledDigit(y);
  }

  /** The digits around one digit of the input. */
  lemma DigitsAround(before: string, c: char, after: string)
    requires IsDigit(c)
    ensures DigitsOnly(before + [c] + after) == DigitsOnly(before) + [c] + DigitsOnly(after)
    ensures LuhnSum(DigitsOnly(before + [c] + after), 0)
         == LuhnSum(DigitsOnly(before), |DigitsOnly(after)| + 1) + Weight(|DigitsOnly(after)|, DigitValue(c))
             + LuhnSum(DigitsOnly(after), 0)
  {
    var a, b := DigitsOnly(before), DigitsOnly(after);
    DigitsOnlyOfConcat(before + [c], after);
    DigitsOnlyOfConcat(before, [c]);
    DigitsOnlyOfDigits([c]);
    LuhnSumOfConcat(a + [c], b, 0);
    LuhnSumOfConcat(a, [c], |b|);
    LuhnSumOfOne(c, |b|);
  }

  /** Mistyping one digit of an accepted number is always noticed. */
  lemma SingleDigitErrorIsRejected(cardNumber: string, i: nat, c: char)
    requires IsAccepted(cardNumber) && i < |cardNumber| && IsDigit(cardNumber[i]) && IsDigit(c)
    ensures IsAccepted(cardNumber[i := c]) <==> c == cardNumber[i]
  {
    hide IsTens, LuhnSum, Weight, DigitsOnly;
    var before, after := cardNumber[..i], cardNumber[i + 1..];
    assert cardNumber == before + [cardNumber[i]] + after;
    assert cardNumber[i := c] == before + [c] + after;
    DigitsAround(before, cardNumber[i], after);
    DigitsAround(before, c, after);
    WeightIsInjective(|DigitsOnly(after)|, DigitValue(cardNumber[i]), DigitValue(c));
    NearestTens(LuhnSum(DigitsOnly(cardNumber), 0), LuhnSum(DigitsOnly(cardNumber[i := c]), 0));
  }

  /** The digits around two neighbouring digits of the input, whatever separates them. */
  lemma DigitsAroundTwo(before: string, x: char, gap: string, y: char, after: string)
    requires IsDigit(x) && IsDigit(y) && forall i :: 0 <= i < |gap| ==> !IsDigit(gap[i])
    ensures DigitsOnly(before + [x] + gap + [y] + after) == DigitsOnly(before) + [x] + [y] + DigitsOnly(after)
  {
    hide DigitsOnly;
    DigitsOnlyOfOthers(gap);
    DigitsOnlyOfConcat(before + [x] + gap + [y], after);
    DigitsOnlyOfConcat(before + [x] + gap, [y]);
    DigitsOnlyOfConcat(before + [x], gap);
    DigitsOnlyOfConcat(before, [x]);
    DigitsOnlyOfDigits([x]);
    DigitsOnlyOfDigits([y]);
  }

  lemma AppendedDigit(a: string, c: char, place: nat)
    requires AllDigits(a) && IsDigit(c)
    ensures AllDigits(a + [c])
    ensures LuhnSum(a + [c], place) == LuhnSum(a, place + 1) + Weight(place, DigitValue(c))
  {
    hide LuhnSum, Weight;
    LuhnSumOfConcat(a, [c], place);
    LuhnSumOfOne(c, place);
  }

  lemma SumAroundTwo(a: string, x: char, y: char, b: string)
    requires AllDigits(a) && AllDigits(b) && IsDigit(x) && IsDigit(y)
    ensures LuhnSum(a + [x] + [y] + b, 0)
         == LuhnSum(a, |b| + 2) + Weight(|b| + 1, DigitValue(x)) + Weight(|b|, DigitValue(y)) + LuhnSum(b, 0)
  {
    hide LuhnSum, Weight;
    AppendedDigit(a, x, |b| + 1);
    AppendedDigit(a + [x], y, |b|);
    LuhnSumOfConcat(a + [x] + [y], b, 0);
  }

  /**
   * Swapping two neighbouring digits of an accepted number goes unnoticed exactly when they are equal or are 0 and 9.
   */
  lemma NeighbourSwapIsRejected(before: string, x: char, gap: string, y: char, after: string)
    requires IsDigit(x) && IsDigit(y) && forall i :: 0 <= i < |gap| ==> !IsDigit(gap[i])
    requires IsAccepted(before + [x] + gap + [y] + after)
    ensures IsAccepted(before + [y] + gap + [x] + after) <==> x == y || {x, y} == {'0', '9'}
  {
    hide IsTens, LuhnSum, Weight, DigitsOnly;
    var a, b := DigitsOnly(before), DigitsOnly(after);
    DigitsAroundTwo(before, x, gap, y, after);
    DigitsAroundTwo(before, y, gap, x, after);
    SumAroundTwo(a, x, y, b);
    SumAroundTwo(a, y, x, b);
    SwappedWeights(|b|, DigitValue(x), DigitValue(y));
    NearestTens(LuhnSum(a + [x] + [y] + b, 0), LuhnSum(a + [y] + [x] + b, 0));
  }

  lemma SwappedWeights(place: nat, x: nat, y: nat)
    requires x <= 9 && y <= 9
    ensures var was, now := Weight(place + 1, x) + Weight(place, y), Weight(place + 1, y) + Weight(place, x);
            -9 <= was - now <= 9 && (was == now <==> x == y || (x == 0 && y == 9) || (x == 9 && y == 0))
  {
    hide DigitSum, IsOdd;
    DoubledDigit(x);
    DoubledDigit(y);
    OddIsNext(place);
  }

  lemma OddIsNext(n: nat)
    ensures IsOdd(n + 1) <==> !IsOdd(n)
  {
  }

  lemma EmptySum()
    ensures LuhnSum("", 0) == 0
  {
  }

  function CheckDigit(prefix: string): char {
    ('0' as int + (10 - LuhnSum(DigitsOnly(prefix), 1) % 10) % 10) as char
  }

  /** Each prefix of the right length is completed by exactly one check digit. */
  lemma OneCheckDigit(prefix: string, c: char)
    requires 11 <= |DigitsOnly(prefix)| <= 18 && IsDigit(c)
    ensures IsDigit(CheckDigit(prefix))
    ensures IsAccepted(prefix + [c]) <==> c == CheckDigit(prefix)
  {
    hide LuhnSum, DigitsOnly, DigitSum;
    DigitsAround(prefix, c, "");
    DigitsOnlyOfOthers("");
    EmptySum();
    assert prefix + [c] + "" == prefix + [c];
    CheckDigitArithmetic(LuhnSum(DigitsOnly(prefix), 1), DigitValue(c));
  }

  lemma CheckDigitArithmetic(sum: nat, d: nat)
    requires d <= 9
    ensures (sum + d) % 10 == 0 <==> d == (10 - sum % 10) % 10
  {
  }

  // ---- brands ----------------------------------------------------------------------------------

  datatype CardBrand = Visa | Mastercard | AmericanExpress | Discover | Unknown

  function BrandOfDigits(d: string): CardBrand {
    if |d| >= 1 && d[0] == '4' then Visa
    else if || (|d| >= 2 && d[0] == '5' && '1' <= d[1] <= '5')
            || (|d| >= 3 && d[0] == '2' && d[1] == '2' && '2' <= d[2] <= '9')
            || (|d| >= 3 && d[0] == '2' && '3' <= d[1] <= '6' && IsDigit(d[2]))
            || (|d| >= 3 && d[0] == '2' && d[1] == '7' && '0' <= d[2] <= '1')
            || (|d| >= 4 && d[0] == '2' && d[1] == '7' && d[2] == '2' && d[3] == '0') then Mastercard
    else if |d| >= 2 && d[0] == '3' && (d[1] == '4' || d[1] == '7') then AmericanExpress
    else if || (|d| >= 4 && d[0] == '6' && d[1] == '0' && d[2] == '1' && d[3] == '1')
            || (|d| >= 2 && d[0] == '6' && d[1] == '5') then Discover
    else Unknown
  }

  function DetectCardBrand(cardNumber: string): CardBrand {
    BrandOfDigits(DigitsOnly(cardNumber))
  }

  function FirstFour(d: string): nat
    requires AllDigits(d) && |d| >= 4
  {
    1000 * DigitValue(d[0]) + 100 * DigitValue(d[1]) + 10 * DigitValue(d[2]) + DigitValue(d[3])
  }

  function BrandByNumber(n: nat): CardBrand {
    if 4000 <= n <= 4999 then Visa
    else if 5100 <= n <= 5599 || 2220 <= n <= 2720 then Mastercard
    else if 3400 <= n <= 3499 || 3700 <= n <= 3799 then AmericanExpress
    else if n == 6011 || 6500 <= n <= 6599 then Discover
    else Unknown
  }

  /** The prefixes are number ranges over the first four digits. */
  lemma BrandIsByRange(cardNumber: string)
    requires |DigitsOnly(cardNumber)| >= 4
    ensures DetectCardBrand(cardNumber) == BrandByNumber(FirstFour(DigitsOnly(cardNumber)))
  {
    hide BrandByNumber, DigitsOnly;
    var d := DigitsOnly(cardNumber);
    NumberByDigits(DigitValue(d[0]), DigitValue(d[1]), DigitValue(d[2]), DigitValue(d[3]));
  }

  lemma NumberByDigits(a: nat, b: nat, c: nat, d: nat)
    requires a <= 9 && b <= 9 && c <= 9 && d <= 9
    ensures BrandByNumber(1000 * a + 100 * b + 10 * c + d) ==
            if a == 4 then Visa
            else if a == 5 then (if 1 <= b <= 5 then Mastercard else Unknown)
            else if a == 2 then
              (if (b == 2 && 2 <= c) || 3 <= b <= 6 || (b == 7 && c <= 1) || (b == 7 && c == 2 && d == 0)
               then Mastercard else Unknown)
            else if a == 3 then (if b == 4 || b == 7 then AmericanExpress else Unknown)
            else if a == 6 then (if (b == 0 && c == 1 && d == 1) || b == 5 then Discover else Unknown)
            else Unknown
  {
  }

  /** The same for fewer digits: a brand is shown as soon as its prefix is complete. */
  lemma ShortBrandIsByRange(cardNumber: string)
    ensures var d := DigitsOnly(cardNumber);
            && (|d| == 0 ==> DetectCardBrand(cardNumber) == Unknown)
            && (|d| == 1 ==> DetectCardBrand(cardNumber) == if DigitValue(d[0]) == 4 then Visa else Unknown)
            && (|d| == 2 ==>
                  var n := 10 * DigitValue(d[0]) + DigitValue(d[1]);
                  DetectCardBrand(cardNumber) ==
                    if 40 <= n <= 49 then Visa else if 51 <= n <= 55 then Mastercard
                    else if n == 34 || n == 37 then AmericanExpress else if n == 65 then Discover else Unknown)
            && (|d| == 3 ==>
                  var n := 100 * DigitValue(d[0]) + 10 * DigitValue(d[1]) + DigitValue(d[2]);
                  DetectCardBrand(cardNumber) ==
                    if 400 <= n <= 499 then Visa else if 510 <= n <= 559 || 222 <= n <= 271 then Mastercard
                    else if 340 <= n <= 349 || 370 <= n <= 379 then AmericanExpress
                    else if 650 <= n <= 659 then Discover else Unknown)
  {
    hide DigitsOnly;
  }

  /** Typing on never changes a brand that is shown. */
  lemma BrandIsFinal(typed: string, more: string)
    requires DetectCardBrand(typed) != Unknown
    ensures DetectCardBrand(typed + more) == DetectCardBrand(typed)
  {
    hide DigitsOnly;
    DigitsOnlyOfConcat(typed, more);
  }

  // ---- grouping ---------------------------------------------------------------------------------

  /** The groups of four; the last may be shorter. */
  function Fours(digits: string): seq<string> {
    if digits == [] then []
    else if |digits| <= 4 then [digits]
    else [digits[..4]] + Fours(digits[4..])
  }

  function Join(parts: seq<string>): string {
    if parts == [] then []
    else if |parts| == 1 then parts[0]
    else parts[0] + " " + Join(parts[1..])
  }

  function Slice(s: string, from: nat, to: nat): string
    requires from <= to
  {
    if |s| <= from then [] else if |s| <= to then s[from..] else s[from..to]
  }

  function NonEmpty(parts: seq<string>): seq<string> {
    if parts == [] then [] else (if parts[0] != [] then [parts[0]] else []) + NonEmpty(parts[1..])
  }

  function FormatCardNumber(value: string): string {
    var digits := Slice(DigitsOnly(value), 0, 19);
    if DetectCardBrand(digits) == AmericanExpress
    then Join(NonEmpty([Slice(digits, 0, 4), Slice(digits, 4, 10), Slice(digits, 10, 15)]))
    else Join(Fours(digits))
  }

  /** The digits that are shown: fifteen for American Express, nineteen otherwise. */
  function Shown(value: string): string {
    Slice(DigitsOnly(value), 0, if IsAmex(value) then 15 else 19)
  }

  predicate IsAmex(value: string) {
    var digits := DigitsOnly(value);
    |digits| >= 2 && digits[0] == '3' && (digits[1] == '4' || digits[1] == '7')
  }

  lemma AmexByPrefix(value: string)
    ensures DetectCardBrand(Slice(DigitsOnly(value), 0, 19)) == AmericanExpress <==> IsAmex(value)
  {
    hide DigitsOnly, BrandOfDigits;
    var d := Slice(DigitsOnly(value), 0, 19);
    DigitsOnlyOfDigits(d);
    AmexDigits(d);
  }

  lemma AmexDigits(d: string)
    ensures BrandOfDigits(d) == AmericanExpress <==> |d| >= 2 && d[0] == '3' && (d[1] == '4' || d[1] == '7')
  {
  }

  lemma {:induction false} FoursKeepDigits(digits: string)
    requires AllDigits(digits)
    ensures DigitsOnly(Join(Fours(digits))) == digits
  {
    if |digits| <= 4 {
      DigitsOnlyOfDigits(digits);
    } else {
      var head, tail := digits[..4], digits[4..];
      FoursKeepDigits(tail);
      assert Fours(tail) != [];
      assert Fours(digits)[1..] == Fours(tail);
      DigitsOnlyOfConcat(head + " ", Join(Fours(tail)));
      DigitsOnlyOfConcat(head, " ");
      DigitsOnlyOfDigits(head);
      DigitsOnlyOfOthers(" ");
      assert digits == head + tail;
    }
  }

  /** The three American Express groups, written out. */
  lemma AmexGroups(digits: string)
    requires |digits| >= 2
    ensures Join(NonEmpty([Slice(digits, 0, 4), Slice(digits, 4, 10), Slice(digits, 10, 15)]))
         == if |digits| <= 4 then digits
            else if |digits| <= 10 then digits[..4] + " " + digits[4..]
            else digits[..4] + " " + digits[4..10] + " " + Slice(digits, 10, 15)
  {
    var a, b, c := Slice(digits, 0, 4), Slice(digits, 4, 10), Slice(digits, 10, 15);
    assert [a, b, c][1..] == [b, c] && [b, c][1..] == [c] && [c][1..] == [];
    assert NonEmpty([c]) == if c != [] then [c] else [];
    assert NonEmpty([b, c]) == (if b != [] then [b] else []) + NonEmpty([c]);
    if |digits| <= 4 {
      assert NonEmpty([a, b, c]) == [a];
    } else if |digits| <= 10 {
      assert NonEmpty([a, b, c]) == [a, b];
      assert [a, b][1..] == [b];
    } else {
      assert NonEmpty([a, b, c]) == [a, b, c];
      assert Join([c]) == c && Join([b, c]) == b + " " + c;
      assert Join([a, b, c]) == a + " " + (b + " " + c);
    }
  }

  lemma AmexKeepsDigits(digits: string)
    requires |digits| >= 2 && AllDigits(digits)
    ensures DigitsOnly(Join(NonEmpty([Slice(digits, 0, 4), Slice(digits, 4, 10), Slice(digits, 10, 15)])))
            == Slice(digits, 0, 15)
  {
    hide DigitsOnly, Join, NonEmpty;
    AmexGroups(digits);
    if |digits| <= 4 {
      DigitsOnlyOfDigits(digits);
    } else {
      DigitsOnlyOfDigits(digits[..4]);
      DigitsOnlyOfOthers(" ");
      DigitsOnlyOfConcat(digits[..4], " ");
      if |digits| <= 10 {
        DigitsOnlyOfDigits(digits[4..]);
        DigitsOnlyOfConcat(digits[..4] + " ", digits[4..]);
      } else {
        var last := Slice(digits, 10, 15);
        DigitsOnlyOfDigits(digits[4..10]);
        DigitsOnlyOfDigits(last);
        DigitsOnlyOfConcat(digits[..4] + " ", digits[4..10]);
        DigitsOnlyOfConcat(digits[..4] + " " + digits[4..10], " ");
        DigitsOnlyOfConcat(digits[..4] + " " + digits[4..10] + " ", last);
        assert digits[..4] + digits[4..10] + last == Slice(digits, 0, 15);
      }
    }
  }

  /** Stripping what is shown gives back the digits typed, up to the longest number of the brand. */
  lemma FormatKeepsDigits(value: string)
    ensures DigitsOnly(FormatCardNumber(value)) == Shown(value)
  {
    var digits := Slice(DigitsOnly(value), 0, 19);
    AmexByPrefix(value);
    if IsAmex(value) {
      AmexKeepsDigits(digits);
      assert Slice(digits, 0, 15) == Shown(value);
    } else {
      FoursKeepDigits(digits);
    }
  }

  /** Formatting what is already formatted changes nothing. */
  lemma FormatIsIdempotent(value: string)
    ensures FormatCardNumber(FormatCardNumber(value)) == FormatCardNumber(value)
  {
    hide Fours, Join, NonEmpty, DetectCardBrand;
    var once := FormatCardNumber(value);
    var digits, digits' := Slice(DigitsOnly(value), 0, 19), Slice(DigitsOnly(once), 0, 19);
    FormatKeepsDigits(value);
    AmexByPrefix(value);
    AmexByPrefix(once);
    assert IsAmex(once) <==> IsAmex(value);
    if IsAmex(value) {
      assert Slice(digits', 0, 4) == Slice(digits, 0, 4) && Slice(digits', 4, 10) == Slice(digits, 4, 10)
             && Slice(digits', 10, 15) == Slice(digits, 10, 15);
    } else {
      assert digits' == digits;
    }
  }

  /** A number that fits its brand is accepted formatted exactly when it is accepted as typed. */
  lemma FormatKeepsChecksum(value: string)
    requires |DigitsOnly(value)| <= if IsAmex(value) then 15 else 19
    ensures IsAccepted(FormatCardNumber(value)) <==> IsAccepted(value)
  {
    FormatKeepsDigits(value);
  }

  lemma {:induction false} FoursShape(digits: string)
    requires AllDigits(digits)
    ensures var s := Join(Fours(digits));
            && |s| == |digits| + (if digits == [] then 0 else (|digits| - 1) / 4)
            && (forall i :: 0 <= i < |s| ==> (s[i] == ' ' <==> i % 5 == 4))
            && (forall i :: 0 <= i < |s| && s[i] != ' ' ==> IsDigit(s[i]))
  {
    if |digits| > 4 {
      var head, tail := digits[..4], digits[4..];
      FoursShape(tail);
      assert Fours(tail) != [];
      assert Fours(digits)[1..] == Fours(tail);
      var s, rest := Join(Fours(digits)), Join(Fours(tail));
      assert s == head + " " + rest;
      forall i | 0 <= i < |s| ensures (s[i] == ' ' <==> i % 5 == 4) && (s[i] != ' ' ==> IsDigit(s[i])) {
        if i >= 5 {
          assert s[i] == rest[i - 5] && i % 5 == (i - 5) % 5;
        }
      }
    }
  }

  /**
   * Where the spaces are: after every fourth digit, for American Express after the fourth and the tenth; never at the
   * end.
   */
  lemma SpacesAreByGroup(value: string)
    ensures var s := FormatCardNumber(value);
            && (forall i :: 0 <= i < |s| ==> (s[i] == ' ' <==> if IsAmex(value) then i == 4 || i == 11 else i % 5 == 4))
            && (s != [] ==> s[|s| - 1] != ' ')
            && (forall i :: 0 <= i < |s| && s[i] != ' ' ==> IsDigit(s[i]))
  {
    hide Fours, Join, NonEmpty, DigitsOnly, DetectCardBrand;
    var digits := Slice(DigitsOnly(value), 0, 19);
    AmexByPrefix(value);
    if IsAmex(value) {
      AmexGroups(digits);
      AmexShape(digits);
    } else {
      FoursShape(digits);
      LastIsNotSpace(|digits|);
    }
  }

  lemma AmexShape(digits: string)
    requires 2 <= |digits| <= 19 && AllDigits(digits)
    ensures var s := if |digits| <= 4 then digits
                     else if |digits| <= 10 then digits[..4] + " " + digits[4..]
                     else digits[..4] + " " + digits[4..10] + " " + Slice(digits, 10, 15);
            && (forall i :: 0 <= i < |s| ==> (s[i] == ' ' <==> i == 4 || i == 11)) && s[|s| - 1] != ' '
            && (forall i :: 0 <= i < |s| && s[i] != ' ' ==> IsDigit(s[i]))
  {
    if |digits| > 10 {
      assert AllDigits(digits[..4]) && AllDigits(digits[4..10]) && AllDigits(Slice(digits, 10, 15));
      ThreeGroups(digits[..4], digits[4..10], Slice(digits, 10, 15));
    } else if |digits| > 4 {
      assert AllDigits(digits[..4]) && AllDigits(digits[4..]);
    }
  }

  lemma ThreeGroups(a: string, b: string, c: string)
    requires |a| == 4 && |b| == 6 && 0 < |c| <= 5 && AllDigits(a) && AllDigits(b) && AllDigits(c)
    ensures var s := a + " " + b + " " + c;
            && (forall i :: 0 <= i < |s| ==> (s[i] == ' ' <==> i == 4 || i == 11)) && s[|s| - 1] != ' '
            && (forall i :: 0 <= i < |s| && s[i] != ' ' ==> IsDigit(s[i]))
  {
  }

  lemma LastIsNotSpace(n: nat)
    ensures n > 0 ==> (n + (n - 1) / 4 - 1) % 5 != 4
  {
    if n > 0 {
      var q, r := (n - 1) / 4, (n - 1) % 4;
      assert n + q - 1 == 5 * q + r;
    }
  }
}
