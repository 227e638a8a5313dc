// The few string operations of the JavaScript library the modelled code relies on.
module Text {

  datatype Option<+T> = None | Some(value: T)

  predicate IsDigit(ch: char) {
    '0' <= ch <= '9'
  }

  /** White space and line terminators as String.prototype.trim removes them (section 22.1.3.32 of ECMA-262). */
  predicate IsSpace(ch: char) {
    || '\t' <= ch <= '\r' || ch == ' '
    || ch == '\U{00A0}' || ch == '\U{1680}' || '\U{2000}' <= ch <= '\U{200A}'
    || ch == '\U{2028}' || ch == '\U{2029}' || ch == '\U{202F}' || ch == '\U{205F}'
    || ch == '\U{3000}' || ch == '\U{FEFF}'
  }

  function TrimStart(s: string): string {
    if s != [] && IsSpace(s[0]) then TrimStart(s[1..]) else s
  }

  function TrimEnd(s: string): string {
    if s != [] && IsSpace(s[|s| - 1]) then TrimEnd(s[..|s| - 1]) else s
  }

  function Trim(s: string): string {
    TrimEnd(TrimStart(s))
  }

  /** A string that neither begins nor ends with white space is its own trim. */
  lemma TrimOfTrimmed(s: string)
    requires s == [] || (!IsSpace(s[0]) && !IsSpace(s[|s| - 1]))
    ensures Trim(s) == s
  {
  }

  /** Trimming twice is trimming once. */
  lemma TrimIsTrimmed(s: string)
    ensures Trim(Trim(s)) == Trim(s)
  {
    StartIsTrimmed(s);
    EndIsTrimmed(TrimStart(s));
    TrimOfTrimmed(Trim(s));
  }

  lemma {:induction false} StartIsTrimmed(s: string)
    ensures TrimStart(s) != [] ==> !IsSpace(TrimStart(s)[0])
  {
    if s != [] && IsSpace(s[0]) {
      StartIsTrimmed(s[1..]);
    }
  }

  lemma {:induction false} EndIsTrimmed(s: string)
    ensures TrimEnd(s) <= s
    ensures TrimEnd(s) != [] ==> !IsSpace(TrimEnd(s)[|TrimEnd(s)| - 1])
  {
    if s != [] && IsSpace(s[|s| - 1]) {
      EndIsTrimmed(s[..|s| - 1]);
    }
  }

  /** White space on either side is dropped, and nothing else. */
  lemma {:induction false} TrimDropsSpace(before: string, s: string, after: string)
    requires (forall ch :: ch in before ==> IsSpace(ch)) && (forall ch :: ch in after ==> IsSpace(ch))
    requires s != [] && !IsSpace(s[0]) && !IsSpace(s[|s| - 1])
    ensures Trim(before + s + after) == s
    decreases |before| + |after|
  {
    hide IsSpace;
    if before != [] {
      assert before[0] in before && (before + s + after)[1..] == before[1..] + s + after;
      TrimDropsSpace(before[1..], s, after);
    } else if after != [] {
      var n := |after| - 1;
      var all := s + after;
      assert before + s + after == all && before + s + after[..n] == s + after[..n];
      assert after[n] in after && all[..|all| - 1] == s + after[..n];
      TrimDropsSpace(before, s, after[..n]);
    } else {
      assert before + s + after == s;
    }
  }

  // ---- decimal numerals ----------------------------------------------------------

  function DigitChar(d: nat): char
    requires d < 10
  {
    '0' + d as char
  }

  function DigitValue(ch: char): nat
    requires IsDigit(ch)
  {
    (ch - '0') as nat
  }

  /** String(n) of a natural number. */
  function Numeral(n: nat): string {
    if n < 10 then [DigitChar(n)] else Numeral(n / 10) + [DigitChar(n % 10)]
  }

  /** String(n) of an integer. */
  function IntNumeral(n: int): string {
    if n < 0 then "-" + Numeral(-n) else Numeral(n)
  }

  predicate AllDigits(s: string) {
    forall i :: 0 <= i < |s| ==> IsDigit(s[i])
  }

  /** Number(s) of a string of decimal digits. */
  function NumeralValue(s: string): nat
    requires AllDigits(s)
  {
    if s == [] then 0 else 10 * NumeralValue(s[..|s| - 1]) + DigitValue(s[|s| - 1])
  }

  function PadStart(s: string, width: nat): string
    decreases width - |s|
  {
    if |s| >= width then s else PadStart(['0'] + s, width)
  }

  lemma {:induction false} NumeralRoundTrip(n: nat)
    ensures AllDigits(Numeral(n)) && |Numeral(n)| >= 1
    ensures NumeralValue(Numeral(n)) == n
  {
    if n >= 10 {
      NumeralRoundTrip(n / 10);
      assert Numeral(n)[..|Numeral(n)| - 1] == Numeral(n / 10);
    }
  }

  lemma {:induction false} LeadingZero(s: string)
    requires AllDigits(s)
    ensures AllDigits(['0'] + s) && NumeralValue(['0'] + s) == NumeralValue(s)
  {
    var z := ['0'] + s;
    if s != [] {
      LeadingZero(s[..|s| - 1]);
      assert z[..|z| - 1] == ['0'] + s[..|s| - 1];
    } else {
      assert z[..0] == [];
    }
  }

  /** Padding with zeros keeps the value and reaches the width. */
  lemma {:induction false} PadKeepsValue(s: string, width: nat)
    requires AllDigits(s)
    ensures AllDigits(PadStart(s, width)) && NumeralValue(PadStart(s, width)) == NumeralValue(s)
    ensures |PadStart(s, width)| == if |s| < width then width else |s|
    decreases width - |s|
  {
    if |s| < width {
      LeadingZero(s);
      PadKeepsValue(['0'] + s, width);
    }
  }

  /** A numeral has at most `k` digits exactly when the number is below ten to the `k`. */
  lemma NumeralWidth(n: nat)
    ensures |Numeral(n)| <= 2 <==> n < 100
    ensures |Numeral(n)| <= 4 <==> n < 10000
  {
    if n >= 10 {
      assert |Numeral(n)| == |Numeral(n / 10)| + 1;
      if n >= 100 {
        assert |Numeral(n / 10)| == |Numeral(n / 100)| + 1 by { assert n / 10 / 10 == n / 100; }
        if n >= 1000 {
          assert n / 100 / 10 == n / 1000;
          assert |Numeral(n / 100)| == |Numeral(n / 1000)| + 1;
          if n >= 10000 {
            assert n / 1000 / 10 == n / 10000;
            assert |Numeral(n / 1000)| == |Numeral(n / 10000)| + 1;
            NumeralRoundTrip(n / 10000);
          }
        }
      }
    }
  }

  /** Two digit strings of the same length and value are the same string. */
  lemma {:induction false} SameWidthSameValue(s: string, t: string)
    requires AllDigits(s) && AllDigits(t) && |s| == |t| && NumeralValue(s) == NumeralValue(t)
    ensures s == t
  {
    if s != [] {
      var n := |s| - 1;
      SameWidthSameValue(s[..n], t[..n]);
      assert s == s[..n] + [s[n]] && t == t[..n] + [t[n]];
    }
  }
}
