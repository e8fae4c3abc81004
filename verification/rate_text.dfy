/** Rates as people type and read them: "11" or "5,5" for 1100 or 550 basis points. */
module RateText {
  import opened Basics
  import opened Text
  import Charges

  /** The text before and after the first decimal mark. */
  function Split(t: string): (parts: (string, Option<string>))
    ensures '.' !in parts.0 && ',' !in parts.0
    ensures parts.1.None? ==> t == parts.0
    ensures parts.1.Some? ==> t == parts.0 + "." + parts.1.value || t == parts.0 + "," + parts.1.value
  {
    if t == "" then ("", None)
    else if t[0] == '.' || t[0] == ',' then ("", Some(t[1..]))
    else
      var rest := Split(t[1..]);
      ([t[0]] + rest.0, rest.1)
  }

  predicate OneOrTwoDigits(s: string) {
    1 <= |s| <= 2 && AllDigits(s)
  }

  /** Hundredths of a percent after the mark: "5" means 50. */
  function FractionValue(fraction: string): nat
    requires AllDigits(fraction)
  {
    ReadDecimal(PadEnd(fraction, 2, '0'))
  }

  function ParseRatePercent(text: string): Option<nat> {
    ParseTrimmed(Trim(text))
  }

  /** The last step of the parser, on text that is already trimmed. */
  function ParseTrimmed(t: string): Option<nat> {
    var (whole, after) := Split(t);
    if !OneOrTwoDigits(whole) || (after.Some? && !OneOrTwoDigits(after.value)) then None
    else
      var bp := ReadDecimal(whole) * 100 + FractionValue(if after.Some? then after.value else "");
      if bp <= Charges.MAX_RATE_BP then Some(bp) else None
  }

  function StripTrailingZeros(s: string): (r: string)
    requires AllDigits(s)
    ensures AllDigits(r)
  {
    if s != "" && s[|s| - 1] == '0' then StripTrailingZeros(s[..|s| - 1]) else s
  }

  function FractionText(hundredths: nat): (r: string)
    ensures AllDigits(r)
  {
    var padded := PadStart(Decimal(hundredths), 2, '0');
    StripTrailingZeros(padded)
  }

  function FormatRatePercent(bp: nat, decimalMark: string): string {
    var fraction := FractionText(bp % 100);
    if fraction != "" then Decimal(bp / 100) + decimalMark + fraction else Decimal(bp / 100)
  }

  /** The grammar of the accepted texts: one or two digits, then maybe a mark and one or two more. */
  predicate Reads(t: string, whole: string, fraction: string, bp: nat) {
    && OneOrTwoDigits(whole) && AllDigits(fraction)
    && (if fraction == "" then t == whole
        else |fraction| <= 2 && (t == whole + "." + fraction || t == whole + "," + fraction))
    && bp == ReadDecimal(whole) * 100 + FractionValue(fraction)
    && bp <= Charges.MAX_RATE_BP
  }

  lemma {:induction false} SplitOfDigits(whole: string, rest: string)
    requires AllDigits(whole)
    requires rest == "" || rest[0] == '.' || rest[0] == ','
    ensures Split(whole + rest) == (whole, if rest == "" then None else Some(rest[1..]))
  {
    if whole == "" {
      assert whole + rest == rest;
    } else {
      assert (whole + rest)[1..] == whole[1..] + rest;
      SplitOfDigits(whole[1..], rest);
      assert [whole[0]] + whole[1..] == whole;
    }
  }

  lemma SplitOfReads(t: string, whole: string, fraction: string, bp: nat)
    requires Reads(t, whole, fraction, bp)
    ensures Split(t) == (whole, if fraction == "" then None else Some(fraction))
  {
    if fraction == "" {
      SplitOfDigits(whole, "");
      assert whole + "" == whole;
    } else {
      var mark := if t == whole + "." + fraction then "." else ",";
      SplitOfDigits(whole, mark + fraction);
      assert t == whole + (mark + fraction);
    }
  }

  /** The parser accepts exactly the grammar, and at most one reading exists. */
  lemma ParseIsTheGrammar(text: string, bp: nat)
    ensures ParseRatePercent(text) == Some(bp)
       <==> exists whole, fraction :: Reads(Trim(text), whole, fraction, bp)
  {
    hide Trim, FractionValue, ReadDecimal;
    if ParseRatePercent(text) == Some(bp) {
      ParsedReads(Trim(text), bp);
    }
    if whole, fraction :| Reads(Trim(text), whole, fraction, bp) {
      SplitOfReads(Trim(text), whole, fraction, bp);
    }
  }

  lemma ParsedReads(t: string, bp: nat)
    requires ParseTrimmed(t) == Some(bp)
    ensures exists whole, fraction :: Reads(t, whole, fraction, bp)
  {
    var (whole, after) := Split(t);
    var fraction := if after.Some? then after.value else "";
    assert Reads(t, whole, fraction, bp);
  }

  lemma FractionTextReads(n: nat)
    requires n < 100
    ensures |FractionText(n)| <= 2
    ensures FractionValue(FractionText(n)) == n
    ensures FractionText(n) == "" <==> n == 0
  {
    var a, b := DigitChar(n / 10), DigitChar(n % 10);
    var padded := PadStart(Decimal(n), 2, '0');
    assert padded == [a, b] by {
      if n >= 10 { assert Decimal(n / 10) == [a]; }
    }
    assert [a, b][..1] == [a] && [a][..0] == "";
    TwoDigits(a, b);
    assert DigitValue('0') == 0 && (b == '0' <==> n % 10 == 0) && (a == '0' <==> n / 10 == 0);
    assert Repeat('0', 1) == "0" && Repeat('0', 2) == "00";
    if b != '0' {
      assert FractionText(n) == [a, b];
    } else if a != '0' {
      assert StripTrailingZeros([a]) == [a];
      assert FractionText(n) == [a];
      assert PadEnd([a], 2, '0') == [a, b];
    } else {
      assert StripTrailingZeros([a]) == StripTrailingZeros("") == "";
      assert PadEnd("", 2, '0') == "00" == [a, b];
    }
  }

  lemma {:induction false} NoLeadingZero(n: nat)
    ensures n > 0 ==> Decimal(n)[0] != '0'
    ensures |Decimal(n)| > 1 ==> n > 0
  {
    if n >= 10 {
      NoLeadingZero(n / 10);
    }
  }

  lemma {:induction false} StrippedEnd(s: string)
    requires AllDigits(s)
    ensures var r := StripTrailingZeros(s); r != "" ==> r[|r| - 1] != '0'
  {
    if s != "" && s[|s| - 1] == '0' { StrippedEnd(s[..|s| - 1]); }
  }

  lemma TenthsOrHundredths(fraction: string)
    requires AllDigits(fraction) && 1 <= |fraction| <= 2
    ensures FractionValue(fraction) == ReadDecimal(fraction) * (if |fraction| == 1 then 10 else 1)
  {
    if |fraction| == 1 {
      assert Repeat('0', 1) == "0";
      assert PadEnd(fraction, 2, '0') == [fraction[0], '0'];
      assert (fraction + "0")[..1] == fraction;
      TwoDigits(fraction[0], '0');
      assert fraction == [fraction[0]] && [fraction[0]][..0] == "";
    }
  }

  /**
   What is printed, with any decimal mark: the whole percent without leading zeros, alone if there is
   nothing more, else followed by the mark and one or two digits of which the last is not a zero.
   */
  lemma FormatExactly(bp: nat, mark: string) returns (whole: string, fraction: string)
    ensures AllDigits(whole) && ReadDecimal(whole) == bp / 100 && whole != "" && (|whole| > 1 ==> whole[0] != '0')
    ensures FormatRatePercent(bp, mark) == if bp % 100 == 0 then whole else whole + mark + fraction
    ensures bp % 100 != 0 ==>
              && 1 <= |fraction| <= 2 && AllDigits(fraction) && fraction[|fraction| - 1] != '0'
              && ReadDecimal(fraction) * (if |fraction| == 1 then 10 else 1) == bp % 100
  {
    hide ReadDecimal, Decimal, StripTrailingZeros, PadStart, FractionValue, FractionText;
    whole, fraction := Decimal(bp / 100), FractionText(bp % 100);
    ReadOfDecimal(bp / 100);
    NoLeadingZero(bp / 100);
    FractionTextReads(bp % 100);
    FractionIsStripped(bp % 100);
    if fraction != "" { TenthsOrHundredths(fraction); }
  }

  lemma FractionIsStripped(n: nat)
    ensures var r := FractionText(n); r != "" ==> r[|r| - 1] != '0'
  {
    hide StripTrailingZeros;
    StrippedEnd(PadStart(Decimal(n), 2, '0'));
  }

  lemma TwoDigits(a: char, b: char)
    requires IsDigit(a) && IsDigit(b)
    ensures ReadDecimal([a, b]) == DigitValue(a) * 10 + DigitValue(b)
  {
    assert [a, b][..1] == [a] && [a][..0] == "";
    assert ReadDecimal([a]) == DigitValue(a);
  }

  lemma TrimKeeps(t: string)
    requires t != "" && !IsSpace(t[0]) && !IsSpace(t[|t| - 1])
    ensures Trim(t) == t
  {}

  lemma DigitIsNoSpace(c: char)
    requires IsDigit(c)
    ensures !IsSpace(c)
  {}

  lemma FormatSplits(bp: nat, mark: string)
    requires mark == "." || mark == ","
    ensures var t, fraction := FormatRatePercent(bp, mark), FractionText(bp % 100);
            Trim(t) == t && Split(t) == (Decimal(bp / 100), if fraction == "" then None else Some(fraction))
  {
    hide Decimal, FractionText, IsSpace, IsDigit, Trim;
    var t, whole, fraction := FormatRatePercent(bp, mark), Decimal(bp / 100), FractionText(bp % 100);
    assert t[0] == whole[0];
    DigitIsNoSpace(t[0]);
    if fraction == "" {
      SplitOfDigits(whole, "");
      assert whole + "" == whole;
      DigitIsNoSpace(t[|t| - 1]);
    } else {
      SplitOfDigits(whole, mark + fraction);
      assert t == whole + (mark + fraction);
      assert t[|t| - 1] == fraction[|fraction| - 1];
      DigitIsNoSpace(t[|t| - 1]);
    }
    TrimKeeps(t);
  }

  lemma TwoDigitsAtMost(n: nat)
    requires n < 100
    ensures |Decimal(n)| <= 2
  {
    assert Pow10(2) == 10 * Pow10(1) && Pow10(1) == 10 * Pow10(0);
    DecimalLength(n, 2);
  }

  /** A printed rate is accepted exactly up to the cap, and reads as the rate it was printed from. */
  lemma FormatParses(bp: nat, mark: string)
    requires mark == "." || mark == ","
    ensures ParseRatePercent(FormatRatePercent(bp, mark))
         == if bp <= Charges.MAX_RATE_BP then Some(bp) else None
  {
    hide Split, Decimal, FractionText, ReadDecimal, FractionValue, FormatRatePercent, Trim, Pow10;
    FormatSplits(bp, mark);
    FractionTextReads(bp % 100);
    ReadOfDecimal(bp / 100);
    if bp <= Charges.MAX_RATE_BP {
      TwoDigitsAtMost(bp / 100);
    }
  }

  /** Every accepted rate survives printing, with either mark, and parsing again. */
  lemma RateRoundTrip(text: string, bp: nat, mark: string)
    requires ParseRatePercent(text) == Some(bp)
    requires mark == "." || mark == ","
    ensures ParseRatePercent(FormatRatePercent(bp, mark)) == Some(bp)
  {
    FormatParses(bp, mark);
  }

  // ----- Printing never gives two rates the same text

  predicate Separates(mark: string) {
    !AllDigits(mark)
  }

  function FirstNonDigit(s: string): (k: nat)
    ensures k <= |s| && AllDigits(s[..k]) && (k < |s| ==> !IsDigit(s[k]))
  {
    if s == "" || !IsDigit(s[0]) then 0
    else
      var k := 1 + FirstNonDigit(s[1..]);
      assert s[..k] == [s[0]] + s[1..][..k - 1];
      k
  }

  /** The first non-digit of a text that starts with a numeral and the mark. */
  lemma MarkPosition(whole: string, mark: string, fraction: string, k: nat)
    requires AllDigits(whole) && k < |mark| && AllDigits(mark[..k]) && !IsDigit(mark[k])
    ensures var t := whole + mark + fraction;
            AllDigits(t[..|whole| + k]) && !IsDigit(t[|whole| + k])
  {
    var t := whole + mark + fraction;
    assert t[..|whole| + k] == whole + mark[..k];
    assert t[|whole| + k] == mark[k];
  }

  lemma SameCut(t: string, i: nat, j: nat)
    requires i < |t| && j < |t|
    requires AllDigits(t[..i]) && !IsDigit(t[i]) && AllDigits(t[..j]) && !IsDigit(t[j])
    ensures i == j
  {
    assert forall x :: 0 <= x < i ==> t[..i][x] == t[x];
    assert forall x :: 0 <= x < j ==> t[..j][x] == t[x];
  }

  lemma SameFractions(wa: string, fa: string, wb: string, fb: string, mark: string)
    requires Separates(mark) && AllDigits(wa) && AllDigits(wb)
    requires wa + mark + fa == wb + mark + fb
    ensures wa == wb && fa == fb
  {
    var k := FirstNonDigit(mark);
    MarkPosition(wa, mark, fa, k);
    MarkPosition(wb, mark, fb, k);
    var t := wa + mark + fa;
    SameCut(t, |wa| + k, |wb| + k);
    assert wa == t[..|wa|] && wb == t[..|wb|];
    assert fa == t[|wa| + |mark|..] && fb == t[|wb| + |mark|..];
  }

  lemma WithMarkIsNoNumeral(whole: string, mark: string, fraction: string)
    requires Separates(mark)
    ensures !AllDigits(whole + mark + fraction)
  {
    var i :| 0 <= i < |mark| && !IsDigit(mark[i]);
    assert (whole + mark + fraction)[|whole| + i] == mark[i];
  }

  lemma SameRate(a: nat, b: nat, mark: string)
    requires Separates(mark)
    requires FormatRatePercent(a, mark) == FormatRatePercent(b, mark)
    ensures a == b
  {
    var wa, wb := Decimal(a / 100), Decimal(b / 100);
    var fa, fb := FractionText(a % 100), FractionText(b % 100);
    WithMarkIsNoNumeral(wa, mark, fa);
    WithMarkIsNoNumeral(wb, mark, fb);
    if fa != "" && fb != "" {
      SameFractions(wa, fa, wb, fb, mark);
    }
    assert wa == wb && fa == fb;
    FractionTextReads(a % 100);
    FractionTextReads(b % 100);
    ReadOfDecimal(a / 100);
    ReadOfDecimal(b / 100);
  }

  lemma DigitMarkCollides(mark: string)
    requires !Separates(mark)
    ensures exists a: nat, b: nat :: a != b && FormatRatePercent(a, mark) == FormatRatePercent(b, mark)
  {
    FractionTextReads(50);
    assert PadStart(Decimal(50), 2, '0') == "50" by { assert Decimal(5) == "5"; }
    assert "50"[..1] == "5" && StripTrailingZeros("5") == "5";
    assert FractionText(50) == "5";
    var t := "1" + mark + "5";
    assert Decimal(1) == "1";
    assert FormatRatePercent(150, mark) == t;
    DecimalOfRead(t);
    var n := ReadDecimal(t) * 100;
    FractionTextReads(0);
    assert n / 100 == ReadDecimal(t) && n % 100 == 0;
    assert FormatRatePercent(n, mark) == t;
    assert n != 150;
  }

  /** Printing is injective over all rates exactly when the decimal mark holds something besides digits. */
  lemma FormatInjective(mark: string)
    ensures Separates(mark)
       <==> forall a: nat, b: nat :: FormatRatePercent(a, mark) == FormatRatePercent(b, mark) ==> a == b
  {
    if Separates(mark) {
      forall a: nat, b: nat | FormatRatePercent(a, mark) == FormatRatePercent(b, mark)
        ensures a == b
      {
        SameRate(a, b, mark);
      }
    } else {
      DigitMarkCollides(mark);
    }
  }
}
