/**
 Cash-register entry of an amount: the amount is shown as formatted money, and whatever the field
 then holds is read back from its digits alone.
 */
module MoneyEntry {
  import opened Basics
  import opened Text

  datatype PartKind = Integer | Group | DecimalMark | Fraction | Currency | Literal

  /** One element of what `Intl.NumberFormat.formatToParts` returns. */
  datatype Part = Part(kind: PartKind, value: string)

  /** A currency formatter: its number of decimals, and its parts for a whole number of major units. */
  datatype Formatter = Formatter(fractionDigits: nat, formatToParts: nat -> seq<Part>)
  {
    /** What is relied on: ASCII digits appear in the integer and fraction parts only. */
    ghost predicate Valid() {
      forall major: nat :: ShowsMajor(formatToParts(major), major, fractionDigits)
    }
  }

  function IntegerText(parts: seq<Part>): string {
    if parts == [] then ""
    else (if parts[0].kind == Integer then parts[0].value else "") + IntegerText(parts[1..])
  }

  predicate FractionFree(parts: seq<Part>) {
    forall i :: 0 <= i < |parts| ==> parts[i].kind != Fraction
  }

  /** The integer parts spell `major`; a fraction part stands after them exactly when there are decimals. */
  ghost predicate ShowsMajor(parts: seq<Part>, major: nat, fractionDigits: nat) {
    && (forall i :: 0 <= i < |parts| && parts[i].kind != Integer && parts[i].kind != Fraction
                    ==> NoDigits(parts[i].value))
    && IntegerText(parts) == Decimal(major)
    && (if fractionDigits == 0 then FractionFree(parts)
        else exists k :: FractionAt(parts, k))
  }

  ghost predicate FractionAt(parts: seq<Part>, k: int) {
    && 0 <= k < |parts| && parts[k].kind == Fraction
    && FractionFree(parts[..k]) && FractionFree(parts[k + 1..])
    && IntegerText(parts[k + 1..]) == ""
  }

  function Abs(n: int): nat {
    if n < 0 then -n else n
  }

  /** Whole major units of an amount, and the minor units beyond them. */
  function MajorAndFraction(amount: nat, scale: nat): (r: (nat, nat))
    requires scale > 0
    ensures amount == r.0 * scale + r.1 && r.1 < scale
  {
    (amount / scale, amount % scale)
  }

  /** `parts.map(part => part.type === "fraction" ? { ...part, value } : part)` */
  function WithFraction(parts: seq<Part>, value: string): seq<Part> {
    seq(|parts|, i requires 0 <= i < |parts| =>
      if parts[i].kind == Fraction then parts[i].(value := value) else parts[i])
  }

  predicate OnlySpaces(s: string) {
    s != "" && forall i :: 0 <= i < |s| ==> IsSpace(s[i])
  }

  /** White space next to the currency sign is left out. */
  predicate IsKept(parts: seq<Part>, i: nat)
    requires i < |parts|
  {
    if parts[i].kind != Literal || !OnlySpaces(parts[i].value) then true
    else !(i > 0 && parts[i - 1].kind == Currency) && !(i + 1 < |parts| && parts[i + 1].kind == Currency)
  }

  function WithoutCurrencySpacing(parts: seq<Part>, i: nat): string
    requires i <= |parts|
    decreases |parts| - i
  {
    if i == |parts| then ""
    else (if IsKept(parts, i) then parts[i].value else "") + WithoutCurrencySpacing(parts, i + 1)
  }

  /** How a negative amount is marked; `MoneyInput` uses the default. */
  datatype NegativeFormat = Minus | Parentheses

  function FormatMoneyMinor(f: Formatter, amount: int, negativeFormat: NegativeFormat := Minus): string {
    var (major, fraction) := MajorAndFraction(Abs(amount), Pow10(f.fractionDigits));
    var fractionText := PadStart(Decimal(fraction), f.fractionDigits, '0');
    var formatted := WithoutCurrencySpacing(WithFraction(f.formatToParts(major), fractionText), 0);
    if amount >= 0 then formatted
    else if negativeFormat.Parentheses? then "(" + formatted + ")"
    else "-" + formatted
  }

  /** `NumericInput`: everything but digits and minus signs is dropped. */
  function NumericChange(text: string): string {
    if text == "" then ""
    else if IsDigit(text[0]) || text[0] == '-' then [text[0]] + NumericChange(text[1..])
    else NumericChange(text[1..])
  }

  /** `MoneyInput`: nothing left means no value, otherwise the digits are the number of minor units. */
  function MoneyChange(text: string): Option<nat> {
    var next := NumericChange(text);
    if next == "" then None else Some(ReadDecimal(Digits(next)))
  }

  function Display(f: Formatter, value: Option<nat>): string {
    if value.None? then "" else FormatMoneyMinor(f, value.value)
  }

  // ----- The digits of the formatted text

  lemma {:induction false} NumericKeepsDigits(text: string)
    ensures Digits(NumericChange(text)) == Digits(text)
  {
    if text != "" {
      NumericKeepsDigits(text[1..]);
      var rest := NumericChange(text[1..]);
      assert ([text[0]] + rest)[1..] == rest;
    }
  }

  lemma {:induction false} NumericIsEmpty(text: string)
    ensures NumericChange(text) == "" <==> NoDigits(text) && '-' !in text
  {
    if text != "" {
      NumericIsEmpty(text[1..]);
      assert text == [text[0]] + text[1..];
    }
  }

  lemma Reads(text: string)
    ensures MoneyChange(text)
         == if NoDigits(text) && '-' !in text then None else Some(ReadDecimal(Digits(text)))
  {
    NumericKeepsDigits(text);
    NumericIsEmpty(text);
  }

  /** The digits of all parts from `i` on, in order. */
  function DigitsFrom(parts: seq<Part>, i: nat): string
    requires i <= |parts|
    decreases |parts| - i
  {
    if i == |parts| then "" else Digits(parts[i].value) + DigitsFrom(parts, i + 1)
  }

  lemma {:induction false} SpacingHoldsNoDigits(parts: seq<Part>, i: nat)
    requires i <= |parts|
    ensures Digits(WithoutCurrencySpacing(parts, i)) == DigitsFrom(parts, i)
    decreases |parts| - i
  {
    hide Digits;
    DigitsOfNoDigits("");
    if i < |parts| {
      SpacingHoldsNoDigits(parts, i + 1);
      var shown := if IsKept(parts, i) then parts[i].value else "";
      DigitsOfConcat(shown, WithoutCurrencySpacing(parts, i + 1));
      if !IsKept(parts, i) {
        assert NoDigits(parts[i].value);
        DigitsOfNoDigits(parts[i].value);
      }
    }
  }

  lemma {:induction false} DigitsOfFractionFree(parts: seq<Part>, all: seq<Part>, lo: int, hi: int)
    requires 0 <= lo <= hi <= |all| && hi <= |parts|
    requires forall i :: lo <= i < hi ==> parts[i] == all[i] && all[i].kind != Fraction
    requires forall i :: lo <= i < hi && all[i].kind != Integer ==> NoDigits(all[i].value)
    requires AllDigits(IntegerText(all[lo..hi]))
    ensures DigitsFrom(parts, lo) == IntegerText(all[lo..hi]) + DigitsFrom(parts, hi)
    decreases hi - lo
  {
    hide Digits;
    if lo < hi {
      assert all[lo..hi][1..] == all[lo + 1..hi];
      var head := if all[lo].kind == Integer then all[lo].value else "";
      var rest := IntegerText(all[lo + 1..hi]);
      assert IntegerText(all[lo..hi]) == head + rest;
      assert AllDigits(head) by {
        assert forall i :: 0 <= i < |head| ==> head[i] == (head + rest)[i];
      }
      assert AllDigits(rest) by {
        assert forall i :: 0 <= i < |rest| ==> rest[i] == (head + rest)[|head| + i];
      }
      DigitsOfFractionFree(parts, all, lo + 1, hi);
      DigitsOfDigits(head);
      DigitsOfNoDigits(all[lo].value);
      assert head + (rest + DigitsFrom(parts, hi)) == head + rest + DigitsFrom(parts, hi);
    } else {
      assert all[lo..hi] == [];
    }
  }

  lemma {:induction false} IntegerTextSplit(a: seq<Part>, b: seq<Part>)
    ensures IntegerText(a + b) == IntegerText(a) + IntegerText(b)
  {
    if a == [] {
      assert a + b == b;
    } else {
      assert (a + b)[1..] == a[1..] + b;
      IntegerTextSplit(a[1..], b);
    }
  }

  /** What the digits of the shown parts spell: the major units, then the fraction text if there is one. */
  lemma ShownDigits(parts: seq<Part>, major: nat, fractionDigits: nat, fractionText: string)
    requires ShowsMajor(parts, major, fractionDigits) && AllDigits(fractionText)
    ensures DigitsFrom(WithFraction(parts, fractionText), 0)
         == Decimal(major) + (if fractionDigits == 0 then "" else fractionText)
  {
    var shown := WithFraction(parts, fractionText);
    if fractionDigits == 0 {
      assert parts[0..|parts|] == parts;
      DigitsOfFractionFree(shown, parts, 0, |parts|);
    } else {
      var k :| FractionAt(parts, k);
      ShownAround(parts, k, fractionText);
    }
  }

  lemma ShownAround(parts: seq<Part>, k: int, fractionText: string)
    requires FractionAt(parts, k) && AllDigits(fractionText) && AllDigits(IntegerText(parts))
    requires forall i :: 0 <= i < |parts| && parts[i].kind != Integer && parts[i].kind != Fraction
                         ==> NoDigits(parts[i].value)
    ensures DigitsFrom(WithFraction(parts, fractionText), 0) == IntegerText(parts) + fractionText
  {
    hide Digits, IntegerText, DigitsFrom;
    var shown := WithFraction(parts, fractionText);
    FractionFreeAt(parts, k);
    ShownFront(parts, shown, k);
    ShownBack(parts, shown, k);
    DigitsOfDigits(fractionText);
    DigitsStep(shown, k);
    assert fractionText + "" == fractionText;
  }

  lemma ShownFront(parts: seq<Part>, shown: seq<Part>, k: nat)
    requires FractionAt(parts, k) && |shown| == |parts| && AllDigits(IntegerText(parts))
    requires forall i :: 0 <= i < k ==> shown[i] == parts[i] && parts[i].kind != Fraction
    requires forall i :: 0 <= i < k && parts[i].kind != Integer ==> NoDigits(parts[i].value)
    ensures DigitsFrom(shown, 0) == IntegerText(parts) + DigitsFrom(shown, k)
  {
    hide Digits, IntegerText, DigitsFrom, NoDigits;
    IntegersBeforeFraction(parts, k);
    assert parts[0..k] == parts[..k];
    DigitsOfFractionFree(shown, parts, 0, k);
  }

  lemma ShownBack(parts: seq<Part>, shown: seq<Part>, k: nat)
    requires FractionAt(parts, k) && |shown| == |parts|
    requires forall i :: k < i < |parts| ==> shown[i] == parts[i] && parts[i].kind != Fraction
    requires forall i :: k < i < |parts| && parts[i].kind != Integer ==> NoDigits(parts[i].value)
    ensures DigitsFrom(shown, k + 1) == ""
  {
    hide Digits, IntegerText, DigitsFrom, NoDigits;
    assert parts[k + 1..|parts|] == parts[k + 1..];
    DigitsOfFractionFree(shown, parts, k + 1, |parts|);
    DigitsStep(shown, |parts|);
  }

  lemma DigitsStep(parts: seq<Part>, i: nat)
    requires i <= |parts|
    ensures DigitsFrom(parts, i) == if i == |parts| then "" else Digits(parts[i].value) + DigitsFrom(parts, i + 1)
  {}

  lemma IntegersBeforeFraction(parts: seq<Part>, k: int)
    requires FractionAt(parts, k)
    ensures IntegerText(parts[..k]) == IntegerText(parts)
  {
    assert parts == parts[..k] + ([parts[k]] + parts[k + 1..]);
    IntegerTextSplit(parts[..k], [parts[k]] + parts[k + 1..]);
    assert ([parts[k]] + parts[k + 1..])[1..] == parts[k + 1..];
  }

  lemma FractionFreeAt(parts: seq<Part>, k: int)
    requires FractionAt(parts, k)
    ensures forall i :: 0 <= i < |parts| && i != k ==> parts[i].kind != Fraction
  {
    assert forall i :: 0 <= i < k ==> parts[i] == parts[..k][i];
    assert forall i :: k < i < |parts| ==> parts[i] == parts[k + 1..][i - k - 1];
  }

  lemma NoScale(fractionDigits: nat)
    ensures fractionDigits == 0 ==> Pow10(fractionDigits) == 1
  {}

  lemma NothingToPad(n: nat)
    ensures AllDigits(PadStart(Decimal(n), 0, '0'))
  {}

  /** The digits of formatted money are the amount: major units first, decimals padded to their width. */
  lemma FormattedDigits(f: Formatter, amount: int, negativeFormat: NegativeFormat := Minus)
    requires f.Valid()
    ensures Digits(FormatMoneyMinor(f, amount, negativeFormat)) != ""
    ensures ReadDecimal(Digits(FormatMoneyMinor(f, amount, negativeFormat))) == Abs(amount)
    ensures |Digits(FormatMoneyMinor(f, amount, negativeFormat))| == 1 <==> f.fractionDigits == 0 && Abs(amount) < 10
  {
    hide Digits, ReadDecimal, Decimal, ShowsMajor, Pow10, PadStart, WithoutCurrencySpacing;
    var (major, fraction) := MajorAndFraction(Abs(amount), Pow10(f.fractionDigits));
    var fractionText := PadStart(Decimal(fraction), f.fractionDigits, '0');
    var parts := f.formatToParts(major);
    assert ShowsMajor(parts, major, f.fractionDigits);
    if f.fractionDigits > 0 {
      PaddedFraction(fraction, f.fractionDigits);
      ReadOfConcat(Decimal(major), fractionText);
    } else {
      assert Decimal(major) + "" == Decimal(major);
      NothingToPad(fraction);
    }
    ReadOfDecimal(major);
    NoScale(f.fractionDigits);
    LoneDigit(f.fractionDigits, Abs(amount), major);
    ShownDigits(parts, major, f.fractionDigits, fractionText);
    var shown := WithFraction(parts, fractionText);
    SpacingHoldsNoDigits(shown, 0);
    var formatted := WithoutCurrencySpacing(shown, 0);
    MarkHoldsNoDigits(formatted);
  }

  lemma MarkHoldsNoDigits(text: string)
    ensures Digits("-" + text) == Digits(text) && Digits("(" + text + ")") == Digits(text)
  {
    hide Digits;
    DigitsOfConcat("-", text);
    DigitsOfConcat("(", text);
    DigitsOfConcat("(" + text, ")");
    DigitsOfNoDigits("-");
    DigitsOfNoDigits("(");
    DigitsOfNoDigits(")");
    assert "" + Digits(text) + "" == Digits(text);
  }

  // ----- Where the decimals stand

  /** The text of the parts from `i` to before `j`, without the white space next to the currency sign. */
  function KeptText(parts: seq<Part>, i: nat, j: nat): string
    requires i <= j <= |parts|
    decreases j - i
  {
    if i == j then "" else (if IsKept(parts, i) then parts[i].value else "") + KeptText(parts, i + 1, j)
  }

  lemma {:induction false} KeptSplits(parts: seq<Part>, i: nat, j: nat)
    requires i <= j <= |parts|
    ensures WithoutCurrencySpacing(parts, i) == KeptText(parts, i, j) + WithoutCurrencySpacing(parts, j)
    decreases j - i
  {
    hide IsKept;
    if i < j {
      KeptSplits(parts, i + 1, j);
      var head := if IsKept(parts, i) then parts[i].value else "";
      assert head + (KeptText(parts, i + 1, j) + WithoutCurrencySpacing(parts, j))
          == head + KeptText(parts, i + 1, j) + WithoutCurrencySpacing(parts, j);
    } else {
      assert "" + WithoutCurrencySpacing(parts, j) == WithoutCurrencySpacing(parts, j);
    }
  }

  lemma KeptToTheEnd(parts: seq<Part>, i: nat)
    requires i <= |parts|
    ensures WithoutCurrencySpacing(parts, i) == KeptText(parts, i, |parts|)
  {
    KeptSplits(parts, i, |parts|);
    assert KeptText(parts, i, |parts|) + "" == KeptText(parts, i, |parts|);
  }

  lemma {:induction false} KeptOfShown(parts: seq<Part>, value: string, i: nat, j: nat)
    requires i <= j <= |parts| && forall t :: i <= t < j ==> parts[t].kind != Fraction
    ensures KeptText(WithFraction(parts, value), i, j) == KeptText(parts, i, j)
    decreases j - i
  {
    if i < j {
      KeptOfShown(parts, value, i + 1, j);
      KindsOfShown(parts, value, i);
      hide IsKept, WithFraction;
    }
  }

  lemma KindsOfShown(parts: seq<Part>, value: string, i: nat)
    requires i < |parts| && parts[i].kind != Fraction
    ensures WithFraction(parts, value)[i] == parts[i] && IsKept(WithFraction(parts, value), i) == IsKept(parts, i)
  {
    hide OnlySpaces;
  }

  lemma DigitsBefore(parts: seq<Part>, i: nat, j: nat)
    requires i <= j <= |parts|
    ensures Digits(KeptText(parts, i, j)) + DigitsFrom(parts, j) == DigitsFrom(parts, i)
  {
    hide Digits, DigitsFrom, WithoutCurrencySpacing, KeptText, IsKept;
    KeptSplits(parts, i, j);
    DigitsOfConcat(KeptText(parts, i, j), WithoutCurrencySpacing(parts, j));
    SpacingHoldsNoDigits(parts, i);
    SpacingHoldsNoDigits(parts, j);
  }

  lemma SameHead(a: string, b: string, tail: string)
    requires a + tail == b + tail
    ensures a == b
  {
    assert |a| == |b|;
    assert a == (a + tail)[..|a|] == (b + tail)[..|b|] == b;
  }

  /** A fraction part is written out whatever stands beside it, and does not touch its neighbours. */
  lemma TextAround(parts: seq<Part>, k: int, value: string)
    requires FractionAt(parts, k)
    ensures WithoutCurrencySpacing(WithFraction(parts, value), 0)
         == KeptText(parts, 0, k) + value + KeptText(parts, k + 1, |parts|)
  {
    hide KeptText, WithoutCurrencySpacing;
    var shown := WithFraction(parts, value);
    FractionFreeAt(parts, k);
    KeptSplits(shown, 0, k);
    KeptStep(shown, k);
    KeptToTheEnd(shown, k + 1);
    KeptOfShown(parts, value, 0, k);
    KeptOfShown(parts, value, k + 1, |parts|);
  }

  lemma KeptStep(parts: seq<Part>, k: nat)
    requires k < |parts| && parts[k].kind == Fraction
    ensures WithoutCurrencySpacing(parts, k) == parts[k].value + WithoutCurrencySpacing(parts, k + 1)
  {}

  lemma DigitsAroundFraction(parts: seq<Part>, k: int)
    requires FractionAt(parts, k) && AllDigits(IntegerText(parts))
    requires forall i :: 0 <= i < |parts| && parts[i].kind != Integer && parts[i].kind != Fraction
                         ==> NoDigits(parts[i].value)
    ensures Digits(KeptText(parts, 0, k)) == IntegerText(parts)
    ensures NoDigits(KeptText(parts, k + 1, |parts|))
  {
    hide Digits, IntegerText, DigitsFrom, KeptText, NoDigits, AllDigits;
    FractionFreeAt(parts, k);
    DigitsBefore(parts, 0, k);
    ShownFront(parts, parts, k);
    SameHead(Digits(KeptText(parts, 0, k)), IntegerText(parts), DigitsFrom(parts, k));
    DigitsBefore(parts, k + 1, |parts|);
    ShownBack(parts, parts, k);
    DigitsOfNoDigits(KeptText(parts, k + 1, |parts|));
  }

  /**
   The decimals stand where the formatter puts its fraction, exactly as many as the currency has. What they
   read as and the digits before them, which are the whole major units, make up the amount; none follow.
   */
  lemma DecimalsStandInPlace(f: Formatter, amount: nat) returns (k: nat, front: string, fraction: string, back: string)
    requires f.Valid() && f.fractionDigits > 0
    ensures FormatMoneyMinor(f, amount) == front + fraction + back
    ensures |fraction| == f.fractionDigits && AllDigits(fraction) && NoDigits(back)
    ensures ReadDecimal(fraction) < Pow10(f.fractionDigits)
    ensures amount == ReadDecimal(Digits(front)) * Pow10(f.fractionDigits) + ReadDecimal(fraction)
    ensures var parts := f.formatToParts(ReadDecimal(Digits(front)));
            FractionAt(parts, k) && front == KeptText(parts, 0, k) && back == KeptText(parts, k + 1, |parts|)
  {
    hide Digits, ReadDecimal, Decimal, Pow10, PadStart, KeptText, FormatMoneyMinor, NoDigits, AllDigits;
    var (major, rest) := MajorAndFraction(amount, Pow10(f.fractionDigits));
    var parts := f.formatToParts(major);
    k := FractionPlace(f, major);
    fraction := PadStart(Decimal(rest), f.fractionDigits, '0');
    PaddedFraction(rest, f.fractionDigits);
    ReadOfDecimal(major);
    front, back := KeptText(parts, 0, k), KeptText(parts, k + 1, |parts|);
    FormattedIs(f, amount, major, rest);
    TextAround(parts, k, fraction);
  }

  lemma FractionPlace(f: Formatter, major: nat) returns (k: nat)
    requires f.Valid() && f.fractionDigits > 0
    ensures var parts := f.formatToParts(major);
            && FractionAt(parts, k)
            && Digits(KeptText(parts, 0, k)) == Decimal(major) && NoDigits(KeptText(parts, k + 1, |parts|))
  {
    hide Digits, Decimal, KeptText, IntegerText;
    var parts := f.formatToParts(major);
    assert ShowsMajor(parts, major, f.fractionDigits);
    k :| FractionAt(parts, k);
    DigitsAroundFraction(parts, k);
  }

  lemma FormattedIs(f: Formatter, amount: nat, major: nat, rest: nat)
    requires (major, rest) == MajorAndFraction(amount, Pow10(f.fractionDigits))
    ensures FormatMoneyMinor(f, amount)
         == WithoutCurrencySpacing(WithFraction(f.formatToParts(major), PadStart(Decimal(rest), f.fractionDigits, '0')), 0)
  {
    hide WithoutCurrencySpacing, WithFraction, PadStart, Decimal, Pow10;
  }

  /** Without decimals the text is what the formatter shows for the amount, but for white space next to the currency. */
  lemma WithoutDecimals(f: Formatter, amount: nat)
    requires f.Valid() && f.fractionDigits == 0
    ensures var parts := f.formatToParts(amount);
            FormatMoneyMinor(f, amount) == KeptText(parts, 0, |parts|)
  {
    hide WithoutCurrencySpacing, KeptText;
    NoScale(0);
    var parts := f.formatToParts(amount);
    assert ShowsMajor(parts, amount, 0);
    var value := PadStart(Decimal(0), 0, '0');
    KeptToTheEnd(WithFraction(parts, value), 0);
    KeptOfShown(parts, value, 0, |parts|);
  }

  /** The sign is put around the text of the amount without it. */
  lemma SignIsPutAround(f: Formatter, amount: int)
    ensures amount < 0 ==>
              && FormatMoneyMinor(f, amount, Minus) == "-" + FormatMoneyMinor(f, Abs(amount))
              && FormatMoneyMinor(f, amount, Parentheses) == "(" + FormatMoneyMinor(f, Abs(amount)) + ")"
    ensures amount >= 0 ==> FormatMoneyMinor(f, amount, Parentheses) == FormatMoneyMinor(f, amount, Minus)
  {}

  // ----- White space next to the currency sign

  predicate IsBlank(part: Part) {
    part.kind == Literal && OnlySpaces(part.value)
  }

  function Values(parts: seq<Part>): string {
    if parts == [] then "" else parts[0].value + Values(parts[1..])
  }

  predicate NoBlankBesideCurrency(parts: seq<Part>) {
    forall j :: 0 < j < |parts| ==>
      !(IsBlank(parts[j - 1]) && parts[j].kind == Currency) && !(parts[j - 1].kind == Currency && IsBlank(parts[j]))
  }

  lemma KeptWithoutBlanks(parts: seq<Part>, i: nat)
    requires i < |parts| && NoBlankBesideCurrency(parts)
    ensures IsKept(parts, i)
  {
    hide OnlySpaces;
    assert i > 0 ==> !(parts[i - 1].kind == Currency && IsBlank(parts[i]));
    var j := i + 1;
    assert j < |parts| ==> !(IsBlank(parts[j - 1]) && parts[j].kind == Currency);
  }

  /** Where no blank stands next to a currency sign, nothing is left out. */
  lemma {:induction false} NothingIsLost(parts: seq<Part>, i: nat)
    requires i <= |parts| && NoBlankBesideCurrency(parts)
    ensures WithoutCurrencySpacing(parts, i) == Values(parts[i..])
    decreases |parts| - i
  {
    hide IsKept, NoBlankBesideCurrency;
    if i < |parts| {
      NothingIsLost(parts, i + 1);
      KeptWithoutBlanks(parts, i);
      assert parts[i..][1..] == parts[i + 1..];
    }
  }

  /** From `i` on, the parts are those of the other list from `j` on, and the same ones are kept. */
  predicate SameRest(p: seq<Part>, i: nat, q: seq<Part>, j: nat) {
    && i <= |p| && j <= |q| && |p| - i == |q| - j
    && forall k :: i <= k < |p| ==> p[k] == q[k - i + j] && IsKept(p, k) == IsKept(q, k - i + j)
  }

  lemma {:induction false} SameFrom(p: seq<Part>, i: nat, q: seq<Part>, j: nat)
    requires SameRest(p, i, q, j)
    ensures WithoutCurrencySpacing(p, i) == WithoutCurrencySpacing(q, j)
    decreases |p| - i
  {
    hide IsKept;
    if i < |p| {
      SameNext(p, i, q, j);
      hide SameRest;
      SameFrom(p, i + 1, q, j + 1);
    }
  }

  lemma SameNext(p: seq<Part>, i: nat, q: seq<Part>, j: nat)
    requires SameRest(p, i, q, j) && i < |p|
    ensures p[i] == q[j] && IsKept(p, i) == IsKept(q, j) && SameRest(p, i + 1, q, j + 1)
  {
    hide IsKept;
  }

  lemma {:induction false} SameUpTo(p: seq<Part>, q: seq<Part>, i: nat, n: nat)
    requires i <= n <= |p| && n <= |q|
    requires forall t :: i <= t < n ==> p[t] == q[t] && IsKept(p, t) == IsKept(q, t)
    requires WithoutCurrencySpacing(p, n) == WithoutCurrencySpacing(q, n)
    ensures WithoutCurrencySpacing(p, i) == WithoutCurrencySpacing(q, i)
    decreases n - i
  {
    hide IsKept;
    if i < n { SameUpTo(p, q, i + 1, n); }
  }

  /** A blank after the currency sign makes no difference, unless another blank follows it. */
  lemma BlankAfterIsFree(a: seq<Part>, currency: Part, blank: Part, b: seq<Part>)
    requires currency.kind == Currency && IsBlank(blank) && (b == [] || !IsBlank(b[0]))
    ensures WithoutCurrencySpacing(a + [currency, blank] + b, 0) == WithoutCurrencySpacing(a + [currency] + b, 0)
  {
    hide OnlySpaces, IsBlank, WithoutCurrencySpacing;
    var p, q, n := a + [currency, blank] + b, a + [currency] + b, |a|;
    assert p[n] == currency && p[n + 1] == blank && q[n] == currency;
    assert forall k :: n + 2 <= k < |p| ==> p[k] == q[k - 1] == b[k - n - 2];
    forall k | n + 2 <= k < |p| ensures IsKept(p, k) == IsKept(q, k - 1) {
      if k == n + 2 { NotBlankIsKept(p, k); NotBlankIsKept(q, k - 1); }
    }
    SameFrom(p, n + 2, q, n + 1);
    BlankIsDropped(p, n + 1);
    CurrencyIsKept(p, n);
    CurrencyIsKept(q, n);
    SameBefore(p, q, n);
  }

  /** So does a blank before it, unless another blank precedes it. */
  lemma BlankBeforeIsFree(a: seq<Part>, currency: Part, blank: Part, b: seq<Part>)
    requires currency.kind == Currency && IsBlank(blank) && (a == [] || !IsBlank(a[|a| - 1]))
    ensures WithoutCurrencySpacing(a + [blank, currency] + b, 0) == WithoutCurrencySpacing(a + [currency] + b, 0)
  {
    hide OnlySpaces, IsBlank, WithoutCurrencySpacing;
    var p, q, n := a + [blank, currency] + b, a + [currency] + b, |a|;
    assert p[n] == blank && p[n + 1] == currency && q[n] == currency;
    assert forall k :: n + 2 <= k < |p| ==> p[k] == q[k - 1] == b[k - n - 2];
    forall k | n + 1 <= k < |p| ensures IsKept(p, k) == IsKept(q, k - 1) {
      if k == n + 1 { CurrencyIsKept(p, k); CurrencyIsKept(q, k - 1); }
    }
    SameFrom(p, n + 1, q, n);
    BlankIsDropped(p, n);
    SameBeforeBlank(p, q, n);
  }

  lemma NotBlankIsKept(parts: seq<Part>, i: nat)
    requires i < |parts| && !IsBlank(parts[i])
    ensures IsKept(parts, i)
  {}

  lemma BlankIsDropped(parts: seq<Part>, i: nat)
    requires i < |parts| && IsBlank(parts[i])
    requires (i > 0 && parts[i - 1].kind == Currency) || (i + 1 < |parts| && parts[i + 1].kind == Currency)
    ensures WithoutCurrencySpacing(parts, i) == WithoutCurrencySpacing(parts, i + 1)
  {
    assert "" + WithoutCurrencySpacing(parts, i + 1) == WithoutCurrencySpacing(parts, i + 1);
  }

  lemma CurrencyIsKept(parts: seq<Part>, i: nat)
    requires i < |parts| && parts[i].kind == Currency
    ensures IsKept(parts, i)
    ensures WithoutCurrencySpacing(parts, i) == parts[i].value + WithoutCurrencySpacing(parts, i + 1)
  {}

  /** Two lists that agree up to a currency sign, and after it, show the same. */
  lemma SameBefore(p: seq<Part>, q: seq<Part>, n: nat)
    requires n < |p| && n < |q| && forall t :: 0 <= t <= n ==> p[t] == q[t]
    requires WithoutCurrencySpacing(p, n) == WithoutCurrencySpacing(q, n)
    ensures WithoutCurrencySpacing(p, 0) == WithoutCurrencySpacing(q, 0)
  {
    hide OnlySpaces, WithoutCurrencySpacing;
    SameUpTo(p, q, 0, n);
  }

  /** Before a blank that is dropped, the last part is kept or blank in both. */
  lemma SameBeforeBlank(p: seq<Part>, q: seq<Part>, n: nat)
    requires n < |p| && n < |q| && forall t :: 0 <= t < n ==> p[t] == q[t]
    requires n > 0 ==> !IsBlank(p[n - 1])
    requires WithoutCurrencySpacing(p, n) == WithoutCurrencySpacing(q, n)
    ensures WithoutCurrencySpacing(p, 0) == WithoutCurrencySpacing(q, 0)
  {
    hide OnlySpaces, WithoutCurrencySpacing, IsBlank;
    if n > 0 {
      NotBlankIsKept(p, n - 1);
      NotBlankIsKept(q, n - 1);
    }
    forall t | 0 <= t < n ensures IsKept(p, t) == IsKept(q, t) {
      if t == n - 1 { assert IsKept(p, n - 1) && IsKept(q, n - 1); }
    }
    SameUpTo(p, q, 0, n);
  }

  /** Dollars: the sign in front, two decimals after a point. */
  const DOLLAR := Formatter(2, (major: nat) =>
    [Part(Currency, "$"), Part(Integer, Decimal(major)), Part(DecimalMark, "."), Part(Fraction, "00")])

  lemma TenTwentyFive()
    ensures DOLLAR.Valid() && FormatMoneyMinor(DOLLAR, 1025) == "$10.25"
  {
    hide WithoutCurrencySpacing, FormatMoneyMinor, WithFraction, Formatter.Valid;
    DollarIsValid();
    assert Pow10(2) == 10 * Pow10(1) && Pow10(1) == 10 * Pow10(0);
    FormattedIs(DOLLAR, 1025, 10, 25);
    TwoPlaces(1, 0);
    TwoPlaces(2, 5);
    ShownDollars();
  }

  lemma TwoPlaces(a: nat, b: nat)
    requires 0 < a < 10 && b < 10
    ensures Decimal(10 * a + b) == [DigitChar(a), DigitChar(b)] == PadStart(Decimal(10 * a + b), 2, '0')
  {
    hide Decimal, PadStart;
    var n: nat := 10 * a + b;
    DecimalStep(a, n, b);
    assert [DigitChar(a)] + [DigitChar(b)] == [DigitChar(a), DigitChar(b)];
    FullWidth([DigitChar(a), DigitChar(b)]);
  }

  lemma FullWidth(text: string)
    ensures PadStart(text, |text|, '0') == text
  {}

  lemma DecimalStep(a: nat, n: nat, b: nat)
    requires n == 10 * a + b && 0 < a < 10 && b < 10
    ensures Decimal(n) == [DigitChar(a)] + [DigitChar(b)]
  {
    assert n / 10 == a && n % 10 == b && n >= 10;
  }

  lemma ShownDollars()
    ensures WithoutCurrencySpacing(WithFraction(DOLLAR.formatToParts(10), "25"), 0) == "$10.25"
  {
    hide WithoutCurrencySpacing, Decimal, Values;
    TwoPlaces(1, 0);
    var shown := [Part(Currency, "$"), Part(Integer, "10"), Part(DecimalMark, "."), Part(Fraction, "25")];
    assert Decimal(10) == "10";
    assert WithFraction(DOLLAR.formatToParts(10), "25") == shown;
    NothingIsLost(shown, 0);
    ValuesOfFour(shown[0], shown[1], shown[2], shown[3]);
    assert shown[0..] == shown == [shown[0], shown[1], shown[2], shown[3]];
  }

  lemma ValuesOfFour(a: Part, b: Part, c: Part, d: Part)
    ensures Values([a, b, c, d]) == a.value + b.value + c.value + d.value
  {
    assert [a, b, c, d][1..] == [b, c, d] && [b, c, d][1..] == [c, d] && [c, d][1..] == [d] && [d][1..] == [];
    assert Values([d]) == d.value + "" == d.value;
    assert Values([c, d]) == c.value + d.value;
    assert Values([b, c, d]) == b.value + (c.value + d.value);
  }

  lemma DollarIsValid()
    ensures DOLLAR.Valid()
  {
    forall major: nat
      ensures ShowsMajor(DOLLAR.formatToParts(major), major, 2)
    {
      var parts := DOLLAR.formatToParts(major);
      var tail := [Part(DecimalMark, "."), Part(Fraction, "00")];
      assert parts[1..] == [Part(Integer, Decimal(major))] + tail && parts[1..][1..] == tail;
      assert tail[1..] == [Part(Fraction, "00")] && tail[1..][1..] == [];
      assert IntegerText(tail) == "";
      assert IntegerText(parts[1..]) == Decimal(major) + "" == Decimal(major);
      assert IntegerText(parts) == "" + Decimal(major) == Decimal(major);
      assert parts[4..] == [];
      assert FractionAt(parts, 3);
    }
  }

  // ----- Main results

  /** Reading a formatted amount gives the amount back, without its sign. */
  lemma MoneyRoundTrip(f: Formatter, amount: int, negativeFormat: NegativeFormat)
    requires f.Valid()
    ensures MoneyChange(FormatMoneyMinor(f, amount, negativeFormat)) == Some(Abs(amount))
  {
    FormattedDigits(f, amount, negativeFormat);
    Reads(FormatMoneyMinor(f, amount, negativeFormat));
    DigitsOfNoDigits(FormatMoneyMinor(f, amount, negativeFormat));
  }

  lemma DigitsAround(front: string, back: string, d: char)
    requires IsDigit(d) && NoDigits(back)
    ensures Digits(front + [d] + back) == Digits(front + back) + [d]
    ensures ReadDecimal(Digits(front + [d] + back)) == 10 * ReadDecimal(Digits(front + back)) + DigitValue(d)
  {
    DigitsOfNoDigits(back);
    DigitsOfConcat(front + [d], back);
    DigitsOfConcat(front, [d]);
    DigitsOfConcat(front, back);
    DigitsOfDigits([d]);
    assert Digits(front) + "" == Digits(front);
    var all := Digits(front) + [d];
    assert all + "" == all;
    assert all[..|all| - 1] == Digits(front);
  }

  /** Typing a digit anywhere after the last one shifts the amount one place to the left. */
  lemma TypingShifts(f: Formatter, value: Option<nat>, caret: nat, d: char)
    requires f.Valid() && IsDigit(d)
    requires caret <= |Display(f, value)| && NoDigits(Display(f, value)[caret..])
    ensures var shown := Display(f, value);
            MoneyChange(shown[..caret] + [d] + shown[caret..])
            == Some(10 * (if value.Some? then value.value else 0) + DigitValue(d))
  {
    hide MoneyChange, FormatMoneyMinor;
    var shown := Display(f, value);
    var front, back := shown[..caret], shown[caret..];
    assert shown == front + back;
    DigitsAround(front, back, d);
    if value.Some? { FormattedDigits(f, value.value); }
    Reads(front + [d] + back);
    assert (front + [d] + back)[caret] == d;
  }

  /** Nothing of the shown amount is left when its last digit goes. */
  predicate LosesEverything(f: Formatter, amount: nat) {
    f.fractionDigits == 0 && amount < 10 && '-' !in FormatMoneyMinor(f, amount)
  }

  /**
   Deleting the last digit of a shown amount shifts it one place to the right. The exception is a
   lone digit: without decimals, deleting it empties the field and leaves no amount instead of zero.
   */
  lemma DeletingShifts(f: Formatter, amount: nat, at: nat)
    requires f.Valid()
    requires at < |FormatMoneyMinor(f, amount)|
    requires IsDigit(FormatMoneyMinor(f, amount)[at])
    requires NoDigits(FormatMoneyMinor(f, amount)[at + 1..])
    ensures var shown := FormatMoneyMinor(f, amount);
            MoneyChange(shown[..at] + shown[at + 1..])
            == if LosesEverything(f, amount) then None else Some(amount / 10)
  {
    hide ReadDecimal, Digits, MoneyChange, FormatMoneyMinor, Decimal, Pow10;
    var shown := FormatMoneyMinor(f, amount);
    var front, back, d := shown[..at], shown[at + 1..], shown[at];
    assert shown == front + [d] + back;
    WithoutLastDigit(front, back, d);
    FormattedDigits(f, amount);
  }

  lemma WithoutLastDigit(front: string, back: string, d: char)
    requires IsDigit(d) && NoDigits(back)
    ensures var text := front + [d] + back;
            MoneyChange(front + back)
            == if |Digits(text)| == 1 && '-' !in text then None else Some(ReadDecimal(Digits(text)) / 10)
  {
    hide Digits, ReadDecimal, MoneyChange;
    var text := front + [d] + back;
    assert '-' in text <==> '-' in front + back by {
      assert d != '-';
    }
    DigitsAround(front, back, d);
    Reads(front + back);
    DigitsOfNoDigits(front + back);
    TenfoldBack(ReadDecimal(Digits(text)), ReadDecimal(Digits(front + back)), DigitValue(d));
  }

  lemma TenfoldBack(n: nat, q: nat, d: nat)
    requires n == 10 * q + d && d < 10
    ensures n / 10 == q
  {}

  lemma LoneDigit(fractionDigits: nat, amount: nat, major: nat)
    requires fractionDigits == 0 ==> major == amount
    ensures |Decimal(major)| + fractionDigits == 1 <==> fractionDigits == 0 && amount < 10
  {
    if major >= 10 {
      assert |Decimal(major)| == |Decimal(major / 10)| + 1;
    }
  }

  /** `Backspace` at the end of the field: past the digits it changes nothing. */
  lemma BackspaceAfterDigits(f: Formatter, amount: nat)
    requires f.Valid()
    ensures var shown := FormatMoneyMinor(f, amount);
            shown != "" && (!IsDigit(shown[|shown| - 1]) ==> MoneyChange(shown[..|shown| - 1]) == Some(amount))
  {
    var shown := FormatMoneyMinor(f, amount);
    FormattedDigits(f, amount);
    var front, last := shown[..|shown| - 1], shown[|shown| - 1];
    assert shown == front + [last];
    DigitsOfConcat(front, [last]);
    if !IsDigit(last) {
      DigitsOfNoDigits([last]);
      assert Digits(front) + "" == Digits(front);
      Reads(front);
      DigitsOfNoDigits(front);
    }
  }

  /** The value after typing digits one by one at the end of the field. */
  function TypeDigits(f: Formatter, value: Option<nat>, keys: string): Option<nat>
    requires AllDigits(keys)
    decreases |keys|
  {
    if keys == "" then value
    else TypeDigits(f, MoneyChange(Display(f, value) + [keys[0]]), keys[1..])
  }

  /** Like a cash register: typing the digits of a number into an empty field enters that number. */
  lemma CashRegister(f: Formatter, keys: string)
    requires f.Valid() && AllDigits(keys) && keys != ""
    ensures TypeDigits(f, None, keys) == Some(ReadDecimal(keys))
  {
    TypedSoFar(f, None, keys);
    assert "" + keys == keys;
  }

  lemma {:induction false} TypedSoFar(f: Formatter, value: Option<nat>, keys: string)
    requires f.Valid() && AllDigits(keys)
    ensures TypeDigits(f, value, keys)
         == if keys == "" then value
            else Some((if value.Some? then value.value else 0) * Pow10(|keys|) + ReadDecimal(keys))
    decreases |keys|
  {
    hide Display, MoneyChange;
    if keys != "" {
      var shown := Display(f, value);
      var before := if value.Some? then value.value else 0;
      assert shown[..|shown|] + [keys[0]] + shown[|shown|..] == shown + [keys[0]];
      TypingShifts(f, value, |shown|, keys[0]);
      TypedSoFar(f, Some(10 * before + DigitValue(keys[0])), keys[1..]);
      HeadOfRead(keys);
      Shift(before, DigitValue(keys[0]), Pow10(|keys| - 1));
    }
  }

  lemma HeadOfRead(keys: string)
    requires AllDigits(keys) && keys != ""
    ensures ReadDecimal(keys) == DigitValue(keys[0]) * Pow10(|keys| - 1) + ReadDecimal(keys[1..])
  {
    hide Pow10, ReadDecimal;
    assert [keys[0]] + keys[1..] == keys;
    ReadOfConcat([keys[0]], keys[1..]);
    ReadOfOne(keys[0]);
  }

  lemma ReadOfOne(d: char)
    requires IsDigit(d)
    ensures ReadDecimal([d]) == DigitValue(d)
  {
    assert [d][..0] == "";
  }

  lemma Shift(before: nat, d: nat, p: nat)
    ensures (10 * before + d) * p == before * (10 * p) + d * p
  {}

  /** Rupiah without group separators: no decimals, the sign in front. */
  const RUPIAH := Formatter(0, (major: nat) => [Part(Currency, "Rp"), Part(Integer, Decimal(major))])

  /** The exception is real: from "Rp5", deleting the digit leaves no value although 5 / 10 is 0. */
  lemma LoneDigitIsLost()
    ensures RUPIAH.Valid() && FormatMoneyMinor(RUPIAH, 5) == "Rp5" && MoneyChange("Rp") == None
  {
    forall major: nat
      ensures ShowsMajor(RUPIAH.formatToParts(major), major, 0)
    {
      var parts := RUPIAH.formatToParts(major);
      assert parts[1..] == [Part(Integer, Decimal(major))] && parts[1..][1..] == [];
      assert IntegerText(parts[1..]) == Decimal(major) + "" == Decimal(major);
      assert IntegerText(parts) == "" + Decimal(major) == Decimal(major);
    }
    var shown := WithFraction(RUPIAH.formatToParts(5), PadStart(Decimal(0), 0, '0'));
    assert Decimal(5) == "5";
    assert WithoutCurrencySpacing(shown, 2) == "";
    assert WithoutCurrencySpacing(shown, 1) == "5" + "" == "5";
    assert WithoutCurrencySpacing(shown, 0) == "Rp" + "5" == "Rp5";
    Reads("Rp");
  }
}
