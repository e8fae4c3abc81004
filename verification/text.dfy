/**
 The string operations that several of the modelled files share: trimming, padding, decimal
 numerals and the removal of characters. A `char` stands for one code unit of a JavaScript string.
 */
module Text {

  /** The white space and line terminators that `String.prototype.trim` removes. */
  predicate IsSpace(c: char) {
    || '\t' <= c <= '\r' || c == ' ' || c == '\U{00A0}' || c == '\U{1680}'
    || '\U{2000}' <= c <= '\U{200A}' || c == '\U{2028}' || c == '\U{2029}'
    || c == '\U{202F}' || c == '\U{205F}' || c == '\U{3000}' || c == '\U{FEFF}'
  }

  function TrimStart(s: string): (r: string)
    ensures r == "" || !IsSpace(r[0])
    ensures |r| <= |s| && r == s[|s| - |r|..]
  {
    if s != "" && IsSpace(s[0]) then TrimStart(s[1..]) else s
  }

  function TrimEnd(s: string): (r: string)
    ensures r == "" || !IsSpace(r[|r| - 1])
    ensures |r| <= |s| && r == s[..|r|]
  {
    if s != "" && IsSpace(s[|s| - 1]) then TrimEnd(s[..|s| - 1]) else s
  }

  function Trim(s: string): (r: string)
    ensures r != "" ==> !IsSpace(r[0]) && !IsSpace(r[|r| - 1])
  {
    TrimEnd(TrimStart(s))
  }

  predicate AllSpaces(s: string) {
    forall i :: 0 <= i < |s| ==> IsSpace(s[i])
  }

  /** By code points: tab to carriage return, the line and paragraph separators, the byte order mark, and category Zs. */
  lemma SpacesAre(c: char)
    ensures IsSpace(c) <==>
      c as int in {9, 10, 11, 12, 13, 0x20, 0xA0, 0x1680, 0x2000, 0x2001, 0x2002, 0x2003, 0x2004, 0x2005, 0x2006,
                   0x2007, 0x2008, 0x2009, 0x200A, 0x2028, 0x2029, 0x202F, 0x205F, 0x3000, 0xFEFF}
  {}

  /** Trimming takes white space off both ends and nothing else. */
  lemma TrimTakesOff(s: string) returns (a: string, b: string)
    ensures s == a + Trim(s) + b && AllSpaces(a) && AllSpaces(b)
  {
    hide TrimStart, TrimEnd, IsSpace;
    var rest := TrimStart(s);
    StartTakesOff(s);
    EndTakesOff(rest);
    a, b := s[..|s| - |rest|], rest[|Trim(s)|..];
    assert rest == Trim(s) + b;
    assert s == a + rest;
  }

  lemma {:induction false} StartTakesOff(s: string)
    ensures forall i :: 0 <= i < |s| - |TrimStart(s)| ==> IsSpace(s[i])
  {
    hide IsSpace;
    if s != "" && IsSpace(s[0]) {
      StartTakesOff(s[1..]);
      assert forall i :: 0 < i < |s| ==> s[i] == s[1..][i - 1];
    }
  }

  lemma {:induction false} EndTakesOff(s: string)
    ensures forall i :: |TrimEnd(s)| <= i < |s| ==> IsSpace(s[i])
  {
    hide IsSpace;
    if s != "" && IsSpace(s[|s| - 1]) { EndTakesOff(s[..|s| - 1]); }
  }

  predicate IsDigit(c: char) {
    '0' <= c <= '9'
  }

  predicate AllDigits(s: string) {
    forall i :: 0 <= i < |s| ==> IsDigit(s[i])
  }

  predicate NoDigits(s: string) {
    forall i :: 0 <= i < |s| ==> !IsDigit(s[i])
  }

  function DigitValue(c: char): (d: nat)
    requires IsDigit(c)
    ensures d < 10
  {
    c as int - '0' as int
  }

  function DigitChar(d: nat): (c: char)
    requires d < 10
    ensures IsDigit(c) && DigitValue(c) == d
  {
    ('0' as int + d) as char
  }

  function Pow10(n: nat): (p: nat)
    ensures p >= 1
  {
    if n == 0 then 1 else 10 * Pow10(n - 1)
  }

  /** `String(n)` for a non-negative integer. */
  function Decimal(n: nat): (s: string)
    ensures s != "" && AllDigits(s)
  {
    if n < 10 then [DigitChar(n)] else Decimal(n / 10) + [DigitChar(n % 10)]
  }

  /** `Number(s)` for a string of digits; the empty string reads as zero. */
  function ReadDecimal(s: string): nat
    requires AllDigits(s)
  {
    if s == "" then 0 else 10 * ReadDecimal(s[..|s| - 1]) + DigitValue(s[|s| - 1])
  }

  function Repeat(c: char, n: nat): (s: string)
    ensures |s| == n && forall i :: 0 <= i < n ==> s[i] == c
  {
    seq(n, _ => c)
  }

  function PadStart(s: string, n: nat, c: char): string {
    if |s| < n then Repeat(c, n - |s|) + s else s
  }

  function PadEnd(s: string, n: nat, c: char): string {
    if |s| < n then s + Repeat(c, n - |s|) else s
  }

  /** `s.replace(/[^0-9]/g, "")` */
  function Digits(s: string): (r: string)
    ensures AllDigits(r)
  {
    if s == "" then ""
    else if IsDigit(s[0]) then [s[0]] + Digits(s[1..])
    else Digits(s[1..])
  }

  lemma {:induction false} ReadOfDecimal(n: nat)
    ensures ReadDecimal(Decimal(n)) == n
  {
    if n >= 10 {
      var s := Decimal(n);
      assert s[..|s| - 1] == Decimal(n / 10);
      ReadOfDecimal(n / 10);
    }
  }

  /** A numeral without a leading zero is the printed form of the number it reads as. */
  lemma {:induction false} DecimalOfRead(s: string)
    requires s != "" && AllDigits(s) && (|s| > 1 ==> s[0] != '0')
    ensures Decimal(ReadDecimal(s)) == s
    ensures s[0] != '0' ==> ReadDecimal(s) >= 1
  {
    var front, last := s[..|s| - 1], s[|s| - 1];
    assert s == front + [last];
    if front == "" {
      assert ReadDecimal(front) == 0;
    } else {
      DecimalOfRead(front);
    }
  }

  lemma TimesTen(x: int, y: int)
    ensures x * (10 * y) == 10 * (x * y)
  {}

  lemma {:induction false} ReadOfConcat(a: string, b: string)
    requires AllDigits(a) && AllDigits(b)
    ensures AllDigits(a + b)
    ensures ReadDecimal(a + b) == ReadDecimal(a) * Pow10(|b|) + ReadDecimal(b)
  {
    if b == "" {
      assert a + b == a;
    } else {
      var front := b[..|b| - 1];
      assert (a + b)[..|a + b| - 1] == a + front;
      ReadOfConcat(a, front);
      assert (a + b)[|a + b| - 1] == b[|b| - 1];
      TimesTen(ReadDecimal(a), Pow10(|front|));
    }
  }

  lemma {:induction false} DecimalLength(n: nat, k: nat)
    requires n < Pow10(k) && k >= 1
    ensures |Decimal(n)| <= k
  {
    if n >= 10 {
      assert Pow10(1) == 10;
      DecimalLength(n / 10, k - 1);
    }
  }

  lemma {:induction false} ReadOfZeros(n: nat)
    ensures ReadDecimal(Repeat('0', n)) == 0
  {
    if n > 0 {
      assert Repeat('0', n)[..n - 1] == Repeat('0', n - 1);
      ReadOfZeros(n - 1);
    }
  }

  /** Padding a fraction with zeros on the left changes its width, not its value. */
  lemma PaddedFraction(n: nat, k: nat)
    requires n < Pow10(k) && k >= 1
    ensures var s := PadStart(Decimal(n), k, '0');
            AllDigits(s) && |s| == k && ReadDecimal(s) == n
  {
    hide ReadDecimal, Pow10, Decimal;
    DecimalLength(n, k);
    ReadOfDecimal(n);
    var zeros := Repeat('0', k - |Decimal(n)|);
    ReadOfZeros(k - |Decimal(n)|);
    ReadOfConcat(zeros, Decimal(n));
    assert zeros + Decimal(n) == PadStart(Decimal(n), k, '0') || zeros == "";
    if zeros == "" { assert zeros + Decimal(n) == Decimal(n); }
  }

  lemma {:induction false} DigitsOfConcat(a: string, b: string)
    ensures Digits(a + b) == Digits(a) + Digits(b)
  {
    if a == "" {
      assert a + b == b;
    } else {
      assert (a + b)[1..] == a[1..] + b;
      DigitsOfConcat(a[1..], b);
    }
  }

  lemma {:induction false} DigitsOfDigits(s: string)
    requires AllDigits(s)
    ensures Digits(s) == s
  {
    if s != "" { DigitsOfDigits(s[1..]); }
  }

  lemma {:induction false} DigitsOfNoDigits(s: string)
    ensures NoDigits(s) <==> Digits(s) == ""
  {
    if s != "" {
      DigitsOfNoDigits(s[1..]);
      assert s == [s[0]] + s[1..];
    }
  }

  /** Both strings are cut at the first `mark`: it occurs in neither front. */
  lemma SplitAtFirst(a: string, b: string, c: string, d: string, mark: char)
    requires mark !in a && mark !in c
    requires a + [mark] + b == c + [mark] + d
    ensures a == c && b == d
  {
    var left, right := a + [mark] + b, c + [mark] + d;
    assert left[|a|] == mark && right[|c|] == mark;
    assert forall i :: 0 <= i < |c| ==> right[i] == c[i] && c[i] in c;
    assert forall i :: 0 <= i < |a| ==> left[i] == a[i] && a[i] in a;
    assert |a| == |c|;
    assert a == left[..|a|] == right[..|c|] == c;
    assert b == left[|a| + 1..] == right[|c| + 1..] == d;
  }
}
