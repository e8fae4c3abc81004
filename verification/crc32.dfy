/**
 The table-driven CRC-32 of the PNG writer, and the bit-at-a-time register it must agree with
 (sections 3.4 and 15 of RFC 2083). A 32-bit word is held as its unsigned value: `>>> k` divides it
 by 2^k, `& 0xff` is the remainder by 256, and `^` is written out as `Xor`.
 */
module Crc32 {
  import opened Basics

  const TWO_32: nat := 0x1_0000_0000

  type Byte = n: int | 0 <= n < 256

  type Word = n: int | 0 <= n < TWO_32

  /** The exponents of the CRC polynomial below x^32. */
  const EXPONENTS: seq<nat> := [26, 23, 22, 16, 12, 11, 10, 8, 7, 5, 4, 2, 1, 0]

  /** The polynomial with its bits reflected: the coefficient of x^31 is the lowest bit. */
  const POLY: nat := 0xEDB8_8320

  const ALL_ONES: nat := 0xFFFF_FFFF

  const BYTE_BITS: nat := 8

  /** Bitwise exclusive or. */
  function Xor(a: nat, b: nat): nat
    decreases a + b
  {
    if a == 0 then b
    else if b == 0 then a
    else (a % 2 + b % 2) % 2 + 2 * Xor(a / 2, b / 2)
  }

  // ----- The reference: one message bit at a time

  /** The register takes in one bit of the message. */
  function FeedBit(register: nat, bit: nat): nat {
    if (register + bit) % 2 == 1 then Xor(POLY, register / 2) else register / 2
  }

  /** The register takes in the `n` lowest bits of `bits`, the lowest first. */
  function FeedBits(register: nat, bits: nat, n: nat): nat
    decreases n
  {
    if n == 0 then register else FeedBits(FeedBit(register, bits % 2), bits / 2, n - 1)
  }

  function FeedBytes(register: nat, data: seq<Byte>): nat
    decreases data
  {
    if data == [] then register else FeedBytes(FeedBits(register, data[0], BYTE_BITS), data[1..])
  }

  /** Start with all ones, take in every byte, and complement. */
  function CrcReference(data: seq<Byte>): nat {
    Xor(FeedBytes(ALL_ONES, data), ALL_ONES)
  }

  // ----- The code: eight steps at once, out of a table

  function BitStep(value: nat): nat {
    if value % 2 == 1 then Xor(POLY, value / 2) else value / 2
  }

  function Steps(value: nat, n: nat): nat
    decreases n
  {
    if n == 0 then value else Steps(BitStep(value), n - 1)
  }

  ghost predicate IsTable(table: seq<Word>) {
    |table| == 256 && forall i :: 0 <= i < 256 ==> table[i] == Steps(i, BYTE_BITS)
  }

  /** The inner loop: one entry of the table, bit by bit. */
  method TableEntry(index: Byte) returns (value: Word)
    ensures value == Steps(index, BYTE_BITS)
  {
    hide Xor;
    value := index;
    for bit := 0 to BYTE_BITS
      invariant Steps(value, BYTE_BITS - bit) == Steps(index, BYTE_BITS)
    {
      BitStepIsWord(value);
      value := if value % 2 == 1 then Xor(POLY, value / 2) else value / 2;
    }
  }

  method BuildTable() returns (table: array<Word>)
    ensures fresh(table) && IsTable(table[..])
  {
    hide Steps;
    table := new Word[256](_ => 0);
    for index := 0 to 256
      invariant forall i :: 0 <= i < index ==> table[i] == Steps(i, BYTE_BITS)
    {
      var entry := TableEntry(index);
      table[index] := entry;
    }
  }

  method Crc(table: array<Word>, buffer: seq<Byte>) returns (sum: Word)
    requires IsTable(table[..])
    ensures sum == CrcReference(buffer)
  {
    hide Xor, Steps, FeedBits;
    var value: Word := ALL_ONES;
    for k := 0 to |buffer|
      invariant FeedBytes(value, buffer[k..]) == FeedBytes(ALL_ONES, buffer)
    {
      var byte := buffer[k];
      TableStep(value, byte);
      assert buffer[k..][1..] == buffer[k + 1..];
      var index := Xor(value, byte) % 256;
      assert table[..][index] == Steps(index, BYTE_BITS);
      XorIsWord(table[index], value / 256);
      value := Xor(table[index], value / 256);
    }
    XorIsWord(value, ALL_ONES);
    return Xor(value, ALL_ONES);
  }

  // ----- Exclusive or

  lemma Digit(d: nat, rest: nat)
    requires d < 2
    ensures (d + 2 * rest) % 2 == d && (d + 2 * rest) / 2 == rest
  {}

  lemma SumParity(a: nat, b: nat)
    ensures (a % 2 + b % 2) % 2 == (a + b) % 2
  {}

  lemma XorUnfold(a: nat, b: nat)
    ensures Xor(a, 0) == a && Xor(0, b) == b
    ensures a != 0 && b != 0 ==> Xor(a, b) == (a % 2 + b % 2) % 2 + 2 * Xor(a / 2, b / 2)
  {}

  lemma XorBits(a: nat, b: nat)
    ensures Xor(a, b) % 2 == (a + b) % 2
    ensures Xor(a, b) / 2 == Xor(a / 2, b / 2)
  {
    hide Xor;
    XorUnfold(a, b);
    XorUnfold(a / 2, b / 2);
    if a != 0 && b != 0 {
      SumParity(a, b);
      Digit((a % 2 + b % 2) % 2, Xor(a / 2, b / 2));
    }
  }

  lemma SameNumber(x: nat, y: nat)
    requires x % 2 == y % 2 && x / 2 == y / 2
    ensures x == y
  {}

  lemma {:induction false} XorCommutes(a: nat, b: nat)
    ensures Xor(a, b) == Xor(b, a)
    decreases a + b
  {
    if a != 0 && b != 0 { XorCommutes(a / 2, b / 2); }
  }

  lemma Parity(x: nat, y: nat, a: nat, b: nat, c: nat)
    requires x % 2 == (a + b) % 2 && y % 2 == (b + c) % 2
    ensures (x + c) % 2 == (a + y) % 2
  {
    SumParity(x, c);
    SumParity(a + b, c);
    SumParity(a, y);
    SumParity(a, b + c);
  }

  lemma {:induction false} XorAssociates(a: nat, b: nat, c: nat)
    ensures Xor(Xor(a, b), c) == Xor(a, Xor(b, c))
    decreases a + b + c
  {
    hide Xor;
    XorUnfold(a, b);
    XorUnfold(b, c);
    XorUnfold(Xor(a, b), c);
    XorUnfold(a, Xor(b, c));
    if a != 0 && b != 0 && c != 0 {
      var x, y := Xor(a, b), Xor(b, c);
      XorAssociates(a / 2, b / 2, c / 2);
      XorBits(a, b);
      XorBits(b, c);
      XorBits(x, c);
      XorBits(a, y);
      Parity(x, y, a, b, c);
      SameNumber(Xor(x, c), Xor(a, y));
    }
  }

  lemma {:induction false} XorCancels(a: nat)
    ensures Xor(a, a) == 0
    decreases a
  {
    if a > 0 {
      XorBits(a, a);
      XorCancels(a / 2);
    }
  }

  lemma XorInjective(a: nat, b: nat, c: nat)
    requires Xor(a, c) == Xor(b, c)
    ensures a == b
  {
    hide Xor;
    XorAssociates(a, c, c);
    XorAssociates(b, c, c);
    XorCancels(c);
    XorUnfold(a, 0);
    XorUnfold(b, 0);
  }

  /** Exchanging the inner terms of (a ^ b) ^ (c ^ d). */
  lemma XorSwap(a: nat, b: nat, c: nat, d: nat)
    ensures Xor(Xor(a, b), Xor(c, d)) == Xor(Xor(a, c), Xor(b, d))
  {
    hide Xor;
    XorAssociates(a, b, Xor(c, d));
    XorAssociates(b, c, d);
    XorCommutes(b, c);
    XorAssociates(c, b, d);
    XorAssociates(a, c, Xor(b, d));
  }

  lemma {:induction false} XorFits(a: nat, b: nat, n: nat)
    requires a < Pow2(n) && b < Pow2(n)
    ensures Xor(a, b) < Pow2(n)
    decreases n
  {
    hide Xor;
    XorUnfold(a, b);
    if n > 0 {
      XorBits(a, b);
      XorFits(a / 2, b / 2, n - 1);
    }
  }

  lemma Pow2Byte()
    ensures Pow2(BYTE_BITS) == 256
  {
    assert Pow2(8) == 256;
  }

  lemma Pow32()
    ensures Pow2(32) == TWO_32 && Pow2(31) == TWO_32 / 2
  {
    assert Pow2(8) == 256;
    assert Pow2(16) == 65536 by { assert Pow2(12) == 4096; }
    assert Pow2(24) == 0x100_0000 by { assert Pow2(20) == 0x10_0000; }
    assert Pow2(28) == 0x1000_0000;
  }

  lemma XorIsWord(a: Word, b: Word)
    ensures Xor(a, b) < TWO_32
  {
    hide Xor, Pow2;
    Pow32();
    XorFits(a, b, 32);
  }

  lemma Doubled(high: nat, n: nat)
    requires n > 0
    ensures high * Pow2(n) == 2 * (high * Pow2(n - 1))
  {}

  lemma XorEven(low: nat, rest: nat)
    requires Xor(low / 2, rest) == low / 2 + rest
    ensures Xor(low, 2 * rest) == low + 2 * rest
  {
    hide Xor;
    XorBits(low, 2 * rest);
    Digit(0, rest);
    var x := Xor(low, 2 * rest);
    assert x % 2 == low % 2 && x / 2 == low / 2 + rest;
  }

  /** Words that share no bit position are added. */
  lemma {:induction false} XorDisjoint(low: nat, high: nat, n: nat)
    requires low < Pow2(n)
    ensures Xor(low, high * Pow2(n)) == low + high * Pow2(n)
    decreases n
  {
    if n > 0 {
      var rest := high * Pow2(n - 1);
      Doubled(high, n);
      XorDisjoint(low / 2, high, n - 1);
      XorEven(low, rest);
    }
  }

  // ----- Eight steps at once

  lemma BitStepIsWord(v: Word)
    ensures BitStep(v) < TWO_32
  {
    hide Xor;
    if v % 2 == 1 { XorIsWord(POLY, v / 2); }
  }

  /** A step with any polynomial. */
  function PolyStep(poly: nat, odd: bool, rest: nat): nat {
    if odd then Xor(poly, rest) else rest
  }

  lemma PolyStepXor(poly: nat, odd: bool, rest: nat, odd': bool, rest': nat)
    ensures PolyStep(poly, odd != odd', Xor(rest, rest')) == Xor(PolyStep(poly, odd, rest), PolyStep(poly, odd', rest'))
  {
    hide Xor;
    if odd && odd' {
      XorCancels(poly);
      XorSwap(poly, rest, poly, rest');
      XorUnfold(0, Xor(rest, rest'));
    } else if odd {
      XorAssociates(poly, rest, rest');
    } else if odd' {
      XorAssociates(rest, poly, rest');
      XorCommutes(rest, poly);
      XorAssociates(poly, rest, rest');
    }
  }

  lemma OddSum(a: nat, b: nat)
    ensures (a + b) % 2 == 1 <==> (a % 2 == 1) != (b % 2 == 1)
  {}

  /** A step is linear. */
  lemma BitStepXor(a: nat, b: nat)
    ensures BitStep(Xor(a, b)) == Xor(BitStep(a), BitStep(b))
  {
    hide Xor;
    XorBits(a, b);
    OddSum(a, b);
    PolyStepXor(POLY, a % 2 == 1, a / 2, b % 2 == 1, b / 2);
  }

  lemma {:induction false} StepsXor(a: nat, b: nat, n: nat)
    ensures Steps(Xor(a, b), n) == Xor(Steps(a, n), Steps(b, n))
    decreases n
  {
    hide Xor, BitStep;
    if n > 0 {
      BitStepXor(a, b);
      StepsXor(BitStep(a), BitStep(b), n - 1);
    }
  }

  /** Bits that have not reached the low end are only shifted. */
  lemma {:induction false} StepsOfShifted(high: nat, n: nat)
    ensures Steps(high * Pow2(n), n) == high
    decreases n
  {
    if n > 0 {
      Doubled(high, n);
      Digit(0, high * Pow2(n - 1));
      StepsOfShifted(high, n - 1);
    }
  }

  lemma LowAndHigh(low: Byte, high: nat)
    ensures Xor(low, 256 * high) == low + 256 * high
    ensures Steps(256 * high, BYTE_BITS) == high
  {
    hide Xor, Steps, Pow2;
    Pow2Byte();
    XorDisjoint(low, high, BYTE_BITS);
    StepsOfShifted(high, BYTE_BITS);
  }

  lemma EightParts(low: Byte, high: nat)
    ensures Steps(low + 256 * high, BYTE_BITS) == Xor(Steps(low, BYTE_BITS), high)
  {
    hide Xor, Steps;
    LowAndHigh(low, high);
    StepsXor(low, 256 * high, BYTE_BITS);
  }

  /** One table look-up does the work of eight single-bit steps, for every register value. */
  lemma EightAtOnce(v: nat)
    ensures Steps(v, BYTE_BITS) == Xor(Steps(v % 256, BYTE_BITS), v / 256)
  {
    hide Xor, Steps;
    var low, high := v % 256, v / 256;
    assert low + 256 * high == v;
    EightParts(low, high);
  }

  lemma FeedBitIsStep(register: nat, bits: nat)
    ensures BitStep(Xor(register, bits)) == Xor(FeedBit(register, bits % 2), bits / 2)
  {
    hide Xor;
    XorBits(register, bits);
    SumParity(register, bits);
    SumParity(register, bits % 2);
    PolyStepXor(POLY, (register + bits) % 2 == 1, register / 2, false, bits / 2);
  }

  function Shifted(bits: nat, n: nat): nat
    decreases n
  {
    if n == 0 then bits else Shifted(bits / 2, n - 1)
  }

  /** Taking message bits in one by one is the same as mixing them in first. */
  lemma {:induction false} FeedBitsIsSteps(register: nat, bits: nat, n: nat)
    ensures Xor(FeedBits(register, bits, n), Shifted(bits, n)) == Steps(Xor(register, bits), n)
    decreases n
  {
    hide Xor, FeedBit, BitStep;
    if n > 0 {
      FeedBitIsStep(register, bits);
      FeedBitsIsSteps(FeedBit(register, bits % 2), bits / 2, n - 1);
    }
  }

  lemma {:induction false} ShiftedOut(bits: nat, n: nat)
    requires bits < Pow2(n)
    ensures Shifted(bits, n) == 0
    decreases n
  {
    if n > 0 { ShiftedOut(bits / 2, n - 1); }
  }

  lemma ByteFeed(register: nat, b: Byte)
    ensures FeedBits(register, b, BYTE_BITS) == Steps(Xor(register, b), BYTE_BITS)
  {
    hide Xor, Steps, FeedBits, Pow2, Shifted;
    Pow2Byte();
    FeedBitsIsSteps(register, b, BYTE_BITS);
    ShiftedOut(b, BYTE_BITS);
    XorUnfold(FeedBits(register, b, BYTE_BITS), 0);
  }

  lemma XorShift8(v: nat, b: Byte)
    ensures Xor(v, b) / 256 == v / 256
  {
    hide Xor, Pow2;
    LowAndHigh(v % 256, v / 256);
    XorCommutes(v % 256, 256 * (v / 256));
    XorAssociates(256 * (v / 256), v % 256, b);
    Pow2Byte();
    XorFits(v % 256, b, BYTE_BITS);
    var low := Xor(v % 256, b);
    XorCommutes(256 * (v / 256), low);
    LowAndHigh(low, v / 256);
  }

  lemma TableStep(register: nat, b: Byte)
    ensures FeedBits(register, b, BYTE_BITS) == Xor(Steps(Xor(register, b) % 256, BYTE_BITS), register / 256)
  {
    hide Xor, Steps, FeedBits;
    ByteFeed(register, b);
    EightAtOnce(Xor(register, b));
    XorShift8(register, b);
  }

  /** The sum of the reflected powers, from the `i`-th exponent on. */
  function Reflected(i: nat): nat
    decreases |EXPONENTS| - i
  {
    if i < |EXPONENTS| then Pow2(31 - EXPONENTS[i]) + Reflected(i + 1) else 0
  }

  lemma Powers()
    ensures Pow2(5) == 0x20 && Pow2(8) == 0x100 && Pow2(9) == 0x200 && Pow2(15) == 0x8000
    ensures Pow2(19) == 0x8_0000 && Pow2(20) == 0x10_0000 && Pow2(21) == 0x20_0000
    ensures Pow2(23) == 0x80_0000 && Pow2(24) == 0x100_0000 && Pow2(26) == 0x400_0000
    ensures Pow2(27) == 0x800_0000 && Pow2(29) == 0x2000_0000 && Pow2(30) == 0x4000_0000
    ensures Pow2(31) == 0x8000_0000
  {
    assert Pow2(10) == 0x400 && Pow2(17) == 0x2_0000 && Pow2(22) == 0x40_0000 && Pow2(28) == 0x1000_0000;
  }

  /** The constant in the code is the standard polynomial, reflected. */
  lemma PolynomialIsStandard()
    ensures Reflected(0) == POLY
  {
    hide Pow2;
    Powers();
    assert Reflected(14) == 0;
    assert Reflected(12) == 0xC000_0000;
    assert Reflected(10) == 0xE800_0000;
    assert Reflected(8) == 0xED00_0000;
    assert Reflected(6) == 0xEDA0_0000;
    assert Reflected(4) == 0xEDB8_0000;
    assert Reflected(2) == 0xEDB8_8200;
  }

  // ----- Where the register starts and how it ends

  /** Two known values of the sum, which tie down the start and the final complement. */
  lemma CheckValues()
    ensures CrcReference([]) == 0
    ensures CrcReference([255, 255, 255, 255]) == 0xFFFF_FFFF
  {
    hide Xor;
    XorCancels(ALL_ONES);
    Ones(0xFFFF_FFFF, 0xFF_FFFF);
    Ones(0xFF_FFFF, 0xFFFF);
    Ones(0xFFFF, 0xFF);
    Ones(0xFF, 0);
    var data: seq<Byte> := [255, 255, 255, 255];
    assert data[1..] == [255, 255, 255] && data[1..][1..] == [255, 255];
    XorUnfold(0, ALL_ONES);
  }

  /** Ones meet ones: the register is shifted and nothing else. */
  lemma Ones(register: nat, rest: nat)
    requires register == 256 * rest + 255
    ensures FeedBits(register, 255, BYTE_BITS) == rest
  {
    hide Xor;
    assert FeedBit(256 * rest + 255, 1) == 128 * rest + 127;
    assert FeedBit(128 * rest + 127, 1) == 64 * rest + 63;
    assert FeedBit(64 * rest + 63, 1) == 32 * rest + 31;
    assert FeedBit(32 * rest + 31, 1) == 16 * rest + 15;
    assert FeedBit(16 * rest + 15, 1) == 8 * rest + 7;
    assert FeedBit(8 * rest + 7, 1) == 4 * rest + 3;
    assert FeedBit(4 * rest + 3, 1) == 2 * rest + 1;
    assert FeedBit(2 * rest + 1, 1) == rest;
  }

  // ----- What the sum is for: it detects damage

  /** The highest bit tells which way a step went. */
  lemma HighBit(x: nat)
    requires x < TWO_32 / 2
    ensures Xor(POLY, x) >= TWO_32 / 2
  {
    hide Xor, Pow2;
    Pow32();
    var low := POLY - TWO_32 / 2;
    XorDisjoint(low, 1, 31);
    XorCommutes(low, TWO_32 / 2);
    XorAssociates(TWO_32 / 2, low, x);
    XorFits(low, x, 31);
    XorCommutes(TWO_32 / 2, Xor(low, x));
    XorDisjoint(Xor(low, x), 1, 31);
  }

  lemma BitStepInjective(a: Word, b: Word)
    requires BitStep(a) == BitStep(b)
    ensures a == b
  {
    hide Xor;
    HighBit(a / 2);
    HighBit(b / 2);
    XorCommutes(POLY, a / 2);
    XorCommutes(POLY, b / 2);
    if a % 2 == 1 && b % 2 == 1 { XorInjective(a / 2, b / 2, POLY); }
  }

  lemma {:induction false} StepsInjective(a: Word, b: Word, n: nat)
    requires Steps(a, n) == Steps(b, n)
    ensures a == b
    decreases n
  {
    hide BitStep;
    if n > 0 {
      BitStepIsWord(a);
      BitStepIsWord(b);
      StepsInjective(BitStep(a), BitStep(b), n - 1);
      BitStepInjective(a, b);
    }
  }

  lemma {:induction false} StepsIsWord(v: Word, n: nat)
    ensures Steps(v, n) < TWO_32
    decreases n
  {
    hide BitStep;
    if n > 0 {
      BitStepIsWord(v);
      StepsIsWord(BitStep(v), n - 1);
    }
  }

  lemma FeedIsWord(register: Word, b: Byte)
    ensures FeedBits(register, b, BYTE_BITS) < TWO_32
  {
    hide Xor, Steps, FeedBits;
    ByteFeed(register, b);
    XorIsWord(register, b);
    StepsIsWord(Xor(register, b), BYTE_BITS);
  }

  lemma {:induction false} FeedBytesIsWord(register: Word, data: seq<Byte>)
    ensures FeedBytes(register, data) < TWO_32
    decreases data
  {
    hide FeedBits;
    if data != [] {
      FeedIsWord(register, data[0]);
      FeedBytesIsWord(FeedBits(register, data[0], BYTE_BITS), data[1..]);
    }
  }

  lemma CrcIsWord(data: seq<Byte>)
    ensures CrcReference(data) < TWO_32
  {
    hide Xor, FeedBytes;
    FeedBytesIsWord(ALL_ONES, data);
    XorIsWord(FeedBytes(ALL_ONES, data), ALL_ONES);
  }

  /** Bytes as one little-endian word. */
  function LittleEndian(bytes: seq<Byte>): nat {
    if bytes == [] then 0 else bytes[0] + 256 * LittleEndian(bytes[1..])
  }

  lemma {:induction false} LittleEndianFits(bytes: seq<Byte>)
    ensures LittleEndian(bytes) < Pow2(BYTE_BITS * |bytes|)
    decreases bytes
  {
    if bytes != [] {
      LittleEndianFits(bytes[1..]);
      var n := BYTE_BITS * |bytes[1..]|;
      assert Pow2(n + 2) == 4 * Pow2(n);
      assert Pow2(n + 4) == 4 * Pow2(n + 2);
      assert Pow2(n + 6) == 4 * Pow2(n + 4);
      assert Pow2(n + 8) == 4 * Pow2(n + 6);
    }
  }

  lemma {:induction false} LittleEndianInjective(a: seq<Byte>, b: seq<Byte>)
    requires |a| == |b| && LittleEndian(a) == LittleEndian(b)
    ensures a == b
    decreases a
  {
    if a != [] {
      LittleEndianInjective(a[1..], b[1..]);
      assert a == [a[0]] + a[1..] && b == [b[0]] + b[1..];
    }
  }

  lemma StepsZero(v: nat)
    ensures Steps(v, 0) == v
  {}

  lemma {:induction false} StepsAdd(v: nat, m: nat, n: nat)
    ensures Steps(v, m + n) == Steps(Steps(v, m), n)
    decreases m
  {
    hide BitStep;
    if m > 0 { StepsAdd(BitStep(v), m - 1, n); }
  }

  /** Consecutive bytes mix into the register as one word. */
  lemma {:induction false} WindowIsWord(register: nat, bytes: seq<Byte>)
    ensures FeedBytes(register, bytes) == Steps(Xor(register, LittleEndian(bytes)), BYTE_BITS * |bytes|)
    decreases bytes
  {
    hide Xor, Steps, FeedBits;
    if bytes == [] {
      XorUnfold(register, 0);
      StepsZero(register);
    } else {
      FirstByte(register, bytes[0], LittleEndian(bytes[1..]));
      WindowIsWord(FeedBits(register, bytes[0], BYTE_BITS), bytes[1..]);
      StepsAdd(Xor(register, LittleEndian(bytes)), BYTE_BITS, BYTE_BITS * |bytes[1..]|);
    }
  }

  /** Eight steps take in the lowest byte of a word and bring the rest down to the low end. */
  lemma FirstByte(register: nat, b: Byte, rest: nat)
    ensures Steps(Xor(register, b + 256 * rest), BYTE_BITS) == Xor(FeedBits(register, b, BYTE_BITS), rest)
  {
    hide Xor, Steps, FeedBits;
    ByteFeed(register, b);
    LowAndHigh(b, rest);
    XorAssociates(register, b, 256 * rest);
    StepsXor(Xor(register, b), 256 * rest, BYTE_BITS);
  }

  lemma {:induction false} Pow2Monotone(m: nat, n: nat)
    requires m <= n
    ensures Pow2(m) <= Pow2(n)
    decreases n
  {
    if m < n { Pow2Monotone(m, n - 1); }
  }

  /** The bits in which two messages differ, in the order in which the register takes them in. */
  function Difference(a: seq<Byte>, b: seq<Byte>): nat {
    Xor(LittleEndian(a), LittleEndian(b))
  }

  /** The messages differ within 32 consecutive bits: in the bits of `d`, from the `k`-th bit on. */
  predicate IsBurst(a: seq<Byte>, b: seq<Byte>, d: Word, k: nat) {
    |a| == |b| && Difference(a, b) == d * Pow2(k)
  }

  lemma XorSelfOnly(a: nat, b: nat)
    requires Xor(a, b) == 0
    ensures a == b
  {
    XorCancels(b);
    XorInjective(a, b, b);
  }

  lemma {:induction false} StepsOfZero(n: nat)
    ensures Steps(0, n) == 0
    decreases n
  {
    if n > 0 { StepsOfZero(n - 1); }
  }

  /** A word that is fed in is not forgotten. */
  lemma WordLeavesTrace(d: Word, n: nat)
    requires Steps(d, n) == 0
    ensures d == 0
  {
    StepsOfZero(n);
    StepsInjective(d, 0, n);
  }

  lemma BurstLeavesTrace(d: Word, k: nat, n: nat)
    requires d != 0 && d * Pow2(k) < Pow2(n)
    ensures Steps(d * Pow2(k), n) != 0
  {
    hide Steps;
    if k > n {
      Pow2Monotone(n, k);
      AtLeastOnce(d, Pow2(k));
    } else {
      StepsAdd(d * Pow2(k), k, n - k);
      StepsOfShifted(d, k);
      if Steps(d, n - k) == 0 { WordLeavesTrace(d, n - k); }
    }
  }

  lemma AtLeastOnce(d: nat, p: nat)
    requires d > 0
    ensures p <= d * p
  {}

  /** The difference of two registers is the difference of the messages, stepped through. */
  lemma RegistersDiffer(register: nat, a: seq<Byte>, b: seq<Byte>)
    requires |a| == |b|
    ensures Xor(FeedBytes(register, a), FeedBytes(register, b)) == Steps(Difference(a, b), BYTE_BITS * |a|)
  {
    hide Xor, Steps, FeedBytes, LittleEndian;
    WindowIsWord(register, a);
    WindowIsWord(register, b);
    var x, y := LittleEndian(a), LittleEndian(b);
    StepsXor(Xor(register, x), Xor(register, y), BYTE_BITS * |a|);
    XorSwap(register, x, register, y);
    XorCancels(register);
    XorUnfold(0, Xor(x, y));
  }

  /** Any damage within 32 consecutive bits, wherever it begins, changes the sum: the standard burst guarantee. */
  lemma BurstChangesCrc(a: seq<Byte>, b: seq<Byte>, d: Word, k: nat)
    requires IsBurst(a, b, d, k) && a != b
    ensures CrcReference(a) != CrcReference(b)
  {
    hide Xor, Steps, FeedBytes, LittleEndian;
    RegistersDiffer(ALL_ONES, a, b);
    if d == 0 {
      XorSelfOnly(LittleEndian(a), LittleEndian(b));
      LittleEndianInjective(a, b);
    } else {
      LittleEndianFits(a);
      LittleEndianFits(b);
      XorFits(LittleEndian(a), LittleEndian(b), BYTE_BITS * |a|);
      BurstLeavesTrace(d, k, BYTE_BITS * |a|);
      if CrcReference(a) == CrcReference(b) {
        XorInjective(FeedBytes(ALL_ONES, a), FeedBytes(ALL_ONES, b), ALL_ONES);
        XorCancels(FeedBytes(ALL_ONES, a));
      }
    }
  }

  lemma {:induction false} LittleEndianConcat(front: seq<Byte>, a: seq<Byte>)
    ensures LittleEndian(front + a) == LittleEndian(front) + Pow2(BYTE_BITS * |front|) * LittleEndian(a)
    decreases front
  {
    if front == [] {
      assert front + a == a;
    } else {
      assert (front + a)[1..] == front[1..] + a;
      LittleEndianConcat(front[1..], a);
      BytePower(|front|);
      Regrouped(Pow2(BYTE_BITS * |front[1..]|), LittleEndian(a));
    }
  }

  lemma BytePower(n: nat)
    requires n > 0
    ensures Pow2(BYTE_BITS * n) == 256 * Pow2(BYTE_BITS * (n - 1))
  {
    hide Pow2;
    EightMore(BYTE_BITS * (n - 1));
  }

  lemma EightMore(m: nat)
    ensures Pow2(m + 8) == 256 * Pow2(m)
  {
    hide Pow2;
    FourTimes(m);
    FourTimes(m + 2);
    FourTimes(m + 4);
    FourTimes(m + 6);
  }

  lemma FourTimes(m: nat)
    ensures Pow2(m + 2) == 4 * Pow2(m)
  {
    assert Pow2(m + 1) == 2 * Pow2(m);
  }

  lemma Regrouped(p: nat, x: nat)
    ensures 256 * (p * x) == (256 * p) * x
  {}

  lemma {:induction false} XorShifted(a: nat, b: nat, n: nat)
    ensures Xor(a * Pow2(n), b * Pow2(n)) == Xor(a, b) * Pow2(n)
    decreases n
  {
    hide Xor;
    if n > 0 {
      XorShifted(a, b, n - 1);
      Doubled(a, n);
      Doubled(b, n);
      Doubled(Xor(a, b), n);
      XorDoubled(a * Pow2(n - 1), b * Pow2(n - 1));
    }
  }

  lemma XorDoubled(x: nat, y: nat)
    ensures Xor(2 * x, 2 * y) == 2 * Xor(x, y)
  {
    hide Xor;
    XorBits(2 * x, 2 * y);
    Digit(0, x);
    Digit(0, y);
    SameNumber(Xor(2 * x, 2 * y), 2 * Xor(x, y));
  }

  /** Damage inside four whole bytes is such a burst. */
  lemma FourBytesAreABurst(front: seq<Byte>, a: seq<Byte>, b: seq<Byte>, back: seq<Byte>)
    requires |a| == |b| <= 4
    ensures Difference(a, b) < TWO_32
    ensures IsBurst(front + a + back, front + b + back, Difference(a, b), BYTE_BITS * |front|)
  {
    hide Xor, LittleEndian, Pow2;
    var x, y, z, w := LittleEndian(front), LittleEndian(a), LittleEndian(b), LittleEndian(back);
    var n, m := BYTE_BITS * |front|, BYTE_BITS * |a|;
    LittleEndianFits(front);
    LittleEndianFits(a);
    LittleEndianFits(b);
    Pow32();
    Pow2Monotone(m, 32);
    XorFits(y, z, m);
    assert front + a + back == front + (a + back) && front + b + back == front + (b + back);
    LittleEndianConcat(front, a + back);
    LittleEndianConcat(front, b + back);
    LittleEndianConcat(a, back);
    LittleEndianConcat(b, back);
    SameBeyond(y, z, w, m);
    SameBelow(x, y + Pow2(m) * w, z + Pow2(m) * w, n);
  }

  /** Equal high parts cancel. */
  lemma SameBeyond(y: nat, z: nat, high: nat, m: nat)
    requires y < Pow2(m) && z < Pow2(m)
    ensures Xor(y + Pow2(m) * high, z + Pow2(m) * high) == Xor(y, z)
  {
    hide Xor, Pow2;
    XorDisjoint(y, high, m);
    XorDisjoint(z, high, m);
    XorSwap(y, high * Pow2(m), z, high * Pow2(m));
    XorCancels(high * Pow2(m));
    XorUnfold(Xor(y, z), 0);
  }

  /** Equal low parts cancel, and leave the high parts shifted. */
  lemma SameBelow(low: nat, y: nat, z: nat, n: nat)
    requires low < Pow2(n)
    ensures Xor(low + Pow2(n) * y, low + Pow2(n) * z) == Xor(y, z) * Pow2(n)
  {
    hide Xor, Pow2;
    XorDisjoint(low, y, n);
    XorDisjoint(low, z, n);
    XorSwap(low, y * Pow2(n), low, z * Pow2(n));
    XorCancels(low);
    XorUnfold(0, Xor(y * Pow2(n), z * Pow2(n)));
    XorShifted(y, z, n);
  }
}
