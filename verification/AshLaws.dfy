/**
 What pins the ASH tables down: the reserved bytes, the order and period of the pseudo-random sequence, the
 polynomial and start of the CRC, and the bytes of whole frames, as UG101 gives them.
 */
module AshLaws {
  import opened Wrappers
  import opened AshFrame
  import opened Sequences

  // ------------------------------------------------------------- byte stuffing

  /** The bytes that are escaped, and what they become; every other byte stands for itself. */
  lemma EscapeTable(b: bv8)
    ensures EscapeByte(0x7E) == [0x7D, 0x5E] && EscapeByte(0x7D) == [0x7D, 0x5D]
    ensures EscapeByte(0x11) == [0x7D, 0x31] && EscapeByte(0x13) == [0x7D, 0x33]
    ensures b != 0x7E && b != 0x7D && b != 0x11 && b != 0x13 ==> EscapeByte(b) == [b]
  {
  }

  /** Escaped data holds no FLAG, XON or XOFF. */
  lemma {:induction false} EscapeHidesReserved(data: Bytes)
    ensures 0x7E !in Escape(data) && 0x11 !in Escape(data) && 0x13 !in Escape(data)
  {
    if data != [] {
      EscapeHidesReserved(data[..|data| - 1]);
      EscapeTable(data[|data| - 1]);
    }
  }

  // ------------------------------------------------------ pseudo-random sequence

  function Twice(r: bv8): bv8 {
    NextRandom(NextRandom(r))
  }

  function FourTimes(r: bv8): bv8 {
    Twice(Twice(r))
  }

  function SixTimes(r: bv8): bv8 {
    Twice(FourTimes(r))
  }

  function TenTimes(r: bv8): bv8 {
    FourTimes(SixTimes(r))
  }

  function FifteenTimes(r: bv8): bv8 {
    NextRandom(FourTimes(TenTimes(r)))
  }

  lemma RandomTwice(i: nat)
    ensures RandomAt(i + 2) == Twice(RandomAt(i))
  {
    assert RandomAt(i + 1) == NextRandom(RandomAt(i));
  }

  lemma RandomFour(i: nat)
    ensures RandomAt(i + 4) == FourTimes(RandomAt(i))
  {
    RandomTwice(i);
    RandomTwice(i + 2);
  }

  lemma RandomTen(i: nat)
    ensures RandomAt(i + 6) == SixTimes(RandomAt(i))
    ensures RandomAt(i + 10) == TenTimes(RandomAt(i))
  {
    RandomFour(i);
    RandomTwice(i + 4);
    RandomFour(i + 6);
  }

  lemma RandomFifteen(i: nat)
    ensures RandomAt(i + 15) == FifteenTimes(RandomAt(i))
  {
    RandomTen(i);
    RandomFour(i + 10);
    assert RandomAt(i + 15) == NextRandom(RandomAt(i + 14));
  }

  lemma NonzeroNext(r: bv8)
    requires r != 0
    ensures NextRandom(r) != 0
  {
  }

  /** The sequence starts with 0x42 and never shows zero. */
  lemma {:induction false} RandomNonzero(i: nat)
    ensures RandomAt(0) == 0x42 && RandomAt(i) != 0
  {
    if i > 0 {
      RandomNonzero(i - 1);
      NonzeroNext(RandomAt(i - 1));
    }
  }

  function LowBit(r: bv8): bv8 {
    r & 0x01
  }

  lemma LowBitRecurs(r: bv8)
    ensures LowBit(FourTimes(FourTimes(r)))
            == LowBit(r) ^ LowBit(Twice(r)) ^ LowBit(NextRandom(Twice(r))) ^ LowBit(FourTimes(r))
  {
  }

  /** The low bits obey the recurrence of the polynomial: each is the sum of those 8, 6, 5 and 4 places back. */
  lemma RandomRecurs(i: nat)
    ensures LowBit(RandomAt(i + 8))
            == LowBit(RandomAt(i)) ^ LowBit(RandomAt(i + 2)) ^ LowBit(RandomAt(i + 3)) ^ LowBit(RandomAt(i + 4))
  {
    RandomTwice(i);
    RandomFour(i);
    RandomFour(i + 4);
    assert RandomAt(i + 3) == NextRandom(RandomAt(i + 2));
    LowBitRecurs(RandomAt(i));
  }

  lemma RandomAt15()
    ensures RandomAt(15) == 0x9C
  {
    RandomFifteen(0);
    assert FifteenTimes(0x42) == 0x9C;
  }

  lemma RandomAt45()
    ensures RandomAt(45) == 0xA9
  {
    RandomAt15();
    RandomFifteen(15);
    assert FifteenTimes(0x9C) == 0xA7;
    RandomFifteen(30);
    assert FifteenTimes(0xA7) == 0xA9;
  }

  lemma RandomAt75()
    ensures RandomAt(75) == 0x9F
  {
    RandomAt45();
    RandomFifteen(45);
    assert FifteenTimes(0xA9) == 0x70;
    RandomFifteen(60);
    assert FifteenTimes(0x70) == 0x9F;
  }

  lemma RandomAt105()
    ensures RandomAt(105) == 0x5F
  {
    RandomAt75();
    RandomFifteen(75);
    assert FifteenTimes(0x9F) == 0x5E;
    RandomFifteen(90);
    assert FifteenTimes(0x5E) == 0x5F;
  }

  lemma RandomAt135()
    ensures RandomAt(135) == 0x5A
  {
    RandomAt105();
    RandomFifteen(105);
    assert FifteenTimes(0x5F) == 0x08;
    RandomFifteen(120);
    assert FifteenTimes(0x08) == 0x5A;
  }

  lemma RandomAt165()
    ensures RandomAt(165) == 0x31
  {
    RandomAt135();
    RandomFifteen(135);
    assert FifteenTimes(0x5A) == 0x72;
    RandomFifteen(150);
    assert FifteenTimes(0x72) == 0x31;
  }

  lemma RandomAt195()
    ensures RandomAt(195) == 0x0F
  {
    RandomAt165();
    RandomFifteen(165);
    assert FifteenTimes(0x31) == 0xFA;
    RandomFifteen(180);
    assert FifteenTimes(0xFA) == 0x0F;
  }

  lemma RandomAt225()
    ensures RandomAt(225) == 0xBD
  {
    RandomAt195();
    RandomFifteen(195);
    assert FifteenTimes(0x0F) == 0x8E;
    RandomFifteen(210);
    assert FifteenTimes(0x8E) == 0xBD;
  }

  lemma RandomAt255()
    ensures RandomAt(255) == 0x42
  {
    RandomAt225();
    RandomFifteen(225);
    assert FifteenTimes(0xBD) == 0xE9;
    RandomFifteen(240);
    assert FifteenTimes(0xE9) == 0x42;
  }

  /** The values that settle the period: back at the start after 255 steps, not after 15, 51 or 85. */
  lemma PeriodValues()
    ensures RandomAt(255) == 0x42 && RandomAt(15) == 0x9C && RandomAt(51) == 0x75 && RandomAt(85) == 0x48
  {
    RandomAt255();
    RandomAt15();
    RandomAt45();
    RandomAt75();
    RandomTen(45);
    RandomTen(75);
    assert SixTimes(0xA9) == 0x75;
    assert TenTimes(0x9F) == 0x48;
  }

  lemma {:induction false} RepeatsFrom(d: nat, i: nat)
    requires RandomAt(d) == 0x42
    ensures RandomAt(i + d) == RandomAt(i)
  {
    if i > 0 {
      RepeatsFrom(d, i - 1);
    }
  }

  /** The sequence repeats after 255 elements. */
  lemma RandomPeriod(i: nat)
    ensures RandomAt(i + 255) == RandomAt(i)
  {
    PeriodValues();
    RepeatsFrom(255, i);
  }

  lemma {:induction false} RepeatsTimes(d: nat, i: nat, n: nat)
    requires RandomAt(d) == 0x42
    ensures RandomAt(i + n * d) == RandomAt(i)
  {
    if n > 0 {
      RepeatsTimes(d, i, n - 1);
      RepeatsFrom(d, i + (n - 1) * d);
      assert i + (n - 1) * d + d == i + n * d;
    }
  }

  lemma Remainder(d: nat, i: nat)
    requires d > 0 && RandomAt(d) == 0x42
    ensures RandomAt(i % d) == RandomAt(i)
  {
    RepeatsTimes(d, i % d, i / d);
    assert i % d + (i / d) * d == i;
  }

  lemma SmallDivisor(d: nat)
    requires 0 < d <= 15 && 255 % d == 0
    ensures 15 % d == 0
  {
    assert d == 1 || d == 2 || d == 3 || d == 4 || d == 5 || d == 6 || d == 7 || d == 8
        || d == 9 || d == 10 || d == 11 || d == 12 || d == 13 || d == 14 || d == 15;
  }

  lemma LargeDivisor(d: nat, k: nat)
    requires d * k == 255 && 2 <= k < 16 && 16 <= d
    ensures d == 85 || d == 51 || d == 17
  {
    assert k == 2 || k == 3 || k == 4 || k == 5 || k == 6 || k == 7 || k == 8
        || k == 9 || k == 10 || k == 11 || k == 12 || k == 13 || k == 14 || k == 15;
  }

  lemma DivisorsOf255(d: nat)
    requires 0 < d < 255 && 255 % d == 0
    ensures 15 % d == 0 || 51 % d == 0 || 85 % d == 0
  {
    if d <= 15 {
      SmallDivisor(d);
    } else {
      var k := 255 / d;
      assert d * k == 255;
      assert 2 <= k <= 15;
      LargeDivisor(d, k);
    }
  }

  lemma {:induction false} NoShorterPeriod(d: nat)
    requires 0 < d < 255
    ensures RandomAt(d) != 0x42
  {
    if RandomAt(d) == 0x42 {
      PeriodValues();
      Remainder(d, 255);
      if 255 % d == 0 {
        DivisorsOf255(d);
        Remainder(d, 15);
        Remainder(d, 51);
        Remainder(d, 85);
      } else {
        NoShorterPeriod(255 % d);
      }
    }
  }

  /** The inverse step of the register. */
  function PreviousRandom(r: bv8): bv8 {
    if r & 0x80 == 0 then r << 1 else ((r ^ 0xB8) << 1) | 0x01
  }

  lemma RandomUndone(r: bv8)
    ensures PreviousRandom(NextRandom(r)) == r
  {
  }

  lemma {:induction false} DistanceRepeats(i: nat, d: nat)
    requires RandomAt(i) == RandomAt(i + d)
    ensures RandomAt(d) == 0x42
  {
    if i > 0 {
      RandomUndone(RandomAt(i - 1));
      RandomUndone(RandomAt(i + d - 1));
      DistanceRepeats(i - 1, d);
    }
  }

  /** Any 255 consecutive elements are distinct. */
  lemma RandomDistinct(i: nat, j: nat)
    requires i < j < i + 255
    ensures RandomAt(i) != RandomAt(j)
  {
    if RandomAt(i) == RandomAt(j) {
      DistanceRepeats(i, j - i);
      NoShorterPeriod(j - i);
    }
  }

  // ----------------------------------------------------------------------- CRC

  /** One bit step multiplies by x modulo x^16 + x^12 + x^5 + 1: the result has no x^16. */
  lemma CrcBitIsRemainder(c: bv16)
    ensures (CrcBit(c) as bv32) == ((c as bv32) << 1) || (CrcBit(c) as bv32) == ((c as bv32) << 1) ^ 0x1_1021
  {
    if c & 0x8000 != 0 {
      ReducedShift(c);
    } else {
      PlainShift(c);
    }
  }

  lemma ReducedShift(c: bv16)
    requires c & 0x8000 != 0
    ensures (((c << 1) ^ 0x1021) as bv32) == ((c as bv32) << 1) ^ 0x1_1021
  {
  }

  lemma PlainShift(c: bv16)
    requires c & 0x8000 == 0
    ensures ((c << 1) as bv32) == (c as bv32) << 1
  {
  }

  /** `c` is the sum of `a` and `b` as polynomials. */
  predicate Sums(a: bv16, b: bv16, c: bv16) {
    a ^ b == c
  }

  predicate High16(c: bv16) {
    c & 0x8000 != 0
  }

  lemma SumOfHigh(a: bv16, b: bv16)
    requires High16(a) && High16(b)
    ensures CrcBit(a) ^ CrcBit(b) == CrcBit(a ^ b)
  {
  }

  lemma SumOfHighAndLow(a: bv16, b: bv16)
    requires High16(a) && !High16(b)
    ensures CrcBit(a) ^ CrcBit(b) == CrcBit(a ^ b)
  {
  }

  lemma SumOfLowAndHigh(a: bv16, b: bv16)
    requires !High16(a) && High16(b)
    ensures CrcBit(a) ^ CrcBit(b) == CrcBit(a ^ b)
  {
  }

  lemma SumOfLow(a: bv16, b: bv16)
    requires !High16(a) && !High16(b)
    ensures CrcBit(a) ^ CrcBit(b) == CrcBit(a ^ b)
  {
  }

  /** The bit step is linear. */
  lemma CrcBitSums(a: bv16, b: bv16, c: bv16)
    requires Sums(a, b, c)
    ensures Sums(CrcBit(a), CrcBit(b), CrcBit(c))
  {
    if High16(a) && High16(b) {
      SumOfHigh(a, b);
    } else if High16(a) {
      SumOfHighAndLow(a, b);
    } else if High16(b) {
      SumOfLowAndHigh(a, b);
    } else {
      SumOfLow(a, b);
    }
  }

  function Iterated(f: bv16 -> bv16, c: bv16, n: nat): bv16 {
    if n == 0 then c else f(Iterated(f, c, n - 1))
  }

  lemma {:induction false} IteratedSums(f: bv16 -> bv16, a: bv16, b: bv16, c: bv16, n: nat)
    requires forall x, y, z :: Sums(x, y, z) ==> Sums(f(x), f(y), f(z))
    requires Sums(a, b, c)
    ensures Sums(Iterated(f, a, n), Iterated(f, b, n), Iterated(f, c, n))
  {
    if n > 0 {
      IteratedSums(f, a, b, c, n - 1);
    }
  }

  lemma {:induction false} BitsAreIterated(c: bv16, n: nat)
    ensures CrcBits(c, n) == Iterated(CrcBit, c, n)
  {
    if n > 0 {
      BitsAreIterated(c, n - 1);
    }
  }

  lemma CrcBitsSums(a: bv16, b: bv16, c: bv16)
    requires Sums(a, b, c)
    ensures Sums(CrcBits(a, 8), CrcBits(b, 8), CrcBits(c, 8))
  {
    forall x, y, z | Sums(x, y, z) ensures Sums(CrcBit(x), CrcBit(y), CrcBit(z)) {
      CrcBitSums(x, y, z);
    }
    IteratedSums(CrcBit, a, b, c, 8);
    BitsAreIterated(a, 8);
    BitsAreIterated(b, 8);
    BitsAreIterated(c, 8);
  }

  lemma MixLinear(a: bv16, b: bv16, x: bv8, y: bv8)
    ensures Sums(Mix(a, x), Mix(b, y), Mix(a ^ b, x ^ y))
  {
  }

  /** The byte step is linear in state and byte together. */
  lemma CrcByteLinear(a: bv16, b: bv16, x: bv8, y: bv8)
    ensures Sums(CrcByte(a, x), CrcByte(b, y), CrcByte(a ^ b, x ^ y))
  {
    MixLinear(a, b, x, y);
    CrcBitsSums(Mix(a, x), Mix(b, y), Mix(a ^ b, x ^ y));
  }

  lemma CrcSnoc(m: Bytes, b: bv8)
    ensures Crc([]) == 0xFFFF && Crc(m + [b]) == CrcByte(Crc(m), b)
  {
    assert (m + [b])[..|m|] == m;
  }

  function FourBits(c: bv16): bv16 {
    CrcBit(CrcBit(CrcBit(CrcBit(c))))
  }

  function EightBits(c: bv16): bv16 {
    FourBits(FourBits(c))
  }

  lemma CrcFourBits(c: bv16, n: nat)
    ensures CrcBits(c, n + 4) == FourBits(CrcBits(c, n))
  {
    assert CrcBits(c, n + 1) == CrcBit(CrcBits(c, n));
    assert CrcBits(c, n + 2) == CrcBit(CrcBits(c, n + 1));
    assert CrcBits(c, n + 3) == CrcBit(CrcBits(c, n + 2));
  }

  lemma CrcByteUnrolled(c: bv16, b: bv8)
    ensures CrcByte(c, b) == EightBits(Mix(c, b))
  {
    CrcFourBits(Mix(c, b), 0);
    CrcFourBits(Mix(c, b), 4);
  }

  lemma CrcStart(data: Bytes)
    ensures Crc(data[..0]) == 0xFFFF
  {
    assert data[..0] == [];
  }

  lemma CrcNext(data: Bytes, k: nat, c: bv16, next: bv16)
    requires k < |data| && Crc(data[..k]) == c && EightBits(Mix(c, data[k])) == next
    ensures Crc(data[..k + 1]) == next
  {
    assert data[..k + 1] == data[..k] + [data[k]];
    CrcSnoc(data[..k], data[k]);
    CrcByteUnrolled(c, data[k]);
  }

  const DIGITS: Bytes := [0x31, 0x32, 0x33, 0x34, 0x35, 0x36, 0x37, 0x38, 0x39]

  lemma CrcCheckValue2()
    ensures Crc(DIGITS[..2]) == 0x3DBA
  {
    CrcStart(DIGITS);
    CrcNext(DIGITS, 0, 0xFFFF, 0xC782);
    CrcNext(DIGITS, 1, 0xC782, 0x3DBA);
  }

  lemma CrcCheckValue4()
    ensures Crc(DIGITS[..4]) == 0x5349
  {
    CrcCheckValue2();
    CrcNext(DIGITS, 2, 0x3DBA, 0x5BCE);
    CrcNext(DIGITS, 3, 0x5BCE, 0x5349);
  }

  lemma CrcCheckValue6()
    ensures Crc(DIGITS[..6]) == 0x2EF4
  {
    CrcCheckValue4();
    CrcNext(DIGITS, 4, 0x5349, 0x4560);
    CrcNext(DIGITS, 5, 0x4560, 0x2EF4);
  }

  lemma CrcCheckValue8()
    ensures Crc(DIGITS[..8]) == 0xA12B
  {
    CrcCheckValue6();
    CrcNext(DIGITS, 6, 0x2EF4, 0x7718);
    CrcNext(DIGITS, 7, 0x7718, 0xA12B);
  }

  /** The check value of this CRC: that of the digits 1 to 9. */
  lemma CrcCheckValue()
    ensures Crc(DIGITS) == 0x29B1
  {
    CrcCheckValue8();
    CrcNext(DIGITS, 8, 0xA12B, 0x29B1);
    assert DIGITS[..9] == DIGITS;
  }

  const ACK_ONE: Bytes := [0x81]

  /** The CRC of an acknowledgement. */
  lemma CrcOfAck()
    ensures Crc(ACK_ONE) == 0x6059
  {
    CrcStart(ACK_ONE);
    CrcNext(ACK_ONE, 0, 0xFFFF, 0x6059);
    assert ACK_ONE[..1] == ACK_ONE;
  }

  const FIVE_BYTES: Bytes := [0x25, 0x42, 0x21, 0xA8, 0x56]

  lemma CrcOfData2()
    ensures Crc(FIVE_BYTES[..2]) == 0x8C9A
  {
    CrcStart(FIVE_BYTES);
    CrcNext(FIVE_BYTES, 0, 0xFFFF, 0x9537);
    CrcNext(FIVE_BYTES, 1, 0x9537, 0x8C9A);
  }

  lemma CrcOfData4()
    ensures Crc(FIVE_BYTES[..4]) == 0x7D33
  {
    CrcOfData2();
    CrcNext(FIVE_BYTES, 2, 0x8C9A, 0xFE47);
    CrcNext(FIVE_BYTES, 3, 0xFE47, 0x7D33);
  }

  /** The CRC of a randomized DATA frame. */
  lemma CrcOfData()
    ensures Crc(FIVE_BYTES) == 0xA609
  {
    CrcOfData4();
    CrcNext(FIVE_BYTES, 4, 0x7D33, 0xA609);
    assert FIVE_BYTES[..5] == FIVE_BYTES;
  }

  // -------------------------------------------------------------- whole frames

  lemma ControlBits()
    ensures (0x9B as bv8) & 0x80 != 0 && (0x9B as bv8) & 0xC0 == 0x80 && (0x9B as bv8) & 0x20 == 0
    ensures ((0x9B as bv8) >> 4) & 0x01 == 1 && ((0x9B as bv8) >> 3) & 0x01 == 1 && (0x9B as bv8) & 0x07 == 3
    ensures (0xA2 as bv8) & 0x80 != 0 && (0xA2 as bv8) & 0xC0 == 0x80 && (0xA2 as bv8) & 0x20 != 0
    ensures ((0xA2 as bv8) >> 4) & 0x01 == 0 && ((0xA2 as bv8) >> 3) & 0x01 == 0 && (0xA2 as bv8) & 0x07 == 2
  {
  }

  lemma ResetBits()
    ensures (0xC0 as bv8) & 0x80 != 0 && (0xC0 as bv8) & 0xC0 != 0x80
    ensures (0xC1 as bv8) & 0x80 != 0 && (0xC1 as bv8) & 0xC0 != 0x80
    ensures (0xC2 as bv8) & 0x80 != 0 && (0xC2 as bv8) & 0xC0 != 0x80
    ensures (0xC3 as bv8) & 0x80 != 0 && (0xC3 as bv8) & 0xC0 != 0x80
    ensures Word(0x12, 0x34) == 0x1234
  {
  }

  /** What the other frames parse to: flags and number of ACK and NAK, data of RSTACK and ERROR, none of RST. */
  lemma ParseTable(x: bv8)
    ensures ParseContent([0x9B, 0x12, 0x34]) == Some(Frame(Ack, 0x9B, 0, 3, false, true, true, [], 0x1234))
    ensures ParseContent([0xA2, 0x12, 0x34]) == Some(Frame(Nak, 0xA2, 0, 2, false, false, false, [], 0x1234))
    ensures ParseContent([0xC0, x, 0x12, 0x34]) == Some(Frame(Rst, 0xC0, 0, 0, false, false, false, [], 0x1234))
    ensures ParseContent([0xC1, x, 0x12, 0x34]) == Some(Frame(RstAck, 0xC1, 0, 0, false, false, false, [x], 0x1234))
    ensures ParseContent([0xC2, x, 0x12, 0x34]) == Some(Frame(Error, 0xC2, 0, 0, false, false, false, [x], 0x1234))
    ensures ParseContent([0xC3, x, 0x12, 0x34]) == None && ParseContent([0x00, x]) == None
  {
    ControlBits();
    ResetBits();
    assert [0xC1, x, 0x12, 0x34][1..2] == [x] && [0xC2, x, 0x12, 0x34][1..2] == [x];
  }

  lemma RandomStart()
    ensures RandomAt(0) == 0x42 && RandomAt(1) == 0x21 && RandomAt(2) == 0xA8 && RandomAt(3) == 0x54
  {
    assert NextRandom(0x42) == 0x21 && NextRandom(0x21) == 0xA8 && NextRandom(0xA8) == 0x54;
  }

  lemma {:induction false} EscapePlain(data: Bytes)
    requires forall b :: b in data ==> !Reserved(b)
    ensures Escape(data) == data
  {
    if data != [] {
      EscapePlain(data[..|data| - 1]);
      assert data == data[..|data| - 1] + [data[|data| - 1]];
    }
  }

  /** The frame that acknowledges frame 0. */
  lemma AckFrameBytes()
    ensures BuildAckFrame(1) == [0x7E, 0x81, 0x60, 0x59, 0x7E]
  {
    CrcOfAck();
    var control: bv8 := 0x80 | (1 & 0x07);
    assert control == 0x81;
    assert [control] + [] == ACK_ONE;
    var crc: bv16 := 0x6059;
    assert High(crc) == 0x60 && Low(crc) == 0x59;
    assert Content(0x81, []) == [0x81, 0x60, 0x59];
    EscapePlain([0x81, 0x60, 0x59]);
  }

  /** A DATA frame with four bytes of payload. */
  lemma DataFrameBytes()
    ensures BuildDataFrame(0x25, [0x00, 0x00, 0x00, 0x02]) == [0x7E, 0x25, 0x42, 0x21, 0xA8, 0x56, 0xA6, 0x09, 0x7E]
  {
    RandomStart();
    CrcOfData();
    var field: Bytes := [0x42, 0x21, 0xA8, 0x56];
    assert 0x02 as bv8 ^ 0x54 == 0x56;
    assert Randomize([0x00, 0x00, 0x00, 0x02]) == field;
    assert [0x25] + field == FIVE_BYTES;
    var crc: bv16 := 0xA609;
    assert High(crc) == 0xA6 && Low(crc) == 0x09;
    assert Content(0x25, field) == [0x25, 0x42, 0x21, 0xA8, 0x56, 0xA6, 0x09];
    EscapePlain([0x25, 0x42, 0x21, 0xA8, 0x56, 0xA6, 0x09]);
  }
}
