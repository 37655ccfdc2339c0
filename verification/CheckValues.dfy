/** The CRC-32 of zip.ts is the one of IEEE 802.3: the terms of its polynomial, and the known
    checksums of two messages. */
module CheckValues {
  import opened Bytes
  import opened Iteration
  import opened Crc32

  /** `n` shifted right by `i`. */
  function Quotient(n: nat, i: nat): nat {
    if i == 0 then n else Quotient(n / 2, i - 1)
  }

  lemma {:induction false} BitIs(n: nat, width: nat, i: nat)
    requires i < width
    ensures Bits(n, width)[i] <==> Quotient(n, i) % 2 == 1
  {
    if i > 0 {
      BitIs(n / 2, width - 1, i - 1);
      assert Bits(n, width)[i] == Bits(n / 2, width - 1)[i - 1];
    }
  }

  lemma {:induction false} QuotientNext(n: nat, i: nat)
    ensures Quotient(n, i + 1) == Quotient(n, i) / 2
  {
    if i > 0 { QuotientNext(n / 2, i - 1); }
  }

  /** Four bits at a time. */
  lemma Nibble(n: nat, width: nat, k: nat, m: nat)
    requires k + 4 <= width && Quotient(n, k) == m
    ensures Bits(n, width)[k] <==> m % 2 == 1
    ensures Bits(n, width)[k + 1] <==> m / 2 % 2 == 1
    ensures Bits(n, width)[k + 2] <==> m / 4 % 2 == 1
    ensures Bits(n, width)[k + 3] <==> m / 8 % 2 == 1
    ensures Quotient(n, k + 4) == m / 16
  {
    BitIs(n, width, k);
    BitIs(n, width, k + 1);
    BitIs(n, width, k + 2);
    BitIs(n, width, k + 3);
    QuotientNext(n, k);
    QuotientNext(n, k + 1);
    QuotientNext(n, k + 2);
    QuotientNext(n, k + 3);
  }

  lemma LowestTerms(n: nat, i: nat)
    requires n % 2 == n / 2 % 2 == n / 4 % 2 == n / 8 % 2 == 0 && n / 16 == 0xedb_8832 && i < 8
    ensures Bits(n, 32)[i] <==> i == 5
    ensures Quotient(n, 8) == 0xed_b883
  {
    Nibble(n, 32, 0, n);
    Nibble(n, 32, 4, 0xedb_8832);
  }

  lemma LowTerms(n: nat, i: nat)
    requires Quotient(n, 8) == 0xed_b883 && 8 <= i < 16
    ensures Bits(n, 32)[i] <==> i == 8 || i == 9 || i == 15
    ensures Quotient(n, 16) == 0xedb8
  {
    Nibble(n, 32, 8, 0xed_b883);
    Nibble(n, 32, 12, 0xe_db88);
  }

  lemma HighTerms(n: nat, i: nat)
    requires Quotient(n, 16) == 0xedb8 && 16 <= i < 24
    ensures Bits(n, 32)[i] <==> i != 16 && i != 17 && i != 18 && i != 22
    ensures Quotient(n, 24) == 0xed
  {
    Nibble(n, 32, 16, 0xedb8);
    Nibble(n, 32, 20, 0xedb);
  }

  lemma HighestTerms(n: nat, i: nat)
    requires Quotient(n, 24) == 0xed && 24 <= i < 32
    ensures Bits(n, 32)[i] <==> i != 25 && i != 28
  {
    Nibble(n, 32, 24, 0xed);
    Nibble(n, 32, 28, 0xe);
  }

  lemma Terms(n: nat, i: nat)
    requires n == 0xedb8_8320 && i < 32
    ensures Bits(n, 32)[i]
      <==> i == 5 || i == 8 || i == 9 || i == 15 || (i >= 19 && i != 22 && i != 25 && i != 28)
  {
    LowestTerms(n, if i < 8 then i else 0);
    LowTerms(n, if 8 <= i < 16 then i else 8);
    HighTerms(n, if 16 <= i < 24 then i else 16);
    HighestTerms(n, if 24 <= i then i else 24);
  }

  lemma ExponentForm(e: nat, i: nat)
    requires i + e == 31
    ensures e in [26, 23, 22, 16, 12, 11, 10, 8, 7, 5, 4, 2, 1, 0]
      <==> i == 5 || i == 8 || i == 9 || i == 15 || (i >= 19 && i != 22 && i != 25 && i != 28)
  {
  }

  /** The polynomial is x^32 and these powers of x; bit 31 - e stands for x^e. */
  lemma PolynomialTerms(e: nat)
    requires e < 32
    ensures Polynomial()[31 - e] <==> e in [26, 23, 22, 16, 12, 11, 10, 8, 7, 5, 4, 2, 1, 0]
  {
    Terms(0xedb8_8320, 31 - e);
    ExponentForm(e, 31 - e);
  }

  /** The word whose only bit is bit `k`. */
  function OneBit(k: nat): (w: Word)
    requires k < 32
    ensures forall i :: 0 <= i < 32 ==> w[i] == (i == k)
  {
    Repeated(false, k) + [true] + Repeated(false, 31 - k)
  }

  lemma StepOneBit(k: nat)
    requires k < 31
    ensures TableStep(OneBit(k + 1)) == OneBit(k)
  {
  }

  lemma XorNothing(a: Word, zero: Word)
    requires forall i :: 0 <= i < 32 ==> !zero[i]
    ensures Xor(a, zero) == a
  {
  }

  lemma LastBit(polynomial: Word)
    ensures StepWith(polynomial, OneBit(0)) == polynomial
  {
    XorNothing(polynomial, Shift(OneBit(0)));
  }

  /** Bit 7 takes eight steps to become the polynomial. */
  lemma EightStepsOfBit7()
    ensures EightSteps(OneBit(7)) == Polynomial()
  {
    StepOneBit(6);
    StepOneBit(5);
    StepOneBit(4);
    StepOneBit(3);
    FourSteps<Word>(TableStep, OneBit(7), OneBit(6), OneBit(5), OneBit(4), OneBit(3));
    StepOneBit(2);
    StepOneBit(1);
    StepOneBit(0);
    LastBit(Polynomial());
    FourSteps<Word>(TableStep, OneBit(3), OneBit(2), OneBit(1), OneBit(0), Polynomial());
  }

  lemma RemainderOfByte(byte: Byte)
    ensures Remainder([byte]) == Xor(EightSteps(Xor(ALL_ONES, ByteWord(byte))), ALL_ONES)
  {
    assert MessageBits([byte]) == ByteBits(byte) by {
      assert [byte][1..] == [] && MessageBits([]) == [] && ByteBits(byte) + [] == ByteBits(byte);
    }
    DivideByte(ALL_ONES, byte);
  }

  /** Seven ones and this bit. */
  lemma SevenOnes(byte: Byte, top: bool)
    requires byte == if top then 0xff else 0x7f
    ensures ByteBits(byte) == [true, true, true, true, true, true, true, top]
  {
    Nibble(byte, 8, 0, byte);
    Nibble(byte, 8, 4, byte / 16);
  }

  lemma ByteWordIs(byte: Byte, top: bool, i: nat)
    requires byte == (if top then 0xff else 0x7f) && i < 32
    ensures ByteWord(byte)[i] == (i < 7 || (i == 7 && top))
  {
    SevenOnes(byte, top);
  }

  /** What the two bytes leave of the initial ones. */
  lemma FirstSum(byte: Byte, top: bool)
    requires byte == if top then 0xff else 0x7f
    ensures Xor(ALL_ONES, ByteWord(byte)) == if top then HighOnes() else Xor(OneBit(7), HighOnes())
  {
    var sum, expected := Xor(ALL_ONES, ByteWord(byte)), if top then HighOnes() else Xor(OneBit(7), HighOnes());
    forall i | 0 <= i < 32 ensures sum[i] == expected[i] {
      ByteWordIs(byte, top, i);
    }
  }

  /** All ones but the lowest byte. */
  function HighOnes(): (w: Word)
    ensures forall i :: 0 <= i < 32 ==> w[i] == (i >= 8)
  {
    Repeated(false, 8) + Repeated(true, 24)
  }

  lemma StepsOfHighOnes(i: nat)
    requires i < 32
    ensures EightSteps(HighOnes())[i] == (i < 24)
  {
    HighBitsShift(HighOnes());
  }

  /** The checksum of the byte 0xff is 0xff000000: it cancels the initial ones. */
  lemma CheckAllOnes(i: nat)
    requires i < 32
    ensures Remainder([0xff])[i] == (i >= 24)
  {
    RemainderOfByte(0xff);
    FirstSum(0xff, true);
    StepsOfHighOnes(i);
  }

  /** The checksum of the byte 0x7f is 0x12b88320: one subtraction of the polynomial more. */
  lemma CheckSevenOnes()
    ensures Remainder([0x7f]) == Xor(Polynomial(), Remainder([0xff]))
  {
    RemainderOfByte(0x7f);
    RemainderOfByte(0xff);
    FirstSum(0xff, true);
    FirstSum(0x7f, false);
    EightLinear(OneBit(7), HighOnes());
    EightStepsOfBit7();
    XorAssociative(Polynomial(), EightSteps(HighOnes()), ALL_ONES);
  }

  lemma XorAssociative(a: Word, b: Word, c: Word)
    ensures Xor(Xor(a, b), c) == Xor(a, Xor(b, c))
  {
  }
}
