/** CRC-32 by table lookup, against division of the message bits. A 32-bit word is the
    sequence of its bits, lowest first.
    Models crc32 and its table in apps/web/src/lib/zip.ts. */
module Crc32 {
  import opened Bytes
  import opened Iteration

  type Word = w: seq<bool> | |w| == 32 witness Repeated(false, 32)

  function Repeated(bit: bool, count: nat): (bits: seq<bool>)
    ensures |bits| == count && forall i :: 0 <= i < count ==> bits[i] == bit
  {
    if count == 0 then [] else [bit] + Repeated(bit, count - 1)
  }

  // ----- words and numbers -----

  function Bits(n: nat, width: nat): (bits: seq<bool>)
    ensures |bits| == width
    decreases width, n
  {
    if width == 0 then [] else [n % 2 == 1] + Bits(n / 2, width - 1)
  }

  function Value(bits: seq<bool>): nat {
    if bits == [] then 0 else (if bits[0] then 1 else 0) + 2 * Value(bits[1..])
  }

  function Power2(n: nat): (p: nat)
    ensures p > 0
  {
    if n == 0 then 1 else 2 * Power2(n - 1)
  }

  /** The value of `width` bits, written with more, is the same bits and zeros. */
  lemma {:induction false} BitsOfValue(bits: seq<bool>, more: nat)
    ensures Value(bits) < Power2(|bits|)
    ensures Bits(Value(bits), |bits| + more) == bits + Repeated(false, more)
  {
    if bits == [] {
      ZeroBits(more);
    } else {
      BitsOfValue(bits[1..], more);
      assert Value(bits) / 2 == Value(bits[1..]) && (Value(bits) % 2 == 1 <==> bits[0]);
      assert bits + Repeated(false, more) == [bits[0]] + (bits[1..] + Repeated(false, more));
    }
  }

  lemma {:induction false} ZeroBits(width: nat)
    ensures Bits(0, width) == Repeated(false, width)
  {
    if width > 0 { ZeroBits(width - 1); }
  }

  /** The unsigned value of a word round-trips through its 32 bits. */
  lemma WordOfValue(w: Word)
    ensures Bits(Value(w), 32) == w && Value(w) < U32_LIMIT
  {
    BitsOfValue(w, 0);
    assert w + Repeated(false, 0) == w;
    assert Power2(8) == 256 && Power2(16) == 65536 && Power2(24) == 16777216 by {
      assert Power2(4) == 16 && Power2(12) == 4096 && Power2(20) == 1048576;
    }
    assert Power2(28) == 268435456;
  }

  // ----- word operations -----

  function Xor(a: Word, b: Word): (x: Word)
    ensures forall i :: 0 <= i < 32 ==> x[i] == (a[i] != b[i])
  {
    seq(32, i requires 0 <= i < 32 => a[i] != b[i])
  }

  /** Logical shift right by one. */
  function Shift(a: Word): (s: Word)
    ensures forall i :: 0 <= i < 31 ==> s[i] == a[i + 1]
    ensures !s[31]
  {
    a[1..] + [false]
  }

  function ShiftByte(a: Word): Word {
    a[8..] + Repeated(false, 8)
  }

  function LowByte(a: Word): (low: Word)
    ensures forall i :: 0 <= i < 32 ==> low[i] == (i < 8 && a[i])
  {
    a[..8] + Repeated(false, 24)
  }

  const ALL_ONES: Word := Repeated(true, 32)
  const ZERO: Word := Repeated(false, 32)

  function Polynomial(): Word {
    Bits(0xedb8_8320, 32)
  }

  // ----- the reference: bit-serial reflected division (section 8 of RFC 1952) -----

  /** Feeds one message bit: shifts the register right and subtracts the polynomial when
      the bit that falls out differs from the message bit. */
  function ShiftIn(register: Word, bit: bool): Word {
    if register[0] == bit then Shift(register) else Xor(Polynomial(), Shift(register))
  }

  /** The low eight bits, lowest first. */
  function ByteBits(byte: Byte): seq<bool> {
    Bits(byte, 8)
  }

  function MessageBits(bytes: seq<Byte>): seq<bool> {
    if bytes == [] then [] else ByteBits(bytes[0]) + MessageBits(bytes[1..])
  }

  function Divide(register: Word, bits: seq<bool>): Word {
    Fold<Word, bool>(ShiftIn, register, bits)
  }

  /** The checksum by definition. */
  function Remainder(bytes: seq<Byte>): Word {
    Xor(Divide(ALL_ONES, MessageBits(bytes)), ALL_ONES)
  }

  // ----- eight steps at once -----

  /** One step of the table builder. `polynomial` stays abstract in the proofs. */
  function StepWith(polynomial: Word, c: Word): Word {
    if c[0] then Xor(polynomial, Shift(c)) else Shift(c)
  }

  function TableStep(c: Word): Word {
    StepWith(Polynomial(), c)
  }

  function EightSteps(c: Word): Word {
    Iterate<Word>(TableStep, c, 8)
  }

  lemma StepLinear(p: Word, a: Word, b: Word)
    ensures StepWith(p, Xor(a, b)) == Xor(StepWith(p, a), StepWith(p, b))
  {
  }

  lemma EightLinear(a: Word, b: Word)
    ensures EightSteps(Xor(a, b)) == Xor(EightSteps(a), EightSteps(b))
  {
    forall x: Word, y: Word ensures TableStep(Xor(x, y)) == Xor(TableStep(x), TableStep(y)) {
      StepLinear(Polynomial(), x, y);
    }
    IterateRespects<Word>(TableStep, Xor, a, b, 8);
  }

  /** Shifted right `k` times. */
  function Shifted(c: Word, k: nat): (s: Word)
    requires k <= 32
    ensures forall i :: 0 <= i < 32 - k ==> s[i] == c[i + k]
    ensures forall i :: 32 - k <= i < 32 ==> !s[i]
  {
    c[k..] + Repeated(false, k)
  }

  lemma ShiftedAgain(c: Word, k: nat)
    requires k < 32
    ensures Shift(Shifted(c, k)) == Shifted(c, k + 1)
  {
  }

  lemma ShiftStep(c: Word, k: nat)
    requires k < 8 && forall i :: 0 <= i < 8 ==> !c[i]
    ensures TableStep(Shifted(c, k)) == Shifted(c, k + 1)
  {
    ShiftedAgain(c, k);
  }

  /** Eight steps of a word without low bits only shift it. */
  lemma HighBitsShift(c: Word)
    requires forall i :: 0 <= i < 8 ==> !c[i]
    ensures EightSteps(c) == Shifted(c, 8)
  {
    assert Shifted(c, 0) == c;
    ShiftStep(c, 0);
    ShiftStep(c, 1);
    ShiftStep(c, 2);
    ShiftStep(c, 3);
    FourSteps<Word>(TableStep, c, Shifted(c, 1), Shifted(c, 2), Shifted(c, 3), Shifted(c, 4));
    ShiftStep(c, 4);
    ShiftStep(c, 5);
    ShiftStep(c, 6);
    ShiftStep(c, 7);
    FourSteps<Word>(TableStep, Shifted(c, 4), Shifted(c, 5), Shifted(c, 6), Shifted(c, 7), Shifted(c, 8));
  }

  function HighBytes(c: Word): (high: Word)
    ensures forall i :: 0 <= i < 32 ==> high[i] == (i >= 8 && c[i])
  {
    Repeated(false, 8) + c[8..]
  }

  /** One lookup replaces eight steps: the low byte selects, the rest shifts. */
  lemma Lookup(c: Word)
    ensures EightSteps(c) == Xor(EightSteps(LowByte(c)), ShiftByte(c))
  {
    var low, high := LowByte(c), HighBytes(c);
    assert Xor(low, high) == c;
    EightLinear(low, high);
    HighBitsShift(high);
    assert Shifted(high, 8) == ShiftByte(c);
  }

  // ----- feeding a byte -----

  function LowBit(w: Word): bool {
    w[0]
  }

  lemma FeedBit(register: Word, value: Word)
    ensures Xor(ShiftIn(register, LowBit(value)), Shift(value)) == TableStep(Xor(register, value))
  {
  }

  function ByteWord(byte: Byte): Word {
    ByteBits(byte) + Repeated(false, 24)
  }

  lemma {:induction false} UnfoldIsPrefix(w: Word, count: nat)
    requires count <= 32
    ensures Unfold<Word, bool>(LowBit, Shift, w, count) == w[..count]
    decreases count
  {
    if count > 0 {
      UnfoldIsPrefix(Shift(w), count - 1);
      assert w[..count] == [w[0]] + Shift(w)[..count - 1];
    }
  }

  lemma {:induction false} IterateShift(w: Word, k: nat, count: nat)
    requires k + count <= 32
    ensures Iterate<Word>(Shift, Shifted(w, k), count) == Shifted(w, k + count)
    decreases count
  {
    if count > 0 {
      ShiftedAgain(w, k);
      IterateShift(w, k + 1, count - 1);
    }
  }

  lemma FeedEveryBit()
    ensures forall r: Word, v: Word :: Xor(ShiftIn(r, LowBit(v)), Shift(v)) == TableStep(Xor(r, v))
  {
    forall r: Word, v: Word ensures Xor(ShiftIn(r, LowBit(v)), Shift(v)) == TableStep(Xor(r, v)) {
      FeedBit(r, v);
    }
  }

  lemma FeedWord(register: Word, word: Word, count: nat)
    requires count <= 32
    ensures Xor(Divide(register, word[..count]), Iterate<Word>(Shift, word, count))
         == Iterate<Word>(TableStep, Xor(register, word), count)
  {
    FeedEveryBit();
    FeedAll<Word, bool>(ShiftIn, LowBit, Shift, Xor, TableStep, register, word, count);
    UnfoldIsPrefix(word, count);
  }

  lemma ShiftedOut(word: Word, count: nat)
    requires count <= 32
    ensures Iterate<Word>(Shift, word, count) == Shifted(word, count)
  {
    assert Shifted(word, 0) == word;
    IterateShift(word, 0, count);
  }

  /** Dividing the bits of a short word is as many steps on register plus word. */
  lemma DivideWord(register: Word, word: Word, count: nat)
    requires count <= 32 && Shifted(word, count) == ZERO
    ensures Divide(register, word[..count]) == Iterate<Word>(TableStep, Xor(register, word), count)
  {
    FeedWord(register, word, count);
    ShiftedOut(word, count);
  }

  lemma DivideByte(register: Word, byte: Byte)
    ensures Divide(register, ByteBits(byte)) == EightSteps(Xor(register, ByteWord(byte)))
  {
    var word := ByteWord(byte);
    assert word[..8] == ByteBits(byte) && Shifted(word, 8) == ZERO;
    DivideWord(register, word, 8);
  }

  lemma FeedByte(register: Word, byte: Byte, rest: seq<bool>)
    ensures var sum := Xor(register, ByteWord(byte));
      Divide(register, ByteBits(byte) + rest) == Divide(Xor(EightSteps(LowByte(sum)), ShiftByte(register)), rest)
  {
    var sum := Xor(register, ByteWord(byte));
    FoldConcat<Word, bool>(ShiftIn, register, ByteBits(byte), rest);
    DivideByte(register, byte);
    Lookup(sum);
    ByteStaysLow(register, byte);
  }

  /** A byte only touches the low eight bits of a word. */
  lemma ByteStaysLow(register: Word, byte: Byte)
    ensures ShiftByte(Xor(register, ByteWord(byte))) == ShiftByte(register)
  {
    var sum := Xor(register, ByteWord(byte));
    assert forall i :: 8 <= i < 32 ==> sum[i] == register[i];
    assert sum[8..] == register[8..];
  }

  // ----- the program -----

  /** Entry `n` is what eight steps make of the word with value `n`. */
  ghost predicate IsTable(table: seq<Word>) {
    |table| == 256 && forall n :: 0 <= n < 256 ==> table[n] == EntryOf(n)
  }

  function EntryOf(n: nat): Word {
    EightSteps(Bits(n, 32))
  }

  lemma IndexSelects(table: seq<Word>, c: Word)
    requires IsTable(table)
    ensures Value(c[..8]) < 256 && table[Value(c[..8])] == EightSteps(LowByte(c))
  {
    BitsOfValue(c[..8], 24);
    assert Power2(8) == 256 by { assert Power2(4) == 16 && Power2(6) == 64; }
    assert Bits(Value(c[..8]), 32) == LowByte(c);
  }

  method BuildTable() returns (table: array<Word>)
    ensures fresh(table) && IsTable(table[..])
  {
    table := new Word[256](_ => ZERO);
    var n := 0;
    while n < 256
      invariant 0 <= n <= 256
      invariant forall m :: 0 <= m < n ==> table[m] == EntryOf(m)
    {
      table[n] := BuildEntry(n);
      n := n + 1;
    }
  }

  method NextStep(c: Word, ghost count: nat) returns (next: Word)
    ensures Iterate<Word>(TableStep, next, count) == Iterate<Word>(TableStep, c, count + 1)
  {
    next := TableStep(c);
  }

  method BuildEntry(n: nat) returns (c: Word)
    ensures c == EntryOf(n)
  {
    c := Bits(n, 32);
    for k := 8 downto 0
      invariant Iterate<Word>(TableStep, c, k) == EntryOf(n)
    {
      c := NextStep(c, k);
    }
  }

  /** The table-driven checksum is the remainder of the division, for every input. */
  method Checksum(table: seq<Word>, bytes: seq<Byte>) returns (crc: Word)
    requires IsTable(table)
    ensures crc == Remainder(bytes)
  {
    crc := ALL_ONES;
    var i := 0;
    assert bytes[0..] == bytes;
    while i < |bytes|
      invariant 0 <= i <= |bytes|
      invariant Divide(crc, MessageBits(bytes[i..])) == Divide(ALL_ONES, MessageBits(bytes))
    {
      assert bytes[i..][1..] == bytes[i + 1..];
      FeedByte(crc, bytes[i], MessageBits(bytes[i + 1..]));
      var sum := Xor(crc, ByteWord(bytes[i]));
      IndexSelects(table, sum);
      crc := Xor(table[Value(sum[..8])], ShiftByte(crc));
      i := i + 1;
    }
    crc := Xor(crc, ALL_ONES);
  }
}
