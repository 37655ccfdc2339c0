/** Base58 decoding of Solana addresses.
    Models apps/web/src/lib/solana-address.ts. */
module Base58 {
  import opened Bytes
  import opened Outcomes
  import opened Results

  function Span(first: char, last: char): (s: string)
    requires first <= last < '\U{80}'
    ensures |s| == last as int - first as int + 1
    ensures forall i :: 0 <= i < |s| ==> s[i] as int == first as int + i
    decreases last as int - first as int
  {
    if first == last then [first] else Span(first, (last as int - 1) as char) + [last]
  }

  /** The Bitcoin alphabet: digits and letters without `0`, `I`, `O` and `l`. */
  function Alphabet(): string {
    Span('1', '9') + Span('A', 'H') + Span('J', 'N') + Span('P', 'Z') + Span('a', 'k') + Span('m', 'z')
  }

  const ADDRESS_BYTES: nat := 32

  type Digit = d: int | 0 <= d < 58

  // ----- the alphabet -----

  /** Place of a character in the alphabet, or -1. */
  function IndexOf(c: char): (d: int)
    ensures -1 <= d < 58
  {
    if '1' <= c <= '9' then c as int - '1' as int
    else if 'A' <= c <= 'H' then c as int - 'A' as int + 9
    else if 'J' <= c <= 'N' then c as int - 'J' as int + 17
    else if 'P' <= c <= 'Z' then c as int - 'P' as int + 22
    else if 'a' <= c <= 'k' then c as int - 'a' as int + 33
    else if 'm' <= c <= 'z' then c as int - 'm' as int + 44
    else -1
  }

  lemma AlphabetIndexed(c: char)
    ensures -1 <= IndexOf(c) < 58 == |Alphabet()|
    ensures IndexOf(c) >= 0 ==> Alphabet()[IndexOf(c)] == c
    ensures IndexOf(c) < 0 ==> c !in Alphabet()
  {
  }

  function CharOf(d: Digit): (c: char)
    ensures IndexOf(c) == d
  {
    if d < 9 then ('1' as int + d) as char
    else if d < 17 then ('A' as int + d - 9) as char
    else if d < 22 then ('J' as int + d - 17) as char
    else if d < 33 then ('P' as int + d - 22) as char
    else if d < 44 then ('a' as int + d - 33) as char
    else ('m' as int + d - 44) as char
  }

  predicate InAlphabet(value: string) {
    forall c :: c in value ==> IndexOf(c) >= 0
  }

  // ----- what a string stands for -----

  /** The number written in base 58, highest digit first. */
  function Number(value: string): nat
    requires InAlphabet(value)
  {
    if value == "" then 0 else 58 * Number(value[..|value| - 1]) + IndexOf(value[|value| - 1])
  }

  function LeadingOnes(value: string): (n: nat)
    ensures n <= |value| && forall i :: 0 <= i < n ==> value[i] == '1'
    ensures n < |value| ==> value[n] != '1'
  {
    if value == "" || value[0] != '1' then 0 else 1 + LeadingOnes(value[1..])
  }

  /** A number in bytes, highest first, without leading zeros. */
  function BigEndian(n: nat): seq<Byte> {
    if n == 0 then [] else BigEndian(n / 256) + [n % 256]
  }

  /** The bytes a string stands for: a zero byte for each leading `1`, then the number. */
  function Decoded(value: string): Option<seq<Byte>> {
    if value == "" || !InAlphabet(value) then None
    else Some(BytesOf(value))
  }

  function BytesOf(value: string): seq<Byte>
    requires InAlphabet(value)
  {
    Zeros(LeadingOnes(value)) + BigEndian(Number(value))
  }

  // ----- the program -----

  function Reversed(s: seq<Byte>): (r: seq<Byte>)
    ensures |r| == |s| && forall i :: 0 <= i < |s| ==> r[i] == s[|s| - 1 - i]
  {
    if s == [] then [] else Reversed(s[1..]) + [s[0]]
  }

  /** Little-endian bytes without a zero at the high end are the number reversed. */
  lemma {:induction false} MinimalIsBigEndian(bytes: seq<Byte>)
    requires bytes != [] ==> bytes[|bytes| - 1] != 0
    ensures Reversed(bytes) == BigEndian(FromLE(bytes))
    ensures bytes != [] ==> FromLE(bytes) > 0
  {
    if bytes != [] {
      var rest := bytes[1..];
      MinimalIsBigEndian(rest);
      assert FromLE(bytes) % 256 == bytes[0] && FromLE(bytes) / 256 == FromLE(rest);
    }
  }

  lemma {:induction false} FromLEAppend(bytes: seq<Byte>, b: Byte)
    ensures FromLE(bytes + [b]) == FromLE(bytes) + Pow256(|bytes|) * b
  {
    if bytes == [] {
      assert bytes + [b] == [b] && [b][1..] == [];
    } else {
      FromLEAppend(bytes[1..], b);
      assert (bytes + [b])[1..] == bytes[1..] + [b];
    }
  }

  /** One byte of the multiplication: what was done, the carry and the bytes of the old
      number keep adding up. */
  lemma DigitStep(done: seq<Byte>, before: seq<Byte>, digit: nat, carry: nat, byte: Byte, low: Byte, high: nat)
    requires |done| == |before| && 256 * high + low == carry + byte * 58
    requires FromLE(done) + Pow256(|done|) * carry == 58 * FromLE(before) + digit
    ensures FromLE(done + [low]) + Pow256(|done| + 1) * high == 58 * FromLE(before + [byte]) + digit
  {
    var p := Pow256(|done|);
    FromLEAppend(done, low);
    FromLEAppend(before, byte);
    StepAlgebra(p, carry, byte, low, high);
    assert Pow256(|done| + 1) == 256 * p;
  }

  lemma StepAlgebra(p: nat, carry: nat, byte: nat, low: nat, high: nat)
    requires 256 * high + low == carry + byte * 58
    ensures p * low + (256 * p) * high == p * carry + 58 * (p * byte)
  {
    assert p * (256 * high + low) == p * (carry + byte * 58);
  }

  lemma ReplaceNext(bytes: seq<Byte>, before: seq<Byte>, i: nat, low: Byte)
    requires i < |bytes| == |before| && bytes[i..] == before[i..]
    ensures bytes[i] == before[i] && before[..i + 1] == before[..i] + [before[i]]
    ensures bytes[i := low][..i + 1] == bytes[..i] + [low]
    ensures bytes[i := low][i + 1..] == before[i + 1..]
  {
    assert bytes[i] == bytes[i..][0] && before[i] == before[i..][0];
    assert bytes[i + 1..] == bytes[i..][1..] && before[i + 1..] == before[i..][1..];
  }

  /** One byte of the loop, in place. */
  method MultiplyByte(before: seq<Byte>, digit: Digit, bytes: seq<Byte>, i: nat, carry: nat)
    returns (next: seq<Byte>, nextCarry: nat)
    requires i < |bytes| == |before| && bytes[i..] == before[i..] && carry <= 57
    requires FromLE(bytes[..i]) + Pow256(i) * carry == 58 * FromLE(before[..i]) + digit
    ensures |next| == |before| && next[i + 1..] == before[i + 1..] && nextCarry <= 57
    ensures FromLE(next[..i + 1]) + Pow256(i + 1) * nextCarry == 58 * FromLE(before[..i + 1]) + digit
    ensures before[i] != 0 && nextCarry == 0 ==> next[i] != 0
  {
    var byte: int := bytes[i];
    var sum: nat := carry + byte * 58;
    ReplaceNext(bytes, before, i, sum % 256);
    DigitStep(bytes[..i], before[..i], digit, carry, before[i], sum % 256, sum / 256);
    next, nextCarry := bytes[i := sum % 256], sum / 256;
  }

  /** Multiplies the number in `bytes` by 58 in place and adds a digit. The carry never
      exceeds 57. */
  method MultiplyAdd(before: seq<Byte>, digit: Digit) returns (bytes: seq<Byte>)
    requires before != [] ==> before[|before| - 1] != 0
    ensures FromLE(bytes) == 58 * FromLE(before) + digit
    ensures bytes != [] ==> bytes[|bytes| - 1] != 0
  {
    bytes := before;
    var carry: nat, i := digit, 0;
    while i < |bytes|
      invariant 0 <= i <= |bytes| == |before| && carry <= 57
      invariant bytes[i..] == before[i..]
      invariant FromLE(bytes[..i]) + Pow256(i) * carry == 58 * FromLE(before[..i]) + digit
      invariant i == |bytes| > 0 && carry == 0 ==> bytes[i - 1] != 0
    {
      bytes, carry := MultiplyByte(before, digit, bytes, i, carry);
      i := i + 1;
    }
    assert bytes[..i] == bytes && before[..i] == before;
    bytes := PushCarry(bytes, carry, 58 * FromLE(before) + digit);
  }

  method PushCarry(before: seq<Byte>, carried: nat, ghost total: nat) returns (bytes: seq<Byte>)
    requires carried <= 57 && FromLE(before) + Pow256(|before|) * carried == total
    requires carried == 0 && before != [] ==> before[|before| - 1] != 0
    ensures FromLE(bytes) == total
    ensures bytes != [] ==> bytes[|bytes| - 1] != 0
  {
    bytes := before;
    var carry := carried;
    while carry > 0
      invariant carry <= 57
      invariant FromLE(bytes) + Pow256(|bytes|) * carry == total
      invariant carry == 0 && bytes != [] ==> bytes[|bytes| - 1] != 0
    {
      FromLEAppend(bytes, carry % 256);
      bytes := bytes + [carry % 256];
      carry := carry / 256;
    }
  }

  /** Accumulates the digits, adds a zero byte for each leading `1` and reverses: exactly
      the bytes the string stands for, for every string. */
  method Decode(value: string) returns (r: Option<seq<Byte>>)
    ensures r == Decoded(value)
  {
    if |value| == 0 {
      return None;
    }
    var bytes, at: nat := [], 0;
    while at < |value|
      invariant 0 <= at <= |value| && InAlphabet(value[..at])
      invariant FromLE(bytes) == Number(value[..at])
      invariant bytes != [] ==> bytes[|bytes| - 1] != 0
    {
      var digit := IndexOf(value[at]);
      if digit < 0 {
        assert value[at] in value;
        return None;
      }
      assert value[..at + 1] == value[..at] + [value[at]] && value[..at + 1][..at] == value[..at];
      bytes := MultiplyAdd(bytes, digit);
      at := at + 1;
    }
    assert value[..at] == value;
    MinimalIsBigEndian(bytes);
    var ones := 0;
    while ones < |value| && value[ones] == '1'
      invariant 0 <= ones <= LeadingOnes(value)
    {
      ones := ones + 1;
    }
    PaddedReversed(bytes, ones);
    return Some(Reversed(bytes + Zeros(ones)));
  }

  lemma PaddedReversed(bytes: seq<Byte>, n: nat)
    ensures Reversed(bytes + Zeros(n)) == Zeros(n) + Reversed(bytes)
  {
  }

  /** `trimmed` is the input without surrounding white space. */
  method IsSolanaAddress(trimmed: string) returns (valid: bool)
    ensures valid <==> Decoded(trimmed).Some? && |Decoded(trimmed).value| == ADDRESS_BYTES
  {
    var decoded := Decode(trimmed);
    return decoded.Some? && |decoded.value| == ADDRESS_BYTES;
  }

  // ----- decoding is a bijection -----

  /** The string of a byte string: a `1` for each leading zero byte, then the number. */
  function Encoded(bytes: seq<Byte>): string {
    if bytes != [] && bytes[0] == 0 then ['1'] + Encoded(bytes[1..]) else Digits(FromBE(bytes))
  }

  function Digits(n: nat): (s: string)
    ensures InAlphabet(s)
  {
    if n == 0 then "" else Digits(n / 58) + [CharOf(n % 58)]
  }

  function FromBE(bytes: seq<Byte>): nat {
    if bytes == [] then 0 else 256 * FromBE(bytes[..|bytes| - 1]) + bytes[|bytes| - 1]
  }

  lemma {:induction false} BigEndianOfNumber(bytes: seq<Byte>)
    requires bytes != [] ==> bytes[0] != 0
    ensures BigEndian(FromBE(bytes)) == bytes
    ensures bytes != [] ==> FromBE(bytes) > 0
  {
    if bytes != [] {
      var front := bytes[..|bytes| - 1];
      BigEndianOfNumber(front);
      assert FromBE(bytes) / 256 == FromBE(front) && FromBE(bytes) % 256 == bytes[|bytes| - 1];
    }
  }

  lemma {:induction false} BigEndianNumber(n: nat)
    ensures FromBE(BigEndian(n)) == n
    ensures n > 0 ==> BigEndian(n) != [] && BigEndian(n)[0] != 0
  {
    if n > 0 {
      BigEndianNumber(n / 256);
      assert BigEndian(n)[..|BigEndian(n)| - 1] == BigEndian(n / 256);
    }
  }

  lemma {:induction false} DigitsNumber(n: nat)
    ensures Number(Digits(n)) == n
    ensures n > 0 ==> Digits(n) != "" && Digits(n)[0] != '1'
  {
    if n > 0 {
      DigitsNumber(n / 58);
      assert Digits(n)[..|Digits(n)| - 1] == Digits(n / 58);
    }
  }

  lemma CharUnique(c: char)
    requires IndexOf(c) >= 0
    ensures CharOf(IndexOf(c)) == c
  {
  }

  lemma DivideBy58(q: nat, r: nat)
    requires r < 58
    ensures (58 * q + r) / 58 == q && (58 * q + r) % 58 == r
  {
  }

  lemma {:induction false} NextDigit(n: nat, last: char)
    requires IndexOf(last) >= 0 && (n > 0 || last != '1')
    ensures 58 * n + IndexOf(last) > 0
    ensures Digits(58 * n + IndexOf(last)) == Digits(n) + [last]
  {
    CharUnique(last);
    DivideBy58(n, IndexOf(last));
  }

  lemma {:induction false} FrontAndLast(value: string) returns (front: string, last: char)
    requires InAlphabet(value) && value != ""
    ensures value == front + [last] && InAlphabet(front) && IndexOf(last) >= 0
    ensures if front == "" then last == value[0] else front[0] == value[0]
    ensures Number(value) == 58 * Number(front) + IndexOf(last)
  {
    front, last := value[..|value| - 1], value[|value| - 1];
    assert last in value && forall c :: c in front ==> c in value;
  }

  lemma {:induction false} DigitsOfNumber(value: string)
    requires InAlphabet(value) && (value != "" ==> value[0] != '1')
    ensures Digits(Number(value)) == value
    ensures value != "" ==> Number(value) > 0
  {
    if value != "" {
      var front, last := FrontAndLast(value);
      DigitsOfNumber(front);
      NextDigit(Number(front), last);
    }
  }

  /** A leading `1` is a digit of value zero. */
  lemma {:induction false} LeadingOneIsZero(value: string)
    requires InAlphabet(value)
    ensures InAlphabet(['1'] + value) && Number(['1'] + value) == Number(value)
  {
    var more := ['1'] + value;
    if value == "" {
      assert more[..0] == "";
    } else {
      var front := value[..|value| - 1];
      assert forall c :: c in front ==> c in value;
      LeadingOneIsZero(front);
      assert more[..|more| - 1] == ['1'] + front;
    }
  }

  /** A leading `1` decodes to a zero byte in front. */
  lemma LeadingOneIsAByte(value: string)
    requires InAlphabet(value)
    ensures InAlphabet(['1'] + value) && BytesOf(['1'] + value) == [0] + BytesOf(value)
  {
    LeadingOneIsZero(value);
    var more := ['1'] + value;
    assert more[1..] == value && LeadingOnes(more) == 1 + LeadingOnes(value);
    assert Zeros(LeadingOnes(more)) == [0] + Zeros(LeadingOnes(value));
  }

  /** Every non-empty byte string is the decoding of its encoding. */
  lemma {:induction false} DecodeEncoded(bytes: seq<Byte>)
    ensures InAlphabet(Encoded(bytes)) && BytesOf(Encoded(bytes)) == bytes
    ensures bytes != [] ==> Decoded(Encoded(bytes)) == Some(bytes)
  {
    if bytes != [] && bytes[0] == 0 {
      DecodeEncoded(bytes[1..]);
      LeadingOneIsAByte(Encoded(bytes[1..]));
      assert bytes == [0] + bytes[1..];
    } else {
      DigitsNumber(FromBE(bytes));
      BigEndianOfNumber(bytes);
      assert Zeros(0) + bytes == bytes;
    }
  }

  /** Every valid string is the encoding of its decoding. */
  lemma {:induction false} EncodeDecoded(value: string)
    requires InAlphabet(value)
    ensures Encoded(BytesOf(value)) == value
  {
    if value != "" && value[0] == '1' {
      var rest := value[1..];
      assert value == ['1'] + rest && forall c :: c in rest ==> c in value;
      LeadingOneIsAByte(rest);
      EncodeDecoded(rest);
      assert BytesOf(value)[1..] == BytesOf(rest);
    } else {
      BigEndianNumber(Number(value));
      DigitsOfNumber(value);
      assert Zeros(0) + BigEndian(Number(value)) == BigEndian(Number(value));
    }
  }

  /** Two different strings never decode to the same bytes. */
  lemma DecodeInjective(a: string, b: string)
    requires Decoded(a).Some? && Decoded(a) == Decoded(b)
    ensures a == b
  {
    EncodeDecoded(a);
    EncodeDecoded(b);
  }
}
