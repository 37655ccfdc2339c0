/** Little-endian integer fields. `ToLE` keeps the low bytes of a value, as a
    fixed-width store does, so truncation is part of the model. */
module Bytes {
  type Byte = b: int | 0 <= b < 256

  const U32_LIMIT: nat := 0x1_0000_0000
  const U64_LIMIT: nat := 0x1_0000_0000_0000_0000

  /** What a lower-case hexadecimal digit stands for. */
  function HexValueOf(c: char): int {
    if c <= '9' then c as int - '0' as int else c as int - 'a' as int + 10
  }

  function HexDigit(d: nat): (c: char)
    requires d < 16
    ensures '0' <= c <= '9' || 'a' <= c <= 'f'
    ensures HexValueOf(c) == d
  {
    if d < 10 then ('0' as int + d) as char else ('a' as int + d - 10) as char
  }

  function Zeros(n: nat): (z: seq<Byte>)
    ensures |z| == n && forall i :: 0 <= i < n ==> z[i] == 0
  {
    if n == 0 then [] else [0] + Zeros(n - 1)
  }

  function Pow256(n: nat): (p: nat)
    ensures p > 0
  {
    if n == 0 then 1 else 256 * Pow256(n - 1)
  }

  lemma Pow256Values()
    ensures Pow256(2) == 0x1_0000 && Pow256(4) == U32_LIMIT && Pow256(8) == U64_LIMIT
  {
    assert Pow256(1) == 256 && Pow256(2) == 0x1_0000 && Pow256(3) == 0x100_0000;
    assert Pow256(5) == 0x100_0000_0000 && Pow256(6) == 0x1_0000_0000_0000;
  }

  function ToLE(value: nat, width: nat): (bytes: seq<Byte>)
    ensures |bytes| == width
    decreases width, value
  {
    if width == 0 then [] else [value % 256] + ToLE(value / 256, width - 1)
  }

  function FromLE(bytes: seq<Byte>): nat {
    if bytes == [] then 0 else bytes[0] + 256 * FromLE(bytes[1..])
  }

  lemma MulAtLeast(factor: int, times: int)
    requires factor > 0
    ensures times >= 1 ==> factor * times >= factor
    ensures times <= -1 ==> factor * times <= -factor
  {
  }

  lemma ModUnique(value: nat, modulus: nat, quotient: nat, remainder: nat)
    requires remainder < modulus
    requires value == modulus * quotient + remainder
    ensures value % modulus == remainder
  {
    var d := value / modulus - quotient;
    assert value == modulus * (value / modulus) + value % modulus;
    assert modulus * d == remainder - value % modulus;
    MulAtLeast(modulus, d);
  }

  lemma ModByteStep(value: nat, p: nat)
    requires p > 0
    ensures value % (256 * p) == value % 256 + 256 * (value / 256 % p)
  {
    var rest := value / 256;
    var q := rest / p;
    assert rest == p * q + rest % p;
    assert 256 * (p * q) == (256 * p) * q;
    ModUnique(value, 256 * p, q, 256 * (rest % p) + value % 256);
  }

  /** Reading a stored field gives the value modulo the field's width. */
  lemma {:induction false} FromToLE(value: nat, width: nat)
    ensures FromLE(ToLE(value, width)) == value % Pow256(width)
  {
    if width > 0 {
      FromToLE(value / 256, width - 1);
      assert ToLE(value, width)[1..] == ToLE(value / 256, width - 1);
      ModByteStep(value, Pow256(width - 1));
    }
  }

  /** Storing the value of a field gives the field back. */
  lemma {:induction false} ToFromLE(bytes: seq<Byte>)
    ensures FromLE(bytes) < Pow256(|bytes|)
    ensures ToLE(FromLE(bytes), |bytes|) == bytes
  {
    if bytes != [] {
      ToFromLE(bytes[1..]);
      assert FromLE(bytes) % 256 == bytes[0] && FromLE(bytes) / 256 == FromLE(bytes[1..]);
      assert bytes == [bytes[0]] + bytes[1..];
    }
  }

  lemma FromToU32(value: nat)
    requires value < U32_LIMIT
    ensures FromLE(ToLE(value, 4)) == value
  {
    FromToLE(value, 4);
    Pow256Values();
  }

  lemma FromToU64(value: nat)
    requires value < U64_LIMIT
    ensures FromLE(ToLE(value, 8)) == value
  {
    FromToLE(value, 8);
    Pow256Values();
  }

  /** Stores a field into a buffer. */
  method PutLE(buffer: array<Byte>, at: nat, value: nat, width: nat)
    requires at + width <= buffer.Length
    modifies buffer
    ensures buffer[..at + width] == old(buffer[..at]) + ToLE(value, width)
    ensures forall i :: at + width <= i < buffer.Length ==> buffer[i] == old(buffer[i])
  {
    var field := ToLE(value, width);
    forall i | 0 <= i < width {
      buffer[at + i] := field[i];
    }
    assert forall i :: 0 <= i < at ==> buffer[i] == old(buffer[..at])[i];
  }

  /** Concatenation of a list of byte strings. */
  function Flatten(parts: seq<seq<Byte>>): seq<Byte> {
    if parts == [] then [] else parts[0] + Flatten(parts[1..])
  }

  lemma {:induction false} FlattenAppend(left: seq<seq<Byte>>, right: seq<seq<Byte>>)
    ensures Flatten(left + right) == Flatten(left) + Flatten(right)
  {
    if left == [] {
      assert left + right == right;
    } else {
      FlattenAppend(left[1..], right);
      assert (left + right)[1..] == left[1..] + right && (left + right)[0] == left[0];
      assert Flatten(left + right) == left[0] + (Flatten(left[1..]) + Flatten(right));
    }
  }
}
