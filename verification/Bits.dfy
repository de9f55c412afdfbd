/** Little-endian bit strings: the common ground of the GIF decoder, which reads codes bit by bit,
    and of the reference encoder, which writes them. The first bit is the least significant one. */
module Bits {

  type byte = n: nat | n < 256

  function Pow2(n: nat): (p: nat)
    ensures p >= 1
  {
    if n == 0 then 1 else 2 * Pow2(n - 1)
  }

  lemma Pow2Monotone(m: nat, n: nat)
    requires m <= n
    ensures Pow2(m) <= Pow2(n)
  {
    if m < n {
      Pow2Monotone(m, n - 1);
    }
  }

  function BitValue(b: bool): nat {
    if b then 1 else 0
  }

  function FromBits(bits: seq<bool>): nat {
    if bits == [] then 0 else BitValue(bits[0]) + 2 * FromBits(bits[1..])
  }

  function ToBits(value: nat, width: nat): (bits: seq<bool>)
    ensures |bits| == width
  {
    if width == 0 then [] else [value % 2 == 1] + ToBits(value / 2, width - 1)
  }

  /** Bytes as one long bit string. */
  function Unpack(data: seq<byte>): (bits: seq<bool>)
    ensures |bits| == 8 * |data|
  {
    if data == [] then [] else ToBits(data[0], 8) + Unpack(data[1..])
  }

  lemma {:induction false} FromBitsBound(bits: seq<bool>)
    ensures FromBits(bits) < Pow2(|bits|)
  {
    if bits != [] {
      FromBitsBound(bits[1..]);
    }
  }

  lemma {:induction false} FromToBits(value: nat, width: nat)
    requires value < Pow2(width)
    ensures FromBits(ToBits(value, width)) == value
  {
    if width > 0 {
      FromToBits(value / 2, width - 1);
      assert ToBits(value, width)[1..] == ToBits(value / 2, width - 1);
    }
  }

  /** Writing the value of a bit string gives the bit string back, whatever is written above it. */
  lemma {:induction false} ToFromBits(bits: seq<bool>, width: nat)
    requires |bits| <= width
    ensures bits <= ToBits(FromBits(bits), width)
  {
    if bits != [] {
      ToFromBits(bits[1..], width - 1);
      assert bits == [bits[0]] + bits[1..];
    }
  }

  lemma {:induction false} FromBitsSnoc(bits: seq<bool>, b: bool)
    ensures FromBits(bits + [b]) == FromBits(bits) + BitValue(b) * Pow2(|bits|)
  {
    if bits == [] {
      assert ([b])[1..] == [];
    } else {
      FromBitsSnoc(bits[1..], b);
      assert (bits + [b])[1..] == bits[1..] + [b];
    }
  }

  lemma {:induction false} ToBitsAt(value: nat, width: nat, i: nat)
    requires i < width
    ensures ToBits(value, width)[i] == (value / Pow2(i) % 2 == 1)
  {
    if i > 0 {
      ToBitsAt(value / 2, width - 1, i - 1);
      DivTwice(value, Pow2(i - 1));
    }
  }

  lemma DivTwice(a: nat, p: nat)
    requires p > 0
    ensures a / 2 / p == a / (2 * p)
  {
    var q := a / 2 / p;
    var r := a / 2 - q * p;
    assert a / 2 == q * p + r && 0 <= r < p;
    assert a == 2 * (q * p + r) + a % 2;
    assert a == q * (2 * p) + (2 * r + a % 2);
    DivUnique(a, 2 * p, q, 2 * r + a % 2);
  }

  lemma MulMonotone(a: nat, b: nat, d: nat)
    requires a <= b
    ensures a * d <= b * d
  {
  }

  lemma MulCancel(a: nat, b: nat, d: nat)
    requires a * d < b * d
    ensures a < b
  {
    if b <= a {
      MulMonotone(b, a, d);
    }
  }

  lemma DivUnique(a: nat, d: nat, q: nat, r: nat)
    requires d > 0 && r < d && a == q * d + r
    ensures a / d == q
  {
    var k := a / d;
    assert k * d <= a < k * d + d;
    assert (k + 1) * d == k * d + d;
    assert (q + 1) * d == q * d + d;
    MulCancel(k, q + 1, d);
    MulCancel(q, k + 1, d);
  }

  /** Bit `i` of a byte string lives in byte `i / 8`, at position `i % 8`. */
  predicate BitAt(data: seq<byte>, i: nat)
    requires i < 8 * |data|
  {
    data[i / 8] / Pow2(i % 8) % 2 == 1
  }

  lemma {:induction false} UnpackAt(data: seq<byte>, i: nat)
    requires i < 8 * |data|
    ensures Unpack(data)[i] == BitAt(data, i)
  {
    if i < 8 {
      ToBitsAt(data[0], 8, i);
      assert i / 8 == 0 && i % 8 == i;
    } else {
      UnpackAt(data[1..], i - 8);
      assert (i - 8) / 8 == i / 8 - 1 && (i - 8) % 8 == i % 8;
      assert Unpack(data)[i] == Unpack(data[1..])[i - 8];
      assert data[1..][(i - 8) / 8] == data[i / 8];
    }
  }

  lemma {:induction false} UnpackConcat(a: seq<byte>, b: seq<byte>)
    ensures Unpack(a + b) == Unpack(a) + Unpack(b)
  {
    if a == [] {
      assert a + b == b;
    } else {
      UnpackConcat(a[1..], b);
      assert (a + b)[1..] == a[1..] + b && (a + b)[0] == a[0];
      assert Unpack(a + b) == ToBits(a[0], 8) + (Unpack(a[1..]) + Unpack(b));
    }
  }

  /** Bits into bytes, the last byte filled up with zero bits. */
  function Pack(bits: seq<bool>): (data: seq<byte>) {
    if bits == [] then []
    else if |bits| <= 8 then PackByte(bits) else PackByte(bits[..8]) + Pack(bits[8..])
  }

  function PackByte(bits: seq<bool>): (data: seq<byte>)
    requires |bits| <= 8
    ensures |data| == 1 && data[0] == FromBits(bits)
  {
    FromBitsBound(bits);
    Pow2Monotone(|bits|, 8);
    assert Pow2(8) == 256;
    [FromBits(bits)]
  }

  lemma {:induction false} UnpackPack(bits: seq<bool>)
    ensures bits <= Unpack(Pack(bits))
  {
    if bits == [] {
    } else if |bits| <= 8 {
      ToFromBits(bits, 8);
    } else {
      ToFromBits(bits[..8], 8);
      UnpackPack(bits[8..]);
      assert Pack(bits)[1..] == Pack(bits[8..]);
      assert ToBits(FromBits(bits[..8]), 8) == bits[..8];
      assert bits == bits[..8] + bits[8..];
    }
  }

  /** One more bit at the upper end of a piece of a bit string. */
  lemma ReadOneMore(bits: seq<bool>, from: nat, to: nat)
    requires from <= to < |bits|
    ensures FromBits(bits[from..to + 1]) == FromBits(bits[from..to]) + BitValue(bits[to]) * Pow2(to - from)
  {
    assert bits[from..to + 1] == bits[from..to] + [bits[to]];
    FromBitsSnoc(bits[from..to], bits[to]);
  }

  /** The code of `bitCount` bits that starts at `bitPosition`, collected one bit at a time. */
  method ReadLittleEndianBits(data: seq<byte>, bitPosition: nat, bitCount: nat) returns (value: nat)
    requires bitPosition + bitCount <= 8 * |data|
    ensures value == FromBits(Unpack(data)[bitPosition..bitPosition + bitCount])
  {
    value := 0;
    for shift := 0 to bitCount
      invariant value == FromBits(Unpack(data)[bitPosition..bitPosition + shift])
    {
      var sourceBit := bitPosition + shift;
      UnpackAt(data, sourceBit);
      ReadOneMore(Unpack(data), bitPosition, sourceBit);
      if BitAt(data, sourceBit) {
        value := value + Pow2(shift);
      }
    }
  }
}
