/** Bytes seen as rows of bits, bit 0 leftmost, as the DES sources and FIPS PUB 46-3 number them. */
module BitBlocks {

  type Bits = seq<bool>

  /** The mask of bit `m` of a byte, counted from the left: the table `bytebit`. */
  function ByteBit(m: nat): bv8
    requires m < 8
  {
    if m == 0 then 0x80 else if m == 1 then 0x40 else if m == 2 then 0x20 else if m == 3 then 0x10
    else if m == 4 then 8 else if m == 5 then 4 else if m == 6 then 2 else 1
  }

  predicate BitOf(x: bv8, m: nat)
    requires m < 8
  {
    x & ByteBit(m) != 0
  }

  /** All bits of a block of bytes, in order. */
  function BitsOf(block: seq<bv8>): (bits: Bits)
    ensures |bits| == 8 * |block|
  {
    seq(8 * |block|, i requires 0 <= i < 8 * |block| => BitOf(block[i / 8], i % 8))
  }

  /** The byte whose bits start at position `at`. */
  function PackByte(bits: Bits, at: nat): bv8
    requires at + 8 <= |bits|
  {
    (if bits[at] then 0x80 else 0) | (if bits[at + 1] then 0x40 else 0)
    | (if bits[at + 2] then 0x20 else 0) | (if bits[at + 3] then 0x10 else 0)
    | (if bits[at + 4] then 8 else 0) | (if bits[at + 5] then 4 else 0)
    | (if bits[at + 6] then 2 else 0) | (if bits[at + 7] then 1 else 0)
  }

  function Pack(bits: Bits): (block: seq<bv8>)
    requires |bits| % 8 == 0
    ensures |block| == |bits| / 8
  {
    seq(|bits| / 8, i requires 0 <= i < |bits| / 8 => PackByte(bits, 8 * i))
  }

  function Xor(a: Bits, b: Bits): (r: Bits)
    requires |a| == |b|
    ensures |r| == |a|
  {
    seq(|a|, i requires 0 <= i < |a| => a[i] != b[i])
  }

  // ----- single bytes

  lemma OrBits(x: bv8, y: bv8, m: nat)
    requires m < 8
    ensures BitOf(x | y, m) == (BitOf(x, m) || BitOf(y, m))
  {
  }

  lemma MaskedByte(x: bv8, m: nat)
    requires m < 8
    ensures x & ByteBit(m) == if BitOf(x, m) then ByteBit(m) else 0
  {
  }

  lemma XorBits(x: bv8, y: bv8, m: nat)
    requires m < 8
    ensures BitOf(x ^ y, m) == (BitOf(x, m) != BitOf(y, m))
  {
    var mask := ByteBit(m);
    assert (x ^ y) & mask == (x & mask) ^ (y & mask);
    MaskedByte(x, m);
    MaskedByte(y, m);
  }

  lemma MaskBits(m: nat, k: nat)
    requires m < 8 && k < 8
    ensures BitOf(ByteBit(m), k) == (m == k)
    ensures !BitOf(0, k)
  {
  }

  lemma SameByte(x: bv8, y: bv8)
    requires forall m :: 0 <= m < 8 ==> BitOf(x, m) == BitOf(y, m)
    ensures x == y
  {
    assert BitOf(x, 0) == BitOf(y, 0) && BitOf(x, 1) == BitOf(y, 1);
    assert BitOf(x, 2) == BitOf(y, 2) && BitOf(x, 3) == BitOf(y, 3);
    assert BitOf(x, 4) == BitOf(y, 4) && BitOf(x, 5) == BitOf(y, 5);
    assert BitOf(x, 6) == BitOf(y, 6) && BitOf(x, 7) == BitOf(y, 7);
  }

  lemma PackByteBits(bits: Bits, at: nat, m: nat)
    requires at + 8 <= |bits| && m < 8
    ensures BitOf(PackByte(bits, at), m) == bits[at + m]
  {
  }

  // ----- blocks

  lemma BlockBit(block: seq<bv8>, b: nat, m: nat)
    requires b < |block| && m < 8
    ensures BitsOf(block)[8 * b + m] == BitOf(block[b], m)
  {
    assert (8 * b + m) / 8 == b && (8 * b + m) % 8 == m;
  }

  /** Bits determine bytes: a block is determined by its row of bits. */
  lemma SameBlock(x: seq<bv8>, y: seq<bv8>)
    requires BitsOf(x) == BitsOf(y)
    ensures x == y
  {
    assert 8 * |x| == 8 * |y|;
    forall i | 0 <= i < |x|
      ensures x[i] == y[i]
    {
      forall m | 0 <= m < 8
        ensures BitOf(x[i], m) == BitOf(y[i], m)
      {
        assert BitsOf(x)[8 * i + m] == BitOf(x[i], m);
        assert BitsOf(y)[8 * i + m] == BitOf(y[i], m);
      }
      SameByte(x[i], y[i]);
    }
  }

  lemma PackThenBits(bits: Bits)
    requires |bits| % 8 == 0
    ensures BitsOf(Pack(bits)) == bits
  {
    forall i | 0 <= i < |bits|
      ensures BitsOf(Pack(bits))[i] == bits[i]
    {
      PackByteBits(bits, 8 * (i / 8), i % 8);
    }
  }

  lemma BitsThenPack(block: seq<bv8>)
    ensures Pack(BitsOf(block)) == block
  {
    PackThenBits(BitsOf(block));
    SameBlock(Pack(BitsOf(block)), block);
  }

  /** A block whose bits are known one byte and one bit at a time. */
  lemma BitsByByte(block: seq<bv8>, bits: Bits)
    requires |bits| == 8 * |block|
    requires forall b, m :: 0 <= b < |block| && 0 <= m < 8 ==> BitOf(block[b], m) == bits[8 * b + m]
    ensures BitsOf(block) == bits
  {
    forall i | 0 <= i < |bits|
      ensures BitsOf(block)[i] == bits[i]
    {
      assert BitOf(block[i / 8], i % 8) == bits[8 * (i / 8) + i % 8];
    }
  }

  lemma XorCancels(a: Bits, b: Bits)
    requires |a| == |b|
    ensures Xor(Xor(a, b), b) == a
  {
  }

  function XorBytes(a: seq<bv8>, b: seq<bv8>): (r: seq<bv8>)
    requires |a| == |b|
    ensures |r| == |a|
  {
    seq(|a|, i requires 0 <= i < |a| => a[i] ^ b[i])
  }

  lemma XorBlocks(a: seq<bv8>, b: seq<bv8>)
    requires |a| == |b|
    ensures BitsOf(XorBytes(a, b)) == Xor(BitsOf(a), BitsOf(b))
  {
    hide BitOf;
    forall i | 0 <= i < 8 * |a|
      ensures BitsOf(XorBytes(a, b))[i] == Xor(BitsOf(a), BitsOf(b))[i]
    {
      XorBits(a[i / 8], b[i / 8], i % 8);
    }
  }

  lemma BitsOfParts(a: seq<bv8>, b: seq<bv8>)
    ensures BitsOf(a + b) == BitsOf(a) + BitsOf(b)
  {
    hide BitOf;
    forall i | 0 <= i < 8 * |a + b|
      ensures BitsOf(a + b)[i] == (BitsOf(a) + BitsOf(b))[i]
    {
      if i < 8 * |a| {
      } else {
        assert (i - 8 * |a|) / 8 == i / 8 - |a| && (i - 8 * |a|) % 8 == i % 8;
      }
    }
  }
}
