/** What the lookup tables of Des.c hold, and why reading them a nibble, a byte or twelve bits at
    a time gives what the standard asks for bit by bit. */
module DesLookup {
  import opened BitBlocks
  import opened DesStandard

  // ----- small numbers as rows of bits

  /** Bit q of a four-bit number, from the left: `j & nibblebit[q]`. */
  predicate NibbleBitOf(j: nat, q: nat)
    requires q < 4
  {
    if q == 0 then j / 8 % 2 == 1 else if q == 1 then j / 4 % 2 == 1
    else if q == 2 then j / 2 % 2 == 1 else j % 2 == 1
  }

  /** Bit m of an eight-bit number, from the left: `j & bytebit[m]`. */
  predicate IndexBitOf(j: nat, m: nat)
    requires m < 8
  {
    if m < 4 then NibbleBitOf(j / 16, m) else NibbleBitOf(j % 16, m - 4)
  }

  function HighNibble(x: bv8): (j: nat)
    ensures j < 16
  {
    ((x >> 4) & 0x0f) as int
  }

  function LowNibble(x: bv8): (j: nat)
    ensures j < 16
  {
    (x & 0x0f) as int
  }

  /** Four digits read as a number. */
  function Nibble(b0: bool, b1: bool, b2: bool, b3: bool): (j: nat)
    ensures j < 16
  {
    8 * Digit(b0) + 4 * Digit(b1) + 2 * Digit(b2) + Digit(b3)
  }

  lemma HighNibbleValue(x: bv8)
    ensures HighNibble(x) == Nibble(BitOf(x, 0), BitOf(x, 1), BitOf(x, 2), BitOf(x, 3))
  {
  }

  lemma LowNibbleValue(x: bv8)
    ensures LowNibble(x) == Nibble(BitOf(x, 4), BitOf(x, 5), BitOf(x, 6), BitOf(x, 7))
  {
  }

  lemma ByteValue(x: bv8)
    ensures x as int == 16 * HighNibble(x) + LowNibble(x)
  {
  }

  lemma NibbleDigits(b0: bool, b1: bool, b2: bool, b3: bool, q: nat)
    requires q < 4
    ensures NibbleBitOf(Nibble(b0, b1, b2, b3), q) ==
            if q == 0 then b0 else if q == 1 then b1 else if q == 2 then b2 else b3
  {
  }

  lemma NibbleBits(x: bv8, q: nat)
    requires q < 4
    ensures NibbleBitOf(HighNibble(x), q) == BitOf(x, q)
    ensures NibbleBitOf(LowNibble(x), q) == BitOf(x, q + 4)
  {
    hide BitOf, NibbleBitOf, HighNibble, LowNibble, Nibble;
    HighNibbleValue(x);
    LowNibbleValue(x);
    NibbleDigits(BitOf(x, 0), BitOf(x, 1), BitOf(x, 2), BitOf(x, 3), q);
    NibbleDigits(BitOf(x, 4), BitOf(x, 5), BitOf(x, 6), BitOf(x, 7), q);
  }

  lemma TwoNibbles(j: nat, high: nat, low: nat, m: nat)
    requires j == 16 * high + low && low < 16 && m < 8
    ensures IndexBitOf(j, m) == if m < 4 then NibbleBitOf(high, m % 4) else NibbleBitOf(low, m % 4)
  {
    assert j / 16 == high && j % 16 == low;
  }

  lemma IndexBits(x: bv8, m: nat)
    requires m < 8
    ensures IndexBitOf(x as int, m) == BitOf(x, m)
  {
    ByteValue(x);
    TwoNibbles(x as int, HighNibble(x), LowNibble(x), m);
    NibbleBits(x, m % 4);
  }

  // ----- 64-bit permutations, one nibble at a time

  /** Bit k of the mask for nibble position i holding j. */
  predicate PermMask(p: seq<nat>, i: nat, j: nat, k: nat)
    requires k < |p| && p[k] >= 1
  {
    var l := p[k] - 1;
    l / 4 == i && NibbleBitOf(j, l % 4)
  }

  /** Bit k of the output once the first n input bytes are merged in. */
  predicate Merged(p: seq<nat>, inblock: seq<bv8>, n: nat, k: nat)
    requires k < |p| && 1 <= p[k] <= 8 * |inblock|
  {
    var l := p[k] - 1;
    l / 8 < n && BitOf(inblock[l / 8], l % 8)
  }

  lemma NextByteByNibbles(p: seq<nat>, inblock: seq<bv8>, n: nat, k: nat)
    requires k < |p| && 1 <= p[k] <= 8 * |inblock| && n < |inblock|
    ensures Merged(p, inblock, n + 1, k) ==
            (Merged(p, inblock, n, k)
             || PermMask(p, 2 * n, HighNibble(inblock[n]), k)
             || PermMask(p, 2 * n + 1, LowNibble(inblock[n]), k))
  {
    hide BitOf, NibbleBitOf, HighNibble, LowNibble;
    var l := p[k] - 1;
    NibbleBits(inblock[n], l % 4);
  }

  lemma MergedAll(p: seq<nat>, inblock: seq<bv8>, out: seq<bv8>)
    requires |p| == 8 * |out| && forall k :: 0 <= k < |p| ==> 1 <= p[k] <= 8 * |inblock|
    requires forall b, m :: 0 <= b < |out| && 0 <= m < 8 ==>
               BitOf(out[b], m) == Merged(p, inblock, |inblock|, 8 * b + m)
    ensures BitsOf(out) == Select(p, BitsOf(inblock))
  {
    BitsByByte(out, Select(p, BitsOf(inblock)));
  }

  // ----- the 32-bit permutation, one byte at a time

  predicate P32Mask(p: seq<nat>, i: nat, j: nat, k: nat)
    requires k < |p| && p[k] >= 1
  {
    var l := p[k] - 1;
    l / 8 == i && IndexBitOf(j, l % 8)
  }

  lemma NextByteByIndex(p: seq<nat>, inblock: seq<bv8>, n: nat, k: nat)
    requires k < |p| && 1 <= p[k] <= 8 * |inblock| && n < |inblock|
    ensures Merged(p, inblock, n + 1, k) ==
            (Merged(p, inblock, n, k) || P32Mask(p, n, inblock[n] as int, k))
  {
    IndexBits(inblock[n], (p[k] - 1) % 8);
  }

  // ----- expansion by shifts and masks

  /** Expanded bytes 0 and 3: the last bit of x, five bits of y, two of them again. */
  function ExpandFirst(x: bv8, y: bv8): bv8 {
    ((x & 0x01) << 7) | ((y & 0xf8) >> 1) | ((y & 0x18) >> 3)
  }

  /** Expanded bytes 1 and 4. */
  function ExpandSecond(x: bv8, y: bv8): bv8 {
    ((x & 0x07) << 5) | ((y & 0x80) >> 3) | ((x & 0x01) << 3) | ((y & 0xe0) >> 5)
  }

  /** Expanded bytes 2 and 5. */
  function ExpandThird(x: bv8, y: bv8): bv8 {
    ((x & 0x18) << 3) | ((x & 0x1f) << 1) | ((y & 0x80) >> 7)
  }

  function Expanded(right: seq<bv8>): (r: seq<bv8>)
    requires |right| == 4
    ensures |r| == 6
  {
    [ExpandFirst(right[3], right[0]), ExpandSecond(right[0], right[1]), ExpandThird(right[1], right[2]),
     ExpandFirst(right[1], right[2]), ExpandSecond(right[2], right[3]), ExpandThird(right[3], right[0])]
  }

  lemma ExpandFirstBits(x: bv8, y: bv8, m: nat)
    requires m < 8
    ensures BitOf(ExpandFirst(x, y), m) == if m == 0 then BitOf(x, 7) else BitOf(y, if m < 6 then m - 1 else m - 3)
  {
  }

  lemma ExpandSecondBits(x: bv8, y: bv8, m: nat)
    requires m < 8
    ensures BitOf(ExpandSecond(x, y), m) ==
            if m < 3 then BitOf(x, m + 5) else if m == 4 then BitOf(x, 7) else BitOf(y, if m == 3 then 0 else m - 5)
  {
  }

  lemma ExpandThirdBits(x: bv8, y: bv8, m: nat)
    requires m < 8
    ensures BitOf(ExpandThird(x, y), m) ==
            if m < 2 then BitOf(x, m + 3) else if m < 7 then BitOf(x, m + 1) else BitOf(y, 0)
  {
    if m < 2 {
    } else if m < 4 {
    } else if m < 6 {
    }
  }

  /** Where bit m of expanded byte b comes from: byte and bit of the right half. */
  function ExpandedFrom(b: nat, m: nat): (source: (nat, nat))
    requires b < 6 && m < 8
    ensures source.0 < 4 && source.1 < 8
  {
    hide BitOf, ExpandFirst, ExpandSecond, ExpandThird;
    var first, last, next := if b < 3 then 0 else 2, if b < 3 then 3 else 1, if b < 3 then 2 else 0;
    if b == 0 || b == 3 then
      if m == 0 then (last, 7) else (first, if m < 6 then m - 1 else m - 3)
    else if b == 1 || b == 4 then
      if m < 3 then (first, m + 5) else if m == 4 then (first, 7)
      else (first + 1, if m == 3 then 0 else m - 5)
    else
      if m < 2 then (first + 1, m + 3) else if m < 7 then (first + 1, m + 1) else (next, 0)
  }

  lemma ExpandedIndex(b: nat, m: nat)
    requires b < 6 && m < 8
    ensures (4 * ((8 * b + m) / 6) + (8 * b + m) % 6 + 31) % 32 == 8 * ExpandedFrom(b, m).0 + ExpandedFrom(b, m).1
  {
    var r := if b == 0 || b == 3 then (if m < 6 then 0 else 1) else if b == 1 || b == 4 then (if m < 4 then 1 else 2)
             else (if m < 2 then 2 else 3);
    RowOf(8 * b + m, if b < 3 then r else r + 4);
  }

  lemma RowOf(k: nat, row: nat)
    requires 6 * row <= k < 6 * row + 6
    ensures k / 6 == row && k % 6 == k - 6 * row
  {
  }

  lemma EFrom(right: seq<bv8>, b: nat, m: nat)
    requires |right| == 4 && b < 6 && m < 8
    ensures E(BitsOf(right))[8 * b + m] == BitOf(right[ExpandedFrom(b, m).0], ExpandedFrom(b, m).1)
  {
    hide BitOf, ExpandedFrom;
    ExpandedIndex(b, m);
    BlockBit(right, ExpandedFrom(b, m).0, ExpandedFrom(b, m).1);
  }

  lemma ExpandedBit(right: seq<bv8>, b: nat, m: nat)
    requires |right| == 4 && b < 6 && m < 8
    ensures BitOf(Expanded(right)[b], m) == BitOf(right[ExpandedFrom(b, m).0], ExpandedFrom(b, m).1)
  {
    hide BitOf, ExpandFirst, ExpandSecond, ExpandThird;
    var first := if b < 3 then 0 else 2;
    if b == 0 || b == 3 {
      ExpandFirstBits(right[if b < 3 then 3 else 1], right[first], m);
    } else if b == 1 || b == 4 {
      ExpandSecondBits(right[first], right[first + 1], m);
    } else {
      ExpandThirdBits(right[first + 1], right[if b < 3 then 2 else 0], m);
    }
  }

  /** The shifts and masks are the E operation. */
  lemma ExpandedIsE(right: seq<bv8>)
    requires |right| == 4
    ensures BitsOf(Expanded(right)) == E(BitsOf(right))
  {
    forall b, m | 0 <= b < 6 && 0 <= m < 8
      ensures BitOf(Expanded(right)[b], m) == E(BitsOf(right))[8 * b + m]
    {
      ExpandedBit(right, b, m);
      EFrom(right, b, m);
    }
    BitsByByte(Expanded(right), E(BitsOf(right)));
  }

  // ----- two selection functions at a time

  /** `getcomp`: the number selection function k gives for the six-bit number v. */
  function GetComp(si: seq<seq<bv8>>, k: nat, v: nat): bv8
    requires k < |si| && |si[k]| == 64 && v < 64
  {
    var i := v / 32 * 2 + v % 2;
    var j := v % 32 / 2;
    si[k][16 * i + j]
  }

  /** Entry j of the pair table i. */
  function SPair(si: seq<seq<bv8>>, i: nat, j: nat): bv8
    requires |si| == 8 && (forall k :: 0 <= k < 8 ==> |si[k]| == 64) && i < 4 && j < 4096
  {
    (GetComp(si, 2 * i, j / 64) << 4) | (0x0f & GetComp(si, 2 * i + 1, j % 64))
  }

  function SixBits(bits: Bits, at: nat): (v: nat)
    requires at + 6 <= |bits|
    ensures v < 64
  {
    32 * Digit(bits[at]) + 16 * Digit(bits[at + 1]) + 8 * Digit(bits[at + 2]) + 4 * Digit(bits[at + 3])
    + 2 * Digit(bits[at + 4]) + Digit(bits[at + 5])
  }

  lemma GetCompIsS(si: seq<seq<bv8>>, k: nat, bits: Bits, at: nat)
    requires k < |si| && |si[k]| == 64 && at + 6 <= |bits|
    ensures GetComp(si, k, SixBits(bits, at)) == S(si, k, bits, at)
  {
    var v := SixBits(bits, at);
    assert v / 32 == Digit(bits[at]);
    assert v % 2 == Digit(bits[at + 5]);
    assert v % 32 / 2 ==
           8 * Digit(bits[at + 1]) + 4 * Digit(bits[at + 2]) + 2 * Digit(bits[at + 3]) + Digit(bits[at + 4]);
  }

  /** `0xfff & ((i0 << 4) | ((i1 >> 4) & 0x0f))`: the first twelve bits of three bytes. The sign
      bits an `int` copy of a `char` may carry are cut off by the mask. */
  function FrontIndex(i0: bv8, i1: bv8): (j: nat)
    ensures j < 4096
  {
    (((i0 as bv16) << 4) | (((i1 as bv16) >> 4) & 0x0f)) as int
  }

  /** `0xfff & ((i1 << 8) | (i2 & 0xff))`: the last twelve bits. */
  function BackIndex(i1: bv8, i2: bv8): (j: nat)
    ensures j < 4096
  {
    ((((i1 as bv16) << 8) | (i2 as bv16)) & 0x0fff) as int
  }

  lemma FrontValue(i0: bv8, i1: bv8)
    ensures FrontIndex(i0, i1) == 256 * HighNibble(i0) + 16 * LowNibble(i0) + HighNibble(i1)
  {
  }

  lemma BackValue(i1: bv8, i2: bv8)
    ensures BackIndex(i1, i2) == 256 * LowNibble(i1) + 16 * HighNibble(i2) + LowNibble(i2)
  {
  }

  function NibbleAt(bits: Bits, at: nat): nat
    requires at + 4 <= |bits|
  {
    Nibble(bits[at], bits[at + 1], bits[at + 2], bits[at + 3])
  }

  lemma BlockNibbles(block: seq<bv8>, at: nat)
    requires at < |block|
    ensures NibbleAt(BitsOf(block), 8 * at) == HighNibble(block[at])
    ensures NibbleAt(BitsOf(block), 8 * at + 4) == LowNibble(block[at])
  {
    HighNibbleValue(block[at]);
    LowNibbleValue(block[at]);
    forall m | 0 <= m < 8
      ensures BitsOf(block)[8 * at + m] == BitOf(block[at], m)
    {
      BlockBit(block, at, m);
    }
  }

  lemma TwelveBits(bits: Bits, at: nat)
    requires at + 12 <= |bits|
    ensures 64 * SixBits(bits, at) + SixBits(bits, at + 6) ==
            256 * NibbleAt(bits, at) + 16 * NibbleAt(bits, at + 4) + NibbleAt(bits, at + 8)
  {
  }

  lemma FrontPair(block: seq<bv8>, at: nat)
    requires at + 2 <= |block|
    ensures FrontIndex(block[at], block[at + 1]) ==
            64 * SixBits(BitsOf(block), 8 * at) + SixBits(BitsOf(block), 8 * at + 6)
  {
    hide HighNibble, LowNibble, FrontIndex, BitOf, SixBits, NibbleAt;
    FrontValue(block[at], block[at + 1]);
    BlockNibbles(block, at);
    BlockNibbles(block, at + 1);
    TwelveBits(BitsOf(block), 8 * at);
  }

  lemma BackPair(block: seq<bv8>, at: nat)
    requires at + 2 <= |block|
    ensures BackIndex(block[at], block[at + 1]) ==
            64 * SixBits(BitsOf(block), 8 * at + 4) + SixBits(BitsOf(block), 8 * at + 10)
  {
    hide HighNibble, LowNibble, BackIndex, BitOf, SixBits, NibbleAt;
    BackValue(block[at], block[at + 1]);
    BlockNibbles(block, at);
    BlockNibbles(block, at + 1);
    TwelveBits(BitsOf(block), 8 * at + 4);
  }

  lemma PairBits(a: bv8, b: bv8, m: nat)
    requires m < 8
    ensures BitOf((a << 4) | (0x0f & b), m) == if m < 4 then BitOf(a, m + 4) else BitOf(b, m)
  {
  }

  /** Byte c of the contraction, looked up in pair table c, is 8 bits of the standard's result. */
  lemma PairIsTwoSelections(si: seq<seq<bv8>>, c: nat, bits: Bits, m: nat)
    requires |si| == 8 && (forall k :: 0 <= k < 8 ==> |si[k]| == 64) && |bits| == 48 && c < 4 && m < 8
    ensures BitOf(SPair(si, c, 64 * SixBits(bits, 12 * c) + SixBits(bits, 12 * c + 6)), m)
            == Substitute(si, bits)[8 * c + m]
  {
    hide SixBits, GetComp, S, Substitute;
    var a, b := SixBits(bits, 12 * c), SixBits(bits, 12 * c + 6);
    SPairParts(si, c, a, b);
    GetCompIsS(si, 2 * c, bits, 12 * c);
    GetCompIsS(si, 2 * c + 1, bits, 12 * c + 6);
    PairBits(GetComp(si, 2 * c, a), GetComp(si, 2 * c + 1, b), m);
    SubstituteBit(si, bits, c, m);
  }

  lemma SPairParts(si: seq<seq<bv8>>, c: nat, a: nat, b: nat)
    requires |si| == 8 && (forall k :: 0 <= k < 8 ==> |si[k]| == 64) && c < 4 && a < 64 && b < 64
    ensures SPair(si, c, 64 * a + b) == (GetComp(si, 2 * c, a) << 4) | (0x0f & GetComp(si, 2 * c + 1, b))
  {
    assert (64 * a + b) / 64 == a && (64 * a + b) % 64 == b;
  }

  lemma SubstituteBit(si: seq<seq<bv8>>, bits: Bits, c: nat, m: nat)
    requires |si| == 8 && (forall k :: 0 <= k < 8 ==> |si[k]| == 64) && |bits| == 48 && c < 4 && m < 8
    ensures Substitute(si, bits)[8 * c + m] ==
            if m < 4 then BitOf(S(si, 2 * c, bits, 12 * c), m + 4) else BitOf(S(si, 2 * c + 1, bits, 12 * c + 6), m)
  {
    var i := 8 * c + m;
    assert i / 4 == (if m < 4 then 2 * c else 2 * c + 1);
    assert i % 4 == (if m < 4 then m else m - 4);
  }

  /** `contract`: four pair lookups at twelve-bit indices. */
  function Contracted(si: seq<seq<bv8>>, r: seq<bv8>): (out: seq<bv8>)
    requires |si| == 8 && (forall k :: 0 <= k < 8 ==> |si[k]| == 64) && |r| == 6
    ensures |out| == 4
  {
    [SPair(si, 0, FrontIndex(r[0], r[1])), SPair(si, 1, BackIndex(r[1], r[2])),
     SPair(si, 2, FrontIndex(r[3], r[4])), SPair(si, 3, BackIndex(r[4], r[5]))]
  }

  /** The four lookups are the eight selection functions of the standard. */
  lemma ContractedIsSubstitute(si: seq<seq<bv8>>, r: seq<bv8>)
    requires |si| == 8 && (forall k :: 0 <= k < 8 ==> |si[k]| == 64) && |r| == 6
    ensures BitsOf(Contracted(si, r)) == Substitute(si, BitsOf(r))
  {
    hide BitOf, SPair, FrontIndex, BackIndex, SixBits, Substitute;
    FrontPair(r, 0);
    BackPair(r, 1);
    FrontPair(r, 3);
    BackPair(r, 4);
    forall b, m | 0 <= b < 4 && 0 <= m < 8
      ensures BitOf(Contracted(si, r)[b], m) == Substitute(si, BitsOf(r))[8 * b + m]
    {
      PairIsTwoSelections(si, b, BitsOf(r), m);
    }
    BitsByByte(Contracted(si, r), Substitute(si, BitsOf(r)));
  }
}
