/** SHA-512 as sha512Impl.cpp computes it: padding by appending, packing of 128-byte blocks into big-
    endian words, and the message schedule and rounds of FIPS 180-2. */
module Sha512 {
  import opened Arithmetic

  newtype Byte = x: int | 0 <= x < 0x100
  type Word64 = bv64

  const BLOCK: nat := 128
  const W64: nat := 0x1_0000_0000_0000_0000

  // ----- numbers as bytes, high byte first

  function Pow256(k: nat): (p: nat)
    ensures p > 0
  {
    if k == 0 then 1 else 0x100 * Pow256(k - 1)
  }

  /** The low k bytes of n. */
  function BigEndian(n: nat, k: nat): (b: seq<Byte>)
    ensures |b| == k
  {
    if k == 0 then [] else BigEndian(n / 0x100, k - 1) + [(n % 0x100) as Byte]
  }

  function Number(b: seq<Byte>): nat {
    if b == [] then 0 else 0x100 * Number(b[..|b| - 1]) + b[|b| - 1] as int
  }

  lemma {:induction false} NumberBelow(b: seq<Byte>)
    ensures Number(b) < Pow256(|b|)
  {
    if b == [] {
    } else {
      NumberBelow(b[..|b| - 1]);
    }
  }

  /** A number that fits in k bytes is read back. */
  lemma {:induction false} NumberOfBigEndian(n: nat, k: nat)
    requires n < Pow256(k)
    ensures Number(BigEndian(n, k)) == n
  {
    if k == 0 {
    } else {
      NumberOfBigEndian(n / 0x100, k - 1);
      assert BigEndian(n, k)[..k - 1] == BigEndian(n / 0x100, k - 1);
    }
  }

  /** And every byte of a number that was put together. */
  lemma {:induction false} BigEndianOfNumber(b: seq<Byte>)
    ensures BigEndian(Number(b), |b|) == b
  {
    if b == [] {
    } else {
      var front := b[..|b| - 1];
      BigEndianOfNumber(front);
      assert Number(b) / 0x100 == Number(front) && Number(b) % 0x100 == b[|b| - 1] as int;
    }
  }

  /** `(n >> (8 * i)) & 0xFF`, counted from the low byte. */
  function ByteAt(n: nat, i: nat): Byte {
    (n / Pow256(i) % 0x100) as Byte
  }

  lemma DivTwice(n: nat, b: nat)
    requires b > 0
    ensures n / 0x100 / b == n / (0x100 * b)
  {
    var q, r := n / 0x100 / b, n / 0x100 % b;
    assert n / 0x100 == q * b + r;
    var m := 0x100 * b;
    assert q * m == 0x100 * (q * b);
    Quotient(n, q, m, 0x100 * r + n % 0x100);
  }

  lemma {:induction false} BigEndianAt(n: nat, k: nat, i: nat)
    requires i < k
    ensures BigEndian(n, k)[k - 1 - i] == ByteAt(n, i)
  {
    if i == 0 {
    } else {
      BigEndianAt(n / 0x100, k - 1, i - 1);
      DivTwice(n, Pow256(i - 1));
    }
  }

  // ----- padding

  /** How many zero bytes follow the byte 0x80 so that 16 bytes of length fill the block. */
  function ZeroBytes(n: nat): (z: nat)
    ensures z < BLOCK && (n + 1 + z + 16) % BLOCK == 0
  {
    var remainder := 8 * n % 1024;
    Bits(n);
    (if remainder >= 896 then 1024 - remainder + 896 - 1 - 7 else 896 - remainder - 1 - 7) / 8
  }

  lemma Bits(n: nat)
    ensures 8 * n % 1024 == 8 * (n % 128)
  {
    Quotient(8 * n, n / 128, 1024, 8 * (n % 128));
  }

  function Zeros(k: nat): (z: seq<Byte>)
    ensures |z| == k
  {
    seq(k, i => 0)
  }

  /** Section 5.1.2 of FIPS 180-2 for whole bytes; the length in bits is kept mod 2^64. */
  function Padded(message: seq<Byte>): (p: seq<Byte>)
    ensures |p| == |message| + 1 + ZeroBytes(|message|) + 16
  {
    message + [0x80] + Zeros(ZeroBytes(|message|)) + Zeros(8) + BigEndian(8 * |message| % W64, 8)
  }

  /** The padded length is the smallest multiple of 128 that holds the message and 17 bytes more. */
  lemma PaddedIsSmallest(message: seq<Byte>, n: nat)
    ensures |Padded(message)| % BLOCK == 0
    ensures n % BLOCK == 0 && n >= |message| + 17 ==> n >= |Padded(message)| >= |message| + 17
  {
    hide Padded, ZeroBytes;
    if n % BLOCK == 0 && n >= |message| + 17 {
      NextMultiple(|message| + 17, ZeroBytes(|message|), n);
    }
  }

  lemma NextMultiple(least: nat, more: nat, n: nat)
    requires more < BLOCK && (least + more) % BLOCK == 0 && n % BLOCK == 0 && n >= least
    ensures n >= least + more
  {
    var p, q := (least + more) / BLOCK, n / BLOCK;
    assert least + more == BLOCK * p && n == BLOCK * q;
  }

  lemma PaddedLengthField(message: seq<Byte>)
    ensures var p := Padded(message); p[|p| - 8..] == BigEndian(8 * |message| % W64, 8)
    ensures Number(BigEndian(8 * |message| % W64, 8)) == 8 * |message| % W64
  {
    hide BigEndian, Number, ZeroBytes;
    assert Pow256(8) == W64 by {
      assert Pow256(4) == 0x1_0000_0000;
    }
    NumberOfBigEndian(8 * |message| % W64, 8);
  }

  /** No two messages pad alike, however long they are. */
  lemma PaddedInjective(m: seq<Byte>, m': seq<Byte>)
    ensures Padded(m) == Padded(m') <==> m == m'
  {
    hide BigEndian, Number;
    if Padded(m) == Padded(m') {
      PaddedLengthField(m);
      PaddedLengthField(m');
      SameLength(|m|, |m'|);
      assert Padded(m)[..|m|] == m && Padded(m')[..|m'|] == m';
    }
  }

  /** Lengths less than a block apart are told by their bit counts mod 2^64. */
  lemma SameLength(n: nat, n': nat)
    requires 8 * n % W64 == 8 * n' % W64
    requires n + ZeroBytes(n) == n' + ZeroBytes(n')
    ensures n == n'
  {
    assert 8 * n == 8 * n / W64 * W64 + 8 * n % W64 && 8 * n' == 8 * n' / W64 * W64 + 8 * n' % W64;
  }

  // ----- packing

  /** Eight bytes from `at` on as one number, high byte first. */
  function PackWord(s: seq<Byte>, at: nat): (w: nat)
    requires at + 8 <= |s|
    ensures w < W64
  {
    s[at] as int * 0x100_0000_0000_0000 + s[at + 1] as int * 0x1_0000_0000_0000
    + s[at + 2] as int * 0x100_0000_0000 + s[at + 3] as int * 0x1_0000_0000
    + s[at + 4] as int * 0x100_0000 + s[at + 5] as int * 0x1_0000 + s[at + 6] as int * 0x100 + s[at + 7] as int
  }

  function PackBlock(s: seq<Byte>, index: nat): (m: seq<nat>)
    requires index + BLOCK <= |s|
    ensures |m| == 16 && forall i :: 0 <= i < 16 ==> m[i] < W64
  {
    seq(16, i requires 0 <= i < 16 => PackWord(s, index + 8 * i))
  }

  lemma PackWordIsNumber(s: seq<Byte>, at: nat)
    requires at + 8 <= |s|
    ensures PackWord(s, at) == Number(s[at..at + 8])
  {
    var b := s[at..at + 8];
    assert b[..7][..6] == b[..6] && b[..6][..5] == b[..5] && b[..5][..4] == b[..4];
    assert b[..4][..3] == b[..3] && b[..3][..2] == b[..2] && b[..2][..1] == b[..1] && b[..1][..0] == [];
    assert Number(b[..1]) == b[0] as int;
    assert Number(b[..2]) == 0x100 * Number(b[..1]) + b[1] as int;
    assert Number(b[..3]) == 0x100 * Number(b[..2]) + b[2] as int;
    assert Number(b[..4]) == 0x100 * Number(b[..3]) + b[3] as int;
    assert Number(b[..5]) == 0x100 * Number(b[..4]) + b[4] as int;
    assert Number(b[..6]) == 0x100 * Number(b[..5]) + b[5] as int;
    assert Number(b[..7]) == 0x100 * Number(b[..6]) + b[6] as int;
  }

  /** Every byte of a block can be recovered from its sixteen words. */
  lemma PackedBytes(s: seq<Byte>, index: nat, i: nat)
    requires index + BLOCK <= |s| && i < 16
    ensures BigEndian(PackBlock(s, index)[i], 8) == s[index + 8 * i..index + 8 * i + 8]
  {
    hide BigEndian, Number, PackWord;
    PackWordIsNumber(s, index + 8 * i);
    BigEndianOfNumber(s[index + 8 * i..index + 8 * i + 8]);
  }

  // ----- one block, section 6.3.2

  function Plus(x: Word64, y: Word64): Word64 { x + y }

  function Minus(x: Word64, y: Word64): Word64 { x - y }

  function Xor(x: Word64, y: Word64): Word64 { x ^ y }

  function Xor3(x: Word64, y: Word64, z: Word64): Word64 { Xor(Xor(x, y), z) }

  function Rotr(n: bv7, x: Word64): Word64
    requires 0 < n < 64
  {
    (x >> n) | (x << (64 - n))
  }

  function Ch(x: Word64, y: Word64, z: Word64): Word64 { (x & y) ^ (!x & z) }

  function Maj(x: Word64, y: Word64, z: Word64): Word64 { (x & y) ^ (x & z) ^ (y & z) }

  function BigSigma0(x: Word64): Word64 { Xor3(Rotr(28, x), Rotr(34, x), Rotr(39, x)) }

  function BigSigma1(x: Word64): Word64 { Xor3(Rotr(14, x), Rotr(18, x), Rotr(41, x)) }

  function SmallSigma0(x: Word64): Word64 { Xor3(Rotr(1, x), Rotr(8, x), x >> 7) }

  function SmallSigma1(x: Word64): Word64 { Xor3(Rotr(19, x), Rotr(61, x), x >> 6) }

  /** A schedule word from the four before it that count. */
  function Next(w2: Word64, w7: Word64, w15: Word64, w16: Word64): Word64 {
    Plus(Plus(Plus(SmallSigma1(w2), w7), SmallSigma0(w15)), w16)
  }

  /** W_t of the standard. */
  function W(m: seq<Word64>, t: nat): Word64
    requires |m| == 16
  {
    if t < 16 then m[t] else Next(W(m, t - 2), W(m, t - 7), W(m, t - 15), W(m, t - 16))
  }

  datatype Vars = Vars(a: Word64, b: Word64, c: Word64, d: Word64, e: Word64, f: Word64, g: Word64, h: Word64)

  function Round(v: Vars, k: Word64, w: Word64): Vars {
    var t1 := T1(v.h, v.e, v.f, v.g, k, w);
    Vars(Plus(t1, T2(v.a, v.b, v.c)), v.a, v.b, v.c, Plus(v.d, t1), v.e, v.f, v.g)
  }

  function T1(h: Word64, e: Word64, f: Word64, g: Word64, k: Word64, w: Word64): Word64 {
    Plus(Plus(Plus(Plus(h, BigSigma1(e)), Ch(e, f, g)), k), w)
  }

  function T2(a: Word64, b: Word64, c: Word64): Word64 {
    Plus(BigSigma0(a), Maj(a, b, c))
  }

  /** The working variables after rounds 0 to t - 1. */
  function Rounds(K: seq<Word64>, m: seq<Word64>, start: Vars, t: nat): Vars
    requires |K| == 80 && |m| == 16 && t <= 80
  {
    if t == 0 then start else Round(Rounds(K, m, start, t - 1), K[t - 1], W(m, t - 1))
  }

  function Sum(v: Vars, u: Vars): Vars {
    Vars(v.a + u.a, v.b + u.b, v.c + u.c, v.d + u.d, v.e + u.e, v.f + u.f, v.g + u.g, v.h + u.h)
  }

  function Words(m: seq<nat>): (w: seq<Word64>)
    requires forall i :: 0 <= i < |m| ==> m[i] < W64
    ensures |w| == |m|
  {
    seq(|m|, i requires 0 <= i < |m| => m[i] as bv64)
  }

  /** The hash value after the first n blocks of a padded message. */
  function HashOf(K: seq<Word64>, initial: Vars, padded: seq<Byte>, n: nat): Vars
    requires |K| == 80 && n * BLOCK <= |padded|
  {
    if n == 0 then initial
    else
      var before := HashOf(K, initial, padded, n - 1);
      Sum(before, Rounds(K, Words(PackBlock(padded, (n - 1) * BLOCK)), before, |K|))
  }

  const INITIAL: Vars := Vars(0x6A09E667F3BCC908, 0xBB67AE8584CAA73B, 0x3C6EF372FE94F82B, 0xA54FF53A5F1D36F1,
                              0x510E527FADE682D1, 0x9B05688C2B3E6C1F, 0x1F83D9ABFB41BD6B, 0x5BE0CD19137E2179)

  // ----- the functions bit by bit

  predicate BitAt(x: Word64, i: bv7)
    requires i < 64
  {
    (x >> i) & 1 == 1
  }

  /** The bit n places up from bit i, around the word. */
  function From(i: bv7, n: bv7): (j: bv7)
    requires i < 64 && 0 < n < 64
    ensures j < 64
  {
    if i < 64 - n then i + n else i - (64 - n)
  }

  lemma Rotr28Bit(x: Word64, i: bv7)
    requires i < 64
    ensures BitAt(Rotr(28, x), i) == if i < 36 then BitAt(x, i + 28) else BitAt(x, i - 36)
  {
  }

  lemma Rotr34Bit(x: Word64, i: bv7)
    requires i < 64
    ensures BitAt(Rotr(34, x), i) == if i < 30 then BitAt(x, i + 34) else BitAt(x, i - 30)
  {
  }

  lemma Rotr39Bit(x: Word64, i: bv7)
    requires i < 64
    ensures BitAt(Rotr(39, x), i) == if i < 25 then BitAt(x, i + 39) else BitAt(x, i - 25)
  {
  }

  lemma Rotr14Bit(x: Word64, i: bv7)
    requires i < 64
    ensures BitAt(Rotr(14, x), i) == if i < 50 then BitAt(x, i + 14) else BitAt(x, i - 50)
  {
  }

  lemma Rotr18Bit(x: Word64, i: bv7)
    requires i < 64
    ensures BitAt(Rotr(18, x), i) == if i < 46 then BitAt(x, i + 18) else BitAt(x, i - 46)
  {
  }

  lemma Rotr41Bit(x: Word64, i: bv7)
    requires i < 64
    ensures BitAt(Rotr(41, x), i) == if i < 23 then BitAt(x, i + 41) else BitAt(x, i - 23)
  {
  }

  lemma Rotr1Bit(x: Word64, i: bv7)
    requires i < 64
    ensures BitAt(Rotr(1, x), i) == if i < 63 then BitAt(x, i + 1) else BitAt(x, i - 63)
  {
  }

  lemma Rotr8Bit(x: Word64, i: bv7)
    requires i < 64
    ensures BitAt(Rotr(8, x), i) == if i < 56 then BitAt(x, i + 8) else BitAt(x, i - 56)
  {
  }

  lemma Rotr19Bit(x: Word64, i: bv7)
    requires i < 64
    ensures BitAt(Rotr(19, x), i) == if i < 45 then BitAt(x, i + 19) else BitAt(x, i - 45)
  {
  }

  lemma Rotr61Bit(x: Word64, i: bv7)
    requires i < 64
    ensures BitAt(Rotr(61, x), i) == if i < 3 then BitAt(x, i + 61) else BitAt(x, i - 3)
  {
  }

  /** The word whose only one is bit i. */
  function Bit(i: bv7): Word64
    requires i < 64
  {
    1 << i
  }

  predicate Meets(x: Word64, b: Word64) { x & b != 0 }

  predicate AllOrNone(x: Word64, b: Word64) { b != 0 && (x & b == 0 || x & b == b) }

  lemma AllOrNoneOfBit(x: Word64, i: bv7)
    requires i < 64
    ensures AllOrNone(x, Bit(i))
  {
  }

  lemma BitAtMeets(x: Word64, i: bv7)
    requires i < 64
    ensures BitAt(x, i) <==> Meets(x, Bit(i))
  {
  }

  lemma XorIs(x: Word64, y: Word64)
    ensures Xor(x, y) == x ^ y
  {
  }

  lemma OnlySecond(x: Word64, y: Word64, b: Word64)
    requires !Meets(x, b)
    ensures Meets(x ^ y, b) <==> Meets(y, b)
  {
  }

  lemma OnlyFirst(x: Word64, y: Word64, b: Word64)
    requires !Meets(y, b)
    ensures Meets(x ^ y, b) <==> Meets(x, b)
  {
  }

  lemma BothMeet(x: Word64, y: Word64, b: Word64)
    requires AllOrNone(x, b) && AllOrNone(y, b) && Meets(x, b) && Meets(y, b)
    ensures !Meets(x ^ y, b)
  {
  }

  lemma XorBit(x: Word64, y: Word64, i: bv7)
    requires i < 64
    ensures BitAt(Xor(x, y), i) == (BitAt(x, i) != BitAt(y, i))
  {
    hide *;
    var b := Bit(i);
    AllOrNoneOfBit(x, i);
    AllOrNoneOfBit(y, i);
    BitAtMeets(x, i);
    BitAtMeets(y, i);
    BitAtMeets(Xor(x, y), i);
    XorIs(x, y);
    if !Meets(x, b) {
      OnlySecond(x, y, b);
    } else if !Meets(y, b) {
      OnlyFirst(x, y, b);
    } else {
      BothMeet(x, y, b);
    }
  }

  lemma Xor3Bit(x: Word64, y: Word64, z: Word64, i: bv7)
    requires i < 64
    ensures BitAt(Xor3(x, y, z), i) == (BitAt(x, i) != (BitAt(y, i) != BitAt(z, i)))
  {
    hide BitAt, Xor;
    XorBit(x, y, i);
    XorBit(Xor(x, y), z, i);
  }

  lemma ShiftBits(x: Word64, i: bv7)
    requires i < 64
    ensures BitAt(x >> 7, i) == if i < 57 then BitAt(x, i + 7) else false
    ensures BitAt(x >> 6, i) == if i < 58 then BitAt(x, i + 6) else false
  {
  }

  /** Every bit of the four sigma functions is the parity of three bits of the word. */
  lemma SigmaBits(x: Word64, i: bv7)
    requires i < 64
    ensures BitAt(BigSigma0(x), i) == (BitAt(x, From(i, 28)) != (BitAt(x, From(i, 34)) != BitAt(x, From(i, 39))))
    ensures BitAt(BigSigma1(x), i) == (BitAt(x, From(i, 14)) != (BitAt(x, From(i, 18)) != BitAt(x, From(i, 41))))
    ensures BitAt(SmallSigma0(x), i) ==
            (BitAt(x, From(i, 1)) != (BitAt(x, From(i, 8)) != if i < 57 then BitAt(x, i + 7) else false))
    ensures BitAt(SmallSigma1(x), i) ==
            (BitAt(x, From(i, 19)) != (BitAt(x, From(i, 61)) != if i < 58 then BitAt(x, i + 6) else false))
  {
    hide BitAt, Rotr, Xor3;
    Rotr28Bit(x, i);
    Rotr34Bit(x, i);
    Rotr39Bit(x, i);
    Rotr14Bit(x, i);
    Rotr18Bit(x, i);
    Rotr41Bit(x, i);
    Rotr1Bit(x, i);
    Rotr8Bit(x, i);
    Rotr19Bit(x, i);
    Rotr61Bit(x, i);
    ShiftBits(x, i);
    Xor3Bit(Rotr(28, x), Rotr(34, x), Rotr(39, x), i);
    Xor3Bit(Rotr(14, x), Rotr(18, x), Rotr(41, x), i);
    Xor3Bit(Rotr(1, x), Rotr(8, x), x >> 7, i);
    Xor3Bit(Rotr(19, x), Rotr(61, x), x >> 6, i);
  }

  /** Ch chooses y where x has ones and z where it has none, for any set m of bit positions. */
  lemma ChChooses(x: Word64, y: Word64, z: Word64, m: Word64)
    ensures x & m == m ==> Ch(x, y, z) & m == y & m
    ensures x & m == 0 ==> Ch(x, y, z) & m == z & m
  {
  }

  /** Maj is what two of the three agree on. */
  lemma MajAgrees(x: Word64, y: Word64, z: Word64, m: Word64)
    requires x & m == y & m || x & m == z & m || y & m == z & m
    ensures Maj(x, y, z) & m == if x & m == y & m then x & m else z & m
  {
    if x & m == y & m {
      MajOfFirstTwo(x, y, z, m);
    } else if x & m == z & m {
      MajOfEnds(x, y, z, m);
    } else {
      MajOfLastTwo(x, y, z, m);
    }
  }

  lemma MajOfFirstTwo(x: Word64, y: Word64, z: Word64, m: Word64)
    requires x & m == y & m
    ensures Maj(x, y, z) & m == x & m
  {
  }

  lemma MajOfEnds(x: Word64, y: Word64, z: Word64, m: Word64)
    requires x & m == z & m
    ensures Maj(x, y, z) & m == z & m
  {
  }

  lemma MajOfLastTwo(x: Word64, y: Word64, z: Word64, m: Word64)
    requires y & m == z & m
    ensures Maj(x, y, z) & m == z & m
  {
  }

  // ----- what a round reads

  lemma PlusIs(x: Word64, y: Word64)
    ensures Plus(x, y) == x + y
  {
  }

  lemma PlusCommutes(x: Word64, y: Word64)
    ensures Plus(x, y) == Plus(y, x)
  {
  }

  lemma SumMinus(x: Word64, y: Word64)
    ensures Minus(x + y, y) == x
  {
  }

  lemma PlusThenMinus(x: Word64, y: Word64)
    ensures Minus(Plus(x, y), y) == x
  {
    hide Plus, Minus;
    PlusIs(x, y);
    SumMinus(x, y);
  }

  lemma PlusTells(x: Word64, y: Word64, z: Word64)
    ensures Plus(y, x) == Plus(z, x) <==> y == z
    ensures Plus(x, y) == Plus(x, z) <==> y == z
  {
    hide Plus, Minus;
    PlusThenMinus(y, x);
    PlusThenMinus(z, x);
    PlusCommutes(x, y);
    PlusCommutes(x, z);
  }

  lemma T1Tells(h: Word64, h': Word64, e: Word64, f: Word64, g: Word64, k: Word64, k': Word64, w: Word64, w': Word64)
    ensures h == h' && k == k' ==> (T1(h, e, f, g, k, w) == T1(h', e, f, g, k', w') <==> w == w')
    ensures h == h' && w == w' ==> (T1(h, e, f, g, k, w) == T1(h', e, f, g, k', w') <==> k == k')
    ensures k == k' && w == w' ==> (T1(h, e, f, g, k, w) == T1(h', e, f, g, k', w') <==> h == h')
  {
    hide Plus, BigSigma1, Ch;
    var s, c := BigSigma1(e), Ch(e, f, g);
    var p, p' := Plus(Plus(h, s), c), Plus(Plus(h', s), c);
    PlusTells(s, h, h');
    PlusTells(c, Plus(h, s), Plus(h', s));
    PlusTells(k, p, p');
    PlusTells(p, k, k');
    PlusTells(Plus(p, k), w, w');
    PlusTells(w, Plus(p, k), Plus(p', k'));
  }

  /** A round reads its schedule word, its constant, and all eight variables: another value of one of
      them changes the result. */
  lemma RoundTells(v: Vars, k: Word64, k': Word64, w: Word64, w': Word64)
    ensures Round(v, k, w) == Round(v, k, w') <==> w == w'
    ensures Round(v, k, w) == Round(v, k', w) <==> k == k'
  {
    hide Plus, T1, T2;
    T1Tells(v.h, v.h, v.e, v.f, v.g, k, k, w, w');
    T1Tells(v.h, v.h, v.e, v.f, v.g, k, k', w, w);
    PlusTells(v.d, T1(v.h, v.e, v.f, v.g, k, w), T1(v.h, v.e, v.f, v.g, k, w'));
    PlusTells(v.d, T1(v.h, v.e, v.f, v.g, k, w), T1(v.h, v.e, v.f, v.g, k', w));
  }

  lemma RoundInjective(v: Vars, v': Vars, k: Word64, w: Word64)
    ensures Round(v, k, w) == Round(v', k, w) <==> v == v'
  {
    hide Plus, T1, T2;
    if Round(v, k, w) == Round(v', k, w) {
      var t, t' := T1(v.h, v.e, v.f, v.g, k, w), T1(v'.h, v.e, v.f, v.g, k, w);
      PlusTells(T2(v.a, v.b, v.c), t, t');
      PlusTells(t, v.d, v'.d);
      T1Tells(v.h, v'.h, v.e, v.f, v.g, k, k, w, w);
    }
  }

  lemma {:induction false} RoundsInjective(K: seq<Word64>, m: seq<Word64>, v: Vars, v': Vars, t: nat)
    requires |K| == 80 && |m| == 16 && t <= 80
    ensures Rounds(K, m, v, t) == Rounds(K, m, v', t) <==> v == v'
  {
    hide Round, W;
    if t == 0 {
    } else {
      RoundInjective(Rounds(K, m, v, t - 1), Rounds(K, m, v', t - 1), K[t - 1], W(m, t - 1));
      RoundsInjective(K, m, v, v', t - 1);
    }
  }

  /** Every one of the constants of the rounds done matters, whatever the block and the start. */
  lemma {:induction false} RoundsReadK(K: seq<Word64>, m: seq<Word64>, v: Vars, t: nat, i: nat, k: Word64)
    requires |K| == 80 && |m| == 16 && t <= 80 && i < 80
    ensures Rounds(K[i := k], m, v, t) == Rounds(K, m, v, t) <==> k == K[i] || t <= i
  {
    hide Round, W;
    if t == 0 {
    } else {
      var u, u' := Rounds(K, m, v, t - 1), Rounds(K[i := k], m, v, t - 1);
      RoundsReadK(K, m, v, t - 1, i, k);
      if t - 1 == i {
        RoundTells(u, K[i], k, W(m, i), W(m, i));
      } else {
        RoundInjective(u, u', K[t - 1], W(m, t - 1));
      }
    }
  }

  /** From the new a and e, and the old a, b and c, the old d. */
  lemma DTells(v: Vars, v': Vars, k: Word64, w: Word64, w': Word64)
    requires Round(v, k, w).a == Round(v', k, w').a && Round(v, k, w).e == Round(v', k, w').e
    requires v.a == v'.a && v.b == v'.b && v.c == v'.c
    ensures v.d == v'.d
  {
    hide Plus, T1, T2;
    var t, t' := T1(v.h, v.e, v.f, v.g, k, w), T1(v'.h, v'.e, v'.f, v'.g, k, w');
    PlusTells(T2(v.a, v.b, v.c), t, t');
    PlusTells(t, v.d, v'.d);
  }

  /** From equal states and equal new a, equal schedule words. */
  lemma WTells(v: Vars, k: Word64, w: Word64, w': Word64)
    requires Round(v, k, w).a == Round(v, k, w').a
    ensures w == w'
  {
    hide Plus, T1, T2;
    PlusTells(T2(v.a, v.b, v.c), T1(v.h, v.e, v.f, v.g, k, w), T1(v.h, v.e, v.f, v.g, k, w'));
    T1Tells(v.h, v.h, v.e, v.f, v.g, k, k, w, w');
  }

  lemma OneRound(K: seq<Word64>, m: seq<Word64>, v: Vars, t: nat)
    requires |K| == 80 && |m| == 16 && t < 16
    ensures Rounds(K, m, v, t + 1) == Round(Rounds(K, m, v, t), K[t], m[t])
  {
    hide Round;
  }

  lemma Carried(v: Vars, k: Word64, w: Word64)
    ensures var r := Round(v, k, w);
            r.b == v.a && r.c == v.b && r.d == v.c && r.f == v.e && r.g == v.f && r.h == v.g
  {
    hide Plus, T1, T2;
  }

  ghost predicate AgreeAToD(r: Vars, r': Vars) {
    r.a == r'.a && r.b == r'.b && r.c == r'.c && r.d == r'.d
  }

  /** One step back: when a, b, c, d and e agree after a round, a, b, c and d agree before it. */
  lemma AgreeBefore(K: seq<Word64>, m: seq<Word64>, m': seq<Word64>, v: Vars, t: nat)
    requires |K| == 80 && |m| == |m'| == 16 && t < 16
    requires AgreeAToD(Rounds(K, m, v, t + 1), Rounds(K, m', v, t + 1))
    requires Rounds(K, m, v, t + 1).e == Rounds(K, m', v, t + 1).e
    ensures AgreeAToD(Rounds(K, m, v, t), Rounds(K, m', v, t))
  {
    hide Round, Rounds;
    var r, r' := Rounds(K, m, v, t), Rounds(K, m', v, t);
    OneRound(K, m, v, t);
    OneRound(K, m', v, t);
    Carried(r, K[t], m[t]);
    Carried(r', K[t], m'[t]);
    DTells(r, r', K[t], m[t], m'[t]);
  }

  /** e moves into f, f into g and g into h. */
  lemma EMovesOn(K: seq<Word64>, m: seq<Word64>, v: Vars, t: nat)
    requires |K| == 80 && |m| == 16 && t < 13
    ensures Rounds(K, m, v, t + 1).f == Rounds(K, m, v, t).e
    ensures Rounds(K, m, v, t + 2).g == Rounds(K, m, v, t).e
    ensures Rounds(K, m, v, t + 3).h == Rounds(K, m, v, t).e
  {
    hide Round, Rounds;
    OneRound(K, m, v, t);
    OneRound(K, m, v, t + 1);
    OneRound(K, m, v, t + 2);
    Carried(Rounds(K, m, v, t), K[t], m[t]);
    Carried(Rounds(K, m, v, t + 1), K[t + 1], m[t + 1]);
    Carried(Rounds(K, m, v, t + 2), K[t + 2], m[t + 2]);
  }

  /** Equal after eight rounds: then a, b, c and d were equal after each of the last four. */
  lemma AgreeLate(K: seq<Word64>, m: seq<Word64>, m': seq<Word64>, v: Vars)
    requires |K| == 80 && |m| == |m'| == 16 && Rounds(K, m, v, 8) == Rounds(K, m', v, 8)
    ensures AgreeAToD(Rounds(K, m, v, 4), Rounds(K, m', v, 4))
    ensures AgreeAToD(Rounds(K, m, v, 5), Rounds(K, m', v, 5))
    ensures AgreeAToD(Rounds(K, m, v, 6), Rounds(K, m', v, 6))
    ensures AgreeAToD(Rounds(K, m, v, 7), Rounds(K, m', v, 7))
  {
    hide Rounds;
    EMovesOn(K, m, v, 5);
    EMovesOn(K, m', v, 5);
    EMovesOn(K, m, v, 6);
    EMovesOn(K, m', v, 6);
    EMovesOn(K, m, v, 7);
    EMovesOn(K, m', v, 7);
    AgreeBefore(K, m, m', v, 7);
    AgreeBefore(K, m, m', v, 6);
    AgreeBefore(K, m, m', v, 5);
    AgreeBefore(K, m, m', v, 4);
  }

  /** The a of four rounds on is found in b, c and d of the next ones. */
  lemma ABefore(K: seq<Word64>, m: seq<Word64>, v: Vars)
    requires |K| == 80 && |m| == 16
    ensures Rounds(K, m, v, 4).b == Rounds(K, m, v, 3).a
    ensures Rounds(K, m, v, 4).c == Rounds(K, m, v, 2).a
    ensures Rounds(K, m, v, 4).d == Rounds(K, m, v, 1).a
  {
    hide Round, Rounds;
    OneRound(K, m, v, 1);
    OneRound(K, m, v, 2);
    OneRound(K, m, v, 3);
    Carried(Rounds(K, m, v, 1), K[1], m[1]);
    Carried(Rounds(K, m, v, 2), K[2], m[2]);
    Carried(Rounds(K, m, v, 3), K[3], m[3]);
  }

  /** Equal after eight rounds: then a was equal after every round. */
  lemma SameA(K: seq<Word64>, m: seq<Word64>, m': seq<Word64>, v: Vars, t: nat)
    requires |K| == 80 && |m| == |m'| == 16 && Rounds(K, m, v, 8) == Rounds(K, m', v, 8) && t <= 8
    ensures Rounds(K, m, v, t).a == Rounds(K, m', v, t).a
  {
    hide Rounds;
    NoRounds(K, m, v);
    NoRounds(K, m', v);
    AgreeLate(K, m, m', v);
    ABefore(K, m, v);
    ABefore(K, m', v);
    assert t == 0 || t == 1 || t == 2 || t == 3 || t == 4 || t == 5 || t == 6 || t == 7 || t == 8;
  }

  lemma NoRounds(K: seq<Word64>, m: seq<Word64>, v: Vars)
    requires |K| == 80 && |m| == 16
    ensures Rounds(K, m, v, 0) == v
  {
  }

  lemma {:induction false} SameStates(K: seq<Word64>, m: seq<Word64>, m': seq<Word64>, v: Vars, t: nat)
    requires |K| == 80 && |m| == |m'| == 16 && Rounds(K, m, v, 8) == Rounds(K, m', v, 8) && t <= 8
    ensures Rounds(K, m, v, t) == Rounds(K, m', v, t) && m[..t] == m'[..t]
  {
    hide Round, Rounds;
    if t == 0 {
      NoRounds(K, m, v);
      NoRounds(K, m', v);
    } else {
      SameStates(K, m, m', v, t - 1);
      SameA(K, m, m', v, t);
      OneRound(K, m, v, t - 1);
      OneRound(K, m', v, t - 1);
      WTells(Rounds(K, m, v, t - 1), K[t - 1], m[t - 1], m'[t - 1]);
      assert m[..t] == m[..t - 1] + [m[t - 1]] && m'[..t] == m'[..t - 1] + [m'[t - 1]];
    }
  }

  lemma {:induction false} SameWords(K: seq<Word64>, m: seq<Word64>, m': seq<Word64>, v: Vars, t: nat)
    requires |K| == 80 && |m| == |m'| == 16 && t <= 16 && m[..t] == m'[..t]
    ensures Rounds(K, m, v, t) == Rounds(K, m', v, t)
  {
    hide Round, Rounds;
    if t == 0 {
      NoRounds(K, m, v);
      NoRounds(K, m', v);
    } else {
      assert m[..t - 1] == m[..t][..t - 1] && m'[..t - 1] == m'[..t][..t - 1];
      assert m[t - 1] == m[..t][t - 1] && m'[t - 1] == m'[..t][t - 1];
      SameWords(K, m, m', v, t - 1);
      OneRound(K, m, v, t - 1);
      OneRound(K, m', v, t - 1);
    }
  }

  /** For all constants and all starts: eight rounds tell the eight words they read. */
  lemma EightRoundsTell(K: seq<Word64>, m: seq<Word64>, m': seq<Word64>, v: Vars)
    requires |K| == 80 && |m| == |m'| == 16
    ensures Rounds(K, m, v, 8) == Rounds(K, m', v, 8) <==> m[..8] == m'[..8]
  {
    hide Rounds;
    if Rounds(K, m, v, 8) == Rounds(K, m', v, 8) {
      SameStates(K, m, m', v, 8);
    }
    if m[..8] == m'[..8] {
      SameWords(K, m, m', v, 8);
    }
  }

  /** Any sixteen schedule words in a row tell the block: the schedule loses nothing. */
  lemma {:induction false} ScheduleTells(m: seq<Word64>, m': seq<Word64>, t: nat)
    requires |m| == |m'| == 16 && forall i :: t <= i < t + 16 ==> W(m, i) == W(m', i)
    ensures m == m'
  {
    hide Plus, SmallSigma0, SmallSigma1;
    if t == 0 {
      forall i | 0 <= i < 16
        ensures m[i] == m'[i]
      {
        assert W(m, i) == W(m', i);
      }
    } else {
      var u := t - 1;
      var p := Plus(Plus(SmallSigma1(W(m, u + 14)), W(m, u + 9)), SmallSigma0(W(m, u + 1)));
      assert W(m, u + 16) == Plus(p, W(m, u)) && W(m', u + 16) == Plus(p, W(m', u));
      PlusTells(p, W(m, u), W(m', u));
      ScheduleTells(m, m', u);
    }
  }

  // ----- the loops of GetMessageDigest

  /** Step 1: everything is appended to the message byte by byte. */
  method PadInPlace(message: seq<Byte>) returns (padded: seq<Byte>)
    ensures padded == Padded(message)
  {
    hide BigEndian, ByteAt, ZeroBytes;
    var len := 8 * |message| % W64;
    var remainder := len % 1024;
    var distance := if remainder >= 896 then 1024 - remainder + 896 - 1 - 7 else 896 - remainder - 1 - 7;
    DistanceBytes(|message|);
    padded := message + [0x80];
    ghost var start := padded;
    for i := 0 to distance / 8
      invariant padded == start + Zeros(i)
    {
      padded := padded + [0];
    }
    start := padded;
    for i := 0 to 8
      invariant padded == start + Zeros(i)
    {
      padded := padded + [0];
    }
    padded := AppendLength(padded, len);
  }

  /** The number of zero bytes, from the low bits of the length in bits. */
  lemma DistanceBytes(n: nat)
    ensures var remainder := 8 * n % W64 % 1024;
            (if remainder >= 896 then 1024 - remainder + 896 - 1 - 7 else 896 - remainder - 1 - 7) / 8 == ZeroBytes(n)
  {
    var q, r := 8 * n / W64, 8 * n % W64;
    assert 8 * n == W64 * q + r;
    Quotient(8 * n, W64 / 1024 * q + r / 1024, 1024, r % 1024);
  }

  /** The last loop: eight bytes of the length, the shift going down from 56. */
  method AppendLength(message: seq<Byte>, len: nat) returns (padded: seq<Byte>)
    ensures padded == message + BigEndian(len, 8)
  {
    hide BigEndian, ByteAt;
    padded := message;
    ghost var field := BigEndian(len, 8);
    var i := 7;
    while i >= 0
      invariant -1 <= i <= 7
      invariant padded == message + field[..7 - i]
    {
      BigEndianAt(len, 8, i);
      assert field[..8 - i] == field[..7 - i] + [ByteAt(len, i)];
      padded := padded + [ByteAt(len, i)];
      i := i - 1;
    }
    assert field[..8] == field;
  }

  /** The two schedule loops fill W as the standard defines it. */
  method Schedule(m: seq<Word64>) returns (s: array<Word64>)
    requires |m| == 16
    ensures fresh(s) && s.Length == 80 && forall t :: 0 <= t < 80 ==> s[t] == W(m, t)
  {
    hide Next;
    s := new Word64[80];
    for t := 0 to 16
      invariant forall u :: 0 <= u < t ==> s[u] == W(m, u)
    {
      s[t] := m[t];
    }
    for t := 16 to 80
      invariant forall u :: 0 <= u < t ==> s[u] == W(m, u)
    {
      s[t] := Next(s[t - 2], s[t - 7], s[t - 15], s[t - 16]);
    }
  }

  /** One turn of the block loop. */
  method HashBlock(K: seq<Word64>, hash: Vars, m: seq<Word64>) returns (r: Vars)
    requires |K| == 80 && |m| == 16
    ensures r == Sum(hash, Rounds(K, m, hash, |K|))
  {
    hide Round, Sum, W;
    var s := Schedule(m);
    var v := hash;
    for t := 0 to 80
      invariant v == Rounds(K, m, hash, t)
    {
      v := Round(v, K[t], s[t]);
    }
    r := Sum(hash, v);
  }

  /** Where the block loop reads block i: `i << 7` in 32 bits. */
  function BlockIndex(i: nat): (index: nat) {
    i * BLOCK % 0x1_0000_0000
  }

  /** Exactly when every block is read where it is: the padded message is no longer than 2^32. */
  lemma BlocksInPlaceIff(n: nat)
    ensures (forall i :: 0 <= i < n ==> BlockIndex(i) == i * BLOCK) <==> n * BLOCK <= 0x1_0000_0000
  {
    if n * BLOCK > 0x1_0000_0000 {
      assert BlockIndex(0x200_0000) != 0x200_0000 * BLOCK;
    }
  }

  /** The hash value after n turns of the block loop, each reading its block where the index says. */
  function HashRead(K: seq<Word64>, initial: Vars, padded: seq<Byte>, n: nat): Vars
    requires |K| == 80 && n * BLOCK <= |padded|
  {
    if n == 0 then initial
    else
      var before := HashRead(K, initial, padded, n - 1);
      Sum(before, Rounds(K, Words(PackBlock(padded, BlockIndex(n - 1))), before, |K|))
  }

  /** While the index does not wrap, every block is hashed once and in order. */
  lemma {:induction false} ReadInPlace(K: seq<Word64>, initial: Vars, padded: seq<Byte>, n: nat)
    requires |K| == 80 && n * BLOCK <= |padded| && n * BLOCK <= 0x1_0000_0000
    ensures HashRead(K, initial, padded, n) == HashOf(K, initial, padded, n)
  {
    hide Sum, Rounds;
    if n == 0 {
    } else {
      ReadInPlace(K, initial, padded, n - 1);
      BlocksInPlaceIff(n);
    }
  }

  /** The loops compute the hash of the blocks read; up to 2^32 bytes those are the blocks of the
      padded message. With 2^32 blocks or more the loop's 32-bit counter would never reach the end. */
  method GetMessageDigest(K: seq<Word64>, message: seq<Byte>) returns (hash: Vars, padded: seq<Byte>)
    requires |K| == 80 && |Padded(message)| / BLOCK < 0x1_0000_0000
    ensures padded == Padded(message)
    ensures |padded| % BLOCK == 0 && hash == HashRead(K, INITIAL, padded, |padded| / BLOCK)
    ensures |padded| <= 0x1_0000_0000 ==> hash == HashOf(K, INITIAL, padded, |padded| / BLOCK)
  {
    hide Padded, Rounds, Sum;
    padded := PadInPlace(message);
    PaddedIsSmallest(message, 0);
    hash := INITIAL;
    var blocks := |padded| / BLOCK;
    for i := 0 to blocks
      invariant hash == HashRead(K, INITIAL, padded, i)
    {
      var m := PackBlock(padded, BlockIndex(i));
      hash := HashBlock(K, hash, Words(m));
    }
    if |padded| <= 0x1_0000_0000 {
      ReadInPlace(K, INITIAL, padded, blocks);
    }
  }
}
