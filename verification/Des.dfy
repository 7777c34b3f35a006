/** The table-driven cipher of Des.c: tables filled by loops, blocks rewritten in place. */
module Des {
  import opened BitBlocks
  import opened BlockBuffers
  import opened DesStandard
  import opened DesLookup
  import opened DesTables

  // ----- what each table holds

  ghost predicate PermTable(perm: array3<bv8>, p: seq<nat>)
    requires Selection(p, 64, 64)
    reads perm
  {
    && perm.Length0 == 16 && perm.Length1 == 16 && perm.Length2 == 8
    && forall i, j, b, m :: 0 <= i < 16 && 0 <= j < 16 && 0 <= b < 8 && 0 <= m < 8 ==>
         BitOf(perm[i, j, b], m) == PermMask(p, i, j, 8 * b + m)
  }

  ghost predicate P32Table(p32: array3<bv8>, p: seq<nat>)
    requires Selection(p, 32, 32)
    reads p32
  {
    && p32.Length0 == 4 && p32.Length1 == 256 && p32.Length2 == 4
    && forall i, j, b, m :: 0 <= i < 4 && 0 <= j < 256 && 0 <= b < 4 && 0 <= m < 8 ==>
         BitOf(p32[i, j, b], m) == P32Mask(p, i, j, 8 * b + m)
  }

  ghost predicate PairTable(s: array2<bv8>, t: Tables)
    requires t.Valid()
    reads s
  {
    && s.Length0 == 4 && s.Length1 == 4096
    && forall i, j :: 0 <= i < 4 && 0 <= j < 4096 ==> s[i, j] == SPair(t.si, i, j)
  }

  ghost predicate KeyTable(kn: array2<bv8>, keys: seq<Bits>)
    requires |keys| == 16 && Keys(keys)
    reads kn
  {
    && kn.Length0 == 16 && kn.Length1 == 6
    && forall i, b, m :: 0 <= i < 16 && 0 <= b < 6 && 0 <= m < 8 ==> BitOf(kn[i, b], m) == keys[i][8 * b + m]
  }

  /** Sets bit m of a byte, whatever the other bits are. */
  lemma BitSet(x: bv8, m: nat, k: nat)
    requires m < 8 && k < 8
    ensures BitOf(x | ByteBit(m), k) == (BitOf(x, k) || m == k)
  {
    OrBits(x, ByteBit(m), k);
    MaskBits(m, k);
  }

  lemma NoBits()
    ensures forall k :: 0 <= k < 8 ==> !BitOf(0, k)
  {
  }

  // ----- filling the permutation tables

  /** The masks of `perminit` for one nibble position and one nibble value. */
  method FillPermMasks(perm: array3<bv8>, p: seq<nat>, i: nat, j: nat)
    requires Selection(p, 64, 64)
    requires perm.Length0 == 16 && perm.Length1 == 16 && perm.Length2 == 8 && i < 16 && j < 16
    requires forall b :: 0 <= b < 8 ==> perm[i, j, b] == 0
    modifies perm
    ensures forall b, m :: 0 <= b < 8 && 0 <= m < 8 ==> BitOf(perm[i, j, b], m) == PermMask(p, i, j, 8 * b + m)
    ensures forall i', j', b :: 0 <= i' < 16 && 0 <= j' < 16 && 0 <= b < 8 && (i' != i || j' != j) ==>
              perm[i', j', b] == old(perm[i', j', b])
  {
    hide BitOf, ByteBit;
    NoBits();
    for k := 0 to 64
      invariant forall b, m :: 0 <= b < 8 && 0 <= m < 8 ==>
                  BitOf(perm[i, j, b], m) == (8 * b + m < k && PermMask(p, i, j, 8 * b + m))
      invariant forall i', j', b :: 0 <= i' < 16 && 0 <= j' < 16 && 0 <= b < 8 && (i' != i || j' != j) ==>
                  perm[i', j', b] == old(perm[i', j', b])
    {
      var l := p[k] - 1;
      if l / 4 == i && NibbleBitOf(j, l % 4) {
        var before := perm[i, j, k / 8];
        perm[i, j, k / 8] := before | ByteBit(k % 8);
        forall m | 0 <= m < 8
          ensures BitOf(perm[i, j, k / 8], m) == (BitOf(before, m) || m == k % 8)
        {
          BitSet(before, k % 8, m);
        }
      }
    }
  }

  method PermInit(perm: array3<bv8>, p: seq<nat>)
    requires Selection(p, 64, 64)
    requires perm.Length0 == 16 && perm.Length1 == 16 && perm.Length2 == 8
    modifies perm
    ensures PermTable(perm, p)
  {
    hide BitOf, PermMask;
    forall i, j, b | 0 <= i < 16 && 0 <= j < 16 && 0 <= b < 8 {
      perm[i, j, b] := 0;
    }
    for i := 0 to 16
      invariant forall i', j, b, m :: 0 <= i' < i && 0 <= j < 16 && 0 <= b < 8 && 0 <= m < 8 ==>
                  BitOf(perm[i', j, b], m) == PermMask(p, i', j, 8 * b + m)
      invariant forall i', j, b :: i <= i' < 16 && 0 <= j < 16 && 0 <= b < 8 ==> perm[i', j, b] == 0
    {
      for j := 0 to 16
        invariant forall i', j', b, m :: 0 <= i' < i && 0 <= j' < 16 && 0 <= b < 8 && 0 <= m < 8 ==>
                    BitOf(perm[i', j', b], m) == PermMask(p, i', j', 8 * b + m)
        invariant forall j', b, m :: 0 <= j' < j && 0 <= b < 8 && 0 <= m < 8 ==>
                    BitOf(perm[i, j', b], m) == PermMask(p, i, j', 8 * b + m)
        invariant forall j', b :: j <= j' < 16 && 0 <= b < 8 ==> perm[i, j', b] == 0
        invariant forall i', j', b :: i < i' < 16 && 0 <= j' < 16 && 0 <= b < 8 ==> perm[i', j', b] == 0
      {
        FillPermMasks(perm, p, i, j);
      }
    }
  }

  /** `permute`: the 64-bit permutation by ORing two masks per input byte. */
  method Permute(inblock: seq<bv8>, perm: array3<bv8>, ghost p: seq<nat>) returns (out: seq<bv8>)
    requires |inblock| == 8 && Selection(p, 64, 64) && PermTable(perm, p)
    ensures |out| == 8 && BitsOf(out) == Select(p, BitsOf(inblock))
  {
    hide BitOf, PermMask, Merged, HighNibble, LowNibble;
    out := [0, 0, 0, 0, 0, 0, 0, 0];
    NothingMerged(p, inblock, out);
    for n := 0 to 8
      invariant |out| == 8
      invariant forall b, m :: 0 <= b < 8 && 0 <= m < 8 ==> BitOf(out[b], m) == Merged(p, inblock, n, 8 * b + m)
    {
      var high, low := HighNibble(inblock[n]), LowNibble(inblock[n]);
      for i := 0 to 8
        invariant |out| == 8
        invariant forall b, m :: 0 <= b < i && 0 <= m < 8 ==> BitOf(out[b], m) == Merged(p, inblock, n + 1, 8 * b + m)
        invariant forall b, m :: i <= b < 8 && 0 <= m < 8 ==> BitOf(out[b], m) == Merged(p, inblock, n, 8 * b + m)
      {
        var before, mask, mask' := out[i], perm[2 * n, high, i], perm[2 * n + 1, low, i];
        out := out[i := before | (mask | mask')];
        forall m | 0 <= m < 8
          ensures BitOf(out[i], m) == Merged(p, inblock, n + 1, 8 * i + m)
        {
          OrBits(before, mask | mask', m);
          OrBits(mask, mask', m);
          NextByteByNibbles(p, inblock, n, 8 * i + m);
        }
      }
    }
    MergedAll(p, inblock, out);
  }

  lemma NothingMerged(p: seq<nat>, inblock: seq<bv8>, out: seq<bv8>)
    requires |p| == 8 * |out| && forall k :: 0 <= k < |p| ==> 1 <= p[k] <= 8 * |inblock|
    requires forall b :: 0 <= b < |out| ==> out[b] == 0
    ensures forall b, m :: 0 <= b < |out| && 0 <= m < 8 ==> BitOf(out[b], m) == Merged(p, inblock, 0, 8 * b + m)
  {
  }

  // ----- the tables of the cipher function

  method FillP32Masks(p32: array3<bv8>, p: seq<nat>, i: nat, j: nat)
    requires Selection(p, 32, 32)
    requires p32.Length0 == 4 && p32.Length1 == 256 && p32.Length2 == 4 && i < 4 && j < 256
    requires forall b :: 0 <= b < 4 ==> p32[i, j, b] == 0
    modifies p32
    ensures forall b, m :: 0 <= b < 4 && 0 <= m < 8 ==> BitOf(p32[i, j, b], m) == P32Mask(p, i, j, 8 * b + m)
    ensures forall i', j', b :: 0 <= i' < 4 && 0 <= j' < 256 && 0 <= b < 4 && (i' != i || j' != j) ==>
              p32[i', j', b] == old(p32[i', j', b])
  {
    hide BitOf, ByteBit, IndexBitOf;
    NoBits();
    for k := 0 to 32
      invariant forall b, m :: 0 <= b < 4 && 0 <= m < 8 ==>
                  BitOf(p32[i, j, b], m) == (8 * b + m < k && P32Mask(p, i, j, 8 * b + m))
      invariant forall i', j', b :: 0 <= i' < 4 && 0 <= j' < 256 && 0 <= b < 4 && (i' != i || j' != j) ==>
                  p32[i', j', b] == old(p32[i', j', b])
    {
      var l := p[k] - 1;
      if l / 8 == i && IndexBitOf(j, l % 8) {
        var before := p32[i, j, k / 8];
        p32[i, j, k / 8] := before | ByteBit(k % 8);
        forall m | 0 <= m < 8
          ensures BitOf(p32[i, j, k / 8], m) == (BitOf(before, m) || m == k % 8)
        {
          BitSet(before, k % 8, m);
        }
      }
    }
  }

  method P32Init(p32: array3<bv8>, p: seq<nat>)
    requires Selection(p, 32, 32)
    requires p32.Length0 == 4 && p32.Length1 == 256 && p32.Length2 == 4
    modifies p32
    ensures P32Table(p32, p)
  {
    hide BitOf, P32Mask;
    forall i, j, b | 0 <= i < 4 && 0 <= j < 256 && 0 <= b < 4 {
      p32[i, j, b] := 0;
    }
    for i := 0 to 4
      invariant forall i', j, b, m :: 0 <= i' < i && 0 <= j < 256 && 0 <= b < 4 && 0 <= m < 8 ==>
                  BitOf(p32[i', j, b], m) == P32Mask(p, i', j, 8 * b + m)
      invariant forall i', j, b :: i <= i' < 4 && 0 <= j < 256 && 0 <= b < 4 ==> p32[i', j, b] == 0
    {
      for j := 0 to 256
        invariant forall i', j', b, m :: 0 <= i' < i && 0 <= j' < 256 && 0 <= b < 4 && 0 <= m < 8 ==>
                    BitOf(p32[i', j', b], m) == P32Mask(p, i', j', 8 * b + m)
        invariant forall j', b, m :: 0 <= j' < j && 0 <= b < 4 && 0 <= m < 8 ==>
                    BitOf(p32[i, j', b], m) == P32Mask(p, i, j', 8 * b + m)
        invariant forall j', b :: j <= j' < 256 && 0 <= b < 4 ==> p32[i, j', b] == 0
        invariant forall i', j', b :: i < i' < 4 && 0 <= j' < 256 && 0 <= b < 4 ==> p32[i', j', b] == 0
      {
        FillP32Masks(p32, p, i, j);
      }
    }
  }

  /** `perm32`: the 32-bit permutation by ORing one mask per input byte. */
  method Perm32(inblock: seq<bv8>, p32: array3<bv8>, ghost p: seq<nat>) returns (out: seq<bv8>)
    requires |inblock| == 4 && Selection(p, 32, 32) && P32Table(p32, p)
    ensures |out| == 4 && BitsOf(out) == Select(p, BitsOf(inblock))
  {
    hide BitOf, P32Mask, Merged;
    out := [0, 0, 0, 0];
    NothingMerged(p, inblock, out);
    for n := 0 to 4
      invariant |out| == 4
      invariant forall b, m :: 0 <= b < 4 && 0 <= m < 8 ==> BitOf(out[b], m) == Merged(p, inblock, n, 8 * b + m)
    {
      var j := inblock[n] as int;
      for i := 0 to 4
        invariant |out| == 4
        invariant forall b, m :: 0 <= b < i && 0 <= m < 8 ==> BitOf(out[b], m) == Merged(p, inblock, n + 1, 8 * b + m)
        invariant forall b, m :: i <= b < 4 && 0 <= m < 8 ==> BitOf(out[b], m) == Merged(p, inblock, n, 8 * b + m)
      {
        var before, mask := out[i], p32[n, j, i];
        out := out[i := before | mask];
        forall m | 0 <= m < 8
          ensures BitOf(out[i], m) == Merged(p, inblock, n + 1, 8 * i + m)
        {
          OrBits(before, mask, m);
          NextByteByIndex(p, inblock, n, 8 * i + m);
        }
      }
    }
    MergedAll(p, inblock, out);
  }

  method SInit(s: array2<bv8>, t: Tables)
    requires t.Valid() && s.Length0 == 4 && s.Length1 == 4096
    modifies s
    ensures PairTable(s, t)
  {
    for i := 0 to 4
      invariant forall i', j :: 0 <= i' < i && 0 <= j < 4096 ==> s[i', j] == SPair(t.si, i', j)
    {
      for j := 0 to 4096
        invariant forall i', j' :: 0 <= i' < i && 0 <= j' < 4096 ==> s[i', j'] == SPair(t.si, i', j')
        invariant forall j' :: 0 <= j' < j ==> s[i, j'] == SPair(t.si, i, j')
      {
        s[i, j] := (GetComp(t.si, 2 * i, j / 64) << 4) | (0x0f & GetComp(t.si, 2 * i + 1, j % 64));
      }
    }
  }

  // ----- the key table

  /** One section of `kinit`: ORs the selected bits of the rotated key into row i. */
  method FillRoundKey(kn: array2<bv8>, pcr: Bits, pc2: seq<nat>, i: nat)
    requires kn.Length0 == 16 && kn.Length1 == 6 && i < 16 && |pcr| == 56 && Selection(pc2, 48, 56)
    requires forall b :: 0 <= b < 6 ==> kn[i, b] == 0
    modifies kn
    ensures forall b, m :: 0 <= b < 6 && 0 <= m < 8 ==> BitOf(kn[i, b], m) == Select(pc2, pcr)[8 * b + m]
    ensures forall i', b :: 0 <= i' < 16 && 0 <= b < 6 && i' != i ==> kn[i', b] == old(kn[i', b])
  {
    hide BitOf, ByteBit;
    NoBits();
    for j := 0 to 48
      invariant forall b, m :: 0 <= b < 6 && 0 <= m < 8 ==>
                  BitOf(kn[i, b], m) == (8 * b + m < j && pcr[pc2[8 * b + m] - 1])
      invariant forall i', b :: 0 <= i' < 16 && 0 <= b < 6 && i' != i ==> kn[i', b] == old(kn[i', b])
    {
      if pcr[pc2[j] - 1] {
        var before := kn[i, j / 8];
        kn[i, j / 8] := before | ByteBit(j % 8);
        forall m | 0 <= m < 8
          ensures BitOf(kn[i, j / 8], m) == (BitOf(before, m) || m == j % 8)
        {
          BitSet(before, j % 8, m);
        }
      }
    }
  }

  /** The halves rotated once by the running total are C and D of the round. */
  lemma OneShotRotation(t: Tables, key: Bits, round: nat, pcr: Bits)
    requires t.Valid() && |key| == 64 && |pcr| == 56 && TotalShifts(round) <= 28
    requires forall j :: 0 <= j < 56 ==> pcr[j] == Select(t.pc1, key)[Source(j, TotalShifts(round))]
    ensures pcr == CD(t, key, round)
  {
    hide Source;
    CDByTotal(t, key, round);
    RotateTimesAt(Select(t.pc1, key), TotalShifts(round));
  }

  /** `kinit`: fills the key table; it holds the standard's key schedule. */
  method KInit(kn: array2<bv8>, key64bit: seq<bv8>, t: Tables, totrot: seq<nat>)
    requires t.Valid() && kn.Length0 == 16 && kn.Length1 == 6 && |key64bit| == 8
    requires |totrot| == 16 && forall r :: 0 <= r < 16 ==> totrot[r] == TotalShifts(r) <= 28
    modifies kn
    ensures KeyTable(kn, Schedule(t, BitsOf(key64bit)))
  {
    hide BitOf, CD, RotateTimes, TotalShifts;
    ghost var key := BitsOf(key64bit);
    var pc1m: Bits := [];
    for j := 0 to 56
      invariant |pc1m| == j && forall j' :: 0 <= j' < j ==> pc1m[j'] == Select(t.pc1, key)[j']
    {
      var l := t.pc1[j] - 1;
      pc1m := pc1m + [BitOf(key64bit[l / 8], l % 8)];
    }
    forall i, b | 0 <= i < 16 && 0 <= b < 6 {
      kn[i, b] := 0;
    }
    for i := 0 to 16
      invariant forall i', b, m :: 0 <= i' < i && 0 <= b < 6 && 0 <= m < 8 ==>
                  BitOf(kn[i', b], m) == RoundKey(t, key, i')[8 * b + m]
      invariant forall i', b :: i <= i' < 16 && 0 <= b < 6 ==> kn[i', b] == 0
    {
      var pcr: Bits := [];
      for j := 0 to 56
        invariant |pcr| == j && forall j' :: 0 <= j' < j ==> pcr[j'] == pc1m[Source(j', totrot[i])]
      {
        var l := j + totrot[i];
        pcr := pcr + [pc1m[if l < (if j < 28 then 28 else 56) then l else l - 28]];
      }
      OneShotRotation(t, key, i, pcr);
      FillRoundKey(kn, pcr, t.pc2, i);
    }
  }

  // ----- buffers

  /** What the standard makes of one block of eight bytes with these keys. */
  function CipherBlock(t: Tables, keys: seq<Bits>): BlockMap
    requires t.Valid() && Keys(keys)
  {
    (block: seq<bv8>) => if |block| == 8 then Pack(Encipher(t, keys, BitsOf(block))) else []
  }

  lemma WholeBlockMap(t: Tables, keys: seq<Bits>)
    requires t.Valid() && Keys(keys)
    ensures OnBlocks(CipherBlock(t, keys))
  {
    hide Encipher, BitsOf;
  }

  lemma CipherBlockUndone(t: Tables, keys: seq<Bits>, block: seq<bv8>)
    requires t.Valid() && Keys(keys) && |block| == 8
    ensures CipherBlock(t, Reverse(keys))(CipherBlock(t, keys)(block)) == block
  {
    hide Encipher, BitOf, PackByte;
    PackThenBits(Encipher(t, keys, BitsOf(block)));
    DecipherInvertsEncipher(t, keys, BitsOf(block));
    BitsThenPack(block);
  }

  /** For every key schedule and every buffer, deciphering the enciphered buffer block by block
      gives the buffer back. */
  lemma DecipheredBuffer(t: Tables, keys: seq<Bits>, buf: seq<bv8>, n: nat)
    requires t.Valid() && Keys(keys) && 8 * n <= |buf|
    ensures MapBlocks(CipherBlock(t, Reverse(keys)), MapBlocks(CipherBlock(t, keys), buf, n), n) == buf
  {
    hide Encipher, BitsOf, Pack;
    forall block: seq<bv8> | |block| == 8
      ensures CipherBlock(t, Reverse(keys))(CipherBlock(t, keys)(block)) == block
    {
      CipherBlockUndone(t, keys, block);
    }
    MapUndone(CipherBlock(t, keys), CipherBlock(t, Reverse(keys)), buf, n);
  }

  // ----- the password

  /** The password characters that count: up to the first NUL, and no more than forty. */
  function Used(password: seq<bv8>): (n: nat)
    ensures n <= |password| && n <= 40
    ensures forall i :: 0 <= i < n ==> password[i] != 0
    ensures n == |password| || n == 40 || password[n] == 0
  {
    UsedFrom(password, 0)
  }

  function UsedFrom(password: seq<bv8>, i: nat): (n: nat)
    requires i <= |password| && i <= 40
    ensures i <= n <= |password| && n <= 40
    ensures forall k :: i <= k < n ==> password[k] != 0
    ensures n == |password| || n == 40 || password[n] == 0
    decreases |password| - i
  {
    if i < |password| && password[i] != 0 && i < 40 then UsedFrom(password, i + 1) else i
  }

  /** Key byte b: the XOR of every eighth password character from b on. */
  function FoldedByte(password: seq<bv8>, n: nat, b: nat): bv8
    requires n <= |password|
  {
    if n == 0 then 0
    else FoldedByte(password, n - 1, b) ^ (if (n - 1) % 8 == b then password[n - 1] else 0)
  }

  function FoldedKey(password: seq<bv8>): (key: seq<bv8>)
    ensures |key| == 8
  {
    seq(8, b requires 0 <= b < 8 => FoldedByte(password, Used(password), b))
  }

  method FoldPassword(password: seq<bv8>) returns (key: seq<bv8>)
    ensures key == FoldedKey(password)
  {
    key := [0, 0, 0, 0, 0, 0, 0, 0];
    var i := 0;
    while i < |password| && password[i] != 0 && i < 40
      invariant i <= |password| && i <= 40 && |key| == 8
      invariant UsedFrom(password, i) == Used(password)
      invariant forall b :: 0 <= b < 8 ==> key[b] == FoldedByte(password, i, b)
    {
      key := key[i % 8 := key[i % 8] ^ password[i]];
      i := i + 1;
    }
  }

  // ----- the cipher

  class Cipher {
    const t: Tables
    const totrot: seq<nat>
    const iperm: array3<bv8>
    const fperm: array3<bv8>
    const s: array2<bv8>
    const p32: array3<bv8>
    const kn: array2<bv8>

    /** Shapes of the tables, whatever they hold. */
    ghost predicate Valid() {
      && t.Valid()
      && |totrot| == 16 && (forall r :: 0 <= r < 16 ==> totrot[r] == TotalShifts(r) <= 28)
      && iperm.Length0 == 16 && iperm.Length1 == 16 && iperm.Length2 == 8
      && fperm.Length0 == 16 && fperm.Length1 == 16 && fperm.Length2 == 8
      && s.Length0 == 4 && s.Length1 == 4096
      && p32.Length0 == 4 && p32.Length1 == 256 && p32.Length2 == 4
      && kn.Length0 == 16 && kn.Length1 == 6
      && iperm != fperm && iperm != p32 && fperm != p32 && s != kn
    }

    ghost function Footprint(): set<object> {
      {iperm, fperm, s, p32, kn}
    }

    /** The tables hold what `DesKeyInit` puts there, for this key schedule. */
    ghost predicate Keyed(keys: seq<Bits>)
      reads Footprint()
      ensures Keyed(keys) ==> t.Valid() && |keys| == 16 && Keys(keys)
    {
      && Valid() && |keys| == 16 && Keys(keys)
      && PermTable(iperm, t.ip) && PermTable(fperm, t.fp)
      && PairTable(s, t) && P32Table(p32, t.p) && KeyTable(kn, keys)
    }

    /** The static tables of the source, before any key is set. */
    constructor ()
      ensures Valid() && t == Standard() && fresh(Footprint())
    {
      StandardValid();
      TotrotIsTotal();
      t := Standard();
      totrot := TOTROT;
      iperm := new bv8[16, 16, 8];
      fperm := new bv8[16, 16, 8];
      s := new bv8[4, 4096];
      p32 := new bv8[4, 256, 4];
      kn := new bv8[16, 6];
    }

    /** `DesKeyInit`: folds the password into a 64-bit key and fills every table. */
    method DesKeyInit(password: seq<bv8>)
      requires Valid()
      modifies Footprint()
      ensures Keyed(Schedule(t, BitsOf(FoldedKey(password))))
    {
      var key := FoldPassword(password);
      PermInit(iperm, t.ip);
      PermInit(fperm, t.fp);
      KInit(kn, key, t, totrot);
      SInit(s, t);
      P32Init(p32, t.p);
    }

    /** `f`: expansion, key, pair lookups, byte masks. It is the standard's f for every 32-bit
        input and every 48-bit key in the table. */
    method F(right: seq<bv8>, num: nat, ghost keys: seq<Bits>) returns (fret: seq<bv8>)
      requires Keyed(keys) && |right| == 4 && num < 16
      ensures |fret| == 4 && BitsOf(fret) == DesStandard.F(t, BitsOf(right), keys[num])
    {
      hide BitOf, Expanded, SPair, FrontIndex, BackIndex, SPair, Substitute, E;
      var bigright := Expanded(right);
      ExpandedIsE(right);
      var kb := [kn[num, 0], kn[num, 1], kn[num, 2], kn[num, 3], kn[num, 4], kn[num, 5]];
      BitsByByte(kb, keys[num]);
      var result := XorBytes(bigright, kb);
      XorBlocks(bigright, kb);
      var preout := [s[0, FrontIndex(result[0], result[1])], s[1, BackIndex(result[1], result[2])],
                     s[2, FrontIndex(result[3], result[4])], s[3, BackIndex(result[4], result[5])]];
      assert preout == Contracted(t.si, result);
      ContractedIsSubstitute(t.si, result);
      fret := Perm32(preout, p32, t.p);
    }

    /** `iter`: one round on a block of two halves. */
    method Iter(num: nat, inblock: seq<bv8>, ghost keys: seq<Bits>) returns (outblock: seq<bv8>)
      requires Keyed(keys) && |inblock| == 8 && num < 16
      ensures |outblock| == 8
      ensures Split(BitsOf(outblock)) == Round(t, keys[num], Split(BitsOf(inblock)))
    {
      hide BitOf, DesStandard.F;
      var left, right := inblock[..4], inblock[4..];
      var fret := F(right, num, keys);
      outblock := right + XorBytes(left, fret);
      XorBlocks(left, fret);
      BitsOfParts(left, right);
      BitsOfParts(right, XorBytes(left, fret));
      assert inblock == left + right;
    }

    /** `endes` and `dedes`: sixteen rounds between the two permutations, with the key sections
        taken forwards or backwards. */
    method Rounds16(inblock: seq<bv8>, encrypting: bool, ghost keys: seq<Bits>) returns (outblock: seq<bv8>)
      requires Keyed(keys) && |inblock| == 8
      ensures |outblock| == 8
      ensures BitsOf(outblock) ==
              if encrypting then Encipher(t, keys, BitsOf(inblock)) else Decipher(t, keys, BitsOf(inblock))
    {
      hide BitOf, Round, Select;
      ghost var used := if encrypting then keys else Reverse(keys);
      var block := Permute(inblock, iperm, t.ip);
      ghost var start := Split(BitsOf(block));
      for i := 0 to 16
        invariant |block| == 8
        invariant Split(BitsOf(block)) == Rounds(t, used[..i], start)
      {
        assert used[..i + 1][..i] == used[..i];
        block := Iter(if encrypting then i else 15 - i, block, keys);
      }
      assert used[..16] == used;
      var swap := block[4..] + block[..4];
      BitsOfParts(block[4..], block[..4]);
      BitsOfParts(block[..4], block[4..]);
      assert block == block[..4] + block[4..];
      assert BitsOf(swap) == Split(BitsOf(block)).Swap().Join();
      outblock := Permute(swap, fperm, t.fp);
    }

    /** `DesMem`: rewrites the buffer eight bytes at a time. */
    method DesMem(buf: array<bv8>, mlen: int, encrypting: bool, ghost keys: seq<Bits>)
      requires Keyed(keys) && mlen <= buf.Length && mlen % 8 == 0 && buf !in Footprint()
      modifies buf
      ensures Keyed(keys)
      ensures buf[..] == MapBlocks(CipherBlock(t, if encrypting then keys else Reverse(keys)),
                                   old(buf[..]), WholeBlocks(mlen))
    {
      hide Encipher, CipherBlock, Keyed, MapBlocks, Slice, Reverse;
      ghost var f := CipherBlock(t, if encrypting then keys else Reverse(keys));
      WholeBlockMap(t, if encrypting then keys else Reverse(keys));
      ghost var before := buf[..];
      ghost var total, n := mlen / 8, 0;
      var left, b := mlen, 0;
      NoBlocks(f, before);
      while left > 0
        invariant left == 8 * (total - n) && b == 8 * n && (total <= 0 ==> n == 0) && (total >= 0 ==> n <= total)
        invariant Keyed(keys)
        invariant buf[..] == MapBlocks(f, before, n)
        decreases left
      {
        OneMoreBlock(f, before, n);
        CryptBlock(buf, b, encrypting, keys);
        left, b, n := left - 8, b + 8, n + 1;
      }
      assert n == WholeBlocks(mlen);
    }

    /** `endes(b, b)` or `dedes(b, b)`: one block in place. */
    method CryptBlock(buf: array<bv8>, b: nat, encrypting: bool, ghost keys: seq<Bits>)
      requires Keyed(keys) && b + 8 <= buf.Length && buf !in Footprint()
      modifies buf
      ensures Keyed(keys)
      ensures buf[..] == old(buf[..])[..b]
                         + CipherBlock(t, if encrypting then keys else Reverse(keys))(old(buf[..])[b..b + 8])
                         + old(buf[..])[b + 8..]
    {
      hide BitOf, Encipher, PackByte, Keyed;
      var inblock := buf[b..b + 8];
      assert inblock == buf[..][b..b + 8];
      var outblock := Rounds16(inblock, encrypting, keys);
      BitsThenPack(outblock);
      StoreBlock(buf, b, outblock);
    }

    method DesWriteBlock(buf: array<bv8>, len: int, ghost keys: seq<Bits>)
      requires Keyed(keys) && len <= buf.Length && buf !in Footprint()
      modifies buf
      ensures Keyed(keys) && buf[..] == MapBlocks(CipherBlock(t, keys), old(buf[..]), WholeBlocks(len))
    {
      hide Keyed, MapBlocks;
      assert WholeBlocks(len - len % 8) == WholeBlocks(len);
      DesMem(buf, len - len % 8, true, keys);
    }

    method DesReadBlock(buf: array<bv8>, len: int, ghost keys: seq<Bits>)
      requires Keyed(keys) && len <= buf.Length && buf !in Footprint()
      modifies buf
      ensures Keyed(keys) && buf[..] == MapBlocks(CipherBlock(t, Reverse(keys)), old(buf[..]), WholeBlocks(len))
    {
      hide Keyed, MapBlocks;
      assert WholeBlocks(len - len % 8) == WholeBlocks(len);
      DesMem(buf, len - len % 8, false, keys);
    }
  }

  /** For every password and every buffer of any length: what is written is the standard's cipher of
      every whole block, and reading it gives the buffer back. */
  method WriteThenRead(password: seq<bv8>, buf: array<bv8>, len: int) returns (written: seq<bv8>)
    requires len <= buf.Length
    modifies buf
    ensures Standard().Valid()
    ensures written == MapBlocks(CipherBlock(Standard(), Schedule(Standard(), BitsOf(FoldedKey(password)))),
                                 old(buf[..]), WholeBlocks(len))
    ensures buf[..] == old(buf[..])
  {
    StandardValid();
    var des := new Cipher();
    des.DesKeyInit(password);
    ghost var keys := Schedule(des.t, BitsOf(FoldedKey(password)));
    des.DesWriteBlock(buf, len, keys);
    written := buf[..];
    des.DesReadBlock(buf, len, keys);
    DecipheredBuffer(des.t, keys, old(buf[..]), WholeBlocks(len));
  }
}
