/** MD5 as RFC 1321 defines it on a whole message: padding, length, and the block-by-block rounds of
    sections 3.1 to 3.5. */
module Md5Standard {
  import opened Arithmetic
  import opened LittleEndian
  import opened MachineWords

  const INIT: seq<Word32> := [0x67452301, 0xefcdab89, 0x98badcfe, 0x10325476]

  // ----- words and bytes, low byte first

  function Encode(words: seq<Word32>): (bytes: seq<Byte>)
    ensures |bytes| == 4 * |words|
  {
    seq(4 * |words|, j requires 0 <= j < 4 * |words| => ByteOf(words[j / 4], j % 4))
  }

  function Decode(bytes: seq<Byte>): (words: seq<Word32>)
    requires |bytes| % 4 == 0
    ensures |words| == |bytes| / 4
  {
    seq(|bytes| / 4, i requires 0 <= i < |bytes| / 4 =>
      Word(bytes[4 * i], bytes[4 * i + 1], bytes[4 * i + 2], bytes[4 * i + 3]))
  }

  // ----- one block, section 3.4

  const T: seq<Word32> :=
    [0xd76aa478, 0xe8c7b756, 0x242070db, 0xc1bdceee] +
    [0xf57c0faf, 0x4787c62a, 0xa8304613, 0xfd469501] +
    [0x698098d8, 0x8b44f7af, 0xffff5bb1, 0x895cd7be] +
    [0x6b901122, 0xfd987193, 0xa679438e, 0x49b40821] +
    [0xf61e2562, 0xc040b340, 0x265e5a51, 0xe9b6c7aa] +
    [0xd62f105d, 0x2441453, 0xd8a1e681, 0xe7d3fbc8] +
    [0x21e1cde6, 0xc33707d6, 0xf4d50d87, 0x455a14ed] +
    [0xa9e3e905, 0xfcefa3f8, 0x676f02d9, 0x8d2a4c8a] +
    [0xfffa3942, 0x8771f681, 0x6d9d6122, 0xfde5380c] +
    [0xa4beea44, 0x4bdecfa9, 0xf6bb4b60, 0xbebfbc70] +
    [0x289b7ec6, 0xeaa127fa, 0xd4ef3085, 0x4881d05] +
    [0xd9d4d039, 0xe6db99e5, 0x1fa27cf8, 0xc4ac5665] +
    [0xf4292244, 0x432aff97, 0xab9423a7, 0xfc93a039] +
    [0x655b59c3, 0x8f0ccc92, 0xffeff47d, 0x85845dd1] +
    [0x6fa87e4f, 0xfe2ce6e0, 0xa3014314, 0x4e0811a1] +
    [0xf7537e82, 0xbd3af235, 0x2ad7d2bb, 0xeb86d391]

  /** F, G, H and I of the four rounds. */
  function Mix(round: nat, x: Word32, y: Word32, z: Word32): Word32 {
    if round == 0 then (x & y) | (!x & z)
    else if round == 1 then (x & z) | (y & !z)
    else if round == 2 then x ^ y ^ z
    else y ^ (x | !z)
  }

  function WordIndex(i: nat): (k: nat)
    requires i < 64
    ensures k < 16
  {
    var j := i % 16;
    if i < 16 then j else if i < 32 then (1 + 5 * j) % 16 else if i < 48 then (5 + 3 * j) % 16 else 7 * j % 16
  }

  function ShiftAmount(i: nat): (s: bv6)
    requires i < 64
    ensures 0 < s < 32
  {
    var q := i % 4;
    if i < 16 then (if q == 0 then 7 else if q == 1 then 12 else if q == 2 then 17 else 22)
    else if i < 32 then (if q == 0 then 5 else if q == 1 then 9 else if q == 2 then 14 else 20)
    else if i < 48 then (if q == 0 then 4 else if q == 1 then 11 else if q == 2 then 16 else 23)
    else (if q == 0 then 6 else if q == 1 then 10 else if q == 2 then 15 else 21)
  }

  function RotateLeft(x: Word32, s: bv6): Word32
    requires 0 < s < 32
  {
    (x << s) | (x >> (32 - s))
  }

  datatype Registers = Registers(a: Word32, b: Word32, c: Word32, d: Word32)

  /** The operation [abcd k s i]: what it puts in register a. */
  function Operation(i: nat, a: Word32, b: Word32, c: Word32, d: Word32, x: seq<Word32>): Word32
    requires i < 64 && |x| == 16
  {
    Plus(RotateLeft(Plus(a, Plus(Plus(Mix(i / 16, b, c, d), x[WordIndex(i)]), T[i])), ShiftAmount(i)), b)
  }

  /** One step; the registers then change roles. */
  function Step(i: nat, r: Registers, x: seq<Word32>): Registers
    requires i < 64 && |x| == 16
  {
    Registers(r.d, Operation(i, r.a, r.b, r.c, r.d, x), r.b, r.c)
  }

  function Steps(n: nat, r: Registers, x: seq<Word32>): Registers
    requires n <= 64 && |x| == 16
  {
    if n == 0 then r else Step(n - 1, Steps(n - 1, r, x), x)
  }

  function Compress(state: seq<Word32>, block: seq<Byte>): (r: seq<Word32>)
    requires |state| == 4 && |block| == 64
    ensures |r| == 4
  {
    var x := Decode(block);
    var out := Steps(4 * |x|, Registers(state[0], state[1], state[2], state[3]), x);
    Added(state, out)
  }

  /** The registers added to the state they started from. */
  function Added(state: seq<Word32>, r: Registers): (sum: seq<Word32>)
    requires |state| == 4
    ensures |sum| == 4
  {
    [state[0] + r.a, state[1] + r.b, state[2] + r.c, state[3] + r.d]
  }

  // ----- what a step reads

  /** F chooses y where x has ones and z where it has none. Said, like the next three, for any set m of
      bit positions. */
  lemma FChooses(x: Word32, y: Word32, z: Word32, m: Word32)
    ensures x & m == m ==> Mix(0, x, y, z) & m == y & m
    ensures x & m == 0 ==> Mix(0, x, y, z) & m == z & m
  {
  }

  /** G chooses x where z has ones and y where it has none. */
  lemma GChooses(x: Word32, y: Word32, z: Word32, m: Word32)
    ensures z & m == m ==> Mix(1, x, y, z) & m == x & m
    ensures z & m == 0 ==> Mix(1, x, y, z) & m == y & m
  {
  }

  /** H is the parity: z where x and y agree, and z turned over where they differ. */
  lemma HIsParity(x: Word32, y: Word32, z: Word32, m: Word32)
    ensures x & m == y & m ==> Mix(2, x, y, z) & m == z & m
    ensures x & m == !y & m ==> Mix(2, x, y, z) & m == !z & m
  {
  }

  /** I turns y over, but where x has none and z has ones. */
  lemma ITurnsOver(x: Word32, y: Word32, z: Word32, m: Word32)
    ensures x & m == m || z & m == 0 ==> Mix(3, x, y, z) & m == !y & m
    ensures x & m == 0 && z & m == m ==> Mix(3, x, y, z) & m == y & m
  {
    hide Mix;
    if x & m == m {
      IWhereOnes(x, y, z, m);
    } else if z & m == 0 {
      IWhereNone(x, y, z, m);
    } else if x & m == 0 && z & m == m {
      IKeeps(x, y, z, m);
    }
  }

  lemma IWhereOnes(x: Word32, y: Word32, z: Word32, m: Word32)
    requires x & m == m
    ensures Mix(3, x, y, z) & m == !y & m
  {
  }

  lemma IWhereNone(x: Word32, y: Word32, z: Word32, m: Word32)
    requires z & m == 0
    ensures Mix(3, x, y, z) & m == !y & m
  {
  }

  lemma IKeeps(x: Word32, y: Word32, z: Word32, m: Word32)
    requires x & m == 0 && z & m == m
    ensures Mix(3, x, y, z) & m == y & m
  {
  }

  /** The bits a rotation moves up to the top, and the s bits it brings to the bottom. */
  function LowPart(x: Word32, s: bv6): Word32
    requires 0 < s < 32
  {
    (x << s) >> s
  }

  function HighPart(x: Word32, s: bv6): Word32
    requires 0 < s < 32
  {
    x >> (32 - s)
  }

  function MakeWord(low: Word32, high: Word32, s: bv6): Word32
    requires 0 < s < 32
  {
    low | (high << (32 - s))
  }

  lemma PartsMakeWord(x: Word32, s: bv6)
    requires 0 < s < 32
    ensures x == MakeWord(LowPart(x, s), HighPart(x, s), s)
  {
  }

  /** A rotation by s puts the low part s bits up and the high part below it. */
  lemma RotateMoves(x: Word32, s: bv6)
    requires 0 < s < 32
    ensures HighPart(RotateLeft(x, s), 32 - s) == LowPart(x, s)
    ensures LowPart(RotateLeft(x, s), 32 - s) == HighPart(x, s)
  {
  }

  lemma RotateTells(x: Word32, y: Word32, s: bv6)
    requires 0 < s < 32
    ensures RotateLeft(x, s) == RotateLeft(y, s) <==> x == y
  {
    hide RotateLeft, LowPart, HighPart, MakeWord;
    PartsMakeWord(x, s);
    PartsMakeWord(y, s);
    RotateMoves(x, s);
    RotateMoves(y, s);
  }

  lemma OperationTells(i: nat, a: Word32, a': Word32, b: Word32, c: Word32, d: Word32, x: seq<Word32>, y: seq<Word32>)
    requires i < 64 && |x| == |y| == 16
    ensures a == a' ==>
            (Operation(i, a, b, c, d, x) == Operation(i, a', b, c, d, y) <==> x[WordIndex(i)] == y[WordIndex(i)])
    ensures x == y ==> (Operation(i, a, b, c, d, x) == Operation(i, a', b, c, d, y) <==> a == a')
  {
    hide Plus, RotateLeft, Mix, ShiftAmount;
    var mix, k := Mix(i / 16, b, c, d), WordIndex(i);
    var p, q := Plus(Plus(mix, x[k]), T[i]), Plus(Plus(mix, y[k]), T[i]);
    PlusTells(mix, x[k], y[k]);
    PlusTells(T[i], Plus(mix, x[k]), Plus(mix, y[k]));
    PlusTells(a, p, q);
    PlusTells(p, a, a');
    RotateTells(Plus(a, p), Plus(a', q), ShiftAmount(i));
    PlusTells(b, RotateLeft(Plus(a, p), ShiftAmount(i)), RotateLeft(Plus(a', q), ShiftAmount(i)));
  }

  /** A step reads exactly the message word its index names. */
  lemma StepTells(i: nat, r: Registers, x: seq<Word32>, y: seq<Word32>)
    requires i < 64 && |x| == |y| == 16
    ensures Step(i, r, x) == Step(i, r, y) <==> x[WordIndex(i)] == y[WordIndex(i)]
  {
    hide Operation, WordIndex;
    OperationTells(i, r.a, r.a, r.b, r.c, r.d, x, y);
  }

  /** And loses nothing of the registers. */
  lemma StepInjective(i: nat, r: Registers, r': Registers, x: seq<Word32>)
    requires i < 64 && |x| == 16
    ensures Step(i, r, x) == Step(i, r', x) <==> r == r'
  {
    hide Operation;
    OperationTells(i, r.a, r'.a, r.b, r.c, r.d, x, x);
  }

  lemma {:induction false} StepsInjective(n: nat, r: Registers, r': Registers, x: seq<Word32>)
    requires n <= 64 && |x| == 16
    ensures Steps(n, r, x) == Steps(n, r', x) <==> r == r'
  {
    hide Step;
    if n == 0 {
    } else {
      StepInjective(n - 1, Steps(n - 1, r, x), Steps(n - 1, r', x), x);
      StepsInjective(n - 1, r, r', x);
    }
  }

  /** In the first four steps no register is overwritten twice. */
  lemma OneStepBack(n: nat, r: Registers, x: seq<Word32>, y: seq<Word32>)
    requires n < 4 && |x| == |y| == 16 && Steps(n + 1, r, x) == Steps(n + 1, r, y)
    ensures Steps(n, r, x) == Steps(n, r, y)
  {
    hide Operation;
    FirstRegister(n, r, x);
    FirstRegister(n, r, y);
  }

  lemma FirstRegister(n: nat, r: Registers, x: seq<Word32>)
    requires n < 4 && |x| == 16
    ensures Steps(n, r, x).a == if n == 0 then r.a else if n == 1 then r.d else if n == 2 then r.c else r.b
  {
    hide Operation;
    assert Steps(1, r, x) == Step(0, r, x);
    assert Steps(2, r, x) == Step(1, Steps(1, r, x), x);
    assert Steps(3, r, x) == Step(2, Steps(2, r, x), x);
  }

  /** Four steps tell the four message words they read. */
  lemma {:induction false} FirstStepsTell(n: nat, r: Registers, x: seq<Word32>, y: seq<Word32>)
    requires n <= 4 && |x| == |y| == 16
    ensures Steps(n, r, x) == Steps(n, r, y) <==> x[..n] == y[..n]
  {
    hide Step;
    if n == 0 {
    } else {
      FirstStepsTell(n - 1, r, x, y);
      assert x[..n] == x[..n - 1] + [x[n - 1]] && y[..n] == y[..n - 1] + [y[n - 1]];
      if Steps(n, r, x) == Steps(n, r, y) {
        OneStepBack(n - 1, r, x, y);
      }
      StepTells(n - 1, Steps(n - 1, r, x), x, y);
    }
  }

  /** Where in round q message word w is read. */
  function PlaceOf(q: nat, w: nat): (i: nat)
    requires q < 4 && w < 16
    ensures 16 * q <= i < 16 * q + 16
  {
    16 * q
    + if q == 0 then w else if q == 1 then (13 * w + 3) % 16 else if q == 2 then (11 * w + 9) % 16 else 7 * w % 16
  }

  /** Each of the four rounds of sixteen steps reads every message word exactly once. */
  lemma EveryWordOnce(q: nat, w: nat, i: nat)
    requires q < 4 && w < 16 && 16 * q <= i < 16 * q + 16
    ensures WordIndex(i) == w <==> i == PlaceOf(q, w)
  {
    var j := i - 16 * q;
    assert i % 16 == j;
    if q == 1 {
      Round1Places(j, w);
    } else if q == 2 {
      Round2Places(j, w);
    } else if q == 3 {
      Round3Places(j, w);
    }
  }

  lemma Round1Places(j: nat, w: nat)
    requires j < 16 && w < 16
    ensures (1 + 5 * j) % 16 == w <==> j == (13 * w + 3) % 16
  {
    var t, u := (1 + 5 * j) / 16, (13 * w + 3) / 16;
    if (1 + 5 * j) % 16 == w {
      Quotient(13 * w + 3, 1 + 4 * j - 13 * t, 16, j);
    }
    if j == (13 * w + 3) % 16 {
      Quotient(1 + 5 * j, 1 + 4 * w - 5 * u, 16, w);
    }
  }

  lemma Round2Places(j: nat, w: nat)
    requires j < 16 && w < 16
    ensures (5 + 3 * j) % 16 == w <==> j == (11 * w + 9) % 16
  {
    var t, u := (5 + 3 * j) / 16, (11 * w + 9) / 16;
    if (5 + 3 * j) % 16 == w {
      Quotient(11 * w + 9, 4 + 2 * j - 11 * t, 16, j);
    }
    if j == (11 * w + 9) % 16 {
      Quotient(5 + 3 * j, 2 + 2 * w - 3 * u, 16, w);
    }
  }

  lemma Round3Places(j: nat, w: nat)
    requires j < 16 && w < 16
    ensures 7 * j % 16 == w <==> j == 7 * w % 16
  {
    var t, u := 7 * j / 16, 7 * w / 16;
    if 7 * j % 16 == w {
      Quotient(7 * w, 3 * j - 7 * t, 16, j);
    }
    if j == 7 * w % 16 {
      Quotient(7 * j, 3 * w - 7 * u, 16, w);
    }
  }

  // ----- a whole message, sections 3.1 to 3.3 and 3.5

  /** Every block folded in, from the first to the last. */
  function Fold(state: seq<Word32>, bytes: seq<Byte>): (r: seq<Word32>)
    requires |state| == 4 && |bytes| % 64 == 0
    ensures |r| == 4
    decreases |bytes|
  {
    if |bytes| == 0 then state
    else Fold(Compress(state, bytes[..64]), bytes[64..])
  }

  /** How many padding bytes bring n bytes to 56 more than a multiple of 64; at least one. */
  function PadLength(n: nat): (k: nat)
    ensures 1 <= k <= 64
    ensures (n + k) % 64 == 56 && (n + k + 8) % 64 == 0
  {
    if n % 64 < 56 then 56 - n % 64 else 120 - n % 64
  }

  /** A one bit, then zeros. */
  function Padding(k: nat): (p: seq<Byte>)
    requires 1 <= k
    ensures |p| == k
  {
    [0x80] + seq(k - 1, i => 0)
  }

  /** The low 64 bits of the length in bits, as two words, low word first. */
  function BitLength(n: nat): (words: seq<Word32>)
    ensures |words| == 2
  {
    var bits := 8 * n % (W * W);
    [(bits % W) as bv32, (bits / W) as bv32]
  }

  function Pad(message: seq<Byte>): (padded: seq<Byte>)
    ensures |padded| == |message| + PadLength(|message|) + 8 && |padded| % 64 == 0
  {
    message + Padding(PadLength(|message|)) + Encode(BitLength(|message|))
  }

  function Digest(message: seq<Byte>): (digest: seq<Byte>)
    ensures |digest| == 16
  {
    Encode(Fold(INIT, Pad(message)))
  }

  // ----- facts about the fold

  /** Folding two runs of whole blocks one after the other. */
  lemma {:induction false} FoldInTwo(state: seq<Word32>, a: seq<Byte>, b: seq<Byte>)
    requires |state| == 4 && |a| % 64 == 0 && |b| % 64 == 0
    ensures Fold(state, a + b) == Fold(Fold(state, a), b)
    decreases |a|
  {
    hide Compress;
    if |a| == 0 {
      assert a + b == b;
    } else {
      assert (a + b)[..64] == a[..64];
      assert (a + b)[64..] == a[64..] + b;
      FoldInTwo(Compress(state, a[..64]), a[64..], b);
    }
  }

  lemma FoldOneMore(state: seq<Word32>, a: seq<Byte>, block: seq<Byte>)
    requires |state| == 4 && |a| % 64 == 0 && |block| == 64
    ensures Fold(state, a + block) == Compress(Fold(state, a), block)
  {
    hide Compress;
    FoldInTwo(state, a, block);
    assert block[..64] == block && block[64..] == [];
  }

  /** Encoding loses nothing. */
  lemma DecodeInvertsEncode(words: seq<Word32>)
    ensures Decode(Encode(words)) == words
  {
    hide Word, ByteOf;
    forall i | 0 <= i < |words|
      ensures Decode(Encode(words))[i] == words[i]
    {
      EncodeAt(words, i, 0);
      EncodeAt(words, i, 1);
      EncodeAt(words, i, 2);
      EncodeAt(words, i, 3);
      WordOfBytes(words[i]);
    }
  }

  lemma EncodeAt(words: seq<Word32>, i: nat, k: nat)
    requires i < |words| && k < 4
    ensures Encode(words)[4 * i + k] == ByteOf(words[i], k)
  {
    assert (4 * i + k) / 4 == i && (4 * i + k) % 4 == k;
  }
}
