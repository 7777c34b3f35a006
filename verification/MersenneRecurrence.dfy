/** The infinite recurrence behind MT19937, and what its linear structure gives for whole runs. */
module MersenneRecurrence {
  import opened MachineWords

  const N := 624
  const M := 397
  const MATRIX_A: bv32 := 0x9908b0df
  const UPPER_MASK: bv32 := 0x80000000
  const LOWER_MASK: bv32 := 0x7fffffff

  function Top(u: bv32): bv32 { u & UPPER_MASK }

  function Low(v: bv32): bv32 { v & LOWER_MASK }

  /** The word built from the top bit of u and the low 31 bits of v. */
  function Blend(u: bv32, v: bv32): bv32 {
    Top(u) | Low(v)
  }

  /** `(y >> 1) ^ mag01[y & 1]`. */
  function Twist(y: bv32): bv32 {
    Xor(Shifted(y), MatrixPart(y))
  }

  function Shifted(y: bv32): bv32 { y >> 1 }

  /** `mag01[y & 1]` */
  function MatrixPart(y: bv32): bv32 { if Odd(y) then MATRIX_A else 0 }

  predicate Odd(y: bv32) { y & 1 != 0 }

  /** The word 624 places after u, from u, its successor v and the word w 397 places after u. */
  function Next(u: bv32, v: bv32, w: bv32): bv32 {
    w ^ Twist(Blend(u, v))
  }

  /** Word k of the infinite sequence that starts with the given state. */
  function X(start: seq<bv32>, k: nat): bv32
    requires |start| == N
  {
    if k < N then start[k]
    else Next(X(start, k - N), X(start, k - N + 1), X(start, k - N + M))
  }

  /** The four tempering steps. */
  function Temper(y: bv32): bv32 {
    StepL(StepT(StepS(StepU(y))))
  }

  function StepU(y: bv32): bv32 { y ^ (y >> 11) }

  function StepS(y: bv32): bv32 { y ^ ((y << 7) & 0x9d2c5680) }

  function StepT(y: bv32): bv32 { y ^ ((y << 15) & 0xefc60000) }

  function StepL(y: bv32): bv32 { y ^ (y >> 18) }

  // ----- seeding

  function SeedStep(x: bv32): bv32 {
    x * 69069
  }

  /** Word k of the seeded state: 69069 to the k times the seed made odd. */
  function SeedWord(seed: bv32, k: nat): bv32 {
    if k == 0 then seed | 1 else SeedStep(SeedWord(seed, k - 1))
  }

  function SeedState(seed: bv32): (s: seq<bv32>)
    ensures |s| == N
  {
    seq(N, k requires 0 <= k < N => SeedWord(seed, k))
  }

  lemma OddTimesOdd(x: bv32)
    requires x & 1 == 1
    ensures SeedStep(x) & 1 == 1
  {
  }

  lemma {:induction false} SeedWordsOdd(seed: bv32, k: nat)
    ensures SeedWord(seed, k) & 1 == 1
  {
    if k == 0 {
    } else {
      SeedWordsOdd(seed, k - 1);
      OddTimesOdd(SeedWord(seed, k - 1));
    }
  }

  // ----- words as bits: the twist loses nothing

  lemma TwistInjective(y: bv32, z: bv32)
    requires Twist(y) == Twist(z)
    ensures y == z
  {
    TopBitOfTwist(y);
    TopBitOfTwist(z);
  }

  /** The matrix constant has its top bit set and a shifted word has not, so the top bit of the
      twist tells the low bit of its argument. */
  lemma TopBitOfTwist(y: bv32)
    ensures (Twist(y) & 0x80000000 == 0) == (y & 1 == 0)
  {
  }

  lemma BlendParts(u: bv32, v: bv32)
    ensures Top(Blend(u, v)) == Top(u)
    ensures Low(Blend(u, v)) == Low(v)
  {
  }

  lemma Recombined(u: bv32)
    ensures u == Top(u) | Low(u)
  {
  }

  lemma SameHalves(u: bv32, v: bv32)
    requires Top(u) == Top(v)
    requires Low(u) == Low(v)
    ensures u == v
  {
    Recombined(u);
    Recombined(v);
  }

  // ----- tempering loses nothing

  function UndoU(w: bv32): bv32 { w ^ (w >> 11) ^ (w >> 22) }

  function UndoL(w: bv32): bv32 { w ^ (w >> 18) }

  /** Seven more bits are right after every pass. */
  function UndoS(w: bv32): bv32 {
    var a := w ^ ((w << 7) & 0x9d2c5680);
    var b := w ^ ((a << 7) & 0x9d2c5680);
    var c := w ^ ((b << 7) & 0x9d2c5680);
    w ^ ((c << 7) & 0x9d2c5680)
  }

  function Untemper(w: bv32): bv32 {
    UndoU(UndoS(StepT(UndoL(w))))
  }

  lemma ShiftedBy11(y: bv32)
    ensures (y ^ (y >> 11)) ^ ((y ^ (y >> 11)) >> 11) ^ ((y ^ (y >> 11)) >> 22) == y
  {
  }

  lemma UndoUOfShifted(y: bv32)
    ensures UndoU(y ^ (y >> 11)) == y
  {
    ShiftedBy11(y);
  }

  lemma StepUUndone(y: bv32)
    ensures UndoU(StepU(y)) == y
  {
    hide UndoU;
    UndoUOfShifted(y);
  }

  lemma StepSUndone(y: bv32)
    ensures UndoS(StepS(y)) == y
  {
  }

  lemma StepTUndone(y: bv32)
    ensures StepT(StepT(y)) == y
  {
  }

  lemma ShiftedBy18(y: bv32)
    ensures (y ^ (y >> 18)) ^ ((y ^ (y >> 18)) >> 18) == y
  {
  }

  lemma UndoLOfShifted(y: bv32)
    ensures UndoL(y ^ (y >> 18)) == y
  {
    ShiftedBy18(y);
  }

  lemma StepLUndone(y: bv32)
    ensures UndoL(StepL(y)) == y
  {
    hide UndoL;
    UndoLOfShifted(y);
  }

  /** Every output word tells the state word it was tempered from. */
  lemma UntemperInvertsTemper(y: bv32)
    ensures Untemper(Temper(y)) == y
  {
    hide StepU, StepS, StepT, StepL, UndoU, UndoS, UndoL;
    StepLUndone(StepT(StepS(StepU(y))));
    StepTUndone(StepS(StepU(y)));
    StepSUndone(StepU(y));
    StepUUndone(y);
  }

  // ----- live bits: the top bit of the oldest word and all bits of the 623 after it

  /** Two runs agree on the 19937 live bits of the state whose oldest word is number k. */
  ghost predicate SameLive(s: seq<bv32>, t: seq<bv32>, k: nat)
    requires |s| == |t| == N
  {
    && Top(X(s, k)) == Top(X(t, k))
    && forall i :: k < i < k + N ==> X(s, i) == X(t, i)
  }

  /** The live bits of the state whose oldest word is number k are all zero. */
  ghost predicate ZeroLive(s: seq<bv32>, k: nat)
    requires |s| == N
  {
    && Top(X(s, k)) == 0
    && forall i :: k < i < k + N ==> X(s, i) == 0
  }

  lemma OnlyTopBitBlends(u: bv32, u': bv32, v: bv32)
    requires Top(u) == Top(u')
    ensures Blend(u, v) == Blend(u', v)
  {
  }

  lemma OnlyTopBitCounts(u: bv32, u': bv32, v: bv32, w: bv32)
    requires Top(u) == Top(u')
    ensures Next(u, v, w) == Next(u', v, w)
  {
    hide Twist, Blend;
    OnlyTopBitBlends(u, u', v);
  }

  /** The next word gives back the top bit and the low 31 bits that went into it. */
  lemma NextTells(u: bv32, v: bv32, u': bv32, v': bv32, w: bv32)
    requires Next(u, v, w) == Next(u', v', w)
    ensures Top(u) == Top(u') && Low(v) == Low(v')
  {
    XorLeft(w, Twist(Blend(u, v)), Twist(Blend(u', v')));
    TwistInjective(Blend(u, v), Blend(u', v'));
    BlendParts(u, v);
    BlendParts(u', v');
  }

  /** The live bits determine every later word of the run. */
  lemma {:induction false} LiveDetermines(s: seq<bv32>, t: seq<bv32>, k: nat, i: nat)
    requires |s| == |t| == N && SameLive(s, t, k) && k < i
    ensures X(s, i) == X(t, i)
    decreases i
  {
    hide Next;
    if i >= k + N {
      LiveDetermines(s, t, k, i - N + M);
      LiveDetermines(s, t, k, i - N + 1);
      if i - N > k {
        LiveDetermines(s, t, k, i - N);
      }
      OnlyTopBitCounts(X(s, i - N), X(t, i - N), X(s, i - N + 1), X(s, i - N + M));
    }
  }

  /** One step back: equal live bits now mean equal live bits one word earlier. */
  lemma LiveOneBack(s: seq<bv32>, t: seq<bv32>, k: nat)
    requires |s| == |t| == N && SameLive(s, t, k + 1)
    ensures SameLive(s, t, k)
  {
    hide Next, Top, Low;
    assert X(s, k + N) == Next(X(s, k), X(s, k + 1), X(s, k + M));
    assert X(t, k + N) == Next(X(t, k), X(t, k + 1), X(t, k + M));
    assert X(s, k + N) == X(t, k + N) && X(s, k + M) == X(t, k + M);
    NextTells(X(s, k), X(s, k + 1), X(t, k), X(t, k + 1), X(s, k + M));
    SameHalves(X(s, k + 1), X(t, k + 1));
  }

  lemma XorLeft(a: bv32, x: bv32, y: bv32)
    requires a ^ x == a ^ y
    ensures x == y
  {
    assert a ^ (a ^ x) == x && a ^ (a ^ y) == y;
  }

  /** The state transition is injective on the live bits over any number of steps: runs that meet
      after k steps have started alike. */
  lemma {:induction false} LiveAllTheWayBack(s: seq<bv32>, t: seq<bv32>, k: nat)
    requires |s| == |t| == N && SameLive(s, t, k)
    ensures SameLive(s, t, 0)
  {
    if k == 0 {
    } else {
      LiveOneBack(s, t, k - 1);
      LiveAllTheWayBack(s, t, k - 1);
    }
  }

  const ZERO_STATE: seq<bv32> := seq(N, i => 0)

  lemma {:induction false} ZeroRun(k: nat)
    ensures X(ZERO_STATE, k) == 0
    decreases k
  {
    if k < N {
    } else {
      ZeroRun(k - N + M);
      ZeroRun(k - N);
      ZeroRun(k - N + 1);
    }
  }

  /** A run is at some time all zero on its live bits exactly when it starts all zero on them. */
  lemma ZeroIffStartsZero(s: seq<bv32>, k: nat)
    requires |s| == N
    ensures ZeroLive(s, k) <==> ZeroLive(s, 0)
  {
    forall i: nat
      ensures X(ZERO_STATE, i) == 0
    {
      ZeroRun(i);
    }
    if ZeroLive(s, k) {
      assert SameLive(s, ZERO_STATE, k);
      LiveAllTheWayBack(s, ZERO_STATE, k);
    }
    if ZeroLive(s, 0) {
      assert SameLive(s, ZERO_STATE, 0);
      forall i | 0 < i
        ensures X(s, i) == 0
      {
        LiveDetermines(s, ZERO_STATE, 0, i);
      }
    }
  }

  /** From any seed, no state the generator ever reaches is all zero on the live bits. */
  lemma SeededNeverZero(seed: bv32, k: nat)
    ensures !ZeroLive(SeedState(seed), k)
  {
    SeedWordsOdd(seed, 1);
    assert X(SeedState(seed), 1) == SeedWord(seed, 1);
    ZeroIffStartsZero(SeedState(seed), k);
  }

  // ----- different seeds never meet

  /** 69069 is odd, so it has an inverse mod 2^32 that undoes one seeding step. */
  function UndoSeedStep(x: bv32): bv32 {
    x * 0xa5e2a705
  }

  lemma UndoneProduct(x: bv32)
    ensures UndoSeedStep(x * 69069) == x
  {
    assert x * 69069 * 0xa5e2a705 == x;
  }

  lemma SeedStepUndone(x: bv32)
    ensures UndoSeedStep(SeedStep(x)) == x
  {
    hide UndoSeedStep;
    UndoneProduct(x);
  }

  lemma SecondWordTells(seed: bv32, other: bv32)
    requires SeedWord(seed, 1) == SeedWord(other, 1)
    ensures seed | 1 == other | 1
  {
    hide SeedStep, UndoSeedStep;
    SeedStepUndone(SeedWord(seed, 0));
    SeedStepUndone(SeedWord(other, 0));
  }

  /** Two seeds whose runs are ever in the same live state at the same time are the same seed, up
      to the low bit that seeding forces on. */
  lemma SeedsMeetOnlyIfEqual(seed: bv32, other: bv32, k: nat)
    ensures SameLive(SeedState(seed), SeedState(other), k) <==> seed | 1 == other | 1
  {
    hide SeedWord, Next, Top;
    var s, t := SeedState(seed), SeedState(other);
    if SameLive(s, t, k) {
      LiveAllTheWayBack(s, t, k);
      assert s[1] == SeedWord(seed, 1) && t[1] == SeedWord(other, 1);
      assert X(s, 1) == X(t, 1);
      SecondWordTells(seed, other);
    }
    if seed | 1 == other | 1 {
      SeedWordsEqual(seed, other);
      assert s == t;
    }
  }

  lemma SeedWordsEqual(seed: bv32, other: bv32)
    requires seed | 1 == other | 1
    ensures forall k: nat :: SeedWord(seed, k) == SeedWord(other, k)
  {
    forall k: nat
      ensures SeedWord(seed, k) == SeedWord(other, k)
    {
      SeedWordsEqualAt(seed, other, k);
    }
  }

  lemma {:induction false} SeedWordsEqualAt(seed: bv32, other: bv32, k: nat)
    requires seed | 1 == other | 1
    ensures SeedWord(seed, k) == SeedWord(other, k)
  {
    hide SeedStep;
    if k == 0 {
    } else {
      SeedWordsEqualAt(seed, other, k - 1);
    }
  }

  /** Any 624 outputs in a row determine all that follow, whatever the seeds were. */
  lemma OutputsDetermineRun(s: seq<bv32>, t: seq<bv32>, k: nat, i: nat)
    requires |s| == |t| == N
    requires forall j :: k <= j < k + N ==> Temper(X(s, j)) == Temper(X(t, j))
    requires k <= i
    ensures X(s, i) == X(t, i)
  {
    forall j | k <= j < k + N
      ensures X(s, j) == X(t, j)
    {
      assert Temper(X(s, j)) == Temper(X(t, j));
      UntemperInvertsTemper(X(s, j));
      UntemperInvertsTemper(X(t, j));
    }
    if k < i {
      LiveDetermines(s, t, k, i);
    }
  }

  // ----- every word is a sum, without carries, of words before it

  function PartU(y: bv32): bv32 { y >> 11 }

  function PartS(y: bv32): bv32 { (y << 7) & 0x9d2c5680 }

  function PartT(y: bv32): bv32 { (y << 15) & 0xefc60000 }

  function PartL(y: bv32): bv32 { y >> 18 }

  lemma PartUIs(y: bv32)
    ensures PartU(y) == y >> 11
  {
  }

  lemma StepUIs(y: bv32)
    ensures StepU(y) == Xor(y, y >> 11)
  {
  }

  lemma StepUParts(y: bv32)
    ensures StepU(y) == Xor(y, PartU(y))
  {
    hide Xor, StepU, PartU;
    PartUIs(y);
    StepUIs(y);
  }

  lemma PartSIs(y: bv32)
    ensures PartS(y) == (y << 7) & 0x9d2c5680
  {
  }

  lemma StepSIs(y: bv32)
    ensures StepS(y) == Xor(y, (y << 7) & 0x9d2c5680)
  {
  }

  lemma StepSParts(y: bv32)
    ensures StepS(y) == Xor(y, PartS(y))
  {
    hide Xor, StepS, PartS;
    PartSIs(y);
    StepSIs(y);
  }

  lemma PartTIs(y: bv32)
    ensures PartT(y) == (y << 15) & 0xefc60000
  {
  }

  lemma StepTIs(y: bv32)
    ensures StepT(y) == Xor(y, (y << 15) & 0xefc60000)
  {
  }

  lemma StepTParts(y: bv32)
    ensures StepT(y) == Xor(y, PartT(y))
  {
    hide Xor, StepT, PartT;
    PartTIs(y);
    StepTIs(y);
  }

  lemma PartLIs(y: bv32)
    ensures PartL(y) == y >> 18
  {
  }

  lemma StepLIs(y: bv32)
    ensures StepL(y) == Xor(y, y >> 18)
  {
  }

  lemma StepLParts(y: bv32)
    ensures StepL(y) == Xor(y, PartL(y))
  {
    hide Xor, StepL, PartL;
    PartLIs(y);
    StepLIs(y);
  }

  lemma NextParts(u: bv32, v: bv32, w: bv32)
    ensures Next(u, v, w) == Xor(w, Twist(Blend(u, v)))
  {
    hide Twist, Blend;
  }

  lemma BlendAdds(u: bv32, v: bv32, u': bv32, v': bv32)
    ensures Blend(Xor(u, u'), Xor(v, v')) == Xor(Blend(u, v), Blend(u', v'))
  {
  }

  lemma ShiftedAdds(y: bv32, z: bv32)
    ensures Shifted(Xor(y, z)) == Xor(Shifted(y), Shifted(z))
  {
  }

  lemma MatrixPartAdds(y: bv32, z: bv32)
    ensures MatrixPart(Xor(y, z)) == Xor(MatrixPart(y), MatrixPart(z))
  {
    hide Xor, Odd;
    OddAdds(y, z);
    XorSelf(MATRIX_A);
    XorSelf(0);
    XorNothing(MATRIX_A);
  }

  lemma OddAdds(y: bv32, z: bv32)
    ensures Odd(Xor(y, z)) <==> Odd(y) != Odd(z)
  {
  }

  lemma PartUAdds(y: bv32, z: bv32)
    ensures PartU(Xor(y, z)) == Xor(PartU(y), PartU(z))
  {
  }

  lemma PartSAdds(y: bv32, z: bv32)
    ensures PartS(Xor(y, z)) == Xor(PartS(y), PartS(z))
  {
  }

  lemma PartTAdds(y: bv32, z: bv32)
    ensures PartT(Xor(y, z)) == Xor(PartT(y), PartT(z))
  {
  }

  lemma PartLAdds(y: bv32, z: bv32)
    ensures PartL(Xor(y, z)) == Xor(PartL(y), PartL(z))
  {
  }

  lemma TwistAdds(y: bv32, z: bv32)
    ensures Twist(Xor(y, z)) == Xor(Twist(y), Twist(z))
  {
    hide Xor, Shifted, MatrixPart;
    ShiftedAdds(y, z);
    MatrixPartAdds(y, z);
    XorSwaps(Shifted(y), Shifted(z), MatrixPart(y), MatrixPart(z));
  }

  lemma NextAdds(u: bv32, v: bv32, w: bv32, u': bv32, v': bv32, w': bv32)
    ensures Next(Xor(u, u'), Xor(v, v'), Xor(w, w')) == Xor(Next(u, v, w), Next(u', v', w'))
  {
    hide Twist, Xor, Blend, Next;
    NextParts(u, v, w);
    NextParts(u', v', w');
    NextParts(Xor(u, u'), Xor(v, v'), Xor(w, w'));
    BlendAdds(u, v, u', v');
    TwistAdds(Blend(u, v), Blend(u', v'));
    XorSwaps(w, w', Twist(Blend(u, v)), Twist(Blend(u', v')));
  }

  /** Two states added bit by bit. */
  function Sum(s: seq<bv32>, t: seq<bv32>): (r: seq<bv32>)
    requires |s| == |t| == N
    ensures |r| == N
  {
    seq(N, k requires 0 <= k < N => Xor(s[k], t[k]))
  }

  /** Superposition: at every step, the run from the sum of two states is the sum of their runs. */
  lemma {:induction false} RunsAdd(s: seq<bv32>, t: seq<bv32>, k: nat)
    requires |s| == |t| == N
    ensures X(Sum(s, t), k) == Xor(X(s, k), X(t, k))
    decreases k
  {
    hide Next, Xor;
    if k < N {
    } else {
      RunsAdd(s, t, k - N);
      RunsAdd(s, t, k - N + 1);
      RunsAdd(s, t, k - N + M);
      NextAdds(X(s, k - N), X(s, k - N + 1), X(s, k - N + M), X(t, k - N), X(t, k - N + 1), X(t, k - N + M));
    }
  }

  lemma StepUAdds(y: bv32, z: bv32)
    ensures StepU(Xor(y, z)) == Xor(StepU(y), StepU(z))
  {
    hide StepU, Xor, PartU;
    StepUParts(y);
    StepUParts(z);
    StepUParts(Xor(y, z));
    PartUAdds(y, z);
    XorSwaps(y, z, PartU(y), PartU(z));
  }

  lemma StepSAdds(y: bv32, z: bv32)
    ensures StepS(Xor(y, z)) == Xor(StepS(y), StepS(z))
  {
    hide StepS, Xor, PartS;
    StepSParts(y);
    StepSParts(z);
    StepSParts(Xor(y, z));
    PartSAdds(y, z);
    XorSwaps(y, z, PartS(y), PartS(z));
  }

  lemma StepTAdds(y: bv32, z: bv32)
    ensures StepT(Xor(y, z)) == Xor(StepT(y), StepT(z))
  {
    hide StepT, Xor, PartT;
    StepTParts(y);
    StepTParts(z);
    StepTParts(Xor(y, z));
    PartTAdds(y, z);
    XorSwaps(y, z, PartT(y), PartT(z));
  }

  lemma StepLAdds(y: bv32, z: bv32)
    ensures StepL(Xor(y, z)) == Xor(StepL(y), StepL(z))
  {
    hide StepL, Xor, PartL;
    StepLParts(y);
    StepLParts(z);
    StepLParts(Xor(y, z));
    PartLAdds(y, z);
    XorSwaps(y, z, PartL(y), PartL(z));
  }

  /** So do the outputs. */
  lemma OutputsAdd(s: seq<bv32>, t: seq<bv32>, k: nat)
    requires |s| == |t| == N
    ensures Temper(X(Sum(s, t), k)) == Xor(Temper(X(s, k)), Temper(X(t, k)))
  {
    hide Xor, StepU, StepS, StepT, StepL;
    RunsAdd(s, t, k);
    var y, z := X(s, k), X(t, k);
    StepUAdds(y, z);
    StepSAdds(StepU(y), StepU(z));
    StepTAdds(StepS(StepU(y)), StepS(StepU(z)));
    StepLAdds(StepT(StepS(StepU(y))), StepT(StepS(StepU(z))));
  }

  /** Where two runs agree on words k and k + 1, they differ 624 places on exactly as they differ 397
      places on. */
  lemma DifferenceMovesOn(s: seq<bv32>, t: seq<bv32>, k: nat)
    requires |s| == |t| == N && X(s, k) == X(t, k) && X(s, k + 1) == X(t, k + 1)
    ensures X(s, k + 624) ^ X(t, k + 624) == X(s, k + 397) ^ X(t, k + 397)
  {
    hide Next, Xor, Twist, Blend;
    var twisted := Twist(Blend(X(s, k), X(s, k + 1)));
    assert X(s, k + N) == Next(X(s, k), X(s, k + 1), X(s, k + M));
    assert X(t, k + N) == Next(X(t, k), X(t, k + 1), X(t, k + M));
    NextParts(X(s, k), X(s, k + 1), X(s, k + M));
    NextParts(X(t, k), X(t, k + 1), X(t, k + M));
    XorSwaps(X(s, k + M), twisted, X(t, k + M), twisted);
    XorSelf(twisted);
    XorNothing(Xor(X(s, k + M), X(t, k + M)));
    XorIs(X(s, k + N), X(t, k + N));
    XorIs(X(s, k + M), X(t, k + M));
  }

  // ----- the first word of the default seed

  function Times(x: bv32, y: bv32): bv32 { x * y }

  lemma TimesIs(x: bv32, y: bv32)
    ensures Times(x, y) == x * y
  {
  }

  lemma LeftProduct(x: bv32, y: bv32, z: bv32)
    ensures Times(x * y, z) == x * y * z
  {
  }

  lemma RightProduct(x: bv32, y: bv32, z: bv32)
    ensures Times(x, y * z) == x * y * z
  {
  }

  lemma TimesAssociates(x: bv32, y: bv32, z: bv32)
    ensures Times(Times(x, y), z) == Times(x, Times(y, z))
  {
    hide Times;
    TimesIs(x, y);
    TimesIs(y, z);
    LeftProduct(x, y, z);
    RightProduct(x, y, z);
  }

  function Power(n: nat): bv32 {
    if n == 0 then 1 else Times(Power(n - 1), 69069)
  }

  lemma OneStep(x: bv32)
    ensures SeedStep(x) == Times(x, 69069) && Times(x, 1) == x
  {
  }

  /** n seeding steps multiply by the n-th power. */
  lemma {:induction false} SeedWordPower(seed: bv32, k: nat, n: nat)
    ensures SeedWord(seed, k + n) == Times(SeedWord(seed, k), Power(n))
  {
    hide Times, SeedStep;
    OneStep(SeedWord(seed, k));
    if n == 0 {
    } else {
      SeedWordPower(seed, k, n - 1);
      OneStep(SeedWord(seed, k + n - 1));
      TimesAssociates(SeedWord(seed, k), Power(n - 1), 69069);
    }
  }

  lemma {:induction false} PowersMultiply(m: nat, n: nat)
    ensures Power(m + n) == Times(Power(m), Power(n))
  {
    hide Times;
    OneStep(Power(m));
    if n == 0 {
    } else {
      PowersMultiply(m, n - 1);
      TimesAssociates(Power(m), Power(n - 1), 69069);
    }
  }

  lemma FirstPowers()
    ensures Power(1) == 69069 && Power(397) == 0x6678aabd
  {
    hide Power;
    OnePower();
    PowersMultiply(1, 1);
    assert Times(0x00010dcd, 0x00010dcd) == 0x1c587629;
    PowersMultiply(2, 2);
    assert Times(0x1c587629, 0x1c587629) == 0x6ab9d291;
    PowersMultiply(4, 4);
    assert Times(0x6ab9d291, 0x6ab9d291) == 0x16c43621;
    PowersMultiply(8, 8);
    assert Times(0x16c43621, 0x16c43621) == 0x99f9f041;
    PowersMultiply(16, 16);
    assert Times(0x99f9f041, 0x99f9f041) == 0xf1ebf081;
    PowersMultiply(32, 32);
    assert Times(0xf1ebf081, 0xf1ebf081) == 0x50c82101;
    PowersMultiply(64, 64);
    assert Times(0x50c82101, 0x50c82101) == 0x35d14201;
    PowersMultiply(128, 128);
    assert Times(0x35d14201, 0x35d14201) == 0x40a68401;
    PowersMultiply(256, 128);
    assert Times(0x40a68401, 0x35d14201) == 0x287fc601;
    PowersMultiply(384, 8);
    assert Times(0x287fc601, 0x16c43621) == 0xdb00bc21;
    PowersMultiply(392, 4);
    assert Times(0xdb00bc21, 0x6ab9d291) == 0x4396a0b1;
    PowersMultiply(396, 1);
    assert Times(0x4396a0b1, 0x00010dcd) == 0x6678aabd;
  }

  lemma OnePower()
    ensures Power(1) == 69069
  {
    assert Power(0) == 1;
    assert Times(1, 69069) == 69069;
  }

  /** The first word handed out for the default seed. */
  lemma FirstWord()
    ensures Temper(X(SeedState(4357), 624)) == 0xd13c8af5
  {
    hide Power, Next, StepU, StepS, StepT, StepL, Times;
    FirstPowers();
    SeedWordPower(4357, 0, 1);
    SeedWordPower(4357, 0, 397);
    FirstWords();
    FirstTempered();
  }

  lemma FirstWords()
    ensures Times(SeedWord(4357, 0), 69069) == 0x11efe201 && Times(SeedWord(4357, 0), 0x6678aabd) == 0x03b1e2b1
    ensures SeedWord(4357, 0) == 4357
  {
  }

  lemma FirstTempered()
    ensures Temper(Next(4357, 0x11efe201, 0x03b1e2b1)) == 0xd13c8af5
  {
  }
}
