/** 32-bit machine words and the numbers they stand for: what adding, subtracting and masking words
    does to the numbers. */
module MachineWords {
  import opened Arithmetic
  import opened LittleEndian

  const ONES: Word32 := 0xffff_ffff
  const SIGN: Word32 := 0x8000_0000

  // ----- the machine's operations, by name

  function And(x: Word32, y: Word32): Word32 { x & y }

  function Not(x: Word32): Word32 { !x }

  function Plus(x: Word32, y: Word32): Word32 { x + y }

  function Minus(x: Word32, y: Word32): Word32 { x - y }

  function Half(x: Word32): (h: Word32)
    ensures x != 0 ==> h < x
  {
    x >> 1
  }

  function Low(x: Word32): Word32 { x & 1 }

  /** As the left half of a signed word: below zero. */
  predicate Negative(x: Word32) { And(x, SIGN) != 0 }

  // ----- the number of a word

  function Bit(x: Word32): (b: nat)
    ensures b <= 1
  {
    if Low(x) == 0 then 0 else 1
  }

  /** The number, from the lowest bit on. */
  function Num(x: Word32): nat
    decreases x
  {
    if x == 0 then 0 else Bit(x) + 2 * Num(Half(x))
  }

  lemma NumStep(x: Word32)
    ensures Num(x) == Bit(x) + 2 * Num(Half(x))
  {
    ZeroHalves();
  }

  lemma ZeroHalves()
    ensures Half(0) == 0 && Low(0) == 0
  {
  }

  lemma NumOfZero()
    ensures Num(0) == 0
  {
  }

  lemma FourBits(x: Word32)
    ensures Num(x) == Bit(x) + 2 * Bit(x >> 1) + 4 * Bit(x >> 2) + 8 * Bit(x >> 3) + 16 * Num(x >> 4)
  {
    hide Num, Bit, Half;
    NumStep(x);
    NumStep(Half(x));
    NumStep(Half(Half(x)));
    NumStep(Half(Half(Half(x))));
    FourHalves(x);
  }

  lemma FourHalves(x: Word32)
    ensures Half(x) == x >> 1 && Half(Half(x)) == x >> 2 && Half(Half(Half(x))) == x >> 3
    ensures Half(Half(Half(Half(x)))) == x >> 4
  {
  }

  lemma NumOfOnes()
    ensures Num(ONES) == W - 1
  {
    hide Num;
    FourBits(0xffff_ffff);
    FourBits(0xfff_ffff);
    FourBits(0xff_ffff);
    FourBits(0xf_ffff);
    FourBits(0xffff);
    FourBits(0xfff);
    FourBits(0xff);
    FourBits(0xf);
    NumOfZero();
  }

  lemma NumOfSign()
    ensures Num(SIGN) == HALF
  {
    hide Num;
    FourBits(0x8000_0000);
    FourBits(0x800_0000);
    FourBits(0x80_0000);
    FourBits(0x8_0000);
    FourBits(0x8000);
    FourBits(0x800);
    FourBits(0x80);
    FourBits(0x8);
    NumOfZero();
  }

  // ----- the number of four bytes

  /** The digit of a byte that a mask of one bit picks. */
  function ByteDigit(b: Byte, m: Byte): (d: nat)
    ensures d <= 1
  {
    if b & m == 0 then 0 else 1
  }

  function ByteNum(b: Byte): nat {
    ByteDigit(b, 1) + 2 * ByteDigit(b, 2) + 4 * ByteDigit(b, 4) + 8 * ByteDigit(b, 8)
    + 16 * ByteDigit(b, 16) + 32 * ByteDigit(b, 32) + 64 * ByteDigit(b, 64) + 128 * ByteDigit(b, 128)
  }

  lemma ByteIs(b: Byte)
    ensures ByteNum(b) == b as nat
  {
  }

  function Down4(x: Word32): Word32 { Half(Half(Half(Half(x)))) }

  lemma FourDigits(x: Word32)
    ensures Num(x) == Bit(x) + 2 * Bit(Half(x)) + 4 * Bit(Half(Half(x))) + 8 * Bit(Half(Half(Half(x))))
                      + 16 * Num(Down4(x))
  {
    hide Num, Bit, Half;
    NumStep(x);
    NumStep(Half(x));
    NumStep(Half(Half(x)));
    NumStep(Half(Half(Half(x))));
  }

  lemma LowDigitsOfWord(b0: Byte, b1: Byte, b2: Byte, b3: Byte)
    ensures var x := Word(b0, b1, b2, b3);
            && Bit(x) == ByteDigit(b0, 1) && Bit(Half(x)) == ByteDigit(b0, 2)
            && Bit(Half(Half(x))) == ByteDigit(b0, 4) && Bit(Half(Half(Half(x)))) == ByteDigit(b0, 8)
  {
  }

  lemma NextDigitsOfWord(b0: Byte, b1: Byte, b2: Byte, b3: Byte)
    ensures var x := Down4(Word(b0, b1, b2, b3));
            && Bit(x) == ByteDigit(b0, 16) && Bit(Half(x)) == ByteDigit(b0, 32)
            && Bit(Half(Half(x))) == ByteDigit(b0, 64) && Bit(Half(Half(Half(x)))) == ByteDigit(b0, 128)
  {
  }

  lemma WordAfterByte(b0: Byte, b1: Byte, b2: Byte, b3: Byte)
    ensures Down4(Down4(Word(b0, b1, b2, b3))) == Word(b1, b2, b3, 0)
  {
  }

  lemma NumOfFirstByte(b0: Byte, b1: Byte, b2: Byte, b3: Byte)
    ensures Num(Word(b0, b1, b2, b3)) == ByteNum(b0) + 0x100 * Num(Word(b1, b2, b3, 0))
  {
    hide Num, Word, Bit, ByteDigit, Half, Down4;
    var x := Word(b0, b1, b2, b3);
    FourDigits(x);
    FourDigits(Down4(x));
    LowDigitsOfWord(b0, b1, b2, b3);
    NextDigitsOfWord(b0, b1, b2, b3);
    WordAfterByte(b0, b1, b2, b3);
  }

  lemma NoBytes()
    ensures Num(Word(0, 0, 0, 0)) == 0
  {
    NumOfZero();
  }

  /** Four bytes as a word stand for the number they spell, the lowest first. */
  lemma NumOfWord(b0: Byte, b1: Byte, b2: Byte, b3: Byte)
    ensures Num(Word(b0, b1, b2, b3)) ==
            b0 as nat + 0x100 * b1 as nat + 0x1_0000 * b2 as nat + 0x100_0000 * b3 as nat
  {
    hide Num, Word, ByteNum;
    NumOfFirstByte(b0, b1, b2, b3);
    NumOfFirstByte(b1, b2, b3, 0);
    NumOfFirstByte(b2, b3, 0, 0);
    NumOfFirstByte(b3, 0, 0, 0);
    NoBytes();
    ByteIs(b0);
    ByteIs(b1);
    ByteIs(b2);
    ByteIs(b3);
  }

  // ----- masks

  lemma HalfOfPart(x: Word32, m: Word32)
    ensures Half(And(x, m)) == And(Half(x), Half(m))
  {
  }

  lemma HalfOfRest(x: Word32, m: Word32)
    ensures Half(And(x, Not(m))) == And(Half(x), Not(Half(m)))
  {
  }

  lemma LowOfParts(x: Word32, m: Word32)
    ensures Low(And(x, m)) == And(Low(x), Low(m))
    ensures Low(And(x, Not(m))) == And(Low(x), 1 - Low(m))
  {
  }

  lemma LowIsDigit(x: Word32)
    ensures Low(x) == 0 || Low(x) == 1
  {
  }

  lemma BitOfParts(x: Word32, m: Word32)
    ensures Bit(And(x, m)) + Bit(And(x, Not(m))) == Bit(x)
  {
    hide And, Not, Low;
    LowOfParts(x, m);
    LowIsDigit(x);
    LowIsDigit(m);
    DigitParts();
  }

  lemma DigitParts()
    ensures And(0, 0) == 0 && And(0, 1) == 0 && And(1, 0) == 0 && And(1, 1) == 1
  {
  }

  lemma NothingMasked(m: Word32)
    ensures And(0, m) == 0
  {
  }

  /** A mask splits a word in two parts whose numbers add up to its own. */
  lemma {:induction false} NumSplits(x: Word32, m: Word32)
    ensures Num(And(x, m)) + Num(And(x, Not(m))) == Num(x)
    decreases x
  {
    hide Bit, And, Not, Half;
    HalfOfPart(x, m);
    HalfOfRest(x, m);
    BitOfParts(x, m);
    NumStep(And(x, m));
    NumStep(And(x, Not(m)));
    if x == 0 {
      NothingMasked(m);
      NothingMasked(Not(m));
    } else {
      NumSplits(Half(x), Half(m));
    }
  }

  lemma AllMasked(x: Word32)
    ensures And(ONES, x) == x
  {
  }

  /** `~x` */
  lemma NumOfNot(x: Word32)
    ensures Num(Not(x)) == W - 1 - Num(x)
    ensures 0 <= Num(x) < W
  {
    hide Num, And, Not;
    NumSplits(ONES, x);
    NumOfOnes();
    AllMasked(x);
    AllMasked(Not(x));
  }

  lemma SignParts(x: Word32)
    ensures Negative(x) ==> And(x, SIGN) == SIGN
    ensures !Negative(x) ==> And(Not(SIGN), x) == x
  {
  }

  /** The sign bit tells the upper half of the numbers. */
  lemma NegativeIff(x: Word32)
    ensures Negative(x) <==> Num(x) >= HALF
  {
    hide Num, And, Not, Negative;
    NumOfSign();
    NumSplits(x, SIGN);
    NumSplits(Not(SIGN), x);
    NumOfNot(SIGN);
    SignParts(x);
  }

  // ----- laws of the machine's sum

  lemma PlusCommutes(x: Word32, y: Word32)
    ensures Plus(x, y) == Plus(y, x)
  {
  }

  lemma PlusIs(x: Word32, y: Word32)
    ensures Plus(x, y) == x + y
  {
  }

  lemma LeftSum(x: Word32, y: Word32, z: Word32)
    ensures Plus(x + y, z) == x + y + z
  {
  }

  lemma RightSum(x: Word32, y: Word32, z: Word32)
    ensures Plus(x, y + z) == x + y + z
  {
  }

  lemma PlusAssociates(x: Word32, y: Word32, z: Word32)
    ensures Plus(Plus(x, y), z) == Plus(x, Plus(y, z))
  {
    hide Plus;
    PlusIs(x, y);
    PlusIs(y, z);
    LeftSum(x, y, z);
    RightSum(x, y, z);
  }

  lemma PlusSwaps(p: Word32, q: Word32, r: Word32, t: Word32)
    ensures Plus(Plus(p, q), Plus(r, t)) == Plus(Plus(p, r), Plus(q, t))
  {
    hide Plus;
    PlusAssociates(p, q, Plus(r, t));
    PlusAssociates(q, r, t);
    PlusCommutes(q, r);
    PlusAssociates(r, q, t);
    PlusAssociates(p, r, Plus(q, t));
  }

  lemma MinusIs(x: Word32, y: Word32)
    ensures Minus(x, y) == x - y
  {
  }

  lemma DifferencePlus(x: Word32, y: Word32)
    ensures Plus(x - y, y) == x
  {
  }

  lemma MinusThenPlus(x: Word32, y: Word32)
    ensures Plus(Minus(x, y), y) == x
  {
    hide Plus, Minus;
    MinusIs(x, y);
    DifferencePlus(x, y);
  }

  lemma PlusNot(x: Word32)
    ensures Plus(Not(x), x) == ONES
  {
  }

  lemma PlusNothing(x: Word32)
    ensures Plus(x, 0) == x
  {
  }

  lemma OnesWrap()
    ensures Plus(ONES, 1) == 0
  {
  }

  /** Only the complement completes a word to all ones. */
  lemma NotIsUnique(u: Word32, w: Word32)
    requires Plus(u, w) == ONES
    ensures u == Not(w)
  {
    hide Plus, Not;
    Cancelled(u, w);
    PlusNot(w);
    Cancelled(Not(w), w);
  }

  lemma Cancelled(u: Word32, w: Word32)
    ensures Plus(Plus(u, w), Plus(Not(w), 1)) == u
  {
    hide Plus, Not;
    PlusAssociates(u, w, Plus(Not(w), 1));
    PlusAssociates(w, Not(w), 1);
    PlusCommutes(w, Not(w));
    PlusNot(w);
    OnesWrap();
    PlusNothing(u);
  }

  /** Seen through the complement, a sum that wraps is one that does not. */
  lemma NotOfSum(x: Word32, y: Word32)
    ensures Plus(Plus(Not(x), Not(y)), 1) == Not(Plus(x, y))
  {
    hide Plus, Not;
    var p, q := Plus(Not(x), Not(y)), Plus(x, y);
    PlusAssociates(p, 1, q);
    PlusCommutes(1, q);
    PlusAssociates(p, q, 1);
    PlusSwaps(Not(x), Not(y), x, y);
    PlusNot(x);
    PlusNot(y);
    PlusAssociates(ONES, ONES, 1);
    OnesWrap();
    PlusNothing(ONES);
    NotIsUnique(Plus(p, 1), q);
  }

  lemma SumMinus(x: Word32, y: Word32)
    ensures Minus(x + y, y) == x
  {
  }

  lemma PlusThenMinus(x: Word32, y: Word32)
    ensures Minus(Plus(x, y), y) == x
  {
    hide Plus, Minus;
    PlusIs(x, y);
    SumMinus(x, y);
  }

  /** A sum tells each of its terms from the other. */
  lemma PlusTells(x: Word32, y: Word32, z: Word32)
    ensures Plus(y, x) == Plus(z, x) <==> y == z
    ensures Plus(x, y) == Plus(x, z) <==> y == z
  {
    hide Plus, Minus;
    PlusThenMinus(y, x);
    PlusThenMinus(z, x);
    PlusCommutes(x, y);
    PlusCommutes(x, z);
  }

  // ----- laws of exclusive or

  function Xor(x: Word32, y: Word32): Word32 { x ^ y }

  lemma XorIs(x: Word32, y: Word32)
    ensures Xor(x, y) == x ^ y
  {
  }

  lemma XorCommutes(x: Word32, y: Word32)
    ensures Xor(x, y) == Xor(y, x)
  {
  }

  lemma LeftXor(x: Word32, y: Word32, z: Word32)
    ensures Xor(x ^ y, z) == x ^ y ^ z
  {
  }

  lemma RightXor(x: Word32, y: Word32, z: Word32)
    ensures Xor(x, y ^ z) == x ^ y ^ z
  {
  }

  lemma XorAssociates(x: Word32, y: Word32, z: Word32)
    ensures Xor(Xor(x, y), z) == Xor(x, Xor(y, z))
  {
    hide Xor;
    XorIs(x, y);
    XorIs(y, z);
    LeftXor(x, y, z);
    RightXor(x, y, z);
  }

  lemma XorSwaps(p: Word32, q: Word32, r: Word32, t: Word32)
    ensures Xor(Xor(p, q), Xor(r, t)) == Xor(Xor(p, r), Xor(q, t))
  {
    hide Xor;
    XorAssociates(p, q, Xor(r, t));
    XorAssociates(q, r, t);
    XorCommutes(q, r);
    XorAssociates(r, q, t);
    XorAssociates(p, r, Xor(q, t));
  }

  lemma XorSelf(x: Word32)
    ensures Xor(x, x) == 0
  {
  }

  lemma XorNothing(x: Word32)
    ensures Xor(x, 0) == x && Xor(0, x) == x
  {
  }

  lemma XorTwice(x: Word32, y: Word32)
    ensures Xor(Xor(x, y), y) == x
  {
    hide Xor;
    XorAssociates(x, y, y);
    XorSelf(y);
    XorNothing(x);
  }

  /** An exclusive or tells each of its terms from the other. */
  lemma XorTells(x: Word32, y: Word32, z: Word32)
    ensures Xor(y, x) == Xor(z, x) <==> y == z
    ensures Xor(x, y) == Xor(x, z) <==> y == z
  {
    hide Xor;
    XorTwice(y, x);
    XorTwice(z, x);
    XorCommutes(x, y);
    XorCommutes(x, z);
  }

  // ----- sums and their numbers

  function Carry(x: Word32, y: Word32, c: Word32): Word32 {
    if Bit(x) + Bit(y) + Bit(c) >= 2 then 1 else 0
  }

  function Digit(x: Word32, y: Word32, c: Word32): Word32 {
    (x ^ y ^ c) & 1
  }

  /** z moved up by one bit, with the low bit s put in. */
  function Join(z: Word32, s: Word32): Word32 { Plus(Plus(z, z), s) }

  lemma Halves(x: Word32)
    ensures x == Join(Half(x), Low(x))
  {
  }

  lemma Regroup(a: Word32, b: Word32, x0: Word32, y0: Word32, c: Word32, k: Word32, s: Word32)
    requires Plus(Plus(x0, y0), c) == Join(k, s)
    ensures Plus(Plus(Join(a, x0), Join(b, y0)), c) == Join(Plus(Plus(a, b), k), s)
  {
    hide Plus;
    var ab := Plus(a, b);
    PlusSwaps(Plus(a, a), x0, Plus(b, b), y0);
    PlusSwaps(a, a, b, b);
    PlusAssociates(Plus(ab, ab), Plus(x0, y0), c);
    PlusAssociates(Plus(ab, ab), Plus(k, k), s);
    PlusSwaps(ab, ab, k, k);
  }

  lemma LowDigits(x: Word32, y: Word32, c: Word32)
    requires c <= 1
    ensures Plus(Plus(Low(x), Low(y)), c) == Join(Carry(x, y, c), Digit(x, y, c))
    ensures Bit(x) + Bit(y) + Bit(c) == 2 * Bit(Carry(x, y, c)) + Bit(Digit(x, y, c))
    ensures Carry(x, y, c) <= 1 && Digit(x, y, c) <= 1
  {
  }

  lemma JoinedParts(z: Word32, s: Word32)
    requires s <= 1 && !Negative(z)
    ensures Half(Join(z, s)) == z && Bit(Join(z, s)) == Bit(s)
  {
  }

  lemma CarryAlone(c: Word32)
    requires c <= 1
    ensures Num(c) == Bit(c) && Plus(Plus(0, 0), c) == c
  {
  }

  /** Adding words, and a carry in, adds the numbers as long as nothing is carried out. */
  lemma {:induction false} NumAdds(x: Word32, y: Word32, c: Word32)
    requires c <= 1 && Num(x) + Num(y) + Bit(c) < W
    ensures Num(Plus(Plus(x, y), c)) == Num(x) + Num(y) + Bit(c)
    decreases x, y
  {
    hide Num, Bit, Carry, Digit, Half, Low, Join, Plus, Negative;
    if x == 0 && y == 0 {
      NumOfZero();
      CarryAlone(c);
    } else {
      var a, b, k, s := Half(x), Half(y), Carry(x, y, c), Digit(x, y, c);
      NumStep(x);
      NumStep(y);
      LowDigits(x, y, c);
      ZeroHalves();
      NumAdds(a, b, k);
      var z := Plus(Plus(a, b), k);
      NegativeIff(z);
      Halves(x);
      Halves(y);
      Regroup(a, b, Low(x), Low(y), c, k, s);
      JoinedParts(z, s);
      NumStep(Join(z, s));
    }
  }

  lemma BitOfDigit()
    ensures Bit(0) == 0 && Bit(1) == 1
  {
  }

  /** Adding words adds the numbers, mod 2^32. */
  lemma NumOfPlus(x: Word32, y: Word32)
    ensures Num(Plus(x, y)) == if Num(x) + Num(y) < W then Num(x) + Num(y) else Num(x) + Num(y) - W
  {
    hide Num, Plus, Not, Bit;
    NumOfNot(x);
    NumOfNot(y);
    NumOfNot(Plus(x, y));
    PlusNothing(Plus(x, y));
    BitOfDigit();
    if Num(x) + Num(y) < W {
      NumAdds(x, y, 0);
    } else {
      NotOfSum(x, y);
      NumAdds(Not(x), Not(y), 1);
    }
  }

  /** Subtracting words subtracts the numbers, mod 2^32. */
  lemma NumOfMinus(x: Word32, y: Word32)
    ensures Num(Minus(x, y)) == if Num(x) >= Num(y) then Num(x) - Num(y) else Num(x) - Num(y) + W
  {
    hide Num, Plus, Minus;
    NumOfNot(Minus(x, y));
    MinusThenPlus(x, y);
    NumOfPlus(Minus(x, y), y);
  }

  lemma NonzeroHalf(y: Word32)
    requires y != 0 && Low(y) == 0
    ensures Half(y) != 0
  {
  }

  lemma {:induction false} NumIsZero(y: Word32)
    requires y != 0
    ensures Num(y) > 0
    decreases y
  {
    hide Half, Low, Num;
    NumStep(y);
    if Low(y) == 0 {
      NonzeroHalf(y);
      NumIsZero(Half(y));
    }
  }

  lemma NumIsZeroIff(y: Word32)
    ensures Num(y) == 0 <==> y == 0
  {
    hide Num;
    NumOfZero();
    if y != 0 {
      NumIsZero(y);
    }
  }

  // ----- rounding up with a mask

  predicate PowerOfTwo(a: Word32) { a != 0 && And(a, Minus(a, 1)) == 0 }

  /** One less than a power of two. */
  predicate LowMask(m: Word32) { And(m, Plus(m, 1)) == 0 }

  lemma MaskOfPower(a: Word32)
    requires PowerOfTwo(a)
    ensures LowMask(Minus(a, 1)) && Num(Minus(a, 1)) == Num(a) - 1
  {
    hide And, Num, Minus, Plus, LowMask, PowerOfTwo;
    OneLess(a);
    NumIsZero(a);
    NumOfOne();
    NumOfMinus(a, 1);
  }

  lemma OneLess(a: Word32)
    requires PowerOfTwo(a)
    ensures a != 0 && LowMask(Minus(a, 1))
  {
  }

  lemma NumOfOne()
    ensures Num(1) == 1
  {
    NumStep(1);
  }

  lemma AndCommutes(x: Word32, y: Word32)
    ensures And(x, y) == And(y, x)
  {
  }

  lemma HalfOfLowMask(m: Word32)
    requires LowMask(m) && m != 0
    ensures Low(m) == 1 && LowMask(Half(m))
  {
  }

  lemma BitUnderMask(x: Word32, m: Word32)
    requires Low(m) == 1
    ensures Bit(And(x, m)) == Bit(x) && Bit(m) == 1
  {
    hide And;
    LowOfParts(x, m);
    LowIsDigit(x);
    DigitParts();
  }

  lemma DoubledRemainder(q: nat, b: nat, n: nat)
    requires b <= 1 && n > 0
    ensures b + 2 * (q % n) == (b + 2 * q) % (2 * n)
  {
    assert q == n * (q / n) + q % n;
    Quotient(b + 2 * q, q / n, 2 * n, b + 2 * (q % n));
  }

  /** Under the mask of a power of two lies the remainder. */
  lemma {:induction false} NumUnderMask(x: Word32, m: Word32)
    requires LowMask(m)
    ensures Num(And(x, m)) == Num(x) % (Num(m) + 1)
    decreases m
  {
    hide And, Bit, Low, LowMask, Half, Num;
    NumOfZero();
    if m == 0 {
      AndCommutes(x, 0);
      NothingMasked(x);
    } else {
      HalfOfLowMask(m);
      HalfOfPart(x, m);
      BitUnderMask(x, m);
      NumStep(x);
      NumStep(m);
      NumStep(And(x, m));
      NumUnderMask(Half(x), Half(m));
      DoubledRemainder(Num(Half(x)), Bit(x), Num(Half(m)) + 1);
    }
  }

  /** `(p + mask) & ~mask` */
  function Masked(p: Word32, mask: Word32): Word32 {
    And(Plus(p, mask), Not(mask))
  }

  /** With any mask: never back, and never on by more than the mask. */
  lemma MaskedStep(p: Word32, mask: Word32)
    ensures Num(Minus(Masked(p, mask), p)) <= Num(mask)
  {
    hide Num, And, Not, Plus, Minus;
    var sum := Plus(p, mask);
    NumSplits(sum, mask);
    NumSplits(mask, sum);
    AndCommutes(sum, mask);
    NumOfPlus(p, mask);
    NumOfMinus(Masked(p, mask), p);
    NumOfNot(p);
    NumOfNot(mask);
  }

  lemma RoundDown(n: nat, a: nat)
    requires a > 0
    ensures (n - n % a) % a == 0 && n - n % a == n / a * a && n - a < n - n % a <= n
  {
    assert n == n / a * a + n % a;
    Quotient(n / a * a, n / a, a, 0);
  }

  /** With the mask of a power of two: a multiple, and p rounded up unless the sum wraps. */
  lemma MaskedRoundsUp(p: Word32, a: Word32)
    requires PowerOfTwo(a)
    ensures Num(a) > 0 && Num(Masked(p, Minus(a, 1))) % Num(a) == 0
    ensures Num(p) + Num(a) - 1 < W ==> Num(Masked(p, Minus(a, 1))) == (Num(p) + Num(a) - 1) / Num(a) * Num(a)
  {
    hide Num, And, Not, Plus, Minus, PowerOfTwo, LowMask;
    var mask := Minus(a, 1);
    var sum := Plus(p, mask);
    MaskOfPower(a);
    NumOfNot(mask);
    NumSplits(sum, mask);
    NumUnderMask(sum, mask);
    NumOfPlus(p, mask);
    RoundDown(Num(sum), Num(a));
  }

  /** With another mask it is no rounding: the mask of 6 takes 12, a multiple of 6, to 16. */
  lemma MaskOfSix()
    ensures Masked(12, Minus(6, 1)) == 16 && !PowerOfTwo(6)
  {
  }
}
