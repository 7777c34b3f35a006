/** A block of zeros under a key of zeros, round by round, up to the known answer 8ca64de9c1b123a7: it
    fixes the shape of the rounds and what the source's tables hold where these rounds look. */
module DesKnownAnswer {
  import opened BitBlocks
  import opened DesStandard
  import opened DesTables

  function ZeroBits(n: nat): (r: Bits)
    ensures |r| == n
  {
    seq(n, i => false)
  }

  /** 32 bits written as eight numbers of four bits. */
  function HalfOf(h: seq<bv8>): (r: Bits)
    requires |h| == 8
    ensures |r| == 32
  {
    seq(32, j requires 0 <= j < 32 => BitOf(h[j / 4], 4 + j % 4))
  }

  // ----- the cipher function on eight numbers

  /** The place a selection function looks at, from its number and the numbers before and after it. */
  function PlaceFrom(before: bv8, own: bv8, next: bv8): (place: nat)
    ensures place < 64
  {
    32 * Digit(BitOf(before, 7)) + 16 * Digit(BitOf(next, 4)) + 8 * Digit(BitOf(own, 4))
    + 4 * Digit(BitOf(own, 5)) + 2 * Digit(BitOf(own, 6)) + Digit(BitOf(own, 7))
  }

  function PlaceIn(h: seq<bv8>, k: nat): (place: nat)
    requires |h| == 8 && k < 8
    ensures place < 64
  {
    PlaceFrom(h[if k == 0 then 7 else k - 1], h[k], h[if k == 7 then 0 else k + 1])
  }

  lemma DigitOfHalf(h: seq<bv8>, k: nat, m: nat)
    requires |h| == 8 && k < 8 && m < 6
    ensures SelectionDigit(HalfOf(h), ZeroBits(48), k, m) ==
            if m == 0 then Digit(BitOf(h[if k == 0 then 7 else k - 1], 7))
            else if m == 5 then Digit(BitOf(h[if k == 7 then 0 else k + 1], 4))
            else Digit(BitOf(h[k], 3 + m))
  {
    hide BitOf, Digit;
  }

  lemma PlaceOfHalf(h: seq<bv8>, k: nat)
    requires |h| == 8 && k < 8
    ensures SelectionPlace(HalfOf(h), ZeroBits(48), k) == PlaceIn(h, k)
  {
    hide BitOf, Digit, SelectionDigit, HalfOf, ZeroBits;
    DigitOfHalf(h, k, 0);
    DigitOfHalf(h, k, 1);
    DigitOfHalf(h, k, 2);
    DigitOfHalf(h, k, 3);
    DigitOfHalf(h, k, 4);
    DigitOfHalf(h, k, 5);
  }

  function Four(a: bool, b: bool, c: bool, d: bool): bv8 {
    (if a then 8 else 0) | (if b then 4 else 0) | (if c then 2 else 0) | (if d then 1 else 0)
  }

  lemma BitsOfFour(a: bool, b: bool, c: bool, d: bool)
    ensures BitOf(Four(a, b, c, d), 4) == a && BitOf(Four(a, b, c, d), 5) == b
    ensures BitOf(Four(a, b, c, d), 6) == c && BitOf(Four(a, b, c, d), 7) == d
  {
  }

  /** What the selection functions found, gathered by the permutation. */
  function Gather(n: seq<bv8>): (r: seq<bv8>)
    requires |n| == 8
    ensures |r| == 8
  {
    [Four(BitOf(n[3], 7), BitOf(n[1], 6), BitOf(n[4], 7), BitOf(n[5], 4)),
     Four(BitOf(n[7], 4), BitOf(n[2], 7), BitOf(n[6], 7), BitOf(n[4], 4)),
     Four(BitOf(n[0], 4), BitOf(n[3], 6), BitOf(n[5], 6), BitOf(n[6], 5)),
     Four(BitOf(n[1], 4), BitOf(n[4], 5), BitOf(n[7], 6), BitOf(n[2], 5)),
     Four(BitOf(n[0], 5), BitOf(n[1], 7), BitOf(n[5], 7), BitOf(n[3], 5)),
     Four(BitOf(n[7], 7), BitOf(n[6], 6), BitOf(n[0], 6), BitOf(n[2], 4)),
     Four(BitOf(n[4], 6), BitOf(n[3], 4), BitOf(n[7], 5), BitOf(n[1], 5)),
     Four(BitOf(n[5], 5), BitOf(n[2], 6), BitOf(n[0], 7), BitOf(n[6], 4))]
  }

  lemma Gathered0(n: seq<bv8>, m: nat)
    requires |n| == 8 && m < 4 && |P32I| == 32 && 1 <= P32I[0 + m] <= 32
    ensures BitOf(Gather(n)[0], 4 + m) == BitOf(n[(P32I[0 + m] - 1) / 4], 4 + (P32I[0 + m] - 1) % 4)
  {
    hide BitOf, Four, P32I;
    PRow0();
    BitsOfFour(BitOf(n[3], 7), BitOf(n[1], 6), BitOf(n[4], 7), BitOf(n[5], 4));
    assert m == 0 || m == 1 || m == 2 || m == 3;
  }

  lemma PRow0()
    ensures |P32I| == 32 && P32I[0] == 16 && P32I[1] == 7 && P32I[2] == 20 && P32I[3] == 21
  {
  }

  lemma Gathered1(n: seq<bv8>, m: nat)
    requires |n| == 8 && m < 4 && |P32I| == 32 && 1 <= P32I[4 + m] <= 32
    ensures BitOf(Gather(n)[1], 4 + m) == BitOf(n[(P32I[4 + m] - 1) / 4], 4 + (P32I[4 + m] - 1) % 4)
  {
    hide BitOf, Four, P32I;
    PRow1();
    BitsOfFour(BitOf(n[7], 4), BitOf(n[2], 7), BitOf(n[6], 7), BitOf(n[4], 4));
    assert m == 0 || m == 1 || m == 2 || m == 3;
  }

  lemma PRow1()
    ensures |P32I| == 32 && P32I[4] == 29 && P32I[5] == 12 && P32I[6] == 28 && P32I[7] == 17
  {
  }

  lemma Gathered2(n: seq<bv8>, m: nat)
    requires |n| == 8 && m < 4 && |P32I| == 32 && 1 <= P32I[8 + m] <= 32
    ensures BitOf(Gather(n)[2], 4 + m) == BitOf(n[(P32I[8 + m] - 1) / 4], 4 + (P32I[8 + m] - 1) % 4)
  {
    hide BitOf, Four, P32I;
    PRow2();
    BitsOfFour(BitOf(n[0], 4), BitOf(n[3], 6), BitOf(n[5], 6), BitOf(n[6], 5));
    assert m == 0 || m == 1 || m == 2 || m == 3;
  }

  lemma PRow2()
    ensures |P32I| == 32 && P32I[8] == 1 && P32I[9] == 15 && P32I[10] == 23 && P32I[11] == 26
  {
  }

  lemma Gathered3(n: seq<bv8>, m: nat)
    requires |n| == 8 && m < 4 && |P32I| == 32 && 1 <= P32I[12 + m] <= 32
    ensures BitOf(Gather(n)[3], 4 + m) == BitOf(n[(P32I[12 + m] - 1) / 4], 4 + (P32I[12 + m] - 1) % 4)
  {
    hide BitOf, Four, P32I;
    PRow3();
    BitsOfFour(BitOf(n[1], 4), BitOf(n[4], 5), BitOf(n[7], 6), BitOf(n[2], 5));
    assert m == 0 || m == 1 || m == 2 || m == 3;
  }

  lemma PRow3()
    ensures |P32I| == 32 && P32I[12] == 5 && P32I[13] == 18 && P32I[14] == 31 && P32I[15] == 10
  {
  }

  lemma Gathered4(n: seq<bv8>, m: nat)
    requires |n| == 8 && m < 4 && |P32I| == 32 && 1 <= P32I[16 + m] <= 32
    ensures BitOf(Gather(n)[4], 4 + m) == BitOf(n[(P32I[16 + m] - 1) / 4], 4 + (P32I[16 + m] - 1) % 4)
  {
    hide BitOf, Four, P32I;
    PRow4();
    BitsOfFour(BitOf(n[0], 5), BitOf(n[1], 7), BitOf(n[5], 7), BitOf(n[3], 5));
    assert m == 0 || m == 1 || m == 2 || m == 3;
  }

  lemma PRow4()
    ensures |P32I| == 32 && P32I[16] == 2 && P32I[17] == 8 && P32I[18] == 24 && P32I[19] == 14
  {
  }

  lemma Gathered5(n: seq<bv8>, m: nat)
    requires |n| == 8 && m < 4 && |P32I| == 32 && 1 <= P32I[20 + m] <= 32
    ensures BitOf(Gather(n)[5], 4 + m) == BitOf(n[(P32I[20 + m] - 1) / 4], 4 + (P32I[20 + m] - 1) % 4)
  {
    hide BitOf, Four, P32I;
    PRow5();
    BitsOfFour(BitOf(n[7], 7), BitOf(n[6], 6), BitOf(n[0], 6), BitOf(n[2], 4));
    assert m == 0 || m == 1 || m == 2 || m == 3;
  }

  lemma PRow5()
    ensures |P32I| == 32 && P32I[20] == 32 && P32I[21] == 27 && P32I[22] == 3 && P32I[23] == 9
  {
  }

  lemma Gathered6(n: seq<bv8>, m: nat)
    requires |n| == 8 && m < 4 && |P32I| == 32 && 1 <= P32I[24 + m] <= 32
    ensures BitOf(Gather(n)[6], 4 + m) == BitOf(n[(P32I[24 + m] - 1) / 4], 4 + (P32I[24 + m] - 1) % 4)
  {
    hide BitOf, Four, P32I;
    PRow6();
    BitsOfFour(BitOf(n[4], 6), BitOf(n[3], 4), BitOf(n[7], 5), BitOf(n[1], 5));
    assert m == 0 || m == 1 || m == 2 || m == 3;
  }

  lemma PRow6()
    ensures |P32I| == 32 && P32I[24] == 19 && P32I[25] == 13 && P32I[26] == 30 && P32I[27] == 6
  {
  }

  lemma Gathered7(n: seq<bv8>, m: nat)
    requires |n| == 8 && m < 4 && |P32I| == 32 && 1 <= P32I[28 + m] <= 32
    ensures BitOf(Gather(n)[7], 4 + m) == BitOf(n[(P32I[28 + m] - 1) / 4], 4 + (P32I[28 + m] - 1) % 4)
  {
    hide BitOf, Four, P32I;
    PRow7();
    BitsOfFour(BitOf(n[5], 5), BitOf(n[2], 6), BitOf(n[0], 7), BitOf(n[6], 4));
    assert m == 0 || m == 1 || m == 2 || m == 3;
  }

  lemma PRow7()
    ensures |P32I| == 32 && P32I[28] == 22 && P32I[29] == 11 && P32I[30] == 4 && P32I[31] == 25
  {
  }

  lemma GatheredAt(n: seq<bv8>, j: nat)
    requires |n| == 8 && j < 32 == |P32I| && 1 <= P32I[j] <= 32
    ensures HalfOf(Gather(n))[j] == BitOf(n[(P32I[j] - 1) / 4], 4 + (P32I[j] - 1) % 4)
  {
    hide BitOf, Gather, P32I;
    var q, m := j / 4, j % 4;
    if q == 0 {
      Gathered0(n, m);
    } else if q == 1 {
      Gathered1(n, m);
    } else if q == 2 {
      Gathered2(n, m);
    } else if q == 3 {
      Gathered3(n, m);
    } else if q == 4 {
      Gathered4(n, m);
    } else if q == 5 {
      Gathered5(n, m);
    } else if q == 6 {
      Gathered6(n, m);
    } else {
      Gathered7(n, m);
    }
  }

  /** n is what the eight selection functions find for the right half h. */
  ghost predicate Finds(h: seq<bv8>, n: seq<bv8>) {
    |h| == 8 && |n| == 8 && |SI| == 8
    && forall k :: 0 <= k < 8 ==> |SI[k]| == 64 && SI[k][PlaceIn(h, k)] == n[k]
  }

  lemma FBitOfHalf(h: seq<bv8>, n: seq<bv8>, j: nat)
    requires Finds(h, n) && j < 32
    requires Standard().Valid()
    ensures |h| == 8 && |n| == 8 && F(Standard(), HalfOf(h), ZeroBits(48))[j] == HalfOf(Gather(n))[j]
  {
    hide PlaceIn, ZeroBits, F, BitOf, SelectionPlace, Gather, HalfOf, Tables.Valid, SI, P32I;
    PInRange();
    var s := P32I[j] - 1;
    FAt(Standard(), HalfOf(h), ZeroBits(48), j);
    PlaceOfHalf(h, s / 4);
    GatheredAt(n, j);
  }

  lemma FOfHalf(h: seq<bv8>, n: seq<bv8>)
    requires Finds(h, n)
    ensures Standard().Valid() && |h| == 8 && |n| == 8
    ensures F(Standard(), HalfOf(h), ZeroBits(48)) == HalfOf(Gather(n))
  {
    hide HalfOf, ZeroBits, F, Gather, Tables.Valid, SI, P32I, Finds;
    StandardValid();
    Sizes(h, n);
    forall j | 0 <= j < 32
      ensures F(Standard(), HalfOf(h), ZeroBits(48))[j] == HalfOf(Gather(n))[j]
    {
      FBitOfHalf(h, n, j);
    }
  }

  lemma Sizes(h: seq<bv8>, n: seq<bv8>)
    requires Finds(h, n)
    ensures |h| == 8 && |n| == 8
  {
  }

  // ----- the rounds

  lemma HalfOfXor(a: seq<bv8>, b: seq<bv8>)
    requires |a| == |b| == 8
    ensures HalfOf(XorBytes(a, b)) == Xor(HalfOf(a), HalfOf(b))
  {
    hide BitOf;
    forall j | 0 <= j < 32
      ensures HalfOf(XorBytes(a, b))[j] == Xor(HalfOf(a), HalfOf(b))[j]
    {
      XorBits(a[j / 4], b[j / 4], 4 + j % 4);
    }
  }

  lemma RoundOfHalves(x: seq<bv8>, h: seq<bv8>, n: seq<bv8>)
    requires |x| == 8 && Finds(h, n)
    ensures Standard().Valid() && |h| == 8 && |n| == 8
    ensures Round(Standard(), ZeroBits(48), Halves(HalfOf(x), HalfOf(h))) ==
            Halves(HalfOf(h), HalfOf(XorBytes(x, Gather(n))))
  {
    hide Gather, Finds, F, HalfOf, Tables.Valid;
    FOfHalf(h, n);
    HalfOfXor(x, Gather(n));
  }

  function ZeroKeys(n: nat): (keys: seq<Bits>)
    ensures |keys| == n && Keys(keys)
  {
    seq(n, i => ZeroBits(48))
  }

  function Start(): (x: Halves)
    ensures x.Valid()
  {
    Halves(ZeroBits(32), ZeroBits(32))
  }

  lemma OneMoreRound(t: Tables, r: nat, x: seq<bv8>, h: seq<bv8>, n: seq<bv8>)
    requires t == Standard() && t.Valid() && |x| == 8 && Finds(h, n) && |h| == |n| == 8
    requires Rounds(t, ZeroKeys(r), Start()) == Halves(HalfOf(x), HalfOf(h))
    ensures Rounds(t, ZeroKeys(r + 1), Start()) == Halves(HalfOf(h), HalfOf(XorBytes(x, Gather(n))))
  {
    hide Gather, Finds, Round, HalfOf, Tables.Valid;
    RoundOfHalves(x, h, n);
    assert ZeroKeys(r + 1)[..r] == ZeroKeys(r);
  }

  lemma NoRounds(t: Tables)
    requires t.Valid()
    ensures Rounds(t, ZeroKeys(0), Start()) ==
            Halves(HalfOf([0, 0, 0, 0, 0, 0, 0, 0]), HalfOf([0, 0, 0, 0, 0, 0, 0, 0]))
  {
    NoBits();
    assert HalfOf([0, 0, 0, 0, 0, 0, 0, 0]) == ZeroBits(32);
  }

  lemma NoBits()
    ensures forall m: nat :: m < 8 ==> !BitOf(0, m)
  {
  }

  // Round by round: where the selection functions look, what they find there, and the halves after it.

  lemma Places0()
    ensures PlaceFrom(0, 0, 0) == 0 && PlaceFrom(0, 0, 0) == 0 && PlaceFrom(0, 0, 0) == 0
    ensures PlaceFrom(0, 0, 0) == 0 && PlaceFrom(0, 0, 0) == 0 && PlaceFrom(0, 0, 0) == 0
    ensures PlaceFrom(0, 0, 0) == 0 && PlaceFrom(0, 0, 0) == 0
  {
  }

  lemma Entries0()
    ensures |SI| == 8 && forall k :: 0 <= k < 8 ==> |SI[k]| == 64
    ensures SI[0][0] == 14 && SI[1][0] == 15 && SI[2][0] == 10
    ensures SI[3][0] == 7 && SI[4][0] == 2 && SI[5][0] == 12
    ensures SI[6][0] == 4 && SI[7][0] == 13
  {
    SelectionFunctionsShape();
  }

  lemma Round0(t: Tables)
    requires t == Standard() && t.Valid()
    ensures Rounds(t, ZeroKeys(1), Start()) ==
            Halves(HalfOf([0, 0, 0, 0, 0, 0, 0, 0]), HalfOf([13, 8, 13, 8, 13, 11, 11, 12]))
  {
    hide PlaceFrom, SI, Rounds, HalfOf, ZeroKeys, Start;
    NoRounds(t);
    Places0();
    Entries0();
    var x, h, n := [0, 0, 0, 0, 0, 0, 0, 0], [0, 0, 0, 0, 0, 0, 0, 0], [14, 15, 10, 7, 2, 12, 4, 13];
    assert Finds(h, n);
    OneMoreRound(t, 0, x, h, n);
    assert XorBytes(x, Gather(n)) == [13, 8, 13, 8, 13, 11, 11, 12];
  }

  lemma Places1()
    ensures PlaceFrom(12, 13, 8) == 29 && PlaceFrom(13, 8, 13) == 56 && PlaceFrom(8, 13, 8) == 29
    ensures PlaceFrom(13, 8, 13) == 56 && PlaceFrom(8, 13, 11) == 29 && PlaceFrom(13, 11, 11) == 59
    ensures PlaceFrom(11, 11, 12) == 59 && PlaceFrom(11, 12, 13) == 60
  {
  }

  lemma Entries1()
    ensures |SI| == 8 && forall k :: 0 <= k < 8 ==> |SI[k]| == 64
    ensures SI[0][29] == 5 && SI[1][56] == 11 && SI[2][29] == 11
    ensures SI[3][56] == 9 && SI[4][29] == 9 && SI[5][59] == 7
    ensures SI[6][59] == 15 && SI[7][60] == 3
  {
    SelectionFunctionsShape();
  }

  lemma Round1(t: Tables)
    requires t == Standard() && t.Valid()
    ensures Rounds(t, ZeroKeys(2), Start()) ==
            Halves(HalfOf([13, 8, 13, 8, 13, 11, 11, 12]), HalfOf([14, 7, 3, 10, 14, 13, 4, 15]))
  {
    hide PlaceFrom, SI, Rounds, HalfOf, ZeroKeys, Start;
    Round0(t);
    Places1();
    Entries1();
    var x, h, n := [0, 0, 0, 0, 0, 0, 0, 0], [13, 8, 13, 8, 13, 11, 11, 12], [5, 11, 11, 9, 9, 7, 15, 3];
    assert Finds(h, n);
    OneMoreRound(t, 1, x, h, n);
    assert XorBytes(x, Gather(n)) == [14, 7, 3, 10, 14, 13, 4, 15];
  }

  lemma Places2()
    ensures PlaceFrom(15, 14, 7) == 46 && PlaceFrom(14, 7, 3) == 7 && PlaceFrom(7, 3, 10) == 51
    ensures PlaceFrom(3, 10, 14) == 58 && PlaceFrom(10, 14, 13) == 30 && PlaceFrom(14, 13, 4) == 13
    ensures PlaceFrom(13, 4, 15) == 52 && PlaceFrom(4, 15, 14) == 31
  {
  }

  lemma Entries2()
    ensures |SI| == 8 && forall k :: 0 <= k < 8 ==> |SI[k]| == 64
    ensures SI[0][46] == 5 && SI[1][7] == 4 && SI[2][51] == 0
    ensures SI[3][58] == 5 && SI[4][30] == 8 && SI[5][13] == 7
    ensures SI[6][52] == 1 && SI[7][31] == 2
  {
    SelectionFunctionsShape();
  }

  lemma Round2(t: Tables)
    requires t == Standard() && t.Valid()
    ensures Rounds(t, ZeroKeys(3), Start()) ==
            Halves(HalfOf([14, 7, 3, 10, 14, 13, 4, 15]), HalfOf([5, 11, 15, 10, 6, 11, 10, 6]))
  {
    hide PlaceFrom, SI, Rounds, HalfOf, ZeroKeys, Start;
    Round1(t);
    Places2();
    Entries2();
    var x, h, n := [13, 8, 13, 8, 13, 11, 11, 12], [14, 7, 3, 10, 14, 13, 4, 15], [5, 4, 0, 5, 8, 7, 1, 2];
    assert Finds(h, n);
    OneMoreRound(t, 2, x, h, n);
    assert XorBytes(x, Gather(n)) == [5, 11, 15, 10, 6, 11, 10, 6];
  }

  lemma Places3()
    ensures PlaceFrom(6, 5, 11) == 21 && PlaceFrom(5, 11, 15) == 59 && PlaceFrom(11, 15, 10) == 63
    ensures PlaceFrom(15, 10, 6) == 42 && PlaceFrom(10, 6, 11) == 22 && PlaceFrom(6, 11, 10) == 27
    ensures PlaceFrom(11, 10, 6) == 42 && PlaceFrom(10, 6, 5) == 6
  {
  }

  lemma Entries3()
    ensures |SI| == 8 && forall k :: 0 <= k < 8 ==> |SI[k]| == 64
    ensures SI[0][21] == 2 && SI[1][59] == 12 && SI[2][63] == 12
    ensures SI[3][42] == 3 && SI[4][22] == 13 && SI[5][27] == 14
    ensures SI[6][42] == 6 && SI[7][6] == 11
  {
    SelectionFunctionsShape();
  }

  lemma Round3(t: Tables)
    requires t == Standard() && t.Valid()
    ensures Rounds(t, ZeroKeys(4), Start()) ==
            Halves(HalfOf([5, 11, 15, 10, 6, 11, 10, 6]), HalfOf([5, 14, 4, 5, 14, 2, 5, 7]))
  {
    hide PlaceFrom, SI, Rounds, HalfOf, ZeroKeys, Start;
    Round2(t);
    Places3();
    Entries3();
    var x, h, n := [14, 7, 3, 10, 14, 13, 4, 15], [5, 11, 15, 10, 6, 11, 10, 6], [2, 12, 12, 3, 13, 14, 6, 11];
    assert Finds(h, n);
    OneMoreRound(t, 3, x, h, n);
    assert XorBytes(x, Gather(n)) == [5, 14, 4, 5, 14, 2, 5, 7];
  }

  lemma Places4()
    ensures PlaceFrom(7, 5, 14) == 53 && PlaceFrom(5, 14, 4) == 46 && PlaceFrom(14, 4, 5) == 4
    ensures PlaceFrom(4, 5, 14) == 21 && PlaceFrom(5, 14, 2) == 46 && PlaceFrom(14, 2, 5) == 2
    ensures PlaceFrom(2, 5, 7) == 5 && PlaceFrom(5, 7, 5) == 39
  {
  }

  lemma Entries4()
    ensures |SI| == 8 && forall k :: 0 <= k < 8 ==> |SI[k]| == 64
    ensures SI[0][53] == 9 && SI[1][46] == 2 && SI[2][4] == 6
    ensures SI[3][21] == 15 && SI[4][46] == 0 && SI[5][2] == 10
    ensures SI[6][5] == 0 && SI[7][39] == 2
  {
    SelectionFunctionsShape();
  }

  lemma Round4(t: Tables)
    requires t == Standard() && t.Valid()
    ensures Rounds(t, ZeroKeys(5), Start()) ==
            Halves(HalfOf([5, 14, 4, 5, 14, 2, 5, 7]), HalfOf([8, 11, 1, 9, 7, 11, 14, 0]))
  {
    hide PlaceFrom, SI, Rounds, HalfOf, ZeroKeys, Start;
    Round3(t);
    Places4();
    Entries4();
    var x, h, n := [5, 11, 15, 10, 6, 11, 10, 6], [5, 14, 4, 5, 14, 2, 5, 7], [9, 2, 6, 15, 0, 10, 0, 2];
    assert Finds(h, n);
    OneMoreRound(t, 4, x, h, n);
    assert XorBytes(x, Gather(n)) == [8, 11, 1, 9, 7, 11, 14, 0];
  }

  lemma Places5()
    ensures PlaceFrom(0, 8, 11) == 24 && PlaceFrom(8, 11, 1) == 11 && PlaceFrom(11, 1, 9) == 49
    ensures PlaceFrom(1, 9, 7) == 41 && PlaceFrom(9, 7, 11) == 55 && PlaceFrom(7, 11, 14) == 59
    ensures PlaceFrom(11, 14, 0) == 46 && PlaceFrom(14, 0, 8) == 16
  {
  }

  lemma Entries5()
    ensures |SI| == 8 && forall k :: 0 <= k < 8 ==> |SI[k]| == 64
    ensures SI[0][24] == 10 && SI[1][11] == 13 && SI[2][49] == 10
    ensures SI[3][41] == 1 && SI[4][55] == 13 && SI[5][59] == 7
    ensures SI[6][46] == 9 && SI[7][16] == 1
  {
    SelectionFunctionsShape();
  }

  lemma Round5(t: Tables)
    requires t == Standard() && t.Valid()
    ensures Rounds(t, ZeroKeys(6), Start()) ==
            Halves(HalfOf([8, 11, 1, 9, 7, 11, 14, 0]), HalfOf([15, 13, 14, 9, 8, 9, 4, 10]))
  {
    hide PlaceFrom, SI, Rounds, HalfOf, ZeroKeys, Start;
    Round4(t);
    Places5();
    Entries5();
    var x, h, n := [5, 14, 4, 5, 14, 2, 5, 7], [8, 11, 1, 9, 7, 11, 14, 0], [10, 13, 10, 1, 13, 7, 9, 1];
    assert Finds(h, n);
    OneMoreRound(t, 5, x, h, n);
    assert XorBytes(x, Gather(n)) == [15, 13, 14, 9, 8, 9, 4, 10];
  }

  lemma Places6()
    ensures PlaceFrom(10, 15, 13) == 31 && PlaceFrom(15, 13, 14) == 61 && PlaceFrom(13, 14, 9) == 62
    ensures PlaceFrom(14, 9, 8) == 25 && PlaceFrom(9, 8, 9) == 56 && PlaceFrom(8, 9, 4) == 9
    ensures PlaceFrom(9, 4, 10) == 52 && PlaceFrom(4, 10, 15) == 26
  {
  }

  lemma Entries6()
    ensures |SI| == 8 && forall k :: 0 <= k < 8 ==> |SI[k]| == 64
    ensures SI[0][31] == 8 && SI[1][61] == 5 && SI[2][62] == 2
    ensures SI[3][25] == 7 && SI[4][56] == 6 && SI[5][9] == 13
    ensures SI[6][52] == 1 && SI[7][26] == 6
  {
    SelectionFunctionsShape();
  }

  lemma Round6(t: Tables)
    requires t == Standard() && t.Valid()
    ensures Rounds(t, ZeroKeys(7), Start()) ==
            Halves(HalfOf([15, 13, 14, 9, 8, 9, 4, 10]), HalfOf([1, 9, 13, 15, 0, 11, 5, 12]))
  {
    hide PlaceFrom, SI, Rounds, HalfOf, ZeroKeys, Start;
    Round5(t);
    Places6();
    Entries6();
    var x, h, n := [8, 11, 1, 9, 7, 11, 14, 0], [15, 13, 14, 9, 8, 9, 4, 10], [8, 5, 2, 7, 6, 13, 1, 6];
    assert Finds(h, n);
    OneMoreRound(t, 6, x, h, n);
    assert XorBytes(x, Gather(n)) == [1, 9, 13, 15, 0, 11, 5, 12];
  }

  lemma Places7()
    ensures PlaceFrom(12, 1, 9) == 17 && PlaceFrom(1, 9, 13) == 57 && PlaceFrom(9, 13, 15) == 61
    ensures PlaceFrom(13, 15, 0) == 47 && PlaceFrom(15, 0, 11) == 48 && PlaceFrom(0, 11, 5) == 11
    ensures PlaceFrom(11, 5, 12) == 53 && PlaceFrom(5, 12, 1) == 44
  {
  }

  lemma Entries7()
    ensures |SI| == 8 && forall k :: 0 <= k < 8 ==> |SI[k]| == 64
    ensures SI[0][17] == 15 && SI[1][57] == 6 && SI[2][61] == 5
    ensures SI[3][47] == 4 && SI[4][48] == 11 && SI[5][11] == 4
    ensures SI[6][53] == 4 && SI[7][44] == 15
  {
    SelectionFunctionsShape();
  }

  lemma Round7(t: Tables)
    requires t == Standard() && t.Valid()
    ensures Rounds(t, ZeroKeys(8), Start()) ==
            Halves(HalfOf([1, 9, 13, 15, 0, 11, 5, 12]), HalfOf([9, 0, 7, 10, 1, 3, 15, 0]))
  {
    hide PlaceFrom, SI, Rounds, HalfOf, ZeroKeys, Start;
    Round6(t);
    Places7();
    Entries7();
    var x, h, n := [15, 13, 14, 9, 8, 9, 4, 10], [1, 9, 13, 15, 0, 11, 5, 12], [15, 6, 5, 4, 11, 4, 4, 15];
    assert Finds(h, n);
    OneMoreRound(t, 7, x, h, n);
    assert XorBytes(x, Gather(n)) == [9, 0, 7, 10, 1, 3, 15, 0];
  }

  lemma Places8()
    ensures PlaceFrom(0, 9, 0) == 9 && PlaceFrom(9, 0, 7) == 32 && PlaceFrom(0, 7, 10) == 23
    ensures PlaceFrom(7, 10, 1) == 42 && PlaceFrom(10, 1, 3) == 1 && PlaceFrom(1, 3, 15) == 51
    ensures PlaceFrom(3, 15, 0) == 47 && PlaceFrom(15, 0, 9) == 48
  {
  }

  lemma Entries8()
    ensures |SI| == 8 && forall k :: 0 <= k < 8 ==> |SI[k]| == 64
    ensures SI[0][9] == 10 && SI[1][32] == 0 && SI[2][23] == 10
    ensures SI[3][42] == 3 && SI[4][1] == 12 && SI[5][51] == 12
    ensures SI[6][47] == 2 && SI[7][48] == 2
  {
    SelectionFunctionsShape();
  }

  lemma Round8(t: Tables)
    requires t == Standard() && t.Valid()
    ensures Rounds(t, ZeroKeys(9), Start()) ==
            Halves(HalfOf([9, 0, 7, 10, 1, 3, 15, 0]), HalfOf([8, 8, 1, 9, 0, 12, 5, 0]))
  {
    hide PlaceFrom, SI, Rounds, HalfOf, ZeroKeys, Start;
    Round7(t);
    Places8();
    Entries8();
    var x, h, n := [1, 9, 13, 15, 0, 11, 5, 12], [9, 0, 7, 10, 1, 3, 15, 0], [10, 0, 10, 3, 12, 12, 2, 2];
    assert Finds(h, n);
    OneMoreRound(t, 8, x, h, n);
    assert XorBytes(x, Gather(n)) == [8, 8, 1, 9, 0, 12, 5, 0];
  }

  lemma Places9()
    ensures PlaceFrom(0, 8, 8) == 24 && PlaceFrom(8, 8, 1) == 8 && PlaceFrom(8, 1, 9) == 17
    ensures PlaceFrom(1, 9, 0) == 41 && PlaceFrom(9, 0, 12) == 48 && PlaceFrom(0, 12, 5) == 12
    ensures PlaceFrom(12, 5, 0) == 5 && PlaceFrom(5, 0, 8) == 48
  {
  }

  lemma Entries9()
    ensures |SI| == 8 && forall k :: 0 <= k < 8 ==> |SI[k]| == 64
    ensures SI[0][24] == 10 && SI[1][8] == 9 && SI[2][17] == 7
    ensures SI[3][41] == 1 && SI[4][48] == 11 && SI[5][12] == 14
    ensures SI[6][5] == 0 && SI[7][48] == 2
  {
    SelectionFunctionsShape();
  }

  lemma Round9(t: Tables)
    requires t == Standard() && t.Valid()
    ensures Rounds(t, ZeroKeys(10), Start()) ==
            Halves(HalfOf([8, 8, 1, 9, 0, 12, 5, 0]), HalfOf([2, 5, 13, 1, 5, 1, 7, 12]))
  {
    hide PlaceFrom, SI, Rounds, HalfOf, ZeroKeys, Start;
    Round8(t);
    Places9();
    Entries9();
    var x, h, n := [9, 0, 7, 10, 1, 3, 15, 0], [8, 8, 1, 9, 0, 12, 5, 0], [10, 9, 7, 1, 11, 14, 0, 2];
    assert Finds(h, n);
    OneMoreRound(t, 9, x, h, n);
    assert XorBytes(x, Gather(n)) == [2, 5, 13, 1, 5, 1, 7, 12];
  }

  lemma Places10()
    ensures PlaceFrom(12, 2, 5) == 2 && PlaceFrom(2, 5, 13) == 21 && PlaceFrom(5, 13, 1) == 45
    ensures PlaceFrom(13, 1, 5) == 33 && PlaceFrom(1, 5, 1) == 37 && PlaceFrom(5, 1, 7) == 33
    ensures PlaceFrom(1, 7, 12) == 55 && PlaceFrom(7, 12, 2) == 44
  {
  }

  lemma Entries10()
    ensures |SI| == 8 && forall k :: 0 <= k < 8 ==> |SI[k]| == 64
    ensures SI[0][2] == 13 && SI[1][21] == 2 && SI[2][45] == 10
    ensures SI[3][33] == 6 && SI[4][37] == 13 && SI[5][33] == 14
    ensures SI[6][55] == 7 && SI[7][44] == 15
  {
    SelectionFunctionsShape();
  }

  lemma Round10(t: Tables)
    requires t == Standard() && t.Valid()
    ensures Rounds(t, ZeroKeys(11), Start()) ==
            Halves(HalfOf([2, 5, 13, 1, 5, 1, 7, 12]), HalfOf([15, 3, 14, 15, 9, 1, 7, 14]))
  {
    hide PlaceFrom, SI, Rounds, HalfOf, ZeroKeys, Start;
    Round9(t);
    Places10();
    Entries10();
    var x, h, n := [8, 8, 1, 9, 0, 12, 5, 0], [2, 5, 13, 1, 5, 1, 7, 12], [13, 2, 10, 6, 13, 14, 7, 15];
    assert Finds(h, n);
    OneMoreRound(t, 10, x, h, n);
    assert XorBytes(x, Gather(n)) == [15, 3, 14, 15, 9, 1, 7, 14];
  }

  lemma Places11()
    ensures PlaceFrom(14, 15, 3) == 15 && PlaceFrom(15, 3, 14) == 51 && PlaceFrom(3, 14, 15) == 62
    ensures PlaceFrom(14, 15, 9) == 31 && PlaceFrom(15, 9, 1) == 41 && PlaceFrom(9, 1, 7) == 33
    ensures PlaceFrom(1, 7, 14) == 55 && PlaceFrom(7, 14, 15) == 62
  {
  }

  lemma Entries11()
    ensures |SI| == 8 && forall k :: 0 <= k < 8 ==> |SI[k]| == 64
    ensures SI[0][15] == 7 && SI[1][51] == 1 && SI[2][62] == 2
    ensures SI[3][31] == 9 && SI[4][41] == 9 && SI[5][33] == 14
    ensures SI[6][55] == 7 && SI[7][62] == 6
  {
    SelectionFunctionsShape();
  }

  lemma Round11(t: Tables)
    requires t == Standard() && t.Valid()
    ensures Rounds(t, ZeroKeys(12), Start()) ==
            Halves(HalfOf([15, 3, 14, 15, 9, 1, 7, 14]), HalfOf([9, 6, 14, 3, 9, 7, 1, 2]))
  {
    hide PlaceFrom, SI, Rounds, HalfOf, ZeroKeys, Start;
    Round10(t);
    Places11();
    Entries11();
    var x, h, n := [2, 5, 13, 1, 5, 1, 7, 12], [15, 3, 14, 15, 9, 1, 7, 14], [7, 1, 2, 9, 9, 14, 7, 6];
    assert Finds(h, n);
    OneMoreRound(t, 11, x, h, n);
    assert XorBytes(x, Gather(n)) == [9, 6, 14, 3, 9, 7, 1, 2];
  }

  lemma Places12()
    ensures PlaceFrom(2, 9, 6) == 9 && PlaceFrom(9, 6, 14) == 54 && PlaceFrom(6, 14, 3) == 14
    ensures PlaceFrom(14, 3, 9) == 19 && PlaceFrom(3, 9, 7) == 41 && PlaceFrom(9, 7, 1) == 39
    ensures PlaceFrom(7, 1, 2) == 33 && PlaceFrom(1, 2, 9) == 50
  {
  }

  lemma Entries12()
    ensures |SI| == 8 && forall k :: 0 <= k < 8 ==> |SI[k]| == 64
    ensures SI[0][9] == 10 && SI[1][54] == 4 && SI[2][14] == 2
    ensures SI[3][19] == 5 && SI[4][41] == 9 && SI[5][39] == 3
    ensures SI[6][33] == 4 && SI[7][50] == 14
  {
    SelectionFunctionsShape();
  }

  lemma Round12(t: Tables)
    requires t == Standard() && t.Valid()
    ensures Rounds(t, ZeroKeys(13), Start()) ==
            Halves(HalfOf([9, 6, 14, 3, 9, 7, 1, 2]), HalfOf([5, 10, 5, 13, 10, 3, 4, 10]))
  {
    hide PlaceFrom, SI, Rounds, HalfOf, ZeroKeys, Start;
    Round11(t);
    Places12();
    Entries12();
    var x, h, n := [15, 3, 14, 15, 9, 1, 7, 14], [9, 6, 14, 3, 9, 7, 1, 2], [10, 4, 2, 5, 9, 3, 4, 14];
    assert Finds(h, n);
    OneMoreRound(t, 12, x, h, n);
    assert XorBytes(x, Gather(n)) == [5, 10, 5, 13, 10, 3, 4, 10];
  }

  lemma Places13()
    ensures PlaceFrom(10, 5, 10) == 21 && PlaceFrom(5, 10, 5) == 42 && PlaceFrom(10, 5, 13) == 21
    ensures PlaceFrom(5, 13, 10) == 61 && PlaceFrom(13, 10, 3) == 42 && PlaceFrom(10, 3, 4) == 3
    ensures PlaceFrom(3, 4, 10) == 52 && PlaceFrom(4, 10, 5) == 10
  {
  }

  lemma Entries13()
    ensures |SI| == 8 && forall k :: 0 <= k < 8 ==> |SI[k]| == 64
    ensures SI[0][21] == 2 && SI[1][42] == 12 && SI[2][21] == 4
    ensures SI[3][61] == 7 && SI[4][42] == 12 && SI[5][3] == 15
    ensures SI[6][52] == 1 && SI[7][10] == 3
  {
    SelectionFunctionsShape();
  }

  lemma Round13(t: Tables)
    requires t == Standard() && t.Valid()
    ensures Rounds(t, ZeroKeys(14), Start()) ==
            Halves(HalfOf([5, 10, 5, 13, 10, 3, 4, 10]), HalfOf([0, 5, 8, 12, 10, 13, 0, 10]))
  {
    hide PlaceFrom, SI, Rounds, HalfOf, ZeroKeys, Start;
    Round12(t);
    Places13();
    Entries13();
    var x, h, n := [9, 6, 14, 3, 9, 7, 1, 2], [5, 10, 5, 13, 10, 3, 4, 10], [2, 12, 4, 7, 12, 15, 1, 3];
    assert Finds(h, n);
    OneMoreRound(t, 13, x, h, n);
    assert XorBytes(x, Gather(n)) == [0, 5, 8, 12, 10, 13, 0, 10];
  }

  lemma Places14()
    ensures PlaceFrom(10, 0, 5) == 0 && PlaceFrom(0, 5, 8) == 21 && PlaceFrom(5, 8, 12) == 56
    ensures PlaceFrom(8, 12, 10) == 28 && PlaceFrom(12, 10, 13) == 26 && PlaceFrom(10, 13, 0) == 13
    ensures PlaceFrom(13, 0, 10) == 48 && PlaceFrom(0, 10, 0) == 10
  {
  }

  lemma Entries14()
    ensures |SI| == 8 && forall k :: 0 <= k < 8 ==> |SI[k]| == 64
    ensures SI[0][0] == 14 && SI[1][21] == 2 && SI[2][56] == 4
    ensures SI[3][28] == 1 && SI[4][26] == 15 && SI[5][13] == 7
    ensures SI[6][48] == 6 && SI[7][10] == 3
  {
    SelectionFunctionsShape();
  }

  lemma Round14(t: Tables)
    requires t == Standard() && t.Valid()
    ensures Rounds(t, ZeroKeys(15), Start()) ==
            Halves(HalfOf([0, 5, 8, 12, 10, 13, 0, 10]), HalfOf([11, 11, 14, 10, 0, 13, 12, 2]))
  {
    hide PlaceFrom, SI, Rounds, HalfOf, ZeroKeys, Start;
    Round13(t);
    Places14();
    Entries14();
    var x, h, n := [5, 10, 5, 13, 10, 3, 4, 10], [0, 5, 8, 12, 10, 13, 0, 10], [14, 2, 4, 1, 15, 7, 6, 3];
    assert Finds(h, n);
    OneMoreRound(t, 14, x, h, n);
    assert XorBytes(x, Gather(n)) == [11, 11, 14, 10, 0, 13, 12, 2];
  }

  lemma Places15()
    ensures PlaceFrom(2, 11, 11) == 27 && PlaceFrom(11, 11, 14) == 59 && PlaceFrom(11, 14, 10) == 62
    ensures PlaceFrom(14, 10, 0) == 10 && PlaceFrom(10, 0, 13) == 16 && PlaceFrom(0, 13, 12) == 29
    ensures PlaceFrom(13, 12, 2) == 44 && PlaceFrom(12, 2, 11) == 18
  {
  }

  lemma Entries15()
    ensures |SI| == 8 && forall k :: 0 <= k < 8 ==> |SI[k]| == 64
    ensures SI[0][27] == 11 && SI[1][59] == 12 && SI[2][62] == 2
    ensures SI[3][10] == 8 && SI[4][16] == 14 && SI[5][29] == 11
    ensures SI[6][44] == 0 && SI[7][18] == 13
  {
    SelectionFunctionsShape();
  }

  lemma Round15(t: Tables)
    requires t == Standard() && t.Valid()
    ensures Rounds(t, ZeroKeys(16), Start()) ==
            Halves(HalfOf([11, 11, 14, 10, 0, 13, 12, 2]), HalfOf([1, 12, 2, 0, 8, 7, 15, 12]))
  {
    hide PlaceFrom, SI, Rounds, HalfOf, ZeroKeys, Start;
    Round14(t);
    Places15();
    Entries15();
    var x, h, n := [0, 5, 8, 12, 10, 13, 0, 10], [11, 11, 14, 10, 0, 13, 12, 2], [11, 12, 2, 8, 14, 11, 0, 13];
    assert Finds(h, n);
    OneMoreRound(t, 15, x, h, n);
    assert XorBytes(x, Gather(n)) == [1, 12, 2, 0, 8, 7, 15, 12];
  }

  // ----- the whole block

  lemma FinalRow0()
    ensures |FP| == 64
    ensures FP[0] == 40 && FP[1] == 8 && FP[2] == 48 && FP[3] == 16
    ensures FP[4] == 56 && FP[5] == 24 && FP[6] == 64 && FP[7] == 32
  {
  }

  lemma FinalRow1()
    ensures |FP| == 64
    ensures FP[8] == 39 && FP[9] == 7 && FP[10] == 47 && FP[11] == 15
    ensures FP[12] == 55 && FP[13] == 23 && FP[14] == 63 && FP[15] == 31
  {
  }

  lemma FinalRow2()
    ensures |FP| == 64
    ensures FP[16] == 38 && FP[17] == 6 && FP[18] == 46 && FP[19] == 14
    ensures FP[20] == 54 && FP[21] == 22 && FP[22] == 62 && FP[23] == 30
  {
  }

  lemma FinalRow3()
    ensures |FP| == 64
    ensures FP[24] == 37 && FP[25] == 5 && FP[26] == 45 && FP[27] == 13
    ensures FP[28] == 53 && FP[29] == 21 && FP[30] == 61 && FP[31] == 29
  {
  }

  lemma FinalRow4()
    ensures |FP| == 64
    ensures FP[32] == 36 && FP[33] == 4 && FP[34] == 44 && FP[35] == 12
    ensures FP[36] == 52 && FP[37] == 20 && FP[38] == 60 && FP[39] == 28
  {
  }

  lemma FinalRow5()
    ensures |FP| == 64
    ensures FP[40] == 35 && FP[41] == 3 && FP[42] == 43 && FP[43] == 11
    ensures FP[44] == 51 && FP[45] == 19 && FP[46] == 59 && FP[47] == 27
  {
  }

  lemma FinalRow6()
    ensures |FP| == 64
    ensures FP[48] == 34 && FP[49] == 2 && FP[50] == 42 && FP[51] == 10
    ensures FP[52] == 50 && FP[53] == 18 && FP[54] == 58 && FP[55] == 26
  {
  }

  lemma FinalRow7()
    ensures |FP| == 64
    ensures FP[56] == 33 && FP[57] == 1 && FP[58] == 41 && FP[59] == 9
    ensures FP[60] == 49 && FP[61] == 17 && FP[62] == 57 && FP[63] == 25
  {
  }

  /** The final permutation, row by row: bits of the two halves in turn, from the back. */
  lemma FinalRows(i: nat, b: nat)
    requires i < 8 && b < 8
    ensures |FP| == 64 && FP[8 * i + b] == (if b % 2 == 0 then 40 else 8) + 8 * (b / 2) - i
  {
    hide FP;
    assert b == 0 || b == 1 || b == 2 || b == 3 || b == 4 || b == 5 || b == 6 || b == 7;
    if i == 0 {
      FinalRow0();
    } else if i == 1 {
      FinalRow1();
    } else if i == 2 {
      FinalRow2();
    } else if i == 3 {
      FinalRow3();
    } else if i == 4 {
      FinalRow4();
    } else if i == 5 {
      FinalRow5();
    } else if i == 6 {
      FinalRow6();
    } else {
      FinalRow7();
    }
  }

  const CIPHER: seq<bv8> := [0x8c, 0xa6, 0x4d, 0xe9, 0xc1, 0xb1, 0x23, 0xa7]

  lemma CipherByte0(l: seq<bv8>, r: seq<bv8>)
    requires l == [11, 11, 14, 10, 0, 13, 12, 2] && r == [1, 12, 2, 0, 8, 7, 15, 12]
    ensures HalfOf(l)[7] == BitOf(0x8c, 0) && HalfOf(r)[7] == BitOf(0x8c, 1)
    ensures HalfOf(l)[15] == BitOf(0x8c, 2) && HalfOf(r)[15] == BitOf(0x8c, 3)
    ensures HalfOf(l)[23] == BitOf(0x8c, 4) && HalfOf(r)[23] == BitOf(0x8c, 5)
    ensures HalfOf(l)[31] == BitOf(0x8c, 6) && HalfOf(r)[31] == BitOf(0x8c, 7)
  {
  }

  lemma CipherByte1(l: seq<bv8>, r: seq<bv8>)
    requires l == [11, 11, 14, 10, 0, 13, 12, 2] && r == [1, 12, 2, 0, 8, 7, 15, 12]
    ensures HalfOf(l)[6] == BitOf(0xa6, 0) && HalfOf(r)[6] == BitOf(0xa6, 1)
    ensures HalfOf(l)[14] == BitOf(0xa6, 2) && HalfOf(r)[14] == BitOf(0xa6, 3)
    ensures HalfOf(l)[22] == BitOf(0xa6, 4) && HalfOf(r)[22] == BitOf(0xa6, 5)
    ensures HalfOf(l)[30] == BitOf(0xa6, 6) && HalfOf(r)[30] == BitOf(0xa6, 7)
  {
  }

  lemma CipherByte2(l: seq<bv8>, r: seq<bv8>)
    requires l == [11, 11, 14, 10, 0, 13, 12, 2] && r == [1, 12, 2, 0, 8, 7, 15, 12]
    ensures HalfOf(l)[5] == BitOf(0x4d, 0) && HalfOf(r)[5] == BitOf(0x4d, 1)
    ensures HalfOf(l)[13] == BitOf(0x4d, 2) && HalfOf(r)[13] == BitOf(0x4d, 3)
    ensures HalfOf(l)[21] == BitOf(0x4d, 4) && HalfOf(r)[21] == BitOf(0x4d, 5)
    ensures HalfOf(l)[29] == BitOf(0x4d, 6) && HalfOf(r)[29] == BitOf(0x4d, 7)
  {
  }

  lemma CipherByte3(l: seq<bv8>, r: seq<bv8>)
    requires l == [11, 11, 14, 10, 0, 13, 12, 2] && r == [1, 12, 2, 0, 8, 7, 15, 12]
    ensures HalfOf(l)[4] == BitOf(0xe9, 0) && HalfOf(r)[4] == BitOf(0xe9, 1)
    ensures HalfOf(l)[12] == BitOf(0xe9, 2) && HalfOf(r)[12] == BitOf(0xe9, 3)
    ensures HalfOf(l)[20] == BitOf(0xe9, 4) && HalfOf(r)[20] == BitOf(0xe9, 5)
    ensures HalfOf(l)[28] == BitOf(0xe9, 6) && HalfOf(r)[28] == BitOf(0xe9, 7)
  {
  }

  lemma CipherByte4(l: seq<bv8>, r: seq<bv8>)
    requires l == [11, 11, 14, 10, 0, 13, 12, 2] && r == [1, 12, 2, 0, 8, 7, 15, 12]
    ensures HalfOf(l)[3] == BitOf(0xc1, 0) && HalfOf(r)[3] == BitOf(0xc1, 1)
    ensures HalfOf(l)[11] == BitOf(0xc1, 2) && HalfOf(r)[11] == BitOf(0xc1, 3)
    ensures HalfOf(l)[19] == BitOf(0xc1, 4) && HalfOf(r)[19] == BitOf(0xc1, 5)
    ensures HalfOf(l)[27] == BitOf(0xc1, 6) && HalfOf(r)[27] == BitOf(0xc1, 7)
  {
  }

  lemma CipherByte5(l: seq<bv8>, r: seq<bv8>)
    requires l == [11, 11, 14, 10, 0, 13, 12, 2] && r == [1, 12, 2, 0, 8, 7, 15, 12]
    ensures HalfOf(l)[2] == BitOf(0xb1, 0) && HalfOf(r)[2] == BitOf(0xb1, 1)
    ensures HalfOf(l)[10] == BitOf(0xb1, 2) && HalfOf(r)[10] == BitOf(0xb1, 3)
    ensures HalfOf(l)[18] == BitOf(0xb1, 4) && HalfOf(r)[18] == BitOf(0xb1, 5)
    ensures HalfOf(l)[26] == BitOf(0xb1, 6) && HalfOf(r)[26] == BitOf(0xb1, 7)
  {
  }

  lemma CipherByte6(l: seq<bv8>, r: seq<bv8>)
    requires l == [11, 11, 14, 10, 0, 13, 12, 2] && r == [1, 12, 2, 0, 8, 7, 15, 12]
    ensures HalfOf(l)[1] == BitOf(0x23, 0) && HalfOf(r)[1] == BitOf(0x23, 1)
    ensures HalfOf(l)[9] == BitOf(0x23, 2) && HalfOf(r)[9] == BitOf(0x23, 3)
    ensures HalfOf(l)[17] == BitOf(0x23, 4) && HalfOf(r)[17] == BitOf(0x23, 5)
    ensures HalfOf(l)[25] == BitOf(0x23, 6) && HalfOf(r)[25] == BitOf(0x23, 7)
  {
  }

  lemma CipherByte7(l: seq<bv8>, r: seq<bv8>)
    requires l == [11, 11, 14, 10, 0, 13, 12, 2] && r == [1, 12, 2, 0, 8, 7, 15, 12]
    ensures HalfOf(l)[0] == BitOf(0xa7, 0) && HalfOf(r)[0] == BitOf(0xa7, 1)
    ensures HalfOf(l)[8] == BitOf(0xa7, 2) && HalfOf(r)[8] == BitOf(0xa7, 3)
    ensures HalfOf(l)[16] == BitOf(0xa7, 4) && HalfOf(r)[16] == BitOf(0xa7, 5)
    ensures HalfOf(l)[24] == BitOf(0xa7, 6) && HalfOf(r)[24] == BitOf(0xa7, 7)
  {
  }

  lemma CipherBit(l: seq<bv8>, r: seq<bv8>, i: nat, b: nat)
    requires l == [11, 11, 14, 10, 0, 13, 12, 2] && r == [1, 12, 2, 0, 8, 7, 15, 12] && i < 8 && b < 8
    ensures HalfOf(if b % 2 == 0 then l else r)[8 * (b / 2) + 7 - i] == BitOf(CIPHER[i], b)
  {
    hide HalfOf, BitOf;
    assert b == 0 || b == 1 || b == 2 || b == 3 || b == 4 || b == 5 || b == 6 || b == 7;
    if i == 0 {
      CipherByte0(l, r);
    } else if i == 1 {
      CipherByte1(l, r);
    } else if i == 2 {
      CipherByte2(l, r);
    } else if i == 3 {
      CipherByte3(l, r);
    } else if i == 4 {
      CipherByte4(l, r);
    } else if i == 5 {
      CipherByte5(l, r);
    } else if i == 6 {
      CipherByte6(l, r);
    } else {
      CipherByte7(l, r);
    }
  }

  lemma FinalPermutation(l: seq<bv8>, r: seq<bv8>)
    requires l == [11, 11, 14, 10, 0, 13, 12, 2] && r == [1, 12, 2, 0, 8, 7, 15, 12] && Selection(FP, 64, 64)
    ensures Select(FP, HalfOf(r) + HalfOf(l)) == BitsOf(CIPHER)
  {
    hide HalfOf, BitOf, FP;
    forall j | 0 <= j < 64
      ensures Select(FP, HalfOf(r) + HalfOf(l))[j] == BitsOf(CIPHER)[j]
    {
      FinalRows(j / 8, j % 8);
      CipherBit(l, r, j / 8, j % 8);
    }
  }

  lemma {:induction false} ZeroRotation(n: nat)
    ensures RotateTimes(ZeroBits(56), n) == ZeroBits(56)
  {
    if n > 0 {
      ZeroRotation(n - 1);
      assert RotateHalves(ZeroBits(56)) == ZeroBits(56);
    }
  }

  lemma ZeroSchedule(t: Tables)
    requires t.Valid()
    ensures Schedule(t, ZeroBits(64)) == ZeroKeys(16)
  {
    hide CD, RotateTimes, TotalShifts;
    forall round | 0 <= round < 16
      ensures RoundKey(t, ZeroBits(64), round) == ZeroBits(48)
    {
      CDByTotal(t, ZeroBits(64), round);
      assert Select(t.pc1, ZeroBits(64)) == ZeroBits(56);
      ZeroRotation(TotalShifts(round));
    }
  }

  lemma ZeroStart(t: Tables)
    requires t.Valid()
    ensures Split(Select(t.ip, ZeroBits(64))) == Start()
  {
    assert Select(t.ip, ZeroBits(64)) == ZeroBits(64);
  }

  /** DES of a block of zeros under a key of zeros is 8ca64de9c1b123a7. */
  lemma KnownCipher(t: Tables)
    requires t == Standard()
    ensures t.Valid() && Encipher(t, Schedule(t, ZeroBits(64)), ZeroBits(64)) == BitsOf(CIPHER)
  {
    hide Schedule, Rounds, HalfOf, Split, Select, Start, ZeroKeys, ZeroBits, BitsOf;
    StandardValid();
    ZeroSchedule(t);
    ZeroStart(t);
    Round15(t);
    FinalPermutation([11, 11, 14, 10, 0, 13, 12, 2], [1, 12, 2, 0, 8, 7, 15, 12]);
  }
}
