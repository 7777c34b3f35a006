/** The numbers of Des.c, row by row. */
module DesTables {
  import opened BitBlocks
  import opened DesStandard

  const IP: seq<nat> :=
    [58, 50, 42, 34, 26, 18, 10, 2] +
    [60, 52, 44, 36, 28, 20, 12, 4] +
    [62, 54, 46, 38, 30, 22, 14, 6] +
    [64, 56, 48, 40, 32, 24, 16, 8] +
    [57, 49, 41, 33, 25, 17, 9, 1] +
    [59, 51, 43, 35, 27, 19, 11, 3] +
    [61, 53, 45, 37, 29, 21, 13, 5] +
    [63, 55, 47, 39, 31, 23, 15, 7]

  const FP: seq<nat> :=
    [40, 8, 48, 16, 56, 24, 64, 32] +
    [39, 7, 47, 15, 55, 23, 63, 31] +
    [38, 6, 46, 14, 54, 22, 62, 30] +
    [37, 5, 45, 13, 53, 21, 61, 29] +
    [36, 4, 44, 12, 52, 20, 60, 28] +
    [35, 3, 43, 11, 51, 19, 59, 27] +
    [34, 2, 42, 10, 50, 18, 58, 26] +
    [33, 1, 41, 9, 49, 17, 57, 25]

  const PC1: seq<nat> :=
    [57, 49, 41, 33, 25, 17, 9] +
    [1, 58, 50, 42, 34, 26, 18] +
    [10, 2, 59, 51, 43, 35, 27] +
    [19, 11, 3, 60, 52, 44, 36] +
    [63, 55, 47, 39, 31, 23, 15] +
    [7, 62, 54, 46, 38, 30, 22] +
    [14, 6, 61, 53, 45, 37, 29] +
    [21, 13, 5, 28, 20, 12, 4]

  const PC2: seq<nat> :=
    [14, 17, 11, 24, 1, 5] +
    [3, 28, 15, 6, 21, 10] +
    [23, 19, 12, 4, 26, 8] +
    [16, 7, 27, 20, 13, 2] +
    [41, 52, 31, 37, 47, 55] +
    [30, 40, 51, 45, 33, 48] +
    [44, 49, 39, 56, 34, 53] +
    [46, 42, 50, 36, 29, 32]

  const P32I: seq<nat> :=
    [16, 7, 20, 21] +
    [29, 12, 28, 17] +
    [1, 15, 23, 26] +
    [5, 18, 31, 10] +
    [2, 8, 24, 14] +
    [32, 27, 3, 9] +
    [19, 13, 30, 6] +
    [22, 11, 4, 25]

  const TOTROT: seq<nat> :=
    [1, 2, 4, 6, 8, 10, 12, 14] +
    [15, 17, 19, 21, 23, 25, 27, 28]

  const S1: seq<bv8> :=
    [14, 4, 13, 1, 2, 15, 11, 8, 3, 10, 6, 12, 5, 9, 0, 7] +
    [0, 15, 7, 4, 14, 2, 13, 1, 10, 6, 12, 11, 9, 5, 3, 8] +
    [4, 1, 14, 8, 13, 6, 2, 11, 15, 12, 9, 7, 3, 10, 5, 0] +
    [15, 12, 8, 2, 4, 9, 1, 7, 5, 11, 3, 14, 10, 0, 6, 13]

  const S2: seq<bv8> :=
    [15, 1, 8, 14, 6, 11, 3, 4, 9, 7, 2, 13, 12, 0, 5, 10] +
    [3, 13, 4, 7, 15, 2, 8, 14, 12, 0, 1, 10, 6, 9, 11, 5] +
    [0, 14, 7, 11, 10, 4, 13, 1, 5, 8, 12, 6, 9, 3, 2, 15] +
    [13, 8, 10, 1, 3, 15, 4, 2, 11, 6, 7, 12, 0, 5, 14, 9]

  const S3: seq<bv8> :=
    [10, 0, 9, 14, 6, 3, 15, 5, 1, 13, 12, 7, 11, 4, 2, 8] +
    [13, 7, 0, 9, 3, 4, 6, 10, 2, 8, 5, 14, 12, 11, 15, 1] +
    [13, 6, 4, 9, 8, 15, 3, 0, 11, 1, 2, 12, 5, 10, 14, 7] +
    [1, 10, 13, 0, 6, 9, 8, 7, 4, 15, 14, 3, 11, 5, 2, 12]

  const S4: seq<bv8> :=
    [7, 13, 14, 3, 0, 6, 9, 10, 1, 2, 8, 5, 11, 12, 4, 15] +
    [13, 8, 11, 5, 6, 15, 0, 3, 4, 7, 2, 12, 1, 10, 14, 9] +
    [10, 6, 9, 0, 12, 11, 7, 13, 15, 1, 3, 14, 5, 2, 8, 4] +
    [3, 15, 0, 6, 10, 1, 13, 8, 9, 4, 5, 11, 12, 7, 2, 14]

  const S5: seq<bv8> :=
    [2, 12, 4, 1, 7, 10, 11, 6, 8, 5, 3, 15, 13, 0, 14, 9] +
    [14, 11, 2, 12, 4, 7, 13, 1, 5, 0, 15, 10, 3, 9, 8, 6] +
    [4, 2, 1, 11, 10, 13, 7, 8, 15, 9, 12, 5, 6, 3, 0, 14] +
    [11, 8, 12, 7, 1, 14, 2, 13, 6, 15, 0, 9, 10, 4, 5, 3]

  const S6: seq<bv8> :=
    [12, 1, 10, 15, 9, 2, 6, 8, 0, 13, 3, 4, 14, 7, 5, 11] +
    [10, 15, 4, 2, 7, 12, 9, 5, 6, 1, 13, 14, 0, 11, 3, 8] +
    [9, 14, 15, 5, 2, 8, 12, 3, 7, 0, 4, 10, 1, 13, 11, 6] +
    [4, 3, 2, 12, 9, 5, 15, 10, 11, 14, 1, 7, 6, 0, 8, 13]

  const S7: seq<bv8> :=
    [4, 11, 2, 14, 15, 0, 8, 13, 3, 12, 9, 7, 5, 10, 6, 1] +
    [13, 0, 11, 7, 4, 9, 1, 10, 14, 3, 5, 12, 2, 15, 8, 6] +
    [1, 4, 11, 13, 12, 3, 7, 14, 10, 15, 6, 8, 0, 5, 9, 2] +
    [6, 11, 13, 8, 1, 4, 10, 7, 9, 5, 0, 15, 14, 2, 3, 12]

  const S8: seq<bv8> :=
    [13, 2, 8, 4, 6, 15, 11, 1, 10, 9, 3, 14, 5, 0, 12, 7] +
    [1, 15, 13, 8, 10, 3, 7, 4, 12, 5, 6, 11, 0, 14, 9, 2] +
    [7, 11, 4, 1, 9, 12, 14, 2, 0, 6, 10, 13, 15, 3, 5, 8] +
    [2, 1, 14, 7, 4, 10, 8, 13, 15, 12, 9, 0, 3, 5, 6, 11]

  const SI: seq<seq<bv8>> := [S1, S2, S3, S4, S5, S6, S7, S8]

  /** The standard's tables with the numbers of Des.c. */
  function Standard(): Tables {
    Tables(IP, FP, PC1, PC2, P32I, SI)
  }

  ghost predicate UndoneAt(outer: seq<nat>, inner: seq<nat>, k: nat)
    requires |outer| == |inner| == 64 && k < 64
  {
    1 <= inner[k] <= 64 && outer[inner[k] - 1] == k + 1
  }

  lemma FinalUndoneFront()
    ensures forall k :: 0 <= k < 32 ==> UndoneAt(IP, FP, k)
  {
    assert forall k :: 0 <= k < 8 ==> UndoneAt(IP, FP, k);
    assert forall k :: 8 <= k < 16 ==> UndoneAt(IP, FP, k);
    assert forall k :: 16 <= k < 24 ==> UndoneAt(IP, FP, k);
    assert forall k :: 24 <= k < 32 ==> UndoneAt(IP, FP, k);
  }

  /** The initial permutation read through the final one is the identity. */
  lemma FinalUndone()
    ensures Selection(FP, 64, 64) && Inverse(IP, FP)
  {
    FinalUndoneFront();
    assert forall k :: 32 <= k < 40 ==> UndoneAt(IP, FP, k);
    assert forall k :: 40 <= k < 48 ==> UndoneAt(IP, FP, k);
    assert forall k :: 48 <= k < 56 ==> UndoneAt(IP, FP, k);
    assert forall k :: 56 <= k < 64 ==> UndoneAt(IP, FP, k);
    UndoneEverywhere(IP, FP);
  }

  lemma InitialUndoneFront()
    ensures forall k :: 0 <= k < 32 ==> UndoneAt(FP, IP, k)
  {
    assert forall k :: 0 <= k < 8 ==> UndoneAt(FP, IP, k);
    assert forall k :: 8 <= k < 16 ==> UndoneAt(FP, IP, k);
    assert forall k :: 16 <= k < 24 ==> UndoneAt(FP, IP, k);
    assert forall k :: 24 <= k < 32 ==> UndoneAt(FP, IP, k);
  }

  /** The final permutation read through the initial one is the identity. */
  lemma InitialUndone()
    ensures Selection(IP, 64, 64) && Inverse(FP, IP)
  {
    InitialUndoneFront();
    assert forall k :: 32 <= k < 40 ==> UndoneAt(FP, IP, k);
    assert forall k :: 40 <= k < 48 ==> UndoneAt(FP, IP, k);
    assert forall k :: 48 <= k < 56 ==> UndoneAt(FP, IP, k);
    assert forall k :: 56 <= k < 64 ==> UndoneAt(FP, IP, k);
    UndoneEverywhere(FP, IP);
  }

  lemma UndoneEverywhere(outer: seq<nat>, inner: seq<nat>)
    requires |outer| == |inner| == 64 && forall k :: 0 <= k < 64 ==> UndoneAt(outer, inner, k)
    ensures Selection(inner, 64, 64) && Inverse(outer, inner)
  {
    forall k | 0 <= k < 64
      ensures 1 <= inner[k] <= 64 && outer[inner[k] - 1] == k + 1
    {
      assert UndoneAt(outer, inner, k);
    }
  }

  lemma KeyBitsInRange()
    ensures Selection(PC1, 56, 64)
  {
  }

  lemma RoundKeyBitsInRange()
    ensures Selection(PC2, 48, 56)
  {
  }

  lemma PInRange()
    ensures Selection(P32I, 32, 32)
  {
  }

  lemma SelectionFunctionsShape()
    ensures |SI| == 8 && forall k :: 0 <= k < 8 ==> |SI[k]| == 64
  {
  }

  /** Every table of Des.c stays in range, and its two permutations are inverse to each other. */
  lemma StandardValid()
    ensures Standard().Valid()
  {
    FinalUndone();
    InitialUndone();
    KeyBitsInRange();
    RoundKeyBitsInRange();
    PInRange();
    SelectionFunctionsShape();
  }

  /** `totrot` is the running total of the standard's shifts. */
  lemma TotrotIsTotal()
    ensures |TOTROT| == 16 && forall r :: 0 <= r < 16 ==> TOTROT[r] == TotalShifts(r)
  {
    assert TotalShifts(3) == 6;
    assert TotalShifts(7) == 14;
    assert TotalShifts(11) == 21;
    assert TotalShifts(15) == 28;
  }
}
