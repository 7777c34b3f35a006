/** The Data Encryption Standard as FIPS PUB 46-3 describes it, on rows of bits and with the
    tables left open: bit selections, the cipher function f, the key schedule, enciphering and
    deciphering. Nothing here is fast, and nothing here uses the lookup tables of Des.c. */
module DesStandard {
  import opened BitBlocks

  /** The numbered tables of the standard. `p` is the permutation of Appendix 1 and `si` its
      eight selection functions, each as 64 numbers row by row. */
  datatype Tables = Tables(
    ip: seq<nat>, fp: seq<nat>, pc1: seq<nat>, pc2: seq<nat>, p: seq<nat>, si: seq<seq<bv8>>)
  {
    ghost predicate Valid() {
      && Selection(ip, 64, 64) && Selection(fp, 64, 64) && Inverse(ip, fp) && Inverse(fp, ip)
      && Selection(pc1, 56, 64) && Selection(pc2, 48, 56) && Selection(p, 32, 32)
      && |si| == 8 && forall k :: 0 <= k < 8 ==> |si[k]| == 64
    }
  }

  /** `table` picks `n` bits out of `from`, numbered from 1. */
  ghost predicate Selection(table: seq<nat>, n: nat, from: nat) {
    |table| == n && forall k :: 0 <= k < n ==> 1 <= table[k] <= from
  }

  ghost predicate Inverse(outer: seq<nat>, inner: seq<nat>) {
    |outer| == |inner|
    && forall k :: 0 <= k < |inner| ==> 1 <= inner[k] <= |outer| && outer[inner[k] - 1] == k + 1
  }

  function Select(table: seq<nat>, bits: Bits): (r: Bits)
    requires forall k :: 0 <= k < |table| ==> 1 <= table[k] <= |bits|
    ensures |r| == |table|
  {
    seq(|table|, k requires 0 <= k < |table| => bits[table[k] - 1])
  }

  // ----- the cipher function f

  /** The E operation: row r of six bits repeats the last bit of the row before and the first bit
      of the row after, around the block. */
  function E(right: Bits): (r: Bits)
    requires |right| == 32
    ensures |r| == 48
  {
    seq(48, k requires 0 <= k < 48 => right[(4 * (k / 6) + k % 6 + 31) % 32])
  }

  /** Selection function k on the six bits from `at`: outer bits pick the row, inner the column. */
  function S(si: seq<seq<bv8>>, k: nat, bits: Bits, at: nat): bv8
    requires k < |si| && |si[k]| == 64 && at + 6 <= |bits|
  {
    var row := 2 * Digit(bits[at]) + Digit(bits[at + 5]);
    var column := 8 * Digit(bits[at + 1]) + 4 * Digit(bits[at + 2]) + 2 * Digit(bits[at + 3]) + Digit(bits[at + 4]);
    si[k][16 * row + column]
  }

  function Digit(b: bool): (d: nat)
    ensures d <= 1
  {
    if b then 1 else 0
  }

  /** All eight selection functions; each contributes the low four bits of its number. */
  function Substitute(si: seq<seq<bv8>>, bits: Bits): (r: Bits)
    requires |si| == 8 && (forall k :: 0 <= k < 8 ==> |si[k]| == 64) && |bits| == 48
    ensures |r| == 32
  {
    seq(32, i requires 0 <= i < 32 => BitOf(S(si, i / 4, bits, 6 * (i / 4)), 4 + i % 4))
  }

  function F(t: Tables, right: Bits, key: Bits): (r: Bits)
    requires t.Valid() && |right| == 32 && |key| == 48
    ensures |r| == 32
  {
    Select(t.p, Substitute(t.si, Xor(E(right), key)))
  }

  // ----- sixteen rounds

  datatype Halves = Halves(left: Bits, right: Bits) {
    ghost predicate Valid() { |left| == 32 && |right| == 32 }

    function Swap(): Halves { Halves(right, left) }

    function Join(): Bits { left + right }
  }

  function Split(block: Bits): (h: Halves)
    requires |block| == 64
    ensures h.Valid() && h.Join() == block
  {
    Halves(block[..32], block[32..])
  }

  function Round(t: Tables, key: Bits, x: Halves): (y: Halves)
    requires t.Valid() && |key| == 48 && x.Valid()
    ensures y.Valid()
  {
    Halves(x.right, Xor(x.left, F(t, x.right, key)))
  }

  ghost predicate Keys(keys: seq<Bits>) {
    forall k :: 0 <= k < |keys| ==> |keys[k]| == 48
  }

  function Rounds(t: Tables, keys: seq<Bits>, x: Halves): (y: Halves)
    requires t.Valid() && Keys(keys) && x.Valid()
    ensures y.Valid()
  {
    if keys == [] then x
    else Round(t, keys[|keys| - 1], Rounds(t, keys[..|keys| - 1], x))
  }

  function Reverse(keys: seq<Bits>): (r: seq<Bits>)
    ensures |r| == |keys|
    ensures forall k :: 0 <= k < |r| ==> r[k] == keys[|keys| - 1 - k]
  {
    seq(|keys|, k requires 0 <= k < |keys| => keys[|keys| - 1 - k])
  }

  /** Initial permutation, the rounds, an interchange of the halves, final permutation. */
  function Encipher(t: Tables, keys: seq<Bits>, block: Bits): (r: Bits)
    requires t.Valid() && Keys(keys) && |block| == 64
    ensures |r| == 64
  {
    Select(t.fp, Rounds(t, keys, Split(Select(t.ip, block))).Swap().Join())
  }

  /** The same computation with the keys in reverse order. */
  function Decipher(t: Tables, keys: seq<Bits>, block: Bits): (r: Bits)
    requires t.Valid() && Keys(keys) && |block| == 64
    ensures |r| == 64
  {
    Encipher(t, Reverse(keys), block)
  }

  // ----- key schedule

  /** One left rotation of each 28-bit half of CD. */
  function RotateHalves(cd: Bits): (r: Bits)
    requires |cd| == 56
    ensures |r| == 56
  {
    seq(56, j requires 0 <= j < 56 => cd[if j == 27 then 0 else if j == 55 then 28 else j + 1])
  }

  function RotateTimes(cd: Bits, n: nat): (r: Bits)
    requires |cd| == 56
    ensures |r| == 56
  {
    if n == 0 then cd else RotateHalves(RotateTimes(cd, n - 1))
  }

  /** Left shifts made before the key of the given round (from 0) is picked. */
  function Shifts(round: nat): nat {
    if round == 0 || round == 1 || round == 8 || round == 15 then 1 else 2
  }

  /** C and D after the shifts of the given round, shifting round by round. */
  function CD(t: Tables, key: Bits, round: nat): (r: Bits)
    requires t.Valid() && |key| == 64
    ensures |r| == 56
  {
    RotateTimes(if round == 0 then Select(t.pc1, key) else CD(t, key, round - 1), Shifts(round))
  }

  function RoundKey(t: Tables, key: Bits, round: nat): (r: Bits)
    requires t.Valid() && |key| == 64
    ensures |r| == 48
  {
    Select(t.pc2, CD(t, key, round))
  }

  function Schedule(t: Tables, key: Bits): (keys: seq<Bits>)
    requires t.Valid() && |key| == 64
    ensures |keys| == 16 && Keys(keys)
  {
    seq(16, round requires 0 <= round < 16 => RoundKey(t, key, round))
  }

  // ----- deciphering undoes enciphering

  lemma SelectInverse(outer: seq<nat>, inner: seq<nat>, bits: Bits)
    requires Inverse(outer, inner) && |bits| == |outer|
    requires forall k :: 0 <= k < |outer| ==> 1 <= outer[k] <= |bits|
    ensures Select(inner, Select(outer, bits)) == bits
  {
  }

  lemma RoundUndone(t: Tables, key: Bits, x: Halves)
    requires t.Valid() && |key| == 48 && x.Valid()
    ensures Round(t, key, Round(t, key, x).Swap()) == x.Swap()
  {
    XorCancels(x.left, F(t, x.right, key));
  }

  lemma {:induction false} RoundsFromFront(t: Tables, first: Bits, keys: seq<Bits>, x: Halves)
    requires t.Valid() && |first| == 48 && Keys(keys) && x.Valid()
    ensures Rounds(t, [first] + keys, x) == Rounds(t, keys, Round(t, first, x))
  {
    var all := [first] + keys;
    if keys == [] {
      assert all[..0] == [];
    } else {
      assert all[..|all| - 1] == [first] + keys[..|keys| - 1];
      RoundsFromFront(t, first, keys[..|keys| - 1], x);
    }
  }

  /** Running the rounds again on the interchanged halves with the keys reversed takes every round
      back, for any number of rounds and any keys. */
  lemma {:induction false} RoundsUndone(t: Tables, keys: seq<Bits>, x: Halves)
    requires t.Valid() && Keys(keys) && x.Valid()
    ensures Rounds(t, Reverse(keys), Rounds(t, keys, x).Swap()) == x.Swap()
  {
    if keys == [] {
    } else {
      var last, front := keys[|keys| - 1], keys[..|keys| - 1];
      var y := Rounds(t, front, x);
      assert Reverse(keys) == [last] + Reverse(front);
      RoundsFromFront(t, last, Reverse(front), Round(t, last, y).Swap());
      RoundUndone(t, last, y);
      RoundsUndone(t, front, x);
    }
  }

  /** For every key schedule and every block, deciphering gives the block back. */
  lemma DecipherInvertsEncipher(t: Tables, keys: seq<Bits>, block: Bits)
    requires t.Valid() && Keys(keys) && |block| == 64
    ensures Decipher(t, keys, Encipher(t, keys, block)) == block
  {
    var x := Split(Select(t.ip, block));
    var y := Rounds(t, keys, x).Swap();
    SelectInverse(t.fp, t.ip, y.Join());
    assert Split(y.Join()) == y;
    RoundsUndone(t, keys, x);
    assert x.Swap().Swap() == x;
    SelectInverse(t.ip, t.fp, block);
  }

  lemma ReverseTwice(keys: seq<Bits>)
    ensures Reverse(Reverse(keys)) == keys
  {
  }

  /** And enciphering undoes deciphering: the two are inverse bijections on blocks. */
  lemma EncipherInvertsDecipher(t: Tables, keys: seq<Bits>, block: Bits)
    requires t.Valid() && Keys(keys) && |block| == 64
    ensures Encipher(t, keys, Decipher(t, keys, block)) == block
  {
    ReverseTwice(keys);
    DecipherInvertsEncipher(t, Reverse(keys), block);
  }

  /** The preoutput: behind the final permutation stand the interchanged halves of the last round, and
      in front of the first round the halves of the initial permutation. */
  lemma Preoutput(t: Tables, keys: seq<Bits>, block: Bits)
    requires t.Valid() && Keys(keys) && |block| == 64
    ensures Split(Select(t.ip, Encipher(t, keys, block))) == Rounds(t, keys, Split(Select(t.ip, block))).Swap()
  {
    hide Rounds;
    var y := Rounds(t, keys, Split(Select(t.ip, block))).Swap();
    SelectInverse(t.fp, t.ip, y.Join());
    assert Split(y.Join()) == y;
  }

  // ----- what every bit of the cipher function comes from

  /** Input m of selection function k: a bit of the right half against a bit of the key. */
  function SelectionInput(right: Bits, key: Bits, k: nat, m: nat): bool
    requires |right| == 32 && |key| == 48 && k < 8 && m < 6
  {
    right[if k == 0 && m == 0 then 31 else if k == 7 && m == 5 then 0 else 4 * k + m - 1] != key[6 * k + m]
  }

  function SelectionDigit(right: Bits, key: Bits, k: nat, m: nat): (d: nat)
    requires |right| == 32 && |key| == 48 && k < 8 && m < 6
    ensures d <= 1
  {
    Digit(SelectionInput(right, key, k, m))
  }

  /** The row of the outer inputs and the column of the inner ones, as one place in a table of 64. */
  function SelectionPlace(right: Bits, key: Bits, k: nat): (place: nat)
    requires |right| == 32 && |key| == 48 && k < 8
    ensures place < 64
  {
    32 * SelectionDigit(right, key, k, 0) + 16 * SelectionDigit(right, key, k, 5)
    + 8 * SelectionDigit(right, key, k, 1) + 4 * SelectionDigit(right, key, k, 2)
    + 2 * SelectionDigit(right, key, k, 3) + SelectionDigit(right, key, k, 4)
  }

  lemma InputAt(right: Bits, key: Bits, k: nat, m: nat)
    requires |right| == 32 && |key| == 48 && k < 8 && m < 6
    ensures Digit(Xor(E(right), key)[6 * k + m]) == SelectionDigit(right, key, k, m)
  {
    RowEnds(k, m);
  }

  /** The place of six given bits. */
  function Place(bits: Bits, at: nat): (place: nat)
    requires at + 6 <= |bits|
    ensures place < 64
  {
    32 * Digit(bits[at]) + 16 * Digit(bits[at + 5]) + 8 * Digit(bits[at + 1]) + 4 * Digit(bits[at + 2])
    + 2 * Digit(bits[at + 3]) + Digit(bits[at + 4])
  }

  lemma PlaceIsRowAndColumn(si: seq<seq<bv8>>, k: nat, bits: Bits, at: nat)
    requires k < |si| && |si[k]| == 64 && at + 6 <= |bits|
    ensures S(si, k, bits, at) == si[k][Place(bits, at)]
  {
    hide Digit;
  }

  lemma PlaceOfInputs(right: Bits, key: Bits, k: nat)
    requires |right| == 32 && |key| == 48 && k < 8
    ensures Place(Xor(E(right), key), 6 * k) == SelectionPlace(right, key, k)
  {
    hide E, Xor, Digit, SelectionDigit;
    InputAt(right, key, k, 0);
    InputAt(right, key, k, 1);
    InputAt(right, key, k, 2);
    InputAt(right, key, k, 3);
    InputAt(right, key, k, 4);
    InputAt(right, key, k, 5);
  }

  lemma SelectionAt(si: seq<seq<bv8>>, right: Bits, key: Bits, k: nat)
    requires k < |si| == 8 && |si[k]| == 64 && |right| == 32 && |key| == 48
    ensures S(si, k, Xor(E(right), key), 6 * k) == si[k][SelectionPlace(right, key, k)]
  {
    hide E, Xor, S, Place, SelectionPlace;
    PlaceIsRowAndColumn(si, k, Xor(E(right), key), 6 * k);
    PlaceOfInputs(right, key, k);
  }

  /** Bit j of f: bit p[j] of the eight numbers the selection functions give. */
  lemma FAt(t: Tables, right: Bits, key: Bits, j: nat)
    requires t.Valid() && |right| == 32 && |key| == 48 && j < 32
    ensures var k, bit := (t.p[j] - 1) / 4, (t.p[j] - 1) % 4;
            F(t, right, key)[j] == BitOf(t.si[k][SelectionPlace(right, key, k)], 4 + bit)
  {
    hide BitOf, S, SelectionPlace, E, Xor;
    SelectionAt(t.si, right, key, (t.p[j] - 1) / 4);
  }

  /** Bit m of row k of E, around the block. */
  lemma RowEnds(k: nat, m: nat)
    requires k < 8 && m < 6
    ensures (6 * k + m) / 6 == k && (6 * k + m) % 6 == m
    ensures (4 * k + m + 31) % 32 == if k == 0 && m == 0 then 31 else if k == 7 && m == 5 then 0 else 4 * k + m - 1
  {
  }

  // ----- the complementation law

  function Not(bits: Bits): (r: Bits)
    ensures |r| == |bits|
  {
    seq(|bits|, i requires 0 <= i < |bits| => !bits[i])
  }

  function NotEach(keys: seq<Bits>): (r: seq<Bits>)
    ensures |r| == |keys|
    ensures Keys(keys) ==> Keys(r)
  {
    seq(|keys|, i requires 0 <= i < |keys| => Not(keys[i]))
  }

  function NotHalves(x: Halves): (y: Halves)
    ensures x.Valid() ==> y.Valid()
  {
    Halves(Not(x.left), Not(x.right))
  }

  lemma SelectOfNot(table: seq<nat>, bits: Bits)
    requires forall k :: 0 <= k < |table| ==> 1 <= table[k] <= |bits|
    ensures Select(table, Not(bits)) == Not(Select(table, bits))
  {
  }

  lemma XorOfNots(a: Bits, b: Bits)
    requires |a| == |b|
    ensures Xor(Not(a), Not(b)) == Xor(a, b)
    ensures Xor(Not(a), b) == Not(Xor(a, b))
  {
  }

  lemma EOfNot(right: Bits)
    requires |right| == 32
    ensures E(Not(right)) == Not(E(right))
  {
  }

  /** The key enters f by exclusive or with the expanded half, and nowhere else. */
  lemma FOfNots(t: Tables, right: Bits, key: Bits)
    requires t.Valid() && |right| == 32 && |key| == 48
    ensures F(t, Not(right), Not(key)) == F(t, right, key)
  {
    EOfNot(right);
    XorOfNots(E(right), key);
  }

  lemma RoundOfNots(t: Tables, key: Bits, x: Halves)
    requires t.Valid() && |key| == 48 && x.Valid()
    ensures Round(t, Not(key), NotHalves(x)) == NotHalves(Round(t, key, x))
  {
    hide F;
    FOfNots(t, x.right, key);
    XorOfNots(x.left, F(t, x.right, key));
  }

  lemma {:induction false} RoundsOfNots(t: Tables, keys: seq<Bits>, x: Halves)
    requires t.Valid() && Keys(keys) && x.Valid()
    ensures Rounds(t, NotEach(keys), NotHalves(x)) == NotHalves(Rounds(t, keys, x))
  {
    hide Round;
    if keys == [] {
    } else {
      var front := keys[..|keys| - 1];
      RoundsOfNots(t, front, x);
      assert NotEach(keys)[..|keys| - 1] == NotEach(front);
      RoundOfNots(t, keys[|keys| - 1], Rounds(t, front, x));
    }
  }

  /** The complementation law: for all tables, keys and blocks, complementing every key and the block
      complements the result. */
  lemma EncipherOfNots(t: Tables, keys: seq<Bits>, block: Bits)
    requires t.Valid() && Keys(keys) && |block| == 64
    ensures Encipher(t, NotEach(keys), Not(block)) == Not(Encipher(t, keys, block))
  {
    hide Rounds, Select, Not;
    var x := Split(Select(t.ip, block));
    var y := Rounds(t, keys, x);
    SelectOfNot(t.ip, block);
    SplitOfNot(Select(t.ip, block));
    RoundsOfNots(t, keys, x);
    JoinOfNots(y.Swap());
    SelectOfNot(t.fp, y.Swap().Join());
  }

  lemma SplitOfNot(block: Bits)
    requires |block| == 64
    ensures Split(Not(block)) == NotHalves(Split(block))
  {
  }

  lemma JoinOfNots(x: Halves)
    requires x.Valid()
    ensures NotHalves(x).Join() == Not(x.Join())
  {
  }

  lemma {:induction false} RotateOfNot(cd: Bits, n: nat)
    requires |cd| == 56
    ensures RotateTimes(Not(cd), n) == Not(RotateTimes(cd, n))
  {
    if n == 0 {
    } else {
      RotateOfNot(cd, n - 1);
      assert RotateHalves(Not(RotateTimes(cd, n - 1))) == Not(RotateHalves(RotateTimes(cd, n - 1)));
    }
  }

  /** And the key schedule of a complemented key is the complemented schedule. */
  lemma ScheduleOfNot(t: Tables, key: Bits)
    requires t.Valid() && |key| == 64
    ensures Schedule(t, Not(key)) == NotEach(Schedule(t, key))
  {
    hide RotateTimes, TotalShifts, CD, Select, Not;
    forall round | 0 <= round < 16
      ensures RoundKey(t, Not(key), round) == Not(RoundKey(t, key, round))
    {
      CDByTotal(t, key, round);
      CDByTotal(t, Not(key), round);
      SelectOfNot(t.pc1, key);
      RotateOfNot(Select(t.pc1, key), TotalShifts(round));
      SelectOfNot(t.pc2, CD(t, key, round));
    }
  }

  // ----- rotating once by the running total

  /** The total of the shifts up to and including a round: the table `totrot`. */
  function TotalShifts(round: nat): nat {
    Shifts(round) + if round == 0 then 0 else TotalShifts(round - 1)
  }

  lemma {:induction false} RotateTimesAdds(cd: Bits, m: nat, n: nat)
    requires |cd| == 56
    ensures RotateTimes(RotateTimes(cd, m), n) == RotateTimes(cd, m + n)
  {
    if n == 0 {
    } else {
      RotateTimesAdds(cd, m, n - 1);
    }
  }

  lemma {:induction false} CDByTotal(t: Tables, key: Bits, round: nat)
    requires t.Valid() && |key| == 64
    ensures CD(t, key, round) == RotateTimes(Select(t.pc1, key), TotalShifts(round))
  {
    hide RotateTimes, Shifts, Select;
    if round == 0 {
    } else {
      CDByTotal(t, key, round - 1);
      RotateTimesAdds(Select(t.pc1, key), TotalShifts(round - 1), Shifts(round));
    }
  }

  /** Where bit j of the n-times rotated halves comes from. */
  function Source(j: nat, n: nat): (l: nat)
    requires j < 56 && n <= 28
    ensures l < 56
  {
    if j + n < (if j < 28 then 28 else 56) then j + n else j + n - 28
  }

  lemma {:induction false} RotateTimesAt(cd: Bits, n: nat)
    requires |cd| == 56 && n <= 28
    ensures forall j :: 0 <= j < 56 ==> RotateTimes(cd, n)[j] == cd[Source(j, n)]
  {
    if n == 0 {
    } else {
      RotateTimesAt(cd, n - 1);
    }
  }

  /** Every bit of every round key is one bit of the key, found through pc2, the rotations and pc1. */
  lemma RoundKeyAt(t: Tables, key: Bits, round: nat, j: nat)
    requires t.Valid() && |key| == 64 && TotalShifts(round) <= 28 && j < 48
    ensures RoundKey(t, key, round)[j] == key[t.pc1[Source(t.pc2[j] - 1, TotalShifts(round))] - 1]
  {
    hide Source, TotalShifts, CD, RotateTimes;
    CDByTotal(t, key, round);
    RotateTimesAt(Select(t.pc1, key), TotalShifts(round));
  }
}
