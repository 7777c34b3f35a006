/** Blowfish.cpp: the cipher on two words, the loops over a buffer, and the key schedule that
    rewrites the tables its own cipher is reading. */
module Blowfish {
  import opened Arithmetic
  import opened BlockBuffers
  import opened LittleEndian
  import opened MachineWords

  /** The tables: 18 words of P, and S[i][j] at index 256 * i + j. */
  datatype Tables = Tables(P: seq<Word32>, S: seq<Word32>) {
    ghost predicate Valid() { |P| == 18 && |S| == 1024 }
  }

  datatype Pair = Pair(l: Word32, r: Word32)

  // ----- the cipher

  /** Byte 0 is the high one: the byte order of the union `aword`. */
  function IndexByte(x: Word32, k: nat): (b: nat)
    requires k < 4
    ensures b < 256
  {
    ByteOf(x, 3 - k) as nat
  }

  /** `bf_F` */
  function F(S: seq<Word32>, x: Word32): Word32
    requires |S| == 1024
  {
    Combine(S[IndexByte(x, 0)], S[256 + IndexByte(x, 1)], S[512 + IndexByte(x, 2)], S[768 + IndexByte(x, 3)])
  }

  function Combine(s0: Word32, s1: Word32, s2: Word32, s3: Word32): Word32 {
    Plus(Xor(Plus(s0, s1), s2), s3)
  }

  /** `ROUND(a, b, n)`: the new value of a. */
  function Round(t: Tables, a: Word32, b: Word32, n: nat): Word32
    requires t.Valid() && n < 18
  {
    Xor(a, Xor(F(t.S, b), t.P[n]))
  }

  /** Rounds 1 to n of enciphering: odd rounds change the right word, even ones the left. */
  function Forward(t: Tables, n: nat, x: Pair): Pair
    requires t.Valid() && n <= 16
  {
    if n == 0 then x
    else
      var y := Forward(t, n - 1, x);
      if n % 2 == 1 then Pair(y.l, Round(t, y.r, y.l, n)) else Pair(Round(t, y.l, y.r, n), y.r)
  }

  /** Rounds 16 down to 17 - n of deciphering, on the words the other way around. */
  function Backward(t: Tables, n: nat, x: Pair): Pair
    requires t.Valid() && n <= 16
  {
    if n == 0 then x
    else
      var y := Backward(t, n - 1, x);
      if n % 2 == 1 then Pair(y.l, Round(t, y.r, y.l, 17 - n)) else Pair(Round(t, y.l, y.r, 17 - n), y.r)
  }

  function Encipher(t: Tables, x: Pair): Pair
    requires t.Valid()
  {
    var y := Forward(t, |t.P| - 2, Pair(Xor(x.l, t.P[0]), x.r));
    Pair(Xor(y.r, t.P[17]), y.l)
  }

  function Decipher(t: Tables, x: Pair): Pair
    requires t.Valid()
  {
    var y := Backward(t, |t.P| - 2, Pair(Xor(x.l, t.P[17]), x.r));
    Pair(Xor(y.r, t.P[0]), y.l)
  }

  lemma RoundTwice(t: Tables, a: Word32, b: Word32, n: nat)
    requires t.Valid() && n < 18
    ensures Round(t, Round(t, a, b, n), b, n) == a
  {
    hide F, Xor;
    XorTwice(a, Xor(F(t.S, b), t.P[n]));
  }

  /** n rounds back, from the interchanged words, are the state 16 - n rounds in. */
  lemma {:induction false} BackwardUndoes(t: Tables, n: nat, x: Pair)
    requires t.Valid() && n <= 16
    ensures var y := Forward(t, 16, x);
            var z := Forward(t, 16 - n, x);
            Backward(t, n, Pair(y.r, y.l)) == Pair(z.r, z.l)
  {
    hide Round, Xor;
    if n == 0 {
    } else {
      BackwardUndoes(t, n - 1, x);
      var m := 17 - n;
      var y := Forward(t, m - 1, x);
      if m % 2 == 1 {
        RoundTwice(t, y.r, y.l, m);
      } else {
        RoundTwice(t, y.l, y.r, m);
      }
    }
  }

  /** For any tables: deciphering takes enciphering back. */
  lemma DecipherInverts(t: Tables, x: Pair)
    requires t.Valid()
    ensures Decipher(t, Encipher(t, x)) == x
  {
    hide Forward, Backward, Xor;
    var start := Pair(Xor(x.l, t.P[0]), x.r);
    var y := Forward(t, 16, start);
    XorTwice(y.r, t.P[17]);
    BackwardUndoes(t, 16, start);
    ForwardNone(t, start);
    XorTwice(x.l, t.P[0]);
  }

  lemma ForwardNone(t: Tables, x: Pair)
    requires t.Valid()
    ensures Forward(t, 0, x) == x
  {
  }

  // ----- what a round reads

  lemma FirstTermTells(s0: Word32, s1: Word32, s2: Word32, s3: Word32, v: Word32, w: Word32)
    ensures Combine(v, s1, s2, s3) == Combine(w, s1, s2, s3) <==> v == w
    ensures Combine(s0, v, s2, s3) == Combine(s0, w, s2, s3) <==> v == w
  {
    hide Plus, Xor;
    PlusTells(s1, v, w);
    PlusTells(s0, v, w);
    XorTells(s2, Plus(v, s1), Plus(w, s1));
    XorTells(s2, Plus(s0, v), Plus(s0, w));
    PlusTells(s3, Xor(Plus(v, s1), s2), Xor(Plus(w, s1), s2));
    PlusTells(s3, Xor(Plus(s0, v), s2), Xor(Plus(s0, w), s2));
  }

  lemma LastTermTells(s0: Word32, s1: Word32, s2: Word32, s3: Word32, v: Word32, w: Word32)
    ensures Combine(s0, s1, v, s3) == Combine(s0, s1, w, s3) <==> v == w
    ensures Combine(s0, s1, s2, v) == Combine(s0, s1, s2, w) <==> v == w
  {
    hide Plus, Xor;
    var sum := Plus(s0, s1);
    XorTells(sum, v, w);
    PlusTells(s3, Xor(sum, v), Xor(sum, w));
    PlusTells(Xor(sum, s2), v, w);
  }

  /** Changing one of the four words that are combined changes the result. */
  lemma CombineTells(s0: Word32, s1: Word32, s2: Word32, s3: Word32, v: Word32)
    ensures Combine(v, s1, s2, s3) == Combine(s0, s1, s2, s3) <==> v == s0
    ensures Combine(s0, v, s2, s3) == Combine(s0, s1, s2, s3) <==> v == s1
    ensures Combine(s0, s1, v, s3) == Combine(s0, s1, s2, s3) <==> v == s2
    ensures Combine(s0, s1, s2, v) == Combine(s0, s1, s2, s3) <==> v == s3
  {
    hide Combine;
    FirstTermTells(s0, s1, s2, s3, v, s0);
    FirstTermTells(s0, s1, s2, s3, v, s1);
    LastTermTells(s0, s1, s2, s3, v, s2);
    LastTermTells(s0, s1, s2, s3, v, s3);
  }

  /** What each of the four words does to the result; nothing else has these four properties. */
  lemma CombineLaws(s0: Word32, s1: Word32, s2: Word32, s3: Word32, d: Word32)
    ensures Combine(s0, s1, s2, Plus(s3, d)) == Plus(Combine(s0, s1, s2, s3), d)
    ensures Combine(s0, s1, Xor(s2, d), 0) == Xor(Combine(s0, s1, s2, 0), d)
    ensures Combine(Plus(s0, d), s1, s2, s3) == Combine(s0, Plus(d, s1), s2, s3)
    ensures Combine(s0, 0, 0, 0) == s0
  {
    hide Plus, Xor;
    var sum := Plus(s0, s1);
    PlusAssociates(Xor(sum, s2), s3, d);
    XorAssociates(sum, s2, d);
    PlusAssociates(s0, d, s1);
    PlusNothing(Xor(sum, s2));
    PlusNothing(Xor(sum, Xor(s2, d)));
    PlusNothing(s0);
    XorNothing(s0);
  }

  /** The S entries a round looks up for b: in each box the one its byte of b names, the high byte for
      the first box. */
  predicate LookedUp(b: Word32, i: nat) {
    i < 1024 && i % 256 == ByteOf(b, 3 - i / 256) as nat
  }

  lemma FReadsS(S: seq<Word32>, b: Word32, i: nat, v: Word32)
    requires |S| == 1024 && i < 1024
    ensures F(S[i := v], b) == F(S, b) <==> v == S[i] || !LookedUp(b, i)
  {
    hide Combine, IndexByte;
    CombineTells(S[IndexByte(b, 0)], S[256 + IndexByte(b, 1)], S[512 + IndexByte(b, 2)], S[768 + IndexByte(b, 3)], v);
    WhichBox(b, i);
  }

  lemma WhichBox(b: Word32, i: nat)
    requires i < 1024
    ensures LookedUp(b, i) <==>
            || i == IndexByte(b, 0) || i == 256 + IndexByte(b, 1)
            || i == 512 + IndexByte(b, 2) || i == 768 + IndexByte(b, 3)
  {
    hide ByteOf;
  }

  /** A round reads exactly its four S entries: another word in place of one of them, and of no other
      entry, changes its result. */
  lemma RoundReadsS(t: Tables, a: Word32, b: Word32, n: nat, i: nat, v: Word32)
    requires t.Valid() && n < 18 && i < 1024
    ensures Round(t.(S := t.S[i := v]), a, b, n) == Round(t, a, b, n) <==> v == t.S[i] || !LookedUp(b, i)
  {
    hide Xor, F, LookedUp;
    FReadsS(t.S, b, i, v);
    XorTells(a, Xor(F(t.S[i := v], b), t.P[n]), Xor(F(t.S, b), t.P[n]));
    XorTells(t.P[n], F(t.S[i := v], b), F(t.S, b));
  }

  /** And exactly its one P entry. */
  lemma RoundReadsP(t: Tables, a: Word32, b: Word32, n: nat, p: nat, v: Word32)
    requires t.Valid() && n < 18 && p < 18
    ensures Round(t.(P := t.P[p := v]), a, b, n) == Round(t, a, b, n) <==> v == t.P[p] || p != n
  {
    hide F, Xor;
    XorTells(a, Xor(F(t.S, b), t.P[p := v][n]), Xor(F(t.S, b), t.P[n]));
    XorTells(F(t.S, b), t.P[p := v][n], t.P[n]);
  }

  lemma RoundInjective(t: Tables, a: Word32, a': Word32, b: Word32, n: nat)
    requires t.Valid() && n < 18 && Round(t, a, b, n) == Round(t, a', b, n)
    ensures a == a'
  {
    hide Round;
    RoundTwice(t, a, b, n);
    RoundTwice(t, a', b, n);
  }

  /** Changing P entry p leaves the first p - 1 rounds alone, and makes every later state differ. */
  lemma {:induction false} ForwardReadsP(t: Tables, n: nat, x: Pair, p: nat, v: Word32)
    requires t.Valid() && n <= 16 && 1 <= p < 18 && v != t.P[p]
    ensures Forward(t.(P := t.P[p := v]), n, x) == Forward(t, n, x) <==> n < p
  {
    hide Round;
    if n > 0 {
      var t' := t.(P := t.P[p := v]);
      ForwardReadsP(t, n - 1, x, p, v);
      var y, y' := Forward(t, n - 1, x), Forward(t', n - 1, x);
      if n <= p {
        RoundReadsP(t, y.r, y.l, n, p, v);
        RoundReadsP(t, y.l, y.r, n, p, v);
      } else {
        RoundReadsP(t, y'.r, y'.l, n, p, v);
        RoundReadsP(t, y'.l, y'.r, n, p, v);
        if Forward(t', n, x) == Forward(t, n, x) {
          if n % 2 == 1 {
            RoundInjective(t, y.r, y'.r, y.l, n);
          } else {
            RoundInjective(t, y.l, y'.l, y.r, n);
          }
        }
      }
    }
  }

  lemma {:induction false} ForwardInjective(t: Tables, n: nat, x: Pair, x': Pair)
    requires t.Valid() && n <= 16 && Forward(t, n, x) == Forward(t, n, x')
    ensures x == x'
  {
    hide Round;
    if n > 0 {
      var y, y' := Forward(t, n - 1, x), Forward(t, n - 1, x');
      if n % 2 == 1 {
        RoundInjective(t, y.r, y'.r, y.l, n);
      } else {
        RoundInjective(t, y.l, y'.l, y.r, n);
      }
      ForwardInjective(t, n - 1, x, x');
    }
  }

  lemma {:induction false} ForwardIgnoresEnds(t: Tables, t': Tables, n: nat, x: Pair)
    requires t.Valid() && t'.Valid() && n <= 16 && t.S == t'.S
    requires forall k :: 1 <= k <= 16 ==> t.P[k] == t'.P[k]
    ensures Forward(t, n, x) == Forward(t', n, x)
  {
    hide F, Xor;
    if n > 0 {
      ForwardIgnoresEnds(t, t', n - 1, x);
    }
  }

  /** Every one of the eighteen P entries matters to every pair of words: another word in its place
      changes what they are enciphered to. */
  lemma EncipherReadsP(t: Tables, x: Pair, p: nat, v: Word32)
    requires t.Valid() && p < 18
    ensures Encipher(t.(P := t.P[p := v]), x) == Encipher(t, x) <==> v == t.P[p]
  {
    hide Forward, Xor;
    var t' := t.(P := t.P[p := v]);
    if v == t.P[p] {
      assert t'.P == t.P;
    } else {
      var start, start' := Pair(Xor(x.l, t.P[0]), x.r), Pair(Xor(x.l, t'.P[0]), x.r);
      if p == 0 || p == 17 {
        ForwardIgnoresEnds(t', t, 16, start');
      } else {
        ForwardReadsP(t, 16, start, p, v);
      }
      if Encipher(t', x) == Encipher(t, x) {
        var y, y' := Forward(t, 16, start), Forward(t', 16, start');
        if p == 17 {
          XorTells(y.r, t.P[17], v);
        } else {
          XorTells(t.P[17], y.r, y'.r);
          if p == 0 {
            ForwardInjective(t, 16, start, start');
            XorTells(x.l, t.P[0], v);
          }
        }
      }
    }
  }

  // ----- which half meets which P entry

  /** P entries k, k - 2, and so on, together. */
  function EverySecond(P: seq<Word32>, k: nat): Word32
    requires k < |P|
  {
    if k < 2 then P[k] else Xor(EverySecond(P, k - 2), P[k])
  }

  lemma RoundWithoutF(t: Tables, a: Word32, b: Word32, n: nat)
    requires t.Valid() && n < 18 && forall i :: 0 <= i < 1024 ==> t.S[i] == 0
    ensures Round(t, a, b, n) == Xor(a, t.P[n])
  {
    hide Combine, Xor;
    CombineLaws(0, 0, 0, 0, 0);
    XorNothing(t.P[n]);
  }

  lemma TwoRoundsWithoutF(t: Tables, k: nat, x: Pair)
    requires t.Valid() && k < 8 && forall i :: 0 <= i < 1024 ==> t.S[i] == 0
    ensures var y := Forward(t, 2 * k, x);
            Forward(t, 2 * k + 2, x) == Pair(Xor(y.l, t.P[2 * k + 2]), Xor(y.r, t.P[2 * k + 1]))
  {
    hide Round, Xor;
    var y := Forward(t, 2 * k, x);
    RoundWithoutF(t, y.r, y.l, 2 * k + 1);
    RoundWithoutF(t, y.l, Xor(y.r, t.P[2 * k + 1]), 2 * k + 2);
    assert Forward(t, 2 * k + 1, x) == Pair(y.l, Xor(y.r, t.P[2 * k + 1]));
  }

  lemma {:induction false} ForwardWithoutF(t: Tables, k: nat, x: Pair)
    requires t.Valid() && k <= 8 && forall i :: 0 <= i < 1024 ==> t.S[i] == 0
    ensures var y := Forward(t, 2 * k, Pair(Xor(x.l, t.P[0]), x.r));
            && y.l == Xor(x.l, EverySecond(t.P, 2 * k))
            && y.r == if k == 0 then x.r else Xor(x.r, EverySecond(t.P, 2 * k - 1))
  {
    hide Forward, Xor;
    var start := Pair(Xor(x.l, t.P[0]), x.r);
    if k == 0 {
      ForwardNone(t, start);
    } else {
      ForwardWithoutF(t, k - 1, x);
      TwoRoundsWithoutF(t, k - 1, start);
      XorAssociates(x.l, EverySecond(t.P, 2 * k - 2), t.P[2 * k]);
      if k > 1 {
        XorAssociates(x.r, EverySecond(t.P, 2 * k - 3), t.P[2 * k - 1]);
      }
    }
  }

  /** With nothing in the S boxes each half only meets the P entries it is due, and they change places. */
  lemma EncipherWithoutF(t: Tables, x: Pair)
    requires t.Valid() && forall i :: 0 <= i < 1024 ==> t.S[i] == 0
    ensures Encipher(t, x) == Pair(Xor(x.r, EverySecond(t.P, 17)), Xor(x.l, EverySecond(t.P, 16)))
  {
    hide Forward, Xor;
    ForwardWithoutF(t, 8, x);
    XorAssociates(x.r, EverySecond(t.P, 15), t.P[17]);
  }

  // ----- blocks of bytes

  /** A word at a byte address, low byte first. */
  function Load(b: seq<Byte>, at: nat): Word32
    requires at + 4 <= |b|
  {
    Word(b[at], b[at + 1], b[at + 2], b[at + 3])
  }

  function Store(w: Word32): (b: seq<Byte>)
    ensures |b| == 4
  {
    [ByteOf(w, 0), ByteOf(w, 1), ByteOf(w, 2), ByteOf(w, 3)]
  }

  function LoadPair(b: seq<Byte>): Pair
    requires |b| == 8
  {
    Pair(Load(b, 0), Load(b, 4))
  }

  function StorePair(x: Pair): (b: seq<Byte>)
    ensures |b| == 8
  {
    Store(x.l) + Store(x.r)
  }

  lemma LoadStored(x: Pair)
    ensures LoadPair(StorePair(x)) == x
  {
    hide Word, Store;
    LoadStoredWord(x.l);
    LoadStoredWord(x.r);
    var b := StorePair(x);
    assert b[..4] == Store(x.l) && b[4..] == Store(x.r);
    assert Load(b, 0) == Load(b[..4], 0) && Load(b, 4) == Load(b[4..], 0);
  }

  lemma LoadStoredWord(w: Word32)
    ensures Load(Store(w), 0) == w
  {
    hide Word, ByteOf;
    WordOfBytes(w);
  }

  lemma StoreLoadedWord(b: seq<Byte>, at: nat)
    requires at + 4 <= |b|
    ensures Store(Load(b, at)) == b[at..at + 4]
  {
    hide Word, ByteOf;
    BytesOfWord(b[at], b[at + 1], b[at + 2], b[at + 3]);
  }

  lemma StoreLoaded(b: seq<Byte>)
    requires |b| == 8
    ensures StorePair(LoadPair(b)) == b
  {
    hide Load, Store;
    StoreLoadedWord(b, 0);
    StoreLoadedWord(b, 4);
  }

  function EncipherBlock(t: Tables): BlockMap
    requires t.Valid()
  {
    (b: seq<Byte>) => if |b| == 8 then StorePair(Encipher(t, LoadPair(b))) else []
  }

  function DecipherBlock(t: Tables): BlockMap
    requires t.Valid()
  {
    (b: seq<Byte>) => if |b| == 8 then StorePair(Decipher(t, LoadPair(b))) else []
  }

  /** For any tables and any buffer of any length: decrypting the encrypted buffer gives it back. */
  lemma DecryptInvertsEncrypt(t: Tables, buf: seq<Byte>, n: nat)
    requires t.Valid() && 8 * n <= |buf|
    ensures MapBlocks(DecipherBlock(t), MapBlocks(EncipherBlock(t), buf, n), n) == buf
  {
    hide Encipher, Decipher, LoadPair, StorePair;
    forall b: seq<Byte> | |b| == 8
      ensures DecipherBlock(t)(EncipherBlock(t)(b)) == b
    {
      LoadStored(Encipher(t, LoadPair(b)));
      DecipherInverts(t, LoadPair(b));
      StoreLoaded(b);
    }
    MapUndone(EncipherBlock(t), DecipherBlock(t), buf, n);
  }

  // ----- the key schedule

  /** Four key bytes from position j on, cyclically, the first one high. */
  function KeyWord(key: seq<Byte>, j: nat): Word32
    requires |key| > 0
  {
    var n := |key|;
    Word(key[(j + 3) % n], key[(j + 2) % n], key[(j + 1) % n], key[j % n])
  }

  /** The tables after the first loop: P mixed with the key. */
  function Mixed(source: Tables, key: seq<Byte>): (t: Tables)
    requires source.Valid() && |key| > 0
    ensures t.Valid()
  {
    Tables(seq(18, i requires 0 <= i < 18 => Xor(source.P[i], KeyWord(key, 4 * i))), source.S)
  }

  datatype Schedule = Schedule(t: Tables, data: Pair)

  /** Two words put into the tables, counting pairs through P and on through S. */
  function Put(t: Tables, k: nat, x: Pair): (r: Tables)
    requires t.Valid() && k < 521
    ensures r.Valid()
  {
    if k < 9 then t.(P := t.P[2 * k := x.l][2 * k + 1 := x.r])
    else t.(S := t.S[2 * (k - 9) := x.l][2 * (k - 9) + 1 := x.r])
  }

  /** After k turns: each enciphers the last two words with the tables as they are by then. */
  function Turns(start: Tables, k: nat): (r: Schedule)
    requires start.Valid() && k <= 521
    ensures r.t.Valid()
  {
    if k == 0 then Schedule(start, Pair(0, 0))
    else
      var before := Turns(start, k - 1);
      var x := Encipher(before.t, before.data);
      Schedule(Put(before.t, k - 1, x), x)
  }

  /** All 9 turns through P and 512 through S. */
  function KeyedTables(source: Tables, key: seq<Byte>): (t: Tables)
    requires source.Valid() && |key| > 0
    ensures t.Valid()
  {
    Turns(Mixed(source, key), |source.P| / 2 + |source.S| / 2).t
  }

  // ----- what the key schedule leaves behind

  /** The 18 words of P and the 1024 of S in one row. */
  function WordAt(t: Tables, i: nat): Word32
    requires t.Valid() && i < 1042
  {
    if i < 18 then t.P[i] else t.S[i - 18]
  }

  function PairAt(t: Tables, k: nat): Pair
    requires t.Valid() && k < 521
  {
    Pair(WordAt(t, 2 * k), WordAt(t, 2 * k + 1))
  }

  /** The first k pairs of one row, and the rest of another. */
  function Joined(t: Tables, rest: Tables, k: nat): (r: Tables)
    requires t.Valid() && rest.Valid()
    ensures r.Valid()
  {
    Tables(seq(18, i requires 0 <= i < 18 => if i < 2 * k then t.P[i] else rest.P[i]),
           seq(1024, i requires 0 <= i < 1024 => if i + 18 < 2 * k then t.S[i] else rest.S[i]))
  }

  /** Pair k is the pair before it (the first: two zeros) enciphered with the tables as they were: new
      up to there, from there on the source's with the key mixed in. */
  predicate ChainedAt(start: Tables, t: Tables, k: nat)
    requires start.Valid() && t.Valid() && k < 521
  {
    PairAt(t, k) == Encipher(Joined(t, start, k), if k == 0 then Pair(0, 0) else PairAt(t, k - 1))
  }

  ghost predicate Chained(start: Tables, t: Tables)
    requires start.Valid() && t.Valid()
  {
    forall k :: 0 <= k < 521 ==> ChainedAt(start, t, k)
  }

  lemma PutAt(t: Tables, k: nat, x: Pair, i: nat)
    requires t.Valid() && k < 521 && i < 1042
    ensures WordAt(Put(t, k, x), i) == if i == 2 * k then x.l else if i == 2 * k + 1 then x.r else WordAt(t, i)
  {
  }

  lemma SameWords(t: Tables, u: Tables)
    requires t.Valid() && u.Valid() && forall i :: 0 <= i < 1042 ==> WordAt(t, i) == WordAt(u, i)
    ensures t == u
  {
    forall i | 0 <= i < 18
      ensures t.P[i] == u.P[i]
    {
      assert WordAt(t, i) == WordAt(u, i);
    }
    forall i | 0 <= i < 1024
      ensures t.S[i] == u.S[i]
    {
      assert WordAt(t, i + 18) == WordAt(u, i + 18);
    }
    assert t.P == u.P && t.S == u.S;
  }

  lemma JoinedAt(t: Tables, rest: Tables, k: nat, i: nat)
    requires t.Valid() && rest.Valid() && i < 1042
    ensures WordAt(Joined(t, rest, k), i) == if i < 2 * k then WordAt(t, i) else WordAt(rest, i)
  {
  }

  lemma NothingJoined(start: Tables, t: Tables)
    requires start.Valid() && t.Valid()
    ensures Joined(t, start, 0) == start
  {
  }

  lemma AllJoined(start: Tables, t: Tables)
    requires start.Valid() && t.Valid()
    ensures Joined(t, start, 521) == t
  {
  }

  lemma PutNext(start: Tables, t: Tables, k: nat)
    requires start.Valid() && t.Valid() && k < 521
    ensures Put(Joined(t, start, k), k, PairAt(t, k)) == Joined(t, start, k + 1)
  {
    hide Put, Joined, WordAt;
    var left, right := Put(Joined(t, start, k), k, PairAt(t, k)), Joined(t, start, k + 1);
    forall i: nat | i < 1042
      ensures WordAt(left, i) == WordAt(right, i)
    {
      PutAt(Joined(t, start, k), k, PairAt(t, k), i);
      JoinedAt(t, start, k, i);
      JoinedAt(t, start, k + 1, i);
    }
    SameWords(left, right);
  }

  /** A chained row is what the turns give. */
  lemma {:induction false} TurnsOfChained(start: Tables, t: Tables, n: nat)
    requires start.Valid() && t.Valid() && n <= 521 && Chained(start, t)
    ensures Turns(start, n) == Schedule(Joined(t, start, n), if n == 0 then Pair(0, 0) else PairAt(t, n - 1))
  {
    hide Encipher, Put, Joined, PairAt;
    if n == 0 {
      NothingJoined(start, t);
    } else {
      TurnsOfChained(start, t, n - 1);
      assert ChainedAt(start, t, n - 1);
      PutNext(start, t, n - 1);
    }
  }

  /** Later turns leave the pairs before them alone. */
  lemma {:induction false} TurnsKeep(start: Tables, k: nat, n: nat)
    requires start.Valid() && k <= n <= 521
    ensures Turns(start, k).t == Joined(Turns(start, n).t, start, k)
    ensures k > 0 ==> PairAt(Turns(start, n).t, k - 1) == Turns(start, k).data
    decreases n
  {
    hide Encipher, Put, Joined, WordAt;
    if n > 0 {
      var before := Turns(start, n - 1);
      var x := Encipher(before.t, before.data);
      var t := Turns(start, n).t;
      if k < n {
        TurnsKeep(start, k, n - 1);
        forall i: nat | i < 1042
          ensures WordAt(Joined(t, start, k), i) == WordAt(Joined(before.t, start, k), i)
        {
          PutAt(before.t, n - 1, x, i);
          JoinedAt(t, start, k, i);
          JoinedAt(before.t, start, k, i);
        }
        SameWords(Joined(t, start, k), Joined(before.t, start, k));
        if k > 0 {
          PutAt(before.t, n - 1, x, 2 * k - 2);
          PutAt(before.t, n - 1, x, 2 * k - 1);
        }
      } else {
        TurnsKeep(start, n - 1, n - 1);
        forall i: nat | i < 1042
          ensures WordAt(t, i) == WordAt(Joined(t, start, n), i)
        {
          PutAt(before.t, n - 1, x, i);
          JoinedAt(t, start, n, i);
          JoinedAt(before.t, start, n - 1, i);
        }
        SameWords(t, Joined(t, start, n));
        PutAt(before.t, n - 1, x, 2 * n - 2);
        PutAt(before.t, n - 1, x, 2 * n - 1);
      }
    } else {
      NothingJoined(start, start);
    }
  }

  /** The keyed tables are the one and only row that is chained in this way. */
  lemma KeyedTablesIff(source: Tables, key: seq<Byte>, t: Tables)
    requires source.Valid() && |key| > 0 && t.Valid()
    ensures t == KeyedTables(source, key) <==> Chained(Mixed(source, key), t)
  {
    hide Encipher, Turns, Joined, PairAt, Mixed;
    var start := Mixed(source, key);
    if Chained(start, t) {
      TurnsOfChained(start, t, 521);
      AllJoined(start, t);
      assert t == KeyedTables(source, key);
    }
    if t == KeyedTables(source, key) {
      forall k: nat | k < 521
        ensures ChainedAt(start, t, k)
      {
        TurnsKeep(start, k, 521);
        TurnsKeep(start, k + 1, 521);
        OneTurn(start, k);
      }
    }
  }

  lemma OneTurn(start: Tables, k: nat)
    requires start.Valid() && k < 521
    ensures Turns(start, k + 1).data == Encipher(Turns(start, k).t, Turns(start, k).data)
    ensures k == 0 ==> Turns(start, k).data == Pair(0, 0)
  {
    hide Encipher, Put;
  }

  /** A key and the same key written m times over give the same tables. */
  function Repeated(key: seq<Byte>, m: nat): (r: seq<Byte>)
    ensures |r| == m * |key|
  {
    if m == 0 then [] else key + Repeated(key, m - 1)
  }

  lemma {:induction false} RepeatedAt(key: seq<Byte>, m: nat, i: nat)
    requires |key| > 0 && i < m * |key|
    ensures Repeated(key, m)[i] == key[i % |key|]
  {
    assert m > 0;
    if i < |key| {
    } else {
      assert m * |key| == (m - 1) * |key| + |key|;
      RepeatedAt(key, m - 1, i - |key|);
      ModMinus(i, |key|);
      assert Repeated(key, m)[i] == Repeated(key, m - 1)[i - |key|];
    }
  }

  lemma ModMinus(i: nat, n: nat)
    requires 0 < n <= i
    ensures (i - n) % n == i % n
  {
    assert i == n * (i / n) + i % n;
    Quotient(i - n, i / n - 1, n, i % n);
  }

  /** Reducing by a multiple of n first changes nothing. */
  lemma ModOfMod(j: nat, m: nat, n: nat)
    requires m > 0 && n > 0 && m * n > 0
    ensures j % (m * n) % n == j % n
  {
    var q, r := j / (m * n), j % (m * n);
    assert j == m * n * q + r;
    assert m * n * q == n * (m * q);
    assert r == n * (r / n) + r % n;
    assert j == n * (m * q + r / n) + r % n by {
      assert n * (m * q + r / n) == n * (m * q) + n * (r / n);
    }
    Quotient(j, m * q + r / n, n, r % n);
  }

  lemma RepeatedByte(key: seq<Byte>, m: nat, j: nat)
    requires |key| > 0 && m > 0
    ensures |Repeated(key, m)| > 0 && Repeated(key, m)[j % |Repeated(key, m)|] == key[j % |key|]
  {
    assert m * |key| >= 1 * |key|;
    RepeatedAt(key, m, j % (m * |key|));
    ModOfMod(j, m, |key|);
  }

  /** Both keys, read cyclically, give the same byte at position j. */
  ghost predicate SameByte(key: seq<Byte>, other: seq<Byte>, j: nat)
    requires |key| > 0 && |other| > 0
  {
    key[j % |key|] == other[j % |other|]
  }

  lemma KeyWordsAgreeIff(key: seq<Byte>, other: seq<Byte>, j: nat)
    requires |key| > 0 && |other| > 0
    ensures KeyWord(key, j) == KeyWord(other, j) <==>
            SameByte(key, other, j) && SameByte(key, other, j + 1)
            && SameByte(key, other, j + 2) && SameByte(key, other, j + 3)
  {
    hide Word, ByteOf;
    var n, m := |key|, |other|;
    BytesOfWord(key[(j + 3) % n], key[(j + 2) % n], key[(j + 1) % n], key[j % n]);
    BytesOfWord(other[(j + 3) % m], other[(j + 2) % m], other[(j + 1) % m], other[j % m]);
  }

  /** The key is used up to its 72nd byte, cyclically, and every one of these counts. */
  lemma MixedAgreeIff(source: Tables, key: seq<Byte>, other: seq<Byte>)
    requires source.Valid() && |key| > 0 && |other| > 0
    ensures Mixed(source, key) == Mixed(source, other) <==> forall j :: 0 <= j < 72 ==> SameByte(key, other, j)
  {
    hide KeyWord, Xor, SameByte;
    forall i | 0 <= i < 18
      ensures Mixed(source, key).P[i] == Mixed(source, other).P[i] <==>
              SameByte(key, other, 4 * i) && SameByte(key, other, 4 * i + 1)
              && SameByte(key, other, 4 * i + 2) && SameByte(key, other, 4 * i + 3)
    {
      XorTells(source.P[i], KeyWord(key, 4 * i), KeyWord(other, 4 * i));
      KeyWordsAgreeIff(key, other, 4 * i);
    }
    if Mixed(source, key) == Mixed(source, other) {
      forall j | 0 <= j < 72
        ensures SameByte(key, other, j)
      {
        assert Mixed(source, key).P[j / 4] == Mixed(source, other).P[j / 4];
        assert j == 4 * (j / 4) + j % 4;
      }
    }
    if forall j :: 0 <= j < 72 ==> SameByte(key, other, j) {
      assert Mixed(source, key).P == Mixed(source, other).P;
    }
  }

  /** So keys that agree on those give the same tables. */
  lemma KeyedTablesAgree(source: Tables, key: seq<Byte>, other: seq<Byte>)
    requires source.Valid() && |key| > 0 && |other| > 0
    requires forall j :: 0 <= j < 72 ==> SameByte(key, other, j)
    ensures KeyedTables(source, key) == KeyedTables(source, other)
  {
    hide Turns, Mixed, SameByte;
    MixedAgreeIff(source, key, other);
  }

  lemma KeyRepetitionIsNothing(source: Tables, key: seq<Byte>, m: nat)
    requires source.Valid() && |key| > 0 && m > 0
    ensures |Repeated(key, m)| > 0 && KeyedTables(source, Repeated(key, m)) == KeyedTables(source, key)
  {
    hide Turns, Mixed, Repeated;
    RepeatedByte(key, m, 0);
    forall j | 0 <= j < 72
      ensures SameByte(Repeated(key, m), key, j)
    {
      RepeatedByte(key, m, j);
    }
    KeyedTablesAgree(source, Repeated(key, m), key);
  }

  // ----- the tables in place

  /** `bf_P` and `bf_S`, or one connection's `Blowfish_matrix`; the source has every routine twice,
      word for word, once for each. */
  class Matrix {
    const P: array<Word32>
    const S: array<Word32>

    ghost predicate Valid() { P.Length == 18 && S.Length == 1024 && P != S }

    ghost function View(): (t: Tables)
      requires Valid()
      reads P, S
      ensures t.Valid()
    {
      Tables(P[..], S[..])
    }

    constructor ()
      ensures Valid() && fresh(P) && fresh(S)
    {
      P := new Word32[18];
      S := new Word32[1024];
    }

    method RoundInPlace(a: Word32, b: Word32, n: nat) returns (r: Word32)
      requires Valid() && n < 18
      ensures r == Round(View(), a, b, n)
    {
      hide IndexByte, Combine, Xor;
      var f := Combine(S[IndexByte(b, 0)], S[256 + IndexByte(b, 1)],
                       S[512 + IndexByte(b, 2)], S[768 + IndexByte(b, 3)]);
      r := Xor(a, Xor(f, P[n]));
    }

    /** `Blowfish_encipher`: the sixteen rounds, written here in pairs as in the source. */
    method EncipherInPlace(xl: Word32, xr: Word32) returns (x: Pair)
      requires Valid()
      ensures x == Encipher(View(), Pair(xl, xr))
    {
      hide Round;
      var l, r := Xor(xl, P[0]), xr;
      ghost var start := Pair(l, r);
      for n := 0 to 8
        invariant Pair(l, r) == Forward(View(), 2 * n, start)
      {
        r := RoundInPlace(r, l, 2 * n + 1);
        l := RoundInPlace(l, r, 2 * n + 2);
      }
      r := Xor(r, P[17]);
      x := Pair(r, l);
    }

    /** `Blowfish_decipher` */
    method DecipherInPlace(xl: Word32, xr: Word32) returns (x: Pair)
      requires Valid()
      ensures x == Decipher(View(), Pair(xl, xr))
    {
      hide Round;
      var l, r := Xor(xl, P[17]), xr;
      ghost var start := Pair(l, r);
      for n := 0 to 8
        invariant Pair(l, r) == Backward(View(), 2 * n, start)
      {
        r := RoundInPlace(r, l, 16 - 2 * n);
        l := RoundInPlace(l, r, 15 - 2 * n);
      }
      r := Xor(r, P[0]);
      x := Pair(r, l);
    }

    /** `BlowfishEncrypt` and `BlowfishDecrypt`: whole blocks only; the tail is not touched. */
    method CryptBuffer(buf: array<Byte>, length: int, encrypting: bool)
      requires Valid() && length <= buf.Length && buf != P as object && buf != S as object
      modifies buf
      ensures buf[..] == MapBlocks(if encrypting then EncipherBlock(View()) else DecipherBlock(View()),
                                   old(buf[..]), WholeBlocks(length))
    {
      hide Encipher, Decipher, LoadPair, StorePair;
      ghost var f := if encrypting then EncipherBlock(View()) else DecipherBlock(View());
      ghost var before := buf[..];
      NoBlocks(f, before);
      for i := 0 to WholeBlocks(length)
        invariant buf[..] == MapBlocks(f, before, i)
      {
        var block := buf[8 * i..8 * i + 8];
        OneMoreBlock(f, before, i);
        assert block == buf[..][8 * i..8 * i + 8];
        var x := LoadPair(block);
        if encrypting {
          x := EncipherInPlace(x.l, x.r);
        } else {
          x := DecipherInPlace(x.l, x.r);
        }
        StoreBlock(buf, 8 * i, StorePair(x));
      }
    }

    /** `InitializeBlowfish`: from whatever the tables held, to tables that depend on the key alone,
        although every turn enciphers with the tables it is rewriting. */
    method Initialize(source: Tables, key: seq<Byte>)
      requires Valid() && source.Valid() && |key| > 0
      modifies P, S
      ensures View() == KeyedTables(source, key)
    {
      hide Encipher, Xor, Word;
      MixKey(source, key);
      ghost var start := Mixed(source, key);
      var data := Pair(0, 0);
      for i := 0 to 9
        invariant Schedule(View(), data) == Turns(start, i)
      {
        data := EncipherInPlace(data.l, data.r);
        P[2 * i], P[2 * i + 1] := data.l, data.r;
        assert View() == Put(Turns(start, i).t, i, data);
      }
      for i := 0 to 512
        invariant Schedule(View(), data) == Turns(start, 9 + i)
      {
        data := EncipherInPlace(data.l, data.r);
        S[2 * i], S[2 * i + 1] := data.l, data.r;
        assert View() == Put(Turns(start, 9 + i).t, 9 + i, data);
      }
    }

    /** The copies of the source tables and the first loop, with its running index into the key. */
    method MixKey(source: Tables, key: seq<Byte>)
      requires Valid() && source.Valid() && |key| > 0
      modifies P, S
      ensures View() == Mixed(source, key)
    {
      hide Xor, Word, KeyWord;
      forall i | 0 <= i < 18 {
        P[i] := source.P[i];
      }
      forall i | 0 <= i < 1024 {
        S[i] := source.S[i];
      }
      var j := 0;
      for i := 0 to 18
        invariant 0 <= j < |key| && j == 4 * i % |key|
        invariant S[..] == source.S
        invariant forall k :: 0 <= k < i ==> P[k] == Xor(source.P[k], KeyWord(key, 4 * k))
        invariant forall k :: i <= k < 18 ==> P[k] == source.P[k]
      {
        var data := Word(key[(j + 3) % |key|], key[(j + 2) % |key|], key[(j + 1) % |key|], key[j]);
        RunningWord(key, 4 * i);
        P[i] := Xor(P[i], data);
        j := (j + 4) % |key|;
      }
    }
  }

  /** The four bytes from a reduced index on are those of the key word, and the index moves on. */
  lemma RunningWord(key: seq<Byte>, at: nat)
    requires |key| > 0
    ensures var j := at % |key|;
            Word(key[(j + 3) % |key|], key[(j + 2) % |key|], key[(j + 1) % |key|], key[j]) == KeyWord(key, at)
    ensures (at % |key| + 4) % |key| == (at + 4) % |key|
  {
    hide Word;
    RunningIndex(at, 1, |key|);
    RunningIndex(at, 2, |key|);
    RunningIndex(at, 3, |key|);
    RunningIndex(at, 4, |key|);
  }

  /** Advancing an index already reduced is reducing the advanced index. */
  lemma RunningIndex(at: nat, d: nat, n: nat)
    requires n > 0
    ensures (at % n + d) % n == (at + d) % n
  {
    var r := at % n + d;
    assert r == n * (r / n) + r % n;
    assert at == n * (at / n) + at % n;
    var q := at / n + r / n;
    assert n * q == n * (at / n) + n * (r / n);
    Quotient(at + d, q, n, r % n);
  }

  /** Two matrices set up with the same key, whatever they held before, encrypt alike: what one
      encrypts the other decrypts. */
  method EncryptHereDecryptThere(source: Tables, key: seq<Byte>, here: Matrix, there: Matrix,
                                 buf: array<Byte>, length: int) returns (encrypted: seq<Byte>)
    requires source.Valid() && |key| > 0 && here.Valid() && there.Valid() && length <= buf.Length
    requires here.P != there.P && here.P != there.S && here.S != there.P && here.S != there.S
    requires buf != here.P as object && buf != here.S as object && buf != there.P as object && buf != there.S as object
    modifies here.P, here.S, there.P, there.S, buf
    ensures here.View() == there.View() == KeyedTables(source, key)
    ensures encrypted == MapBlocks(EncipherBlock(KeyedTables(source, key)), old(buf[..]), WholeBlocks(length))
    ensures buf[..] == old(buf[..])
  {
    here.Initialize(source, key);
    there.Initialize(source, key);
    here.CryptBuffer(buf, length, true);
    encrypted := buf[..];
    there.CryptBuffer(buf, length, false);
    DecryptInvertsEncrypt(here.View(), old(buf[..]), WholeBlocks(length));
  }
}
