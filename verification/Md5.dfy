/** The buffered MD5 object of md5.cpp: input arrives in pieces of any length. */
module Md5 {
  import opened Arithmetic
  import opened LittleEndian
  import opened Md5Standard
  import opened Pieces

  // ----- the message split at its last whole block

  function WholeLength(n: nat): (k: nat)
    ensures k <= n && k % 64 == 0 && n - k == n % 64
  {
    n - n % 64
  }

  function Whole(message: seq<Byte>): (r: seq<Byte>)
    ensures |r| % 64 == 0
  {
    message[..WholeLength(|message|)]
  }

  function Tail(message: seq<Byte>): (r: seq<Byte>)
    ensures |r| == |message| % 64 && Whole(message) + r == message
  {
    message[WholeLength(|message|)..]
  }

  // ----- the two count words

  /** The two count words, low word first. */
  datatype Count = Count(low: nat, high: nat) {
    ghost predicate Valid() { low < W && high < W }

    function Bits(): nat { low + W * high }

    /** `count[0] += inputLen << 3`, its carry into `count[1]`, and `count[1] += inputLen >> 29`. */
    function Add(inputLen: nat): (r: Count) {
      var added := inputLen * 8 % W;
      var low' := (low + added) % W;
      var carry := if low' < added then 1 else 0;
      Count(low', (high + carry + inputLen / 0x2000_0000) % W)
    }
  }

  /** An unsigned sum is smaller than what was added exactly when it wrapped. */
  lemma Wrapped(low: nat, added: nat)
    requires low < W && added < W
    ensures (low + added) % W == if low + added < W then low + added else low + added - W
    ensures (low + added) % W < added <==> low + added >= W
  {
  }

  /** The count words hold the number of bits mod 2^64, whatever wraps on the way. */
  lemma AddCounts(count: Count, inputLen: nat, n: nat)
    requires count.Valid() && inputLen < W && count.Bits() == 8 * n % (W * W)
    ensures count.Add(inputLen).Valid() && count.Add(inputLen).Bits() == 8 * (n + inputLen) % (W * W)
  {
    var added, high := inputLen * 8 % W, inputLen / 0x2000_0000;
    assert 8 * inputLen == high * W + added;
    Wrapped(count.low, added);
    var carry := if count.low + added < W then 0 else 1;
    var upper := count.high + carry + high;
    var r := count.Add(inputLen);
    assert r.low == count.low + added - carry * W && r.high == upper % W;
    var q := upper / W;
    assert upper == q * W + r.high;
    var p := 8 * n / (W * W);
    assert 8 * n == p * (W * W) + count.Bits();
    Quotient(8 * (n + inputLen), p + q, W * W, r.Bits());
  }

  // ----- where the block loop stops

  /** The index at which `Update` is done with whole blocks, when `index` bytes are buffered. */
  function StopIndex(index: nat, inputLen: nat): (i: nat)
    requires index < 64
    ensures i <= inputLen
    ensures inputLen >= 64 - index ==> i >= 64 - index && (index + i) % 64 == 0 && inputLen - i < 64
  {
    var partLen := 64 - index;
    if inputLen < partLen then 0 else inputLen - (inputLen - partLen) % 64
  }

  /** The loop test `i + 63 < inputLen` is made in 32 bits; it says stop at the right index exactly
      when that index is no more than 2^32 - 64. */
  ghost predicate StopsInTime(index: nat, inputLen: nat)
    requires index < 64
  {
    StopIndex(index, inputLen) <= W - 64
  }

  lemma GuardAtStop(index: nat, inputLen: nat)
    requires index < 64 && 64 - index <= inputLen < W
    ensures StopsInTime(index, inputLen) <==> !((StopIndex(index, inputLen) + 63) % W < inputLen)
  {
    var i := StopIndex(index, inputLen);
    assert inputLen < i + 64;
    if i <= W - 64 {
      assert (i + 63) % W == i + 63;
    } else {
      assert (i + 63) % W == i + 63 - W;
    }
  }

  /** Every piece shorter than 2^32 - 63 bytes is safe, wherever it lands. */
  lemma ShortPiecesStop(index: nat, inputLen: nat)
    requires index < 64 && inputLen < W - 63
    ensures StopsInTime(index, inputLen)
  {
  }

  /** A piece of 2^32 - 1 bytes on top of one buffered byte is not: the test wraps and goes on past
      the end of the input. */
  lemma LongPieceRunsOn()
    ensures !StopsInTime(1, W - 1)
    ensures (StopIndex(1, W - 1) + 63) % W < W - 1
  {
    assert StopIndex(1, W - 1) == W - 1;
  }

  // ----- steps of the stream

  lemma TailGrows(message: seq<Byte>, rest: seq<Byte>)
    requires |message| % 64 + |rest| < 64
    ensures Whole(message + rest) == Whole(message) && Tail(message + rest) == Tail(message) + rest
  {
    assert |message + rest| % 64 == |message| % 64 + |rest|;
    assert WholeLength(|message + rest|) == WholeLength(|message|);
  }

  lemma TailRestarts(whole: seq<Byte>, rest: seq<Byte>)
    requires |whole| % 64 == 0 && |rest| < 64
    ensures Whole(whole + rest) == whole && Tail(whole + rest) == rest
  {
    assert |whole + rest| % 64 == |rest|;
    assert WholeLength(|whole + rest|) == |whole|;
  }

  class MD5 {
    const state: array<Word32>
    var count: Count
    const buffer: array<Byte>

    /** Everything fed in so far. */
    ghost var message: seq<Byte>

    ghost predicate Valid()
      reads this, state, buffer
    {
      && state.Length == 4 && buffer.Length == 64
      && count.Valid() && count.Bits() == 8 * |message| % (W * W)
      && state[..] == Fold(INIT, Whole(message))
      && buffer[..|message| % 64] == Tail(message)
    }

    constructor ()
      ensures Valid() && message == [] && fresh(state) && fresh(buffer)
    {
      state := new Word32[4];
      buffer := new Byte[64];
      count := Count(0, 0);
      message := [];
      new;
      state[0], state[1], state[2], state[3] := INIT[0], INIT[1], INIT[2], INIT[3];
      assert state[..] == INIT;
      assert Whole(message) == [] == Tail(message);
    }

    method Transform(block: seq<Byte>)
      requires state.Length == 4 && |block| == 64
      modifies state
      ensures state[..] == Compress(old(state[..]), block)
    {
      hide Compress;
      var next := MD5Transform(state[..], block);
      state[0], state[1], state[2], state[3] := next[0], next[1], next[2], next[3];
      assert state[..] == next;
    }

    /** Copies bytes into the buffer from `index` on. */
    method FillBuffer(index: nat, bytes: seq<Byte>)
      requires buffer.Length == 64 && index + |bytes| <= 64
      modifies buffer
      ensures buffer[..index] == old(buffer[..index]) && buffer[index..index + |bytes|] == bytes
    {
      for i := 0 to |bytes|
        invariant buffer[..index] == old(buffer[..index])
        invariant buffer[index..index + i] == bytes[..i]
      {
        buffer[index + i] := bytes[i];
        assert buffer[index..index + i + 1] == buffer[index..index + i] + [bytes[i]];
      }
    }

    /** The block loop of `Update`: folds whole blocks of the input in, starting at `first`. Not ok
        when its next block would reach past the end of the input, where the source reads on. */
    method TransformBlocks(input: seq<Byte>, index: nat, first: nat, ghost done: seq<Byte>) returns (i: nat, ok: bool)
      requires state.Length == 4 && index < 64 && first == 64 - index <= |input| < W
      requires |done| % 64 == 0 && state[..] == Fold(INIT, done)
      modifies state
      ensures ok <==> StopsInTime(index, |input|)
      ensures i == StopIndex(index, |input|) && |done + input[first..i]| % 64 == 0
      ensures state[..] == Fold(INIT, done + input[first..i])
    {
      hide Compress, Fold;
      i, ok := first, true;
      assert done + input[first..i] == done;
      while (i + 63) % W < |input|
        invariant first <= i <= StopIndex(index, |input|) && (i - first) % 64 == 0
        invariant |done + input[first..i]| % 64 == 0
        invariant state[..] == Fold(INIT, done + input[first..i])
        decreases |input| - i
      {
        if i + 64 > |input| {
          ok := false;
          PastInput(index, |input|, i);
          return;
        }
        FoldOneMore(INIT, done + input[first..i], input[i..i + 64]);
        assert done + input[first..i + 64] == done + input[first..i] + input[i..i + 64];
        InsideInput(index, |input|, i);
        Transform(input[i..i + 64]);
        i := i + 64;
      }
      OnlyAtStop(index, |input|, i);
    }

    /** Not ok when the source would read past the end of its input; nothing is promised then. */
    method Update(input: seq<Byte>) returns (ok: bool)
      requires Valid() && |input| < W
      modifies this, state, buffer
      ensures ok <==> StopsInTime(|old(message)| % 64, |input|)
      ensures ok ==> Valid() && message == old(message) + input
    {
      hide Compress, Fold, Count.Add, Count.Bits, StopsInTime, Whole, Tail, WholeLength;
      var index := count.low / 8 % 64;
      BufferedBytes(count, |message|);
      AddCounts(count, |input|, |message|);
      count := count.Add(|input|);
      var partLen := 64 - index;
      if |input| >= partLen {
        FillBuffer(index, input[..partLen]);
        assert buffer[..] == buffer[..index] + buffer[index..64];
        TransformBuffer(Whole(message), Tail(message) + input[..partLen]);
        ghost var done := message + input[..partLen];
        assert Whole(message) + (Tail(message) + input[..partLen]) == done;
        var i;
        i, ok := TransformBlocks(input, index, partLen, done);
        if !ok {
          return;
        }
        FillBuffer(0, input[i..]);
        TailRestarts(done + input[partLen..i], input[i..]);
        assert message + input == done + input[partLen..i] + input[i..];
        assert buffer[..|input| - i] == buffer[0..0 + (|input| - i)];
      } else {
        ok := true;
        NothingToStop(index, |input|);
        FillBuffer(index, input);
        TailGrows(message, input);
        assert buffer[..index + |input|] == buffer[..index] + buffer[index..index + |input|];
      }
      message := message + input;
    }

    /** The full buffer, folded in after the whole blocks so far. */
    method TransformBuffer(ghost whole: seq<Byte>, ghost block: seq<Byte>)
      requires state.Length == 4 && buffer.Length == 64 && |whole| % 64 == 0
      requires state[..] == Fold(INIT, whole) && buffer[..] == block
      modifies state
      ensures |whole + block| % 64 == 0 && state[..] == Fold(INIT, whole + block)
    {
      hide Compress, Fold;
      FoldOneMore(INIT, whole, block);
      Transform(buffer[..]);
    }

    /** Pads, appends the bit count taken before padding, and encodes the state; then clears the
        object. */
    method Final() returns (digest: seq<Byte>)
      requires Valid()
      modifies this, state, buffer
      ensures digest == Digest(old(message))
      ensures state[..] == [0, 0, 0, 0] && count == Count(0, 0) && forall i :: 0 <= i < 64 ==> buffer[i] == 0
    {
      hide Valid, Compress, Fold, Count.Bits, Encode, Padding, BitLength, PadLength, StopIndex, StopsInTime;
      hide Whole, Tail;
      ghost var text := message;
      var bits := EncodeCount();
      ValidFacts();
      BufferedBytes(count, |text|);
      var index := count.low / 8 % 64;
      var padLen := if index < 56 then 56 - index else 120 - index;
      assert padLen == PadLength(|text|) by { PadLengthFrom(|text|); }
      ShortPiecesStop(index, padLen);
      var ok := Update(Padding(padLen));
      ShortPiecesStop(|message| % 64, 8);
      ok := Update(bits);
      assert message == Pad(text);
      WholeIfAligned(message);
      ValidFacts();
      digest := Encode(state[..]);
      Clear();
    }

    /** `Encode (bits, count, 8)`. */
    method EncodeCount() returns (bits: seq<Byte>)
      requires Valid()
      ensures |bits| == 8 && bits == Encode(BitLength(|message|))
    {
      hide Encode, BitLength, Count.Bits, Fold;
      bits := Encode([count.low as bv32, count.high as bv32]);
      CountIsBitLength(count, |message|);
    }

    lemma ValidFacts()
      requires Valid()
      ensures state.Length == 4 && buffer.Length == 64
      ensures count.Valid() && count.Bits() == 8 * |message| % (W * W)
      ensures state[..] == Fold(INIT, Whole(message))
    {
    }

    method Clear()
      requires state.Length == 4 && buffer.Length == 64
      modifies this, state, buffer
      ensures state[..] == [0, 0, 0, 0] && count == Count(0, 0) && forall i :: 0 <= i < 64 ==> buffer[i] == 0
    {
      for i := 0 to 64
        invariant forall k :: 0 <= k < i ==> buffer[k] == 0
      {
        buffer[i] := 0;
      }
      state[0], state[1], state[2], state[3] := 0, 0, 0, 0;
      count, message := Count(0, 0), [];
    }
  }

  /** `MD5Transform`: four registers that stay put while the operations name them in turn, sixteen
      times four lines. */
  method MD5Transform(state: seq<Word32>, block: seq<Byte>) returns (next: seq<Word32>)
    requires |state| == 4 && |block| == 64
    ensures |next| == 4 && next == Compress(state, block)
  {
    hide Operation, Steps, Added;
    var a, b, c, d := state[0], state[1], state[2], state[3];
    ghost var start := Registers(a, b, c, d);
    var x := Decode(block);
    NoSteps(start, x);
    for g := 0 to |x|
      invariant Registers(a, b, c, d) == Steps(4 * g, start, x)
    {
      FourSteps(4 * g, Registers(a, b, c, d), start, x);
      a := Operation(4 * g, a, b, c, d, x);
      d := Operation(4 * g + 1, d, a, b, c, x);
      c := Operation(4 * g + 2, c, d, a, b, x);
      b := Operation(4 * g + 3, b, c, d, a, x);
    }
    next := Added(state, Registers(a, b, c, d));
  }

  /** Four operations on registers that stay put are four steps with registers that change roles. */
  lemma FourSteps(i: nat, r: Registers, start: Registers, x: seq<Word32>)
    requires i + 4 <= 64 && |x| == 16 && r == Steps(i, start, x)
    ensures var a := Operation(i, r.a, r.b, r.c, r.d, x);
            var d := Operation(i + 1, r.d, a, r.b, r.c, x);
            var c := Operation(i + 2, r.c, d, a, r.b, x);
            var b := Operation(i + 3, r.b, c, d, a, x);
            Registers(a, b, c, d) == Steps(i + 4, start, x)
  {
    hide Operation;
    assert Steps(i + 1, start, x) == Step(i, r, x);
    assert Steps(i + 2, start, x) == Step(i + 1, Steps(i + 1, start, x), x);
    assert Steps(i + 3, start, x) == Step(i + 2, Steps(i + 2, start, x), x);
    assert Steps(i + 4, start, x) == Step(i + 3, Steps(i + 3, start, x), x);
  }

  lemma NoSteps(start: Registers, x: seq<Word32>)
    requires |x| == 16
    ensures Steps(0, start, x) == start
  {
  }

  lemma PadLengthFrom(n: nat)
    ensures PadLength(n) == if n % 64 < 56 then 56 - n % 64 else 120 - n % 64
  {
  }

  lemma WholeIfAligned(message: seq<Byte>)
    requires |message| % 64 == 0
    ensures Whole(message) == message
  {
  }

  lemma CountIsBitLength(count: Count, n: nat)
    requires count.Valid() && count.Bits() == 8 * n % (W * W)
    ensures [count.low as bv32, count.high as bv32] == BitLength(n)
  {
    assert count.Bits() / W == count.high && count.Bits() % W == count.low;
  }

  /** `(count[0] >> 3) & 0x3F` is the number of bytes waiting in the buffer. */
  lemma BufferedBytes(count: Count, n: nat)
    requires count.Valid() && count.Bits() == 8 * n % (W * W)
    ensures count.low / 8 % 64 == n % 64
  {
    var p := 8 * n / (W * W);
    assert 8 * n == p * (W * W) + count.low + W * count.high;
    var rest := n - 0x2000_0000 * count.high - p * (W * W / 8);
    assert count.low == 8 * rest;
    assert n == 64 * (p * (W * W / 512) + 0x80_0000 * count.high) + rest;
  }

  lemma InsideInput(index: nat, inputLen: nat, i: nat)
    requires index < 64 && i + 64 <= inputLen && 64 - index <= i && (i - (64 - index)) % 64 == 0
    ensures i + 64 <= StopIndex(index, inputLen)
  {
  }

  /** The loop goes on with less than a block left only if its test has wrapped at the last index. */
  lemma PastInput(index: nat, inputLen: nat, i: nat)
    requires index < 64 && inputLen < W && (i + 63) % W < inputLen < i + 64
    requires 64 - index <= i <= StopIndex(index, inputLen) && (i - (64 - index)) % 64 == 0
    ensures i == StopIndex(index, inputLen) && !StopsInTime(index, inputLen)
  {
    assert i + 63 >= W;
  }

  lemma OnlyAtStop(index: nat, inputLen: nat, i: nat)
    requires index < 64 && inputLen < W && !((i + 63) % W < inputLen)
    requires 64 - index <= i <= StopIndex(index, inputLen) && (i - (64 - index)) % 64 == 0
    ensures i == StopIndex(index, inputLen) && inputLen - i < 64 && StopsInTime(index, inputLen)
  {
    assert i + 63 < W;
  }

  lemma NothingToStop(index: nat, inputLen: nat)
    requires index < 64 && inputLen < 64 - index
    ensures StopsInTime(index, inputLen)
  {
  }

  // ----- any way of cutting a message into pieces

  /** For every list of pieces, each shorter than 2^32 - 63 bytes: updating piece by piece and then
      finishing gives the digest of the pieces joined into one message. */
  method HashPieces(pieces: seq<seq<Byte>>) returns (digest: seq<Byte>)
    requires forall i :: 0 <= i < |pieces| ==> |pieces[i]| < W - 63
    ensures digest == Digest(Joined(pieces))
  {
    hide Digest, Compress, Fold;
    var md5 := new MD5();
    for i := 0 to |pieces|
      invariant md5.Valid() && fresh(md5) && fresh(md5.state) && fresh(md5.buffer)
      invariant md5.message == Joined(pieces[..i])
    {
      ShortPiecesStop(|md5.message| % 64, |pieces[i]|);
      var ok := md5.Update(pieces[i]);
      assert pieces[..i + 1][..i] == pieces[..i];
    }
    assert pieces[..|pieces|] == pieces;
    digest := md5.Final();
  }
}
