/** Buffers of bytes rewritten in place eight bytes at a time. */
module BlockBuffers {

  /** What happens to one eight-byte block. */
  type BlockMap = seq<bv8> -> seq<bv8>

  ghost predicate OnBlocks(f: BlockMap) {
    forall block :: |block| == 8 ==> |f(block)| == 8
  }

  function Slice(buf: seq<bv8>, n: nat): (block: seq<bv8>)
    requires 8 * n + 8 <= |buf|
    ensures |block| == 8
  {
    buf[8 * n..8 * n + 8]
  }

  /** The first n blocks of a buffer replaced; every other byte as it was. */
  ghost function MapBlocks(f: BlockMap, buf: seq<bv8>, n: nat): (r: seq<bv8>)
    requires OnBlocks(f) && 8 * n <= |buf|
    ensures |r| == |buf|
  {
    seq(|buf|, i requires 0 <= i < |buf| => if i < 8 * n then f(Slice(buf, i / 8))[i % 8] else buf[i])
  }

  /** Whole blocks in the first `length` bytes. */
  function WholeBlocks(length: int): (n: nat)
    ensures length >= 0 ==> 8 * n <= length < 8 * n + 8
    ensures length < 8 ==> n == 0
  {
    if length < 8 then 0 else length / 8
  }

  lemma MappedSlice(f: BlockMap, buf: seq<bv8>, n: nat, k: nat)
    requires OnBlocks(f) && 8 * n <= |buf| && k < n
    ensures Slice(MapBlocks(f, buf, n), k) == f(Slice(buf, k))
  {
    var block := f(Slice(buf, k));
    forall i | 0 <= i < 8
      ensures Slice(MapBlocks(f, buf, n), k)[i] == block[i]
    {
      assert (8 * k + i) / 8 == k && (8 * k + i) % 8 == i;
    }
  }

  lemma NoBlocks(f: BlockMap, buf: seq<bv8>)
    requires OnBlocks(f)
    ensures MapBlocks(f, buf, 0) == buf
  {
  }

  /** Rewriting block n of a buffer whose first n blocks are done. */
  lemma OneMoreBlock(f: BlockMap, buf: seq<bv8>, n: nat)
    requires OnBlocks(f) && 8 * n + 8 <= |buf|
    ensures MapBlocks(f, buf, n)[8 * n..8 * n + 8] == Slice(buf, n)
    ensures MapBlocks(f, buf, n + 1) ==
            MapBlocks(f, buf, n)[..8 * n] + f(Slice(buf, n)) + MapBlocks(f, buf, n)[8 * n + 8..]
  {
    var next := MapBlocks(f, buf, n + 1);
    forall i | 8 * n <= i < 8 * n + 8
      ensures next[i] == f(Slice(buf, n))[i - 8 * n]
    {
      assert i / 8 == n && i % 8 == i - 8 * n;
    }
  }

  /** If g takes back what f does to a block, it does so on every buffer, block by block. */
  lemma MapUndone(f: BlockMap, g: BlockMap, buf: seq<bv8>, n: nat)
    requires OnBlocks(f) && OnBlocks(g) && 8 * n <= |buf|
    requires forall block :: |block| == 8 ==> g(f(block)) == block
    ensures MapBlocks(g, MapBlocks(f, buf, n), n) == buf
  {
    var mapped := MapBlocks(f, buf, n);
    forall i | 0 <= i < |buf|
      ensures MapBlocks(g, mapped, n)[i] == buf[i]
    {
      if i < 8 * n {
        MappedSlice(f, buf, n, i / 8);
        assert g(f(Slice(buf, i / 8))) == Slice(buf, i / 8);
      }
    }
  }

  /** The bytes past the last whole block are left alone. */
  lemma TailUntouched(f: BlockMap, buf: seq<bv8>, length: nat)
    requires OnBlocks(f) && length <= |buf|
    ensures MapBlocks(f, buf, WholeBlocks(length))[length - length % 8..] == buf[length - length % 8..]
  {
    assert 8 * WholeBlocks(length) == length - length % 8;
  }

  /** Puts a block into the buffer. */
  method StoreBlock(buf: array<bv8>, at: nat, block: seq<bv8>)
    requires at + 8 <= buf.Length && |block| == 8
    modifies buf
    ensures buf[..] == old(buf[..])[..at] + block + old(buf[..])[at + 8..]
  {
    for i := 0 to 8
      invariant forall k :: 0 <= k < buf.Length ==> buf[k] == if at <= k < at + i then block[k - at] else old(buf[k])
    {
      buf[at + i] := block[i];
    }
  }
}
