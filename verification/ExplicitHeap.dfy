/** The bump allocator of memExplicitHeap.cpp: aligned pieces dished out of large blocks, with new
    blocks added when one is used up. Every field is a 32-bit word and every operation the machine's,
    so the count of remaining bytes wraps; 0 is NULL. */
module ExplicitHeap {
  import opened Arithmetic
  import opened LittleEndian
  import opened MachineWords

  /** The fields: m_pNextAvailable, m_iBytesRemaining, m_alignmentMask, m_iAlignment, m_bGrowable,
      m_iHeapSize and m_heaps. */
  datatype Heap = Heap(
    next: Word32, remaining: Word32, mask: Word32, alignment: Word32,
    growable: bool, heapSize: Word32, heaps: seq<Word32>)

  /** `AddHeapBlock`, when MallocAligned answers `block`. */
  function AddHeapBlock(h: Heap, block: Word32): Heap {
    if block == 0 then h
    else h.(next := block, remaining := h.heapSize, heaps := h.heaps + [block])
  }

  /** The next address once aligned. */
  function Start(h: Heap): Word32 {
    Masked(h.next, h.mask)
  }

  /** The bytes are taken off the remaining count whether or not the call succeeds. */
  function TakenOff(h: Heap, size: Word32): Heap {
    h.(remaining := Minus(h.remaining, Plus(Minus(Start(h), h.next), size)))
  }

  /** The count does not go below zero, so the current block serves. */
  predicate Serves(h: Heap, size: Word32) {
    !Negative(TakenOff(h, size).remaining)
  }

  /** `New`: the address handed out (0 for none) and the heap afterwards. */
  function New(h: Heap, size: Word32, block: Word32): (r: (Word32, Heap)) {
    if Serves(h, size) then (Start(h), TakenOff(h, size).(next := Plus(Start(h), size)))
    else if !h.growable || block == 0 then (0, TakenOff(h, size))
    else
      var grown := AddHeapBlock(TakenOff(h, size), block);
      (block, grown.(remaining := Minus(grown.remaining, size), next := Plus(block, size)))
  }

  /** The object, with the fields updated one after another. */
  class MemExplicitHeap {
    var m_pNextAvailable: Word32
    var m_iBytesRemaining: Word32
    var m_alignmentMask: Word32
    var m_bGrowable: bool
    var m_iAlignment: Word32
    var m_iHeapSize: Word32
    var m_heaps: seq<Word32>

    ghost function View(): Heap
      reads this
    {
      Heap(m_pNextAvailable, m_iBytesRemaining, m_alignmentMask, m_iAlignment, m_bGrowable, m_iHeapSize, m_heaps)
    }

    constructor ()
      ensures View() == Heap(0, 0, 0, 8, false, 0, [])
    {
      m_pNextAvailable, m_iBytesRemaining, m_alignmentMask := 0, 0, 0;
      m_bGrowable, m_iAlignment, m_iHeapSize, m_heaps := false, 8, 0, [];
    }

    /** The mask is left as it was. */
    method Release()
      modifies this
      ensures View() == Heap(0, 0, old(m_alignmentMask), 8, false, 0, [])
    {
      m_heaps := [];
      m_pNextAvailable, m_iBytesRemaining, m_bGrowable, m_iAlignment, m_iHeapSize := 0, 0, false, 8, 0;
    }

    method AllocateHeap(initialSize: Word32, alignment: Word32, growable: bool, block: Word32) returns (ok: bool)
      modifies this
      ensures View() == AddHeapBlock(Heap(0, 0, Minus(alignment, 1), alignment, growable, initialSize, []), block)
      ensures ok == (block != 0)
    {
      Release();
      m_bGrowable := growable;
      m_iAlignment := alignment;
      m_alignmentMask := Minus(alignment, 1);
      m_iHeapSize := initialSize;
      var p := AddBlock(block);
      ok := p != 0;
    }

    method AddBlock(block: Word32) returns (p: Word32)
      modifies this
      ensures p == block && View() == AddHeapBlock(old(View()), block)
    {
      p := block;
      if p != 0 {
        m_pNextAvailable := p;
        m_iBytesRemaining := m_iHeapSize;
        m_heaps := m_heaps + [p];
      }
    }

    method NewBytes(size: Word32, block: Word32) returns (p: Word32)
      modifies this
      ensures (p, View()) == New(old(View()), size, block)
    {
      hide Masked, Plus, Minus, Negative, Serves;
      p := TakeOff(size);
      if Negative(m_iBytesRemaining) {
        if m_bGrowable {
          p := AddBlock(block);
          if p == 0 {
            return;
          }
          m_iBytesRemaining := Minus(m_iBytesRemaining, size);
        } else {
          p := 0;
          return;
        }
      }
      m_pNextAvailable := Plus(p, size);
    }

    /** The first two steps of `New`. */
    method TakeOff(size: Word32) returns (p: Word32)
      modifies this
      ensures p == Start(old(View())) && View() == TakenOff(old(View()), size)
      ensures Negative(m_iBytesRemaining) <==> !Serves(old(View()), size)
    {
      hide Masked, Plus, Minus, Negative;
      p := Masked(m_pNextAvailable, m_alignmentMask);
      m_iBytesRemaining := Minus(m_iBytesRemaining, Plus(Minus(p, m_pNextAvailable), size));
    }
  }

  // ----- one call in numbers

  /** The count as the signed word it is. */
  function Count(remaining: Word32): (c: int) {
    if Num(remaining) < HALF then Num(remaining) else Num(remaining) - W
  }

  /** What a call takes off: the bytes skipped to align, and the size. */
  function Taken(h: Heap, size: Word32): nat {
    Num(Minus(Start(h), h.next)) + Num(size)
  }

  /** The count after a call is the difference, brought back into the signed range. */
  lemma CountAfter(h: Heap, size: Word32)
    ensures var c := Count(h.remaining) - Taken(h, size);
            Count(TakenOff(h, size).remaining) == if c >= -HALF then c else if c >= -HALF - W then c + W else c + 2 * W
    ensures Serves(h, size) <==> Count(TakenOff(h, size).remaining) >= 0
    ensures -HALF <= Count(h.remaining) < HALF
  {
    hide Num, Plus, Minus, Negative, Start;
    var pad := Minus(Start(h), h.next);
    NumOfPlus(pad, size);
    NumOfMinus(h.remaining, Plus(pad, size));
    NegativeIff(TakenOff(h, size).remaining);
    NumOfNot(h.remaining);
    NumOfNot(pad);
    NumOfNot(size);
    NumOfNot(TakenOff(h, size).remaining);
  }

  /** Served, although more is taken off than remained: the count has wrapped. */
  ghost predicate Overruns(h: Heap, size: Word32) {
    Serves(h, size) && Taken(h, size) > Count(h.remaining)
  }

  /** Exactly when the count wraps into a success, short of a whole turn: more is taken off than the
      count plus 2^31. */
  lemma OverrunsIff(h: Heap, size: Word32)
    requires Taken(h, size) <= Count(h.remaining) + W
    ensures Overruns(h, size) <==> Taken(h, size) > Count(h.remaining) + HALF
  {
    hide Num, Serves, TakenOff, Taken;
    CountAfter(h, size);
  }

  // ----- any sequence of calls

  /** A piece of memory handed out, or a block. */
  datatype Region = Region(at: nat, size: nat) {
    function End(): nat { at + size }
  }

  ghost predicate Apart(a: Region, b: Region) {
    a.End() <= b.at || b.End() <= a.at
  }

  ghost predicate Within(a: Region, b: Region) {
    b.at <= a.at && a.End() <= b.End()
  }

  function Block(h: Heap, k: nat): Region
    requires k < |h.heaps|
  {
    Region(Num(h.heaps[k]), Num(h.heapSize))
  }

  function Last(h: Heap): Region
    requires |h.heaps| > 0
  {
    Block(h, |h.heaps| - 1)
  }

  /** A call of New, and what MallocAligned would answer during it. */
  datatype Request = Request(size: Word32, block: Word32)

  /** The heap after some calls, and the regions handed out. */
  datatype Result = Result(heap: Heap, regions: seq<Region>)

  function Answered(r: Result, request: Request): (r': Result) {
    var (at, after) := New(r.heap, request.size, request.block);
    Result(after, if at == 0 then r.regions else r.regions + [Region(Num(at), Num(request.size))])
  }

  function Serve(h: Heap, requests: seq<Request>): Result {
    if requests == [] then Result(h, [])
    else Answered(Serve(h, requests[..|requests| - 1]), requests[|requests| - 1])
  }

  /** A multiple of the alignment, if that is a power of two; nothing is said of other alignments. */
  ghost predicate Aligned(alignment: Word32, at: nat) {
    PowerOfTwo(alignment) ==> Num(alignment) > 0 && at % Num(alignment) == 0
  }

  /** What MallocAligned promises about a block: aligned, with room above it to align in, and apart
      from the blocks in use. */
  ghost predicate GoodBlock(h: Heap, block: Word32) {
    block != 0 ==>
      && Num(block) + Num(h.heapSize) + Num(h.mask) < W
      && Aligned(h.alignment, Num(block))
      && forall k :: 0 <= k < |h.heaps| ==> Apart(Block(h, k), Region(Num(block), Num(h.heapSize)))
  }

  /** Blocks are apart, with room above them, and the mask is that of the alignment. */
  ghost predicate SoundBlocks(h: Heap) {
    && (h.growable || |h.heaps| > 0 ==> h.mask == Minus(h.alignment, 1))
    && (forall k, l :: 0 <= k < l < |h.heaps| ==> Apart(Block(h, k), Block(h, l)))
    && forall k :: 0 <= k < |h.heaps| ==> h.heaps[k] != 0 && Block(h, k).End() + Num(h.mask) < W
  }

  /** A count that is not negative reaches from the next address to the end of the last block. */
  ghost predicate SoundCount(h: Heap) {
    && (|h.heaps| == 0 ==> h.next == 0 && Count(h.remaining) <= 0)
    && (|h.heaps| > 0 ==> Last(h).at <= Num(h.next) <= Last(h).End())
    && (|h.heaps| > 0 && Count(h.remaining) >= 0 ==> Num(h.next) + Count(h.remaining) == Last(h).End())
  }

  ghost predicate Sound(h: Heap) {
    SoundBlocks(h) && SoundCount(h)
  }

  /** In block k, and before the next address if that is the last block. */
  ghost predicate InBlock(h: Heap, region: Region, k: nat)
    requires k < |h.heaps|
  {
    Within(region, Block(h, k)) && (k == |h.heaps| - 1 ==> region.End() <= Num(h.next))
  }

  /** A region is inside a block and aligned. */
  ghost predicate Placed(h: Heap, region: Region) {
    Aligned(h.alignment, region.at) && exists k: nat :: k < |h.heaps| && InBlock(h, region, k)
  }

  ghost predicate Good(r: Result) {
    && Sound(r.heap)
    && (forall i :: 0 <= i < |r.regions| ==> Placed(r.heap, r.regions[i]))
    && forall i, j :: 0 <= i < j < |r.regions| ==> Apart(r.regions[i], r.regions[j])
  }

  /** A new block is wanted and there is one. */
  predicate Grows(h: Heap, size: Word32, block: Word32) {
    !Serves(h, size) && h.growable && block != 0
  }

  /** What a call must keep to: the count does not wrap into a success, and a size that makes the
      heap grow fits the block. */
  ghost predicate Kept(h: Heap, size: Word32, block: Word32) {
    !Overruns(h, size) && (Grows(h, size, block) ==> Num(size) <= Num(h.heapSize))
  }

  /** What AllocateHeap leaves is sound, whether or not it got its block. */
  lemma AllocatedIsSound(h: Heap, block: Word32)
    requires h.next == h.remaining == 0 && |h.heaps| == 0 && h.mask == Minus(h.alignment, 1) && GoodBlock(h, block)
    ensures Sound(AddHeapBlock(h, block))
  {
    hide Num, Minus, Aligned;
    NumOfZero();
    NumOfNot(h.heapSize);
    NumOfNot(h.mask);
    if block != 0 {
      assert AddHeapBlock(h, block).heaps == [block];
    }
  }

  /** The three ways a call can go. */
  lemma NewShape(h: Heap, size: Word32, block: Word32)
    ensures Serves(h, size) ==> New(h, size, block) == (Start(h), TakenOff(h, size).(next := Plus(Start(h), size)))
    ensures Grows(h, size, block) ==>
              New(h, size, block) ==
              (block, h.(next := Plus(block, size), remaining := Minus(h.heapSize, size), heaps := h.heaps + [block]))
    ensures !Serves(h, size) && !Grows(h, size, block) ==> New(h, size, block) == (0, TakenOff(h, size))
  {
    hide Plus, Minus, Start, Serves;
  }

  /** The start of a region served: up from the next address by what is skipped. */
  lemma StartInNumbers(h: Heap)
    requires Num(h.next) + Num(h.mask) < W
    ensures Num(Start(h)) == Num(h.next) + Num(Minus(Start(h), h.next))
    ensures Num(Start(h)) <= Num(h.next) + Num(h.mask)
  {
    hide Num, Minus, Masked;
    MaskedStep(h.next, h.mask);
    NumOfMinus(Start(h), h.next);
    NumOfNot(Start(h));
    NumOfNot(h.next);
  }

  lemma StartIsAligned(h: Heap)
    requires h.mask == Minus(h.alignment, 1)
    ensures Aligned(h.alignment, Num(Start(h)))
  {
    hide Num, Minus, Masked, PowerOfTwo;
    if PowerOfTwo(h.alignment) {
      MaskedRoundsUp(h.next, h.alignment);
    }
  }

  /** A heap without a block hands out nothing. */
  lemma NoBlockServes(h: Heap, size: Word32)
    requires Sound(h) && |h.heaps| == 0 && Serves(h, size) && !Overruns(h, size)
    ensures size == 0 && Start(h) == 0 && Plus(Start(h), size) == 0
    ensures Count(TakenOff(h, size).remaining) == 0
  {
    hide Num, Plus, Minus, Serves, TakenOff, Masked;
    CountAfter(h, size);
    NumIsZeroIff(size);
    NumOfZero();
    StartOfNull(h);
  }

  lemma StartOfNull(h: Heap)
    requires h.next == 0
    ensures Start(h) == 0 && Plus(0, 0) == 0
  {
  }

  /** What soundness says of a heap with a block, in numbers. */
  lemma SoundFacts(h: Heap)
    requires Sound(h) && |h.heaps| > 0
    ensures h.mask == Minus(h.alignment, 1)
    ensures 0 < Last(h).at <= Num(h.next) <= Last(h).End() == Last(h).at + Num(h.heapSize)
    ensures Last(h).End() + Num(h.mask) < W
    ensures Count(h.remaining) >= 0 ==> Num(h.next) + Count(h.remaining) == Last(h).End()
  {
    hide Num, Minus;
    NumIsZeroIff(h.heaps[|h.heaps| - 1]);
  }

  /** The same blocks stay sound. */
  lemma SameBlocksKept(h: Heap, after: Heap)
    requires SoundBlocks(h)
    requires after.heaps == h.heaps && after.heapSize == h.heapSize && after.mask == h.mask
    requires after.alignment == h.alignment && after.growable == h.growable
    ensures SoundBlocks(after) && |after.heaps| == |h.heaps|
    ensures forall k :: 0 <= k < |h.heaps| ==> Block(after, k) == Block(h, k)
  {
    hide Num, Minus, Apart;
    assert forall k :: 0 <= k < |h.heaps| ==> Block(after, k) == Block(h, k);
  }

  lemma CountKept(after: Heap, last: Region)
    requires |after.heaps| > 0 && Last(after) == last && last.at <= Num(after.next) <= last.End()
    requires Count(after.remaining) >= 0 ==> Num(after.next) + Count(after.remaining) == last.End()
    ensures SoundCount(after)
  {
    hide Num, Count, Last;
  }

  lemma SoundHasBlocks(h: Heap)
    requires Sound(h)
    ensures SoundBlocks(h)
  {
    hide SoundBlocks, SoundCount;
  }

  /** A heap with the same blocks and a count that reaches to the end of the last, or is below zero. */
  lemma SameBlocksSound(h: Heap, after: Heap)
    requires Sound(h) && |h.heaps| > 0
    requires after.heaps == h.heaps && after.heapSize == h.heapSize && after.mask == h.mask
    requires after.alignment == h.alignment && after.growable == h.growable
    requires Last(h).at <= Num(after.next) <= Last(h).End()
    requires Count(after.remaining) >= 0 ==> Num(after.next) + Count(after.remaining) == Last(h).End()
    ensures Sound(after) && Last(after) == Last(h)
  {
    hide Num, Minus, Count, SoundBlocks, SoundCount;
    SoundHasBlocks(h);
    SameBlocksKept(h, after);
    CountKept(after, Last(h));
  }

  /** A call served from what remains: next address and count move by what is taken off. */
  lemma ServedInNumbers(h: Heap, size: Word32)
    requires Sound(h) && |h.heaps| > 0 && Serves(h, size) && !Overruns(h, size)
    ensures Num(Start(h)) + Num(size) == Num(h.next) + Taken(h, size) == Num(Plus(Start(h), size)) <= Last(h).End()
    ensures Count(TakenOff(h, size).remaining) == Count(h.remaining) - Taken(h, size)
    ensures Last(h).at <= Num(h.next) <= Num(Start(h)) && Start(h) != 0
  {
    hide Num, Plus, Serves, TakenOff, Start, Sound, Last, Count;
    CountAfter(h, size);
    SoundFacts(h);
    StartInNumbers(h);
    NumOfPlus(Start(h), size);
    NumIsZeroIff(Start(h));
  }

  /** A call served from a new block. */
  lemma GrownInNumbers(h: Heap, size: Word32, block: Word32)
    requires GoodBlock(h, block) && block != 0 && Num(size) <= Num(h.heapSize)
    ensures Num(Plus(block, size)) == Num(block) + Num(size)
    ensures Num(Minus(h.heapSize, size)) == Num(h.heapSize) - Num(size)
  {
    hide Num, Plus, Minus, Aligned;
    NumOfPlus(block, size);
    NumOfMinus(h.heapSize, size);
    NumOfNot(h.mask);
  }

  lemma ServedKeepsSound(h: Heap, size: Word32, block: Word32)
    requires Sound(h) && Serves(h, size) && !Overruns(h, size)
    ensures Sound(New(h, size, block).1)
    ensures New(h, size, block).0 != 0 ==> |h.heaps| > 0
  {
    hide Num, Plus, Minus, Start, Serves, Overruns, Count, Sound, New;
    NewShape(h, size, block);
    if |h.heaps| == 0 {
      NoBlockServes(h, size);
      NoBlockSound(h, New(h, size, block).1);
    } else {
      ServedInNumbers(h, size);
      SoundFacts(h);
      CountAfter(h, size);
      SameBlocksSound(h, New(h, size, block).1);
    }
  }

  lemma NoBlockSound(h: Heap, after: Heap)
    requires Sound(h) && |h.heaps| == 0 && |after.heaps| == 0 && after.next == 0 && Count(after.remaining) <= 0
    requires after.mask == h.mask && after.alignment == h.alignment && after.growable == h.growable
    ensures Sound(after)
  {
    hide Num, Minus, Count;
  }

  lemma OneMoreBlock(h: Heap, block: Word32, after: Heap)
    requires SoundBlocks(h) && GoodBlock(h, block) && block != 0 && h.growable
    requires after == h.(next := after.next, remaining := after.remaining, heaps := h.heaps + [block])
    ensures SoundBlocks(after) && Last(after) == Region(Num(block), Num(h.heapSize))
    ensures forall k :: 0 <= k < |h.heaps| ==> Block(after, k) == Block(h, k)
  {
    hide Num, Minus, Aligned, Apart;
    forall k | 0 <= k < |h.heaps|
      ensures Block(after, k) == Block(h, k)
    {
      assert after.heaps[k] == h.heaps[k];
    }
    assert after.heaps[|h.heaps|] == block;
  }

  lemma FreshCount(h: Heap, n: nat)
    requires |h.heaps| > 0 && n <= Num(h.heapSize)
    requires Num(h.next) == Last(h).at + n && Num(h.remaining) == Num(h.heapSize) - n
    ensures SoundCount(h)
  {
    hide Num;
    NumOfNot(h.remaining);
  }

  lemma GrownKeepsSound(h: Heap, size: Word32, block: Word32)
    requires Sound(h) && GoodBlock(h, block) && Grows(h, size, block) && Num(size) <= Num(h.heapSize)
    ensures Sound(New(h, size, block).1)
  {
    hide Num, Plus, Minus, Start, Serves, SoundBlocks, SoundCount, GoodBlock, Block, Last;
    GrownInNumbers(h, size, block);
    NumOfNot(size);
    var after := New(h, size, block).1;
    assert after.heaps == h.heaps + [block] && |after.heaps| > 0;
    OneMoreBlock(h, block, after);
    FreshCount(after, Num(size));
  }

  lemma RefusedKeepsSound(h: Heap, size: Word32, block: Word32)
    requires Sound(h) && !Serves(h, size) && !Grows(h, size, block)
    ensures Sound(New(h, size, block).1)
  {
    hide Num, Plus, Minus, Start, Serves, Count, Sound, New, Grows;
    NewShape(h, size, block);
    CountAfter(h, size);
    if |h.heaps| == 0 {
      NullNext(h);
      NoBlockSound(h, New(h, size, block).1);
    } else {
      SoundFacts(h);
      SameBlocksSound(h, New(h, size, block).1);
    }
  }

  lemma NullNext(h: Heap)
    requires Sound(h) && |h.heaps| == 0
    ensures h.next == 0
  {
  }

  lemma NewKeepsSound(h: Heap, size: Word32, block: Word32)
    requires Sound(h) && GoodBlock(h, block) && Kept(h, size, block)
    ensures Sound(New(h, size, block).1)
    ensures New(h, size, block).0 != 0 ==> |New(h, size, block).1.heaps| > 0
  {
    hide Num, Plus, Minus, Start, Serves, Overruns, Sound, GoodBlock;
    if Serves(h, size) {
      ServedKeepsSound(h, size, block);
    } else if Grows(h, size, block) {
      GrownKeepsSound(h, size, block);
    } else {
      RefusedKeepsSound(h, size, block);
    }
  }

  // ----- the regions

  /** A region placed before stays placed, whether the heap grows, fails or just moves on. */
  lemma PlacedStays(h: Heap, size: Word32, block: Word32, region: Region)
    requires Sound(h) && Kept(h, size, block) && Placed(h, region)
    ensures Placed(New(h, size, block).1, region)
  {
    hide Num, Plus, Minus, Start, Serves, TakenOff, Sound, Aligned;
    var k: nat :| k < |h.heaps| && InBlock(h, region, k);
    var after := New(h, size, block).1;
    SameBlock(h, size, block, k);
    if Serves(h, size) {
      ServedInNumbers(h, size);
    }
    assert InBlock(after, region, k);
  }

  lemma SameBlock(h: Heap, size: Word32, block: Word32, k: nat)
    requires k < |h.heaps|
    ensures k < |New(h, size, block).1.heaps| && Block(New(h, size, block).1, k) == Block(h, k)
    ensures New(h, size, block).1.alignment == h.alignment
    ensures |New(h, size, block).1.heaps| == if Grows(h, size, block) then |h.heaps| + 1 else |h.heaps|
    ensures !Serves(h, size) && !Grows(h, size, block) ==> New(h, size, block).1.next == h.next
  {
    hide Num, Plus, Minus, Start, Serves, Grows, New;
    NewShape(h, size, block);
  }

  lemma ServedInBlock(h: Heap, size: Word32, after: Heap)
    requires Sound(h) && Serves(h, size) && !Overruns(h, size) && |h.heaps| > 0
    requires after.heaps == h.heaps && after.heapSize == h.heapSize && after.next == Plus(Start(h), size)
    ensures InBlock(after, Region(Num(Start(h)), Num(size)), |h.heaps| - 1)
  {
    hide Num, Plus, Minus, Start, Serves, Overruns, Sound, TakenOff, Taken;
    ServedInNumbers(h, size);
  }

  lemma ServedIsAligned(h: Heap)
    requires Sound(h) && |h.heaps| > 0
    ensures Aligned(h.alignment, Num(Start(h)))
  {
    hide Num, Minus, Start, Aligned;
    StartIsAligned(h);
  }

  lemma ServedIsPlaced(h: Heap, size: Word32, after: Heap)
    requires Sound(h) && Serves(h, size) && !Overruns(h, size) && |h.heaps| > 0
    requires after.heaps == h.heaps && after.heapSize == h.heapSize && after.alignment == h.alignment
    requires after.next == Plus(Start(h), size)
    ensures Placed(after, Region(Num(Start(h)), Num(size)))
  {
    hide Num, Plus, Start, Serves, Aligned, Overruns, Sound, InBlock, Placed;
    ServedInBlock(h, size, after);
    ServedIsAligned(h);
    LastIsPlaced(after, Region(Num(Start(h)), Num(size)));
  }

  lemma GrownIsPlaced(h: Heap, size: Word32, block: Word32)
    requires GoodBlock(h, block) && Grows(h, size, block) && Num(size) <= Num(h.heapSize)
    ensures Placed(h.(next := Plus(block, size), remaining := Minus(h.heapSize, size), heaps := h.heaps + [block]),
                   Region(Num(block), Num(size)))
  {
    hide Num, Plus, Minus, Start, Serves, Aligned;
    GrownInNumbers(h, size, block);
    var after := h.(next := Plus(block, size), remaining := Minus(h.heapSize, size), heaps := h.heaps + [block]);
    assert Block(after, |h.heaps|) == Region(Num(block), Num(h.heapSize));
    LastIsPlaced(after, Region(Num(block), Num(size)));
  }

  /** A new region lies inside the last block, before the next address, and is aligned. */
  lemma NewIsPlaced(h: Heap, size: Word32, block: Word32)
    requires Sound(h) && GoodBlock(h, block) && Kept(h, size, block) && New(h, size, block).0 != 0
    ensures Placed(New(h, size, block).1, Region(Num(New(h, size, block).0), Num(size)))
  {
    hide Num, Plus, Minus, Start, Serves, New, Sound, Overruns, GoodBlock, Placed;
    NewShape(h, size, block);
    if Serves(h, size) {
      ServedKeepsSound(h, size, block);
      ServedIsPlaced(h, size, New(h, size, block).1);
    } else {
      GrownIsPlaced(h, size, block);
    }
  }

  lemma LastIsPlaced(h: Heap, region: Region)
    requires |h.heaps| > 0 && InBlock(h, region, |h.heaps| - 1) && Aligned(h.alignment, region.at)
    ensures Placed(h, region)
  {
    hide Num, InBlock, Aligned;
  }

  lemma BlocksApart(h: Heap, k: nat)
    requires Sound(h) && k + 1 < |h.heaps|
    ensures Apart(Block(h, k), Last(h))
  {
    hide Num, Minus, SoundCount, Count;
  }

  lemma NewBlockApart(h: Heap, block: Word32, k: nat)
    requires GoodBlock(h, block) && block != 0 && k < |h.heaps|
    ensures Apart(Block(h, k), Region(Num(block), Num(h.heapSize)))
  {
    hide Num, Aligned;
  }

  /** Behind everything placed in the last block, and apart from the other blocks. */
  lemma ServedIsApart(h: Heap, size: Word32, region: Region, k: nat)
    requires Sound(h) && |h.heaps| > 0 && Serves(h, size) && !Overruns(h, size)
    requires k < |h.heaps| && InBlock(h, region, k)
    ensures Apart(region, Region(Num(Start(h)), Num(size)))
  {
    hide Num, Plus, Start, Serves, Overruns, Sound, TakenOff, Taken, Count;
    ServedInNumbers(h, size);
    if k + 1 < |h.heaps| {
      BlocksApart(h, k);
    }
  }

  /** The new region is apart from every region placed before. */
  lemma NewIsApart(h: Heap, size: Word32, block: Word32, region: Region)
    requires Sound(h) && GoodBlock(h, block) && Kept(h, size, block) && New(h, size, block).0 != 0
    requires Placed(h, region)
    ensures Apart(region, Region(Num(New(h, size, block).0), Num(size)))
  {
    hide Num, Plus, Minus, Start, Serves, TakenOff, Aligned, New, Sound, GoodBlock, Overruns;
    NewShape(h, size, block);
    var k: nat :| k < |h.heaps| && InBlock(h, region, k);
    if Serves(h, size) {
      ServedIsApart(h, size, region, k);
    } else {
      NewBlockApart(h, block, k);
    }
  }

  // ----- whole runs

  lemma AnsweredKeepsGood(r: Result, request: Request)
    requires Good(r) && GoodBlock(r.heap, request.block) && Kept(r.heap, request.size, request.block)
    ensures Good(Answered(r, request))
  {
    hide Sound, Placed, New, GoodBlock, Apart, Kept, Num;
    NewKeepsSound(r.heap, request.size, request.block);
    forall i | 0 <= i < |r.regions|
      ensures Placed(New(r.heap, request.size, request.block).1, r.regions[i])
    {
      PlacedStays(r.heap, request.size, request.block, r.regions[i]);
    }
    if New(r.heap, request.size, request.block).0 != 0 {
      NewIsPlaced(r.heap, request.size, request.block);
      forall i | 0 <= i < |r.regions|
        ensures Apart(r.regions[i], Region(Num(New(r.heap, request.size, request.block).0), Num(request.size)))
      {
        NewIsApart(r.heap, request.size, request.block, r.regions[i]);
      }
    }
  }

  ghost predicate GoodBlocks(h: Heap, requests: seq<Request>) {
    forall i :: 0 <= i < |requests| ==> GoodBlock(Serve(h, requests[..i]).heap, requests[i].block)
  }

  /** Every call keeps to the two bounds. */
  ghost predicate AllKept(h: Heap, requests: seq<Request>) {
    forall i :: 0 <= i < |requests| ==> Kept(Serve(h, requests[..i]).heap, requests[i].size, requests[i].block)
  }

  lemma FrontOfRun(h: Heap, requests: seq<Request>)
    requires requests != [] && GoodBlocks(h, requests)
    ensures var front, last := requests[..|requests| - 1], requests[|requests| - 1];
            GoodBlocks(h, front) && GoodBlock(Serve(h, front).heap, last.block)
  {
    hide GoodBlock, Serve;
    var front := requests[..|requests| - 1];
    assert forall i :: 0 <= i <= |front| ==> front[..i] == requests[..i];
    forall i | 0 <= i < |front|
      ensures GoodBlock(Serve(h, front[..i]).heap, front[i].block)
    {
      assert GoodBlock(Serve(h, requests[..i]).heap, requests[i].block);
    }
    assert front[..|front|] == front;
  }

  lemma AllKeptFront(h: Heap, requests: seq<Request>)
    requires requests != []
    ensures var front, last := requests[..|requests| - 1], requests[|requests| - 1];
            AllKept(h, requests) <==> AllKept(h, front) && Kept(Serve(h, front).heap, last.size, last.block)
  {
    hide Kept, Serve;
    var front := requests[..|requests| - 1];
    assert forall i :: 0 <= i < |front| ==> front[..i] == requests[..i];
    if AllKept(h, requests) {
      assert Kept(Serve(h, requests[..|front|]).heap, requests[|front|].size, requests[|front|].block);
    }
  }

  /** For every sequence of calls that keeps to the bounds: all regions handed out lie inside an
      allocated block, are pairwise disjoint, aligned if the alignment is a power of two, and stay so
      when the heap grows. */
  lemma {:induction false} ServeIsGood(h: Heap, requests: seq<Request>)
    requires Sound(h) && GoodBlocks(h, requests) && AllKept(h, requests)
    ensures Good(Serve(h, requests))
  {
    hide Sound, New, Placed, Apart, GoodBlock, Kept, GoodBlocks, AllKept, Answered;
    if requests == [] {
    } else {
      FrontOfRun(h, requests);
      AllKeptFront(h, requests);
      ServeIsGood(h, requests[..|requests| - 1]);
      AnsweredKeepsGood(Serve(h, requests[..|requests| - 1]), requests[|requests| - 1]);
    }
  }

  /** Served by a count that wrapped: the count no longer reaches the end of the block. */
  lemma OverrunMiscounts(h: Heap, size: Word32)
    requires Sound(h) && |h.heaps| > 0 && Num(h.heapSize) < HALF && Overruns(h, size)
    ensures Start(h) != 0
    ensures Count(TakenOff(h, size).remaining) >= 0
    ensures Num(Start(h)) + Num(size) < W ==>
              Num(Plus(Start(h), size)) + Count(TakenOff(h, size).remaining) != Last(h).End()
  {
    hide Num, Plus, Minus, Start, Serves, Sound, TakenOff, Last, Count;
    CountAfter(h, size);
    SoundFacts(h);
    StartInNumbers(h);
    NumOfPlus(Start(h), size);
    NumIsZeroIff(Start(h));
  }

  lemma PlacedIsWord(h: Heap, region: Region)
    requires Sound(h) && Placed(h, region)
    ensures region.End() < W && region.size <= Num(h.heapSize)
  {
    hide Num, Minus, Aligned;
    var k: nat :| k < |h.heaps| && InBlock(h, region, k);
    NumOfNot(h.mask);
  }

  /** Such a region leaves its block, or leaves the count wrong. */
  lemma OverrunIsBad(h: Heap, size: Word32, block: Word32)
    requires Sound(h) && |h.heaps| > 0 && Num(h.heapSize) < HALF && Overruns(h, size)
    ensures New(h, size, block).0 == Start(h) != 0
    ensures !(Sound(New(h, size, block).1) && Placed(New(h, size, block).1, Region(Num(Start(h)), Num(size))))
  {
    hide Num, Plus, Minus, Start, Serves, Placed, New, Count, SoundBlocks;
    NewShape(h, size, block);
    OverrunMiscounts(h, size);
    var after := New(h, size, block).1;
    if Sound(after) && Placed(after, Region(Num(Start(h)), Num(size))) {
      PlacedIsWord(after, Region(Num(Start(h)), Num(size)));
    }
  }

  /** Exactly when one call keeps everything good: the count does not wrap into a success, and a size
      that makes the heap grow fits the block. */
  lemma AnsweredIsGoodIff(r: Result, request: Request)
    requires Good(r) && |r.heap.heaps| > 0 && Num(r.heap.heapSize) < HALF && GoodBlock(r.heap, request.block)
    ensures Good(Answered(r, request)) <==> Kept(r.heap, request.size, request.block)
  {
    hide Sound, Placed, New, GoodBlock, Apart, Num, Overruns, Serves;
    var h, size, block := r.heap, request.size, request.block;
    NewShape(h, size, block);
    var answered := Answered(r, request);
    if Kept(h, size, block) {
      AnsweredKeepsGood(r, request);
    } else if Overruns(h, size) {
      OverrunIsBad(h, size, block);
      assert answered.regions[|r.regions|] == Region(Num(Start(h)), Num(size));
    } else if Good(answered) {
      assert answered.regions[|r.regions|] == Region(Num(block), Num(size));
      PlacedIsWord(answered.heap, Region(Num(block), Num(size)));
      assert false;
    }
  }

  lemma NewKeepsShape(h: Heap, size: Word32, block: Word32)
    ensures var after := New(h, size, block).1;
            && after.heapSize == h.heapSize && after.growable == h.growable && after.mask == h.mask
            && |after.heaps| >= |h.heaps|
  {
    hide Serves, Plus, Minus, Start;
  }

  lemma {:induction false} ServeKeepsShape(h: Heap, requests: seq<Request>)
    ensures var after := Serve(h, requests).heap;
            && after.heapSize == h.heapSize && after.growable == h.growable && after.mask == h.mask
            && |after.heaps| >= |h.heaps|
  {
    hide New;
    if requests == [] {
    } else {
      var last := requests[|requests| - 1];
      ServeKeepsShape(h, requests[..|requests| - 1]);
      NewKeepsShape(Serve(h, requests[..|requests| - 1]).heap, last.size, last.block);
    }
  }

  ghost predicate AlwaysGood(h: Heap, requests: seq<Request>) {
    forall i :: 0 <= i <= |requests| ==> Good(Serve(h, requests[..i]))
  }

  lemma AlwaysGoodFront(h: Heap, requests: seq<Request>)
    requires requests != []
    ensures AlwaysGood(h, requests) <==> AlwaysGood(h, requests[..|requests| - 1]) && Good(Serve(h, requests))
  {
    hide Serve, Good;
    var front := requests[..|requests| - 1];
    assert forall i :: 0 <= i <= |front| ==> front[..i] == requests[..i];
    assert requests[..|requests|] == requests;
    if AlwaysGood(h, requests) {
      assert Good(Serve(h, requests[..|requests|]));
      forall i | 0 <= i <= |front|
        ensures Good(Serve(h, front[..i]))
      {
        assert Good(Serve(h, requests[..i]));
      }
    }
    if AlwaysGood(h, front) && Good(Serve(h, requests)) {
      forall i | 0 <= i <= |requests|
        ensures Good(Serve(h, requests[..i]))
      {
        assert i <= |front| ==> Good(Serve(h, front[..i]));
      }
    }
  }

  lemma WholeIsGood(h: Heap, requests: seq<Request>)
    requires AlwaysGood(h, requests)
    ensures Good(Serve(h, requests))
  {
    assert requests[..|requests|] == requests;
  }

  lemma NothingServed(h: Heap)
    requires Sound(h)
    ensures Good(Serve(h, [])) && AlwaysGood(h, []) && AllKept(h, [])
  {
    hide Sound;
  }

  /** Exactly when a run of calls is good all along: every call keeps to the two bounds. */
  lemma {:induction false} ServeIsGoodIff(h: Heap, requests: seq<Request>)
    requires Sound(h) && |h.heaps| > 0 && Num(h.heapSize) < HALF && GoodBlocks(h, requests)
    ensures AlwaysGood(h, requests) <==> AllKept(h, requests)
  {
    hide Sound, GoodBlocks, AllKept, Kept, GoodBlock, AlwaysGood, Answered, Good, Num;
    if requests == [] {
      NothingServed(h);
    } else {
      var front, last := requests[..|requests| - 1], requests[|requests| - 1];
      FrontOfRun(h, requests);
      AllKeptFront(h, requests);
      AlwaysGoodFront(h, requests);
      ServeIsGoodIff(h, front);
      ServeKeepsShape(h, front);
      if AlwaysGood(h, front) {
        WholeIsGood(h, front);
        AnsweredIsGoodIff(Serve(h, front), last);
      }
    }
  }

  // ----- a heap that can grow

  lemma TakenAtMost(h: Heap, size: Word32)
    ensures Taken(h, size) <= Num(h.mask) + Num(size)
  {
    hide Num, Minus, Masked;
    MaskedStep(h.next, h.mask);
  }

  /** A call of a growing heap that asks for no more than a block, and gets the block if it wants one. */
  ghost predicate Modest(h: Heap, request: Request) {
    request.block != 0 && Num(request.size) <= Num(h.heapSize)
  }

  ghost predicate AllModest(h: Heap, requests: seq<Request>) {
    forall i :: 0 <= i < |requests| ==> Modest(h, requests[i])
  }

  /** A growing heap between modest calls. */
  ghost predicate Growing(h: Heap) {
    && Sound(h) && |h.heaps| > 0 && h.growable && Count(h.remaining) >= 0
    && Num(h.heapSize) + Num(h.mask) < HALF
  }

  lemma ModestIsKept(h: Heap, request: Request)
    requires Growing(h) && Modest(h, request)
    ensures Kept(h, request.size, request.block)
  {
    hide Num, Serves, Taken, Overruns, Sound;
    CountAfter(h, request.size);
    TakenAtMost(h, request.size);
    OverrunsIff(h, request.size);
  }

  lemma ModestIsServed(h: Heap, request: Request)
    requires Growing(h) && GoodBlock(h, request.block) && Modest(h, request)
    ensures New(h, request.size, request.block).0 != 0
    ensures Growing(New(h, request.size, request.block).1)
  {
    hide Num, Plus, Minus, Start, Serves, Sound, Overruns, GoodBlock, New;
    var size, block := request.size, request.block;
    ModestIsKept(h, request);
    NewShape(h, size, block);
    NewKeepsShape(h, size, block);
    NewKeepsSound(h, size, block);
    CountAfter(h, size);
    if Serves(h, size) {
      ServedInNumbers(h, size);
    } else {
      GrownInNumbers(h, size, block);
    }
  }

  lemma AnsweredMore(r: Result, request: Request)
    requires New(r.heap, request.size, request.block).0 != 0
    ensures |Answered(r, request).regions| == |r.regions| + 1
    ensures Answered(r, request).heap == New(r.heap, request.size, request.block).1
  {
    hide New, Num;
  }

  /** For every sequence of calls of a growing heap with sizes up to the block size: the bounds are kept,
      so all is good, and every call is served. */
  lemma {:induction false} GrowingServesAll(h: Heap, requests: seq<Request>)
    requires Growing(h) && GoodBlocks(h, requests) && AllModest(h, requests)
    ensures AllKept(h, requests) && Good(Serve(h, requests))
    ensures |Serve(h, requests).regions| == |requests| && Growing(Serve(h, requests).heap)
  {
    hide Growing, GoodBlocks, AllKept, Kept, GoodBlock, Good, Answered, New, Num, Sound;
    GrowingIsSound(h);
    if requests == [] {
      NothingServed(h);
    } else {
      var front, last := requests[..|requests| - 1], requests[|requests| - 1];
      FrontOfRun(h, requests);
      AllKeptFront(h, requests);
      GrowingServesAll(h, front);
      ServeKeepsShape(h, front);
      ModestIsKept(Serve(h, front).heap, last);
      ModestIsServed(Serve(h, front).heap, last);
      AnsweredMore(Serve(h, front), last);
    }
    ServeIsGood(h, requests);
  }

  lemma GrowingIsSound(h: Heap)
    requires Growing(h)
    ensures Sound(h)
  {
  }

  // ----- a heap that cannot grow

  /** All that a run takes off. */
  function TotalTaken(h: Heap, requests: seq<Request>): nat {
    if requests == [] then 0
    else
      var front := requests[..|requests| - 1];
      TotalTaken(h, front) + Taken(Serve(h, front).heap, requests[|requests| - 1].size)
  }

  /** Up to the bound the count is what is left of it. */
  lemma {:induction false} CountRuns(h: Heap, requests: seq<Request>)
    requires !h.growable && TotalTaken(h, requests) <= Count(h.remaining) + HALF
    ensures Count(Serve(h, requests).heap.remaining) == Count(h.remaining) - TotalTaken(h, requests)
  {
    hide Taken, Count, Serves, New;
    if requests == [] {
    } else {
      var front, last := requests[..|requests| - 1], requests[|requests| - 1];
      CountRuns(h, front);
      ServeKeepsShape(h, front);
      CountAfter(Serve(h, front).heap, last.size);
      NewShape(Serve(h, front).heap, last.size, last.block);
    }
  }

  /** Short of a whole turn of the count, a run of a heap that cannot grow keeps to its bound exactly
      when all it takes off is no more than the count at first plus 2^31. */
  lemma {:induction false} AllKeptIff(h: Heap, requests: seq<Request>)
    requires !h.growable && TotalTaken(h, requests) <= Count(h.remaining) + W
    ensures AllKept(h, requests) <==> TotalTaken(h, requests) <= Count(h.remaining) + HALF
  {
    hide Taken, Count, Serves, Overruns, Serve;
    if requests == [] {
      CountAfter(h, 0);
    } else {
      var front, last := requests[..|requests| - 1], requests[|requests| - 1];
      AllKeptIff(h, front);
      AllKeptFront(h, requests);
      ServeKeepsShape(h, front);
      CountAfter(h, last.size);
      if TotalTaken(h, front) <= Count(h.remaining) + HALF {
        CountRuns(h, front);
        OverrunsIff(Serve(h, front).heap, last.size);
      }
    }
  }

  /** What calls take off while none of them is served, so that the next address stays where it is. */
  function Asked(h: Heap, requests: seq<Request>): nat {
    if requests == [] then 0 else Asked(h, requests[..|requests| - 1]) + Taken(h, requests[|requests| - 1].size)
  }

  lemma RefusedStep(h: Heap, now: Heap, request: Request)
    requires !h.growable && now == h.(remaining := now.remaining)
    ensures Taken(now, request.size) == Taken(h, request.size) && Start(now) == Start(h)
    ensures !Serves(now, request.size) ==>
              New(now, request.size, request.block) == (0, h.(remaining := TakenOff(now, request.size).remaining))
    ensures Serves(now, request.size) ==> New(now, request.size, request.block).0 == Start(h)
  {
    hide Num, Plus, Minus, Masked, Negative;
  }

  /** After a failed call of a heap that cannot grow, and short of a whole turn of the count: nothing
      more is handed out exactly when all that is asked for, with the bytes skipped to align each
      time, is no more than the count, which is below zero, plus 2^31. */
  lemma {:induction false} FailureIsFinalIff(h: Heap, requests: seq<Request>)
    requires !h.growable && Count(h.remaining) < 0 && Start(h) != 0
    requires Asked(h, requests) <= Count(h.remaining) + W
    ensures Serve(h, requests).regions == [] <==> Asked(h, requests) <= Count(h.remaining) + HALF
    ensures Asked(h, requests) <= Count(h.remaining) + HALF ==>
              && Serve(h, requests).heap == h.(remaining := Serve(h, requests).heap.remaining)
              && Count(Serve(h, requests).heap.remaining) == Count(h.remaining) - Asked(h, requests)
  {
    hide Taken, Count, Serves, Start, New, TakenOff;
    CountAfter(h, 0);
    if requests == [] {
    } else {
      var front, last := requests[..|requests| - 1], requests[|requests| - 1];
      FailureIsFinalIff(h, front);
      if Asked(h, front) <= Count(h.remaining) + HALF {
        var now := Serve(h, front).heap;
        RefusedStep(h, now, last);
        CountAfter(now, last.size);
      }
    }
  }

  lemma SmallNumbers()
    ensures Num(7) == 7 && Num(8) == 8 && Num(16) == 16
  {
    hide Num;
    NumOfZero();
    FourBits(7);
    FourBits(8);
    FourBits(1);
    FourBits(16);
  }

  /** The heap of 8 bytes used below is what AllocateHeap makes, and sound. */
  lemma SmallHeapIsSound()
    ensures var h := Heap(0, 0, 7, 8, false, 8, []);
            AddHeapBlock(h, 16) == Heap(16, 8, 7, 8, false, 8, [16]) && Sound(AddHeapBlock(h, 16))
  {
    hide Num, Sound;
    SmallNumbers();
    AllocatedIsSound(Heap(0, 0, 7, 8, false, 8, []), 16);
  }

  /** Two calls for 2^31 - 1 bytes of a heap of 8: the first is refused, the second is served. */
  lemma FailureForgotten()
    ensures var h := Heap(16, 8, 7, 8, false, 8, [16]);
            var refused := New(h, 0x7fff_ffff, 0);
            var served := New(refused.1, 0x7fff_ffff, 0);
            refused.0 == 0 && served.0 == 16
  {
  }

  /** Sizes within the block are no protection: after a block of 2^30 bytes is used up and two calls
      for as many are refused, a third is handed the memory behind the block. */
  lemma BlockSizedCallsOverrun()
    ensures var h := Heap(0x1000_0000, 0x4000_0000, 7, 8, false, 0x4000_0000, [0x1000_0000]);
            var first := New(h, 0x4000_0000, 0);
            var second := New(first.1, 0x4000_0000, 0);
            var third := New(second.1, 0x4000_0000, 0);
            var fourth := New(third.1, 0x4000_0000, 0);
            first.0 == 0x1000_0000 && second.0 == 0 && third.0 == 0 && fourth.0 == 0x5000_0000
  {
  }

  /** A failed call spoils the calls after it that would have been served: a concrete heap. */
  lemma FailureExample()
    ensures var h := Heap(16, 8, 7, 8, false, 8, [16]);
            New(h, 4, 0).0 == 16 && New(h, 9, 0).0 == 0 && New(New(h, 9, 0).1, 4, 0).0 == 0
  {
  }

  /** After a success within the bounds the count reaches to the end of the last block. */
  lemma SuccessIsExact(h: Heap, size: Word32, block: Word32)
    requires Sound(h) && GoodBlock(h, block) && Kept(h, size, block) && New(h, size, block).0 != 0
    requires Num(h.heapSize) < HALF
    ensures var after := New(h, size, block).1;
            && |after.heaps| > 0 && Count(after.remaining) >= 0
            && Num(after.next) + Count(after.remaining) == Last(after).End()
  {
    hide Num, Plus, Minus, Start, Serves, Sound, Overruns, GoodBlock, New;
    NewKeepsSound(h, size, block);
    NewShape(h, size, block);
    CountAfter(h, size);
    if !Serves(h, size) {
      GrownInNumbers(h, size, block);
    }
    SoundCountFacts(New(h, size, block).1);
  }

  lemma SoundCountFacts(h: Heap)
    requires Sound(h) && |h.heaps| > 0 && Count(h.remaining) >= 0
    ensures Num(h.next) + Count(h.remaining) == Last(h).End()
  {
  }

  /** Exactly when a growing call stays inside the block it adds: the size is no more than a block. */
  lemma GrowthFitsIff(h: Heap, size: Word32, block: Word32)
    requires Grows(h, size, block)
    ensures Within(Region(Num(New(h, size, block).0), Num(size)), Region(Num(block), Num(h.heapSize)))
            <==> Num(size) <= Num(h.heapSize)
  {
    hide Num, Plus, Minus, Start, Serves;
    NewShape(h, size, block);
  }
}
