/** The buffers of IOBuffer.cpp: reference counts, and sixteen chains of free buffers linked through
    `m_pNext`, as interleaved steps of any number of threads. A step is one interlocked operation or
    one stretch under a slot's lock. */
module BufferPool {
  const SLOTS: nat := 16

  /** A CIOBuffer pointer; buffers are numbered as they are created. */
  datatype Link = Null | To(buffer: nat)

  /** Where a thread is: in Alloc with a slot chosen, with an empty slot, or with a buffer not yet
      initialised; in Free with the last reference gone, or with a slot chosen. */
  datatype Thread =
    | Idle
    | AllocAt(slot: nat)
    | AllocNew
    | AllocGot(buffer: nat)
    | FreePick(buffer: nat)
    | FreeAt(buffer: nat, slot: nat)

  datatype State = State(
    threads: seq<Thread>,
    heads: seq<Link>,       // m_slot[i].m_pBuffer
    next: map<nat, Link>,   // m_pNext of every buffer created
    ref: map<nat, int>,     // m_ref
    created: nat,
    allocTurn: int,         // m_alloc
    freeTurn: int,             // m_free
    held: multiset<nat>)    // references in the hands of callers

  function Start(threads: nat): State {
    State(seq(threads, i => Idle), seq(SLOTS, i => Null), map[], map[], 0, -1, 0, multiset{})
  }

  predicate LinkWritten(s: State, s': State, b: nat, l: Link) {
    s' == s.(next := s.next[b := l])
  }

  /** What a caller may do with buffer b: it must have a reference. The sockets give back the buffers
      they wrote by calling Free, and queue those still to be written through m_pNext. */
  ghost predicate CallerStep(s: State, s': State, t: nat, b: nat)
    requires t < |s.threads|
  {
    && b in s.held && b in s.ref
    && ( // AddRef
         || s' == s.(ref := s.ref[b := s.ref[b] + 1], held := s.held + multiset{b})
         // Release
         || s' == s.(ref := s.ref[b := s.ref[b] - 1], held := s.held - multiset{b},
                     threads := s.threads[t := if s.ref[b] - 1 == 0 then FreePick(b) else Idle])
         // Free, called directly by the only holder: the count stays at 1
         || (s.held[b] == 1 && s' == s.(held := s.held - multiset{b}, threads := s.threads[t := FreePick(b)]))
         // a holder links the buffer into a list of its own
         || (exists l :: LinkWritten(s, s', b, l)))
  }

  ghost predicate Step(s: State, s': State, t: nat) {
    && t < |s.threads|
    && match s.threads[t]
       case Idle =>
         || (exists b :: CallerStep(s, s', t, b))
         || s' == s.(allocTurn := s.allocTurn + 1, threads := s.threads[t := AllocAt((s.allocTurn + 1) % SLOTS)])
       case AllocAt(k) =>
         && k < |s.heads|
         && (match s.heads[k]
             case Null => s' == s.(threads := s.threads[t := AllocNew])
             case To(b) =>
               && b in s.next
               && s' == s.(heads := s.heads[k := s.next[b]], threads := s.threads[t := AllocGot(b)]))
       case AllocNew =>
         s' == s.(created := s.created + 1, next := s.next[s.created := Null], ref := s.ref[s.created := 0],
                  threads := s.threads[t := AllocGot(s.created)])
       case AllocGot(b) =>
         s' == s.(ref := s.ref[b := 1], next := s.next[b := Null], held := s.held + multiset{b},
                  threads := s.threads[t := Idle])
       case FreePick(b) =>
         s' == s.(freeTurn := s.freeTurn - 1, threads := s.threads[t := FreeAt(b, (s.freeTurn - 1) % SLOTS)])
       case FreeAt(b, k) =>
         && k < |s.heads|
         && s' == s.(next := s.next[b := s.heads[k]], heads := s.heads[k := To(b)], threads := s.threads[t := Idle])
  }

  // ----- chains

  /** Following m_pNext from h meets exactly these buffers and then NULL. */
  ghost predicate Linked(h: Link, chain: seq<nat>, next: map<nat, Link>)
    decreases |chain|
  {
    if chain == [] then h == Null
    else h == To(chain[0]) && chain[0] in next && Linked(next[chain[0]], chain[1..], next)
  }

  lemma {:induction false} LinkedElsewhere(h: Link, chain: seq<nat>, next: map<nat, Link>, b: nat, l: Link)
    requires Linked(h, chain, next) && b !in chain
    ensures Linked(h, chain, next[b := l])
    decreases |chain|
  {
    if chain == [] {
    } else {
      LinkedElsewhere(next[chain[0]], chain[1..], next, b, l);
    }
  }

  lemma Rearranged(f: multiset<nat>, f': multiset<nat>, old': multiset<nat>, new': multiset<nat>, last: multiset<nat>)
    requires f' + old' == f + new'
    ensures (f' + last) + old' == (f + last) + new'
  {
    assert (f' + last) + old' == (f' + old') + last;
    assert (f + last) + new' == (f + new') + last;
  }

  lemma Exchanged(f: multiset<nat>, old': multiset<nat>, new': multiset<nat>)
    ensures (f + new') + old' == (f + old') + new'
  {
  }

  function Flat(chains: seq<seq<nat>>): seq<nat> {
    if chains == [] then [] else Flat(chains[..|chains| - 1]) + chains[|chains| - 1]
  }

  lemma {:induction false} FlatMoved(chains: seq<seq<nat>>, k: nat, chain: seq<nat>)
    requires k < |chains|
    ensures multiset(Flat(chains[k := chain])) + multiset(chains[k]) == multiset(Flat(chains)) + multiset(chain)
  {
    var n := |chains| - 1;
    if k < n {
      assert chains[k := chain][..n] == chains[..n][k := chain];
      FlatMoved(chains[..n], k, chain);
      Rearranged(multiset(Flat(chains[..n])), multiset(Flat(chains[..n][k := chain])), multiset(chains[k]),
                 multiset(chain), multiset(chains[n]));
    } else {
      assert chains[k := chain][..n] == chains[..n];
      Exchanged(multiset(Flat(chains[..n])), multiset(chains[k]), multiset(chain));
    }
  }

  lemma {:induction false} FlatHas(chains: seq<seq<nat>>, k: nat, b: nat)
    requires k < |chains| && b in chains[k]
    ensures b in Flat(chains)
  {
    var n := |chains| - 1;
    if k < n {
      FlatHas(chains[..n], k, b);
    }
  }

  /** The buffers threads carry between steps. */
  function Carried(threads: seq<Thread>): multiset<nat> {
    if threads == [] then multiset{}
    else Carried(threads[..|threads| - 1]) + InHand(threads[|threads| - 1])
  }

  function InHand(t: Thread): multiset<nat> {
    match t
    case AllocGot(b) => multiset{b}
    case FreePick(b) => multiset{b}
    case FreeAt(b, _) => multiset{b}
    case _ => multiset{}
  }

  lemma {:induction false} CarriedMoved(threads: seq<Thread>, t: nat, u: Thread)
    requires t < |threads|
    ensures Carried(threads[t := u]) + InHand(threads[t]) == Carried(threads) + InHand(u)
  {
    var n := |threads| - 1;
    if t < n {
      assert threads[t := u][..n] == threads[..n][t := u];
      CarriedMoved(threads[..n], t, u);
      Rearranged(Carried(threads[..n]), Carried(threads[..n][t := u]), InHand(threads[t]), InHand(u),
                 InHand(threads[n]));
    } else {
      assert threads[t := u][..n] == threads[..n];
      Exchanged(Carried(threads[..n]), InHand(threads[t]), InHand(u));
    }
  }

  // ----- every buffer is in one place

  /** How often a buffer is pooled, carried, or referenced by callers (once for any number of
      references). */
  function Places(s: State, chains: seq<seq<nat>>, b: nat): nat {
    multiset(Flat(chains))[b] + Carried(s.threads)[b] + (if s.held[b] > 0 then 1 else 0)
  }

  ghost predicate Pointers(s: State, chains: seq<seq<nat>>) {
    && |s.heads| == |chains| == SLOTS
    && forall k :: 0 <= k < SLOTS ==> Linked(s.heads[k], chains[k], s.next)
  }

  ghost predicate Ownership(s: State, chains: seq<seq<nat>>) {
    && (forall b: nat :: b in s.next <==> b < s.created)
    && (forall b: nat :: b in s.ref <==> b < s.created)
    && (forall b: nat :: b < s.created && s.held[b] > 0 ==> s.ref[b] == s.held[b])
    && forall b: nat :: Places(s, chains, b) == if b < s.created then 1 else 0
  }

  ghost predicate Slots(s: State) {
    forall t :: 0 <= t < |s.threads| ==>
      (s.threads[t].AllocAt? || s.threads[t].FreeAt? ==> s.threads[t].slot < SLOTS)
  }

  ghost predicate Inv(s: State, chains: seq<seq<nat>>) {
    Pointers(s, chains) && Ownership(s, chains) && Slots(s)
  }

  // ----- every step keeps the invariant

  lemma {:induction false} CarriedHas(threads: seq<Thread>, t: nat)
    requires t < |threads|
    ensures InHand(threads[t]) <= Carried(threads)
  {
    var n := |threads| - 1;
    if t < n {
      CarriedHas(threads[..n], t);
    }
  }

  /** A buffer in some thread's hands is in no chain and has no reference. */
  lemma CarriedAlone(s: State, chains: seq<seq<nat>>, t: nat, b: nat)
    requires Inv(s, chains) && t < |s.threads| && b in InHand(s.threads[t])
    ensures b < s.created && s.held[b] == 0 && b !in Flat(chains) && Carried(s.threads)[b] == 1
    ensures forall k :: 0 <= k < SLOTS ==> b !in chains[k]
  {
    CarriedHas(s.threads, t);
    assert Places(s, chains, b) <= 1;
    forall k | 0 <= k < SLOTS
      ensures b !in chains[k]
    {
      if b in chains[k] {
        FlatHas(chains, k, b);
      }
    }
  }

  /** A new buffer's number is in no chain. */
  lemma NewAlone(s: State, chains: seq<seq<nat>>, k: nat)
    requires Inv(s, chains) && k < SLOTS
    ensures s.created !in chains[k]
  {
    assert Places(s, chains, s.created) == 0;
    if s.created in chains[k] {
      FlatHas(chains, k, s.created);
    }
  }

  /** Steps that move one thread and leave chains and created buffers alone. */
  lemma QuietStep(s: State, s': State, chains: seq<seq<nat>>, t: nat)
    requires Inv(s, chains) && Slots(s') && t < |s.threads| && |s'.threads| == |s.threads|
    requires s'.threads == s.threads[t := s'.threads[t]] && s'.heads == s.heads && s'.next == s.next
    requires s'.created == s.created && s'.ref.Keys == s.ref.Keys
    requires forall b: nat :: b < s.created && s'.held[b] > 0 ==> s'.ref[b] == s'.held[b]
    requires forall b: nat :: InHand(s'.threads[t])[b] + (if s'.held[b] > 0 then 1 else 0)
                              == InHand(s.threads[t])[b] + (if s.held[b] > 0 then 1 else 0)
    ensures Inv(s', chains)
  {
    hide Linked, Carried, Flat;
    CarriedMoved(s.threads, t, s'.threads[t]);
    forall b: nat
      ensures Places(s', chains, b) == if b < s'.created then 1 else 0
    {
      assert Places(s, chains, b) == if b < s.created then 1 else 0;
      assert (Carried(s'.threads) + InHand(s.threads[t]))[b] == (Carried(s.threads) + InHand(s'.threads[t]))[b];
    }
  }

  lemma CallerKeeps(s: State, s': State, chains: seq<seq<nat>>, t: nat, b: nat)
    requires Inv(s, chains) && t < |s.threads| && s.threads[t] == Idle && CallerStep(s, s', t, b)
    ensures Inv(s', chains)
  {
    hide Linked, Carried, Flat, Pointers;
    if l :| LinkWritten(s, s', b, l) {
      LinkKeeps(s, s', chains, b, l);
    } else {
      assert s'.threads == s.threads[t := s'.threads[t]];
      QuietStep(s, s', chains, t);
    }
  }

  /** A referenced buffer is in no chain, so its holder may use its link. */
  lemma LinkKeeps(s: State, s': State, chains: seq<seq<nat>>, b: nat, l: Link)
    requires Inv(s, chains) && b in s.held && b in s.next && LinkWritten(s, s', b, l)
    ensures Inv(s', chains)
  {
    hide Linked, Carried, Flat;
    assert Places(s, chains, b) == 1;
    forall k | 0 <= k < SLOTS
      ensures Linked(s'.heads[k], chains[k], s'.next)
    {
      if b in chains[k] {
        FlatHas(chains, k, b);
      }
      LinkedElsewhere(s.heads[k], chains[k], s.next, b, l);
    }
    forall c: nat
      ensures Places(s', chains, c) == Places(s, chains, c)
    {
    }
  }

  lemma PopKeeps(s: State, s': State, chains: seq<seq<nat>>, t: nat, k: nat)
    requires Inv(s, chains) && Step(s, s', t) && s.threads[t] == AllocAt(k) && s.heads[k] != Null
    ensures chains[k] != [] && Inv(s', chains[k := chains[k][1..]])
  {
    hide Carried, Flat;
    var b := s.heads[k].buffer;
    assert Linked(s.heads[k], chains[k], s.next);
    var chains' := chains[k := chains[k][1..]];
    FlatMoved(chains, k, chains[k][1..]);
    CarriedMoved(s.threads, t, AllocGot(b));
    assert chains[k] == [b] + chains[k][1..];
    forall c: nat
      ensures Places(s', chains', c) == if c < s'.created then 1 else 0
    {
      assert Places(s, chains, c) == if c < s.created then 1 else 0;
      assert multiset(chains[k])[c] == multiset{b}[c] + multiset(chains[k][1..])[c];
      assert (multiset(Flat(chains')) + multiset(chains[k]))[c]
          == (multiset(Flat(chains)) + multiset(chains[k][1..]))[c];
      assert (Carried(s'.threads) + InHand(s.threads[t]))[c] == (Carried(s.threads) + multiset{b})[c];
    }
  }

  lemma CreateKeeps(s: State, s': State, chains: seq<seq<nat>>, t: nat)
    requires Inv(s, chains) && Step(s, s', t) && s.threads[t] == AllocNew
    ensures Inv(s', chains)
  {
    hide Carried, Flat, Linked;
    forall k | 0 <= k < SLOTS
      ensures Linked(s'.heads[k], chains[k], s'.next)
    {
      NewAlone(s, chains, k);
      LinkedElsewhere(s.heads[k], chains[k], s.next, s.created, Null);
    }
    CarriedMoved(s.threads, t, AllocGot(s.created));
    assert Places(s, chains, s.created) == 0;
    forall c: nat
      ensures Places(s', chains, c) == if c < s'.created then 1 else 0
    {
      assert Places(s, chains, c) == if c < s.created then 1 else 0;
      assert (Carried(s'.threads) + InHand(s.threads[t]))[c] == (Carried(s.threads) + multiset{s.created})[c];
    }
  }

  lemma InitialiseKeeps(s: State, s': State, chains: seq<seq<nat>>, t: nat, b: nat)
    requires Inv(s, chains) && Step(s, s', t) && s.threads[t] == AllocGot(b)
    ensures Inv(s', chains)
  {
    hide Carried, Flat, Linked;
    CarriedAlone(s, chains, t, b);
    forall k | 0 <= k < SLOTS
      ensures Linked(s'.heads[k], chains[k], s'.next)
    {
      LinkedElsewhere(s.heads[k], chains[k], s.next, b, Null);
    }
    CarriedMoved(s.threads, t, Idle);
    forall c: nat
      ensures Places(s', chains, c) == if c < s'.created then 1 else 0
    {
      assert Places(s, chains, c) == if c < s.created then 1 else 0;
      assert (Carried(s'.threads) + multiset{b})[c] == (Carried(s.threads) + multiset{})[c];
    }
  }

  lemma PushKeeps(s: State, s': State, chains: seq<seq<nat>>, t: nat, b: nat, k: nat)
    requires Inv(s, chains) && Step(s, s', t) && s.threads[t] == FreeAt(b, k)
    ensures Inv(s', chains[k := [b] + chains[k]])
  {
    hide Carried, Flat;
    CarriedAlone(s, chains, t, b);
    var chains' := chains[k := [b] + chains[k]];
    forall j | 0 <= j < SLOTS
      ensures Linked(s'.heads[j], chains'[j], s'.next)
    {
      LinkedElsewhere(s.heads[j], chains[j], s.next, b, s.heads[k]);
      assert ([b] + chains[k])[1..] == chains[k];
    }
    FlatMoved(chains, k, [b] + chains[k]);
    CarriedMoved(s.threads, t, Idle);
    forall c: nat
      ensures Places(s', chains', c) == if c < s'.created then 1 else 0
    {
      assert Places(s, chains, c) == if c < s.created then 1 else 0;
      assert multiset([b] + chains[k])[c] == multiset{b}[c] + multiset(chains[k])[c];
      assert (multiset(Flat(chains')) + multiset(chains[k]))[c]
          == (multiset(Flat(chains)) + multiset([b] + chains[k]))[c];
      assert (Carried(s'.threads) + multiset{b})[c] == (Carried(s.threads) + multiset{})[c];
    }
  }

  /** Over every step of any thread the chains stay chains and every buffer stays in one place. */
  lemma StepKeepsInv(s: State, s': State, chains: seq<seq<nat>>, t: nat) returns (chains': seq<seq<nat>>)
    requires Inv(s, chains) && Step(s, s', t)
    ensures Inv(s', chains')
  {
    hide Carried, Flat, Linked, Places, Ownership;
    chains' := chains;
    match s.threads[t] {
      case Idle =>
        if b :| CallerStep(s, s', t, b) {
          CallerKeeps(s, s', chains, t, b);
        } else {
          TurnKeeps(s, s', chains, t);
        }
      case AllocAt(k) =>
        if s.heads[k] == Null {
          TurnKeeps(s, s', chains, t);
        } else {
          PopKeeps(s, s', chains, t, k);
          chains' := chains[k := chains[k][1..]];
        }
      case AllocNew =>
        CreateKeeps(s, s', chains, t);
      case AllocGot(b) =>
        InitialiseKeeps(s, s', chains, t, b);
      case FreePick(b) =>
        TurnKeeps(s, s', chains, t);
      case FreeAt(b, k) =>
        SlotExists(s, chains, t);
        PushKeeps(s, s', chains, t, b, k);
        chains' := chains[k := [b] + chains[k]];
    }
  }

  lemma SlotExists(s: State, chains: seq<seq<nat>>, t: nat)
    requires Inv(s, chains) && t < |s.threads| && s.threads[t].FreeAt?
    ensures s.threads[t].slot < SLOTS == |chains|
  {
  }

  /** Steps that only move a counter or a thread. */
  lemma TurnKeeps(s: State, s': State, chains: seq<seq<nat>>, t: nat)
    requires Inv(s, chains) && t < |s.threads|
    requires |s'.threads| == |s.threads| && s'.threads == s.threads[t := s'.threads[t]]
    requires s' == s.(threads := s'.threads, allocTurn := s'.allocTurn, freeTurn := s'.freeTurn)
    requires InHand(s'.threads[t]) == InHand(s.threads[t])
    requires s'.threads[t].AllocAt? || s'.threads[t].FreeAt? ==> s'.threads[t].slot < SLOTS
    ensures Inv(s', chains)
  {
    hide Linked, Carried, Flat, Pointers;
    QuietStep(s, s', chains, t);
  }

  // ----- whole runs

  lemma {:induction false} NothingCarried(threads: nat)
    ensures Carried(seq(threads, i => Idle)) == multiset{}
  {
    if threads > 0 {
      NothingCarried(threads - 1);
      assert seq(threads, i => Idle)[..threads - 1] == seq(threads - 1, i => Idle);
    }
  }

  lemma {:induction false} NothingPooled(chains: seq<seq<nat>>)
    requires forall k :: 0 <= k < |chains| ==> chains[k] == []
    ensures Flat(chains) == []
  {
    if chains != [] {
      NothingPooled(chains[..|chains| - 1]);
    }
  }

  lemma StartInv(threads: nat)
    ensures Inv(Start(threads), seq(SLOTS, i => []))
  {
    hide Carried, Flat;
    NothingCarried(threads);
    NothingPooled(seq(SLOTS, i => []));
  }

  ghost predicate SomeStep(s: State, s': State) {
    exists t :: Step(s, s', t)
  }

  ghost predicate Run(run: seq<State>, threads: nat) {
    && |run| > 0 && run[0] == Start(threads)
    && forall i :: 0 < i < |run| ==> SomeStep(run[i - 1], run[i])
  }

  lemma {:induction false} RunKeepsInv(run: seq<State>, threads: nat, i: nat) returns (chains: seq<seq<nat>>)
    requires Run(run, threads) && i < |run|
    ensures Inv(run[i], chains)
  {
    hide Inv, Step, Start;
    if i == 0 {
      StartInv(threads);
      chains := seq(SLOTS, i => []);
    } else {
      chains := RunKeepsInv(run, threads, i - 1);
      assert SomeStep(run[i - 1], run[i]);
      var t :| Step(run[i - 1], run[i], t);
      chains := StepKeepsInv(run[i - 1], run[i], chains, t);
    }
  }

  /** A buffer some thread is carrying between two steps. */
  ghost predicate InTransit(s: State, b: nat) {
    exists t :: 0 <= t < |s.threads| && b in InHand(s.threads[t])
  }

  lemma {:induction false} CarriedMeansInTransit(threads: seq<Thread>, b: nat)
    requires b in Carried(threads)
    ensures exists t :: 0 <= t < |threads| && b in InHand(threads[t])
  {
    var n := |threads| - 1;
    if b !in InHand(threads[n]) {
      CarriedMeansInTransit(threads[..n], b);
      var t :| 0 <= t < n && b in InHand(threads[..n][t]);
      assert b in InHand(threads[t]);
    }
  }

  /** After any interleaving, for every buffer ever created: it is referenced, or carried by a thread,
      or sits in the sixteen acyclic chains exactly once, and only one of the three; and while it is
      referenced its count is the number of references callers have. */
  lemma EveryBufferInOnePlace(run: seq<State>, threads: nat, i: nat, b: nat) returns (chains: seq<seq<nat>>)
    requires Run(run, threads) && i < |run| && b < run[i].created
    ensures Pointers(run[i], chains)
    ensures b in run[i].ref && (run[i].held[b] > 0 ==> run[i].ref[b] == run[i].held[b])
    ensures run[i].held[b] > 0 ==> b !in Flat(chains) && !InTransit(run[i], b)
    ensures InTransit(run[i], b) ==> b !in Flat(chains)
    ensures run[i].held[b] == 0 && !InTransit(run[i], b) ==> multiset(Flat(chains))[b] == 1
  {
    chains := RunKeepsInv(run, threads, i);
    var s := run[i];
    assert Places(s, chains, b) == 1;
    if t :| 0 <= t < |s.threads| && b in InHand(s.threads[t]) {
      CarriedAlone(s, chains, t, b);
    } else if b in Carried(s.threads) {
      CarriedMeansInTransit(s.threads, b);
    }
  }

  /** A pooled buffer's count says nothing: one that was given back by Free is pooled with count 1. */
  lemma PooledCountExample() returns (run: seq<State>)
    ensures Run(run, 1)
    ensures var s := run[|run| - 1];
            |s.heads| == SLOTS && s.heads[15] == To(0) && 0 in s.ref && s.ref[0] == 1 && s.held[0] == 0
  {
    var s0 := Start(1);
    var s1 := s0.(allocTurn := 0, threads := [AllocAt(0)]);
    var s2 := s1.(threads := [AllocNew]);
    var s3 := s2.(created := 1, next := map[0 := Null], ref := map[0 := 0], threads := [AllocGot(0)]);
    var s4 := s3.(ref := map[0 := 1], held := multiset{0}, threads := [Idle]);
    var s5 := s4.(held := multiset{}, threads := [FreePick(0)]);
    var s6 := s5.(freeTurn := -1, threads := [FreeAt(0, 15)]);
    var s7 := s6.(heads := s6.heads[15 := To(0)], threads := [Idle]);
    assert Step(s0, s1, 0);
    assert Step(s1, s2, 0);
    assert Step(s2, s3, 0);
    assert Step(s3, s4, 0);
    assert CallerStep(s4, s5, 0, 0) && Step(s4, s5, 0);
    assert Step(s5, s6, 0);
    assert Step(s6, s7, 0);
    run := [s0, s1, s2, s3, s4, s5, s6, s7];
    assert forall i :: 0 < i < |run| ==> SomeStep(run[i - 1], run[i]);
  }

  /** The buffer Alloc is about to hand out has no reference, is in no chain, and is nobody else's. */
  lemma AllocIsExclusive(run: seq<State>, threads: nat, i: nat, t: nat, u: nat, b: nat)
    requires Run(run, threads) && i < |run| && t < |run[i].threads| && run[i].threads[t] == AllocGot(b)
    requires u < |run[i].threads| && u != t
    ensures run[i].held[b] == 0 && b !in InHand(run[i].threads[u])
  {
    var chains := RunKeepsInv(run, threads, i);
    CarriedAlone(run[i], chains, t, b);
    CarriedMoved(run[i].threads, t, Idle);
    CarriedHas(run[i].threads[t := Idle], u);
    assert (Carried(run[i].threads[t := Idle]) + multiset{b})[b] == (Carried(run[i].threads) + multiset{})[b];
  }

  // ----- shutting down

  lemma {:induction false} FlatFront(chains: seq<seq<nat>>, i: nat)
    requires i < |chains|
    ensures Flat(chains[..i + 1]) == Flat(chains[..i]) + chains[i]
  {
    assert chains[..i + 1][..i] == chains[..i];
  }

  /** Deleting one buffer does not disturb a chain it is not in. */
  lemma {:induction false} LinkedWithout(h: Link, chain: seq<nat>, next: map<nat, Link>, b: nat)
    requires Linked(h, chain, next) && b !in chain
    ensures Linked(h, chain, next - {b})
    decreases |chain|
  {
    if chain == [] {
    } else {
      LinkedWithout(next[chain[0]], chain[1..], next, b);
    }
  }

  ghost predicate AllLinked(heads: seq<Link>, chains: seq<seq<nat>>, next: map<nat, Link>) {
    && |heads| == |chains|
    && forall k :: 0 <= k < |chains| ==> Linked(heads[k], chains[k], next)
  }

  /** Every buffer at most once in all the chains. */
  ghost predicate Once(chains: seq<seq<nat>>) {
    forall b: nat :: multiset(Flat(chains))[b] <= 1
  }

  /** Popping the head of chain k: it is in no chain any more. */
  lemma PopOnce(chains: seq<seq<nat>>, k: nat)
    requires Once(chains) && k < |chains| && chains[k] != []
    ensures var rest := chains[k := chains[k][1..]];
            Once(rest) && forall j :: 0 <= j < |rest| ==> chains[k][0] !in rest[j]
  {
    hide Flat;
    var b, rest := chains[k][0], chains[k := chains[k][1..]];
    FlatMoved(chains, k, chains[k][1..]);
    assert chains[k] == [b] + chains[k][1..];
    forall c: nat
      ensures multiset(Flat(rest))[c] + (if c == b then 1 else 0) == multiset(Flat(chains))[c]
    {
      assert multiset(chains[k])[c] == multiset{b}[c] + multiset(chains[k][1..])[c];
      assert (multiset(Flat(rest)) + multiset(chains[k]))[c] == (multiset(Flat(chains)) + multiset(chains[k][1..]))[c];
    }
    assert multiset(Flat(rest))[b] + 1 == multiset(Flat(chains))[b];
    forall j | 0 <= j < |rest|
      ensures b !in rest[j]
    {
      if b in rest[j] {
        FlatHas(rest, j, b);
      }
    }
  }

  /** `FreeAll`: walks every chain through `m_pNext`, reading each link before the delete. Every pooled
      buffer is deleted, once, and no link of a deleted buffer is read. */
  method FreeAll(s: State, ghost chains: seq<seq<nat>>)
    returns (heads: seq<Link>, next: map<nat, Link>, deleted: seq<nat>)
    requires AllLinked(s.heads, chains, s.next) && Once(chains)
    ensures deleted == Flat(chains)
    ensures |heads| == |s.heads| && forall k :: 0 <= k < |heads| ==> heads[k] == Null
  {
    hide Flat, Linked, Once;
    heads, next, deleted := s.heads, s.next, [];
    ghost var left := chains;
    NoneFlat();
    assert chains[..0] == [];
    for i := 0 to |s.heads|
      invariant AllLinked(heads, left, next) && Once(left)
      invariant |left| == |chains| && |heads| == |s.heads|
      invariant forall k :: 0 <= k < i ==> heads[k] == Null
      invariant forall k :: i <= k < |left| ==> left[k] == chains[k]
      invariant deleted == Flat(chains[..i])
    {
      ghost var done := deleted;
      while heads[i] != Null
        invariant AllLinked(heads, left, next) && Once(left)
        invariant |left| == |chains| && |heads| == |s.heads|
        invariant forall k :: 0 <= k < i ==> heads[k] == Null
        invariant forall k :: i < k < |left| ==> left[k] == chains[k]
        invariant deleted + left[i] == done + chains[i]
        decreases |left[i]|
      {
        var b := heads[i].buffer;
        HeadLinked(heads[i], left[i], next);
        PopOnce(left, i);
        heads := heads[i := next[b]];
        left := left[i := left[i][1..]];
        forall k | 0 <= k < |left|
          ensures Linked(heads[k], left[k], next - {b})
        {
          LinkedWithout(heads[k], left[k], next, b);
        }
        next := next - {b};
        deleted := deleted + [b];
      }
      EmptyLinked(left[i], next);
      FlatFront(chains, i);
    }
    assert chains[..|chains|] == chains;
  }

  lemma NoneFlat()
    ensures Flat([]) == []
  {
  }

  lemma HeadLinked(h: Link, chain: seq<nat>, next: map<nat, Link>)
    requires Linked(h, chain, next) && h != Null
    ensures chain != [] && h.buffer == chain[0] && h.buffer in next && Linked(next[h.buffer], chain[1..], next)
    ensures chain == [h.buffer] + chain[1..]
  {
  }

  lemma EmptyLinked(chain: seq<nat>, next: map<nat, Link>)
    requires Linked(Null, chain, next)
    ensures chain == []
  {
  }

  /** In any reachable state the chains meet what FreeAll needs, so nothing is deleted twice. */
  lemma FreeAllReady(run: seq<State>, threads: nat, i: nat) returns (chains: seq<seq<nat>>)
    requires Run(run, threads) && i < |run|
    ensures AllLinked(run[i].heads, chains, run[i].next) && Once(chains)
  {
    chains := RunKeepsInv(run, threads, i);
    forall b: nat
      ensures multiset(Flat(chains))[b] <= 1
    {
      assert Places(run[i], chains, b) <= 1;
    }
  }
}
