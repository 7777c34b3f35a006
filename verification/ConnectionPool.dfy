/** The database connections of DBConn.cpp: entries linked into a list of free ones, taken from the
    front and put back at the end. */
module ConnectionPool {

  /** SQLPool, without the connection it carries. */
  class Entry {
    var reset: bool
    var pNext: Entry?

    constructor ()
      ensures !reset && pNext == null
    {
      reset := false;
      pNext := null;
    }
  }

  ghost predicate Distinct<T>(s: seq<T>) {
    forall i, j :: 0 <= i < j < |s| ==> s[i] != s[j]
  }

  /** Following pNext from h meets these entries and then NULL. */
  ghost predicate Chained(h: Entry?, list: seq<Entry>)
    reads list
  {
    && h == (if list == [] then null else list[0])
    && (forall i :: 0 <= i < |list| - 1 ==> list[i].pNext == list[i + 1])
    && (list != [] ==> list[|list| - 1].pNext == null)
  }

  function Reversed<T>(s: seq<T>): (r: seq<T>)
    ensures |r| == |s| && forall i :: 0 <= i < |s| ==> r[i] == s[|s| - 1 - i]
  {
    seq(|s|, i requires 0 <= i < |s| => s[|s| - 1 - i])
  }

  lemma ReversedMore<T>(s: seq<T>, i: nat)
    requires i < |s|
    ensures Reversed(s[..i + 1]) == [s[i]] + Reversed(s[..i])
  {
  }

  class DBEnv {
    /** `m_pSqlPool`: m_connCount entries. */
    const m_pSqlPool: array<Entry>
    var m_pFreeSqlPool: Entry?
    var m_pFreeSqlPoolEnd: Entry?

    /** The free list, front first, and the entries held by some CDBConn. */
    ghost var free: seq<Entry>
    ghost var held: set<Entry>

    /** The free list once allocated, and every call since that took or put back an entry. */
    ghost var first: seq<Entry>
    ghost var log: seq<Call<Entry>>

    ghost predicate Logged()
      reads this
    {
      Allowed(first, log) && After(first, log) == free
    }

    ghost function Entries(): set<Entry>
      reads m_pSqlPool
    {
      set i | 0 <= i < m_pSqlPool.Length :: m_pSqlPool[i]
    }

    /** No cycle, the end pointer on the last entry or NULL exactly when the list is empty, and every
        entry either free once or held. */
    ghost predicate Valid()
      reads this, m_pSqlPool, Entries()
    {
      && Distinct(m_pSqlPool[..])
      && (forall c :: c in free ==> c in Entries()) && held <= Entries()
      && (forall c :: c in Entries() ==> (c in free <==> c !in held))
      && Distinct(free) && Chained(m_pFreeSqlPool, free)
      && m_pFreeSqlPoolEnd == (if free == [] then null else free[|free| - 1])
      && forall c :: c in Entries() ==> !c.reset
    }

    constructor (entries: array<Entry>)
      requires Distinct(entries[..])
      ensures m_pSqlPool == entries && m_pFreeSqlPool == null && m_pFreeSqlPoolEnd == null
      ensures free == [] && held == {}
    {
      m_pSqlPool := entries;
      m_pFreeSqlPool := null;
      m_pFreeSqlPoolEnd := null;
      free := [];
      held := {};
      first := [];
      log := [];
    }

    /** `AllocSQLPool`: every entry is pushed at the front, so the list is the array backwards. */
    method AllocSQLPool()
      requires Distinct(m_pSqlPool[..]) && free == [] && held == {}
      requires m_pFreeSqlPool == null && m_pFreeSqlPoolEnd == null
      requires forall c :: c in Entries() ==> !c.reset
      modifies this, Entries()
      ensures Valid() && free == Reversed(m_pSqlPool[..]) && held == {}
      ensures Logged() && first == free && log == []
    {
      ClearLinks();
      for i := 0 to m_pSqlPool.Length
        invariant free == Reversed(m_pSqlPool[..i])
        invariant Chained(m_pFreeSqlPool, free)
        invariant m_pFreeSqlPoolEnd == (if free == [] then null else free[|free| - 1])
        invariant forall k :: i <= k < m_pSqlPool.Length ==> m_pSqlPool[k].pNext == null
        invariant forall c :: c in Entries() ==> !c.reset
        invariant held == {}
      {
        NotYetFree(i);
        PushFront(m_pSqlPool[i]);
        ReversedMore(m_pSqlPool[..], i);
      }
      assert m_pSqlPool[..m_pSqlPool.Length] == m_pSqlPool[..];
      AllFree();
      first, log := free, [];
    }

    method ClearLinks()
      requires forall c :: c in Entries() ==> !c.reset
      modifies Entries()
      ensures forall c :: c in Entries() ==> !c.reset && c.pNext == null
    {
      for i := 0 to m_pSqlPool.Length
        invariant forall k :: 0 <= k < i ==> m_pSqlPool[k].pNext == null
        invariant forall c :: c in Entries() ==> !c.reset
      {
        m_pSqlPool[i].pNext := null;
      }
    }

    lemma NotYetFree(i: nat)
      requires i < m_pSqlPool.Length && Distinct(m_pSqlPool[..]) && free == Reversed(m_pSqlPool[..i])
      ensures m_pSqlPool[i] !in free
    {
      assert forall k :: 0 <= k < |free| ==> free[k] == m_pSqlPool[..][i - 1 - k];
    }

    /** One turn of the second loop. */
    method PushFront(entry: Entry)
      requires Chained(m_pFreeSqlPool, free) && entry !in free && entry.pNext == null
      requires m_pFreeSqlPoolEnd == (if free == [] then null else free[|free| - 1])
      modifies `m_pFreeSqlPool, `m_pFreeSqlPoolEnd, `free, entry`pNext
      ensures free == [entry] + old(free) && Chained(m_pFreeSqlPool, free)
      ensures m_pFreeSqlPoolEnd == free[|free| - 1]
    {
      ghost var before := free;
      if m_pFreeSqlPool != null {
        entry.pNext := m_pFreeSqlPool;
        m_pFreeSqlPool := entry;
      } else {
        m_pFreeSqlPool := entry;
        m_pFreeSqlPoolEnd := entry;
      }
      free := [entry] + free;
      assert forall k :: 1 <= k < |free| ==> free[k] == before[k - 1];
    }

    lemma AllFree()
      requires Distinct(m_pSqlPool[..]) && free == Reversed(m_pSqlPool[..])
      ensures Distinct(free) && forall c :: c in free <==> c in Entries()
    {
      forall c | c in Entries()
        ensures c in free
      {
        var i :| 0 <= i < m_pSqlPool.Length && m_pSqlPool[i] == c;
        assert free[m_pSqlPool.Length - 1 - i] == c;
      }
    }

    /** One turn of the CDBConn constructor under the lock: the front entry, or nothing yet. */
    method Acquire() returns (c: Entry?)
      requires Valid() && Logged()
      modifies this, Entries()
      ensures Valid() && Logged() && first == old(first)
      ensures c == null <==> old(free) == []
      ensures c == null ==> free == old(free) && held == old(held) && log == old(log)
      ensures c != null ==> c == old(free)[0] && free == old(free)[1..] && held == old(held) + {c} && c !in old(held)
      ensures c != null ==> log == old(log) + [Took(c)]
    {
      c := null;
      if m_pFreeSqlPool != null {
        hide Allowed, After;
        assert free != [];
        OneMoreCall(first, log, Took(free[0]));
        var front := TakeFront();
        log := log + [Took(front)];
        c := front;
      }
    }

    method TakeFront() returns (front: Entry)
      requires Valid() && free != []
      modifies `m_pFreeSqlPool, `m_pFreeSqlPoolEnd, `free, `held, Entries()
      ensures Valid() && front == old(free)[0] && front !in old(held)
      ensures free == old(free)[1..] && held == old(held) + {front}
    {
      front := m_pFreeSqlPool;
      assert front == free[0] && front in free;
      front.reset := false;
      m_pFreeSqlPool := front.pNext;
      if m_pFreeSqlPool == null {
        m_pFreeSqlPoolEnd := null;
      }
      ghost var before := free;
      free, held := free[1..], held + {front};
      assert forall i :: 0 <= i < |free| ==> free[i] == before[i + 1];
      assert forall e :: e in before <==> e == front || e in free;
    }

    /** The CDBConn destructor: its entry goes to the end of the list. */
    method Release(c: Entry)
      requires Valid() && Logged() && c in held
      modifies this, Entries()
      ensures Valid() && Logged() && first == old(first)
      ensures free == old(free) + [c] && held == old(held) - {c} && log == old(log) + [Put(c)]
    {
      hide Allowed, After;
      assert c in Entries() && !c.reset;
      if !c.reset {
        OneMoreCall(first, log, Put(c));
        PutBack(c);
        log := log + [Put(c)];
      }
    }

    method PutBack(c: Entry)
      requires Valid() && c in held
      modifies `m_pFreeSqlPool, `m_pFreeSqlPoolEnd, `free, `held, Entries()
      ensures Valid() && free == old(free) + [c] && held == old(held) - {c}
    {
      assert c in Entries() && c !in free;
      ghost var before := free;
      c.pNext := null;
      if m_pFreeSqlPool != null {
        assert m_pFreeSqlPoolEnd == free[|free| - 1];
        m_pFreeSqlPoolEnd.pNext := c;
      } else {
        m_pFreeSqlPool := c;
      }
      m_pFreeSqlPoolEnd := c;
      free, held := free + [c], held - {c};
      assert forall i :: 0 <= i < |before| ==> free[i] == before[i];
    }
  }

  /** For every sequence of acquiring and releasing: the entries handed out so far, then the ones
      still free, are the entries of the array backwards, then the ones released, in order. */
  lemma ServedInOrder(env: DBEnv)
    requires env.Valid() && env.Logged() && env.first == Reversed(env.m_pSqlPool[..])
    ensures Taken(env.log) + env.free == Reversed(env.m_pSqlPool[..]) + Returned(env.log)
  {
    FirstInFirstOut(env.first, env.log);
  }

  // ----- what the free list means over any sequence of calls

  /** A call that took the front entry, or one that put an entry back. */
  datatype Call<T> = Took(entry: T) | Put(entry: T)

  /** The calls a list allows, starting from the given free entries. */
  ghost predicate Allowed<T>(free: seq<T>, calls: seq<Call<T>>)
    decreases |calls|
  {
    calls == []
    || match calls[0]
       case Took(c) => free != [] && free[0] == c && Allowed(free[1..], calls[1..])
       case Put(c) => Allowed(free + [c], calls[1..])
  }

  /** The free entries after those calls. */
  ghost function After<T>(free: seq<T>, calls: seq<Call<T>>): seq<T>
    requires Allowed(free, calls)
    decreases |calls|
  {
    if calls == [] then free
    else match calls[0]
      case Took(c) => After(free[1..], calls[1..])
      case Put(c) => After(free + [c], calls[1..])
  }

  ghost predicate Allows<T>(free: seq<T>, call: Call<T>) {
    call.Took? ==> free != [] && free[0] == call.entry
  }

  lemma {:induction false} OneMoreCall<T>(free: seq<T>, calls: seq<Call<T>>, call: Call<T>)
    requires Allowed(free, calls) && Allows(After(free, calls), call)
    ensures Allowed(free, calls + [call])
    ensures After(free, calls + [call]) ==
            if call.Took? then After(free, calls)[1..] else After(free, calls) + [call.entry]
    decreases |calls|
  {
    var all := calls + [call];
    if calls == [] {
      assert all == [call] && all[1..] == [];
    } else {
      assert all[1..] == calls[1..] + [call];
      OneMoreCall(if calls[0].Took? then free[1..] else free + [calls[0].entry], calls[1..], call);
    }
  }

  function Taken<T>(calls: seq<Call<T>>): seq<T> {
    if calls == [] then []
    else (if calls[0].Took? then [calls[0].entry] else []) + Taken(calls[1..])
  }

  function Returned<T>(calls: seq<Call<T>>): seq<T> {
    if calls == [] then []
    else (if calls[0].Put? then [calls[0].entry] else []) + Returned(calls[1..])
  }

  /** First in, first out: over any allowed calls, the entries taken, followed by those still free,
      are the entries free at first followed by the ones put back, in the order of the calls. */
  lemma {:induction false} FirstInFirstOut<T>(free: seq<T>, calls: seq<Call<T>>)
    requires Allowed(free, calls)
    ensures Taken(calls) + After(free, calls) == free + Returned(calls)
    decreases |calls|
  {
    if calls == [] {
      assert [] + free == free + [];
    } else {
      var c, rest := calls[0].entry, calls[1..];
      if calls[0].Took? {
        FirstInFirstOut(free[1..], rest);
        TakeStep(free, Taken(rest), After(free[1..], rest), Returned(rest));
        assert [] + Returned(rest) == Returned(rest);
      } else {
        FirstInFirstOut(free + [c], rest);
        assert free + [c] + Returned(rest) == free + ([c] + Returned(rest));
        assert [] + Taken(rest) == Taken(rest);
      }
    }
  }

  lemma TakeStep<T>(free: seq<T>, taken: seq<T>, after: seq<T>, returned: seq<T>)
    requires free != [] && taken + after == free[1..] + returned
    ensures ([free[0]] + taken) + after == free + returned
  {
    assert ([free[0]] + taken) + after == [free[0]] + (taken + after);
    assert [free[0]] + (free[1..] + returned) == free + returned;
  }

  /** So an entry is taken again only after every entry that was free when it was put back: with n
      entries ahead of it, it is number n of those taken afterwards. */
  lemma TakenInTurn<T>(free: seq<T>, entry: T, calls: seq<Call<T>>)
    requires Allowed(free + [entry], calls) && |Taken(calls)| > |free|
    ensures Taken(calls)[..|free|] == free && Taken(calls)[|free|] == entry
  {
    FirstInFirstOut(free + [entry], calls);
    var all := free + [entry] + Returned(calls);
    assert Taken(calls) == all[..|Taken(calls)|];
    assert all[..|free|] == free;
  }

  /** Nothing is lost or duplicated by any allowed calls. */
  lemma NothingLost<T>(free: seq<T>, calls: seq<Call<T>>)
    requires Allowed(free, calls)
    ensures multiset(Taken(calls)) + multiset(After(free, calls)) == multiset(free) + multiset(Returned(calls))
  {
    FirstInFirstOut(free, calls);
    assert multiset(Taken(calls) + After(free, calls)) == multiset(Taken(calls)) + multiset(After(free, calls));
    assert multiset(free + Returned(calls)) == multiset(free) + multiset(Returned(calls));
  }
}
