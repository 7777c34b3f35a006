/** The reader/writer lock of Lock.cpp as interleaved steps of any number of threads. Every call is
    cut where the source makes a system call or changes `readerCount`. */
module RwLock {
  import opened Counting

  /** Where a thread is. The steps of ReadLock run from ReadEnter to Reading, those of ReadUnlock from
      UnreadEnter back to Idle; WriteLock waits in WriteWait and WriteUnlock leaves Writing. */
  datatype Place =
    | Idle
    | ReadEnter     // before EnterCriticalSection(&mutex)
    | ReadCount     // before ++readerCount
    | ReadWait      // first reader, waiting for dataLock with mutex held
    | ReadLeave     // before LeaveCriticalSection(&mutex)
    | Reading
    | UnreadEnter
    | UnreadCount   // before --readerCount
    | UnreadRelease // last reader, before ReleaseSemaphore
    | UnreadLeave
    | WriteWait
    | Writing

  datatype Owner = Nobody | Thread(id: nat)

  /** `dataLock` is the count of the semaphore, created with count 1 and maximum 1. */
  datatype State = State(places: seq<Place>, mutex: Owner, readerCount: int, dataLock: nat)

  function Start(threads: nat): State {
    State(seq(threads, i => Idle), Nobody, 0, 1)
  }

  function Move(s: State, t: nat, p: Place): State
    requires t < |s.places|
  {
    s.(places := s.places[t := p])
  }

  /** Thread t takes one step. */
  ghost predicate Step(s: State, s': State, t: nat) {
    && t < |s.places|
    && match s.places[t]
       case Idle =>
         || s' == Move(s, t, ReadEnter)
         || s' == Move(s, t, WriteWait)
         // WriteTryLock
         || s' == (if s.dataLock > 0 then Move(s, t, Writing).(dataLock := s.dataLock - 1) else s)
       case ReadEnter => s.mutex == Nobody && s' == Move(s, t, ReadCount).(mutex := Thread(t))
       case ReadCount =>
         s' == Move(s, t, if s.readerCount + 1 == 1 then ReadWait else ReadLeave).(readerCount := s.readerCount + 1)
       case ReadWait => s.dataLock > 0 && s' == Move(s, t, ReadLeave).(dataLock := s.dataLock - 1)
       case ReadLeave => s' == Move(s, t, Reading).(mutex := Nobody)
       case Reading => s' == Move(s, t, UnreadEnter)
       case UnreadEnter => s.mutex == Nobody && s' == Move(s, t, UnreadCount).(mutex := Thread(t))
       case UnreadCount =>
         s' == Move(s, t, if s.readerCount - 1 == 0 then UnreadRelease else UnreadLeave)
               .(readerCount := s.readerCount - 1)
       case UnreadRelease => s' == Move(s, t, UnreadLeave).(dataLock := Released(s.dataLock))
       case UnreadLeave => s' == Move(s, t, Idle).(mutex := Nobody)
       case WriteWait => s.dataLock > 0 && s' == Move(s, t, Writing).(dataLock := s.dataLock - 1)
       case Writing => s' == Move(s, t, Idle).(dataLock := Released(s.dataLock))
  }

  /** ReleaseSemaphore(dataLock, 1, ...): refused when the count is already at its maximum. */
  function Released(count: nat): nat {
    if count + 1 <= 1 then count + 1 else count
  }

  // ----- who holds what

  predicate HasMutex(p: Place) {
    p == ReadCount || p == ReadWait || p == ReadLeave || p == UnreadCount || p == UnreadRelease || p == UnreadLeave
  }

  /** Counted in readerCount. */
  predicate Counted(p: Place) {
    p == ReadWait || p == ReadLeave || p == Reading || p == UnreadEnter || p == UnreadCount
  }

  /** A reader on whose behalf dataLock is held. */
  predicate SharesData(p: Place) {
    p == ReadLeave || p == Reading || p == UnreadEnter || p == UnreadCount || p == UnreadRelease
  }

  predicate OwnsData(p: Place) { p == Writing }

  function Share(n: nat): nat {
    if n > 0 then 1 else 0
  }

  ghost predicate MutexInv(s: State) {
    && (s.mutex.Thread? ==> s.mutex.id < |s.places|)
    && forall t :: 0 <= t < |s.places| ==> (HasMutex(s.places[t]) <==> s.mutex == Thread(t))
  }

  /** readerCount counts, and the semaphore's one unit is free, with one writer, or shared by the
      readers. */
  ghost predicate CountInv(s: State) {
    && s.readerCount == Count(s.places, Counted)
    && s.dataLock + Count(s.places, OwnsData) + Share(Count(s.places, SharesData)) == 1
  }

  ghost predicate PlaceInv(s: State) {
    && (forall t :: 0 <= t < |s.places| && s.places[t] == ReadWait ==> s.readerCount == 1)
    && (forall t :: 0 <= t < |s.places| && s.places[t] == UnreadRelease ==> s.readerCount == 0)
  }

  ghost predicate Inv(s: State) {
    MutexInv(s) && CountInv(s) && PlaceInv(s)
  }

  // ----- counting

  lemma {:induction false} CountStart(threads: nat, f: Place -> bool)
    requires !f(Idle)
    ensures Count(seq(threads, i => Idle), f) == 0
  {
    CountWitness(seq(threads, i => Idle), f);
  }

  function One(b: bool): int {
    if b then 1 else 0
  }

  lemma MoveCounts(s: State, t: nat, p: Place)
    requires t < |s.places|
    ensures Count(s.places[t := p], Counted) == Count(s.places, Counted) - One(Counted(s.places[t])) + One(Counted(p))
    ensures Count(s.places[t := p], OwnsData) ==
            Count(s.places, OwnsData) - One(OwnsData(s.places[t])) + One(OwnsData(p))
    ensures Count(s.places[t := p], SharesData) ==
            Count(s.places, SharesData) - One(SharesData(s.places[t])) + One(SharesData(p))
  {
    CountMoved(s.places, Counted, t, p);
    CountMoved(s.places, OwnsData, t, p);
    CountMoved(s.places, SharesData, t, p);
  }

  // ----- every step keeps the invariant

  lemma StartInv(threads: nat)
    ensures Inv(Start(threads))
  {
    CountStart(threads, Counted);
    CountStart(threads, OwnsData);
    CountStart(threads, SharesData);
  }

  /** A counted reader that is not still waiting shares the data. */
  lemma CountedShares(s: State, u: nat)
    requires Inv(s) && u < |s.places| && Counted(s.places[u]) && s.places[u] != ReadWait
    ensures Count(s.places, SharesData) > 0
  {
    CountWitness(s.places, SharesData);
  }

  /** Inside mutex nobody else is waiting there for dataLock, so any other counted reader already
      shares the data. */
  lemma OtherReader(s: State, t: nat)
    requires Inv(s) && t < |s.places| && s.mutex == Thread(t) && !Counted(s.places[t]) && s.readerCount > 0
    ensures Count(s.places, SharesData) > 0
  {
    CountWitness(s.places, Counted);
    var u :| 0 <= u < |s.places| && Counted(s.places[u]);
    assert HasMutex(s.places[u]) ==> u == t;
    CountedShares(s, u);
  }

  /** The first reader waits while no reader has the data. */
  lemma FirstReaderAlone(s: State, t: nat)
    requires Inv(s) && t < |s.places| && s.places[t] == ReadWait
    ensures Count(s.places, SharesData) == 0
  {
    hide Count;
    forall u | 0 <= u < |s.places|
      ensures !SharesData(s.places[u])
    {
      if s.places[u] == UnreadRelease {
      } else if SharesData(s.places[u]) && u < t {
        CountTwo(s.places, Counted, u, t);
      } else if SharesData(s.places[u]) && t < u {
        CountTwo(s.places, Counted, t, u);
      }
    }
    CountWitness(s.places, SharesData);
  }

  /** After the last reader counts itself out only it stands for the readers. */
  lemma LastReader(s: State, t: nat)
    requires Inv(s) && t < |s.places| && s.places[t] == UnreadCount
    ensures s.readerCount >= 1
    ensures s.readerCount > 1 ==> Count(s.places[t := UnreadLeave], SharesData) > 0
  {
    CountWitness(s.places, Counted);
    if s.readerCount > 1 {
      MoveCounts(s, t, UnreadLeave);
      CountWitness(s.places[t := UnreadLeave], Counted);
      var u :| 0 <= u < |s.places| && Counted(s.places[t := UnreadLeave][u]);
      assert u != t && s.mutex == Thread(t);
      assert SharesData(s.places[t := UnreadLeave][u]);
      CountWitness(s.places[t := UnreadLeave], SharesData);
    }
  }

  lemma StepKeepsMutex(s: State, s': State, t: nat)
    requires MutexInv(s) && Step(s, s', t)
    ensures MutexInv(s')
  {
  }

  /** Only the thread with the mutex changes readerCount, so the two places that fix its value are
      safe from the others. */
  lemma StepKeepsPlaces(s: State, s': State, t: nat)
    requires MutexInv(s) && PlaceInv(s) && Step(s, s', t)
    ensures PlaceInv(s')
  {
    assert s'.readerCount != s.readerCount ==> s.mutex == Thread(t);
    assert forall u :: 0 <= u < |s'.places| && u != t ==> s'.places[u] == s.places[u];
  }

  lemma StepKeepsCounts(s: State, s': State, t: nat)
    requires Inv(s) && Step(s, s', t)
    ensures CountInv(s')
  {
    hide Count, MutexInv, PlaceInv;
    if s'.places != s.places {
      MoveCounts(s, t, s'.places[t]);
      assert s'.places == s.places[t := s'.places[t]];
    }
    match s.places[t] {
      case ReadCount =>
        InMutex(s, t);
        if s.readerCount > 0 {
          OtherReader(s, t);
        }
      case ReadWait =>
        FirstReaderAlone(s, t);
      case UnreadCount =>
        LastReader(s, t);
      case UnreadRelease =>
        AfterLastReader(s, t);
      case _ =>
    }
  }

  lemma InMutex(s: State, t: nat)
    requires MutexInv(s) && t < |s.places| && HasMutex(s.places[t])
    ensures s.mutex == Thread(t)
  {
  }

  /** One step of any thread. */
  lemma StepKeepsInv(s: State, s': State, t: nat)
    requires Inv(s) && Step(s, s', t)
    ensures Inv(s')
  {
    hide MutexInv, PlaceInv, CountInv, Step;
    StepKeepsMutex(s, s', t);
    StepKeepsPlaces(s, s', t);
    StepKeepsCounts(s, s', t);
  }

  lemma AfterLastReader(s: State, t: nat)
    requires Inv(s) && t < |s.places| && s.places[t] == UnreadRelease
    ensures Count(s.places, SharesData) == 1
  {
    hide Count;
    MoveCounts(s, t, Idle);
    var without := s.places[t := Idle];
    CountWitness(s.places, Counted);
    forall u | 0 <= u < |without|
      ensures !SharesData(without[u])
    {
      assert u != t ==> !HasMutex(s.places[u]) && !Counted(s.places[u]);
    }
    CountWitness(without, SharesData);
  }

  // ----- whole runs

  /** A run from the start: in each step some thread moves. */
  ghost predicate Run(run: seq<State>, threads: nat) {
    && |run| > 0 && run[0] == Start(threads)
    && forall i :: 0 < i < |run| ==> SomeStep(run[i - 1], run[i])
  }

  ghost predicate SomeStep(s: State, s': State) {
    exists t :: Step(s, s', t)
  }

  lemma {:induction false} RunKeepsInv(run: seq<State>, threads: nat)
    requires Run(run, threads)
    ensures forall i :: 0 <= i < |run| ==> Inv(run[i])
  {
    hide Inv, Step, Start;
    if |run| == 1 {
      StartInv(threads);
    } else {
      var last := |run| - 1;
      RunKeepsInv(run[..last], threads);
      assert SomeStep(run[last - 1], run[last]);
      var t :| Step(run[last - 1], run[last], t);
      assert Inv(run[..last][last - 1]);
      StepKeepsInv(run[last - 1], run[last], t);
      forall i | 0 <= i < |run|
        ensures Inv(run[i])
      {
        assert i < last ==> Inv(run[..last][i]);
      }
    }
  }

  /** Inside the lock, as a caller sees it: a reader between ReadLock and the release made for the
      readers, or a writer. */
  ghost predicate Safe(s: State) {
    && (forall t, u :: 0 <= t < |s.places| && 0 <= u < |s.places| ==>
          s.places[t] == Writing && s.places[u] == Writing ==> t == u)
    && (forall t, u :: 0 <= t < |s.places| && 0 <= u < |s.places| && s.places[t] == Writing ==>
          !SharesData(s.places[u]))
    && (s.dataLock == 0 <==> exists t :: 0 <= t < |s.places| && (s.places[t] == Writing || SharesData(s.places[t])))
    && s.dataLock <= 1
  }

  lemma InvIsSafe(s: State)
    requires Inv(s)
    ensures Safe(s)
  {
    CountWitness(s.places, OwnsData);
    CountWitness(s.places, SharesData);
    forall t, u | 0 <= t < |s.places| && 0 <= u < |s.places| && s.places[t] == Writing && s.places[u] == Writing
      ensures t == u
    {
      if t < u {
        CountTwo(s.places, OwnsData, t, u);
      } else if u < t {
        CountTwo(s.places, OwnsData, u, t);
      }
    }
    if t :| 0 <= t < |s.places| && (s.places[t] == Writing || SharesData(s.places[t])) {
      assert OwnsData(s.places[t]) || SharesData(s.places[t]);
    }
    if s.dataLock == 0 {
      if Count(s.places, OwnsData) > 0 {
        var t :| 0 <= t < |s.places| && OwnsData(s.places[t]);
        assert s.places[t] == Writing;
      }
    }
  }

  /** Over every interleaving of any number of threads: a writer never overlaps a reader or another
      writer, and dataLock is taken exactly while a writer or at least one reader has it. */
  lemma LockIsSafe(run: seq<State>, threads: nat)
    requires Run(run, threads)
    ensures forall i :: 0 <= i < |run| ==> Safe(run[i])
  {
    RunKeepsInv(run, threads);
    forall i | 0 <= i < |run|
      ensures Safe(run[i])
    {
      InvIsSafe(run[i]);
    }
  }

  /** No release is ever refused: WriteUnlock never finds the semaphore free, which it would log as
      an error, and neither does the last reader. */
  lemma ReleasesSucceed(run: seq<State>, threads: nat, i: nat, t: nat)
    requires Run(run, threads) && i < |run| && t < |run[i].places|
    requires run[i].places[t] == Writing || run[i].places[t] == UnreadRelease
    ensures run[i].dataLock == 0 && Released(run[i].dataLock) == 1
  {
    LockIsSafe(run, threads);
    assert Safe(run[i]);
    assert run[i].places[t] == Writing || SharesData(run[i].places[t]);
  }

  // ----- nobody waits for ever on a standstill

  predicate Blocked(s: State, t: nat)
    requires t < |s.places|
  {
    match s.places[t]
    case ReadEnter => s.mutex != Nobody
    case UnreadEnter => s.mutex != Nobody
    case ReadWait => s.dataLock == 0
    case WriteWait => s.dataLock == 0
    case _ => false
  }

  /** A thread that has the mutex or the data and can go on. */
  predicate Helper(s: State, h: nat) {
    h < |s.places| && (HasMutex(s.places[h]) || SharesData(s.places[h]) || s.places[h] == Writing) && !Blocked(s, h)
  }

  /** dataLock is taken while the first reader waits for it: then a writer has it. */
  lemma WriterHelps(s: State, m: nat) returns (h: nat)
    requires Inv(s) && m < |s.places| && s.places[m] == ReadWait && s.dataLock == 0
    ensures Helper(s, h) && s.places[h] == Writing
  {
    FirstReaderAlone(s, m);
    CountWitness(s.places, OwnsData);
    h :| 0 <= h < |s.places| && OwnsData(s.places[h]);
  }

  /** Somebody has the mutex: that thread can go on, or waits for a writer that can. */
  lemma MutexMoves(s: State) returns (h: nat)
    requires Inv(s) && s.mutex.Thread?
    ensures Helper(s, h)
    ensures h == s.mutex.id || s.places[h] == Writing
  {
    h := s.mutex.id;
    assert HasMutex(s.places[h]);
    if Blocked(s, h) {
      h := WriterHelps(s, h);
    }
  }

  /** Whenever a thread waits, another thread that holds what the wait is about, directly or through
      the first reader, can take a step. */
  lemma BlockedHasHelper(s: State, t: nat) returns (h: nat)
    requires Inv(s) && t < |s.places| && Blocked(s, t)
    ensures h != t && Helper(s, h)
  {
    match s.places[t] {
      case ReadWait =>
        h := WriterHelps(s, t);
      case WriteWait =>
        InvIsSafe(s);
        h :| 0 <= h < |s.places| && (s.places[h] == Writing || SharesData(s.places[h]));
        if Blocked(s, h) {
          h := MutexMoves(s);
        }
      case _ =>
        h := MutexMoves(s);
    }
  }

  /** How many steps a thread is from being back at Idle. */
  function Remaining(p: Place): nat {
    match p
    case Idle => 0 case Writing => 1 case WriteWait => 2
    case UnreadLeave => 1 case UnreadRelease => 2 case UnreadCount => 3 case UnreadEnter => 4
    case Reading => 5 case ReadLeave => 6 case ReadWait => 7 case ReadCount => 8 case ReadEnter => 9
  }

  function Total(places: seq<Place>): nat {
    if places == [] then 0 else Total(places[..|places| - 1]) + Remaining(places[|places| - 1])
  }

  lemma {:induction false} TotalMoved(places: seq<Place>, t: nat, p: Place)
    requires t < |places|
    ensures Total(places[t := p]) + Remaining(places[t]) == Total(places) + Remaining(p)
  {
    var n := |places| - 1;
    if t < n {
      assert places[t := p][..n] == places[..n][t := p];
      TotalMoved(places[..n], t, p);
    } else {
      assert places[t := p][..n] == places[..n];
    }
  }

  /** The step of a thread that can go on towards Idle. */
  function Onward(s: State, h: nat): State
    requires h < |s.places| && s.places[h] != Idle
  {
    match s.places[h]
    case ReadEnter => Move(s, h, ReadCount).(mutex := Thread(h))
    case ReadCount =>
      Move(s, h, if s.readerCount + 1 == 1 then ReadWait else ReadLeave).(readerCount := s.readerCount + 1)
    case ReadWait => Move(s, h, ReadLeave).(dataLock := if s.dataLock > 0 then s.dataLock - 1 else 0)
    case ReadLeave => Move(s, h, Reading).(mutex := Nobody)
    case Reading => Move(s, h, UnreadEnter)
    case UnreadEnter => Move(s, h, UnreadCount).(mutex := Thread(h))
    case UnreadCount =>
      Move(s, h, if s.readerCount - 1 == 0 then UnreadRelease else UnreadLeave).(readerCount := s.readerCount - 1)
    case UnreadRelease => Move(s, h, UnreadLeave).(dataLock := Released(s.dataLock))
    case UnreadLeave => Move(s, h, Idle).(mutex := Nobody)
    case WriteWait => Move(s, h, Writing).(dataLock := if s.dataLock > 0 then s.dataLock - 1 else 0)
    case Writing => Move(s, h, Idle).(dataLock := Released(s.dataLock))
  }

  lemma OnwardIsStep(s: State, h: nat)
    requires h < |s.places| && s.places[h] != Idle && !Blocked(s, h)
    ensures Step(s, Onward(s, h), h)
    ensures Remaining(Onward(s, h).places[h]) < Remaining(s.places[h])
    ensures Onward(s, h).places == s.places[h := Onward(s, h).places[h]]
  {
  }

  /** A helper's step brings it closer to Idle. */
  lemma HelperSteps(s: State, h: nat)
    requires Inv(s) && Helper(s, h)
    ensures Step(s, Onward(s, h), h) && Inv(Onward(s, h)) && Total(Onward(s, h).places) < Total(s.places)
    ensures |Onward(s, h).places| == |s.places|
    ensures forall u :: 0 <= u < |s.places| && u != h ==> Onward(s, h).places[u] == s.places[u]
  {
    hide Inv, Step, Onward, Total;
    OnwardIsStep(s, h);
    TotalMoved(s.places, h, Onward(s, h).places[h]);
    StepKeepsInv(s, Onward(s, h), h);
  }

  /** A run of other threads' steps that ends with t no longer blocked and still where it was. */
  ghost predicate Frees(run: seq<State>, who: seq<nat>, t: nat) {
    && |run| == |who| + 1
    && (forall i :: 0 <= i < |who| ==> who[i] != t && Step(run[i], run[i + 1], who[i]))
    && (forall i :: 0 <= i < |run| ==> t < |run[i].places|)
    && (forall i :: 0 <= i < |run| ==> run[i].places[t] == run[0].places[t])
    && !Blocked(run[|run| - 1], t)
  }

  /** From every reachable state, the threads already inside can by themselves reach a state in which
      a blocked thread can go on: no deadlock, although the first reader blocks holding the mutex. */
  lemma {:induction false} CanBeFreed(s: State, t: nat) returns (run: seq<State>, who: seq<nat>)
    requires Inv(s) && t < |s.places|
    ensures Frees(run, who, t) && run[0] == s
    ensures |who| <= Total(s.places)
    decreases Total(s.places)
  {
    hide Inv, Step, Total, Onward;
    if Blocked(s, t) {
      var h := BlockedHasHelper(s, t);
      HelperSteps(s, h);
      var s' := Onward(s, h);
      var run', who' := CanBeFreed(s', t);
      run, who := [s] + run', [h] + who';
      FreesExtended(s, s', h, run', who', t);
    } else {
      run, who := [s], [];
    }
  }

  lemma FreesExtended(s: State, s': State, h: nat, run: seq<State>, who: seq<nat>, t: nat)
    requires Frees(run, who, t) && run[0] == s' && h != t && Step(s, s', h)
    requires t < |s.places| && s'.places[t] == s.places[t]
    ensures Frees([s] + run, [h] + who, t)
  {
    hide Step, Blocked;
    var all, movers := [s] + run, [h] + who;
    forall i | 0 <= i < |movers|
      ensures movers[i] != t && Step(all[i], all[i + 1], movers[i])
    {
      if i > 0 {
        assert Step(run[i - 1], run[i], who[i - 1]);
      }
    }
  }
}
