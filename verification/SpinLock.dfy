/** The custom spin mode of CLock in Lock.cpp, as interleaved exchanges of any number of threads on
    the one word `m_customLock`. */
module SpinLock {
  import opened Counting

  /** A thread that failed its first exchange spins 4000 times, yields 4000 times, then sleeps
      between tries without end. */
  datatype Place = Outside | Spinning(left: nat) | Yielding(left: nat) | Sleeping | Inside

  datatype State = State(places: seq<Place>, customLock: int)

  const TRIES := 4000

  function Start(threads: nat): State {
    State(seq(threads, i => Outside), 0)
  }

  /** InterlockedExchange(&m_customLock, 1) by thread t, which goes in if it read 0. */
  function Exchange(s: State, t: nat, otherwise: Place): State
    requires t < |s.places|
  {
    State(s.places[t := if s.customLock == 0 then Inside else otherwise], 1)
  }

  ghost predicate Step(s: State, s': State, t: nat) {
    && t < |s.places|
    && match s.places[t]
       case Outside =>
         || s' == Exchange(s, t, Spinning(TRIES)) // Enter
         || s' == Exchange(s, t, Outside)         // TryEnter
       case Spinning(left) =>
         if left > 0 then s' == Exchange(s, t, Spinning(left - 1))
         else s' == s.(places := s.places[t := Yielding(TRIES)])
       case Yielding(left) =>
         if left > 0 then s' == Exchange(s, t, Yielding(left - 1)) else s' == s.(places := s.places[t := Sleeping])
       case Sleeping => s' == Exchange(s, t, Sleeping)
       case Inside => s' == State(s.places[t := Outside], 0) // Leave
  }

  predicate IsInside(p: Place) { p.Inside? }

  /** The word is 1 while a thread is inside and 0 otherwise. */
  ghost predicate Inv(s: State) {
    s.customLock == Count(s.places, IsInside) && s.customLock <= 1
  }

  lemma StepKeepsInv(s: State, s': State, t: nat)
    requires Inv(s) && Step(s, s', t)
    ensures Inv(s')
  {
    CountMoved(s.places, IsInside, t, s'.places[t]);
    CountWitness(s.places, IsInside);
    assert s'.places == s.places[t := s'.places[t]];
  }

  ghost predicate SomeStep(s: State, s': State) {
    exists t :: Step(s, s', t)
  }

  ghost predicate Run(run: seq<State>, threads: nat) {
    && |run| > 0 && run[0] == Start(threads)
    && forall i :: 0 < i < |run| ==> SomeStep(run[i - 1], run[i])
  }

  lemma {:induction false} RunKeepsInv(run: seq<State>, threads: nat, i: nat)
    requires Run(run, threads) && i < |run|
    ensures Inv(run[i])
  {
    hide Step;
    if i == 0 {
      CountWitness(Start(threads).places, IsInside);
    } else {
      RunKeepsInv(run, threads, i - 1);
      assert SomeStep(run[i - 1], run[i]);
      var t :| Step(run[i - 1], run[i], t);
      StepKeepsInv(run[i - 1], run[i], t);
    }
  }

  /** Over every interleaving: never two threads inside, and an exchange succeeds exactly when nobody
      is inside, so whoever tries next after Leave goes in. */
  lemma MutualExclusion(run: seq<State>, threads: nat, i: nat, t: nat, u: nat)
    requires Run(run, threads) && i < |run| && t < |run[i].places| && u < |run[i].places|
    ensures run[i].places[t] == Inside && run[i].places[u] == Inside ==> t == u
    ensures Exchange(run[i], t, Sleeping).places[t] == Inside <==>
            forall v :: 0 <= v < |run[i].places| ==> run[i].places[v] != Inside
  {
    RunKeepsInv(run, threads, i);
    var s := run[i];
    CountWitness(s.places, IsInside);
    if s.places[t] == Inside && s.places[u] == Inside && t < u {
      CountTwo(s.places, IsInside, t, u);
    } else if s.places[t] == Inside && s.places[u] == Inside && u < t {
      CountTwo(s.places, IsInside, u, t);
    }
    if s.customLock == 0 {
      assert forall v :: 0 <= v < |s.places| ==> !IsInside(s.places[v]);
    } else {
      var v :| 0 <= v < |s.places| && IsInside(s.places[v]);
      assert s.places[v] == Inside;
    }
  }

  /** A thread waiting in Enter never gives up: every step of its own leaves it waiting or inside. */
  lemma WaitersStay(s: State, s': State, t: nat)
    requires Step(s, s', t) && s.places[t] != Outside && s.places[t] != Inside
    ensures s'.places[t] != Outside
    ensures s'.places[t] == Inside ==> s.customLock == 0
  {
  }
}
