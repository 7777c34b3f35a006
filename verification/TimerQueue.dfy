/** The timers of Job.cpp: a priority queue ordered by a comparison of 32-bit ticks that wraps, and a
    cached copy of its earliest tick. */
module TimerQueue {
  import opened Arithmetic
  import opened Counting
  import opened Pieces

  const TOP_TICK_EXPIRE: int := 24 * 3600 * 1000

  /** `(LONG)d` for a 32-bit d. */
  function Signed(d: int): int {
    if d < HALF then d else d - W
  }

  /** `(LONG)(a - b)` */
  function Gap(a: int, b: int): int {
    Signed((a - b) % W)
  }

  // ----- what the comparison means

  /** For two times less than a whole wrap apart: comparing their ticks orders them exactly when they
      are within a half range. */
  lemma GapOrdersIff(x: int, y: int)
    requires -W < x - y < W
    ensures (Gap(x % W, y % W) > 0 <==> x > y) <==> -HALF <= x - y < HALF
    ensures -HALF <= x - y < HALF ==> Gap(x % W, y % W) == x - y
  {
    var q := x / W - y / W;
    assert x == x / W * W + x % W && y == y / W * W + y % W;
    assert x % W - y % W == (x - y) - q * W;
    if x >= y {
      Quotient(x % W - y % W, -q, W, x - y);
    } else {
      Quotient(x % W - y % W, -q - 1, W, x - y + W);
    }
  }

  /** Outside a half range the comparison is not even an order: three ticks, each later than the
      next around a circle. */
  lemma GapCycles()
    ensures Gap(0x6000_0000, 0) > 0 && Gap(0xc000_0000, 0x6000_0000) > 0 && Gap(0, 0xc000_0000) > 0
  {
  }

  /** Ticks after the given base. */
  function Off(base: int, tick: int): (o: int)
    ensures 0 <= o < W
  {
    (tick - base) % W
  }

  ghost predicate InWindow(base: int, tick: int) {
    0 <= tick < W && Off(base, tick) < HALF
  }

  /** Inside a half-range window, wherever it starts and whether or not it wraps, the comparison is
      the order of the times. */
  lemma GapIsOff(base: int, a: int, b: int)
    requires InWindow(base, a) && InWindow(base, b)
    ensures Gap(a, b) == Off(base, a) - Off(base, b)
    ensures a == b <==> Off(base, a) == Off(base, b)
  {
    var x, y := base + Off(base, a), base + Off(base, b);
    Back(base, a);
    Back(base, b);
    GapOrdersIff(x, y);
  }

  lemma Back(base: int, tick: int)
    requires 0 <= tick < W
    ensures (base + Off(base, tick)) % W == tick
  {
    var d := tick - base;
    assert d == d / W * W + d % W;
    Quotient(base + Off(base, tick), -(d / W), W, tick);
  }

  // ----- the queue

  datatype Timer = Timer(target: nat, tick: int)

  /** `operator<`: a timer is less than another when it is due later. */
  predicate Less(left: Timer, right: Timer) {
    Gap(left.tick, right.tick) > 0
  }

  /** An entry `std::priority_queue::top` may give: nothing in the queue is greater. */
  ghost predicate IsTop(queue: seq<Timer>, i: nat) {
    i < |queue| && forall k :: 0 <= k < |queue| ==> !Less(queue[i], queue[k])
  }

  ghost predicate AllInWindow(base: int, queue: seq<Timer>) {
    forall i :: 0 <= i < |queue| ==> InWindow(base, queue[i].tick)
  }

  /** `tick` is the earliest tick in the queue. */
  ghost predicate Earliest(base: int, queue: seq<Timer>, tick: int) {
    && (exists i :: 0 <= i < |queue| && queue[i].tick == tick)
    && forall i :: 0 <= i < |queue| ==> Off(base, tick) <= Off(base, queue[i].tick)
  }

  predicate Due(base: int, now: int, timer: Timer) {
    Off(base, timer.tick) <= Off(base, now)
  }

  /** The tick `PushTimer` leaves in `m_topTick`. */
  function NewTop(topTick: int, tick: int): int {
    if Gap(topTick, tick) > 0 then tick else topTick
  }

  lemma PushKeepsEarliest(base: int, queue: seq<Timer>, topTick: int, timer: Timer)
    requires AllInWindow(base, queue) && InWindow(base, timer.tick) && Earliest(base, queue, topTick)
    ensures Earliest(base, queue + [timer], NewTop(topTick, timer.tick))
    ensures Off(base, NewTop(topTick, timer.tick)) <= Off(base, topTick)
  {
    hide Off, Gap;
    var i :| 0 <= i < |queue| && queue[i].tick == topTick;
    GapIsOff(base, topTick, timer.tick);
    var all := queue + [timer];
    assert all[i] == queue[i] && all[|queue|] == timer;
  }

  /** Exactly when a push leaves the earlier of two times as the cached tick. */
  lemma PushKeepsEarlierIff(top: int, time: int)
    requires -W < top - time < W && top != time
    ensures NewTop(top % W, time % W) == (if time < top then time else top) % W <==> -HALF <= top - time < HALF
  {
    GapOrdersIff(top, time);
    var q := top / W - time / W;
    assert top % W == time % W ==> top - time == q * W;
  }

  lemma TopIsEarliest(base: int, queue: seq<Timer>, i: nat)
    requires AllInWindow(base, queue) && IsTop(queue, i)
    ensures Earliest(base, queue, queue[i].tick)
  {
    hide Off, Gap;
    forall k | 0 <= k < |queue|
      ensures Off(base, queue[i].tick) <= Off(base, queue[k].tick)
    {
      GapIsOff(base, queue[i].tick, queue[k].tick);
    }
  }

  lemma EarliestIsUnique(base: int, queue: seq<Timer>, tick: int, tick': int)
    requires AllInWindow(base, queue) && Earliest(base, queue, tick) && Earliest(base, queue, tick')
    ensures tick == tick'
  {
    hide Off;
    GapIsOff(base, tick, tick');
  }

  /** The window moves with time: once nothing before `tick` is pending it can start there, so a run
      may wrap any number of times. */
  lemma WindowSlides(base: int, tick: int, queue: seq<Timer>, topTick: int)
    requires AllInWindow(base, queue) && InWindow(base, tick) && Earliest(base, queue, topTick)
    requires forall i :: 0 <= i < |queue| ==> !Due(base, tick, queue[i])
    ensures AllInWindow(tick, queue) && Earliest(tick, queue, topTick) && InWindow(tick, tick)
  {
    hide Off, Gap;
    forall i | 0 <= i < |queue|
      ensures InWindow(tick, queue[i].tick)
      ensures Off(tick, queue[i].tick) == Off(base, queue[i].tick) - Off(base, tick)
    {
      SlideOne(base, tick, queue[i].tick);
    }
    SlideOne(base, tick, tick);
  }

  lemma SlideOne(base: int, tick: int, t: int)
    requires InWindow(base, tick) && InWindow(base, t) && Off(base, tick) <= Off(base, t)
    ensures InWindow(tick, t) && Off(tick, t) == Off(base, t) - Off(base, tick)
  {
    GapIsOff(base, t, tick);
  }

  // ----- the object

  /** pIOTopTimer, the timer that is always queued. */
  const TOP: nat := 0

  predicate IsTopTimer(timer: Timer) { timer.target == TOP }

  /** What one callback does: the clock it reads, and the timers it pushes. */
  datatype Callback = Callback(now: int, pushes: seq<Timer>)

  /** Callbacks run no earlier than the sampled tick, push timers of their own inside the window, and
      leave room in it for the top timer's next turn. */
  ghost predicate Orderly(base: int, tick: int, callback: Callback) {
    && InWindow(base, callback.now) && Off(base, tick) <= Off(base, callback.now) < HALF - TOP_TICK_EXPIRE
    && AllInWindow(base, callback.pushes)
    && forall i :: 0 <= i < |callback.pushes| ==> callback.pushes[i].target != TOP
  }

  /** A day after a time in the window. */
  lemma Tomorrow(base: int, now: int)
    requires InWindow(base, now) && Off(base, now) < HALF - TOP_TICK_EXPIRE
    ensures InWindow(base, (TOP_TICK_EXPIRE + now) % W)
    ensures Off(base, (TOP_TICK_EXPIRE + now) % W) == Off(base, now) + TOP_TICK_EXPIRE
  {
    var t := (TOP_TICK_EXPIRE + now) % W;
    assert TOP_TICK_EXPIRE + now == (TOP_TICK_EXPIRE + now) / W * W + t;
    var d := now - base;
    assert d == d / W * W + d % W;
    Quotient(t - base, d / W - (TOP_TICK_EXPIRE + now) / W, W, Off(base, now) + TOP_TICK_EXPIRE);
  }

  /** What a fired timer's callback adds to the queue: its own pushes, and for the top timer the
      top timer again, a day later. */
  function Added(target: nat, callback: Callback): seq<Timer> {
    callback.pushes + (if target == TOP then [Timer(TOP, (TOP_TICK_EXPIRE + callback.now) % W)] else [])
  }

  /** The callback of the n-th timer a drain fires. */
  function CallbackOf(script: seq<Callback>, last: int, n: nat): Callback {
    if n < |script| then script[n] else Callback(last, [])
  }

  /** What the callbacks of the timers fired add to the queue, in order. */
  function AllAdded(fired: seq<Timer>, script: seq<Callback>, last: int): seq<Timer> {
    if fired == [] then []
    else
      var n := |fired| - 1;
      AllAdded(fired[..n], script, last) + Added(fired[n].target, CallbackOf(script, last, n))
  }

  lemma OneMoreAdded(fired: seq<Timer>, top: Timer, script: seq<Callback>, last: int)
    ensures AllAdded(fired + [top], script, last) ==
            AllAdded(fired, script, last) + Added(top.target, CallbackOf(script, last, |fired|))
  {
    assert (fired + [top])[..|fired|] == fired;
  }

  /** Nothing still queued is due before anything fired, and the timers fired are in order. */
  ghost predicate InOrder(base: int, fired: seq<Timer>, queue: seq<Timer>) {
    && (forall i, j :: 0 <= i < j < |fired| ==> Off(base, fired[i].tick) <= Off(base, fired[j].tick))
    && forall i, k :: 0 <= i < |fired| && 0 <= k < |queue| ==> Off(base, fired[i].tick) <= Off(base, queue[k].tick)
  }

  ghost predicate NoPushes(script: seq<Callback>) {
    forall i :: 0 <= i < |script| ==> script[i].pushes == []
  }

  /** What happens to the timers of a job: another thread pushes one, or the timer thread has a turn. */
  datatype Event =
    | Push(target: nat, milisec: int, now: int)
    | Turn(tick: int, script: seq<Callback>, last: int)

  /** A turn within half a wrap of the last one, with callbacks that keep to the window. */
  ghost predicate TimelyTurn(base: int, tick: int, script: seq<Callback>, last: int) {
    && InWindow(base, tick) && Orderly(base, tick, Callback(last, []))
    && forall i :: 0 <= i < |script| ==> Orderly(base, tick, script[i])
  }

  /** The tick of the last turn. */
  ghost function BaseAfter(base: int, events: seq<Event>): int {
    if events == [] then base
    else
      var last := events[|events| - 1];
      if last.Turn? then last.tick else BaseAfter(base, events[..|events| - 1])
  }

  ghost predicate TimelyEvent(base: int, event: Event) {
    match event
    case Push(target, milisec, now) => InWindow(base, (milisec + now) % W) && target != TOP
    case Turn(tick, script, last) => TimelyTurn(base, tick, script, last)
  }

  /** Every event is timely, counted from the last turn before it. */
  ghost predicate Timely(base: int, events: seq<Event>) {
    forall i :: 0 <= i < |events| ==> TimelyEvent(BaseAfter(base, events[..i]), events[i])
  }

  /** What an event puts into the queue, when it fires these timers. */
  function PushedBy(event: Event, fired: seq<Timer>): seq<Timer> {
    match event
    case Push(target, milisec, now) => [Timer(target, (milisec + now) % W)]
    case Turn(_, script, last) => AllAdded(fired, script, last)
  }

  function AllPushed(events: seq<Event>, turns: seq<seq<Timer>>): seq<Timer>
    requires |turns| == |events|
  {
    if events == [] then []
    else
      var n := |events| - 1;
      AllPushed(events[..n], turns[..n]) + PushedBy(events[n], turns[n])
  }

  /** The timers queued after these events, when there were `start` before. */
  ghost function QueueAfter(start: multiset<Timer>, events: seq<Event>, turns: seq<seq<Timer>>): multiset<Timer>
    requires |turns| == |events|
  {
    start + multiset(AllPushed(events, turns)) - multiset(Joined(turns))
  }

  /** The last of these events fired what it should: a push nothing; a turn only timers due at its
      tick, all of them, and in order if the callbacks push nothing of their own. */
  ghost predicate FiredRight(base: int, start: multiset<Timer>, events: seq<Event>, turns: seq<seq<Timer>>)
    requires |turns| == |events| > 0
  {
    var n := |events| - 1;
    match events[n]
    case Push(_, _, _) => turns[n] == []
    case Turn(tick, script, _) =>
      var b := BaseAfter(base, events[..n]);
      && (forall k :: 0 <= k < |turns[n]| ==> Due(b, tick, turns[n][k]))
      && (forall timer :: timer in QueueAfter(start, events, turns) ==> !Due(b, tick, timer))
      && (NoPushes(script) ==> InOrder(b, turns[n], []))
  }

  /** What one event fires, with the queue it leaves. */
  ghost predicate FiredNow(base: int, event: Event, fired: seq<Timer>, queue: seq<Timer>) {
    match event
    case Push(_, _, _) => fired == []
    case Turn(tick, script, _) =>
      && (forall k :: 0 <= k < |fired| ==> Due(base, tick, fired[k]))
      && (forall k :: 0 <= k < |queue| ==> !Due(base, tick, queue[k]))
      && (NoPushes(script) ==> InOrder(base, fired, queue))
  }

  class CJob {
    var m_timerQueue: seq<Timer>
    var m_topTick: int
    var m_terminating: bool

    /** What holds whenever the lock is free and the job is not terminating. */
    ghost predicate Valid(base: int)
      reads this
    {
      && !m_terminating
      && AllInWindow(base, m_timerQueue) && Earliest(base, m_timerQueue, m_topTick)
      && Count(m_timerQueue, IsTopTimer) == 1
    }

    /** The queue starts with the top timer, due in a day. */
    constructor (now: int)
      requires 0 <= now < W
      ensures Valid(now)
      ensures m_timerQueue == [Timer(TOP, m_topTick)] && m_topTick == (TOP_TICK_EXPIRE + now) % W
    {
      m_terminating := false;
      m_topTick := (TOP_TICK_EXPIRE + now) % W;
      m_timerQueue := [Timer(TOP, (TOP_TICK_EXPIRE + now) % W)];
      new;
      Tomorrow(now, now);
      assert m_timerQueue[0].tick == m_topTick;
      CountAppended([], IsTopTimer, m_timerQueue[0]);
    }

    /** `m_timerQueue.top()` */
    method Top(ghost base: int) returns (i: nat)
      requires |m_timerQueue| > 0 && AllInWindow(base, m_timerQueue)
      ensures IsTop(m_timerQueue, i)
    {
      hide Off, Gap;
      i := 0;
      for k := 1 to |m_timerQueue|
        invariant i < k
        invariant forall j :: 0 <= j < k ==> Off(base, m_timerQueue[i].tick) <= Off(base, m_timerQueue[j].tick)
      {
        GapIsOff(base, m_timerQueue[i].tick, m_timerQueue[k].tick);
        if Less(m_timerQueue[i], m_timerQueue[k]) {
          i := k;
        }
      }
      forall k | 0 <= k < |m_timerQueue|
        ensures !Less(m_timerQueue[i], m_timerQueue[k])
      {
        GapIsOff(base, m_timerQueue[i].tick, m_timerQueue[k].tick);
      }
    }

    /** `PushTimer`; `wake` says that the waiting timer thread is signalled. */
    method PushTimer(target: nat, milisec: int, now: int, setEvent: bool) returns (ok: bool, wake: bool)
      modifies this
      ensures ok == !old(m_terminating) && m_terminating == old(m_terminating)
      ensures !ok ==> m_timerQueue == old(m_timerQueue) && m_topTick == old(m_topTick) && !wake
      ensures ok ==>
                var tick := (milisec + now) % W;
                && m_timerQueue == old(m_timerQueue) + [Timer(target, tick)]
                && m_topTick == NewTop(old(m_topTick), tick)
                && (wake <==> setEvent && Gap(old(m_topTick), tick) > 0)
    {
      var tick := (milisec + now) % W;
      wake := false;
      if m_terminating {
        ok := false;
        return;
      }
      m_timerQueue := m_timerQueue + [Timer(target, tick)];
      ok := true;
      if Gap(m_topTick, tick) > 0 {
        m_topTick := tick;
        wake := setEvent;
      }
    }

    /** Another thread's push, when the lock is free: the cached tick stays the earliest, never moves
        later, and the timer thread is woken whenever it moves. */
    method PushWhenFree(target: nat, milisec: int, now: int, ghost base: int) returns (wake: bool)
      requires Valid(base) && InWindow(base, (milisec + now) % W) && target != TOP
      modifies this
      ensures Valid(base) && m_timerQueue == old(m_timerQueue) + [Timer(target, (milisec + now) % W)]
      ensures Off(base, m_topTick) <= Off(base, old(m_topTick))
      ensures wake <==> m_topTick != old(m_topTick)
    {
      ghost var timer := Timer(target, (milisec + now) % W);
      PushKeepsEarliest(base, m_timerQueue, m_topTick, timer);
      CountAppended(m_timerQueue, IsTopTimer, timer);
      GapIsOff(base, m_topTick, timer.tick);
      var ok;
      ok, wake := PushTimer(target, milisec, now, true);
    }

    /** `pObject->OnTimerCallback()` inside the drain: the top timer registers itself again, and any
        callback may push. */
    method OnTimerCallback(target: nat, callback: Callback, ghost base: int, ghost tick: int)
      returns (pushed: seq<Timer>)
      requires !m_terminating && AllInWindow(base, m_timerQueue) && Orderly(base, tick, callback)
      modifies this
      ensures !m_terminating && AllInWindow(base, m_timerQueue)
      ensures pushed == Added(target, callback)
      ensures m_timerQueue == old(m_timerQueue) + pushed
    {
      hide Off, Gap;
      pushed := [];
      for i := 0 to |callback.pushes|
        invariant !m_terminating && pushed == callback.pushes[..i]
        invariant m_timerQueue == old(m_timerQueue) + pushed
      {
        m_timerQueue := m_timerQueue + [callback.pushes[i]];
        m_topTick := NewTop(m_topTick, callback.pushes[i].tick);
        pushed := pushed + [callback.pushes[i]];
      }
      if target == TOP {
        Tomorrow(base, callback.now);
        var ok, wake := PushTimer(TOP, TOP_TICK_EXPIRE, callback.now, true);
        pushed := pushed + [Timer(TOP, (TOP_TICK_EXPIRE + callback.now) % W)];
      }
    }

    /** The drain of `RunTimer`, lock held, after `tick` was sampled and found not before the cached
        tick. The callbacks do what `script` says, one entry a time, and then only what the top timer
        does. */
    method Drain(tick: int, script: seq<Callback>, last: int, ghost base: int)
      returns (fired: seq<Timer>, pushed: seq<Timer>)
      requires Valid(base) && InWindow(base, tick) && Off(base, m_topTick) <= Off(base, tick)
      requires Orderly(base, tick, Callback(last, []))
      requires forall i :: 0 <= i < |script| ==> Orderly(base, tick, script[i])
      modifies this
      ensures Valid(base)
      // no timer early, none due left
      ensures forall i :: 0 <= i < |fired| ==> Due(base, tick, fired[i])
      ensures forall i :: 0 <= i < |m_timerQueue| ==> !Due(base, tick, m_timerQueue[i])
      // every timer queued or pushed is fired or still queued, once
      ensures multiset(m_timerQueue) + multiset(fired) == multiset(old(m_timerQueue)) + multiset(pushed)
      ensures pushed == AllAdded(fired, script, last)
      // in tick order, if the callbacks push nothing of their own
      ensures NoPushes(script) ==> InOrder(base, fired, m_timerQueue)
      ensures |fired| > 0
    {
      hide Off, Gap, Count, Orderly, Added, IsTop, Earliest, AllAdded, InOrder, NoPushes;
      ghost var due := (timer: Timer) => Due(base, tick, timer);
      fired, pushed := [], [];
      NothingFired(base, m_timerQueue, script, last);
      SomeTimer(m_timerQueue);
      var i: nat := Top(base);
      IndexOfTop(m_timerQueue, i);
      EarliestIsDue(base, m_timerQueue, m_topTick, i, tick);
      while true
        invariant !m_terminating && AllInWindow(base, m_timerQueue) && Count(m_timerQueue, IsTopTimer) == 1
        invariant 0 <= i < |m_timerQueue| && IsTop(m_timerQueue, i) && Due(base, tick, m_timerQueue[i])
        invariant forall k :: 0 <= k < |fired| ==> Due(base, tick, fired[k])
        invariant multiset(m_timerQueue) + multiset(fired) == multiset(old(m_timerQueue)) + multiset(pushed)
        invariant pushed == AllAdded(fired, script, last)
        invariant NoPushes(script) ==> InOrder(base, fired, m_timerQueue)
        decreases if |fired| < |script| then |script| - |fired| else 0, Count(m_timerQueue, due)
      {
        var callback := CallbackOf(script, last, |fired|);
        ghost var before := m_timerQueue;
        var top, added := Fire(i, callback, base, tick);
        Balance(multiset(before), multiset(m_timerQueue), multiset(fired), multiset(old(m_timerQueue)),
                multiset(pushed),
                multiset{top}, multiset(added));
        assert multiset(fired + [top]) == multiset(fired) + multiset{top};
        assert multiset(pushed + added) == multiset(pushed) + multiset(added);
        OneMoreAdded(fired, top, script, last);
        if NoPushes(script) {
          NoPush(script, last, |fired|);
          StaysInOrder(base, fired, before, i, tick, callback);
        }
        fired, pushed := fired + [top], pushed + added;
        SomeTimer(m_timerQueue);
        i := Top(base);
        IndexOfTop(m_timerQueue, i);
        GapIsOff(base, m_timerQueue[i].tick, tick);
        if Gap(m_timerQueue[i].tick, tick) > 0 {
          TopIsEarliest(base, m_timerQueue, i);
          NoneDue(base, m_timerQueue, m_timerQueue[i].tick, tick);
          m_topTick := m_timerQueue[i].tick;
          break;
        }
      }
    }

    /** One turn of the loop of `RunTimer`, up to its wait. Afterwards the window starts at the sampled
        tick, so the next turn may be any time within half a wrap of this one. */
    method Turn(tick: int, script: seq<Callback>, last: int, ghost base: int)
      returns (fired: seq<Timer>, pushed: seq<Timer>)
      requires Valid(base) && TimelyTurn(base, tick, script, last)
      modifies this
      ensures Valid(tick)
      ensures fired == [] <==> !Due(base, tick, Timer(TOP, old(m_topTick)))
      ensures forall i :: 0 <= i < |fired| ==> Due(base, tick, fired[i])
      ensures forall i :: 0 <= i < |m_timerQueue| ==> !Due(base, tick, m_timerQueue[i])
      ensures multiset(m_timerQueue) + multiset(fired) == multiset(old(m_timerQueue)) + multiset(pushed)
      ensures pushed == AllAdded(fired, script, last)
      ensures NoPushes(script) ==> InOrder(base, fired, m_timerQueue)
    {
      hide Off, Gap, Count, Orderly, AllAdded, NoPushes;
      fired, pushed := [], [];
      EarliestInWindow(base, m_timerQueue, m_topTick);
      GapIsOff(base, m_topTick, tick);
      NothingFired(base, m_timerQueue, script, last);
      if Gap(m_topTick, tick) <= 0 {
        fired, pushed := Drain(tick, script, last, base);
      } else {
        NoneDue(base, m_timerQueue, m_topTick, tick);
      }
      WindowSlides(base, tick, m_timerQueue, m_topTick);
    }

    /** Any run of turns of the timer thread and pushes of other threads, in any order; `turns` is what
        each event fired. */
    method RunEvents(events: seq<Event>, ghost base: int) returns (turns: seq<seq<Timer>>)
      requires Valid(base) && Timely(base, events)
      modifies this
      ensures Valid(BaseAfter(base, events))
      ensures |turns| == |events|
      ensures multiset(m_timerQueue) + multiset(Joined(turns)) ==
              multiset(old(m_timerQueue)) + multiset(AllPushed(events, turns))
      ensures forall n :: 1 <= n <= |events| ==>
                FiredRight(base, multiset(old(m_timerQueue)), events[..n], turns[..n])
    {
      hide Off, Gap, Count, Orderly, Due, Valid, TimelyEvent, FiredRight, BaseAfter, Joined, AllPushed;
      turns := [];
      ghost var start := multiset(m_timerQueue);
      NothingYet(base);
      assert events[..0] == [];
      for i := 0 to |events|
        invariant |turns| == i && Valid(BaseAfter(base, events[..i]))
        invariant multiset(m_timerQueue) + multiset(Joined(turns)) == start + multiset(AllPushed(events[..i], turns))
        invariant forall n :: 1 <= n <= i ==> FiredRight(base, start, events[..n], turns[..n])
      {
        ghost var before, earlier := m_timerQueue, turns;
        var fired := Happen(events[i], BaseAfter(base, events[..i]));
        turns := turns + [fired];
        OneMoreEvent(base, start, events[..i], earlier, events[i], fired, before, m_timerQueue);
        assert events[..i + 1] == events[..i] + [events[i]];
        assert forall n :: 1 <= n <= i ==> turns[..n] == earlier[..n];
        assert turns[..i + 1] == turns;
      }
      assert events[..|events|] == events;
    }

    /** One event. */
    method Happen(event: Event, ghost base: int) returns (fired: seq<Timer>)
      requires Valid(base) && TimelyEvent(base, event)
      modifies this
      ensures Valid(if event.Turn? then event.tick else base)
      ensures multiset(m_timerQueue) + multiset(fired) ==
              multiset(old(m_timerQueue)) + multiset(PushedBy(event, fired))
      ensures FiredNow(base, event, fired, m_timerQueue)
    {
      hide Off, Gap, Count, Orderly, Due, AllAdded, InOrder, NoPushes;
      match event {
        case Push(target, milisec, now) =>
          fired := [];
          var wake := PushWhenFree(target, milisec, now, base);
        case Turn(tick, script, last) =>
          var pushed;
          fired, pushed := Turn(tick, script, last, base);
      }
    }

    /** One turn of the drain: `pop` and the callback of what was on top. */
    method Fire(i: nat, callback: Callback, ghost base: int, ghost tick: int) returns (top: Timer, added: seq<Timer>)
      requires !m_terminating && AllInWindow(base, m_timerQueue) && Count(m_timerQueue, IsTopTimer) == 1
      requires i < |m_timerQueue| && Due(base, tick, m_timerQueue[i]) && Orderly(base, tick, callback)
      modifies this
      ensures top == old(m_timerQueue)[i]
      ensures !m_terminating && AllInWindow(base, m_timerQueue) && Count(m_timerQueue, IsTopTimer) == 1
      ensures multiset(m_timerQueue) + multiset{top} == multiset(old(m_timerQueue)) + multiset(added)
      ensures added == Added(top.target, callback)
      ensures m_timerQueue == Without(old(m_timerQueue), i) + added
      ensures var due := (timer: Timer) => Due(base, tick, timer);
              callback.pushes == [] ==> Count(m_timerQueue, due) < Count(old(m_timerQueue), due)
    {
      hide Off, Gap, Count, Added;
      top := m_timerQueue[i];
      OneTopTimer(m_timerQueue, i, base, tick, callback);
      FewerDue(m_timerQueue, i, base, tick, callback);
      MultisetWithout(m_timerQueue, i);
      m_timerQueue := Without(m_timerQueue, i);
      added := OnTimerCallback(top.target, callback, base, tick);
    }
  }

  lemma Balance<T>(queue: multiset<T>, queue': multiset<T>, fired: multiset<T>, start: multiset<T>, pushed: multiset<T>,
                   top: multiset<T>, added: multiset<T>)
    requires queue + fired == start + pushed && queue' + top == queue + added
    ensures queue' + (fired + top) == start + (pushed + added)
  {
    assert queue' + (fired + top) == (queue' + top) + fired;
    assert (queue + added) + fired == (queue + fired) + added;
    assert (start + pushed) + added == start + (pushed + added);
  }

  lemma NothingFired(base: int, queue: seq<Timer>, script: seq<Callback>, last: int)
    ensures AllAdded([], script, last) == [] && InOrder(base, [], queue)
  {
  }

  lemma NoPush(script: seq<Callback>, last: int, n: nat)
    requires NoPushes(script)
    ensures CallbackOf(script, last, n).pushes == []
  {
  }

  /** Firing the entry on top, with a callback that pushes nothing of its own, keeps the order. */
  lemma StaysInOrder(base: int, fired: seq<Timer>, before: seq<Timer>, i: nat, tick: int, callback: Callback)
    requires AllInWindow(base, before) && IsTop(before, i) && Due(base, tick, before[i])
    requires Orderly(base, tick, callback) && callback.pushes == [] && InOrder(base, fired, before)
    ensures InOrder(base, fired + [before[i]], Without(before, i) + Added(before[i].target, callback))
  {
    hide Off;
    TopIsEarliest(base, before, i);
    var left, added := Without(before, i), Added(before[i].target, callback);
    if before[i].target == TOP {
      Tomorrow(base, callback.now);
    }
    var after: seq<Timer> := left + added;
    forall k | 0 <= k < |after|
      ensures Off(base, before[i].tick) <= Off(base, after[k].tick)
      ensures forall f :: 0 <= f < |fired| ==> Off(base, fired[f].tick) <= Off(base, after[k].tick)
    {
      if k < |left| {
        assert left[k] == before[if k < i then k else k + 1];
      }
    }
  }

  lemma NothingYet(base: int)
    ensures BaseAfter(base, []) == base && Joined<Timer>([]) == [] && AllPushed([], []) == []
  {
  }

  lemma Appended(base: int, events: seq<Event>, turns: seq<seq<Timer>>, event: Event, fired: seq<Timer>)
    requires |turns| == |events|
    ensures BaseAfter(base, events + [event]) == if event.Turn? then event.tick else BaseAfter(base, events)
    ensures Joined(turns + [fired]) == Joined(turns) + fired
    ensures AllPushed(events + [event], turns + [fired]) == AllPushed(events, turns) + PushedBy(event, fired)
  {
    assert (events + [event])[..|events|] == events && (turns + [fired])[..|turns|] == turns;
  }

  /** One more event: the balance of the queue, and what the event fired. */
  lemma OneMoreEvent(base: int, start: multiset<Timer>, events: seq<Event>, turns: seq<seq<Timer>>, event: Event,
                     fired: seq<Timer>, before: seq<Timer>, after: seq<Timer>)
    requires |turns| == |events|
    requires multiset(before) + multiset(Joined(turns)) == start + multiset(AllPushed(events, turns))
    requires multiset(after) + multiset(fired) == multiset(before) + multiset(PushedBy(event, fired))
    requires FiredNow(BaseAfter(base, events), event, fired, after)
    ensures BaseAfter(base, events + [event]) == if event.Turn? then event.tick else BaseAfter(base, events)
    ensures multiset(after) + multiset(Joined(turns + [fired])) ==
            start + multiset(AllPushed(events + [event], turns + [fired]))
    ensures FiredRight(base, start, events + [event], turns + [fired])
  {
    hide Due, BaseAfter, Joined, AllPushed, PushedBy, InOrder, NoPushes;
    Appended(base, events, turns, event, fired);
    Balance(multiset(before), multiset(after), multiset(Joined(turns)), start, multiset(AllPushed(events, turns)),
            multiset(fired), multiset(PushedBy(event, fired)));
    assert multiset(Joined(turns) + fired) == multiset(Joined(turns)) + multiset(fired);
    assert multiset(AllPushed(events, turns) + PushedBy(event, fired)) ==
           multiset(AllPushed(events, turns)) + multiset(PushedBy(event, fired));
    assert QueueAfter(start, events + [event], turns + [fired]) == multiset(after);
    assert (events + [event])[..|events|] == events;
    if event.Turn? && NoPushes(event.script) {
      OrderAlone(BaseAfter(base, events), fired, after);
    }
  }

  lemma OrderAlone(base: int, fired: seq<Timer>, queue: seq<Timer>)
    requires InOrder(base, fired, queue)
    ensures InOrder(base, fired, [])
  {
  }

  lemma SomeTimer(queue: seq<Timer>)
    requires Count(queue, IsTopTimer) == 1
    ensures |queue| > 0
  {
  }

  lemma IndexOfTop(queue: seq<Timer>, i: nat)
    requires IsTop(queue, i)
    ensures i < |queue|
  {
  }

  lemma EarliestInWindow(base: int, queue: seq<Timer>, tick: int)
    requires AllInWindow(base, queue) && Earliest(base, queue, tick)
    ensures InWindow(base, tick)
  {
  }

  lemma NoneDue(base: int, queue: seq<Timer>, topTick: int, tick: int)
    requires Earliest(base, queue, topTick) && Off(base, tick) < Off(base, topTick)
    ensures forall k :: 0 <= k < |queue| ==> !Due(base, tick, queue[k])
  {
  }

  /** When the cached tick is due, so is the entry on top. */
  lemma EarliestIsDue(base: int, queue: seq<Timer>, topTick: int, i: nat, tick: int)
    requires AllInWindow(base, queue) && Earliest(base, queue, topTick) && IsTop(queue, i)
    requires Off(base, topTick) <= Off(base, tick)
    ensures Due(base, tick, queue[i])
  {
    TopIsEarliest(base, queue, i);
    EarliestIsUnique(base, queue, topTick, queue[i].tick);
  }

  /** The top timer is queued once before and after any firing. */
  lemma OneTopTimer(before: seq<Timer>, i: nat, base: int, tick: int, callback: Callback)
    requires i < |before| && Orderly(base, tick, callback) && Count(before, IsTopTimer) == 1
    ensures Count(Without(before, i) + Added(before[i].target, callback), IsTopTimer) == 1
  {
    hide Off, Count;
    var left, added := Without(before, i), Added(before[i].target, callback);
    CountWithout(before, IsTopTimer, i);
    CountNone(left, IsTopTimer, callback.pushes);
    if before[i].target == TOP {
      assert left + added == left + callback.pushes + [added[|added| - 1]];
      CountAppended(left + callback.pushes, IsTopTimer, added[|added| - 1]);
    } else {
      assert left + added == left + callback.pushes;
    }
  }

  /** A firing whose callback pushes nothing of its own leaves fewer timers due. */
  lemma FewerDue(before: seq<Timer>, i: nat, base: int, tick: int, callback: Callback)
    requires i < |before| && Orderly(base, tick, callback) && Due(base, tick, before[i])
    ensures var due := (timer: Timer) => Due(base, tick, timer);
            callback.pushes == [] ==>
              Count(Without(before, i) + Added(before[i].target, callback), due) < Count(before, due)
  {
    hide Off, Count;
    var due := (timer: Timer) => Due(base, tick, timer);
    var left, added := Without(before, i), Added(before[i].target, callback);
    CountWithout(before, due, i);
    if callback.pushes == [] {
      if before[i].target == TOP {
        Tomorrow(base, callback.now);
        assert left + added == left + [added[0]];
        CountAppended(left, due, added[0]);
      } else {
        assert left + added == left;
      }
    }
  }

  lemma {:induction false} CountNone<T>(s: seq<T>, f: T -> bool, added: seq<T>)
    requires forall i :: 0 <= i < |added| ==> !f(added[i])
    ensures Count(s + added, f) == Count(s, f)
  {
    if added == [] {
      assert s + added == s;
    } else {
      var n := |added| - 1;
      assert s + added == s + added[..n] + [added[n]];
      CountNone(s, f, added[..n]);
      CountAppended(s + added[..n], f, added[n]);
    }
  }
}
