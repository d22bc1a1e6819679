/** Counting semaphores: acquire and release as atomic critical sections, in every interleaving. */
module Semaphore {
  import opened Basics
  import opened WaitQueue

  /** A waiter sleeps until a release readies it, and stays in the queue until it next runs. */
  datatype Phase = Idle | Asleep | Woken

  /** `count` is 1 when nothing is available and nobody waits. The rest records history: waiters and
      callers that were granted, releases, and releases that found nobody to wake. */
  datatype Sem = Sem(fifo: bool, keys: seq<nat>, count: int, queue: seq<nat>, phases: seq<Phase>,
                     granted: nat, posts: nat, lost: nat)

  /** The count is a signed 16-bit word. */
  function Short(c: int): int { (c + 0x8000) % 0x1_0000 - 0x8000 }

  predicate InShort(c: int) { -0x8000 <= c < 0x8000 }

  /** The count is compared through a signed byte. */
  function AsByte(c: int): int { (c + 128) % 256 - 128 }

  predicate InByte(c: int) { -128 <= c < 128 }

  /** Seen through a byte, the count is on the right side of zero. */
  predicate Compared(c: int) { AsByte(c) <= 0 <==> c <= 0 }

  function Max(a: int, b: int): int { if a < b then b else a }

  /** Sleepers among the first `n` threads. */
  function Sleepers(phases: seq<Phase>, n: nat): nat
    requires n <= |phases|
  {
    if n == 0 then 0 else Sleepers(phases, n - 1) + if phases[n - 1].Asleep? then 1 else 0
  }

  function Sleeping(s: Sem): nat { Sleepers(s.phases, |s.phases|) }

  predicate QueueOk(s: Sem) {
    && |s.keys| == |s.phases|
    && Known(s.keys, s.queue) && Distinct(s.queue)
    && (forall t :: 0 <= t < |s.phases| ==> (t in s.queue <==> s.phases[t] != Idle))
  }

  /** The accounts, for a semaphore created with `n` resources. Every release that found its waiter
      already awake leaves one more sleeper than the count knows of. */
  predicate Balanced(s: Sem, n: nat) {
    && s.count == 1 - n + s.granted + Sleeping(s) - s.posts
    && Sleeping(s) == Max(0, s.count - 1) + s.lost
  }

  predicate Inv(s: Sem, n: nat) { QueueOk(s) && InShort(s.count) && Balanced(s, n) }

  function Create(fifo: bool, keys: seq<nat>, n: nat): Sem {
    Sem(fifo, keys, Short(1 - n), [], seq(|keys|, i => Idle), 0, 0, 0)
  }

  function Enqueue(s: Sem, t: nat): Sem
    requires QueueOk(s) && t < |s.phases|
  {
    s.(queue := Insert(s.keys, s.fifo, s.queue, t), phases := s.phases[t := Asleep])
  }

  function Pend(s: Sem, t: nat): Sem
    requires QueueOk(s) && t < |s.phases| && s.phases[t] == Idle
  {
    if AsByte(s.count) <= 0 then s.(count := Short(s.count + 1), granted := s.granted + 1)
    else Enqueue(s, t).(count := Short(s.count + 1))
  }

  function TryPend(s: Sem): Sem {
    if AsByte(s.count) <= 0 then s.(count := Short(s.count + 1), granted := s.granted + 1) else s
  }

  /** A woken waiter runs on: it leaves the queue and holds what it was granted. */
  function Finish(s: Sem, t: nat): Sem
    requires t < |s.phases| && s.phases[t] == Woken
  {
    s.(queue := Remove(s.queue, t), phases := s.phases[t := Idle])
  }

  /** A release wakes the head of the queue; readying a thread that is already awake does nothing. When the
      count speaks of a waiter and there is none, that is an error. */
  function Post(s: Sem): Sem
    requires QueueOk(s)
  {
    var next := s.(count := Short(s.count - 1), posts := s.posts + 1);
    if s.count <= 1 || s.queue == [] then next
    else if s.phases[s.queue[0]].Asleep?
    then next.(phases := s.phases[s.queue[0] := Woken], granted := s.granted + 1)
    else next.(lost := s.lost + 1)
  }

  /* ---- Steps keep the accounts ---- */

  lemma {:induction false} SleepersUpdate(phases: seq<Phase>, n: nat, t: nat, p: Phase)
    requires n <= |phases| && t < |phases|
    ensures Sleepers(phases[t := p], n)
         == Sleepers(phases, n) + if t < n then (if p.Asleep? then 1 else 0) - (if phases[t].Asleep? then 1 else 0) else 0
  {
    if n > 0 { SleepersUpdate(phases, n - 1, t, p); }
  }

  lemma {:induction false} NoSleepers(phases: seq<Phase>, n: nat)
    requires n <= |phases|
    ensures Sleepers(phases, n) > 0 <==> exists t :: 0 <= t < n && phases[t].Asleep?
  {
    if n > 0 { NoSleepers(phases, n - 1); }
  }

  /** A new semaphore keeps correct accounts if and only if the number of its resources fits the count. */
  lemma CreateInv(fifo: bool, keys: seq<nat>, n: nat)
    ensures QueueOk(Create(fifo, keys, n))
    ensures Inv(Create(fifo, keys, n), n) <==> n <= 32769
  {
    NoSleepers(Create(fifo, keys, n).phases, |keys|);
  }

  /** Above one, the count speaks of a waiter that a release can find. */
  lemma CountSeesWaiter(s: Sem, n: nat)
    requires Inv(s, n) && s.count > 1
    ensures s.queue != []
  {
    NoSleepers(s.phases, |s.phases|);
    var t :| 0 <= t < |s.phases| && s.phases[t].Asleep?;
    assert t in s.queue;
  }

  /** The comparison through a byte is right exactly when the low byte has the sign of the count. */
  lemma ComparedIff(c: int)
    ensures Compared(c) <==> if c > 0 then 1 <= c % 256 < 128 else !(1 <= c % 256 < 128)
  {
  }

  /** In particular for every count that is a signed byte. */
  lemma ByteAgrees(c: int)
    requires InByte(c)
    ensures AsByte(c) == c && Compared(c)
  {
  }

  lemma ShortIs(c: int)
    ensures Short(c) == c <==> InShort(c)
  {
  }

  /** Cutting the count to 16 bits does not change its low byte. */
  lemma ShortKeepsByte(c: int)
    ensures AsByte(Short(c)) == AsByte(c)
  {
    var q := (c + 0x8000) / 0x1_0000;
    assert Short(c) == c - 0x1_0000 * q;
    hide Short;
    LowByte(c + 128, 256 * q);
  }

  lemma LowByte(a: int, k: int)
    ensures (a - 256 * k) % 256 == a % 256
  {
  }

  lemma {:induction false} SleepersBound(phases: seq<Phase>, n: nat)
    requires n <= |phases|
    ensures Sleepers(phases, n) <= n
  {
    if n > 0 { SleepersBound(phases, n - 1); }
  }

  /** With fewer than 127 threads the count never rises above a byte; so with at most 129 resources, and
      when nothing is released that was not granted, the comparison is right. */
  lemma FairUseCompared(s: Sem, n: nat)
    requires Inv(s, n) && |s.phases| < 127
    ensures s.count < 128
    ensures n <= 129 && s.posts <= s.granted ==> -128 <= s.count && Compared(s.count)
  {
    SleepersBound(s.phases, |s.phases|);
    if -128 <= s.count { ByteAgrees(s.count); }
  }

  /** A caller at a count of 128 is let through. */
  lemma ByteOverflows(s: Sem, t: nat)
    requires QueueOk(s) && t < |s.phases| && s.phases[t] == Idle && s.count == 128
    ensures Pend(s, t).granted == s.granted + 1
  {
  }

  lemma EnqueueKeeps(s: Sem, t: nat)
    requires QueueOk(s) && t < |s.phases| && s.phases[t] == Idle
    ensures QueueOk(Enqueue(s, t)) && Sleeping(Enqueue(s, t)) == Sleeping(s) + 1
  {
    SleepersUpdate(s.phases, |s.phases|, t, Asleep);
    InsertMembers(s.keys, s.fifo, s.queue, t);
    InsertDistinct(s.keys, s.fifo, s.queue, t);
    hide Insert, Sleepers;
  }

  lemma FinishKeeps(s: Sem, n: nat, t: nat)
    requires Inv(s, n) && t < |s.phases| && s.phases[t] == Woken
    ensures Inv(Finish(s, t), n)
  {
    SleepersUpdate(s.phases, |s.phases|, t, Idle);
    RemoveMembers(s.queue, t);
    hide Remove, Sleepers;
    var next := Finish(s, t);
    assert forall i :: 0 <= i < |next.queue| ==> next.queue[i] in next.queue;
  }

  lemma PendKeeps(s: Sem, n: nat, t: nat)
    requires Inv(s, n) && Compared(s.count) && t < |s.phases| && s.phases[t] == Idle
    ensures Inv(Pend(s, t), n)
  {
    hide Sleepers, QueueOk, Short, Insert;
    EnqueueKeeps(s, t);
    ShortIs(s.count + 1);
    QueueIgnoresCount(Enqueue(s, t), s.count + 1);
    QueueIgnoresCount(s, s.count + 1);
  }

  lemma QueueIgnoresCount(s: Sem, c: int)
    requires QueueOk(s)
    ensures QueueOk(s.(count := c)) && QueueOk(s.(count := c, granted := s.granted + 1))
  {
  }

  /** An acquire keeps the accounts exactly when its comparison is right. */
  lemma PendKeepsIff(s: Sem, n: nat, t: nat)
    requires Inv(s, n) && t < |s.phases| && s.phases[t] == Idle
    ensures Inv(Pend(s, t), n) <==> Compared(s.count)
  {
    if Compared(s.count) {
      PendKeeps(s, n, t);
    } else {
      EnqueueKeeps(s, t);
      ShortIs(s.count + 1);
      hide Enqueue, Sleepers, QueueOk, Short;
    }
  }

  /** A caller is granted a resource exactly when one is available, if the comparison is right, and
      exactly when none is, if it is wrong. */
  lemma GrantedIff(s: Sem, t: nat)
    requires QueueOk(s) && t < |s.phases| && s.phases[t] == Idle
    ensures Compared(s.count) <==> (Pend(s, t).granted > s.granted <==> s.count <= 0)
    ensures Compared(s.count) <==> (TryPend(s).granted > s.granted <==> s.count <= 0)
  {
    hide Insert, QueueOk;
  }

  lemma PostKeepsIff(s: Sem, n: nat)
    requires Inv(s, n)
    ensures s.count > 1 ==> s.queue != []
    ensures Inv(Post(s), n) <==> s.count > -0x8000
  {
    if s.count > 1 {
      CountSeesWaiter(s, n);
      SleepersUpdate(s.phases, |s.phases|, s.queue[0], Woken);
      assert s.queue[0] in s.queue;
    }
    ShortIs(s.count - 1);
    hide Sleepers, Short;
  }

  /* ---- Whole runs ---- */

  datatype Event = Acquire(t: nat) | Try | Return(t: nat) | Release

  predicate May(s: Sem, e: Event) {
    match e
    case Acquire(t) => t < |s.phases| && s.phases[t] == Idle
    case Try => true
    case Return(t) => t < |s.phases| && s.phases[t] == Woken
    case Release => true
  }

  function Step(s: Sem, e: Event): Sem
    requires QueueOk(s) && May(s, e)
  {
    match e
    case Acquire(t) => Pend(s, t)
    case Try => TryPend(s)
    case Return(t) => Finish(s, t)
    case Release => Post(s)
  }

  /** What a step needs for the accounts: an acquire, that its comparison is right; a try, that it does
      not take what is not there; a release, that the count is not at the end of its range. */
  predicate Rightly(s: Sem, e: Event) {
    match e
    case Acquire(_) => Compared(s.count)
    case Try => s.count > 0 ==> Compared(s.count)
    case Return(_) => true
    case Release => s.count > -0x8000
  }

  lemma StepKeepsIff(s: Sem, n: nat, e: Event)
    requires Inv(s, n) && May(s, e)
    ensures Inv(Step(s, e), n) <==> Rightly(s, e)
  {
    match e
    case Acquire(t) => PendKeepsIff(s, n, t);
    case Try => hide QueueOk; QueueIgnoresCount(s, s.count + 1);
    case Return(t) => FinishKeeps(s, n, t);
    case Release => PostKeepsIff(s, n);
  }

  lemma StepQueue(s: Sem, e: Event)
    requires QueueOk(s) && May(s, e)
    ensures QueueOk(Step(s, e)) && Step(s, e).keys == s.keys && Step(s, e).fifo == s.fifo
  {
    match e {
      case Acquire(t) => EnqueueKeeps(s, t);
      case Try =>
      case Return(t) => RemoveMembers(s.queue, t);
      case Release => assert s.queue != [] ==> s.queue[0] in s.queue;
    }
    hide Insert, Remove, Sleepers, Distinct;
    var next := Step(s, e);
    assert forall i :: 0 <= i < |next.queue| ==> next.queue[i] in next.queue;
  }

  ghost predicate Admissible(s: Sem, run: seq<Event>)
    requires QueueOk(s)
    decreases |run|
  {
    run == [] || (May(s, run[0]) && (StepQueue(s, run[0]); Admissible(Step(s, run[0]), run[1..])))
  }

  ghost function After(s: Sem, run: seq<Event>): Sem
    requires QueueOk(s) && Admissible(s, run)
    decreases |run|
  {
    if run == [] then s else
      StepQueue(s, run[0]);
      After(Step(s, run[0]), run[1..])
  }

  /** A run that keeps the accounts at every step. */
  ghost predicate AllRightly(s: Sem, run: seq<Event>)
    requires QueueOk(s) && Admissible(s, run)
    decreases |run|
  {
    run == [] || (Rightly(s, run[0]) && (StepQueue(s, run[0]); AllRightly(Step(s, run[0]), run[1..])))
  }

  lemma {:induction false} RunKeeps(s: Sem, n: nat, run: seq<Event>)
    requires Inv(s, n) && Admissible(s, run) && AllRightly(s, run)
    ensures Inv(After(s, run), n)
    decreases |run|
  {
    if run != [] {
      StepKeepsIff(s, n, run[0]);
      StepQueue(s, run[0]);
      hide Step, May, QueueOk, Balanced, Rightly;
      RunKeeps(Step(s, run[0]), n, run[1..]);
    }
  }

  /** In any run at all the queue holds exactly the threads that are not idle. */
  lemma {:induction false} RunQueue(s: Sem, run: seq<Event>)
    requires QueueOk(s) && Admissible(s, run)
    ensures QueueOk(After(s, run)) && After(s, run).keys == s.keys && After(s, run).fifo == s.fifo
    decreases |run|
  {
    if run != [] {
      StepQueue(s, run[0]);
      hide Step, May, QueueOk;
      RunQueue(Step(s, run[0]), run[1..]);
    }
  }

  /** The accounting identity in every interleaving: no more is granted than was there or came back,
      and the sleepers that the count does not announce are exactly the lost releases. */
  lemma Accounting(fifo: bool, keys: seq<nat>, n: nat, run: seq<Event>)
    requires Inv(Create(fifo, keys, n), n) && Admissible(Create(fifo, keys, n), run) && AllRightly(Create(fifo, keys, n), run)
    ensures var s := After(Create(fifo, keys, n), run);
            && s.count == 1 - n + s.granted + Sleeping(s) - s.posts
            && s.granted <= n + s.posts
            && Sleeping(s) - Max(0, s.count - 1) == s.lost
            && (s.lost == 0 ==> (Sleeping(s) > 0 <==> s.count > 1))
  {
    RunKeeps(Create(fifo, keys, n), n, run);
  }

  /** A release is lost exactly when somebody waits, the count says so, and the head is awake already. */
  lemma ReleaseLostIff(s: Sem, n: nat)
    requires Inv(s, n)
    ensures s.count > 1 ==> s.queue != []
    ensures Post(s).lost > s.lost <==> s.count > 1 && s.phases[s.queue[0]].Woken?
    ensures Sleeping(Post(s)) < Sleeping(s) <==> s.count > 1 && s.phases[s.queue[0]].Asleep?
  {
    PostKeepsIff(s, n);
    if s.count > 1 {
      assert s.queue[0] in s.queue;
      SleepersUpdate(s.phases, |s.phases|, s.queue[0], Woken);
    }
  }

  /* ---- Whom a release serves ---- */

  /** The position in the run of the last acquire by `t`, or -1. */
  ghost function LastAcquire(run: seq<Event>, t: nat): int
    decreases |run|
  {
    if run == [] then -1
    else
      var later := LastAcquire(run[1..], t);
      if later >= 0 then later + 1 else if run[0] == Acquire(t) then 0 else -1
  }

  /** For every thread the time of its last acquire; the run begins at time `now`. */
  ghost function Arrivals(since: seq<int>, run: seq<Event>, now: int): seq<int>
    decreases |run|
  {
    if run == [] then since
    else
      var e := run[0];
      Arrivals(if e.Acquire? && e.t < |since| then since[e.t := now] else since, run[1..], now + 1)
  }

  lemma {:induction false} ArrivalsAre(since: seq<int>, run: seq<Event>, now: int, t: nat)
    requires t < |since|
    ensures |Arrivals(since, run, now)| == |since|
    ensures Arrivals(since, run, now)[t] == if LastAcquire(run, t) >= 0 then now + LastAcquire(run, t) else since[t]
    decreases |run|
  {
    if run != [] {
      var e := run[0];
      ArrivalsAre(if e.Acquire? && e.t < |since| then since[e.t := now] else since, run[1..], now + 1, t);
    }
  }

  /** The queue is in the order in which its threads are to be served, and all of them arrived before `now`. */
  predicate Lined(s: Sem, since: seq<int>, now: int) {
    && Known(s.keys, s.queue) && |since| == |s.keys| && InTurn(s.keys, s.fifo, since, s.queue)
    && forall x <- s.queue :: since[x] < now
  }

  lemma StepLined(s: Sem, e: Event, since: seq<int>, now: int)
    requires QueueOk(s) && May(s, e) && Lined(s, since, now)
    ensures Lined(Step(s, e), if e.Acquire? && e.t < |since| then since[e.t := now] else since, now + 1)
  {
    match e
    case Acquire(t) =>
      InsertInTurn(s.keys, s.fifo, since, s.queue, t, now);
      InsertMembers(s.keys, s.fifo, s.queue, t);
      hide Insert, Before;
      assert t !in s.queue;
    case Try =>
    case Return(t) => RemoveInTurn(s.keys, s.fifo, since, s.queue, t);
    case Release =>
  }

  lemma {:induction false} RunLined(s: Sem, run: seq<Event>, since: seq<int>, now: int)
    requires QueueOk(s) && Admissible(s, run) && Lined(s, since, now)
    ensures Lined(After(s, run), Arrivals(since, run, now), now + |run|)
    decreases |run|
  {
    if run != [] {
      var e := run[0];
      StepQueue(s, e);
      StepLined(s, e, since, now);
      hide Step, May, QueueOk, Lined;
      RunLined(Step(s, e), run[1..], if e.Acquire? && e.t < |since| then since[e.t := now] else since, now + 1);
    }
  }

  /** Over every run: the thread that a release wakes is the first of all that are queued. A priority
      semaphore serves the least key, and among equal keys who asked first; a first-in-first-out one serves
      who asked first of all. */
  lemma ReleaseServesFirst(fifo: bool, keys: seq<nat>, n: nat, run: seq<Event>, t: nat, u: nat)
    requires QueueOk(Create(fifo, keys, n)) && Admissible(Create(fifo, keys, n), run) && t < |keys| && u < |keys| && u != t
    ensures var s := After(Create(fifo, keys, n), run);
            && QueueOk(s) && |s.phases| == |Post(s).phases| == |keys|
            && (s.phases[t].Asleep? && Post(s).phases[t].Woken? && s.phases[u] != Idle ==>
                  var asked, other := LastAcquire(run, t), LastAcquire(run, u);
                  if fifo then asked < other else keys[t] < keys[u] || (keys[t] == keys[u] && asked < other))
  {
    var s0 := Create(fifo, keys, n);
    var since := seq(|keys|, i => -1);
    RunQueue(s0, run);
    RunLined(s0, run, since, 0);
    ArrivalsAre(since, run, 0, t);
    ArrivalsAre(since, run, 0, u);
    var s := After(s0, run);
    hide After, Admissible, Arrivals, LastAcquire, Post, Lined;
    FirstServed(s, Arrivals(since, run, 0), |run|, t, u);
  }

  lemma FirstServed(s: Sem, since: seq<int>, now: int, t: nat, u: nat)
    requires QueueOk(s) && Lined(s, since, now) && t < |s.phases| && u < |s.phases| && t != u
    ensures |Post(s).phases| == |s.phases|
    ensures s.phases[t].Asleep? && Post(s).phases[t].Woken? && s.phases[u] != Idle ==> Before(s.keys, s.fifo, since, t, u)
  {
    if s.phases[t].Asleep? && Post(s).phases[t].Woken? && s.phases[u] != Idle {
      assert s.queue[0] == t;
      var i :| 0 <= i < |s.queue| && s.queue[i] == u;
      assert i > 0;
      hide QueueOk;
    }
  }

  /* ---- Inputs on which the code does less ---- */

  /** Some run leads there in which every comparison is right. */
  ghost predicate Reaches(s: Sem, z: Sem) {
    QueueOk(s) && exists run :: Admissible(s, run) && AllRightly(s, run) && After(s, run) == z
  }

  lemma ReachFirst(s: Sem, e: Event, z: Sem)
    requires QueueOk(s) && May(s, e) && Rightly(s, e) && Reaches(Step(s, e), z)
    ensures Reaches(s, z)
  {
    hide QueueOk, Step, May, Rightly;
    var run :| Admissible(Step(s, e), run) && AllRightly(Step(s, e), run) && After(Step(s, e), run) == z;
    assert ([e] + run)[1..] == run;
    assert Admissible(s, [e] + run) && AllRightly(s, [e] + run) && After(s, [e] + run) == z;
  }

  lemma ReachHere(s: Sem)
    requires QueueOk(s)
    ensures Reaches(s, s)
  {
    hide QueueOk;
    assert Admissible(s, []) && AllRightly(s, []) && After(s, []) == s;
  }

  /** A second release that comes before the woken head has run wakes nobody. */
  lemma SecondReleaseLost(s: Sem, n: nat)
    requires Inv(s, n) && s.count > 2 && s.queue != [] && s.queue[0] < |s.phases| && s.phases[s.queue[0]].Asleep?
    ensures Inv(Post(s), n) && Post(s).count > 1 && Post(s).queue != []
    ensures Post(Post(s)).lost == s.lost + 1 && Post(Post(s)).count == s.count - 2
  {
    PostKeepsIff(s, n);
    hide Inv, QueueOk;
  }

  lemma PendQueues(s: Sem, t: nat)
    requires QueueOk(s) && t < |s.phases| && s.phases[t] == Idle && 0 < s.count < 127
    ensures Compared(s.count)
    ensures var z := Pend(s, t); z.count == s.count + 1 && z.phases == s.phases[t := Asleep] && z.lost == s.lost
  {
    hide QueueOk, Insert;
    ByteAgrees(s.count);
    ShortIs(s.count + 1);
    hide Short, AsByte;
  }

  /** Two first callers of a semaphore without resources. */
  lemma TwoWait(s: Sem)
    requires Inv(s, 0) && s.count == 1 && |s.phases| >= 2 && s.lost == 0
    requires forall t :: 0 <= t < |s.phases| ==> s.phases[t] == Idle
    ensures var z := Pend(s, 0);
            Inv(z, 0) && z.phases[1] == Idle && z.count == 2
            && Inv(Pend(z, 1), 0) && Pend(z, 1).count == 3 && Pend(z, 1).lost == 0
            && forall i :: 0 <= i < |Pend(z, 1).queue| ==> Pend(z, 1).phases[Pend(z, 1).queue[i]] == Asleep
  {
    PendQueues(s, 0);
    PendKeeps(s, 0, 0);
    PendQueues(Pend(s, 0), 1);
    PendKeeps(Pend(s, 0), 0, 1);
    hide Pend, Sleepers, Short, AsByte;
    var z := Pend(Pend(s, 0), 1);
    forall i | 0 <= i < |z.queue| ensures z.phases[z.queue[i]] == Asleep { assert z.queue[i] in z.queue; }
  }

  /** Whatever the queue order: two waiters and three releases, the second before the first waiter has
      run, lead to a state where the other waiter still sleeps with one resource available. */
  lemma LostWakeup(fifo: bool, keys: seq<nat>)
    requires |keys| >= 2
    ensures exists z :: Reaches(Create(fifo, keys, 0), z) && z.count == 0 && Sleeping(z) == 1 && z.lost == 1
  {
    var s0 := Create(fifo, keys, 0);
    CreateInv(fifo, keys, 0);
    TwoWait(s0);
    var s2 := Pend(Pend(s0, 0), 1);
    CountSeesWaiter(s2, 0);
    SecondReleaseLost(s2, 0);
    var s3, s4 := Post(s2), Post(Post(s2));
    StepKeepsIff(s3, 0, Release);
    StepKeepsIff(s4, 0, Release);
    var z := Post(s4);
    assert z.count == 0 && z.lost == 1 && Sleeping(z) == 1 by { hide QueueOk, Sleeping, Pend; }
    LostChain(s0, z);
  }

  lemma LostChain(s: Sem, z: Sem)
    requires Inv(s, 0) && May(s, Acquire(0)) && s.count == 1
    requires var a := Pend(s, 0); Inv(a, 0) && May(a, Acquire(1)) && a.count == 2 && Inv(Pend(a, 1), 0) && Pend(a, 1).count == 3
    requires var b := Pend(Pend(s, 0), 1);
             && b.queue != [] && Inv(Post(b), 0) && Post(b).count == 2 && Post(b).queue != []
             && Inv(Post(Post(b)), 0) && Post(Post(b)).count == 1
             && z == Post(Post(Post(b))) && Inv(z, 0)
    ensures Reaches(s, z)
  {
    hide QueueOk, Balanced, Pend, Post;
    var s1 := Pend(s, 0);
    var s2 := Pend(s1, 1);
    ReachHere(z);
    hide Reaches;
    ReachFirst(Post(Post(s2)), Release, z);
    ReachFirst(Post(s2), Release, z);
    ReachFirst(s2, Release, z);
    ReachFirst(s1, Acquire(1), z);
    ReachFirst(s, Acquire(0), z);
  }

  /** The first caller of a semaphore created with `n` resources is granted one exactly when the low
      byte of `n` is 1 to 129: not without resources, but not with 130 to 256 of them either. */
  lemma FirstCallerGrantedIff(fifo: bool, keys: seq<nat>, n: nat, t: nat)
    requires t < |keys|
    ensures var s := Create(fifo, keys, n);
            && QueueOk(s) && s.phases[t] == Idle
            && (Pend(s, t).granted == 1 <==> 1 <= n % 256 <= 129)
            && (TryPend(s).granted == 1 <==> 1 <= n % 256 <= 129)
  {
    CreateInv(fifo, keys, n);
    ShortKeepsByte(1 - n);
    hide Short, QueueOk, Insert;
  }

  /** With 130 resources, all of them available, the first caller sleeps, and the accounts are off. */
  lemma FullSemaphoreBlocks(fifo: bool, keys: seq<nat>)
    requires keys != []
    ensures var s := Create(fifo, keys, 130);
            && Inv(s, 130) && s.count == -129 && s.phases[0] == Idle && !Compared(s.count)
            && Pend(s, 0).phases[0] == Asleep && Pend(s, 0).granted == 0 && Pend(s, 0).count <= 0
            && !Inv(Pend(s, 0), 130)
  {
    CreateInv(fifo, keys, 130);
    PendKeepsIff(Create(fifo, keys, 130), 130, 0);
  }

  datatype Result = Ok | WouldBlock | Suspended | Undefined

  /** The semaphore object; each method is one critical section under its lock. */
  class Ipc {
    const fifo: bool
    const keys: seq<nat>
    var count: int
    var queue: seq<nat>
    var phases: seq<Phase>
    ghost var granted: nat
    ghost var posts: nat
    ghost var lost: nat

    ghost function Now(): Sem
      reads this
    {
      Sem(fifo, keys, count, queue, phases, granted, posts, lost)
    }

    constructor (isFifo: bool, threadKeys: seq<nat>, resources: nat)
      ensures Now() == Create(isFifo, threadKeys, resources)
    {
      fifo, keys := isFifo, threadKeys;
      count, queue, phases := Short(1 - resources), [], seq(|threadKeys|, i => Idle);
      granted, posts, lost := 0, 0, 0;
    }

    /** A caller goes on or sleeps, as the byte says; the accounts are kept exactly when it says the truth. */
    method Wait(t: nat) returns (r: Result)
      requires QueueOk(Now()) && t < |phases| && phases[t] == Idle
      modifies this
      ensures Now() == Pend(old(Now()), t) && QueueOk(Now())
      ensures forall n: nat :: Inv(old(Now()), n) ==> (Inv(Now(), n) <==> Compared(old(count)))
      ensures r == if Compared(old(count)) <==> old(count) <= 0 then Ok else Suspended
    {
      StepQueue(Now(), Acquire(t));
      forall n: nat | Inv(Now(), n) ensures Inv(Pend(Now(), t), n) <==> Compared(count) { PendKeepsIff(Now(), n, t); }
      hide Sleepers, Insert, QueueOk, Balanced;
      if AsByte(count) <= 0 {
        count := Short(count + 1);
        granted := granted + 1;
        return Ok;
      }
      count := Short(count + 1);
      phases := phases[t := Asleep];
      queue := Inserted(keys, fifo, queue, t);
      return Suspended;
    }

    method TryWait() returns (r: Result)
      requires QueueOk(Now())
      modifies this
      ensures Now() == TryPend(old(Now())) && QueueOk(Now())
      ensures forall n: nat :: Inv(old(Now()), n) ==> (Inv(Now(), n) <==> (old(count) > 0 ==> Compared(old(count))))
      ensures r == if Compared(old(count)) <==> old(count) <= 0 then Ok else WouldBlock
    {
      StepQueue(Now(), Try);
      forall n: nat | Inv(Now(), n) ensures Inv(TryPend(Now()), n) <==> Rightly(Now(), Try) { StepKeepsIff(Now(), n, Try); }
      hide QueueOk, Balanced;
      if AsByte(count) <= 0 {
        count := Short(count + 1);
        granted := granted + 1;
        return Ok;
      }
      return WouldBlock;
    }

    /** The second critical section of a waiter, once it runs again. */
    method Resume(t: nat)
      requires QueueOk(Now()) && t < |phases| && phases[t] == Woken
      modifies this
      ensures Now() == Finish(old(Now()), t) && QueueOk(Now())
      ensures forall n: nat :: Inv(old(Now()), n) ==> Inv(Now(), n)
    {
      StepQueue(Now(), Return(t));
      forall n: nat | Inv(Now(), n) ensures Inv(Finish(Now(), t), n) { FinishKeeps(Now(), n, t); }
      hide Sleepers, Remove, QueueOk, Balanced;
      queue := Removed(queue, t);
      phases := phases[t := Idle];
    }

    /** While the accounts are kept the missing-waiter error is unreachable. */
    method Signal() returns (r: Result)
      requires QueueOk(Now())
      modifies this
      ensures Now() == Post(old(Now())) && QueueOk(Now())
      ensures r == if old(count) > 1 && old(queue) == [] then Undefined else Ok
      ensures count == Short(old(count) - 1) && queue == old(queue)
      ensures forall n: nat :: Inv(old(Now()), n) ==> r == Ok && (Inv(Now(), n) <==> old(count) > -0x8000)
    {
      StepQueue(Now(), Release);
      forall n: nat | Inv(Now(), n)
        ensures (count > 1 ==> queue != []) && (Inv(Post(Now()), n) <==> count > -0x8000)
      {
        PostKeepsIff(Now(), n);
      }
      hide QueueOk, Balanced;
      posts := posts + 1;
      if count <= 1 {
        count := Short(count - 1);
        return Ok;
      }
      count := Short(count - 1);
      if queue == [] { return Undefined; }
      if phases[queue[0]].Asleep? {
        phases := phases[queue[0] := Woken];
        granted := granted + 1;
      } else {
        lost := lost + 1;
      }
      return Ok;
    }
  }
}
