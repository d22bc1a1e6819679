/** The distributed priority-ceiling protocol: one ceiling system (the local or the global one of a
    core) as a state machine whose steps are its critical sections. */
module CeilingProtocol {
  import opened Basics
  import opened WaitQueue

  /** Where a thread is in a request. It queues itself in one critical section and goes to sleep in a
      later one; `Unqueued` was taken off the queue in between, and `Lost` then slept all the same. */
  datatype Phase = Running | Queued(res: nat) | Asleep(res: nat) | Woken(res: nat)
                 | Unqueued(res: nat) | Lost(res: nat)

  datatype Thread = Thread(prio: nat, phase: Phase)

  /** `count` belongs to the binary semaphore of the resource: 0 when it is available. */
  datatype Dpcp = Dpcp(core: nat, ceiling: nat, holder: Option<nat>, count: int)

  /** `stack` lists the held resources, last acquired first. `keys` orders the wait queue: the
      priorities the threads were created with. */
  datatype State = State(local: bool, keys: seq<nat>, prio: nat, stack: seq<nat>, wait: seq<nat>,
                         dpcps: seq<Dpcp>, threads: seq<Thread>)

  function Ceiling(s: State, d: nat): nat
    requires d < |s.dpcps|
  {
    s.dpcps[d].ceiling
  }

  /** The value at the top of the stack; the queue head holds the maximum. */
  function Top(s: State, stack: seq<nat>): nat
    requires forall i :: 0 <= i < |stack| ==> stack[i] < |s.dpcps|
  {
    if stack == [] then MAX_PRIO_NUM else Ceiling(s, stack[0])
  }

  predicate InQueue(p: Phase) { p.Queued? || p.Asleep? }

  predicate StackOk(s: State) {
    && Ascending(s, s.stack)
    && (forall i :: 0 <= i < |s.stack| ==> Ceiling(s, s.stack[i]) < MAX_PRIO_NUM)
    && s.prio == Top(s, s.stack)
  }

  predicate HoldersOk(s: State) {
    forall d :: 0 <= d < |s.dpcps| ==>
      if d in s.stack
      then s.dpcps[d].count == 1 && s.dpcps[d].holder.Some? && s.dpcps[d].holder.value < |s.threads|
      else s.dpcps[d].count == 0 && s.dpcps[d].holder.None?
  }

  predicate WaitOk(s: State) {
    && |s.keys| == |s.threads|
    && Known(s.keys, s.wait) && Distinct(s.wait) && Sorted(s.keys, s.wait)
    && (forall t :: 0 <= t < |s.threads| ==> (t in s.wait <==> InQueue(s.threads[t].phase)))
  }

  predicate Inv(s: State) { StackOk(s) && HoldersOk(s) && WaitOk(s) }

  /** The system as it is set up: nothing held, nobody waiting. */
  function Fresh(s: State): (r: State)
    ensures |s.keys| == |s.threads| ==> Inv(r) && Live(r)
  {
    s.(prio := MAX_PRIO_NUM, stack := [], wait := [],
       dpcps := seq(|s.dpcps|, i requires 0 <= i < |s.dpcps| => s.dpcps[i].(holder := None, count := 0)),
       threads := seq(|s.threads|, i requires 0 <= i < |s.threads| => s.threads[i].(phase := Running)))
  }

  /** What every caller of a request promises: it is not more urgent than the ceiling says. */
  predicate MayAttempt(s: State, c: nat, d: nat) {
    && c < |s.threads| && d < |s.dpcps|
    && (s.threads[c].phase == Running || s.threads[c].phase == Woken(d))
    && Ceiling(s, d) <= s.threads[c].prio < MAX_PRIO_NUM
  }

  function SetPhase(s: State, c: nat, p: Phase): State
    requires c < |s.threads|
  {
    s.(threads := s.threads[c := s.threads[c].(phase := p)])
  }

  function SetPrio(s: State, t: nat, p: nat): State
    requires t < |s.threads|
  {
    s.(threads := s.threads[t := s.threads[t].(prio := p)])
  }

  /** The system is closed to the caller: lend it to the holder (local systems only) and queue. */
  function Blocked(s: State, c: nat, d: nat): State
    requires Inv(s) && MayAttempt(s, c, d) && s.stack != []
  {
    var lent := if s.local then SetPrio(s, s.dpcps[s.stack[0]].holder.value, s.threads[c].prio) else s;
    SetPhase(lent, c, Queued(d)).(wait := Insert(s.keys, false, s.wait, c))
  }

  function Acquired(s: State, c: nat, d: nat): State
    requires Inv(s) && MayAttempt(s, c, d)
  {
    SetPhase(s, c, Running)
      .(prio := Ceiling(s, d), stack := [d] + s.stack,
        dpcps := s.dpcps[d := s.dpcps[d].(holder := Some(c), count := 1)])
  }

  /** One evaluation of the request loop, by a new caller or by one just woken. */
  function Attempt(s: State, c: nat, d: nat): State
    requires Inv(s) && MayAttempt(s, c, d)
  {
    if s.threads[c].prio >= s.prio then Blocked(s, c, d) else Acquired(s, c, d)
  }

  function WakeFirst(s: State): State
    requires WaitOk(s)
  {
    if s.wait == [] then s else
      var t := s.wait[0];
      var p := s.threads[t].phase;
      SetPhase(s, t, if p.Asleep? then Woken(p.res) else Unqueued(p.res)).(wait := s.wait[1..])
  }

  /** A release by `c`; a thread that is not the holder changes nothing. */
  function Post(s: State, c: nat, d: nat): State
    requires Inv(s) && c < |s.threads| && d < |s.dpcps|
  {
    if s.dpcps[d].holder != Some(c) then s else
      var stack := Remove(s.stack, d);
      WithoutSorted(s, s.stack, d);
      WakeFirst(s).(prio := Top(s, stack), stack := stack,
                    dpcps := s.dpcps[d := s.dpcps[d].(holder := None, count := 0)])
  }

  function Sleep(s: State, c: nat): State
    requires c < |s.threads| && (s.threads[c].phase.Queued? || s.threads[c].phase.Unqueued?)
  {
    var p := s.threads[c].phase;
    SetPhase(s, c, if p.Queued? then Asleep(p.res) else Lost(p.res))
  }

  /** A new ceiling; the system priority follows it when the resource is on top of the stack. */
  function SetCeiling(s: State, d: nat, p: nat): State
    requires d < |s.dpcps|
  {
    s.(dpcps := s.dpcps[d := s.dpcps[d].(ceiling := p)],
       prio := if s.stack != [] && s.stack[0] == d then p else s.prio)
  }

  /** The new ceiling still fits between the neighbours of the resource on the stack. */
  predicate CeilingFits(s: State, d: nat, p: nat)
    requires Inv(s) && d < |s.dpcps|
  {
    forall i :: 0 <= i < |s.stack| && s.stack[i] == d ==>
      && p < MAX_PRIO_NUM
      && (i > 0 ==> Ceiling(s, s.stack[i - 1]) < p)
      && (i + 1 < |s.stack| ==> p < Ceiling(s, s.stack[i + 1]))
  }

  predicate Ascending(s: State, stack: seq<nat>) {
    && (forall i :: 0 <= i < |stack| ==> stack[i] < |s.dpcps|)
    && (forall i, j :: 0 <= i < j < |stack| ==> Ceiling(s, stack[i]) < Ceiling(s, stack[j]))
  }

  lemma {:induction false} WithoutSorted(s: State, stack: seq<nat>, d: nat)
    requires Ascending(s, stack)
    ensures Ascending(s, Remove(stack, d))
    ensures forall x :: x in Remove(stack, d) <==> x in stack && x != d
  {
    assert Distinct(stack);
    RemoveMembers(stack, d);
    if stack != [] {
      var rest := stack[1..];
      assert forall i :: 0 <= i < |rest| ==> rest[i] == stack[i + 1];
      if stack[0] != d {
        WithoutSorted(s, rest, d);
        var r := Remove(rest, d);
        forall i | 0 <= i < |r|
          ensures Ceiling(s, stack[0]) < Ceiling(s, r[i])
        {
          assert r[i] in rest;
        }
      }
    }
  }

  /* ---- Every step keeps the invariant ---- */

  /** A closed system has a holder to lend to; an open one has the resource free, a ceiling below
      every held one, and a semaphore that does not block. */
  lemma AttemptMeets(s: State, c: nat, d: nat)
    requires Inv(s) && MayAttempt(s, c, d)
    ensures s.threads[c].prio >= s.prio ==>
              && s.stack != [] && s.dpcps[s.stack[0]].holder.Some?
              && s.dpcps[s.stack[0]].holder.value < |s.threads|
    ensures s.threads[c].prio < s.prio ==>
              && s.dpcps[d].holder.None? && s.dpcps[d].count == 0
              && (forall x <- s.stack :: s.threads[c].prio < Ceiling(s, x))
  {
    if s.threads[c].prio < s.prio {
      forall x | x in s.stack
        ensures s.threads[c].prio < Ceiling(s, x)
      {
        TopIsLeast(s, x);
      }
    }
  }

  /** The system priority is the smallest ceiling of all held resources. */
  lemma TopIsLeast(s: State, d: nat)
    requires StackOk(s) && d in s.stack
    ensures s.prio <= Ceiling(s, d) && s.stack != [] && s.prio == Ceiling(s, s.stack[0])
  {
    var i :| 0 <= i < |s.stack| && s.stack[i] == d;
    if i > 0 { assert Ceiling(s, s.stack[0]) < Ceiling(s, s.stack[i]); }
  }

  lemma StackSame(s: State, t: State)
    requires StackOk(s) && t.stack == s.stack && t.dpcps == s.dpcps && t.prio == s.prio
    ensures StackOk(t)
  {
  }

  lemma HoldersSame(s: State, t: State)
    requires HoldersOk(s) && t.stack == s.stack && t.dpcps == s.dpcps && |t.threads| == |s.threads|
    ensures HoldersOk(t)
  {
  }

  /** The wait queue depends on the keys and on who is queued, not on priorities. */
  lemma WaitSame(s: State, t: State)
    requires WaitOk(s) && t.wait == s.wait && t.keys == s.keys && |t.threads| == |s.threads|
    requires forall i :: 0 <= i < |s.threads| ==> InQueue(t.threads[i].phase) == InQueue(s.threads[i].phase)
    ensures WaitOk(t)
  {
  }

  lemma BlockedKeeps(s: State, c: nat, d: nat)
    requires Inv(s) && MayAttempt(s, c, d) && s.stack != []
    ensures Inv(Blocked(s, c, d))
  {
    var next := Blocked(s, c, d);
    assert c !in s.wait by { hide StackOk, HoldersOk, Place; }
    hide StackOk, HoldersOk, WaitOk, Insert;
    StackSame(s, next);
    HoldersSame(s, next);
    var lent := if s.local then SetPrio(s, s.dpcps[s.stack[0]].holder.value, s.threads[c].prio) else s;
    WaitSame(s, lent);
    InsertKeeps(lent, c, Queued(d));
  }

  lemma InsertKeeps(s: State, c: nat, p: Phase)
    requires WaitOk(s) && c < |s.threads| && c !in s.wait && InQueue(p)
    ensures WaitOk(SetPhase(s, c, p).(wait := Insert(s.keys, false, s.wait, c)))
  {
    InsertMembers(s.keys, false, s.wait, c);
    InsertDistinct(s.keys, false, s.wait, c);
    InsertSorted(s.keys, s.wait, c);
    hide Insert, Distinct, Sorted;
  }

  lemma AcquiredKeeps(s: State, c: nat, d: nat)
    requires Inv(s) && MayAttempt(s, c, d) && s.threads[c].prio < s.prio
    ensures Inv(Acquired(s, c, d))
  {
    AttemptMeets(s, c, d);
    var next := Acquired(s, c, d);
    assert StackOk(next) by { PushKeeps(s, next, d); }
    assert HoldersOk(next) by {
      hide StackOk, WaitOk;
      assert forall x :: x in next.stack <==> x == d || x in s.stack;
    }
    assert WaitOk(next) by {
      hide StackOk, HoldersOk;
      assert c !in s.wait;
    }
  }

  lemma PushKeeps(s: State, next: State, d: nat)
    requires StackOk(s) && d < |s.dpcps| && Ceiling(s, d) < MAX_PRIO_NUM
    requires forall x <- s.stack :: x < |s.dpcps| && Ceiling(s, d) < Ceiling(s, x)
    requires next.stack == [d] + s.stack && next.prio == Ceiling(s, d) && |next.dpcps| == |s.dpcps|
    requires forall x :: 0 <= x < |s.dpcps| ==> next.dpcps[x].ceiling == s.dpcps[x].ceiling
    ensures StackOk(next)
  {
    forall i, j | 0 <= i < j < |next.stack|
      ensures next.stack[i] < |next.dpcps| && next.stack[j] < |next.dpcps|
              && Ceiling(next, next.stack[i]) < Ceiling(next, next.stack[j])
    {
      assert next.stack[j] == s.stack[j - 1] && s.stack[j - 1] in s.stack;
    }
  }

  lemma WakeFirstKeeps(s: State)
    requires WaitOk(s)
    ensures WaitOk(WakeFirst(s))
  {
    if s.wait != [] {
      var next := WakeFirst(s);
      assert forall i :: 0 <= i < |next.wait| ==> next.wait[i] == s.wait[i + 1];
      forall t | 0 <= t < |s.threads|
        ensures t in next.wait <==> InQueue(next.threads[t].phase)
      {
        if t in s.wait && t != s.wait[0] {
          var i :| 0 <= i < |s.wait| && s.wait[i] == t;
          assert next.wait[i - 1] == t;
        }
      }
    }
  }

  lemma PostKeeps(s: State, c: nat, d: nat)
    requires Inv(s) && c < |s.threads| && d < |s.dpcps|
    ensures Inv(Post(s, c, d))
  {
    if s.dpcps[d].holder == Some(c) {
      var next := Post(s, c, d);
      assert StackOk(next) by {
        hide HoldersOk, WaitOk, Remove, WakeFirst;
        WithoutSorted(s, s.stack, d);
        PopKeeps(s, next, d);
      }
      assert HoldersOk(next) by {
        hide WaitOk, Remove;
        WithoutSorted(s, s.stack, d);
      }
      assert WaitOk(next) by {
        hide StackOk, HoldersOk, Remove;
        WakeFirstKeeps(s);
        WaitSame(WakeFirst(s), next);
      }
    }
  }

  lemma PopKeeps(s: State, next: State, d: nat)
    requires StackOk(s) && next.stack == Remove(s.stack, d) && |next.dpcps| == |s.dpcps|
    requires forall x :: 0 <= x < |s.dpcps| ==> next.dpcps[x].ceiling == s.dpcps[x].ceiling
    requires Ascending(s, next.stack) && next.prio == Top(s, next.stack)
    ensures StackOk(next)
  {
    hide Remove;
    WithoutSorted(s, s.stack, d);
    forall i | 0 <= i < |next.stack|
      ensures Ceiling(next, next.stack[i]) == Ceiling(s, next.stack[i]) < MAX_PRIO_NUM
    {
      assert next.stack[i] in s.stack;
    }
  }

  /** Changing a ceiling keeps the protocol sound exactly when the new value fits. */
  lemma SetKeepsIff(s: State, d: nat, p: nat)
    requires Inv(s) && d < |s.dpcps|
    ensures Inv(SetCeiling(s, d, p)) <==> CeilingFits(s, d, p)
  {
    var next := SetCeiling(s, d, p);
    assert HoldersOk(next) && WaitOk(next) by { hide StackOk; }
    hide HoldersOk, WaitOk;
    if CeilingFits(s, d, p) { RetuneKeeps(s, d, p); }
    if StackOk(next) { RetuneFits(s, d, p); }
  }

  lemma RetuneKeeps(s: State, d: nat, p: nat)
    requires Inv(s) && d < |s.dpcps| && CeilingFits(s, d, p)
    ensures StackOk(SetCeiling(s, d, p))
  {
    hide HoldersOk, WaitOk;
    var next := SetCeiling(s, d, p);
    forall i, j | 0 <= i < j < |next.stack|
      ensures Ceiling(next, next.stack[i]) < Ceiling(next, next.stack[j])
    {
      assert Ceiling(s, s.stack[i]) < Ceiling(s, s.stack[j]);
      if s.stack[i] == d {
        assert i + 1 < j ==> Ceiling(s, s.stack[i + 1]) < Ceiling(s, s.stack[j]);
      } else if s.stack[j] == d {
        assert i < j - 1 ==> Ceiling(s, s.stack[i]) < Ceiling(s, s.stack[j - 1]);
      }
    }
  }

  lemma RetuneFits(s: State, d: nat, p: nat)
    requires Inv(s) && d < |s.dpcps| && StackOk(SetCeiling(s, d, p))
    ensures CeilingFits(s, d, p)
  {
    hide HoldersOk, WaitOk;
    var next := SetCeiling(s, d, p);
    forall i | 0 <= i < |s.stack| && s.stack[i] == d
      ensures p < MAX_PRIO_NUM
      ensures i > 0 ==> Ceiling(s, s.stack[i - 1]) < p
      ensures i + 1 < |s.stack| ==> p < Ceiling(s, s.stack[i + 1])
    {
      assert Ceiling(next, next.stack[i]) == p;
      if i > 0 {
        assert Ceiling(s, s.stack[i - 1]) < Ceiling(s, s.stack[i]);
        assert Ceiling(next, next.stack[i - 1]) < Ceiling(next, next.stack[i]);
      }
      if i + 1 < |s.stack| {
        assert Ceiling(s, s.stack[i]) < Ceiling(s, s.stack[i + 1]);
        assert Ceiling(next, next.stack[i]) < Ceiling(next, next.stack[i + 1]);
      }
    }
  }

  /* ---- Whole runs ---- */

  /** `Change` is a priority change from anywhere else in the kernel. */
  datatype Event = Request(c: nat, d: nat) | Release(c: nat, d: nat) | GoToSleep(c: nat)
                 | Change(t: nat, p: nat) | Retune(d: nat, p: nat)

  predicate May(s: State, e: Event)
    requires Inv(s)
  {
    match e
    case Request(c, d) => MayAttempt(s, c, d)
    case Release(c, d) => c < |s.threads| && d < |s.dpcps| && s.threads[c].phase == Running
    case GoToSleep(c) => c < |s.threads| && (s.threads[c].phase.Queued? || s.threads[c].phase.Unqueued?)
    case Change(t, p) => t < |s.threads|
    case Retune(d, p) => d < |s.dpcps| && CeilingFits(s, d, p)
  }

  function Step(s: State, e: Event): (next: State)
    requires Inv(s) && May(s, e)
  {
    match e
    case Request(c, d) => Attempt(s, c, d)
    case Release(c, d) => Post(s, c, d)
    case GoToSleep(c) => Sleep(s, c)
    case Change(t, p) => SetPrio(s, t, p)
    case Retune(d, p) => SetCeiling(s, d, p)
  }

  lemma StepKeeps(s: State, e: Event)
    requires Inv(s) && May(s, e)
    ensures Inv(Step(s, e)) && |Step(s, e).threads| == |s.threads| && |Step(s, e).dpcps| == |s.dpcps|
  {
    match e
    case Request(c, d) =>
      AttemptMeets(s, c, d);
      hide StackOk, HoldersOk, WaitOk;
      if s.threads[c].prio >= s.prio { BlockedKeeps(s, c, d); } else { AcquiredKeeps(s, c, d); }
    case Release(c, d) =>
      hide StackOk, HoldersOk, WaitOk, Remove;
      PostKeeps(s, c, d);
    case GoToSleep(c) =>
      hide StackOk, HoldersOk, WaitOk;
      OnlyThreads(s, Step(s, e));
    case Change(t, p) =>
      hide StackOk, HoldersOk, WaitOk;
      OnlyThreads(s, Step(s, e));
    case Retune(d, p) =>
      hide StackOk, HoldersOk, WaitOk;
      SetKeepsIff(s, d, p);
  }

  lemma OnlyThreads(s: State, t: State)
    requires Inv(s) && t == s.(threads := t.threads) && |t.threads| == |s.threads|
    requires forall i :: 0 <= i < |s.threads| ==>
               InQueue(t.threads[i].phase) == InQueue(s.threads[i].phase)
    ensures Inv(t)
  {
    hide StackOk, HoldersOk, WaitOk;
    StackSame(s, t);
    HoldersSame(s, t);
    WaitSame(s, t);
  }

  ghost predicate Admissible(s: State, run: seq<Event>)
    requires Inv(s)
    decreases |run|
  {
    run == [] || (May(s, run[0]) && (StepKeeps(s, run[0]); Admissible(Step(s, run[0]), run[1..])))
  }

  ghost function After(s: State, run: seq<Event>): State
    requires Inv(s) && Admissible(s, run)
    decreases |run|
  {
    if run == [] then s else
      StepKeeps(s, run[0]);
      After(Step(s, run[0]), run[1..])
  }

  /** The ceiling invariant over every run: the system priority is the value on top of the stack, which
      is the smallest ceiling held, and exactly the stacked resources have a holder and are taken. */
  lemma {:induction false} RunKeeps(s: State, run: seq<Event>)
    requires Inv(s) && Admissible(s, run)
    ensures var t := After(s, run);
            && Inv(t)
            && (t.stack == [] ==> t.prio == 61)
            && (forall d <- t.stack :: t.prio <= Ceiling(t, d))
            && (t.stack != [] ==> t.prio == Ceiling(t, t.stack[0]))
    decreases |run|
  {
    hide May, Step, StackOk, HoldersOk, WaitOk;
    if run == [] {
      assert StackOk(s);
      TopIs(s);
      assert forall d :: d in s.stack ==> d < |s.dpcps|;
      forall d | d in s.stack ensures s.prio <= Ceiling(s, d) { TopIsLeast(s, d); }
    } else {
      StepKeeps(s, run[0]);
      RunKeeps(Step(s, run[0]), run[1..]);
    }
  }

  /** The same from a newly set up system. */
  lemma FreshRunKeeps(s: State, run: seq<Event>)
    requires |s.keys| == |s.threads| && Admissible(Fresh(s), run)
    ensures var t := After(Fresh(s), run);
            && Inv(t) && t.prio == Top(t, t.stack)
            && (forall d <- t.stack :: t.prio <= Ceiling(t, d))
            && (forall d :: 0 <= d < |t.dpcps| ==> (t.dpcps[d].holder.Some? <==> d in t.stack))
  {
    RunKeeps(Fresh(s), run);
  }

  lemma TopIs(s: State)
    requires StackOk(s)
    ensures Ascending(s, s.stack) && s.prio == Top(s, s.stack)
  {
  }

  /* ---- What a request does ---- */

  /** A caller is let in exactly when it is more urgent than every ceiling that is held. It then holds the
      resource, on top of the stack, whose ceiling becomes the system priority; nothing else changes. */
  lemma AdmittedIff(s: State, c: nat, d: nat)
    requires Inv(s) && MayAttempt(s, c, d)
    ensures var next := Attempt(s, c, d);
            && |next.threads| == |s.threads| && |next.dpcps| == |s.dpcps|
            && (next.threads[c].phase == Running <==> forall x <- s.stack :: s.threads[c].prio < Ceiling(s, x))
            && (next.threads[c].phase == Running ==>
                  && next.stack == [d] + s.stack && next.prio == Ceiling(s, d)
                  && next.dpcps[d].holder == Some(c) && next.dpcps[d].count == 1
                  && next.wait == s.wait && next.threads[c].prio == s.threads[c].prio
                  && (forall x :: 0 <= x < |s.dpcps| && x != d ==> next.dpcps[x] == s.dpcps[x])
                  && (forall t :: 0 <= t < |s.threads| && t != c ==> next.threads[t] == s.threads[t]))
            && (next.threads[c].phase != Running ==>
                  && next.threads[c].phase == Queued(d)
                  && next.stack == s.stack && next.prio == s.prio && next.dpcps == s.dpcps
                  && (forall t :: 0 <= t < |s.threads| && t != c ==> next.threads[t].phase == s.threads[t].phase))
  {
    AttemptMeets(s, c, d);
    if s.stack != [] { assert s.stack[0] in s.stack; }
    hide StackOk, HoldersOk, WaitOk, Insert;
  }

  /** Priority inheritance: in a local system the holder of the resource with the least ceiling gets
      exactly the priority of a caller that it blocks. Every other thread keeps its own, and in a global
      system all do. */
  lemma HolderInherits(s: State, c: nat, d: nat, top: nat, t: nat)
    requires Inv(s) && MayAttempt(s, c, d) && t < |s.threads|
    requires top in s.stack && (forall x <- s.stack :: Ceiling(s, top) <= Ceiling(s, x)) && Ceiling(s, top) <= s.threads[c].prio
    ensures s.dpcps[top].holder.Some? && t < |Attempt(s, c, d).threads|
    ensures Attempt(s, c, d).threads[t].prio
         == if s.local && s.dpcps[top].holder == Some(t) then s.threads[c].prio else s.threads[t].prio
  {
    AttemptMeets(s, c, d);
    TopIsLeast(s, top);
    LeastIsTop(s, top);
    hide StackOk, HoldersOk, WaitOk, Insert;
  }

  lemma LeastIsTop(s: State, top: nat)
    requires StackOk(s) && top in s.stack && forall x <- s.stack :: Ceiling(s, top) <= Ceiling(s, x)
    ensures s.stack[0] == top
  {
    assert s.stack[0] in s.stack;
  }

  /** What makes a thread more urgent. */
  predicate Raises(s: State, e: Event, t: nat)
    requires Inv(s) && May(s, e)
  {
    t < |s.threads| &&
    match e
    case Change(u, p) => u == t && p < s.threads[t].prio
    case Request(c, d) => s.local && s.threads[c].prio >= s.prio && s.threads[c].prio < s.threads[t].prio
                          && s.stack != [] && s.dpcps[s.stack[0]].holder == Some(t)
    case _ => false
  }

  lemma StepRaisesIff(s: State, e: Event, t: nat)
    requires Inv(s) && May(s, e) && t < |s.threads|
    ensures |Step(s, e).threads| == |s.threads|
    ensures Step(s, e).threads[t].prio < s.threads[t].prio <==> Raises(s, e, t)
  {
    match e
    case Request(c, d) =>
      AttemptMeets(s, c, d);
      hide StackOk, HoldersOk, WaitOk, Insert;
    case Release(c, d) =>
      hide StackOk, HoldersOk, Remove;
    case GoToSleep(c) =>
    case Change(u, p) =>
    case Retune(d, p) =>
  }

  /* ---- What a release does ---- */

  /** Only the holder gives anything up: exactly the one resource, and the system priority falls back to
      the least ceiling that is still held. No priority changes. */
  lemma ReleaseGivesUp(s: State, c: nat, d: nat)
    requires Inv(s) && c < |s.threads| && d < |s.dpcps|
    ensures Post(s, c, d) == s <==> s.dpcps[d].holder != Some(c)
    ensures var next := Post(s, c, d);
            && |next.threads| == |s.threads| && |next.dpcps| == |s.dpcps|
            && (forall t :: 0 <= t < |s.threads| ==> next.threads[t].prio == s.threads[t].prio)
            && (forall x :: 0 <= x < |s.dpcps| && x != d ==> next.dpcps[x] == s.dpcps[x])
            && (s.dpcps[d].holder == Some(c) ==>
                  && next.dpcps[d].holder == None && next.dpcps[d].count == 0 && d !in next.stack
                  && (forall x :: x != d ==> (x in next.stack <==> x in s.stack))
                  && next.wait == if s.wait == [] then [] else s.wait[1..])
  {
    if s.dpcps[d].holder == Some(c) { WithoutSorted(s, s.stack, d); }
    hide StackOk, HoldersOk, Remove;
  }

  /** The release of the last resource held hands the system on: the first waiter, if it sleeps by then, is
      woken, may try again, and gets what it asked for. */
  lemma ReleaseHandsOver(s: State, c: nat, d: nat, r: nat)
    requires Inv(s) && c < |s.threads| && d < |s.dpcps| && s.dpcps[d].holder == Some(c) && s.stack == [d]
    requires s.wait != [] && s.wait[0] < |s.threads| && s.threads[s.wait[0]].phase == Asleep(r)
    requires r < |s.dpcps| && s.dpcps[r].ceiling <= s.threads[s.wait[0]].prio < 61
    ensures var w, z := s.wait[0], Post(s, c, d);
            Inv(z) && MayAttempt(z, w, r) &&
            var next := Attempt(z, w, r);
            && |next.threads| == |s.threads| && |next.dpcps| == |s.dpcps|
            && next.threads[w] == s.threads[w].(phase := Running)
            && next.dpcps[r].holder == Some(w) && next.stack == [r] && next.prio == s.dpcps[r].ceiling
            && next.wait == s.wait[1..]
  {
    PostKeeps(s, c, d);
    assert Remove(s.stack, d) == [];
    hide Inv;
  }

  /** A thread that asks again while it holds a resource of the system always blocks. */
  lemma NestedRequestBlocks(s: State, c: nat, d: nat, held: nat)
    requires Inv(s) && MayAttempt(s, c, d)
    requires held < |s.dpcps| && s.dpcps[held].holder == Some(c) && Ceiling(s, held) <= s.threads[c].prio
    ensures Attempt(s, c, d).threads[c].phase == Queued(d)
  {
    TopIsLeast(s, held);
    AttemptMeets(s, c, d);
  }

  /** Lending sets the holder's priority to the caller's, so it can also make the holder less urgent. */
  lemma LendingLowersIff(s: State, c: nat, d: nat)
    requires Inv(s) && MayAttempt(s, c, d) && s.local && s.threads[c].prio >= s.prio
    ensures s.stack != [] && s.dpcps[s.stack[0]].holder.Some?
    ensures var h := s.dpcps[s.stack[0]].holder.value;
            h < |s.threads| && (Attempt(s, c, d).threads[h].prio > s.threads[h].prio
                                <==> s.threads[c].prio > s.threads[h].prio)
  {
    AttemptMeets(s, c, d);
  }

  /** What makes a thread less urgent: a change from outside, or a local caller, less urgent than the
      thread, that finds the system closed by a resource the thread holds. */
  predicate Lowers(s: State, e: Event, t: nat)
    requires Inv(s) && May(s, e)
  {
    t < |s.threads| &&
    match e
    case Change(u, p) => u == t && p > s.threads[t].prio
    case Request(c, d) => s.local && s.threads[c].prio >= s.prio && s.threads[c].prio > s.threads[t].prio
                          && s.stack != [] && s.dpcps[s.stack[0]].holder == Some(t)
    case _ => false
  }

  lemma StepLowersIff(s: State, e: Event, t: nat)
    requires Inv(s) && May(s, e) && t < |s.threads|
    ensures |Step(s, e).threads| == |s.threads|
    ensures Step(s, e).threads[t].prio > s.threads[t].prio <==> Lowers(s, e, t)
  {
    hide Insert, Remove;
    match e
    case Request(c, d) =>
      AttemptMeets(s, c, d);
      hide StackOk, HoldersOk, WaitOk;
    case Release(c, d) =>
      hide StackOk, HoldersOk;
    case GoToSleep(c) =>
    case Change(u, p) =>
    case Retune(d, p) =>
  }

  ghost predicate NeverLowered(s: State, run: seq<Event>, t: nat)
    requires Inv(s) && Admissible(s, run)
    decreases |run|
  {
    run == [] || (!Lowers(s, run[0], t) && (StepKeeps(s, run[0]); NeverLowered(Step(s, run[0]), run[1..], t)))
  }

  /** Over any run a thread ends less urgent than it began only if somewhere on the way its priority was
      changed from outside to a less urgent one, or a less urgent caller lent it its own. */
  lemma {:induction false} LoweredOnlySo(s: State, run: seq<Event>, t: nat)
    requires Inv(s) && Admissible(s, run) && t < |s.threads| && NeverLowered(s, run, t)
    ensures t < |After(s, run).threads| && After(s, run).threads[t].prio <= s.threads[t].prio
    decreases |run|
  {
    hide May, Step, StackOk, HoldersOk, WaitOk, Lowers;
    if run != [] {
      StepKeeps(s, run[0]);
      StepLowersIff(s, run[0], t);
      LoweredOnlySo(Step(s, run[0]), run[1..], t);
    }
  }

  /** Thread 0, of priority 7, holds the only resource; thread 1, of priority 10, asks for it. */
  function HeldBySeven(): State {
    State(true, [7, 10], 5, [0], [], [Dpcp(0, 5, Some(0), 1)], [Thread(7, Running), Thread(10, Running)])
  }

  lemma HeldBySevenInv()
    ensures Inv(HeldBySeven()) && MayAttempt(HeldBySeven(), 1, 0)
  {
    var s := HeldBySeven();
    assert StackOk(s) && HoldersOk(s);
    assert WaitOk(s);
  }

  lemma LendingCanLower()
    ensures Inv(HeldBySeven()) && MayAttempt(HeldBySeven(), 1, 0)
    ensures |Attempt(HeldBySeven(), 1, 0).threads| == 2 && Attempt(HeldBySeven(), 1, 0).threads[0].prio == 10
  {
    HeldBySevenInv();
    hide Inv, Insert;
    AttemptMeets(HeldBySeven(), 1, 0);
  }

  /* ---- Waiters ---- */

  /** A release takes the first waiter off the queue, but wakes it only if it already sleeps. */
  lemma ReleaseWakesIffAsleep(s: State, c: nat, d: nat)
    requires Inv(s) && c < |s.threads| && d < |s.dpcps| && s.dpcps[d].holder == Some(c) && s.wait != []
    ensures var t, next := s.wait[0], Post(s, c, d);
            && t < |s.threads| && next.wait == s.wait[1..]
            && (next.threads[t].phase.Woken? <==> s.threads[t].phase.Asleep?)
            && (!next.threads[t].phase.Woken? ==> next.threads[t].phase.Unqueued?
                                                  && Sleep(next, t).threads[t].phase.Lost?)
  {
    hide StackOk, HoldersOk, Remove;
  }

  /** A caller that finds the system closed and nobody waiting is lost when the holder releases before the
      caller has gone to sleep. */
  lemma ReleaseInBetween(s: State, c: nat, d: nat, h: nat)
    requires Inv(s) && MayAttempt(s, c, d) && s.wait == [] && s.stack != [] && s.threads[c].prio >= s.prio
    requires s.dpcps[s.stack[0]].holder == Some(h) && h < |s.threads| && h != c && s.threads[h].phase == Running
    ensures var run := [Request(c, d), Release(h, s.stack[0]), GoToSleep(c)];
            && Admissible(s, run)
            && c < |After(s, run).threads| && After(s, run).threads[c].phase == Lost(d)
  {
    var e, f, g := Request(c, d), Release(h, s.stack[0]), GoToSleep(c);
    hide Inv, StackOk, HoldersOk, WaitOk, May, Step;
    StepKeeps(s, e);
    Queues(s, c, d, h);
    var s1 := Step(s, e);
    StepKeeps(s1, f);
    LeavesQueue(s1, c, d, h, s.stack[0]);
    var s2 := Step(s1, f);
    StepKeeps(s2, g);
    assert [g][1..] == [] && [f, g][1..] == [g] && [e, f, g][1..] == [f, g];
    assert Admissible(s2, [g]) && After(s2, [g]) == Step(s2, g);
    assert Admissible(s1, [f, g]) && After(s1, [f, g]) == Step(s2, g);
  }

  lemma Queues(s: State, c: nat, d: nat, h: nat)
    requires Inv(s) && MayAttempt(s, c, d) && s.wait == [] && s.stack != [] && s.threads[c].prio >= s.prio
    requires s.dpcps[s.stack[0]].holder == Some(h) && h < |s.threads| && h != c && s.threads[h].phase == Running
    ensures May(s, Request(c, d))
    ensures var next := Step(s, Request(c, d));
            && next.wait == [c] && next.stack == s.stack && next.dpcps == s.dpcps && |next.threads| == |s.threads|
            && next.threads[c].phase == Queued(d) && next.threads[h].phase == Running
  {
    assert |s.keys| == |s.threads|;
    AttemptMeets(s, c, d);
    hide StackOk, HoldersOk, WaitOk;
    assert Insert(s.keys, false, [], c) == [c];
  }

  /** Taken off the queue before it sleeps, the caller then sleeps for good. */
  lemma LeavesQueue(s: State, c: nat, d: nat, h: nat, x: nat)
    requires Inv(s) && c < |s.threads| && h < |s.threads| && x < |s.dpcps|
    requires s.wait == [c] && s.threads[c].phase == Queued(d)
    requires s.dpcps[x].holder == Some(h) && s.threads[h].phase == Running
    ensures May(s, Release(h, x))
    ensures var next := Step(s, Release(h, x));
            && Inv(next) && |next.threads| == |s.threads| && May(next, GoToSleep(c))
            && Step(next, GoToSleep(c)).threads[c].phase == Lost(d)
  {
    hide StackOk, HoldersOk, WaitOk, Remove;
    StepKeeps(s, Release(h, x));
  }

  /** Such a run from a newly set up system with two threads and one resource. */
  lemma LostReachable()
    ensures var start := Fresh(HeldBySeven());
            var run := [Request(0, 0), Request(1, 0), Release(0, 0), GoToSleep(1)];
            && Inv(start) && Admissible(start, run)
            && 1 < |After(start, run).threads| && After(start, run).threads[1].phase == Lost(0)
  {
    hide HeldBySeven, May, Step, Inv;
    var s, e := Fresh(HeldBySeven()), Request(0, 0);
    FirstTakes();
    SevenHolds();
    var rest := [Request(1, 0), Release(0, 0), GoToSleep(1)];
    ReleaseInBetween(HeldBySeven(), 1, 0, 0);
    assert [e, Request(1, 0), Release(0, 0), GoToSleep(1)] == [e] + rest;
    assert ([e] + rest)[0] == e && ([e] + rest)[1..] == rest;
    StepKeeps(s, e);
  }

  lemma FirstTakes()
    ensures var s := Fresh(HeldBySeven());
            Inv(s) && May(s, Request(0, 0)) && Step(s, Request(0, 0)) == HeldBySeven()
  {
    hide StackOk, HoldersOk, WaitOk;
    var s, held := Fresh(HeldBySeven()), HeldBySeven();
    assert Acquired(s, 0, 0).threads == held.threads && Acquired(s, 0, 0).dpcps == held.dpcps;
  }

  lemma SevenHolds()
    ensures var s := HeldBySeven();
            && Inv(s) && MayAttempt(s, 1, 0) && s.wait == [] && s.stack == [0] && |s.threads| == 2 && |s.dpcps| == 1
            && s.threads[1].prio >= s.prio && s.dpcps[0].holder == Some(0) && s.threads[0].phase == Running
  {
    HeldBySevenInv();
  }

  /* ---- Whose turn it is ---- */

  /** The position in the run of the last request by `t`, or -1. */
  ghost function LastRequest(run: seq<Event>, t: nat): int
    decreases |run|
  {
    if run == [] then -1
    else
      var later := LastRequest(run[1..], t);
      if later >= 0 then later + 1 else if run[0].Request? && run[0].c == t then 0 else -1
  }

  /** For every thread the time of its last request; the run begins at time `now`. */
  ghost function Arrivals(since: seq<int>, run: seq<Event>, now: int): seq<int>
    decreases |run|
  {
    if run == [] then since
    else
      var e := run[0];
      Arrivals(if e.Request? && e.c < |since| then since[e.c := now] else since, run[1..], now + 1)
  }

  lemma {:induction false} ArrivalsAre(since: seq<int>, run: seq<Event>, now: int, t: nat)
    requires t < |since|
    ensures |Arrivals(since, run, now)| == |since|
    ensures Arrivals(since, run, now)[t] == if LastRequest(run, t) >= 0 then now + LastRequest(run, t) else since[t]
    decreases |run|
  {
    if run != [] {
      var e := run[0];
      ArrivalsAre(if e.Request? && e.c < |since| then since[e.c := now] else since, run[1..], now + 1, t);
    }
  }

  predicate Lined(s: State, since: seq<int>, now: int) {
    && Known(s.keys, s.wait) && |since| == |s.keys| && InTurn(s.keys, false, since, s.wait)
    && forall x <- s.wait :: since[x] < now
  }

  lemma StepLined(s: State, e: Event, since: seq<int>, now: int)
    requires Inv(s) && May(s, e) && Lined(s, since, now)
    ensures Lined(Step(s, e), if e.Request? && e.c < |since| then since[e.c := now] else since, now + 1)
    ensures Step(s, e).keys == s.keys
  {
    hide Before;
    match e
    case Request(c, d) =>
      AttemptMeets(s, c, d);
      assert |s.keys| == |s.threads| && c !in s.wait;
      InsertInTurn(s.keys, false, since, s.wait, c, now);
      InsertMembers(s.keys, false, s.wait, c);
      Restamped(s.keys, since, s.wait, c, now);
      hide Insert, StackOk, HoldersOk, WaitOk, InTurn;
    case Release(c, d) =>
      hide StackOk, HoldersOk, WaitOk, Remove;
    case GoToSleep(c) => hide StackOk, HoldersOk, WaitOk;
    case Change(u, p) => hide StackOk, HoldersOk, WaitOk;
    case Retune(d, p) => hide StackOk, HoldersOk, WaitOk;
  }

  lemma Restamped(keys: seq<nat>, since: seq<int>, queue: seq<nat>, t: nat, now: int)
    requires Known(keys, queue) && |since| == |keys| && t < |keys| && t !in queue && InTurn(keys, false, since, queue)
    ensures InTurn(keys, false, since[t := now], queue)
  {
  }

  lemma {:induction false} RunLined(s: State, run: seq<Event>, since: seq<int>, now: int)
    requires Inv(s) && Admissible(s, run) && Lined(s, since, now)
    ensures Lined(After(s, run), Arrivals(since, run, now), now + |run|) && After(s, run).keys == s.keys
    decreases |run|
  {
    if run != [] {
      var e := run[0];
      StepKeeps(s, e);
      StepLined(s, e, since, now);
      hide Step, May, StackOk, HoldersOk, WaitOk, Lined;
      RunLined(Step(s, e), run[1..], if e.Request? && e.c < |since| then since[e.c := now] else since, now + 1);
    }
  }

  /** Over every run from start-up: the waiter that a release takes off the queue has the least key of all
      that are queued, and among equal keys it asked first. */
  lemma ReleaseTakesFirst(s: State, run: seq<Event>, c: nat, d: nat, t: nat, u: nat)
    requires |s.keys| == |s.threads| && Admissible(Fresh(s), run)
    ensures var z := After(Fresh(s), run);
            && Inv(z) && z.keys == s.keys && |z.threads| == |s.keys|
            && (c < |z.threads| && d < |z.dpcps| && t in z.wait && t !in Post(z, c, d).wait && u in z.wait && u != t ==>
                  && t < |s.keys| && u < |s.keys|
                  && (s.keys[t] < s.keys[u] || (s.keys[t] == s.keys[u] && LastRequest(run, t) < LastRequest(run, u))))
  {
    var since := seq(|s.keys|, i => -1);
    RunKeeps(Fresh(s), run);
    RunLined(Fresh(s), run, since, 0);
    var z := After(Fresh(s), run);
    if c < |z.threads| && d < |z.dpcps| && t in z.wait && t !in Post(z, c, d).wait && u in z.wait && u != t {
      FirstTaken(z, Arrivals(since, run, 0), |run|, c, d, t, u);
      ArrivalsAre(since, run, 0, t);
      ArrivalsAre(since, run, 0, u);
    }
  }

  lemma FirstTaken(z: State, since: seq<int>, now: int, c: nat, d: nat, t: nat, u: nat)
    requires Inv(z) && Lined(z, since, now) && c < |z.threads| && d < |z.dpcps|
    requires t in z.wait && t !in Post(z, c, d).wait && u in z.wait && u != t
    ensures t < |z.keys| && u < |z.keys| && Before(z.keys, false, since, t, u)
  {
    ReleaseGivesUp(z, c, d);
    hide StackOk, HoldersOk, Post, Before;
    var i :| 0 <= i < |z.wait| && z.wait[i] == t;
    var rest := z.wait[1..];
    assert forall k :: 1 <= k < |z.wait| ==> rest[k - 1] == z.wait[k];
    var j :| 0 <= j < |z.wait| && z.wait[j] == u;
  }

  /** Nothing in the protocol ever wakes a lost thread. */
  lemma {:induction false} LostForever(s: State, run: seq<Event>, t: nat)
    requires Inv(s) && Admissible(s, run) && t < |s.threads| && s.threads[t].phase.Lost?
    ensures t < |After(s, run).threads| && After(s, run).threads[t].phase == s.threads[t].phase
    decreases |run|
  {
    if run != [] {
      StepKeeps(s, run[0]);
      LostStays(s, run[0], t);
      hide May, Step, StackOk, HoldersOk, WaitOk;
      LostForever(Step(s, run[0]), run[1..], t);
    }
  }

  lemma LostStays(s: State, e: Event, t: nat)
    requires Inv(s) && May(s, e) && t < |s.threads| && s.threads[t].phase.Lost?
    ensures |Step(s, e).threads| == |s.threads| && Step(s, e).threads[t].phase == s.threads[t].phase
  {
    match e
    case Request(c, d) =>
      AttemptMeets(s, c, d);
      hide StackOk, HoldersOk, WaitOk, Insert;
    case Release(c, d) =>
      hide StackOk, HoldersOk, Remove;
      assert s.wait != [] ==> s.wait[0] in s.wait;
    case GoToSleep(c) =>
    case Change(t', p) =>
    case Retune(d, p) =>
  }

  /** Every release finds its first waiter asleep, and nobody asks while holding a resource. */
  predicate Prompt(s: State, e: Event)
    requires Inv(s) && May(s, e)
  {
    match e
    case Release(c, d) => s.dpcps[d].holder == Some(c) && s.wait != [] ==> s.threads[s.wait[0]].phase.Asleep?
    case Request(c, d) => forall x :: 0 <= x < |s.dpcps| ==> s.dpcps[x].holder != Some(c)
    case _ => true
  }

  ghost predicate AllPrompt(s: State, run: seq<Event>)
    requires Inv(s) && Admissible(s, run)
    decreases |run|
  {
    run == [] || (Prompt(s, run[0]) && (StepKeeps(s, run[0]); AllPrompt(Step(s, run[0]), run[1..])))
  }

  predicate NobodyLost(s: State) {
    forall t :: 0 <= t < |s.threads| ==> !s.threads[t].phase.Lost? && !s.threads[t].phase.Unqueued?
  }

  /** Holders are never held up themselves. */
  predicate HoldersRun(s: State) {
    forall d :: 0 <= d < |s.dpcps| && s.dpcps[d].holder.Some? ==>
      s.dpcps[d].holder.value < |s.threads| && s.threads[s.dpcps[d].holder.value].phase == Running
  }

  predicate SomebodyWoken(s: State) {
    exists t :: 0 <= t < |s.threads| && s.threads[t].phase.Woken?
  }

  /** While somebody waits, somebody can move: a woken thread, or the holder on top of the stack. */
  predicate Live(s: State) {
    NobodyLost(s) && HoldersRun(s) && (s.wait != [] ==> s.stack != [] || SomebodyWoken(s))
  }

  lemma StepLive(s: State, e: Event)
    requires Inv(s) && May(s, e) && Prompt(s, e) && Live(s)
    ensures Live(Step(s, e))
  {
    var next := Step(s, e);
    match e
    case Request(c, d) => RequestLive(s, c, d);
    case Release(c, d) => ReleaseLive(s, c, d);
    case GoToSleep(c) => ThreadsLive(s, next);
    case Change(t, p) => ThreadsLive(s, next);
    case Retune(d, p) =>
      assert SomebodyWoken(s) ==> SomebodyWoken(next) by {
        if t :| 0 <= t < |s.threads| && s.threads[t].phase.Woken? { assert next.threads[t].phase.Woken?; }
      }
  }

  lemma ThreadsLive(s: State, next: State)
    requires Live(s) && next == s.(threads := next.threads) && |next.threads| == |s.threads|
    requires forall t :: 0 <= t < |s.threads| ==>
               (next.threads[t].phase == s.threads[t].phase
                || (s.threads[t].phase.Queued? && next.threads[t].phase.Asleep?))
    ensures Live(next)
  {
    if t :| 0 <= t < |s.threads| && s.threads[t].phase.Woken? { assert next.threads[t].phase.Woken?; }
  }

  lemma RequestLive(s: State, c: nat, d: nat)
    requires Inv(s) && MayAttempt(s, c, d) && Prompt(s, Request(c, d)) && Live(s)
    ensures Live(Attempt(s, c, d))
  {
    var next := Attempt(s, c, d);
    AttemptMeets(s, c, d);
    assert HoldersRun(next) by { hide StackOk, WaitOk; }
    hide StackOk, WaitOk, HoldersOk, HoldersRun;
    assert NobodyLost(next);
  }

  lemma ReleaseLive(s: State, c: nat, d: nat)
    requires Inv(s) && May(s, Release(c, d)) && Prompt(s, Release(c, d)) && Live(s)
    ensures Live(Post(s, c, d))
  {
    hide StackOk, Remove;
    var next := Post(s, c, d);
    if s.dpcps[d].holder == Some(c) && s.wait != [] {
      var t := s.wait[0];
      assert next.threads[t].phase.Woken?;
      assert SomebodyWoken(next);
    }
  }

  /** No waiter is forgotten and no run gets stuck, when every release is prompt. */
  lemma {:induction false} RunLive(s: State, run: seq<Event>)
    requires Inv(s) && Admissible(s, run) && AllPrompt(s, run) && Live(s)
    ensures var t := After(s, run);
            && Inv(t) && Live(t)
            && (t.wait != [] && !SomebodyWoken(t) ==>
                  && t.stack != [] && t.dpcps[t.stack[0]].holder.Some?
                  && t.threads[t.dpcps[t.stack[0]].holder.value].phase == Running)
    decreases |run|
  {
    if run == [] {
      assert s.stack != [] ==> s.stack[0] in s.stack;
    } else {
      StepKeeps(s, run[0]);
      StepLive(s, run[0]);
      hide May, Step, StackOk, HoldersOk, WaitOk, Live, Prompt;
      RunLive(Step(s, run[0]), run[1..]);
    }
  }

  /** From a newly set up system, with prompt releases and no nesting: nobody is lost, every holder runs,
      and while somebody waits a woken thread or the holder on top of the stack can move. */
  lemma FreshRunLive(s: State, run: seq<Event>)
    requires |s.keys| == |s.threads| && Admissible(Fresh(s), run) && AllPrompt(Fresh(s), run)
    ensures var t := After(Fresh(s), run); Inv(t) && Live(t)
  {
    RunLive(Fresh(s), run);
  }
}
