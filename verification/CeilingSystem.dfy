/** The ceiling system updated in place by request and release. */
module CeilingSystem {
  import opened Basics
  import opened CeilingProtocol
  import opened WaitQueue

  datatype Outcome = WrongCpu | NotHolder | Done | Blocks

  class DpcpSystem {
    const local: bool
    const keys: seq<nat>
    var prio: nat
    var stack: seq<nat>
    var wait: seq<nat>
    var dpcps: seq<Dpcp>
    var threads: seq<Thread>

    ghost function Now(): State
      reads this
    {
      State(local, keys, prio, stack, wait, dpcps, threads)
    }

    /** System start: an empty stack whose head carries the maximum. */
    constructor (isLocal: bool, waitKeys: seq<nat>, resources: seq<Dpcp>, tasks: seq<Thread>)
      requires |waitKeys| == |tasks|
      requires forall i :: 0 <= i < |resources| ==> resources[i].holder.None? && resources[i].count == 0
      requires forall i :: 0 <= i < |tasks| ==> tasks[i].phase == Running
      ensures Now() == State(isLocal, waitKeys, MAX_PRIO_NUM, [], [], resources, tasks) && Inv(Now())
    {
      local, keys := isLocal, waitKeys;
      prio, stack, wait := MAX_PRIO_NUM, [], [];
      dpcps, threads := resources, tasks;
    }

    /** The caller is entered as holder and takes the binary semaphore; does it have to wait there? */
    method Take(c: nat, d: nat) returns (blocks: bool)
      requires d < |dpcps|
      modifies this`dpcps
      ensures dpcps == old(dpcps)[d := old(dpcps[d])
                .(holder := if old(dpcps[d].holder).None? then Some(c) else old(dpcps[d].holder),
                  count := old(dpcps[d].count) + 1)]
      ensures blocks <==> old(dpcps[d].count) > 0
    {
      if dpcps[d].holder.None? { dpcps := dpcps[d := dpcps[d].(holder := Some(c))]; }
      blocks := dpcps[d].count > 0;
      dpcps := dpcps[d := dpcps[d].(count := dpcps[d].count + 1)];
    }

    /** The holder is cleared and the semaphore given back; nobody waits on it while it counts one. */
    method Give(d: nat)
      requires d < |dpcps| && dpcps[d].count <= 1
      modifies this`dpcps
      ensures dpcps == old(dpcps)[d := old(dpcps[d]).(holder := None, count := old(dpcps[d].count) - 1)]
    {
      dpcps := dpcps[d := dpcps[d].(holder := None)];
      dpcps := dpcps[d := dpcps[d].(count := dpcps[d].count - 1)];
    }

    /** The released resource leaves the stack and the system priority falls back to the new top. */
    method Pop(d: nat)
      requires StackOk(Now())
      modifies this`stack, this`prio
      ensures stack == Remove(old(stack), d) && Ascending(Now(), stack) && prio == Top(Now(), stack)
    {
      TopIs(Now());
      WithoutSorted(Now(), stack, d);
      hide StackOk, Remove;
      stack := Removed(stack, d);
      prio := if stack == [] then MAX_PRIO_NUM else dpcps[stack[0]].ceiling;
    }

    /** A closed system: lend to the holder of the top resource, queue by key. */
    method Queue(c: nat, d: nat)
      requires Inv(Now()) && MayAttempt(Now(), c, d) && threads[c].prio >= prio
      modifies this`wait, this`threads
      ensures Now() == Attempt(old(Now()), c, d)
    {
      ghost var start := Now();
      AttemptMeets(start, c, d);
      if local {
        var holder := dpcps[stack[0]].holder.value;
        threads := threads[holder := threads[holder].(prio := threads[c].prio)];
      }
      hide StackOk, HoldersOk, WaitOk, Insert;
      WaitersKnown(start);
      wait := Inserted(keys, false, wait, c);
      threads := threads[c := threads[c].(phase := Queued(d))];
    }

    /** An open system: raise the system priority, stack the resource, take it. */
    method Enter(c: nat, d: nat) returns (blocks: bool)
      requires Inv(Now()) && MayAttempt(Now(), c, d) && threads[c].prio < prio
      modifies this`prio, this`stack, this`dpcps, this`threads
      ensures Now() == Attempt(old(Now()), c, d) && !blocks
    {
      AttemptMeets(Now(), c, d);
      hide StackOk, HoldersOk, WaitOk;
      prio := dpcps[d].ceiling;
      stack := [d] + stack;
      blocks := Take(c, d);
      threads := threads[c := threads[c].(phase := Running)];
    }

    /** One pass of the request loop. The semaphore never blocks behind an open system. */
    method Evaluate(c: nat, d: nat) returns (r: Outcome)
      requires Inv(Now()) && MayAttempt(Now(), c, d)
      modifies this`prio, this`stack, this`wait, this`dpcps, this`threads
      ensures Now() == Attempt(old(Now()), c, d) && Inv(Now())
      ensures r == if old(threads[c].prio) >= old(prio) then Blocks else Done
    {
      StepKeeps(Now(), Request(c, d));
      hide StackOk, HoldersOk, WaitOk, Attempt;
      if threads[c].prio >= prio {
        Queue(c, d);
        return Blocks;
      }
      var blocks := Enter(c, d);
      return if blocks then Blocks else Done;
    }

    /** A request; a local resource is only for its own core. */
    method Pend(c: nat, d: nat, cpu: nat) returns (r: Outcome)
      requires Inv(Now()) && MayAttempt(Now(), c, d) && threads[c].phase == Running
      modifies this`prio, this`stack, this`wait, this`dpcps, this`threads
      ensures Inv(Now())
      ensures r.WrongCpu? <==> local && old(dpcps[d].core) != cpu
      ensures Now() == if r.WrongCpu? then old(Now()) else Attempt(old(Now()), c, d)
    {
      if local && dpcps[d].core != cpu { return WrongCpu; }
      r := Evaluate(c, d);
    }

    /** The sleep that follows queueing. */
    method SuspendSelf(c: nat)
      requires Inv(Now()) && c < |threads| && (threads[c].phase.Queued? || threads[c].phase.Unqueued?)
      modifies this`threads
      ensures Now() == Sleep(old(Now()), c) && Inv(Now())
    {
      StepKeeps(Now(), GoToSleep(c));
      var p := threads[c].phase;
      threads := threads[c := threads[c].(phase := if p.Queued? then Asleep(p.res) else Lost(p.res))];
    }

    /** The first waiter leaves the queue; readying a thread that does not sleep has no effect. */
    method ReadyFirst()
      requires WaitOk(Now()) && wait != []
      modifies this`wait, this`threads
      ensures Now() == WakeFirst(old(Now()))
    {
      var t := wait[0];
      assert t in wait;
      var p := threads[t].phase;
      wait := wait[1..];
      threads := threads[t := threads[t].(phase := if p.Asleep? then Woken(p.res) else Unqueued(p.res))];
    }

    /** A release. */
    method Release(c: nat, d: nat, cpu: nat) returns (r: Outcome)
      requires Inv(Now()) && c < |threads| && d < |dpcps|
      modifies this`prio, this`stack, this`wait, this`dpcps, this`threads
      ensures Inv(Now())
      ensures r == if old(dpcps[d].holder) != Some(c) then NotHolder
                   else if local && old(dpcps[d].core) != cpu then WrongCpu else Done
      ensures Now() == if r.Done? then Post(old(Now()), c, d) else old(Now())
    {
      if dpcps[d].holder != Some(c) { return NotHolder; }
      if local && dpcps[d].core != cpu { return WrongCpu; }
      ghost var start := Now();
      PostKeeps(start, c, d);
      assert dpcps[d].count == 1;
      hide StackOk, HoldersOk, WaitOk, Remove, Ascending;
      Pop(d);
      if wait != [] {
        WaitSame(start, Now());
        WakeFirstSame(start, Now());
        ReadyFirst();
      }
      assert Now() == WakeFirst(start).(stack := stack, prio := prio);
      hide WakeFirst, Top;
      Give(d);
      return Done;
    }

    /** A new ceiling for a resource of unchanged type. */
    method Set(d: nat, p: nat)
      requires Inv(Now()) && d < |dpcps|
      modifies this`prio, this`dpcps
      ensures Now() == SetCeiling(old(Now()), d, p)
      ensures Inv(Now()) <==> CeilingFits(old(Now()), d, p)
    {
      SetKeepsIff(Now(), d, p);
      if stack != [] && stack[0] == d { prio := p; }
      dpcps := dpcps[d := dpcps[d].(ceiling := p)];
    }
  }

  lemma WaitersKnown(s: State)
    requires WaitOk(s)
    ensures |s.keys| == |s.threads| && Known(s.keys, s.wait)
  {
  }

  lemma WakeFirstSame(s: State, t: State)
    requires WaitOk(s) && WaitOk(t) && t == s.(stack := t.stack, prio := t.prio)
    ensures WakeFirst(t) == WakeFirst(s).(stack := t.stack, prio := t.prio)
  {
    hide WaitOk;
  }
}
