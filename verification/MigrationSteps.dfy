/** The steps of the migration protocol seen from the threads and the cores instead of from the steps: which
    step changes which field, and when a core may take it in a reachable state. */
module MigrationSteps {
  import opened Migration

  /** When a core switches to a thread, suspends it or readies it, told by the flags of the thread: in a
      reachable state the queue of a core holds exactly the ready threads that belong to it. */
  lemma OwnStepsIff(s: State, c: nat, t: nat)
    requires Inv(s) && c < |s.cores| && t < |s.threads|
    ensures var core, thread := s.cores[c], s.threads[t];
            var open := (core.pc.Plain? || core.pc.Sent?) && core.ask.Silent? && core.handler.Quiet?;
            && (t in core.queue <==> thread.ready && thread.cpu == c)
            && (May(s, Switch(c, t)) <==> open && thread.ready && thread.cpu == c && t != core.running)
            && (May(s, Sleep(c, t)) <==> open && thread.ready && thread.cpu == c && t != core.idle)
            && (May(s, Wake(c, t)) <==>
                  (open && !thread.ready && thread.cpu == c
                   && forall d :: 0 <= d < |s.cores| ==>
                        s.cores[d].box != Full(t) && (s.cores[d].handler.Quiet? || s.cores[d].handler.t != t)))
  {
    assert CoreOk(s, c) && ThreadOk(s, t);
    forall d | 0 <= d < |s.cores|
      ensures At(s.cores[d], t) <==>
                s.cores[d].box == Full(t) || (s.cores[d].handler != Readied(t) && !s.cores[d].handler.Quiet? && s.cores[d].handler.t == t)
      ensures s.cores[d].handler == Readied(t) ==> s.threads[t].ready
    {
      assert Carried(s, d, t);
    }
  }

  /** When a core starts a jump, takes a command or begins to send one. A jump needs nothing but a running
      thread that is ready and is not the idle thread: its lock is free then. */
  lemma CoreStepsIff(s: State, c: nat, d: nat)
    requires Inv(s) && c < |s.cores|
    ensures var core := s.cores[c];
            var open := (core.pc.Plain? || core.pc.Sent?) && core.ask.Silent? && core.handler.Quiet?;
            && core.running < |s.threads|
            && (May(s, TakeLock(c, d)) <==> open && core.pc.Plain? && d < |s.cores| && d != c
                                            && s.threads[core.running].ready && core.running != core.idle)
            && (May(s, Receive(c)) <==> open && core.box.Full?)
            && (May(s, Obey(c)) <==> open && core.box.Order?)
            && (May(s, Call(c, d)) <==> open && d < |s.cores| && d != c)
            && (May(s, Work(c)) <==> open && core.pc.Plain?)
  {
    assert CoreOk(s, c);
    if s.cores[c].pc.Plain? && s.cores[c].handler.Quiet? { OwnLockIsFree(s, c); }
    hide Inv, CoreOk;
  }

  /** What each step does to a thread: it changes its core only when the target installs it, is unlinked by
      the jump and linked again by the target, and its lock is let go by both ends in turn. */
  lemma ThreadAfter(s: State, e: Event, t: nat)
    requires Inv(s) && May(s, e) && t < |s.threads|
    ensures var core, z, before := s.cores[e.c], Step(s, e), s.threads[t];
            |z.threads| == |s.threads| &&
            var thread := z.threads[t];
            && thread.cpu == (if e.Place? && core.handler.t == t then e.c else before.cpu)
            && (thread.ready <==>
                  (before.ready || (e.Ready? && core.handler.t == t) || (e.Wake? && e.t == t))
                  && !(e.Unlink? && core.running == t) && !(e.Sleep? && e.t == t))
            && (thread.moving <==>
                  (before.moving || (e.Flag? && core.running == t)) && !(e.LetGo? && core.pc.prev == t))
            && thread.lock == (if e.TakeLock? && core.running == t then Jump(e.c)
                               else if e.Own? && core.handler.t == t then MoveIn(e.c)
                               else if (e.LetGo? && core.pc.prev == t) || (e.Release? && core.handler.t == t) then Free
                               else before.lock)
  {
    hide Inv;
  }

  /** Only a context switch changes who runs, only on its own core, and the queues follow the flags. */
  lemma CoreAfter(s: State, e: Event, d: nat)
    requires Inv(s) && May(s, e) && d < |s.cores|
    ensures var z := Step(s, e);
            && |z.cores| == |s.cores| && z.cores[d].idle == s.cores[d].idle
            && z.cores[d].running == (if e.Switch? && e.c == d then e.next else s.cores[d].running)
            && (forall t :: 0 <= t < |z.threads| ==>
                  (t in z.cores[d].queue <==> z.threads[t].ready && z.threads[t].cpu == d))
  {
    StepKeeps(s, e);
    var z := Step(s, e);
    assert |z.cores| == |s.cores| && z.cores[d].idle == s.cores[d].idle
           && z.cores[d].running == if e.Switch? && e.c == d then e.next else s.cores[d].running by { hide Inv; }
    hide Step, May;
    assert CoreOk(z, d);
    forall t | 0 <= t < |z.threads|
      ensures t in z.cores[d].queue <==> z.threads[t].ready && z.threads[t].cpu == d
    {
      assert ThreadOk(z, t);
    }
  }

  /** A mailbox is claimed, filled and emptied in turn, by whoever is sending to it and by its own core. */
  lemma BoxAfter(s: State, e: Event, d: nat)
    requires Inv(s) && May(s, e) && d < |s.cores|
    ensures var core, z := s.cores[e.c], Step(s, e);
            |z.cores| == |s.cores| &&
            z.cores[d].box == if (e.ClaimBox? && core.pc.dest == d) || (e.Claim? && core.ask.to == d) then Filling(e.c)
                              else if e.Send? && core.pc.dest == d then Full(core.running)
                              else if e.Deliver? && core.ask.to == d then Order
                              else if (e.Receive? || e.Obey?) && e.c == d then Empty
                              else s.cores[d].box
  {
    assert CoreOk(s, e.c);
    hide Inv, CoreOk;
  }

  /** How far a core has come: the jump in its seven stages, from the lock of the running thread to the
      switch that lets go of it; the sending of another command; and the handler in its five. */
  lemma StageAfter(s: State, e: Event, d: nat)
    requires Inv(s) && May(s, e) && d < |s.cores|
    ensures var core, z := s.cores[d], Step(s, e);
            |z.cores| == |s.cores| &&
            var next := z.cores[d];
            if e.c != d then next.pc == core.pc && next.ask == core.ask && next.handler == core.handler else
            && next.pc == (if e.TakeLock? then Locked(e.d)
                           else if e.Unlink? then Unlinked(core.pc.dest)
                           else if e.Flag? then Flagged(core.pc.dest)
                           else if e.ClaimBox? then Sending(core.pc.dest)
                           else if e.Send? then Sent(core.pc.dest)
                           else if e.Switch? && core.pc.Sent? then Switched(core.running, core.pc.dest)
                           else if e.LetGo? then Plain
                           else core.pc)
            && next.ask == (if e.Call? then Asking(e.d)
                            else if e.Claim? then Claimed(core.ask.to)
                            else if e.Deliver? then Silent
                            else core.ask)
            && next.handler == (if e.Receive? then Got(core.box.thread)
                                else if e.Own? then Owning(core.handler.t)
                                else if e.Place? then Placed(core.handler.t)
                                else if e.Ready? then Readied(core.handler.t)
                                else if e.Release? then Quiet
                                else core.handler)
  {
    assert CoreOk(s, e.c);
    if e.Switch? {
      var t := s.cores[e.c].running;
      assert ThreadOk(s, t) && Carried(s, e.c, t);
    }
    hide Inv, CoreOk, ThreadOk, Carried;
  }
}
