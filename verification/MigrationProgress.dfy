/** When self-migration hangs, when it cannot, and the runs that show both. */
module MigrationProgress {
  import opened Migration

  /* ---- What a core waits for ---- */

  /** The handler on `c` waits for the move lock that the jump on `d` holds. */
  predicate WaitsForLock(s: State, c: nat, d: nat) {
    && c < |s.cores| && d < |s.cores| && s.cores[c].handler.Got? && s.cores[c].handler.t < |s.threads|
    && s.threads[s.cores[c].handler.t].lock == Jump(d)
  }

  /** The jump on `c`, or a command it sends, with interrupts off, cannot get past the occupied mailbox
      of `d`. */
  predicate WaitsForBox(s: State, c: nat, d: nat) {
    && c < |s.cores| && d < |s.cores|
    && (s.cores[c].pc == Locked(d) || s.cores[c].pc == Unlinked(d) || s.cores[c].pc == Flagged(d)
        || s.cores[c].ask == Asking(d))
    && !s.cores[d].box.Empty?
  }

  predicate Blocked(s: State, c: nat, d: nat) { WaitsForLock(s, c, d) || WaitsForBox(s, c, d) }

  ghost predicate Unblocked(s: State, c: nat) { forall d :: !Blocked(s, c, d) }

  /** Every member waits for a member. */
  ghost predicate Closed(s: State, cs: set<nat>) { forall c <- cs :: WaitsWithin(s, cs, c) }

  ghost predicate WaitsWithin(s: State, cs: set<nat>, c: nat) { exists d :: d in cs && Blocked(s, c, d) }

  /** The two steps of a jump that nothing can hold up. */
  predicate Preparing(e: Event) { e.Unlink? || e.Flag? }

  ghost predicate Enabled(s: State, c: nat) { exists e: Event :: e.c == c && May(s, e) }

  lemma JumpSource(s: State, t: nat)
    requires Inv(s) && t < |s.threads|
    ensures s.threads[t].lock.Jump? ==>
              var d := s.threads[t].lock.core;
              d < |s.cores| && Jumping(s.cores[d], t) && s.cores[d].pc.dest < |s.cores| && s.cores[d].pc.dest != d
              && (Gone(s.cores[d]) ==> At(s.cores[s.cores[d].pc.dest], t))
  {
    assert ThreadOk(s, t);
    if s.threads[t].lock.Jump? { assert CoreOk(s, s.threads[t].lock.core); }
  }

  /** A lock that a handler waits for is held by the jump that sent the thread. */
  lemma LockHolder(s: State, c: nat)
    requires Inv(s) && c < |s.cores| && s.cores[c].handler.Got?
    ensures s.cores[c].handler.t < |s.threads|
    ensures var lock := s.threads[s.cores[c].handler.t].lock;
            lock.Free? || (lock.Jump? && lock.core < |s.cores| && Gone(s.cores[lock.core])
                           && s.cores[lock.core].pc.dest == c && lock.core != c)
  {
    assert CoreOk(s, c);
    var t := s.cores[c].handler.t;
    assert ThreadOk(s, t) && Carried(s, c, t);
    forall d | 0 <= d < |s.cores|
      ensures !Holding(s.cores[d], t)
    {
      assert Carried(s, d, t);
    }
    JumpSource(s, t);
  }

  /** The core stands in front of an occupied mailbox, with a jump or with another command. */
  predicate AtBox(s: State, c: nat)
    requires c < |s.cores|
  {
    || (s.cores[c].pc.Flagged? && s.cores[c].pc.dest < |s.cores| && !s.cores[s.cores[c].pc.dest].box.Empty?)
    || (s.cores[c].ask.Asking? && s.cores[c].ask.to < |s.cores| && !s.cores[s.cores[c].ask.to].box.Empty?)
  }

  /** A core has no step if and only if its handler waits for a held lock or it stands in front of an
      occupied mailbox. */
  lemma CoreStuckIff(s: State, c: nat)
    requires Inv(s) && c < |s.cores|
    ensures !Enabled(s, c) <==>
            || (s.cores[c].handler.Got? && s.cores[c].handler.t < |s.threads|
                && !s.threads[s.cores[c].handler.t].lock.Free?)
            || AtBox(s, c)
  {
    assert CoreOk(s, c);
    hide Inv, ThreadOk, Carried;
    var core := s.cores[c];
    if !core.handler.Quiet? {
      match core.handler
      case Got(t) => if s.threads[t].lock.Free? { assert May(s, Own(c)); }
      case Owning(t) => assert May(s, Place(c));
      case Placed(t) => assert May(s, Ready(c));
      case Readied(t) => assert May(s, Release(c));
      case Quiet =>
    } else {
      QuietMoves(s, c);
    }
  }

  lemma QuietMoves(s: State, c: nat)
    requires Inv(s) && c < |s.cores| && s.cores[c].handler.Quiet?
    ensures Enabled(s, c) <==> !AtBox(s, c)
  {
    assert CoreOk(s, c);
    var core := s.cores[c];
    if core.ask.Asking? {
      if s.cores[core.ask.to].box.Empty? { assert May(s, Claim(c)); }
    } else if core.ask.Claimed? {
      assert May(s, Deliver(c));
    } else {
      JumpMoves(s, c);
    }
  }

  lemma JumpMoves(s: State, c: nat)
    requires Inv(s) && c < |s.cores| && s.cores[c].handler.Quiet? && s.cores[c].ask.Silent?
    ensures Enabled(s, c) <==> !AtBox(s, c)
  {
    assert CoreOk(s, c);
    var core := s.cores[c];
    match core.pc
    case Plain => assert May(s, Work(c));
    case Locked(d) => assert May(s, Unlink(c));
    case Unlinked(d) => assert May(s, Flag(c));
    case Flagged(d) => if s.cores[d].box.Empty? { assert May(s, ClaimBox(c)); }
    case Sending(d) => assert May(s, Send(c));
    case Sent(d) => SentSwitches(s, c);
    case Switched(t, d) => assert May(s, LetGo(c));
  }

  /** A core that has sent its thread away can switch to its idle thread. */
  lemma SentSwitches(s: State, c: nat)
    requires Inv(s) && c < |s.cores| && s.cores[c].pc.Sent? && s.cores[c].handler.Quiet? && s.cores[c].ask.Silent?
    ensures May(s, Switch(c, s.cores[c].idle)) && s.threads[s.cores[c].running].moving
  {
    assert CoreOk(s, c);
    assert Carried(s, c, s.cores[c].running) && ThreadOk(s, s.cores[c].running);
  }

  /* ---- Closed sets stay closed ---- */

  /** A waiter is either in its handler, or in its jump with interrupts off. */
  lemma WaiterShape(s: State, c: nat, d: nat)
    requires Inv(s) && Blocked(s, c, d)
    ensures !s.cores[c].handler.Quiet? <==> WaitsForLock(s, c, d)
    ensures s.cores[c].handler.Quiet? ==> WaitsForBox(s, c, d)
  {
    assert CoreOk(s, c);
    hide Inv;
  }

  lemma WaiterPrepares(s: State, e: Event, d: nat)
    requires Inv(s) && May(s, e) && Blocked(s, e.c, d)
    requires !s.cores[e.c].handler.Quiet? <==> WaitsForLock(s, e.c, d)
    ensures Preparing(e)
  {
    assert CoreOk(s, e.c);
    hide Inv;
  }

  /** Who waits for a core outside the step, or for one that only prepares, goes on waiting. */
  lemma BlockedStays(s: State, e: Event, c: nat, d: nat)
    requires Inv(s) && May(s, e) && Blocked(s, c, d)
    requires (e.c != c && e.c != d) || Preparing(e)
    ensures Blocked(Step(s, e), c, d)
  {
    hide Inv, Cores, Threads, Cargo, CoreOk, ThreadOk, Carried;
    StepFacts(s, e, c);
    if WaitsForLock(s, c, d) { LockStays(s, e, c, d); } else { BoxStays(s, e, c, d); }
  }

  lemma StepFacts(s: State, e: Event, c: nat)
    requires Inv(s) && May(s, e) && c < |s.cores|
    ensures s.cores[e.c].running < |s.threads| && !s.cores[e.c].handler.Quiet? ==> Interruptible(s.cores[e.c])
    ensures s.cores[c].handler.Got? ==> s.cores[c].handler.t < |s.threads| && Carried(s, e.c, s.cores[c].handler.t)
    ensures s.cores[e.c].pc.Sending? ==> s.cores[e.c].pc.dest < |s.cores| && s.cores[s.cores[e.c].pc.dest].box == Filling(e.c)
  {
    assert CoreOk(s, e.c) && CoreOk(s, c);
  }

  /** A step leaves the other cores alone, but for their mailboxes. */
  lemma CoresKept(s: State, e: Event, a: nat)
    requires May(s, e) && a < |s.cores| && a != e.c
    ensures a < |Step(s, e).cores| && Step(s, e).cores[a] == s.cores[a].(box := Step(s, e).cores[a].box)
    ensures |Step(s, e).threads| == |s.threads|
  {
  }

  lemma LockStays(s: State, e: Event, c: nat, d: nat)
    requires May(s, e) && WaitsForLock(s, c, d) && Carried(s, e.c, s.cores[c].handler.t)
    requires (e.c != c && e.c != d) || Preparing(e)
    requires !s.cores[e.c].handler.Quiet? ==> Interruptible(s.cores[e.c])
    ensures WaitsForLock(Step(s, e), c, d)
  {
    if Preparing(e) {
      PreparingKeeps(s, e);
    } else {
      CoresKept(s, e, c);
      LockHeld(s, e, s.cores[c].handler.t, d);
      hide May, Step;
    }
  }

  lemma LockHeld(s: State, e: Event, t: nat, d: nat)
    requires May(s, e) && t < |s.threads| && s.threads[t].lock == Jump(d) && Carried(s, e.c, t) && e.c != d
    ensures t < |Step(s, e).threads| && Step(s, e).threads[t].lock == Jump(d)
  {
  }

  lemma BoxStays(s: State, e: Event, c: nat, d: nat)
    requires May(s, e) && WaitsForBox(s, c, d)
    requires (e.c != c && e.c != d) || Preparing(e)
    requires s.cores[e.c].pc.Sending? ==> s.cores[e.c].pc.dest < |s.cores| && s.cores[s.cores[e.c].pc.dest].box == Filling(e.c)
    ensures WaitsForBox(Step(s, e), c, d)
  {
    if Preparing(e) {
      PreparingKeeps(s, e);
    } else {
      CoresKept(s, e, c);
      BoxHeld(s, e, d);
      hide May, Step;
    }
  }

  lemma BoxHeld(s: State, e: Event, d: nat)
    requires May(s, e) && d < |s.cores| && e.c != d && !s.cores[d].box.Empty?
    ensures d < |Step(s, e).cores| && !Step(s, e).cores[d].box.Empty?
  {
  }

  /** What the preparations leave as it is: mailboxes, handlers and calls, all jumps' locks, where jumps
      go, and whether they still stand in front of the mailbox. */
  lemma PreparingKeeps(s: State, e: Event)
    requires May(s, e) && Preparing(e)
    ensures var z := Step(s, e);
            && |z.cores| == |s.cores| && |z.threads| == |s.threads|
            && (forall t :: 0 <= t < |s.threads| ==> z.threads[t].lock == s.threads[t].lock)
            && (forall y :: 0 <= y < |s.cores| ==>
                  var a, b := s.cores[y], z.cores[y];
                  && b.box == a.box && b.handler == a.handler && b.ask == a.ask
                  && (forall d :: a.pc == Locked(d) || a.pc == Unlinked(d) || a.pc == Flagged(d)
                                  ==> b.pc == Locked(d) || b.pc == Unlinked(d) || b.pc == Flagged(d)))
  {
  }

  lemma ClosedStays(s: State, cs: set<nat>, e: Event)
    requires Inv(s) && Closed(s, cs) && May(s, e)
    ensures Closed(Step(s, e), cs) && (e.c in cs ==> Preparing(e))
  {
    hide Inv, May, Step, WaitsWithin;
    if e.c in cs { WithinPrepares(s, cs, e); }
    forall c | c in cs
      ensures WaitsWithin(Step(s, e), cs, c)
    {
      WithinStays(s, cs, e, c);
    }
  }

  lemma WithinPrepares(s: State, cs: set<nat>, e: Event)
    requires Inv(s) && WaitsWithin(s, cs, e.c) && May(s, e)
    ensures Preparing(e)
  {
    hide Inv, May, Blocked, WaitsForLock;
    var d :| d in cs && Blocked(s, e.c, d);
    WaiterShape(s, e.c, d);
    WaiterPrepares(s, e, d);
  }

  lemma WithinStays(s: State, cs: set<nat>, e: Event, c: nat)
    requires Inv(s) && WaitsWithin(s, cs, c) && May(s, e) && c in cs
    requires e.c in cs ==> Preparing(e)
    ensures WaitsWithin(Step(s, e), cs, c)
  {
    hide Inv, May, Step, Blocked;
    var d :| d in cs && Blocked(s, c, d);
    BlockedStays(s, e, c, d);
  }

  ghost predicate OnlyPrepares(run: seq<Event>, cs: set<nat>) {
    forall i :: 0 <= i < |run| && run[i].c in cs ==> Preparing(run[i])
  }

  lemma {:induction false} ClosedHangs(s: State, cs: set<nat>, run: seq<Event>)
    requires Inv(s) && Closed(s, cs) && Admissible(s, run)
    ensures OnlyPrepares(run, cs)
    decreases |run|
  {
    hide Inv, May, Step, Closed, Preparing;
    if run != [] {
      ClosedStays(s, cs, run[0]);
      StepKeeps(s, run[0]);
      ClosedHangs(Step(s, run[0]), cs, run[1..]);
      forall i | 0 <= i < |run| && run[i].c in cs
        ensures Preparing(run[i])
      {
        if i > 0 { assert run[i] == run[1..][i - 1]; }
      }
    }
  }

  /* ---- Reaching states ---- */

  ghost predicate Reaches(s: State, z: State) { exists run :: Admissible(s, run) && After(s, run) == z }

  lemma ReachStep(s: State, e: Event)
    requires May(s, e)
    ensures Reaches(s, Step(s, e))
  {
    hide May, Step;
    var z := Step(s, e);
    assert Admissible(z, []) && After(z, []) == z;
    assert [e][1..] == [];
    assert Admissible(s, [e]) && After(s, [e]) == z;
  }

  lemma {:induction false} RunConcat(s: State, a: seq<Event>, b: seq<Event>)
    requires Admissible(s, a) && Admissible(After(s, a), b)
    ensures Admissible(s, a + b) && After(s, a + b) == After(After(s, a), b)
    decreases |a|
  {
    hide May, Step;
    if a == [] {
      assert a + b == b;
    } else {
      RunConcat(Step(s, a[0]), a[1..], b);
      assert (a + b)[1..] == a[1..] + b;
    }
  }

  lemma ReachTrans(s: State, m: State, z: State)
    requires Reaches(s, m) && Reaches(m, z)
    ensures Reaches(s, z)
  {
    var a :| Admissible(s, a) && After(s, a) == m;
    var b :| Admissible(m, b) && After(m, b) == z;
    RunConcat(s, a, b);
  }

  lemma ReachHere(s: State)
    ensures Reaches(s, s)
  {
    assert Admissible(s, []) && After(s, []) == s;
  }

  lemma ReachInv(s: State, z: State)
    requires Inv(s) && Reaches(s, z)
    ensures Inv(z)
  {
    hide Inv;
    var run :| Admissible(s, run) && After(s, run) == z;
    RunKeeps(s, run);
  }

  /** Some run has core `c` do more than prepare. */
  ghost predicate CanMove(s: State, c: nat) {
    exists run: seq<Event>, i :: Admissible(s, run) && 0 <= i < |run| && run[i].c == c && !Preparing(run[i])
  }

  lemma MovesNow(s: State, e: Event)
    requires May(s, e) && !Preparing(e)
    ensures CanMove(s, e.c)
  {
    hide May, Step, Preparing;
    assert [e][1..] == [];
    assert Admissible(s, [e]) && [e][0] == e;
  }

  lemma MovesLater(s: State, z: State, c: nat)
    requires Reaches(s, z) && CanMove(z, c)
    ensures CanMove(s, c)
  {
    hide Preparing;
    var a :| Admissible(s, a) && After(s, a) == z;
    var b: seq<Event>, i :| Admissible(z, b) && 0 <= i < |b| && b[i].c == c && !Preparing(b[i]);
    RunConcat(s, a, b);
    assert (a + b)[|a| + i] == b[i];
  }

  lemma MovesAfter(s: State, e: Event, c: nat)
    requires May(s, e) && CanMove(Step(s, e), c)
    ensures CanMove(s, c)
  {
    hide May, Step, CanMove, Reaches;
    ReachStep(s, e);
    MovesLater(s, Step(s, e), c);
  }

  /* ---- A core that is not blocked can be made to move, and to free who waits for it ---- */

  /** How far a core is from serving who waits for it. */
  function Distance(s: State, c: nat): nat
    requires c < |s.cores|
  {
    var core := s.cores[c];
    (match core.handler
     case Quiet => 0
     case Readied(_) => 1
     case Placed(_) => 2
     case Owning(_) => 3
     case Got(_) => 4)
    + (match core.pc
       case Plain => 0
       case Switched(_, _) => 1
       case Sent(_) => 2
       case Sending(_) => 3
       case Flagged(_) => 4
       case Unlinked(_) => 5
       case Locked(_) => 6)
    + (match core.ask
       case Silent => 0
       case Claimed(_) => 1
       case Asking(_) => 2)
    + (if core.box.Filling? then 1 else 0)
  }

  /** What the core does next: its handler, its jump, or for a waiter at its mailbox the sender and then
      the receipt. */
  ghost function Next(s: State, c: nat, forLock: bool): Event
    requires c < |s.cores|
  {
    var core := s.cores[c];
    if core.handler.Got? then Own(c)
    else if core.handler.Owning? then Place(c)
    else if core.handler.Placed? then Ready(c)
    else if core.handler.Readied? then Release(c)
    else if core.ask.Asking? then Claim(c)
    else if core.ask.Claimed? then Deliver(c)
    else
      match core.pc
      case Locked(_) => Unlink(c)
      case Unlinked(_) => Flag(c)
      case Flagged(_) => ClaimBox(c)
      case Sending(_) => Send(c)
      case Switched(_, _) => LetGo(c)
      case Sent(_) => if forLock then Switch(c, core.idle) else Empties(s, c)
      case Plain => Empties(s, c)
  }

  /** What empties the mailbox of the core, or comes before. */
  ghost function Empties(s: State, c: nat): Event
    requires c < |s.cores|
  {
    match s.cores[c].box
    case Filling(f) => if f < |s.cores| && s.cores[f].ask == Claimed(c) then Deliver(f) else Send(f)
    case Order => Obey(c)
    case _ => Receive(c)
  }

  lemma NextMay(s: State, x: nat, c: nat)
    requires Inv(s) && c < |s.cores| && x < |s.cores| && Unblocked(s, c) && Blocked(s, x, c)
    ensures var e := Next(s, c, WaitsForLock(s, x, c)); May(s, e) && e.c != x
  {
    var core := s.cores[c];
    assert CoreOk(s, c);
    assert x != c by { assert !Blocked(s, c, x); }
    if core.handler.Got? {
      LockHolder(s, c);
      var lock := s.threads[core.handler.t].lock;
      assert lock.Jump? ==> !Blocked(s, c, lock.core);
    } else if core.handler.Quiet? {
      if core.ask.Asking? { assert !Blocked(s, c, core.ask.to); }
      if core.ask.Silent? { NextJumpMay(s, x, c); }
    }
  }

  lemma NextJumpMay(s: State, x: nat, c: nat)
    requires Inv(s) && c < |s.cores| && x < |s.cores| && x != c && Unblocked(s, c) && Blocked(s, x, c)
    requires s.cores[c].handler.Quiet? && s.cores[c].ask.Silent?
    ensures var e := Next(s, c, WaitsForLock(s, x, c)); May(s, e) && e.c != x
  {
    var core := s.cores[c];
    assert CoreOk(s, c);
    if core.pc.Flagged? { assert !Blocked(s, c, core.pc.dest); }
    if core.pc.Sent? { SentSwitches(s, c); }
    if WaitsForLock(s, x, c) { LockHolder(s, x); }
    if Interruptible(core) { EmptiesMay(s, x, c); }
    hide Inv, CoreOk, Unblocked;
  }

  lemma EmptiesMay(s: State, x: nat, c: nat)
    requires Inv(s) && c < |s.cores| && x < |s.cores| && x != c && Interruptible(s.cores[c]) && s.cores[c].handler.Quiet?
    ensures WaitsForBox(s, x, c) && !WaitsForLock(s, x, c) ==> May(s, Empties(s, c)) && Empties(s, c).c != x
  {
    assert CoreOk(s, c) && CoreOk(s, x);
    if s.cores[c].box.Filling? { assert CoreOk(s, s.cores[c].box.from); }
    hide Inv;
  }

  /** Nobody else's wait has ended. */
  ghost predicate Kept(s: State, z: State, c: nat) {
    forall y: nat, d: nat :: y != c && d != c && Blocked(s, y, d) ==> Blocked(z, y, d)
  }

  lemma NextKeeps(s: State, x: nat, c: nat)
    requires Inv(s) && c < |s.cores| && x < |s.cores| && Unblocked(s, c) && Blocked(s, x, c)
    ensures var e := Next(s, c, WaitsForLock(s, x, c)); May(s, e) && Kept(s, Step(s, e), c)
  {
    hide Inv, May, Step, Unblocked, Blocked;
    NextMay(s, x, c);
    var e := Next(s, c, WaitsForLock(s, x, c));
    NextWhose(s, x, c);
    forall y: nat, d: nat | y != c && d != c && Blocked(s, y, d)
      ensures Blocked(Step(s, e), y, d)
    {
      if e.c == c { BlockedStays(s, e, y, d); } else { SendKept(s, e, y, d); }
    }
  }

  lemma NextWhose(s: State, x: nat, c: nat)
    requires c < |s.cores|
    ensures var e := Next(s, c, WaitsForLock(s, x, c)); e.c == c || e == Send(e.c) || e == Deliver(e.c)
  {
  }

  lemma SendKept(s: State, e: Event, y: nat, d: nat)
    requires Inv(s) && May(s, e) && (e.Send? || e.Deliver?) && Blocked(s, y, d)
    ensures Blocked(Step(s, e), y, d)
  {
    assert CoreOk(s, e.c);
    if y < |s.cores| && s.cores[y].handler.Got? { LockHolder(s, y); }
    WaiterShape(s, y, d);
    hide Inv;
  }

  /** The waiter still waits for `c`, which is not blocked and has come closer. */
  ghost predicate Closer(s: State, z: State, x: nat, c: nat)
    requires c < |s.cores|
  {
    && |z.cores| == |s.cores| && Blocked(z, x, c) && Unblocked(z, c) && Distance(z, c) < Distance(s, c)
  }

  lemma HandlerServes(s: State, x: nat, c: nat)
    requires Inv(s) && c < |s.cores| && x < |s.cores| && x != c && Blocked(s, x, c) && !s.cores[c].handler.Quiet?
    requires var e := Next(s, c, WaitsForLock(s, x, c)); May(s, e)
    ensures Closer(s, Step(s, Next(s, c, WaitsForLock(s, x, c))), x, c)
  {
    assert CoreOk(s, c);
    assert Carried(s, c, s.cores[c].handler.t);
    WaiterShape(s, x, c);
    if s.cores[x].handler.Got? { LockHolder(s, x); }
    hide Inv, CoreOk;
    var z := Step(s, Next(s, c, WaitsForLock(s, x, c)));
    assert Blocked(z, x, c);
    assert forall d :: !WaitsForLock(z, c, d) && !WaitsForBox(z, c, d);
  }

  lemma JumpServes(s: State, x: nat, c: nat, e: Event)
    requires Inv(s) && c < |s.cores| && x < |s.cores| && x != c && Unblocked(s, c) && Blocked(s, x, c)
    requires s.cores[c].handler.Quiet? && May(s, e) && e.c == c
    requires e.Unlink? || e.Flag? || e.ClaimBox? || e.Send? || e.Claim? || e.Deliver?
    ensures Closer(s, Step(s, e), x, c)
  {
    assert CoreOk(s, c);
    WaiterShape(s, x, c);
    if s.cores[x].handler.Got? { LockHolder(s, x); }
    if !s.cores[c].pc.Plain? { assert !Blocked(s, c, s.cores[c].pc.dest); }
    hide Inv, CoreOk, Unblocked;
    var z := Step(s, e);
    assert Blocked(z, x, c);
    forall d ensures !Blocked(z, c, d) { }
    assert Unblocked(z, c);
  }

  lemma SentServes(s: State, x: nat, c: nat, e: Event)
    requires Inv(s) && c < |s.cores| && x < |s.cores| && x != c && Unblocked(s, c) && Blocked(s, x, c)
    requires s.cores[c].handler.Quiet? && Interruptible(s.cores[c]) && May(s, e)
    requires (e == Switch(c, s.cores[c].idle) && s.cores[c].pc.Sent?)
             || (s.cores[c].box.Filling? && e.c == s.cores[c].box.from && (e.Send? || e.Deliver?) && e == Empties(s, c))
    ensures Closer(s, Step(s, e), x, c)
  {
    assert CoreOk(s, c);
    if s.cores[c].pc.Sent? { SentSwitches(s, c); }
    if s.cores[c].box.Filling? { assert CoreOk(s, s.cores[c].box.from); }
    WaiterShape(s, x, c);
    hide Inv, CoreOk, Unblocked;
    var z := Step(s, e);
    assert Blocked(z, x, c);
    forall d ensures !Blocked(z, c, d) { }
    assert Unblocked(z, c);
  }

  /** Letting go of the lock, or emptying the mailbox, frees the waiter. */
  lemma LetGoServes(s: State, x: nat, c: nat)
    requires Inv(s) && c < |s.cores| && x < |s.cores| && x != c && Unblocked(s, c) && Blocked(s, x, c)
    requires May(s, LetGo(c))
    ensures WaitsForLock(s, x, c) ==> Unblocked(Step(s, LetGo(c)), x)
    ensures !WaitsForLock(s, x, c) ==> Closer(s, Step(s, LetGo(c)), x, c)
  {
    assert CoreOk(s, c) && CoreOk(s, x);
    WaiterShape(s, x, c);
    if s.cores[x].handler.Got? { LockHolder(s, x); JumpSource(s, s.cores[x].handler.t); }
    hide Inv, CoreOk, Unblocked;
    var z := Step(s, LetGo(c));
    if WaitsForLock(s, x, c) {
      forall d ensures !Blocked(z, x, d) { }
      assert Unblocked(z, x);
    } else {
      assert Blocked(z, x, c);
      forall d ensures !Blocked(z, c, d) { }
      assert Unblocked(z, c);
    }
  }

  lemma ReceiveServes(s: State, x: nat, c: nat, e: Event)
    requires Inv(s) && c < |s.cores| && x < |s.cores| && x != c && WaitsForBox(s, x, c)
    requires May(s, e) && (e == Receive(c) || e == Obey(c))
    ensures Unblocked(Step(s, e), x)
  {
    assert CoreOk(s, x);
    hide Inv, CoreOk;
    var z := Step(s, e);
    forall d ensures !Blocked(z, x, d) { }
  }

  /** A step of the service either frees the waiter or brings the core closer to it. */
  lemma NextServes(s: State, x: nat, c: nat)
    requires Inv(s) && c < |s.cores| && x < |s.cores| && Unblocked(s, c) && Blocked(s, x, c)
    ensures var e := Next(s, c, WaitsForLock(s, x, c));
            May(s, e) && (Unblocked(Step(s, e), x) || Closer(s, Step(s, e), x, c))
  {
    hide Inv, May, Step, Closer, Blocked, WaitsForLock, WaitsForBox;
    NextMay(s, x, c);
    assert x != c by { assert !Blocked(s, c, x); }
    if s.cores[c].handler.Quiet? { NextIs(s, x, c); }
    var e := Next(s, c, WaitsForLock(s, x, c));
    hide Unblocked, Next;
    if !s.cores[c].handler.Quiet? {
      HandlerServes(s, x, c);
    } else if e.LetGo? {
      LetGoServes(s, x, c);
    } else if e.Receive? || e.Obey? {
      ReceiveServes(s, x, c, e);
    } else if e.Switch? || e.c != c {
      SentServes(s, x, c, e);
    } else {
      JumpServes(s, x, c, e);
    }
  }

  lemma NextIs(s: State, x: nat, c: nat)
    requires Inv(s) && c < |s.cores| && x < |s.cores| && Blocked(s, x, c) && s.cores[c].handler.Quiet?
    ensures var e := Next(s, c, WaitsForLock(s, x, c));
            && (e.LetGo? ==> e == LetGo(c))
            && (e.Receive? || e.Obey? ==> (e == Receive(c) || e == Obey(c)) && WaitsForBox(s, x, c))
            && (e.Switch? ==> e == Switch(c, s.cores[c].idle) && s.cores[c].pc.Sent? && s.cores[c].ask.Silent?)
            && (e.c != c ==> s.cores[c].box.Filling? && e.c == s.cores[c].box.from && (e.Send? || e.Deliver?)
                             && e == Empties(s, c) && Interruptible(s.cores[c]))
            && (e.LetGo? || e.Receive? || e.Obey? || e.Switch? || e.c != c || e.Unlink? || e.Flag? || e.ClaimBox?
                || e.Send? || e.Claim? || e.Deliver?)
  {
    WaiterShape(s, x, c);
    if s.cores[x].handler.Got? { LockHolder(s, x); }
    hide Inv;
  }

  lemma KeptTrans(s: State, m: State, z: State, c: nat)
    requires Kept(s, m, c) && Kept(m, z, c)
    ensures Kept(s, z, c)
  {
    hide Blocked;
  }

  /** A core that is not blocked can free who waits for it, without ending anybody else's wait. */
  lemma {:induction false} Serve(s: State, x: nat, c: nat) returns (z: State)
    requires Inv(s) && c < |s.cores| && x < |s.cores| && Unblocked(s, c) && Blocked(s, x, c)
    ensures Inv(z) && |z.cores| == |s.cores| && Reaches(s, z) && Kept(s, z, c) && Unblocked(z, x)
    decreases Distance(s, c)
  {
    hide Inv, May, Step, Unblocked, Blocked, WaitsForLock, Kept, Reaches, Distance, Next;
    NextServes(s, x, c);
    NextKeeps(s, x, c);
    var e := Next(s, c, WaitsForLock(s, x, c));
    var m := Step(s, e);
    StepKeeps(s, e);
    ReachStep(s, e);
    SameCores(s, e);
    if Unblocked(m, x) { return m; }
    z := Serve(m, x, c);
    KeptTrans(s, m, z, c);
    ReachTrans(s, m, z);
  }

  lemma SameCores(s: State, e: Event)
    requires May(s, e)
    ensures |Step(s, e).cores| == |s.cores|
  {
  }

  /** A core that is not blocked gets past its preparations. */
  lemma {:induction false} UnblockedMoves(s: State, c: nat)
    requires Inv(s) && c < |s.cores| && Unblocked(s, c)
    ensures CanMove(s, c)
    decreases Distance(s, c)
  {
    CoreStuckIff(s, c);
    if s.cores[c].handler.Got? { LockHolder(s, c); }
    UnblockedEnabled(s, c);
    hide Inv, May, Step, CanMove, Unblocked;
    var e: Event :| e.c == c && May(s, e);
    if Preparing(e) {
      PrepareStays(s, e);
      StepKeeps(s, e);
      UnblockedMoves(Step(s, e), c);
      MovesAfter(s, e, c);
    } else {
      MovesNow(s, e);
    }
  }

  lemma UnblockedEnabled(s: State, c: nat)
    requires Inv(s) && c < |s.cores| && Unblocked(s, c)
    ensures Enabled(s, c)
  {
    CoreStuckIff(s, c);
    if s.cores[c].handler.Got? {
      LockHolder(s, c);
      var lock := s.threads[s.cores[c].handler.t].lock;
      assert lock.Jump? ==> !Blocked(s, c, lock.core);
    }
    if s.cores[c].pc.Flagged? { assert !Blocked(s, c, s.cores[c].pc.dest); }
    if s.cores[c].ask.Asking? { assert !Blocked(s, c, s.cores[c].ask.to); }
    hide Inv, May;
  }

  lemma PrepareStays(s: State, e: Event)
    requires Inv(s) && May(s, e) && Preparing(e) && Unblocked(s, e.c)
    ensures e.c < |Step(s, e).cores| && Unblocked(Step(s, e), e.c) && e.c < |s.cores|
    ensures Distance(Step(s, e), e.c) < Distance(s, e.c)
  {
    assert CoreOk(s, e.c);
    hide Inv, CoreOk, Unblocked;
    var z := Step(s, e);
    assert !Blocked(s, e.c, s.cores[e.c].pc.dest) by { assert Unblocked(s, e.c); Instance(s, e.c, s.cores[e.c].pc.dest); }
    forall d ensures !Blocked(z, e.c, d) { }
    assert Unblocked(z, e.c) by { All(z, e.c); }
  }

  lemma Instance(s: State, c: nat, d: nat)
    requires Unblocked(s, c)
    ensures !Blocked(s, c, d)
  {
  }

  lemma All(s: State, c: nat)
    requires forall d :: !Blocked(s, c, d)
    ensures Unblocked(s, c)
  {
  }

  /* ---- Exactly when cores hang ---- */

  /** A chain of waits that ends at a core that is not blocked. */
  ghost predicate Path(s: State, p: seq<nat>) {
    && p != [] && (forall i :: 0 <= i < |p| ==> p[i] < |s.cores|)
    && (forall i :: 0 <= i < |p| - 1 ==> Blocked(s, p[i], p[i + 1]))
    && Unblocked(s, p[|p| - 1])
  }

  ghost predicate Escapes(s: State, c: nat) { exists p :: p != [] && p[0] == c && Path(s, p) }

  lemma {:induction false} PathMoves(s: State, p: seq<nat>)
    requires Inv(s) && Path(s, p)
    ensures CanMove(s, p[0])
    decreases |p|
  {
    hide Inv, CanMove, Blocked, Unblocked, Reaches, Kept;
    var n := |p| - 1;
    if n == 0 {
      UnblockedMoves(s, p[0]);
    } else {
      assert Blocked(s, p[n - 1], p[(n - 1) + 1]);
      var z := Serve(s, p[n - 1], p[n]);
      ShorterPath(s, z, p);
      PathMoves(z, p[..n]);
      MovesLater(s, z, p[0]);
    }
  }

  lemma ShorterPath(s: State, z: State, p: seq<nat>)
    requires Path(s, p) && |p| > 1 && |z.cores| == |s.cores|
    requires Kept(s, z, p[|p| - 1]) && Unblocked(z, p[|p| - 2])
    ensures Path(z, p[..|p| - 1])
  {
    hide Blocked, Unblocked, Kept;
    var q := p[..|p| - 1];
    forall i | 0 <= i < |q| - 1
      ensures Blocked(z, q[i], q[i + 1])
    {
      BlockedDiffers(s, p[i], p[i + 1], p[|p| - 1]);
      assert Blocked(s, p[i + 1], p[(i + 1) + 1]);
      BlockedDiffers(s, p[i + 1], p[i + 2], p[|p| - 1]);
      KeptAt(s, z, p[|p| - 1], p[i], p[i + 1]);
    }
  }

  lemma BlockedDiffers(s: State, y: nat, d: nat, c: nat)
    requires Blocked(s, y, d) && Unblocked(s, c)
    ensures y != c
  {
  }

  lemma KeptAt(s: State, z: State, c: nat, y: nat, d: nat)
    requires Kept(s, z, c) && y != c && d != c && Blocked(s, y, d)
    ensures Blocked(z, y, d)
  {
  }

  /** The cores from which no chain of waits leads out wait for one another. */
  lemma NoEscapeClosed(s: State)
    ensures Closed(s, set c | 0 <= c < |s.cores| && !Escapes(s, c))
  {
    hide Blocked, Path;
    var cs := set c | 0 <= c < |s.cores| && !Escapes(s, c);
    forall c | c in cs
      ensures WaitsWithin(s, cs, c)
    {
      EscapeHere(s, c);
      var d :| Blocked(s, c, d);
      EscapeFrom(s, c, d);
    }
  }

  lemma EscapeHere(s: State, c: nat)
    requires c < |s.cores|
    ensures Unblocked(s, c) ==> Escapes(s, c)
  {
    if Unblocked(s, c) { assert Path(s, [c]) && [c][0] == c; }
  }

  lemma EscapeFrom(s: State, c: nat, d: nat)
    requires c < |s.cores| && Blocked(s, c, d)
    ensures d < |s.cores| && (Escapes(s, d) ==> Escapes(s, c))
  {
    hide Path;
    if Escapes(s, d) {
      var p :| p != [] && p[0] == d && Path(s, p);
      PathFrom(s, c, p);
      assert ([c] + p)[0] == c;
    }
  }

  lemma PathFrom(s: State, c: nat, p: seq<nat>)
    requires Path(s, p) && c < |s.cores| && Blocked(s, c, p[0])
    ensures Path(s, [c] + p)
  {
    hide Blocked, Unblocked;
    var q := [c] + p;
    assert q[|q| - 1] == p[|p| - 1];
    forall i | 0 <= i < |q| - 1
      ensures Blocked(s, q[i], q[i + 1])
    {
      if i > 0 { assert Blocked(s, p[i - 1], p[(i - 1) + 1]); }
    }
  }

  /** In a set that is part of no closed set some core can move. */
  lemma EscapeMoves(s: State, c: nat)
    requires Inv(s) && Escapes(s, c)
    ensures CanMove(s, c)
  {
    hide Inv, CanMove, Path;
    var p :| p != [] && p[0] == c && Path(s, p);
    PathMoves(s, p);
  }

  /** Cores hang, that is never again do more than prepare a jump, if and only if they belong to a set of
      cores each of which waits for another one of the set: for a lock that a jump holds, or for an
      occupied mailbox. */
  lemma HangIff(s: State, cs: set<nat>)
    requires Inv(s) && forall c <- cs :: c < |s.cores|
    ensures (forall run :: Admissible(s, run) ==> OnlyPrepares(run, cs))
            <==> exists all: set<nat> :: cs <= all && Closed(s, all)
  {
    hide Inv, Admissible, Closed, Escapes, Preparing;
    if all: set<nat> :| cs <= all && Closed(s, all) {
      forall run | Admissible(s, run)
        ensures OnlyPrepares(run, cs)
      {
        ClosedHangs(s, all, run);
      }
    } else {
      var all := set c | 0 <= c < |s.cores| && !Escapes(s, c);
      NoEscapeClosed(s);
      var c :| c in cs && c !in all;
      EscapeMoves(s, c);
      CanMoveRefutes(s, cs, c);
    }
  }

  lemma CanMoveRefutes(s: State, cs: set<nat>, c: nat)
    requires CanMove(s, c) && c in cs
    ensures exists run :: Admissible(s, run) && !OnlyPrepares(run, cs)
  {
    hide Admissible, Preparing;
    var run: seq<Event>, i :| Admissible(s, run) && 0 <= i < |run| && run[i].c == c && !Preparing(run[i]);
    assert !OnlyPrepares(run, cs);
  }

  /** Without such a set every core can go on. */
  lemma NoKnotMoves(s: State, c: nat)
    requires Inv(s) && c < |s.cores| && forall all: set<nat> :: Closed(s, all) ==> all == {}
    ensures CanMove(s, c)
  {
    hide Inv, Closed, Escapes, CanMove;
    NoEscapeClosed(s);
    var all := set x | 0 <= x < |s.cores| && !Escapes(s, x);
    assert c !in all;
    EscapeMoves(s, c);
  }

  /* ---- The deadlocks can be reached: crossed jumps ---- */

  /** Core `c` runs a thread that can jump to `d`. */
  predicate CanJump(s: State, c: nat, d: nat) {
    && Known(s, c) && d < |s.cores| && c != d
    && s.cores[c].pc.Plain? && s.cores[c].ask.Silent? && s.cores[c].handler.Quiet?
    && s.cores[c].running != s.cores[c].idle
    && s.threads[s.cores[c].running].ready && s.threads[s.cores[c].running].lock.Free?
  }

  /** The jump up to the mailbox. */
  function Prepared(s: State, c: nat, d: nat): State
    requires CanJump(s, c, d)
  {
    var t := s.cores[c].running;
    Set(Put(s, c, s.cores[c].(pc := Flagged(d), queue := s.cores[c].queue - {t})),
        t, s.threads[t].(ready := false, moving := true, lock := Jump(c)))
  }

  lemma Prepare(s: State, c: nat, d: nat)
    requires CanJump(s, c, d)
    ensures Reaches(s, Prepared(s, c, d))
  {
    var s1 := Step(s, TakeLock(c, d));
    var s2 := Step(s1, Unlink(c));
    var s3 := Step(s2, Flag(c));
    assert s3.cores == Prepared(s, c, d).cores;
    assert s3.threads == Prepared(s, c, d).threads;
    hide May, Step, Reaches, CanJump, Prepared;
    ReachStep(s, TakeLock(c, d));
    ReachStep(s1, Unlink(c));
    ReachStep(s2, Flag(c));
    ReachTrans(s, s1, s2);
    ReachTrans(s, s2, s3);
  }

  predicate CanLaunch(s: State, c: nat, d: nat) { CanJump(s, c, d) && s.cores[d].box.Empty? }

  function Launched(s: State, c: nat, d: nat): State
    requires CanLaunch(s, c, d)
  {
    var t := s.cores[c].running;
    var left := Put(s, c, s.cores[c].(pc := Sent(d), queue := s.cores[c].queue - {t}));
    Set(Put(left, d, left.cores[d].(box := Full(t))), t, s.threads[t].(ready := false, moving := true, lock := Jump(c)))
  }

  lemma Launch(s: State, c: nat, d: nat)
    requires CanLaunch(s, c, d)
    ensures Reaches(s, Launched(s, c, d))
  {
    var s1 := Prepared(s, c, d);
    Prepare(s, c, d);
    var s2 := Step(s1, ClaimBox(c));
    var s3 := Step(s2, Send(c));
    assert s3.cores == Launched(s, c, d).cores;
    assert s3.threads == Launched(s, c, d).threads;
    hide May, Step, Reaches, CanLaunch, Launched, Prepared;
    ReachStep(s1, ClaimBox(c));
    ReachStep(s2, Send(c));
    ReachTrans(s, s1, s2);
    ReachTrans(s, s2, s3);
  }

  /** Each core's handler waits for a lock that the other core's jump holds. */
  predicate Crossed(s: State, a: nat, b: nat) {
    && a != b && Known(s, a) && Known(s, b)
    && s.cores[a].pc.Sent? && s.cores[b].pc.Sent?
    && s.cores[a].handler == Got(s.cores[b].running) && s.cores[b].handler == Got(s.cores[a].running)
    && s.threads[s.cores[a].running].lock == Jump(a) && s.threads[s.cores[b].running].lock == Jump(b)
  }

  /** From any such state, two threads that jump to each other's cores at the same time can deadlock. */
  lemma CrossJumpsDeadlock(s: State, a: nat, b: nat)
    requires CanLaunch(s, a, b) && CanLaunch(s, b, a) && s.cores[a].running != s.cores[b].running
    ensures exists z :: Reaches(s, z) && Crossed(z, a, b)
  {
    var s1 := Launched(s, a, b);
    Launch(s, a, b);
    var s2 := Launched(s1, b, a);
    Launch(s1, b, a);
    var s3 := Step(s2, Receive(a));
    ReachStep(s2, Receive(a));
    var s4 := Step(s3, Receive(b));
    ReachStep(s3, Receive(b));
    assert Crossed(s4, a, b);
    hide May, Step, Reaches, CanLaunch, Launched, Crossed;
    ReachTrans(s, s1, s2);
    ReachTrans(s, s2, s3);
    ReachTrans(s, s3, s4);
  }

  /** Once crossed, neither core takes another step, whatever the others do. */
  lemma CrossedForever(s: State, a: nat, b: nat, e: Event)
    requires Inv(s) && Crossed(s, a, b) && May(s, e)
    ensures e.c != a && e.c != b && Crossed(Step(s, e), a, b)
  {
    var t, u := s.cores[a].running, s.cores[b].running;
    NotCrossed(s, a, b, e);
    assert Carried(s, e.c, t) && Carried(s, e.c, u);
    assert CoreOk(s, a) && CoreOk(s, b);
    hide Inv, Carried, CoreOk;
    LocksKept(s, e, t);
    LocksKept(s, e, u);
    CoresKept(s, e, a);
    CoresKept(s, e, b);
  }

  lemma NotCrossed(s: State, a: nat, b: nat, e: Event)
    requires Inv(s) && Crossed(s, a, b) && May(s, e)
    ensures e.c != a && e.c != b
  {
    assert CoreOk(s, e.c);
    hide Inv, CoreOk;
  }

  /** A lock held by another core's jump is not touched. */
  lemma LocksKept(s: State, e: Event, t: nat)
    requires May(s, e) && Inv(s) && t < |s.threads| && s.threads[t].lock.Jump? && s.threads[t].lock.core != e.c
    ensures t < |Step(s, e).threads| && Step(s, e).threads[t].lock == s.threads[t].lock
  {
    assert CoreOk(s, e.c) && Carried(s, e.c, t);
    hide Inv, CoreOk;
  }

  lemma {:induction false} DeadlockLasts(s: State, a: nat, b: nat, run: seq<Event>)
    requires Inv(s) && Crossed(s, a, b) && Admissible(s, run)
    ensures Crossed(After(s, run), a, b)
    ensures forall e: Event | May(After(s, run), e) :: e.c != a && e.c != b
    decreases |run|
  {
    if run == [] {
      forall e: Event | May(s, e) ensures e.c != a && e.c != b { CrossedForever(s, a, b, e); }
    } else {
      StepKeeps(s, run[0]);
      CrossedForever(s, a, b, run[0]);
      hide May, Step, Inv, Crossed;
      DeadlockLasts(Step(s, run[0]), a, b, run[1..]);
    }
  }

  /** While a target waits for the lock, the source can go on exactly unless its own handler is waiting
      for some other thread's lock, or an interrupt in it stands in front of an occupied mailbox. */
  lemma SourceMovesIff(s: State, d: nat, c: nat)
    requires Inv(s) && d < |s.cores| && s.cores[d].handler.Got?
    requires s.cores[d].handler.t < |s.threads| && s.threads[s.cores[d].handler.t].lock == Jump(c)
    ensures c < |s.cores|
    ensures Enabled(s, c)
            <==> !(s.cores[c].handler.Got? && s.cores[c].handler.t < |s.threads|
                   && !s.threads[s.cores[c].handler.t].lock.Free?)
                 && !(s.cores[c].ask.Asking? && AtBox(s, c))
  {
    hide Inv, Enabled;
    LockHolder(s, d);
    CoreStuckIff(s, c);
  }

  /* ---- A deadlock with a single jump ---- */

  /** The handler of `b` waits for the lock of the jump on `a`, where an interrupt waits for the mailbox
      of `b`. */
  predicate Entangled(s: State, a: nat, b: nat) { WaitsForLock(s, b, a) && WaitsForBox(s, a, b) }

  lemma EntangledClosed(s: State, a: nat, b: nat)
    requires Entangled(s, a, b)
    ensures Closed(s, {a, b})
  {
    PairCloses(s, a, b);
  }

  lemma PairCloses(s: State, a: nat, b: nat)
    requires Blocked(s, a, b) && Blocked(s, b, a)
    ensures Closed(s, {a, b})
  {
    hide Blocked, WaitsWithin;
    WithinFound(s, {a, b}, a, b);
    WithinFound(s, {a, b}, b, a);
  }

  lemma WithinFound(s: State, cs: set<nat>, c: nat, d: nat)
    requires d in cs && Blocked(s, c, d)
    ensures WaitsWithin(s, cs, c)
  {
  }

  /** One jump is enough when an interrupt on its core sends two more commands to the target before the
      jump has switched away. */
  lemma EntangledDeadlock(s: State, a: nat, b: nat)
    requires CanLaunch(s, a, b) && Known(s, b) && Interruptible(s.cores[b]) && s.cores[b].handler.Quiet?
    ensures exists z :: Reaches(s, z) && Entangled(z, a, b)
  {
    hide Reaches;
    var s1 := Launched(s, a, b);
    Launch(s, a, b);
    var s2 := Step(s1, Receive(b));
    ReachStep(s1, Receive(b));
    ReachTrans(s, s1, s2);
    TwoCalls(s2, a, b);
    var z :| Reaches(s2, z) && Entangled(z, a, b);
    ReachTrans(s, s2, z);
  }

  lemma TwoCalls(s: State, a: nat, b: nat)
    requires WaitsForLock(s, b, a) && a != b && Known(s, a) && Interruptible(s.cores[a]) && s.cores[a].handler.Quiet?
    requires s.cores[b].box.Empty?
    ensures exists z :: Reaches(s, z) && Entangled(z, a, b)
  {
    var s1 := Step(s, Call(a, b));
    var s2 := Step(s1, Claim(a));
    var s3 := Step(s2, Deliver(a));
    var s4 := Step(s3, Call(a, b));
    assert Entangled(s4, a, b);
    hide May, Step, Reaches, Entangled;
    ReachStep(s, Call(a, b));
    ReachStep(s1, Claim(a));
    ReachStep(s2, Deliver(a));
    ReachStep(s3, Call(a, b));
    ReachTrans(s, s1, s2);
    ReachTrans(s, s2, s3);
    ReachTrans(s, s3, s4);
  }

  lemma CrossedClosed(s: State, a: nat, b: nat)
    requires Crossed(s, a, b)
    ensures Closed(s, {a, b})
  {
    PairCloses(s, a, b);
  }

  /* ---- The other deadlock: two mailboxes ---- */

  /** Each core is about to send to the other, whose mailbox is full. */
  predicate FullBoxes(s: State, a: nat, b: nat) {
    && a != b && a < |s.cores| && b < |s.cores|
    && s.cores[a].pc == Flagged(b) && s.cores[b].pc == Flagged(a)
    && s.cores[a].box.Full? && s.cores[b].box.Full?
  }

  lemma FullBoxesClosed(s: State, a: nat, b: nat)
    requires FullBoxes(s, a, b)
    ensures Closed(s, {a, b})
  {
    PairCloses(s, a, b);
  }

  /** The core has sent its thread away and can go on with thread `x`. */
  predicate CanPark(s: State, c: nat, x: nat) {
    && Known(s, c) && s.cores[c].pc.Sent? && s.cores[c].ask.Silent? && s.cores[c].handler.Quiet? && s.threads[s.cores[c].running].moving
    && x in s.cores[c].queue && x != s.cores[c].running && x < |s.threads|
  }

  function Parked(s: State, c: nat, x: nat): State
    requires CanPark(s, c, x)
  {
    var t := s.cores[c].running;
    Set(Put(s, c, s.cores[c].(running := x, pc := Plain)), t, s.threads[t].(moving := false, lock := Free))
  }

  lemma Park(s: State, c: nat, x: nat)
    requires CanPark(s, c, x)
    ensures Reaches(s, Parked(s, c, x))
  {
    var s1 := Step(s, Switch(c, x));
    var s2 := Step(s1, LetGo(c));
    assert s2.cores == Parked(s, c, x).cores;
    hide May, Step, Reaches, CanPark, Parked;
    ReachStep(s, Switch(c, x));
    ReachStep(s1, LetGo(c));
    ReachTrans(s, s1, s2);
  }

  /** Besides the running thread, the core has another one that could jump. */
  predicate HasSecond(s: State, c: nat, x: nat) {
    && c < |s.cores| && x in s.cores[c].queue && x != s.cores[c].running && x != s.cores[c].idle
    && x < |s.threads| && s.threads[x].lock.Free?
  }

  /** Two cores that each send a thread to the other, go on with a second thread and send that one too,
      can fill each other's mailbox and then wait for each other with interrupts off. */
  lemma MailboxDeadlock(s: State, a: nat, b: nat, x: nat, y: nat)
    requires Inv(s) && CanLaunch(s, a, b) && CanLaunch(s, b, a) && HasSecond(s, a, x) && HasSecond(s, b, y)
    ensures exists z :: Reaches(s, z) && FullBoxes(z, a, b)
  {
    assert CoreOk(s, a) && CoreOk(s, b);
    hide Inv, CoreOk, Reaches;
    var s1 := Launched(s, a, b);
    Launch(s, a, b);
    var s2 := Launched(s1, b, a);
    Launch(s1, b, a);
    assert Seconds(s2, a, b, x, y);
    Refill(s2, a, b, x, y);
    var z :| Reaches(s2, z) && FullBoxes(z, a, b);
    ReachTrans(s, s1, s2);
    ReachTrans(s, s2, z);
  }

  /** Both first threads are sent and the second ones can be switched to. */
  predicate Seconds(s: State, a: nat, b: nat, x: nat, y: nat) {
    && a != b && CanPark(s, a, x) && CanPark(s, b, y)
    && s.cores[a].box.Full? && s.cores[b].box.Full?
    && CanFollow(s, a, x) && CanFollow(s, b, y)
    && x != y && s.cores[a].running != y && s.cores[b].running != x && s.cores[a].running != s.cores[b].running
  }

  predicate CanFollow(s: State, c: nat, x: nat) {
    c < |s.cores| && x < |s.threads| && s.threads[x].ready && s.threads[x].lock.Free? && x != s.cores[c].idle
  }

  lemma Refill(s: State, a: nat, b: nat, x: nat, y: nat)
    requires Seconds(s, a, b, x, y)
    ensures exists z :: Reaches(s, z) && FullBoxes(z, a, b)
  {
    hide Reaches;
    var s1 := Parked(s, a, x);
    Park(s, a, x);
    var s2 := Parked(s1, b, y);
    Park(s1, b, y);
    var s3 := Prepared(s2, a, b);
    Prepare(s2, a, b);
    var s4 := Prepared(s3, b, a);
    Prepare(s3, b, a);
    assert FullBoxes(s4, a, b);
    hide Parked, Prepared, FullBoxes, CanPark, CanJump;
    ReachTrans(s, s1, s2);
    ReachTrans(s, s2, s3);
    ReachTrans(s, s3, s4);
  }
}
