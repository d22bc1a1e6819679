/** How jumps and commands between cores can be used so that no core hangs: one at a time, or only up a
    ranking of the cores and not from the middle of a jump. */
module MigrationLive {
  import opened Migration
  import opened MigrationProgress

  /* ---- The three kinds of deadlock, and no fourth ---- */

  ghost predicate LockKnot(s: State, cs: set<nat>) {
    forall c <- cs :: LockWithin(s, cs, c)
  }

  ghost predicate LockWithin(s: State, cs: set<nat>, c: nat) { exists d :: d in cs && WaitsForLock(s, c, d) }

  ghost predicate BoxKnot(s: State, cs: set<nat>) {
    forall c <- cs :: BoxWithin(s, cs, c)
  }

  ghost predicate BoxWithin(s: State, cs: set<nat>, c: nat) { exists d :: d in cs && WaitsForBox(s, c, d) }

  /** A handler waits for the lock of a jump on whose core an interrupt waits for a mailbox. */
  ghost predicate Mixed(s: State, cs: set<nat>) {
    exists c, d :: c in cs && d in cs && WaitsForLock(s, c, d) && d < |s.cores| && s.cores[d].ask.Asking?
  }

  /** Wherever cores wait for one another, some of them wait for one another's locks only, or for one
      another's mailboxes only, or an interrupt in the middle of a jump stands at a mailbox. */
  lemma ThreeKinds(s: State, cs: set<nat>)
    requires Inv(s) && Closed(s, cs) && cs != {}
    ensures exists knot: set<nat> :: knot != {} && knot <= cs && (LockKnot(s, knot) || BoxKnot(s, knot) || Mixed(s, knot))
  {
    hide Inv, LockKnot, BoxKnot, Mixed, Closed;
    var knot := Kind(s, cs);
  }

  lemma Kind(s: State, cs: set<nat>) returns (knot: set<nat>)
    requires Inv(s) && Closed(s, cs) && cs != {}
    ensures knot != {} && knot <= cs && (LockKnot(s, knot) || BoxKnot(s, knot) || Mixed(s, knot))
  {
    hide Inv, WaitsForLock, WaitsForBox, WaitsWithin, LockWithin, BoxWithin, Mixed;
    knot := set c | c in cs && LockWithin(s, cs, c);
    if knot == {} {
      forall c | c in cs
        ensures BoxWithin(s, cs, c)
      {
        assert c !in knot;
        WaitsHow(s, cs, c);
      }
      knot := cs;
    } else if Mixed(s, cs) {
      knot := cs;
    } else {
      forall c | c in knot
        ensures LockWithin(s, knot, c)
      {
        var d := LockMember(s, cs, c);
        HolderWaitsForLock(s, c, d);
        NotMixed(s, cs, c, d);
        WaitsHow(s, cs, d);
        LockFound(s, knot, c, d);
      }
    }
  }

  lemma NotMixed(s: State, cs: set<nat>, c: nat, d: nat)
    requires !Mixed(s, cs) && c in cs && d in cs && WaitsForLock(s, c, d)
    ensures d < |s.cores| ==> !s.cores[d].ask.Asking?
  {
  }

  /** No command is being sent from the middle of a jump. */
  predicate NotMidway(s: State) {
    forall c :: 0 <= c < |s.cores| && !s.cores[c].ask.Silent? ==> s.cores[c].pc.Plain?
  }

  /** Then there are two kinds only. */
  lemma TwoKinds(s: State, cs: set<nat>) returns (knot: set<nat>)
    requires Inv(s) && Closed(s, cs) && cs != {} && NotMidway(s)
    ensures knot != {} && knot <= cs && (LockKnot(s, knot) || BoxKnot(s, knot))
  {
    hide Inv, Closed, LockKnot, BoxKnot;
    knot := Kind(s, cs);
    NeverMixed(s, knot);
  }

  lemma NeverMixed(s: State, cs: set<nat>)
    requires Inv(s) && NotMidway(s)
    ensures !Mixed(s, cs)
  {
    hide Inv, WaitsForLock;
    forall c, d | c in cs && d in cs && WaitsForLock(s, c, d) && d < |s.cores|
      ensures !s.cores[d].ask.Asking?
    {
      HolderWaitsForLock(s, c, d);
    }
  }

  lemma WaitsHow(s: State, cs: set<nat>, c: nat)
    requires WaitsWithin(s, cs, c)
    ensures LockWithin(s, cs, c) || BoxWithin(s, cs, c)
  {
    hide WaitsForLock, WaitsForBox;
  }

  lemma LockMember(s: State, cs: set<nat>, c: nat) returns (d: nat)
    requires LockWithin(s, cs, c)
    ensures d in cs && WaitsForLock(s, c, d)
  {
    d :| d in cs && WaitsForLock(s, c, d);
  }

  lemma BoxMember(s: State, cs: set<nat>, c: nat) returns (d: nat)
    requires BoxWithin(s, cs, c)
    ensures d in cs && WaitsForBox(s, c, d)
  {
    d :| d in cs && WaitsForBox(s, c, d);
  }

  lemma LockFound(s: State, cs: set<nat>, c: nat, d: nat)
    requires d in cs && WaitsForLock(s, c, d)
    ensures LockWithin(s, cs, c)
  {
  }

  /** Who holds a lock that is waited for has sent its thread, so only an interrupt can stand at a mailbox. */
  lemma HolderWaitsForLock(s: State, c: nat, d: nat)
    requires Inv(s) && WaitsForLock(s, c, d)
    ensures d < |s.cores| && Gone(s.cores[d]) && s.cores[d].pc.dest == c && d != c
    ensures forall cs: set<nat> :: BoxWithin(s, cs, d) ==> s.cores[d].ask.Asking?
  {
    LockHolder(s, c);
    hide Inv;
  }

  /* ---- Traffic that only goes up ---- */

  /** Every jump and command under way goes to a core of higher rank, and no command is sent from the
      middle of a jump. */
  ghost predicate Upward(s: State, rank: nat -> int) {
    JumpsUp(s, rank) && CallsUp(s, rank) && NotMidway(s)
  }

  ghost predicate JumpsUp(s: State, rank: nat -> int) {
    forall c :: 0 <= c < |s.cores| && !s.cores[c].pc.Plain? ==> rank(c) < rank(s.cores[c].pc.dest)
  }

  ghost predicate CallsUp(s: State, rank: nat -> int) {
    forall c :: 0 <= c < |s.cores| && !s.cores[c].ask.Silent? ==> rank(c) < rank(s.cores[c].ask.to)
  }

  lemma {:induction false} Lowest(cs: set<nat>, rank: nat -> int) returns (c: nat)
    requires cs != {}
    ensures c in cs && forall x <- cs :: rank(c) <= rank(x)
  {
    var y :| y in cs;
    if cs == {y} { return y; }
    var b := Lowest(cs - {y}, rank);
    c := if rank(y) <= rank(b) then y else b;
    forall x | x in cs
      ensures rank(c) <= rank(x)
    {
      if x != y { assert x in cs - {y}; }
    }
  }

  lemma UpwardFree(s: State, rank: nat -> int, cs: set<nat>)
    requires Inv(s) && Upward(s, rank) && Closed(s, cs)
    ensures cs == {}
  {
    assert NotMidway(s);
    hide Inv, Upward, Closed, LockKnot, BoxKnot, NotMidway;
    if cs != {} {
      var knot := TwoKinds(s, cs);
      NoLockKnot(s, rank, knot);
      NoBoxKnot(s, rank, knot);
      assert false;
    }
  }

  /** A handler waits for a core below it: the lowest one of a knot would have none. */
  lemma NoLockKnot(s: State, rank: nat -> int, knot: set<nat>)
    requires Inv(s) && Upward(s, rank) && knot != {}
    ensures !LockKnot(s, knot)
  {
    hide Inv, JumpsUp, CallsUp, LockWithin, WaitsForLock;
    if LockKnot(s, knot) {
      var c := Lowest(knot, rank);
      var d := LockMember(s, knot, c);
      LockGoesDown(s, rank, c, d);
      assert false;
    }
  }

  lemma LockGoesDown(s: State, rank: nat -> int, c: nat, d: nat)
    requires Inv(s) && JumpsUp(s, rank) && WaitsForLock(s, c, d)
    ensures rank(d) < rank(c)
  {
    hide Inv, BoxWithin;
    HolderWaitsForLock(s, c, d);
  }

  lemma NoBoxKnot(s: State, rank: nat -> int, knot: set<nat>)
    requires Upward(s, rank) && knot != {}
    ensures !BoxKnot(s, knot)
  {
    hide Upward, BoxWithin, WaitsForBox;
    if BoxKnot(s, knot) {
      var c := Lowest(knot, (x: nat) => -rank(x));
      var d := BoxMember(s, knot, c);
      BoxGoesUp(s, rank, c, d);
      assert false;
    }
  }

  lemma BoxGoesUp(s: State, rank: nat -> int, c: nat, d: nat)
    requires Upward(s, rank) && WaitsForBox(s, c, d)
    ensures rank(c) < rank(d)
  {
  }

  predicate GoesUp(s: State, e: Event, rank: nat -> int) {
    match e
    case TakeLock(c, d) => rank(c) < rank(d)
    case Call(c, d) => rank(c) < rank(d) && c < |s.cores| && s.cores[c].pc.Plain?
    case _ => true
  }

  /** The run starts jumps and commands only to cores of higher rank, and no command during a jump. */
  ghost predicate Ascending(s: State, run: seq<Event>, rank: nat -> int)
    requires Admissible(s, run)
    decreases |run|
  {
    run == [] || (GoesUp(s, run[0], rank) && Ascending(Step(s, run[0]), run[1..], rank))
  }

  lemma StepUpward(s: State, e: Event, rank: nat -> int)
    requires Inv(s) && May(s, e) && Upward(s, rank) && GoesUp(s, e, rank)
    ensures Upward(Step(s, e), rank)
  {
    hide Inv, May, Step, JumpsUp, CallsUp, NotMidway;
    StepJumpsUp(s, e, rank);
    StepCallsUp(s, e, rank);
    StepNotMidway(s, e);
  }

  lemma StepJumpsUp(s: State, e: Event, rank: nat -> int)
    requires May(s, e) && JumpsUp(s, rank) && GoesUp(s, e, rank)
    ensures JumpsUp(Step(s, e), rank)
  {
  }

  lemma StepCallsUp(s: State, e: Event, rank: nat -> int)
    requires May(s, e) && CallsUp(s, rank) && GoesUp(s, e, rank)
    ensures CallsUp(Step(s, e), rank)
  {
  }

  lemma StepNotMidway(s: State, e: Event)
    requires Inv(s) && May(s, e) && NotMidway(s) && (e.Call? ==> e.c < |s.cores| && s.cores[e.c].pc.Plain?)
    ensures NotMidway(Step(s, e))
  {
    assert CoreOk(s, e.c);
    hide Inv, CoreOk;
  }

  lemma {:induction false} RunUpward(s: State, run: seq<Event>, rank: nat -> int)
    requires Inv(s) && Upward(s, rank) && Admissible(s, run) && Ascending(s, run, rank)
    ensures Upward(After(s, run), rank)
    decreases |run|
  {
    hide Inv, May, Step, Upward, GoesUp;
    if run != [] {
      StepUpward(s, run[0], rank);
      StepKeeps(s, run[0]);
      RunUpward(Step(s, run[0]), run[1..], rank);
    }
  }

  /** When all jumps and commands go up some ranking of the cores, and no command is sent from the middle
      of a jump, every core can always go on. */
  lemma AscendingNeverHangs(s: State, run: seq<Event>, rank: nat -> int, c: nat)
    requires Settled(s) && Admissible(s, run) && Ascending(s, run, rank)
    ensures c < |After(s, run).cores| ==> CanMove(After(s, run), c)
  {
    assert Upward(s, rank);
    hide Inv, Settled, Upward, Closed, CanMove, Admissible, After, Ascending;
    SettledInv(s);
    RunKeeps(s, run);
    RunUpward(s, run, rank);
    var z := After(s, run);
    forall cs: set<nat> | Closed(z, cs)
      ensures cs == {}
    {
      UpwardFree(z, rank, cs);
    }
    if c < |z.cores| { NoKnotMoves(z, c); }
  }

  /* ---- One at a time ---- */

  predicate CoreAlone(core: Core, t: nat) {
    && (core.pc.Plain? || Jumping(core, t))
    && core.ask.Silent? && !core.box.Order?
    && (core.box.Full? ==> core.box.thread == t)
    && About(core.handler, t)
  }

  /** Nobody but `t` is jumping or under way, and no other command is. */
  ghost predicate Alone(s: State, t: nat) {
    t < |s.threads| && forall c :: 0 <= c < |s.cores| ==> CoreAlone(s.cores[c], t)
  }

  predicate Resting(core: Core) { core.pc.Plain? && core.handler.Quiet? && !core.box.Full? }

  /** Nothing is under way. */
  ghost predicate Still(s: State) {
    forall c :: 0 <= c < |s.cores| ==> Resting(s.cores[c]) && s.cores[c].ask.Silent? && s.cores[c].box.Empty?
  }

  /** Nothing is under way but one command from `c` to `d`. */
  ghost predicate Lone(s: State, c: nat, d: nat) {
    && c < |s.cores| && d < |s.cores|
    && (forall x :: 0 <= x < |s.cores| ==> Resting(s.cores[x]))
    && (forall x :: 0 <= x < |s.cores| && x != c ==> s.cores[x].ask.Silent?)
    && (forall x :: 0 <= x < |s.cores| && x != d ==> s.cores[x].box.Empty?)
    && (!s.cores[c].ask.Silent? ==> s.cores[c].ask.to == d)
    && (s.cores[c].ask.Asking? ==> s.cores[d].box.Empty?)
  }

  ghost predicate AtMostOne(s: State) {
    Still(s) || (exists t :: Alone(s, t)) || (exists c, d :: Lone(s, c, d))
  }

  lemma AloneFree(s: State, t: nat, cs: set<nat>)
    requires Inv(s) && Alone(s, t) && Closed(s, cs)
    ensures cs == {}
  {
    hide Inv, Alone, Closed, LockWithin, BoxWithin, WaitsForLock, WaitsForBox, NotMidway;
    AloneNotMidway(s, t);
    if cs != {} {
      var knot := TwoKinds(s, cs);
      var c :| c in knot;
      if LockKnot(s, knot) {
        var d := LockMember(s, knot, c);
        var e := LockMember(s, knot, d);
        AloneNoTwo(s, t, c, d, e);
        assert false;
      } else {
        var d := BoxMember(s, knot, c);
        AloneBoxOpen(s, t, c, d);
        assert false;
      }
    }
  }

  lemma AloneNotMidway(s: State, t: nat)
    requires Alone(s, t)
    ensures NotMidway(s)
  {
  }

  lemma AloneNoTwo(s: State, t: nat, c: nat, d: nat, e: nat)
    requires Inv(s) && Alone(s, t) && WaitsForLock(s, c, d)
    ensures !WaitsForLock(s, d, e)
  {
    HolderWaitsForLock(s, c, d);
    assert Carried(s, c, t);
    hide Inv, Carried, CoreOk, ThreadOk;
    assert CoreAlone(s.cores[c], t) && CoreAlone(s.cores[d], t);
  }

  lemma AloneBoxOpen(s: State, t: nat, c: nat, d: nat)
    requires Inv(s) && Alone(s, t)
    ensures !WaitsForBox(s, c, d)
  {
    if c < |s.cores| && d < |s.cores| { AloneSender(s, t, c, d); }
    hide Inv;
  }

  lemma AloneSender(s: State, t: nat, c: nat, d: nat)
    requires Inv(s) && Alone(s, t) && c < |s.cores| && d < |s.cores|
    ensures Jumping(s.cores[c], t) && !Gone(s.cores[c]) && !s.cores[d].box.Empty? ==> s.cores[c].pc.Sending?
  {
    assert CoreOk(s, d) && Carried(s, c, t) && Carried(s, d, t);
    assert s.cores[d].box.Filling? ==> Carried(s, s.cores[d].box.from, t);
  }

  lemma StepAlone(s: State, e: Event, t: nat)
    requires Inv(s) && May(s, e) && Alone(s, t) && !e.TakeLock? && !e.Call?
    ensures Alone(Step(s, e), t)
  {
    assert CoreOk(s, e.c);
    hide Inv, CoreOk;
  }

  /** Where the jump of `t` is going. */
  predicate Headed(s: State, t: nat, d: nat) {
    && t < |s.threads| && d < |s.cores|
    && match s.threads[t].lock
       case Free => s.cores[d].box == Full(t) || s.cores[d].handler == Got(t)
       case Jump(c) => c < |s.cores| && !s.cores[c].pc.Plain? && s.cores[c].pc.dest == d
       case MoveIn(e) => e == d
  }

  /** The thread belongs to `d`, is ready and linked there, and its lock is free. */
  predicate Landed(s: State, t: nat, d: nat) {
    && t < |s.threads| && d < |s.cores|
    && s.threads[t].cpu == d && s.threads[t].ready && s.threads[t].lock.Free? && t in s.cores[d].queue
  }

  /** The next step of the jump. */
  function Onward(s: State, t: nat, d: nat): Event
    requires Headed(s, t, d)
  {
    match s.threads[t].lock
    case Jump(c) =>
      (match s.cores[c].pc
       case Locked(_) => Unlink(c)
       case Unlinked(_) => Flag(c)
       case Flagged(_) => ClaimBox(c)
       case Sending(_) => Send(c)
       case Sent(_) => Switch(c, s.cores[c].idle)
       case _ => LetGo(c))
    case Free => if s.cores[d].handler.Got? then Own(d) else Receive(d)
    case MoveIn(_) =>
      match s.cores[d].handler
      case Owning(_) => Place(d)
      case Placed(_) => Ready(d)
      case _ => Release(d)
  }

  function ToGo(s: State, t: nat, d: nat): nat
    requires Headed(s, t, d)
  {
    match s.threads[t].lock
    case Jump(c) =>
      (match s.cores[c].pc
       case Locked(_) => 11
       case Unlinked(_) => 10
       case Flagged(_) => 9
       case Sending(_) => 8
       case Sent(_) => 7
       case _ => 6)
    case Free => if s.cores[d].handler.Got? then 4 else 5
    case MoveIn(_) =>
      match s.cores[d].handler
      case Owning(_) => 3
      case Placed(_) => 2
      case _ => 1
  }

  lemma OnwardMay(s: State, t: nat, d: nat)
    requires Inv(s) && Alone(s, t) && Headed(s, t, d)
    ensures May(s, Onward(s, t, d))
  {
    var thread := s.threads[t];
    assert ThreadOk(s, t) && CoreOk(s, d) && Carried(s, d, t);
    if thread.lock.Jump? {
      var c := thread.lock.core;
      assert CoreOk(s, c) && Carried(s, c, t);
      assert s.cores[c].handler.Quiet? && CoreAlone(s.cores[c], t);
      AloneBoxOpen(s, t, c, d);
      if s.cores[c].pc.Sent? { SentSwitches(s, c); }
    }
  }

  lemma OnwardLands(s: State, t: nat, d: nat)
    requires Inv(s) && Alone(s, t) && Headed(s, t, d) && May(s, Onward(s, t, d))
    ensures var z := Step(s, Onward(s, t, d));
            Landed(z, t, d) || (Headed(z, t, d) && ToGo(z, t, d) < ToGo(s, t, d))
  {
    assert ThreadOk(s, t) && CoreOk(s, d) && Carried(s, d, t);
    if s.threads[t].lock.Jump? {
      JumpSource(s, t);
      assert CoreAlone(s.cores[s.threads[t].lock.core], t);
      SourceSwitches(s, s.threads[t].lock.core);
      hide Inv, CoreOk, ThreadOk, Carried;
    } else {
      assert CoreAlone(s.cores[d], t);
      hide Inv, Alone;
    }
  }

  lemma SourceSwitches(s: State, c: nat)
    requires Inv(s) && c < |s.cores| && s.cores[c].ask.Silent?
    ensures (s.cores[c].pc.Sent? && s.cores[c].handler.Quiet?)
            ==> (s.cores[c].running < |s.threads| && s.threads[s.cores[c].running].moving)
  {
    assert CoreOk(s, c);
    if s.cores[c].pc.Sent? && s.cores[c].handler.Quiet? { SentSwitches(s, c); }
  }

  lemma OnwardIs(s: State, t: nat, d: nat)
    requires Headed(s, t, d)
    ensures !Onward(s, t, d).TakeLock? && !Onward(s, t, d).Call?
  {
  }

  /** A jump that is alone can complete, wherever it stands. */
  lemma {:induction false} JumpCompletes(s: State, t: nat, d: nat) returns (z: State)
    requires Inv(s) && Alone(s, t) && Headed(s, t, d)
    ensures Reaches(s, z) && Landed(z, t, d)
    decreases ToGo(s, t, d)
  {
    OnwardMay(s, t, d);
    OnwardLands(s, t, d);
    OnwardIs(s, t, d);
    hide Inv, May, Step, Reaches, Alone, Landed, Headed, Onward, ToGo;
    var e := Onward(s, t, d);
    StepAlone(s, e, t);
    var m := Step(s, e);
    ReachStep(s, e);
    if Landed(m, t, d) { return m; }
    StepKeeps(s, e);
    z := JumpCompletes(m, t, d);
    ReachTrans(s, m, z);
  }

  /** The run starts a jump or a command only when nothing is under way. */
  ghost predicate OneAtATime(s: State, run: seq<Event>)
    requires Admissible(s, run)
    decreases |run|
  {
    run == [] || ((run[0].TakeLock? || run[0].Call? ==> Still(s)) && OneAtATime(Step(s, run[0]), run[1..]))
  }

  lemma StepFromStill(s: State, e: Event)
    requires May(s, e) && Still(s)
    ensures AtMostOne(Step(s, e))
  {
    if e.TakeLock? { assert Alone(Step(s, e), s.cores[e.c].running); }
    if e.Call? { assert Lone(Step(s, e), e.c, e.d); }
  }

  lemma StepLone(s: State, e: Event, c: nat, d: nat)
    requires May(s, e) && Lone(s, c, d) && !e.TakeLock? && !e.Call?
    ensures Lone(Step(s, e), c, d)
  {
  }

  lemma {:induction false} RunAtMostOne(s: State, run: seq<Event>)
    requires Inv(s) && AtMostOne(s) && Admissible(s, run) && OneAtATime(s, run)
    ensures AtMostOne(After(s, run))
    decreases |run|
  {
    hide Inv, May, Step, Alone, Still, Lone;
    if run != [] {
      var e := run[0];
      if Still(s) {
        StepFromStill(s, e);
      } else if t :| Alone(s, t) {
        StepAlone(s, e, t);
      } else {
        var c, d :| Lone(s, c, d);
        StepLone(s, e, c, d);
      }
      StepKeeps(s, e);
      RunAtMostOne(Step(s, e), run[1..]);
    }
  }

  /** When a jump or a command is started only while nothing is under way, every core can always go on, and
      every thread that is on its way can arrive. */
  lemma OneAtATimeNeverHangs(s: State, run: seq<Event>)
    requires Settled(s) && Admissible(s, run) && OneAtATime(s, run)
    ensures var z := After(s, run);
            && (forall c :: 0 <= c < |z.cores| ==> CanMove(z, c))
            && (forall t, d :: Headed(z, t, d) ==> exists w :: Reaches(z, w) && Landed(w, t, d))
  {
    assert Still(s);
    hide Inv, Settled, Still, Alone, Lone, Closed, CanMove, Admissible, After, Headed, Landed, Reaches;
    SettledInv(s);
    RunKeeps(s, run);
    RunAtMostOne(s, run);
    var z := After(s, run);
    forall cs: set<nat> | Closed(z, cs)
      ensures cs == {}
    {
      AtMostOneFree(z, cs);
    }
    forall c | 0 <= c < |z.cores|
      ensures CanMove(z, c)
    {
      NoKnotMoves(z, c);
    }
    forall t, d | Headed(z, t, d)
      ensures exists w :: Reaches(z, w) && Landed(w, t, d)
    {
      HeadedAlone(z, t, d);
      var w := JumpCompletes(z, t, d);
    }
  }

  lemma AtMostOneFree(s: State, cs: set<nat>)
    requires Inv(s) && AtMostOne(s) && Closed(s, cs)
    ensures cs == {}
  {
    hide Inv, Still, Alone, Lone, WaitsWithin;
    if t :| Alone(s, t) {
      AloneFree(s, t, cs);
    } else if cs != {} {
      var x :| x in cs;
      NobodyWaits(s, cs, x);
      assert false;
    }
  }

  lemma NobodyWaits(s: State, cs: set<nat>, x: nat)
    requires Inv(s) && (Still(s) || exists c, d :: Lone(s, c, d))
    ensures !WaitsWithin(s, cs, x)
  {
    hide Inv;
  }

  /** Only a thread that is alone is on its way. */
  lemma HeadedAlone(s: State, x: nat, d: nat)
    requires Inv(s) && AtMostOne(s) && Headed(s, x, d)
    ensures Alone(s, x)
  {
    assert ThreadOk(s, x);
    hide Inv, ThreadOk;
    assert !Resting(s.cores[d]) || (s.threads[x].lock.Jump? && !Resting(s.cores[s.threads[x].lock.core]));
    var t :| Alone(s, t);
    assert CoreAlone(s.cores[d], t);
    if s.threads[x].lock.Jump? { assert CoreAlone(s.cores[s.threads[x].lock.core], t); }
  }
}
