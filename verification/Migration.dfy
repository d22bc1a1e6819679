/** Self-migration between cores: a thread's move lock, taken by the jump, is released by the context
    switch, and a one-slot mailbox per core carries the command. The other commands between cores use the
    same mailboxes. Each step is one shared-memory action. */
module Migration {
  /** Who holds a thread's move lock: the jump on a core, or the interrupt handler of a core. */
  datatype Lock = Free | Jump(core: nat) | MoveIn(core: nat)

  datatype Thread = Thread(cpu: nat, ready: bool, moving: bool, lock: Lock)

  /** Where the running thread of a core is in its jump. From `Sent` on interrupts are enabled again;
      `Switched(prev)` has installed another thread but not yet let go of `prev`;
      `dest` is where the jump goes. */
  datatype Pc = Plain | Locked(dest: nat) | Unlinked(dest: nat) | Flagged(dest: nat) | Sending(dest: nat)
              | Sent(dest: nat) | Switched(prev: nat, dest: nat)

  /** The command slot of a core; its spin lock is held from the sender's claim to the reader's release.
      `Order` is any command but the one to move a thread in. */
  datatype Box = Empty | Filling(from: nat) | Full(thread: nat) | Order

  /** Where a core is in sending such a command, with interrupts off: from a critical section of its
      running thread, or from an interrupt. */
  datatype Ask = Silent | Asking(to: nat) | Claimed(to: nat)

  /** The interrupt handler of a core. */
  datatype Handler = Quiet | Got(t: nat) | Owning(t: nat) | Placed(t: nat) | Readied(t: nat)

  /** `queue` holds the threads linked in the core's ready queue; the idle thread is always in it. */
  datatype Core = Core(running: nat, idle: nat, queue: set<nat>, pc: Pc, ask: Ask, box: Box, handler: Handler)

  datatype State = State(cores: seq<Core>, threads: seq<Thread>)

  function Put(s: State, c: nat, core: Core): State
    requires c < |s.cores|
  {
    s.(cores := s.cores[c := core])
  }

  function Set(s: State, t: nat, thread: Thread): State
    requires t < |s.threads|
  {
    s.(threads := s.threads[t := thread])
  }

  /* ---- Steps ---- */

  datatype Event = TakeLock(c: nat, d: nat) | Unlink(c: nat) | Flag(c: nat) | ClaimBox(c: nat) | Send(c: nat)
                 | Switch(c: nat, next: nat) | LetGo(c: nat)
                 | Receive(c: nat) | Own(c: nat) | Place(c: nat) | Ready(c: nat) | Release(c: nat)
                 | Sleep(c: nat, t: nat) | Wake(c: nat, t: nat) | Work(c: nat)
                 | Call(c: nat, d: nat) | Claim(c: nat) | Deliver(c: nat) | Obey(c: nat)

  predicate Known(s: State, c: nat) { c < |s.cores| && s.cores[c].running < |s.threads| }

  /** The thread is on its way to core `d`: in its mailbox or with its handler. */
  predicate At(core: Core, t: nat) {
    core.box == Full(t) || core.handler == Got(t) || core.handler == Owning(t) || core.handler == Placed(t)
  }

  predicate Travelling(s: State, t: nat) {
    exists d :: 0 <= d < |s.cores| && At(s.cores[d], t)
  }

  predicate Interruptible(core: Core) { (core.pc.Plain? || core.pc.Sent?) && core.ask.Silent? }

  predicate May(s: State, e: Event) {
    e.c < |s.cores| && Known(s, e.c) &&
    var core := s.cores[e.c];
    var cur := s.threads[core.running];
    match e
    // the jump, by the running thread, which is ready and not the idle thread
    case TakeLock(c, d) => core.pc.Plain? && core.ask.Silent? && core.handler.Quiet? && cur.ready && core.running != core.idle
                           && d < |s.cores| && d != c && cur.lock.Free?
    case Unlink(c) => core.pc.Locked? && core.handler.Quiet?
    case Flag(c) => core.pc.Unlinked? && core.handler.Quiet?
    case ClaimBox(c) => core.pc.Flagged? && core.handler.Quiet? && core.pc.dest < |s.cores|
                        && s.cores[core.pc.dest].box.Empty?
    case Send(c) => core.pc.Sending? && core.handler.Quiet? && core.pc.dest < |s.cores|
    // the context switch, to a thread of the core's ready queue
    case Switch(c, next) => Interruptible(core) && core.handler.Quiet? && next in core.queue
                            && next != core.running && next < |s.threads|
    case LetGo(c) => core.pc.Switched? && core.handler.Quiet? && core.pc.prev < |s.threads|
    // the interrupt handler
    case Receive(c) => Interruptible(core) && core.handler.Quiet? && core.box.Full?
    case Own(c) => core.handler.Got? && core.handler.t < |s.threads| && s.threads[core.handler.t].lock.Free?
    case Place(c) => core.handler.Owning? && core.handler.t < |s.threads|
    case Ready(c) => core.handler.Placed? && core.handler.t < |s.threads|
    case Release(c) => core.handler.Readied? && core.handler.t < |s.threads|
    // everything else on the core: threads of its own are suspended and readied
    case Sleep(c, t) => Interruptible(core) && core.handler.Quiet? && t in core.queue && t != core.idle && t < |s.threads|
    case Wake(c, t) => Interruptible(core) && core.handler.Quiet? && t < |s.threads| && !s.threads[t].ready
                       && s.threads[t].cpu == c && !Travelling(s, t)
    // ordinary code of the running thread, the idle loop included, touches nothing of this
    case Work(c) => core.pc.Plain? && core.ask.Silent? && core.handler.Quiet?
    // a command to another core, and its receipt; what it does there are the steps of that core above
    case Call(c, d) => Interruptible(core) && core.handler.Quiet? && d < |s.cores| && d != c
    case Claim(c) => core.ask.Asking? && core.ask.to < |s.cores| && s.cores[core.ask.to].box.Empty?
    case Deliver(c) => core.ask.Claimed? && core.ask.to < |s.cores|
    case Obey(c) => Interruptible(core) && core.handler.Quiet? && core.box.Order?
  }

  function Step(s: State, e: Event): State
    requires May(s, e)
  {
    var core := s.cores[e.c];
    var cur := s.threads[core.running];
    match e
    case TakeLock(c, d) => Set(Put(s, c, core.(pc := Locked(d))), core.running, cur.(lock := Jump(c)))
    case Unlink(c) =>
      if cur.ready
      then Set(Put(s, c, core.(pc := Unlinked(core.pc.dest), queue := core.queue - {core.running})),
               core.running, cur.(ready := false))
      else Put(s, c, core.(pc := Unlinked(core.pc.dest)))
    case Flag(c) => Set(Put(s, c, core.(pc := Flagged(core.pc.dest))), core.running, cur.(moving := true))
    case ClaimBox(c) =>
      var d := core.pc.dest;
      var claimed := Put(s, c, core.(pc := Sending(d)));
      Put(claimed, d, claimed.cores[d].(box := Filling(c)))
    case Send(c) =>
      var d := core.pc.dest;
      var sent := Put(s, c, core.(pc := Sent(d)));
      Put(sent, d, sent.cores[d].(box := Full(core.running)))
    case Switch(c, next) =>
      var pc := if cur.moving && core.pc.Sent? then Switched(core.running, core.pc.dest) else Plain;
      Put(s, c, core.(running := next, pc := pc))
    case LetGo(c) =>
      Set(Put(s, c, core.(pc := Plain)), core.pc.prev, s.threads[core.pc.prev].(moving := false, lock := Free))
    case Receive(c) => Put(s, c, core.(box := Empty, handler := Got(core.box.thread)))
    case Own(c) =>
      var t := core.handler.t;
      Set(Put(s, c, core.(handler := Owning(t))), t, s.threads[t].(lock := MoveIn(c)))
    case Place(c) =>
      var t := core.handler.t;
      Set(Put(s, c, core.(handler := Placed(t))), t, s.threads[t].(cpu := c))
    case Ready(c) =>
      var t := core.handler.t;
      if s.threads[t].ready then Put(s, c, core.(handler := Readied(t)))
      else Set(Put(s, c, core.(handler := Readied(t), queue := core.queue + {t})), t, s.threads[t].(ready := true))
    case Release(c) =>
      var t := core.handler.t;
      Set(Put(s, c, core.(handler := Quiet)), t, s.threads[t].(lock := Free))
    case Sleep(c, t) => Set(Put(s, c, core.(queue := core.queue - {t})), t, s.threads[t].(ready := false))
    case Wake(c, t) => Set(Put(s, c, core.(queue := core.queue + {t})), t, s.threads[t].(ready := true))
    case Work(c) => s
    case Call(c, d) => Put(s, c, core.(ask := Asking(d)))
    case Claim(c) =>
      var d := core.ask.to;
      var claimed := Put(s, c, core.(ask := Claimed(d)));
      Put(claimed, d, claimed.cores[d].(box := Filling(c)))
    case Deliver(c) =>
      var d := core.ask.to;
      var sent := Put(s, c, core.(ask := Silent));
      Put(sent, d, sent.cores[d].(box := Order))
    case Obey(c) => Put(s, c, core.(box := Empty))
  }

  /* ---- The invariant ---- */

  /** The thread whose jump a core is carrying out. */
  predicate Jumping(core: Core, t: nat) {
    match core.pc
    case Plain => false
    case Switched(prev, dest) => prev == t
    case _ => core.running == t
  }

  predicate Gone(core: Core) { core.pc.Sent? || core.pc.Switched? }

  predicate Holding(core: Core, t: nat) {
    core.handler == Owning(t) || core.handler == Placed(t) || core.handler == Readied(t)
  }

  predicate FillsBox(core: Core, d: nat) { core.pc == Sending(d) || core.ask == Claimed(d) }

  predicate CoreOk(s: State, c: nat)
    requires c < |s.cores|
  {
    var core := s.cores[c];
    && core.running < |s.threads| && s.threads[core.running].cpu == c
    && core.idle in core.queue
    && (forall t <- core.queue :: t < |s.threads| && s.threads[t].ready && s.threads[t].cpu == c)
    && (core.box.Full? ==> core.box.thread < |s.threads|)
    && (!core.handler.Quiet? ==> core.handler.t < |s.threads|)
    && (core.pc.Switched? ==> core.pc.prev < |s.threads| && core.pc.prev != core.running)
    && (core.pc.Locked? ==> core.running != core.idle)
    && (!core.pc.Plain? ==> core.pc.dest < |s.cores| && core.pc.dest != c)
    && (core.pc.Sending? ==> s.cores[core.pc.dest].box == Filling(c))
    && (core.handler.Quiet? || Interruptible(core))
    && (!core.ask.Silent? ==> (core.pc.Plain? || core.pc.Sent?) && core.ask.to < |s.cores| && core.ask.to != c)
    && (core.ask.Claimed? ==> s.cores[core.ask.to].box == Filling(c))
    && (core.box.Filling? ==> core.box.from < |s.cores| && FillsBox(s.cores[core.box.from], c))
  }

  predicate ThreadOk(s: State, t: nat)
    requires t < |s.threads|
  {
    var thread := s.threads[t];
    && (thread.ready ==> thread.cpu < |s.cores| && t in s.cores[thread.cpu].queue)
    && (thread.moving ==> thread.lock.Jump?)
    && match thread.lock
       case Free => true
       case Jump(c) =>
         && c < |s.cores| && Jumping(s.cores[c], t) && thread.cpu == c
         && (thread.ready <==> s.cores[c].pc.Locked?)
         && (thread.moving <==> s.cores[c].pc.Flagged? || s.cores[c].pc.Sending? || Gone(s.cores[c]))
         && (Gone(s.cores[c]) ==> s.cores[c].pc.dest < |s.cores| && At(s.cores[s.cores[c].pc.dest], t))
       case MoveIn(d) => d < |s.cores| && Holding(s.cores[d], t)
  }

  /** What core `d` carries of thread `t`. */
  predicate Carried(s: State, d: nat, t: nat)
    requires d < |s.cores| && t < |s.threads|
  {
    var core, thread := s.cores[d], s.threads[t];
    && (Jumping(core, t) ==> thread.lock == Jump(d))
    && (Holding(core, t) ==> thread.lock == MoveIn(d))
    && (core.handler == Readied(t) || core.handler == Placed(t) ==> thread.cpu == d)
    && (core.handler == Readied(t) ==> thread.ready)
    && (At(core, t) ==>
          && !thread.ready
          && (core.box == Full(t) ==> core.handler.Quiet? || core.handler.t != t)
          && (forall d' :: 0 <= d' < |s.cores| && At(s.cores[d'], t) ==> d' == d)
          && (thread.lock.Jump? ==> thread.lock.core < |s.cores| && Gone(s.cores[thread.lock.core]))
          && (!thread.lock.Jump? ==> forall c :: 0 <= c < |s.cores| ==> s.cores[c].running != t))
  }

  predicate Cores(s: State) { forall c :: 0 <= c < |s.cores| ==> CoreOk(s, c) }

  predicate Threads(s: State) { forall t :: 0 <= t < |s.threads| ==> ThreadOk(s, t) }

  predicate Cargo(s: State) {
    forall d, t :: 0 <= d < |s.cores| && 0 <= t < |s.threads| ==> Carried(s, d, t)
  }

  predicate Inv(s: State) { Cores(s) && Threads(s) && Cargo(s) }

  /** Nobody is jumping, no command is under way, and the queues agree with the ready flags. */
  predicate Settled(s: State) {
    && (forall c :: 0 <= c < |s.cores| ==>
          var core := s.cores[c];
          && core.pc.Plain? && core.ask.Silent? && core.box.Empty? && core.handler.Quiet?
          && core.running < |s.threads| && s.threads[core.running].cpu == c && core.idle in core.queue
          && (forall t <- core.queue :: t < |s.threads| && s.threads[t].ready && s.threads[t].cpu == c))
    && (forall t :: 0 <= t < |s.threads| ==>
          var thread := s.threads[t];
          && thread.lock.Free? && !thread.moving
          && (thread.ready ==> thread.cpu < |s.cores| && t in s.cores[thread.cpu].queue))
  }

  lemma SettledInv(s: State)
    requires Settled(s)
    ensures Inv(s)
  {
  }

  /* ---- Every step keeps it ---- */

  predicate About(h: Handler, t: nat) { h.Quiet? || h.t == t }

  /** The core is in no jump, or in that of thread `t`. */
  predicate Mine(core: Core, t: nat) { core.pc.Plain? || Jumping(core, t) }

  /** From `s` to `z` only thread `t` has changed, and on core `c` only what concerns it. */
  ghost predicate Local(s: State, z: State, c: nat, t: nat) {
    && c < |s.cores| && t < |s.threads| && |z.cores| == |s.cores| && |z.threads| == |s.threads|
    && (forall d :: 0 <= d < |s.cores| && d != c ==> z.cores[d] == s.cores[d])
    && (forall x :: 0 <= x < |s.threads| && x != t ==> z.threads[x] == s.threads[x])
    && var a, b := s.cores[c], z.cores[c];
       && b.running == a.running && b.idle == a.idle && b.ask == a.ask
       && (b.pc == a.pc || (!a.pc.Sending? && !b.pc.Sending? && Mine(a, t) && Mine(b, t)))
       && (forall x :: x != t ==> (x in b.queue <==> x in a.queue))
       && (b.box == a.box || (a.box == Full(t) && b.box.Empty?))
       && (b.handler == a.handler || (About(a.handler, t) && About(b.handler, t)))
  }

  /** The frame of all steps that stay on one core: what has to be shown of the core and the thread they
      change. */
  lemma LocalKeeps(s: State, z: State, c: nat, t: nat)
    requires Inv(s) && Local(s, z, c, t)
    requires CoreOk(z, c) && ThreadOk(z, t) && forall y :: 0 <= y < |z.cores| ==> Carried(z, y, t)
    requires s.threads[t].ready ==> s.threads[t].cpu == c
    requires z.threads[t].cpu == s.threads[t].cpu || forall y :: 0 <= y < |s.cores| ==> s.cores[y].running != t
    ensures Inv(z)
  {
    hide CoreOk, ThreadOk, Carried;
    forall x | 0 <= x < |z.cores| ensures CoreOk(z, x) { if x != c { CoreStays(s, z, c, t, x); } }
    forall x | 0 <= x < |z.threads| ensures ThreadOk(z, x) { if x != t { ThreadStays(s, z, c, t, x); } }
    forall y, x | 0 <= y < |z.cores| && 0 <= x < |z.threads|
      ensures Carried(z, y, x)
    {
      if x != t { CargoStays(s, z, c, t, y, x); }
    }
  }

  lemma CoreStays(s: State, z: State, c: nat, t: nat, x: nat)
    requires Cores(s) && Local(s, z, c, t) && x < |z.cores| && x != c
    requires s.threads[t].ready ==> s.threads[t].cpu == c
    requires z.threads[t].cpu == s.threads[t].cpu || forall y :: 0 <= y < |s.cores| ==> s.cores[y].running != t
    ensures CoreOk(z, x)
  {
    assert CoreOk(s, x) && CoreOk(s, c);
    hide Cores;
  }

  lemma ThreadStays(s: State, z: State, c: nat, t: nat, x: nat)
    requires Threads(s) && Local(s, z, c, t) && x < |z.threads| && x != t
    ensures ThreadOk(z, x)
  {
    assert ThreadOk(s, x);
    hide Threads;
  }

  lemma CargoStays(s: State, z: State, c: nat, t: nat, y: nat, x: nat)
    requires Inv(s) && Local(s, z, c, t) && y < |z.cores| && x < |z.threads| && x != t
    ensures Carried(z, y, x)
  {
    assert ThreadOk(s, x) && Carried(s, y, x);
    hide Inv;
  }

  lemma TakeLockKeeps(s: State, c: nat, d: nat)
    requires Inv(s) && May(s, TakeLock(c, d))
    ensures Inv(Step(s, TakeLock(c, d)))
  {
    var z := Step(s, TakeLock(c, d));
    assert CoreOk(s, c);
    var t := s.cores[c].running;
    assert ThreadOk(s, t) && Carried(s, c, t);
    forall y | 0 <= y < |s.cores| ensures Carried(z, y, t) { assert Carried(s, y, t); }
    LocalKeeps(s, z, c, t);
  }

  lemma UnlinkKeeps(s: State, c: nat)
    requires Inv(s) && May(s, Unlink(c))
    ensures Inv(Step(s, Unlink(c)))
  {
    var z := Step(s, Unlink(c));
    assert CoreOk(s, c);
    var t := s.cores[c].running;
    assert ThreadOk(s, t) && Carried(s, c, t);
    forall y | 0 <= y < |s.cores| ensures Carried(z, y, t) { assert Carried(s, y, t); }
    LocalKeeps(s, z, c, t);
  }

  lemma FlagKeeps(s: State, c: nat)
    requires Inv(s) && May(s, Flag(c))
    ensures Inv(Step(s, Flag(c)))
  {
    var z := Step(s, Flag(c));
    assert CoreOk(s, c);
    var t := s.cores[c].running;
    assert ThreadOk(s, t) && Carried(s, c, t);
    forall y | 0 <= y < |s.cores| ensures Carried(z, y, t) { assert Carried(s, y, t); }
    LocalKeeps(s, z, c, t);
  }

  lemma ClaimBoxKeeps(s: State, c: nat)
    requires Inv(s) && May(s, ClaimBox(c))
    ensures Inv(Step(s, ClaimBox(c)))
  {
    ClaimBoxCores(s, c);
    ClaimBoxThreads(s, c);
    var z := Step(s, ClaimBox(c));
    assert CoreOk(s, c);
    hide CoreOk, ThreadOk;
    forall y, x | 0 <= y < |z.cores| && 0 <= x < |z.threads| ensures Carried(z, y, x) {
      assert Carried(s, y, x);
    }
  }

  lemma ClaimBoxCores(s: State, c: nat)
    requires Cores(s) && May(s, ClaimBox(c))
    ensures Cores(Step(s, ClaimBox(c)))
  {
    var z := Step(s, ClaimBox(c));
    assert CoreOk(s, c);
    forall x | 0 <= x < |z.cores| ensures CoreOk(z, x) { assert CoreOk(s, x); }
  }

  lemma ClaimBoxThreads(s: State, c: nat)
    requires Cores(s) && Threads(s) && May(s, ClaimBox(c))
    ensures Threads(Step(s, ClaimBox(c)))
  {
    var z := Step(s, ClaimBox(c));
    assert CoreOk(s, c);
    hide CoreOk;
    forall x | 0 <= x < |z.threads| ensures ThreadOk(z, x) { assert ThreadOk(s, x); }
  }

  lemma SendKeeps(s: State, c: nat)
    requires Inv(s) && May(s, Send(c))
    ensures Inv(Step(s, Send(c)))
  {
    hide CoreOk, ThreadOk, Carried, May, Step;
    SendCores(s, c);
    SendThreads(s, c);
    SendCargo(s, c);
  }

  lemma SendCores(s: State, c: nat)
    requires Cores(s) && May(s, Send(c))
    ensures Cores(Step(s, Send(c)))
  {
    var z := Step(s, Send(c));
    assert CoreOk(s, c);
    forall x | 0 <= x < |z.cores| ensures CoreOk(z, x) { assert CoreOk(s, x); }
  }

  lemma SendThreads(s: State, c: nat)
    requires Inv(s) && May(s, Send(c))
    ensures Threads(Step(s, Send(c)))
  {
    var z := Step(s, Send(c));
    assert CoreOk(s, c);
    assert ThreadOk(s, s.cores[c].running) && Carried(s, c, s.cores[c].running);
    hide CoreOk, Carried;
    forall x | 0 <= x < |z.threads| ensures ThreadOk(z, x) { assert ThreadOk(s, x); }
  }

  /** Nobody carries the thread before it is sent. */
  lemma SendCargo(s: State, c: nat)
    requires Inv(s) && May(s, Send(c))
    ensures Cargo(Step(s, Send(c)))
  {
    var z := Step(s, Send(c));
    var t := s.cores[c].running;
    assert CoreOk(s, c);
    assert Carried(s, c, t) && ThreadOk(s, t);
    forall y | 0 <= y < |s.cores| ensures !At(s.cores[y], t) { assert Carried(s, y, t); }
    forall y, x | 0 <= y < |z.cores| && 0 <= x < |z.threads| ensures Carried(z, y, x) {
      assert Carried(s, y, x);
      hide CoreOk, ThreadOk;
    }
  }

  lemma SwitchKeeps(s: State, c: nat, next: nat)
    requires Inv(s) && May(s, Switch(c, next))
    ensures Inv(Step(s, Switch(c, next)))
  {
    var z := Step(s, Switch(c, next));
    assert CoreOk(s, c);
    assert Cores(z) by {
      hide Carried, Jumping, Holding;
      forall x | 0 <= x < |z.cores| ensures CoreOk(z, x) { assert CoreOk(s, x); }
    }
    assert Threads(z) by {
      hide Carried;
      forall x | 0 <= x < |z.threads| ensures ThreadOk(z, x) { assert ThreadOk(s, x); }
    }
    assert Cargo(z) by {
      forall y, x | 0 <= y < |z.cores| && 0 <= x < |z.threads| ensures Carried(z, y, x) {
        assert Carried(s, y, x) && ThreadOk(s, x);
        hide CoreOk, ThreadOk;
      }
    }
  }

  lemma LetGoKeeps(s: State, c: nat)
    requires Inv(s) && May(s, LetGo(c))
    ensures Inv(Step(s, LetGo(c)))
  {
    var z := Step(s, LetGo(c));
    assert CoreOk(s, c);
    var t := s.cores[c].pc.prev;
    assert ThreadOk(s, t) && Carried(s, c, t);
    forall y | 0 <= y < |s.cores| ensures s.cores[y].running != t { assert CoreOk(s, y); }
    forall y | 0 <= y < |s.cores| ensures Carried(z, y, t) { assert Carried(s, y, t); }
    LocalKeeps(s, z, c, t);
  }

  lemma ReceiveKeeps(s: State, c: nat)
    requires Inv(s) && May(s, Receive(c))
    ensures Inv(Step(s, Receive(c)))
  {
    var z := Step(s, Receive(c));
    assert CoreOk(s, c);
    var t := s.cores[c].box.thread;
    assert ThreadOk(s, t) && Carried(s, c, t);
    forall y | 0 <= y < |s.cores| ensures Carried(z, y, t) { assert Carried(s, y, t); }
    LocalKeeps(s, z, c, t);
  }

  lemma OwnKeeps(s: State, c: nat)
    requires Inv(s) && May(s, Own(c))
    ensures Inv(Step(s, Own(c)))
  {
    var z := Step(s, Own(c));
    var t := s.cores[c].handler.t;
    assert CoreOk(s, c);
    assert ThreadOk(s, t) && Carried(s, c, t);
    forall y | 0 <= y < |s.cores| ensures Carried(z, y, t) { assert Carried(s, y, t); }
    LocalKeeps(s, z, c, t);
  }

  lemma PlaceKeeps(s: State, c: nat)
    requires Inv(s) && May(s, Place(c))
    ensures Inv(Step(s, Place(c)))
  {
    var z := Step(s, Place(c));
    var t := s.cores[c].handler.t;
    assert CoreOk(s, c);
    assert ThreadOk(s, t) && Carried(s, c, t);
    forall y | 0 <= y < |s.cores| ensures Carried(z, y, t) { assert Carried(s, y, t); }
    LocalKeeps(s, z, c, t);
  }

  lemma ReadyKeeps(s: State, c: nat)
    requires Inv(s) && May(s, Ready(c))
    ensures Inv(Step(s, Ready(c)))
  {
    var z := Step(s, Ready(c));
    var t := s.cores[c].handler.t;
    assert CoreOk(s, c);
    assert ThreadOk(s, t) && Carried(s, c, t);
    forall y | 0 <= y < |s.cores| ensures Carried(z, y, t) { assert Carried(s, y, t); }
    LocalKeeps(s, z, c, t);
  }

  lemma ReleaseKeeps(s: State, c: nat)
    requires Inv(s) && May(s, Release(c))
    ensures Inv(Step(s, Release(c)))
  {
    var z := Step(s, Release(c));
    var t := s.cores[c].handler.t;
    assert CoreOk(s, c);
    assert ThreadOk(s, t) && Carried(s, c, t);
    forall y | 0 <= y < |s.cores| ensures !At(s.cores[y], t) { assert Carried(s, y, t); }
    forall y | 0 <= y < |s.cores| ensures Carried(z, y, t) { assert Carried(s, y, t); }
    LocalKeeps(s, z, c, t);
  }

  lemma SleepKeeps(s: State, c: nat, t: nat)
    requires Inv(s) && May(s, Sleep(c, t))
    ensures Inv(Step(s, Sleep(c, t)))
  {
    var z := Step(s, Sleep(c, t));
    assert CoreOk(s, c);
    assert ThreadOk(s, t) && Carried(s, c, t);
    forall y | 0 <= y < |s.cores| ensures Carried(z, y, t) { assert Carried(s, y, t); }
    LocalKeeps(s, z, c, t);
  }

  lemma WakeKeeps(s: State, c: nat, t: nat)
    requires Inv(s) && May(s, Wake(c, t))
    ensures Inv(Step(s, Wake(c, t)))
  {
    var z := Step(s, Wake(c, t));
    assert CoreOk(s, c);
    assert ThreadOk(s, t) && Carried(s, c, t);
    forall y | 0 <= y < |s.cores| ensures Carried(z, y, t) { assert Carried(s, y, t); }
    LocalKeeps(s, z, c, t);
  }

  /** The other commands touch no thread, and no mailbox that carries one. */
  lemma TrafficKeeps(s: State, e: Event)
    requires Inv(s) && May(s, e) && (e.Call? || e.Claim? || e.Deliver? || e.Obey?)
    ensures Inv(Step(s, e))
  {
    hide CoreOk, ThreadOk, Carried, May, Step;
    TrafficCores(s, e);
    TrafficThreads(s, e);
    TrafficCargo(s, e);
  }

  lemma TrafficCores(s: State, e: Event)
    requires Cores(s) && May(s, e) && (e.Call? || e.Claim? || e.Deliver? || e.Obey?)
    ensures Cores(Step(s, e))
  {
    hide Cores, May, Step;
    match e
    case Call(c, d) => CallCores(s, c, d);
    case Claim(c) => ClaimCores(s, c);
    case Deliver(c) => DeliverCores(s, c);
    case Obey(c) => ObeyCores(s, c);
  }

  lemma CallCores(s: State, c: nat, d: nat)
    requires Cores(s) && May(s, Call(c, d))
    ensures Cores(Step(s, Call(c, d)))
  {
    var z := Step(s, Call(c, d));
    assert CoreOk(s, c);
    forall x | 0 <= x < |z.cores| ensures CoreOk(z, x) { assert CoreOk(s, x); }
  }

  lemma ClaimCores(s: State, c: nat)
    requires Cores(s) && May(s, Claim(c))
    ensures Cores(Step(s, Claim(c)))
  {
    var z := Step(s, Claim(c));
    assert CoreOk(s, c);
    forall x | 0 <= x < |z.cores| ensures CoreOk(z, x) { assert CoreOk(s, x); }
  }

  lemma DeliverCores(s: State, c: nat)
    requires Cores(s) && May(s, Deliver(c))
    ensures Cores(Step(s, Deliver(c)))
  {
    var z := Step(s, Deliver(c));
    assert CoreOk(s, c);
    forall x | 0 <= x < |z.cores| ensures CoreOk(z, x) { assert CoreOk(s, x); }
  }

  lemma ObeyCores(s: State, c: nat)
    requires Cores(s) && May(s, Obey(c))
    ensures Cores(Step(s, Obey(c)))
  {
    var z := Step(s, Obey(c));
    assert CoreOk(s, c);
    forall x | 0 <= x < |z.cores| ensures CoreOk(z, x) { assert CoreOk(s, x); }
  }

  lemma TrafficThreads(s: State, e: Event)
    requires Cores(s) && Threads(s) && May(s, e) && (e.Call? || e.Claim? || e.Deliver? || e.Obey?)
    ensures Threads(Step(s, e))
  {
    TrafficOnly(s, e);
    var z := Step(s, e);
    hide May, Step, Cores;
    forall x | 0 <= x < |z.threads| ensures ThreadOk(z, x) { assert ThreadOk(s, x); }
  }

  /** What of a core the other commands leave alone. */
  predicate SameJumps(a: Core, b: Core) {
    && b == a.(ask := b.ask, box := b.box)
    && (b.box == a.box || (!a.box.Full? && !b.box.Full?))
  }

  lemma TrafficOnly(s: State, e: Event)
    requires Cores(s) && May(s, e) && (e.Call? || e.Claim? || e.Deliver? || e.Obey?)
    ensures var z := Step(s, e);
            && z.threads == s.threads && |z.cores| == |s.cores|
            && forall y :: 0 <= y < |s.cores| ==> SameJumps(s.cores[y], z.cores[y])
  {
    assert CoreOk(s, e.c);
    hide CoreOk;
  }

  lemma TrafficCargo(s: State, e: Event)
    requires Inv(s) && May(s, e) && (e.Call? || e.Claim? || e.Deliver? || e.Obey?)
    ensures Cargo(Step(s, e))
  {
    TrafficOnly(s, e);
    var z := Step(s, e);
    hide CoreOk, ThreadOk, May, Step;
    forall y, x | 0 <= y < |z.cores| && 0 <= x < |z.threads| ensures Carried(z, y, x) {
      assert Carried(s, y, x);
    }
  }

  lemma StepKeeps(s: State, e: Event)
    requires Inv(s) && May(s, e)
    ensures Inv(Step(s, e))
  {
    hide Inv, Step;
    match e
    case TakeLock(c, d) => TakeLockKeeps(s, c, d);
    case Unlink(c) => UnlinkKeeps(s, c);
    case Flag(c) => FlagKeeps(s, c);
    case ClaimBox(c) => ClaimBoxKeeps(s, c);
    case Send(c) => SendKeeps(s, c);
    case Switch(c, next) => SwitchKeeps(s, c, next);
    case LetGo(c) => LetGoKeeps(s, c);
    case Receive(c) => ReceiveKeeps(s, c);
    case Own(c) => OwnKeeps(s, c);
    case Place(c) => PlaceKeeps(s, c);
    case Ready(c) => ReadyKeeps(s, c);
    case Release(c) => ReleaseKeeps(s, c);
    case Sleep(c, t) => SleepKeeps(s, c, t);
    case Wake(c, t) => WakeKeeps(s, c, t);
    case Work(c) =>
      assert Step(s, e) == s by { WorkChangesNothing(s, c); }
    case Call(c, d) => TrafficKeeps(s, e);
    case Claim(c) => TrafficKeeps(s, e);
    case Deliver(c) => TrafficKeeps(s, e);
    case Obey(c) => TrafficKeeps(s, e);
  }

  lemma WorkChangesNothing(s: State, c: nat)
    requires May(s, Work(c))
    ensures Step(s, Work(c)) == s
  {
  }

  /* ---- Whole runs ---- */

  ghost predicate Admissible(s: State, run: seq<Event>)
    decreases |run|
  {
    run == [] || (May(s, run[0]) && Admissible(Step(s, run[0]), run[1..]))
  }

  ghost function After(s: State, run: seq<Event>): State
    requires Admissible(s, run)
    decreases |run|
  {
    if run == [] then s else After(Step(s, run[0]), run[1..])
  }

  lemma {:induction false} RunKeeps(s: State, run: seq<Event>)
    requires Inv(s) && Admissible(s, run)
    ensures Inv(After(s, run))
    decreases |run|
  {
    if run != [] {
      StepKeeps(s, run[0]);
      hide Inv, May, Step;
      RunKeeps(Step(s, run[0]), run[1..]);
    }
  }

  /** In every interleaving a thread runs on at most one core and is linked in at most one ready queue,
      and a running thread belongs to the core it runs on. */
  lemma OneCoreOneQueue(s: State, run: seq<Event>, c: nat, d: nat)
    requires Inv(s) && Admissible(s, run)
    ensures var z := After(s, run);
            c < |z.cores| && d < |z.cores| && c != d ==>
              && z.cores[c].running != z.cores[d].running
              && z.cores[c].queue !! z.cores[d].queue
              && (forall t <- z.cores[c].queue :: t < |z.threads| && z.threads[t].cpu == c && z.threads[t].ready)
  {
    RunKeeps(s, run);
    var z := After(s, run);
    if c < |z.cores| && d < |z.cores| && c != d {
      assert CoreOk(z, c) && CoreOk(z, d);
      hide Inv, After, Admissible;
    }
  }

  /** What every state reachable from a settled one satisfies. */
  ghost predicate Safe(z: State) {
    && (forall c, d :: 0 <= c < |z.cores| && 0 <= d < |z.cores| && c != d ==>
          z.cores[c].running != z.cores[d].running && z.cores[c].queue !! z.cores[d].queue)
    && (forall d, c :: 0 <= d < |z.cores| && 0 <= c < |z.cores| && z.cores[d].handler.Placed? ==>
          z.cores[c].running != z.cores[d].handler.t && z.cores[d].handler.t !in z.cores[c].queue)
  }

  lemma SettledRunsSafe(s: State, run: seq<Event>)
    requires Settled(s) && Admissible(s, run)
    ensures Inv(After(s, run)) && Safe(After(s, run))
  {
    hide Inv, Settled, May, Step, Admissible, After;
    SettledInv(s);
    RunKeeps(s, run);
    var z := After(s, run);
    forall c, d | 0 <= c < |z.cores| && 0 <= d < |z.cores| && c != d
      ensures z.cores[c].running != z.cores[d].running && z.cores[c].queue !! z.cores[d].queue
    {
      OneCoreOneQueue(s, run, c, d);
    }
    forall d, c | 0 <= d < |z.cores| && 0 <= c < |z.cores| && z.cores[d].handler.Placed?
      ensures z.cores[c].running != z.cores[d].handler.t && z.cores[d].handler.t !in z.cores[c].queue
    {
      HandlerKnown(z, d);
      ReadyAlone(z, d);
    }
  }

  /** The hand-over: when the target readies the thread, no core runs it any more, no jump holds its
      lock, and it is linked nowhere. */
  lemma ReadiedOnlyAfterInstall(s: State, run: seq<Event>, d: nat)
    requires Inv(s) && Admissible(s, run) && May(After(s, run), Ready(d))
    ensures var z := After(s, run);
            var t := z.cores[d].handler.t;
            && z.threads[t].lock == MoveIn(d)
            && (forall c :: 0 <= c < |z.cores| ==> z.cores[c].running != t && t !in z.cores[c].queue && !Jumping(z.cores[c], t))
  {
    RunKeeps(s, run);
    var z := After(s, run);
    hide After, Admissible, May, Step;
    ReadyAlone(z, d);
  }

  lemma HandlerKnown(z: State, d: nat)
    requires Inv(z) && d < |z.cores| && !z.cores[d].handler.Quiet?
    ensures z.cores[d].handler.t < |z.threads|
  {
    assert CoreOk(z, d);
  }

  lemma ReadyAlone(z: State, d: nat)
    requires Inv(z) && d < |z.cores| && z.cores[d].handler.Placed? && z.cores[d].handler.t < |z.threads|
    ensures var t := z.cores[d].handler.t;
            && z.threads[t].lock == MoveIn(d)
            && (forall c :: 0 <= c < |z.cores| ==> z.cores[c].running != t && t !in z.cores[c].queue && !Jumping(z.cores[c], t))
  {
    var t := z.cores[d].handler.t;
    assert Carried(z, d, t);
    forall c | 0 <= c < |z.cores|
      ensures z.cores[c].running != t && t !in z.cores[c].queue && !Jumping(z.cores[c], t)
    {
      assert CoreOk(z, c) && Carried(z, c, t);
    }
  }

  /** A command in a mailbox stays there until its own core takes it, once. */
  lemma CommandReadOnce(s: State, e: Event, d: nat)
    requires Inv(s) && May(s, e) && d < |s.cores| && s.cores[d].box.Full?
    ensures var z := Step(s, e);
            && d < |z.cores|
            && (if e == Receive(d) then z.cores[d].box.Empty? && z.cores[d].handler == Got(s.cores[d].box.thread)
                else z.cores[d].box == s.cores[d].box)
  {
    assert CoreOk(s, e.c);
    hide Inv, CoreOk;
  }

  /** A thread that may jump never has to wait for its own lock. */
  lemma OwnLockIsFree(s: State, c: nat)
    requires Inv(s) && Known(s, c) && s.cores[c].pc.Plain? && s.cores[c].handler.Quiet?
    ensures s.threads[s.cores[c].running].ready ==> s.threads[s.cores[c].running].lock.Free?
  {
    var t := s.cores[c].running;
    assert CoreOk(s, c) && ThreadOk(s, t);
    if s.threads[t].lock.MoveIn? {
      var d := s.threads[t].lock.core;
      assert Carried(s, d, t);
    }
  }

  /** A stray ready of a thread on its way leaves it linked in one core's queue while it belongs to
      another: nobody else may ready a thread in flight. */
  lemma StrayReadyStrands(s: State, c: nat, d: nat, t: nat)
    requires Inv(s) && c < |s.cores| && d < |s.cores| && c != d && t < |s.threads|
    requires s.cores[d].handler == Owning(t) && s.threads[t].cpu == c
    ensures var stray := Set(Put(s, c, s.cores[c].(queue := s.cores[c].queue + {t})), t, s.threads[t].(ready := true));
            && May(stray, Place(d)) && May(Step(stray, Place(d)), Ready(d))
            && var z := Step(Step(stray, Place(d)), Ready(d));
               z.threads[t].cpu == d && t in z.cores[c].queue && t !in z.cores[d].queue
  {
    assert CoreOk(s, d);
    hide Inv, Carried, ThreadOk;
  }
}
