/** One period of a task graph: every thread pends on its predecessors' latches, runs its function and
    opens its own latch, in any interleaving of the cores. */
module DagRun {
  import opened Basics
  import opened WaitQueue

  /** `At(k)` is about to pend on predecessor `k`; `Asleep` and `Woken` are inside that pend. */
  datatype Phase = At(k: nat) | Asleep(k: nat) | Woken(k: nat) | Running | Done

  /** Latch `i` belongs to thread `i`; a count of 1 is closed. `pends[i]` are the predecessors. */
  datatype Dag = Dag(pends: seq<seq<nat>>, keys: seq<nat>, counts: seq<int>, queues: seq<seq<nat>>, phases: seq<Phase>)

  /** The shape of a graph of `n` threads. */
  predicate Graph(pends: seq<seq<nat>>) {
    forall i, k :: 0 <= i < |pends| && 0 <= k < |pends[i]| ==> pends[i][k] < |pends|
  }

  /** The start of a period: every latch closed, nobody started. */
  predicate Start(d: Dag) {
    && Shape(d)
    && (forall i :: 0 <= i < |d.pends| ==> d.counts[i] == 1 && d.queues[i] == [] && d.phases[i] == At(0))
  }

  predicate Shape(d: Dag) {
    && |d.keys| == |d.counts| == |d.queues| == |d.phases| == |d.pends| && Graph(d.pends)
    && forall i :: 0 <= i < |d.pends| ==> d.phases[i].At? || d.phases[i].Asleep? || d.phases[i].Woken? ==>
         d.phases[i].k <= |d.pends[i]| && (!d.phases[i].At? ==> d.phases[i].k < |d.pends[i]|)
  }

  /** What the steps themselves need: a graph, and queues of its threads. */
  predicate Ok(d: Dag) {
    Shape(d) && forall j :: 0 <= j < |d.pends| ==> Known(d.keys, d.queues[j])
  }

  /** Thread `i` has passed its first `n` predecessors, and they are finished. */
  predicate Passed(d: Dag, i: nat, n: nat)
    requires Shape(d) && i < |d.pends| && n <= |d.pends[i]|
  {
    forall k :: 0 <= k < n ==> d.phases[d.pends[i][k]] == Done
  }

  predicate ThreadOk(d: Dag, i: nat)
    requires Shape(d) && i < |d.pends|
  {
    match d.phases[i]
    case At(k) => Passed(d, i, k)
    case Asleep(k) => Passed(d, i, k) && d.phases[d.pends[i][k]] != Done && i in d.queues[d.pends[i][k]]
    case Woken(k) => Passed(d, i, k + 1)
    case Running => Passed(d, i, |d.pends[i]|)
    case Done => Passed(d, i, |d.pends[i]|)
  }

  /** A latch is open exactly when its thread is done, and its queue holds waiters of this latch only. */
  predicate LatchOk(d: Dag, j: nat)
    requires Shape(d) && j < |d.pends|
  {
    && d.counts[j] == (if d.phases[j] == Done then 0 else 1)
    && Distinct(d.queues[j]) && Known(d.keys, d.queues[j]) && Sorted(d.keys, d.queues[j])
    && forall i <- d.queues[j] :: i < |d.pends| && (d.phases[i].Asleep? || d.phases[i].Woken?)
                                 && d.pends[i][d.phases[i].k] == j
  }

  predicate Inv(d: Dag) {
    && Ok(d)
    && (forall i :: 0 <= i < |d.pends| ==> ThreadOk(d, i))
    && (forall j :: 0 <= j < |d.pends| ==> LatchOk(d, j))
  }

  function SetPhase(d: Dag, i: nat, p: Phase): Dag
    requires i < |d.phases|
  {
    d.(phases := d.phases[i := p])
  }

  /* ---- The steps ---- */

  predicate MayPend(d: Dag, i: nat) { i < |d.phases| && i < |d.pends| && d.phases[i].At? && d.phases[i].k < |d.pends[i]| }

  /** Pend without taking: through an open latch, or to sleep in its queue. */
  function Pend(d: Dag, i: nat): Dag
    requires Ok(d) && MayPend(d, i)
  {
    var k := d.phases[i].k;
    var j := d.pends[i][k];
    if d.counts[j] <= 0 then SetPhase(d, i, At(k + 1))
    else SetPhase(d, i, Asleep(k)).(queues := d.queues[j := Insert(d.keys, false, d.queues[j], i)])
  }

  /** A woken thread takes itself off the queue and goes on. */
  function Resume(d: Dag, i: nat): Dag
    requires Ok(d) && i < |d.phases| && d.phases[i].Woken?
  {
    var k := d.phases[i].k;
    var j := d.pends[i][k];
    SetPhase(d, i, At(k + 1)).(queues := d.queues[j := Remove(d.queues[j], i)])
  }

  predicate MayRun(d: Dag, i: nat) { i < |d.phases| && i < |d.pends| && d.phases[i] == At(|d.pends[i]|) }

  function Run(d: Dag, i: nat): Dag
    requires MayRun(d, i)
  {
    SetPhase(d, i, Running)
  }

  /** The sleepers among the queued threads wake up. */
  function Ready(phases: seq<Phase>, queue: seq<nat>): seq<Phase> {
    seq(|phases|, i requires 0 <= i < |phases| =>
      if i in queue && phases[i].Asleep? then Woken(phases[i].k) else phases[i])
  }

  function Post(d: Dag, i: nat): Dag
    requires Ok(d) && i < |d.phases| && d.phases[i] == Running
  {
    d.(counts := d.counts[i := if d.counts[i] <= 1 then d.counts[i] - 1 else d.counts[i]],
       phases := Ready(d.phases, d.queues[i])[i := Done])
  }

  /* ---- Every step keeps the invariant ---- */

  lemma PendKeeps(d: Dag, i: nat)
    requires Inv(d) && MayPend(d, i)
    ensures Inv(Pend(d, i))
  {
    var k := d.phases[i].k;
    assert LatchOk(d, d.pends[i][k]);
    if d.counts[d.pends[i][k]] <= 0 { PassKeeps(d, i); } else { SleepKeeps(d, i); }
  }

  lemma PassKeeps(d: Dag, i: nat)
    requires Inv(d) && MayPend(d, i) && d.phases[d.pends[i][d.phases[i].k]] == Done
    ensures Inv(SetPhase(d, i, At(d.phases[i].k + 1)))
  {
    var next := SetPhase(d, i, At(d.phases[i].k + 1));
    assert ThreadOk(d, i);
    assert Shape(next);
    forall x | 0 <= x < |d.pends|
      ensures ThreadOk(next, x) && LatchOk(next, x)
    {
      assert ThreadOk(d, x) && LatchOk(d, x);
    }
  }

  lemma SleepKeeps(d: Dag, i: nat)
    requires Inv(d) && MayPend(d, i) && d.counts[d.pends[i][d.phases[i].k]] == 1
    ensures Inv(Pend(d, i))
  {
    var k := d.phases[i].k;
    var j := d.pends[i][k];
    var next := Pend(d, i);
    assert LatchOk(d, j) && ThreadOk(d, i);
    InsertMembers(d.keys, false, d.queues[j], i);
    InsertDistinct(d.keys, false, d.queues[j], i);
    InsertSorted(d.keys, d.queues[j], i);
    hide Insert, Distinct, Sorted;
    assert Shape(next);
    forall x | 0 <= x < |d.pends|
      ensures ThreadOk(next, x)
    {
      assert ThreadOk(d, x);
    }
    forall x | 0 <= x < |d.pends|
      ensures LatchOk(next, x)
    {
      assert LatchOk(d, x);
    }
  }

  lemma ResumeKeeps(d: Dag, i: nat)
    requires Inv(d) && i < |d.phases| && d.phases[i].Woken?
    ensures Inv(Resume(d, i))
  {
    var k := d.phases[i].k;
    var j := d.pends[i][k];
    var next := Resume(d, i);
    assert LatchOk(d, j) && ThreadOk(d, i);
    RemoveMembers(d.queues[j], i);
    RemoveSorted(d.keys, d.queues[j], i);
    hide Remove, Distinct, Sorted;
    assert forall x :: 0 <= x < |next.queues[j]| ==> next.queues[j][x] in next.queues[j];
    assert Ok(next);
    forall x | 0 <= x < |d.pends|
      ensures ThreadOk(next, x)
    {
      assert ThreadOk(d, x);
    }
    forall x | 0 <= x < |d.pends|
      ensures LatchOk(next, x)
    {
      assert LatchOk(d, x);
    }
  }

  lemma RunKeeps(d: Dag, i: nat)
    requires Inv(d) && MayRun(d, i)
    ensures Inv(Run(d, i))
  {
    var next := Run(d, i);
    assert ThreadOk(d, i);
    assert Shape(next);
    forall x | 0 <= x < |d.pends|
      ensures ThreadOk(next, x)
    {
      assert ThreadOk(d, x);
    }
    forall x | 0 <= x < |d.pends|
      ensures LatchOk(next, x)
    {
      assert LatchOk(d, x);
    }
  }

  lemma PostKeeps(d: Dag, i: nat)
    requires Inv(d) && i < |d.phases| && d.phases[i] == Running
    ensures Inv(Post(d, i))
  {
    var next := Post(d, i);
    assert LatchOk(d, i) && ThreadOk(d, i);
    assert i !in d.queues[i];
    assert Shape(next);
    forall x | 0 <= x < |d.pends|
      ensures ThreadOk(next, x)
    {
      assert ThreadOk(d, x);
    }
    forall x | 0 <= x < |d.pends|
      ensures LatchOk(next, x)
    {
      assert LatchOk(d, x);
    }
  }

  /* ---- Whole runs ---- */

  datatype Event = Pends(i: nat) | Resumes(i: nat) | Starts(i: nat) | Posts(i: nat)

  predicate May(d: Dag, e: Event) {
    match e
    case Pends(i) => MayPend(d, i)
    case Resumes(i) => i < |d.phases| && d.phases[i].Woken?
    case Starts(i) => MayRun(d, i)
    case Posts(i) => i < |d.phases| && d.phases[i] == Running
  }

  function Step(d: Dag, e: Event): Dag
    requires Ok(d) && May(d, e)
  {
    match e
    case Pends(i) => Pend(d, i)
    case Resumes(i) => Resume(d, i)
    case Starts(i) => Run(d, i)
    case Posts(i) => Post(d, i)
  }

  lemma StepKeeps(d: Dag, e: Event)
    requires Inv(d) && May(d, e)
    ensures Inv(Step(d, e)) && Step(d, e).pends == d.pends
  {
    match e
    case Pends(i) => PendKeeps(d, i);
    case Resumes(i) => ResumeKeeps(d, i);
    case Starts(i) => RunKeeps(d, i);
    case Posts(i) => PostKeeps(d, i);
  }

  ghost predicate Admissible(d: Dag, run: seq<Event>)
    requires Inv(d)
    decreases |run|
  {
    run == [] || (May(d, run[0]) && (StepKeeps(d, run[0]); Admissible(Step(d, run[0]), run[1..])))
  }

  ghost function After(d: Dag, run: seq<Event>): Dag
    requires Inv(d) && Admissible(d, run)
    decreases |run|
  {
    if run == [] then d else
      StepKeeps(d, run[0]);
      After(Step(d, run[0]), run[1..])
  }

  lemma {:induction false} RunKeepsInv(d: Dag, run: seq<Event>)
    requires Inv(d) && Admissible(d, run)
    ensures Inv(After(d, run)) && After(d, run).pends == d.pends
    decreases |run|
  {
    if run != [] {
      StepKeeps(d, run[0]);
      hide May, Step, Inv;
      RunKeepsInv(Step(d, run[0]), run[1..]);
    }
  }

  lemma OkKeeps(d: Dag, e: Event)
    requires Ok(d) && May(d, e)
    ensures Ok(Step(d, e)) && Step(d, e).pends == d.pends
  {
    match e
    case Pends(i) =>
      InsertMembers(d.keys, false, d.queues[d.pends[i][d.phases[i].k]], i);
      hide Insert, Known;
    case Resumes(i) =>
      RemoveKnown(d.keys, d.queues[d.pends[i][d.phases[i].k]], i);
      hide Remove, Known;
    case Starts(i) =>
    case Posts(i) =>
  }

  lemma StartInv(d: Dag)
    requires Start(d)
    ensures Inv(d)
  {
  }

  /** A path of the graph, from a node back through its predecessors. */
  predicate Path(pends: seq<seq<nat>>, path: seq<nat>) {
    && (forall k :: 0 <= k < |path| ==> path[k] < |pends|)
    && (forall k :: 0 <= k < |path| - 1 ==> path[k + 1] in pends[path[k]])
  }

  lemma {:induction false} AncestorsDone(d: Dag, path: seq<nat>, k: nat)
    requires Inv(d) && Path(d.pends, path) && 0 < k < |path|
    requires d.phases[path[0]] == Running || d.phases[path[0]] == Done
    ensures d.phases[path[k]] == Done
  {
    var i := path[k - 1];
    if k > 1 { AncestorsDone(d, path, k - 1); }
    assert ThreadOk(d, i);
    assert path[(k - 1) + 1] in d.pends[i];
    var m :| 0 <= m < |d.pends[i]| && d.pends[i][m] == path[k];
  }

  /** Precedence: in no interleaving does a node's function run before all its ancestors have posted. */
  lemma Precedence(d: Dag, run: seq<Event>, path: seq<nat>, k: nat)
    requires Start(d) && Inv(d) && Admissible(d, run)
    requires Path(d.pends, path) && 0 < k < |path|
    ensures var t := After(d, run);
            && |t.phases| == |t.counts| == |d.pends|
            && (t.phases[path[0]] == Running || t.phases[path[0]] == Done
                ==> t.phases[path[k]] == Done && t.counts[path[k]] == 0)
  {
    RunKeepsInv(d, run);
    var t := After(d, run);
    if t.phases[path[0]] == Running || t.phases[path[0]] == Done {
      AncestorsDone(t, path, k);
      assert LatchOk(t, path[k]);
    }
  }

  /** No lost wake-up: nobody sleeps on an open latch, and every sleeper is in the queue it sleeps on. */
  lemma NobodySleepsOnOpenLatch(d: Dag, run: seq<Event>, i: nat)
    requires Start(d) && Inv(d) && Admissible(d, run) && i < |d.pends|
    ensures var t := After(d, run);
            && |t.phases| == |t.counts| == |t.queues| == |t.pends| == |d.pends|
            && (t.phases[i].Asleep? ==>
                  && t.phases[i].k < |t.pends[i]| && t.pends[i][t.phases[i].k] < |t.pends|
                  && t.counts[t.pends[i][t.phases[i].k]] == 1
                  && i in t.queues[t.pends[i][t.phases[i].k]])
  {
    RunKeepsInv(d, run);
    var t := After(d, run);
    assert ThreadOk(t, i);
    if t.phases[i].Asleep? { assert LatchOk(t, t.pends[i][t.phases[i].k]); }
  }

  /** Every member of `c` waits for a member of `c`: a cycle, or something that leads into one. */
  predicate Knot(pends: seq<seq<nat>>, c: set<nat>) {
    && c != {}
    && forall i <- c :: i < |pends| && exists k :: 0 <= k < |pends[i]| && pends[i][k] in c
  }

  ghost predicate Acyclic(pends: seq<seq<nat>>) { forall c: set<nat> :: !Knot(pends, c) }

  predicate Unfinished(d: Dag, i: nat) { i < |d.phases| && d.phases[i] != Done }

  predicate Movable(d: Dag, i: nat) { i < |d.phases| && d.phases[i] != Done && !d.phases[i].Asleep? }

  lemma MovableMoves(d: Dag, i: nat)
    requires Inv(d) && Movable(d, i)
    ensures exists e :: May(d, e)
  {
    match d.phases[i]
    case At(k) => if k < |d.pends[i]| { assert May(d, Pends(i)); } else { assert May(d, Starts(i)); }
    case Asleep(k) =>
    case Woken(k) => assert May(d, Resumes(i));
    case Running => assert May(d, Posts(i));
    case Done =>
  }

  /** In an acyclic graph somebody can always move until everybody is done. */
  lemma SomebodyMoves(d: Dag, i: nat)
    requires Inv(d) && Acyclic(d.pends) && Unfinished(d, i)
    ensures exists m :: Movable(d, m)
  {
    if forall m :: 0 <= m < |d.phases| && d.phases[m] != Done ==> d.phases[m].Asleep? {
      var c := set m: nat | m < |d.phases| && d.phases[m] != Done;
      forall m | m in c
        ensures m < |d.pends| && exists k :: 0 <= k < |d.pends[m]| && d.pends[m][k] in c
      {
        assert ThreadOk(d, m);
        assert d.pends[m][d.phases[m].k] in c;
      }
      assert i in c;
      assert Knot(d.pends, c);
    } else {
      var m: nat :| m < |d.phases| && d.phases[m] != Done && !d.phases[m].Asleep?;
      assert Movable(d, m);
    }
  }

  /** In a knot nobody ever gets as far as running. */
  lemma KnotStuck(d: Dag, c: set<nat>, run: seq<Event>)
    requires Start(d) && Inv(d) && Admissible(d, run) && Knot(d.pends, c)
    ensures forall i <- c :: i < |After(d, run).phases| && After(d, run).phases[i] != Done && After(d, run).phases[i] != Running
  {
    KnotBegins(d, c);
    KnotStays(d, c, run);
  }

  predicate Stuck(d: Dag, c: set<nat>) {
    forall i <- c :: i < |d.phases| && d.phases[i] != Done && d.phases[i] != Running
  }

  lemma KnotBegins(d: Dag, c: set<nat>)
    requires Start(d) && Knot(d.pends, c)
    ensures Stuck(d, c)
  {
  }

  lemma {:induction false} KnotStays(d: Dag, c: set<nat>, run: seq<Event>)
    requires Inv(d) && Admissible(d, run) && Knot(d.pends, c) && Stuck(d, c)
    ensures Stuck(After(d, run), c)
    decreases |run|
  {
    if run != [] {
      KnotStep(d, c, run[0]);
      StepKeeps(d, run[0]);
      hide May, Step, Inv, Stuck, Knot;
      KnotStays(Step(d, run[0]), c, run[1..]);
    }
  }

  predicate Far(d: Dag, x: nat) { x < |d.phases| && (d.phases[x] == Running || d.phases[x] == Done) }

  /** Only starting one's own function gets a thread as far as running. */
  lemma FarByStart(d: Dag, e: Event, x: nat)
    requires Inv(d) && May(d, e) && !Far(d, x) && e != Starts(x)
    ensures !Far(Step(d, e), x)
  {
    hide Inv, Insert, Remove;
  }

  lemma NoStartInKnot(d: Dag, c: set<nat>, i: nat)
    requires Inv(d) && MayRun(d, i) && Knot(d.pends, c) && Stuck(d, c)
    ensures i !in c
  {
    assert ThreadOk(d, i);
    assert forall k :: 0 <= k < |d.pends[i]| ==> d.phases[d.pends[i][k]] == Done && d.pends[i][k] !in c;
  }

  lemma KnotStep(d: Dag, c: set<nat>, e: Event)
    requires Inv(d) && May(d, e) && Knot(d.pends, c) && Stuck(d, c)
    ensures Stuck(Step(d, e), c)
  {
    if e.Starts? { NoStartInKnot(d, c, e.i); }
    StepKeeps(d, e);
    forall x | x in c
      ensures x < |Step(d, e).phases| && !Far(Step(d, e), x)
    {
      FarByStart(d, e, x);
      SameSize(d, e);
      hide Inv, Step, May;
    }
  }

  lemma SameSize(d: Dag, e: Event)
    requires Inv(d) && May(d, e)
    ensures |Step(d, e).phases| == |d.phases|
  {
    hide Inv, Insert, Remove;
  }

  /** What a thread has still to do. */
  function Remaining(d: Dag, i: nat): nat
    requires Shape(d) && i < |d.pends|
  {
    match d.phases[i]
    case At(k) => 3 * (|d.pends[i]| - k) + 2
    case Asleep(k) => 3 * (|d.pends[i]| - k) + 1
    case Woken(k) => 3 * (|d.pends[i]| - k)
    case Running => 1
    case Done => 0
  }

  function Work(d: Dag, n: nat): nat
    requires Shape(d) && n <= |d.pends|
  {
    if n == 0 then 0 else Work(d, n - 1) + Remaining(d, n - 1)
  }

  lemma {:induction false} WorkLess(d: Dag, next: Dag, n: nat, m: nat)
    requires Shape(d) && Shape(next) && next.pends == d.pends && n <= |d.pends| && m < |d.pends|
    requires forall i :: 0 <= i < |d.pends| ==> Remaining(next, i) <= Remaining(d, i)
    requires Remaining(next, m) < Remaining(d, m)
    ensures Work(next, n) <= Work(d, n) && (m < n ==> Work(next, n) < Work(d, n))
  {
    hide Remaining, Shape;
    if n > 0 { WorkLess(d, next, n - 1, m); }
  }

  lemma StepWorks(d: Dag, e: Event)
    requires Inv(d) && May(d, e)
    ensures Inv(Step(d, e)) && Work(Step(d, e), |d.pends|) < Work(d, |d.pends|)
  {
    StepKeeps(d, e);
    hide Insert, Remove, Work, ThreadOk, LatchOk;
    WorkLess(d, Step(d, e), |d.pends|, e.i);
  }

  /** No run is longer than the work at its start. */
  lemma {:induction false} RunsEnd(d: Dag, run: seq<Event>)
    requires Inv(d) && Admissible(d, run)
    ensures Inv(After(d, run)) && After(d, run).pends == d.pends
    ensures |run| + Work(After(d, run), |d.pends|) <= Work(d, |d.pends|)
    decreases |run|
  {
    if run != [] {
      StepWorks(d, run[0]);
      StepKeeps(d, run[0]);
      hide May, Step, Inv, Work;
      RunsEnd(Step(d, run[0]), run[1..]);
    }
  }

  /** Progress, exactly: from the start of a period every run that cannot go on has finished every
      node if and only if the graph is acyclic. */
  lemma EveryPeriodCompletesIff(d: Dag)
    requires Start(d) && Inv(d)
    ensures Acyclic(d.pends) <==>
            forall run: seq<Event> :: Admissible(d, run) && Blocked(After(d, run)) ==> AllDone(After(d, run))
  {
    if Acyclic(d.pends) {
      forall run: seq<Event> | Admissible(d, run) && Blocked(After(d, run))
        ensures AllDone(After(d, run))
      {
        RunKeepsInv(d, run);
        var t := After(d, run);
        if i: nat :| Unfinished(t, i) {
          SomebodyMoves(t, i);
          var m :| Movable(t, m);
          MovableMoves(t, m);
        }
      }
    } else {
      var c :| Knot(d.pends, c);
      hide Inv, Start, Knot;
      var run := Exhaust(d);
      KnotStuck(d, c, run);
      var i :| i in c by { assert c != {} by { KnotNonEmpty(d.pends, c); } }
      assert Unfinished(After(d, run), i);
    }
  }

  lemma KnotNonEmpty(pends: seq<seq<nat>>, c: set<nat>)
    requires Knot(pends, c)
    ensures c != {}
  {
  }

  ghost predicate Blocked(d: Dag) { forall e :: !May(d, e) }

  ghost predicate AllDone(d: Dag) { forall i: nat :: !Unfinished(d, i) }

  /** Some run that cannot be continued. */
  lemma {:induction false} Exhaust(d: Dag) returns (run: seq<Event>)
    requires Inv(d)
    ensures Admissible(d, run) && Blocked(After(d, run))
    decreases Work(d, |d.pends|)
  {
    if e :| May(d, e) {
      StepWorks(d, e);
      StepKeeps(d, e);
      hide May, Step, Inv, Work;
      var rest := Exhaust(Step(d, e));
      run := [e] + rest;
      assert run[1..] == rest;
    } else {
      run := [];
    }
  }

  /** The threads of one graph and their latches, changed in place by one critical section at a time. */
  class Period {
    const pends: seq<seq<nat>>
    const keys: seq<nat>
    var counts: seq<int>
    var queues: seq<seq<nat>>
    var phases: seq<Phase>

    ghost function Now(): Dag
      reads this
    {
      Dag(pends, keys, counts, queues, phases)
    }

    constructor (predecessors: seq<seq<nat>>, threadKeys: seq<nat>)
      requires Graph(predecessors) && |threadKeys| == |predecessors|
      ensures pends == predecessors && Start(Now()) && Inv(Now())
    {
      pends, keys := predecessors, threadKeys;
      counts := seq(|predecessors|, i => 1);
      queues := seq(|predecessors|, i => []);
      phases := seq(|predecessors|, i => At(0));
      new;
      StartInv(Now());
    }

    /** `passed` when the latch of the next predecessor is open. */
    method PendNext(i: nat) returns (passed: bool)
      requires Inv(Now()) && MayPend(Now(), i)
      modifies this
      ensures Now() == Pend(old(Now()), i) && Inv(Now())
      ensures passed <==> phases[i].At?
    {
      PendKeeps(Now(), i);
      var k := phases[i].k;
      var j := pends[i][k];
      passed := counts[j] <= 0;
      if passed {
        phases := phases[i := At(k + 1)];
      } else {
        hide Insert, Inv;
        phases := phases[i := Asleep(k)];
        var queue := Inserted(keys, false, queues[j], i);
        queues := queues[j := queue];
      }
    }

    method WakeUp(i: nat)
      requires Inv(Now()) && i < |phases| && phases[i].Woken?
      modifies this
      ensures Now() == Resume(old(Now()), i) && Inv(Now())
    {
      ResumeKeeps(Now(), i);
      var k := phases[i].k;
      var queue := Removed(queues[pends[i][k]], i);
      queues := queues[pends[i][k] := queue];
      phases := phases[i := At(k + 1)];
    }

    /** The thread's own latch opens and everybody queued on it is readied, in queue order. */
    method PostOwn(i: nat)
      requires Inv(Now()) && i < |phases| && phases[i] == Running
      modifies this
      ensures Now() == Post(old(Now()), i) && Inv(Now())
    {
      PostKeeps(Now(), i);
      hide Inv;
      if counts[i] <= 1 { counts := counts[i := counts[i] - 1]; }
      var queue := queues[i];
      for q := 0 to |queue|
        invariant phases == Ready(old(phases), queue[..q])
        invariant queues == old(queues) && counts == old(counts)[i := if old(counts[i]) <= 1 then old(counts[i]) - 1 else old(counts[i])]
      {
        assert queue[..q + 1] == queue[..q] + [queue[q]];
        var t := queue[q];
        if phases[t].Asleep? { phases := phases[t := Woken(phases[t].k)]; }
      }
      assert queue[..|queue|] == queue;
      phases := phases[i := Done];
    }
  }
}
