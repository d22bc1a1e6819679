/** The periods of a task graph. The tick closes the latches and restarts the threads one by one, in the
    order of the period queue, while the threads that are restarted already may run on other cores. */
module DagPeriods {
  import opened DagRun
  import opened Basics
  import opened WaitQueue

  /** `order` is the order of the period queue, and its first `begun` threads have been restarted in the
      current period. */
  datatype Cycle = Cycle(d: Dag, order: seq<nat>, begun: nat)

  datatype Event = Tick | Restart | Do(e: DagRun.Event)

  predicate Restarted(c: Cycle, i: nat) { c.begun <= |c.order| && i in c.order[..c.begun] }

  /** The order names every thread once. */
  predicate Ordering(order: seq<nat>, n: nat) {
    && |order| == n && Distinct(order)
    && (forall i :: 0 <= i < n ==> order[i] < n)
    && (forall i :: 0 <= i < n ==> i in order)
  }

  predicate Fine(c: Cycle) { Ok(c.d) && Ordering(c.order, |c.d.pends|) && c.begun <= |c.order| }

  /** The latch is initialised again, which also empties its queue, and the thread starts from the top. */
  function Reopened(d: Dag, i: nat): Dag
    requires Ok(d) && i < |d.pends|
  {
    d.(counts := d.counts[i := 1], queues := d.queues[i := []], phases := d.phases[i := At(0)])
  }

  /** A tick is due when everybody has finished: no thread overruns its period. */
  ghost predicate May(c: Cycle, e: Event)
    requires Fine(c)
  {
    match e
    case Tick => c.begun == |c.order| && AllDone(c.d)
    case Restart => c.begun < |c.order| && c.d.phases[c.order[c.begun]] == Done
    case Do(e) => DagRun.May(c.d, e)
  }

  ghost function Step(c: Cycle, e: Event): Cycle
    requires Fine(c) && May(c, e)
  {
    match e
    case Tick => c.(begun := 0)
    case Restart => c.(d := Reopened(c.d, c.order[c.begun]), begun := c.begun + 1)
    case Do(e) => c.(d := DagRun.Step(c.d, e))
  }

  lemma StepFine(c: Cycle, e: Event)
    requires Fine(c) && May(c, e)
    ensures Fine(Step(c, e)) && Step(c, e).order == c.order && Step(c, e).d.pends == c.d.pends
  {
    if e.Do? { OkKeeps(c.d, e.e); }
  }

  ghost predicate Admissible(c: Cycle, run: seq<Event>)
    requires Fine(c)
    decreases |run|
  {
    run == [] || (May(c, run[0]) && (StepFine(c, run[0]); Admissible(Step(c, run[0]), run[1..])))
  }

  ghost function After(c: Cycle, run: seq<Event>): Cycle
    requires Fine(c) && Admissible(c, run)
    decreases |run|
  {
    if run == [] then c else
      StepFine(c, run[0]);
      After(Step(c, run[0]), run[1..])
  }

  /* ---- One period seen through the restarts ---- */

  /** The period as if the threads that are not restarted yet stood at its start, with their latches
      closed. */
  function View(c: Cycle): (d: Dag)
    requires Fine(c)
  {
    var n := |c.d.pends|;
    c.d.(counts := seq(n, i requires 0 <= i < n => if Restarted(c, i) then c.d.counts[i] else 1),
         queues := seq(n, i requires 0 <= i < n => if Restarted(c, i) then c.d.queues[i] else []),
         phases := seq(n, i requires 0 <= i < n => if Restarted(c, i) then c.d.phases[i] else At(0)))
  }

  /** What is left of the period before. */
  predicate Stale(d: Dag, i: nat)
    requires Ok(d) && i < |d.pends|
  {
    d.phases[i] == Done && d.counts[i] <= 0 && d.queues[i] == []
  }

  predicate StaleOk(c: Cycle)
    requires Fine(c)
  {
    forall i :: 0 <= i < |c.d.pends| && !Restarted(c, i) ==> Stale(c.d, i)
  }

  predicate Good(c: Cycle) { Fine(c) && StaleOk(c) && Inv(View(c)) }

  /** No thread that is restarted waits for one that is not. */
  predicate Closed(c: Cycle)
    requires Fine(c)
  {
    forall i, k :: 0 <= i < |c.d.pends| && Restarted(c, i) && 0 <= k < |c.d.pends[i]| ==> Restarted(c, c.d.pends[i][k])
  }

  /** No predecessor of a thread stands behind it in the period queue. */
  predicate Topological(pends: seq<seq<nat>>, order: seq<nat>) {
    forall p, k :: 0 <= p < |order| && order[p] < |pends| && 0 <= k < |pends[order[p]]| ==>
      pends[order[p]][k] in order[..p + 1]
  }

  lemma TopologicalCloses(c: Cycle)
    requires Fine(c) && Topological(c.d.pends, c.order)
    ensures Closed(c)
  {
    forall i, k | 0 <= i < |c.d.pends| && Restarted(c, i) && 0 <= k < |c.d.pends[i]|
      ensures Restarted(c, c.d.pends[i][k])
    {
      var p :| 0 <= p < c.begun && c.order[p] == i;
      assert c.d.pends[c.order[p]][k] in c.order[..p + 1];
    }
  }

  /** A step of a thread is the same step of the period. */
  lemma DoSimulates(c: Cycle, e: DagRun.Event)
    requires Good(c) && Closed(c) && DagRun.May(c.d, e)
    ensures Fine(Step(c, Do(e))) && Good(Step(c, Do(e)))
    ensures DagRun.May(View(c), e) && View(Step(c, Do(e))) == DagRun.Step(View(c), e)
  {
    hide View, Inv, Closed, Stale, Pend, Resume, Run, Post;
    StepFine(c, Do(e));
    Moved(c, e.i);
    match e {
      case Pends(i) => PendSimulates(c, i);
      case Resumes(i) => ResumeSimulates(c, i);
      case Starts(i) => StartSimulates(c, i);
      case Posts(i) => PostSimulates(c, i);
    }
    DagRun.StepKeeps(View(c), e);
  }

  /** Only a restarted thread takes steps. */
  lemma Moved(c: Cycle, i: nat)
    requires Fine(c) && StaleOk(c) && i < |c.d.phases| && c.d.phases[i] != Done
    ensures Restarted(c, i)
  {
    assert !Restarted(c, i) ==> Stale(c.d, i);
  }

  predicate Agree(d: Dag, w: Dag, x: nat) {
    && x < |d.counts| && x < |d.queues| && x < |d.phases| && x < |w.counts| && x < |w.queues| && x < |w.phases|
    && d.counts[x] == w.counts[x] && d.queues[x] == w.queues[x] && d.phases[x] == w.phases[x]
  }

  predicate SameGraph(d: Dag, w: Dag) { w.pends == d.pends && w.keys == d.keys }

  /** A step does the same to the restarted threads here and in the view, and nothing to the others. */
  lemma Carries(c: Cycle, z: Cycle, w: Dag)
    requires Fine(c) && Fine(z) && StaleOk(c) && z == c.(d := z.d)
    requires Ok(w) && SameGraph(c.d, z.d) && SameGraph(c.d, w)
    requires forall x :: 0 <= x < |c.d.pends| && Restarted(c, x) ==> Agree(z.d, w, x)
    requires forall x :: 0 <= x < |c.d.pends| && !Restarted(c, x) ==> Agree(z.d, c.d, x) && Agree(w, View(c), x)
    ensures StaleOk(z) && View(z) == w
  {
    forall x | 0 <= x < |c.d.pends|
      ensures Agree(View(z), w, x) && (!Restarted(z, x) ==> Stale(z.d, x))
    {
      assert Restarted(z, x) == Restarted(c, x);
      assert Restarted(c, x) ==> Agree(z.d, w, x);
      assert !Restarted(c, x) ==> Agree(z.d, c.d, x) && Agree(w, View(c), x) && Stale(c.d, x);
      hide Restarted, Ok;
    }
    hide Fine, Stale, View;
    ViewLengths(z);
    AgreeAll(View(z), w);
  }

  lemma ViewLengths(c: Cycle)
    requires Fine(c)
    ensures SameGraph(c.d, View(c)) && Ok(View(c))
  {
  }

  lemma AgreeAll(d: Dag, w: Dag)
    requires Ok(d) && Ok(w) && SameGraph(d, w) && forall x :: 0 <= x < |d.pends| ==> Agree(d, w, x)
    ensures d == w
  {
    forall x | 0 <= x < |d.pends|
      ensures d.counts[x] == w.counts[x] && d.queues[x] == w.queues[x] && d.phases[x] == w.phases[x]
    {
      assert Agree(d, w, x);
    }
    assert d.counts == w.counts && d.queues == w.queues && d.phases == w.phases;
  }

  lemma ViewAt(c: Cycle, x: nat)
    requires Fine(c) && x < |c.d.pends|
    ensures if Restarted(c, x) then Agree(View(c), c.d, x)
            else x < |View(c).phases| && View(c).phases[x] == At(0)
  {
  }

  lemma PendSimulates(c: Cycle, i: nat)
    requires Fine(c) && StaleOk(c) && Closed(c) && MayPend(c.d, i) && Restarted(c, i)
    ensures var z := Step(c, Do(Pends(i)));
            && MayPend(View(c), i) && Ok(View(c)) && Fine(z) && StaleOk(z)
            && View(z) == Pend(View(c), i)
  {
    StepFine(c, Do(Pends(i)));
    var j := c.d.pends[i][c.d.phases[i].k];
    assert Restarted(c, j);
    ViewAt(c, i);
    ViewAt(c, j);
    ViewLengths(c);
    hide Insert, Restarted, Closed, View, StaleOk, Ordering, Stale;
    var v, z := View(c), Step(c, Do(Pends(i)));
    OkKeeps(v, Pends(i));
    forall x | 0 <= x < |c.d.pends|
      ensures if Restarted(c, x) then Agree(z.d, Pend(v, i), x) else Agree(z.d, c.d, x) && Agree(Pend(v, i), v, x)
    {
      ViewAt(c, x);
    }
    Carries(c, z, Pend(v, i));
  }

  lemma ResumeSimulates(c: Cycle, i: nat)
    requires Fine(c) && StaleOk(c) && Closed(c) && Restarted(c, i) && i < |c.d.phases| && c.d.phases[i].Woken?
    ensures var z := Step(c, Do(Resumes(i)));
            && i < |View(c).phases| && View(c).phases[i].Woken? && Ok(View(c)) && Fine(z) && StaleOk(z)
            && View(z) == Resume(View(c), i)
  {
    StepFine(c, Do(Resumes(i)));
    var j := c.d.pends[i][c.d.phases[i].k];
    assert Restarted(c, j);
    ViewAt(c, i);
    ViewAt(c, j);
    ViewLengths(c);
    hide Remove, Restarted, Closed, View, StaleOk, Ordering, Stale;
    var v, z := View(c), Step(c, Do(Resumes(i)));
    OkKeeps(v, Resumes(i));
    forall x | 0 <= x < |c.d.pends|
      ensures if Restarted(c, x) then Agree(z.d, Resume(v, i), x) else Agree(z.d, c.d, x) && Agree(Resume(v, i), v, x)
    {
      ViewAt(c, x);
    }
    Carries(c, z, Resume(v, i));
  }

  lemma StartSimulates(c: Cycle, i: nat)
    requires Fine(c) && StaleOk(c) && MayRun(c.d, i) && Restarted(c, i)
    ensures var z := Step(c, Do(Starts(i)));
            MayRun(View(c), i) && Ok(View(c)) && Fine(z) && StaleOk(z) && View(z) == Run(View(c), i)
  {
    StepFine(c, Do(Starts(i)));
    ViewAt(c, i);
    ViewLengths(c);
    hide Restarted, View, StaleOk, Ordering, Stale;
    var v, z := View(c), Step(c, Do(Starts(i)));
    OkKeeps(v, Starts(i));
    forall x | 0 <= x < |c.d.pends|
      ensures if Restarted(c, x) then Agree(z.d, Run(v, i), x) else Agree(z.d, c.d, x) && Agree(Run(v, i), v, x)
    {
      ViewAt(c, x);
    }
    Carries(c, z, Run(v, i));
  }

  lemma PostSimulates(c: Cycle, i: nat)
    requires Fine(c) && StaleOk(c) && Restarted(c, i) && i < |c.d.phases| && c.d.phases[i] == Running
    ensures var z := Step(c, Do(Posts(i)));
            && i < |View(c).phases| && View(c).phases[i] == Running && Ok(View(c)) && Fine(z) && StaleOk(z)
            && View(z) == Post(View(c), i)
  {
    StepFine(c, Do(Posts(i)));
    ViewAt(c, i);
    ViewLengths(c);
    var v, z := View(c), Step(c, Do(Posts(i)));
    OkKeeps(v, Posts(i));
    forall x | 0 <= x < |c.d.pends|
      ensures if Restarted(c, x) then Agree(z.d, Post(v, i), x) else Agree(z.d, c.d, x) && Agree(Post(v, i), v, x)
    {
      hide Restarted, View, Ordering;
      ViewAt(c, x);
      assert !Restarted(c, x) ==> Stale(c.d, x);
    }
    hide Restarted, View, StaleOk, Ordering, Stale;
    Carries(c, z, Post(v, i));
  }

  /** A restart changes nothing in this view: it makes true what was seen already. */
  lemma RestartSimulates(c: Cycle)
    requires Good(c) && May(c, Restart)
    ensures Good(Step(c, Restart)) && View(Step(c, Restart)) == View(c)
  {
    hide Inv;
    StepFine(c, Restart);
    var i, z := c.order[c.begun], Step(c, Restart);
    assert c.order[..c.begun + 1] == c.order[..c.begun] + [i];
    assert forall x :: Restarted(z, x) <==> x == i || Restarted(c, x);
    assert !Restarted(c, i) by { assert Distinct(c.order); }
    hide Restarted;
    assert View(z).counts == View(c).counts;
    assert View(z).queues == View(c).queues;
    assert View(z).phases == View(c).phases;
  }

  /** At a tick the period that is over is left behind and the view is that of a new one. */
  lemma TickSimulates(c: Cycle)
    requires Good(c) && May(c, Tick)
    ensures Good(Step(c, Tick)) && Start(View(Step(c, Tick)))
  {
    AllRestarted(c);
    var z := Step(c, Tick);
    forall i | 0 <= i < |c.d.pends|
      ensures Stale(z.d, i)
    {
      DoneMeansStale(c.d, i);
    }
    assert forall i :: !Restarted(z, i);
    StartInv(View(z));
  }

  /** The latches agree with the phases. */
  predicate Latches(d: Dag) { Ok(d) && forall j :: 0 <= j < |d.pends| ==> LatchOk(d, j) }

  lemma DoneMeansStale(d: Dag, i: nat)
    requires Latches(d) && AllDone(d) && i < |d.pends|
    ensures Stale(d, i)
  {
    assert !Unfinished(d, i);
    assert LatchOk(d, i);
    if d.queues[i] != [] {
      var x := d.queues[i][0];
      assert x in d.queues[i];
      NotDone(d, i, x);
      assert false;
    }
  }

  lemma NotDone(d: Dag, j: nat, x: nat)
    requires Latches(d) && j < |d.pends| && x in d.queues[j]
    ensures Unfinished(d, x)
  {
    assert LatchOk(d, j);
  }

  lemma AllRestarted(c: Cycle)
    requires Fine(c) && c.begun == |c.order|
    ensures View(c) == c.d && forall i :: 0 <= i < |c.d.pends| ==> Restarted(c, i)
  {
    assert c.order[..c.begun] == c.order;
    assert View(c).counts == c.d.counts && View(c).queues == c.d.queues && View(c).phases == c.d.phases;
  }

  /* ---- When precedence holds in every period ---- */

  /** A restarted thread runs its function only when its predecessors have been restarted and have posted
      in the same period. */
  predicate Precedent(c: Cycle)
    requires Fine(c)
  {
    forall i, k :: 0 <= i < |c.d.pends| && Restarted(c, i) && (c.d.phases[i] == Running || c.d.phases[i] == Done)
                   && 0 <= k < |c.d.pends[i]| ==>
      Restarted(c, c.d.pends[i][k]) && c.d.phases[c.d.pends[i][k]] == Done
  }

  lemma GoodPrecedes(c: Cycle)
    requires Good(c) && Closed(c)
    ensures Precedent(c)
  {
    var v := View(c);
    forall i, k | 0 <= i < |c.d.pends| && Restarted(c, i) && (c.d.phases[i] == Running || c.d.phases[i] == Done)
                  && 0 <= k < |c.d.pends[i]|
      ensures Restarted(c, c.d.pends[i][k]) && c.d.phases[c.d.pends[i][k]] == Done
    {
      assert ThreadOk(v, i);
      assert v.phases[v.pends[i][k]] == Done;
    }
  }

  lemma {:induction false} TopologicalKeeps(c: Cycle, run: seq<Event>)
    requires Good(c) && Topological(c.d.pends, c.order) && Admissible(c, run)
    ensures Fine(After(c, run)) && Good(After(c, run)) && Precedent(After(c, run))
    decreases |run|
  {
    hide Inv, Ok, Ordering, View, StaleOk, Closed, Topological, Precedent, DagRun.May, DagRun.Step;
    TopologicalCloses(c);
    if run == [] {
      GoodPrecedes(c);
    } else {
      StepFine(c, run[0]);
      match run[0] {
        case Tick => TickSimulates(c);
        case Restart => RestartSimulates(c);
        case Do(e) => DoSimulates(c, e);
      }
      TopologicalKeeps(Step(c, run[0]), run[1..]);
    }
  }

  /* ---- Reaching states ---- */

  ghost predicate Reaches(c: Cycle, z: Cycle)
    requires Fine(c)
  {
    exists run :: Admissible(c, run) && After(c, run) == z
  }

  lemma ReachHere(c: Cycle)
    requires Fine(c)
    ensures Reaches(c, c)
  {
    assert Admissible(c, []) && After(c, []) == c;
  }

  /** One step, and on from there. */
  lemma ReachFirst(c: Cycle, e: Event, z: Cycle)
    requires Fine(c) && May(c, e) && Fine(Step(c, e)) && Reaches(Step(c, e), z)
    ensures Reaches(c, z)
  {
    hide Fine, May, Step;
    var run :| Admissible(Step(c, e), run) && After(Step(c, e), run) == z;
    StepFine(c, e);
    assert ([e] + run)[1..] == run;
    assert Admissible(c, [e] + run) && After(c, [e] + run) == z;
  }

  lemma {:induction false} RunFine(c: Cycle, run: seq<Event>)
    requires Fine(c) && Admissible(c, run)
    ensures Fine(After(c, run)) && After(c, run).order == c.order && After(c, run).d.pends == c.d.pends
    decreases |run|
  {
    if run != [] {
      StepFine(c, run[0]);
      hide Fine, May, Step;
      RunFine(Step(c, run[0]), run[1..]);
    }
  }

  lemma {:induction false} RunConcat(c: Cycle, a: seq<Event>, b: seq<Event>)
    requires Fine(c) && Admissible(c, a) && Fine(After(c, a)) && Admissible(After(c, a), b)
    ensures Admissible(c, a + b) && After(c, a + b) == After(After(c, a), b)
    decreases |a|
  {
    hide Fine, May, Step;
    if a == [] {
      assert a + b == b;
    } else {
      StepFine(c, a[0]);
      assert (a + b)[0] == a[0] && (a + b)[1..] == a[1..] + b;
      RunConcat(Step(c, a[0]), a[1..], b);
    }
  }

  lemma ReachTrans(c: Cycle, m: Cycle, z: Cycle)
    requires Fine(c) && Reaches(c, m) && Fine(m) && Reaches(m, z)
    ensures Reaches(c, z)
  {
    hide Fine;
    var a :| Admissible(c, a) && After(c, a) == m;
    var b :| Admissible(m, b) && After(m, b) == z;
    RunConcat(c, a, b);
  }

  /* ---- One thread after the other ---- */

  /** Everybody has finished, and every latch is open. */
  predicate Level(c: Cycle) { Fine(c) && forall i :: 0 <= i < |c.d.pends| ==> Stale(c.d, i) }

  /** Only thread `i` has been restarted and not finished. */
  predicate Alone(c: Cycle, i: nat, phase: Phase) {
    && Fine(c) && i < |c.d.pends|
    && c.d.phases[i] == phase && c.d.counts[i] == 1 && c.d.queues[i] == []
    && forall x :: 0 <= x < |c.d.pends| && x != i ==> Stale(c.d, x)
  }

  predicate NoLoop(pends: seq<seq<nat>>, i: nat) { i < |pends| && i !in pends[i] }

  predicate Same(c: Cycle, z: Cycle) { z.order == c.order && z.d.pends == c.d.pends }

  /** Through open latches, whether of this period or left from the one before, the thread comes to run. */
  lemma {:induction false} ComesToRun(c: Cycle, i: nat, k: nat) returns (z: Cycle)
    requires Alone(c, i, At(k)) && NoLoop(c.d.pends, i)
    ensures Reaches(c, z) && Alone(z, i, Running) && Same(c, z) && z.begun == c.begun
    decreases |c.d.pends[i]| - k
  {
    if k < |c.d.pends[i]| {
      OnePassed(c, i, k);
      StepFine(c, Do(Pends(i)));
      z := ComesToRun(Step(c, Do(Pends(i))), i, k + 1);
      ReachFirst(c, Do(Pends(i)), z);
    } else {
      StepFine(c, Do(Starts(i)));
      z := Step(c, Do(Starts(i)));
      OthersStale(c, z, i);
      ReachHere(z);
      ReachFirst(c, Do(Starts(i)), z);
    }
  }

  lemma OnePassed(c: Cycle, i: nat, k: nat)
    requires Alone(c, i, At(k)) && k < |c.d.pends[i]| && c.d.pends[i][k] != i
    ensures var e := Do(Pends(i)); May(c, e) && Alone(Step(c, e), i, At(k + 1)) && Same(c, Step(c, e)) && Step(c, e).begun == c.begun
  {
    assert Stale(c.d, c.d.pends[i][k]);
    StepFine(c, Do(Pends(i)));
    OthersStale(c, Step(c, Do(Pends(i))), i);
  }

  /** The others are as they were. */
  lemma OthersStale(c: Cycle, z: Cycle, i: nat)
    requires Fine(c) && Fine(z) && z.d.pends == c.d.pends && i < |c.d.pends|
    requires forall x :: 0 <= x < |c.d.pends| && x != i ==> Stale(c.d, x)
    requires forall x :: 0 <= x < |c.d.pends| && x != i ==>
               z.d.phases[x] == c.d.phases[x] && z.d.counts[x] == c.d.counts[x] && z.d.queues[x] == c.d.queues[x]
    ensures forall x :: 0 <= x < |z.d.pends| && x != i ==> Stale(z.d, x)
  {
    forall x | 0 <= x < |z.d.pends| && x != i
      ensures Stale(z.d, x)
    {
      assert Stale(c.d, x);
    }
  }

  lemma Finishes(c: Cycle, i: nat)
    requires Alone(c, i, Running)
    ensures var e := Do(Posts(i)); May(c, e) && Level(Step(c, e)) && Same(c, Step(c, e)) && Step(c, e).begun == c.begun
  {
    var z := Step(c, Do(Posts(i)));
    StepFine(c, Do(Posts(i)));
    forall x | 0 <= x < |c.d.pends|
      ensures Stale(z.d, x)
    {
      assert x != i ==> Stale(c.d, x);
    }
  }

  lemma Restarts(c: Cycle)
    requires Level(c) && c.begun < |c.order|
    ensures May(c, Restart)
    ensures var z := Step(c, Restart); Alone(z, c.order[c.begun], At(0)) && Same(c, z) && z.begun == c.begun + 1
  {
    var i := c.order[c.begun];
    assert Stale(c.d, i);
    StepFine(c, Restart);
    OthersStale(c, Step(c, Restart), i);
  }

  ghost predicate NoLoops(pends: seq<seq<nat>>) { forall i: nat :: i < |pends| ==> NoLoop(pends, i) }

  /** Restarted threads may finish before the next one is restarted. */
  lemma {:induction false} Advances(c: Cycle, p: nat) returns (z: Cycle)
    requires Level(c) && NoLoops(c.d.pends) && c.begun <= p <= |c.order|
    ensures Reaches(c, z) && Level(z) && Same(c, z) && z.begun == p
    decreases p - c.begun
  {
    hide Fine, May, Step, Stale;
    if c.begun == p {
      ReachHere(c);
      return c;
    }
    LevelFine(c);
    var i := c.order[c.begun];
    Restarts(c);
    var c1 := Step(c, Restart);
    var c2 := ComesToRun(c1, i, 0);
    Finishes(c2, i);
    var c3 := Step(c2, Do(Posts(i)));
    z := Advances(c3, p);
    hide Reaches, Level;
    LevelFine(c3);
    ReachFirst(c2, Do(Posts(i)), z);
    ReachTrans(c1, c2, z);
    ReachFirst(c, Restart, z);
  }

  lemma LevelFine(c: Cycle)
    requires Level(c)
    ensures Fine(c)
    ensures forall p :: 0 <= p < |c.order| ==> c.order[p] < |c.d.pends|
  {
  }

  /** A thread with a predecessor behind it can run on the latch of the period before. */
  lemma RunsTooEarly(c: Cycle, p: nat, k: nat) returns (z: Cycle)
    requires Level(c) && NoLoops(c.d.pends) && c.begun == 0 && p < |c.order| && c.order[p] < |c.d.pends|
    requires k < |c.d.pends[c.order[p]]| && c.d.pends[c.order[p]][k] !in c.order[..p + 1]
    ensures Fine(z) && Reaches(c, z) && !Precedent(z)
  {
    var c1 := Advances(c, p);
    Restarts(c1);
    var i := c.order[p];
    var c2 := Step(c1, Restart);
    z := ComesToRun(c2, i, 0);
    assert c.order[..p + 1][p] == i;
    assert Restarted(z, i) && !Restarted(z, c.d.pends[i][k]);
    hide Reaches, Level, Precedent, Fine, Stale, May, Step, Alone;
    ReachFirst(c1, Restart, z);
    ReachTrans(c, c1, z);
  }

  /* ---- The first period ---- */

  lemma {:induction false} FirstRuns(c: Cycle, run: seq<DagRun.Event>)
    requires Fine(c) && Inv(c.d) && DagRun.Admissible(c.d, run)
    ensures Reaches(c, c.(d := DagRun.After(c.d, run)))
    decreases |run|
  {
    if run == [] {
      ReachHere(c);
    } else {
      DagRun.StepKeeps(c.d, run[0]);
      StepFine(c, Do(run[0]));
      var m := Step(c, Do(run[0]));
      FirstRuns(m, run[1..]);
      hide Fine, Inv, DagRun.May, DagRun.Step, Reaches;
      ReachFirst(c, Do(run[0]), c.(d := DagRun.After(c.d, run)));
    }
  }

  /** From the first start an acyclic graph reaches its second tick. */
  lemma ReachesTick(c: Cycle) returns (z: Cycle)
    requires Fine(c) && Start(c.d) && c.begun == |c.order| && Acyclic(c.d.pends)
    ensures Reaches(c, z) && Level(z) && Same(c, z) && z.begun == 0
  {
    StartInv(c.d);
    hide Start, Acyclic, Inv, Reaches;
    var run := Exhaust(c.d);
    EveryPeriodCompletesIff(c.d);
    FirstRuns(c, run);
    RunKeepsInv(c.d, run);
    var m := c.(d := DagRun.After(c.d, run));
    TickLevels(m);
    z := Step(m, Tick);
    ReachHere(z);
    hide Fine, AllDone, Level;
    ReachFirst(m, Tick, z);
    ReachTrans(c, m, z);
  }

  lemma TickLevels(m: Cycle)
    requires Inv(m.d) && AllDone(m.d) && Ordering(m.order, |m.d.pends|) && m.begun == |m.order|
    ensures Fine(m) && May(m, Tick) && Level(Step(m, Tick)) && Same(m, Step(m, Tick)) && Step(m, Tick).begun == 0
  {
    forall i | 0 <= i < |m.d.pends|
      ensures Stale(m.d, i)
    {
      DoneMeansStale(m.d, i);
    }
  }

  lemma AcyclicNoLoops(pends: seq<seq<nat>>)
    requires Acyclic(pends)
    ensures NoLoops(pends)
  {
    forall i: nat | i < |pends|
      ensures NoLoop(pends, i)
    {
      if i in pends[i] {
        var k :| 0 <= k < |pends[i]| && pends[i][k] == i;
        assert Knot(pends, {i});
      }
    }
  }

  /** A period with a knot never ends. */
  lemma {:induction false} KnotKeeps(c: Cycle, knot: set<nat>, run: seq<Event>)
    requires Good(c) && c.begun == |c.order| && Knot(c.d.pends, knot) && Stuck(c.d, knot) && Admissible(c, run)
    ensures Fine(After(c, run)) && Precedent(After(c, run))
    decreases |run|
  {
    hide Inv, Ok, Ordering, View, Stale, Knot, Stuck, Precedent, DagRun.May, DagRun.Step;
    AllRestarted(c);
    AllClosed(c);
    if run == [] {
      GoodPrecedes(c);
    } else {
      StuckGoesOn(c.d, knot);
      StepFine(c, run[0]);
      var e := run[0].e;
      DoSimulates(c, e);
      KnotStep(c.d, knot, e);
      KnotKeeps(Step(c, run[0]), knot, run[1..]);
    }
  }

  lemma AllClosed(c: Cycle)
    requires Fine(c) && forall i :: 0 <= i < |c.d.pends| ==> Restarted(c, i)
    ensures Closed(c)
  {
  }

  lemma StuckGoesOn(d: Dag, knot: set<nat>)
    requires Knot(d.pends, knot) && Stuck(d, knot)
    ensures !AllDone(d)
  {
    var i :| i in knot;
    assert Unfinished(d, i);
  }

  lemma StartGood(c: Cycle)
    requires Fine(c) && Start(c.d) && c.begun == |c.order|
    ensures Good(c)
  {
    StartInv(c.d);
    AllRestarted(c);
  }

  ghost predicate AlwaysPrecedent(c: Cycle)
    requires Fine(c)
  {
    forall run :: Admissible(c, run) ==> (RunFine(c, run); Precedent(After(c, run)))
  }

  /** Precedence across periods, exactly: from the first start of the threads it holds in every interleaving
      if and only if no predecessor of a thread stands behind it in the period queue, or the graph is cyclic
      and its first period never ends. */
  lemma PrecedenceAcrossPeriodsIff(c: Cycle)
    requires Fine(c) && Start(c.d) && c.begun == |c.order|
    ensures AlwaysPrecedent(c) <==> Topological(c.d.pends, c.order) || !Acyclic(c.d.pends)
  {
    StartGood(c);
    if Topological(c.d.pends, c.order) {
      forall run | Admissible(c, run)
        ensures Fine(After(c, run)) && Precedent(After(c, run))
      {
        TopologicalKeeps(c, run);
      }
    } else if !Acyclic(c.d.pends) {
      var knot :| Knot(c.d.pends, knot);
      KnotBegins(c.d, knot);
      forall run | Admissible(c, run)
        ensures Fine(After(c, run)) && Precedent(After(c, run))
      {
        KnotKeeps(c, knot, run);
      }
    } else {
      BreaksPrecedence(c);
    }
  }

  lemma BreaksPrecedence(c: Cycle)
    requires Fine(c) && Start(c.d) && c.begun == |c.order| && Acyclic(c.d.pends) && !Topological(c.d.pends, c.order)
    ensures exists run | Admissible(c, run) :: Fine(After(c, run)) && !Precedent(After(c, run))
  {
    var p, k :| 0 <= p < |c.order| && c.order[p] < |c.d.pends| && 0 <= k < |c.d.pends[c.order[p]]|
                && c.d.pends[c.order[p]][k] !in c.order[..p + 1];
    AcyclicNoLoops(c.d.pends);
    hide Start, Acyclic, Precedent, NoLoops, Topological;
    var m := ReachesTick(c);
    var z := RunsTooEarly(m, p, k);
    LevelFine(m);
    hide Fine, Level;
    ReachTrans(c, m, z);
  }

  /** In such an order the ancestors of a running thread have all posted in its own period. */
  lemma AncestorsAcrossPeriods(c: Cycle, run: seq<Event>, path: seq<nat>, k: nat)
    requires Fine(c) && Start(c.d) && c.begun == |c.order| && Topological(c.d.pends, c.order) && Admissible(c, run)
    requires Path(c.d.pends, path) && 0 < k < |path|
    ensures var z := After(c, run);
            && |z.d.phases| == |c.d.pends| && z.begun <= |z.order|
            && (Restarted(z, path[0]) && (z.d.phases[path[0]] == Running || z.d.phases[path[0]] == Done)
                ==> Restarted(z, path[k]) && z.d.phases[path[k]] == Done)
  {
    StartGood(c);
    TopologicalKeeps(c, run);
    RunFine(c, run);
    var z := After(c, run);
    if Restarted(z, path[0]) && (z.d.phases[path[0]] == Running || z.d.phases[path[0]] == Done) {
      hide Inv;
      AncestorsDone(View(z), path, k);
    }
  }

  /** Periods follow each other for ever: in every reachable state something can happen. */
  lemma PeriodsGoOn(c: Cycle, run: seq<Event>)
    requires Fine(c) && Start(c.d) && c.begun == |c.order| && Admissible(c, run)
    requires Topological(c.d.pends, c.order) && Acyclic(c.d.pends)
    ensures Fine(After(c, run)) && exists e :: May(After(c, run), e)
  {
    StartGood(c);
    TopologicalKeeps(c, run);
    RunFine(c, run);
    var z := After(c, run);
    hide Start, Acyclic, Admissible, After, Inv, Topological;
    if z.begun < |z.order| {
      NextIsStale(z);
      assert May(z, Restart);
    } else if AllDone(z.d) {
      assert May(z, Tick);
    } else {
      AllRestarted(z);
      var i: nat :| Unfinished(z.d, i);
      SomebodyMoves(z.d, i);
      var m :| Movable(z.d, m);
      MovableMoves(z.d, m);
      var e :| DagRun.May(z.d, e);
      assert May(z, Do(e));
    }
  }

  lemma NextIsStale(c: Cycle)
    requires Fine(c) && StaleOk(c) && c.begun < |c.order|
    ensures Stale(c.d, c.order[c.begun])
  {
    assert !Restarted(c, c.order[c.begun]);
  }

  /** The run lets no thread move between a tick and the last restart, as when no other core runs then. */
  ghost predicate Undisturbed(c: Cycle, run: seq<Event>)
    requires Fine(c) && Admissible(c, run)
    decreases |run|
  {
    run == [] || ((run[0].Do? ==> c.begun == |c.order|)
                  && (StepFine(c, run[0]); Undisturbed(Step(c, run[0]), run[1..])))
  }

  /** Then the order of the restarts does not matter. */
  lemma UndisturbedPrecedes(c: Cycle, run: seq<Event>)
    requires Fine(c) && Start(c.d) && c.begun == |c.order| && Admissible(c, run) && Undisturbed(c, run)
    ensures Fine(After(c, run)) && Precedent(After(c, run))
  {
    StartGood(c);
    UndisturbedKeeps(c, run);
  }

  predicate Calm(c: Cycle) { Good(c) && (c.begun < |c.order| ==> Start(View(c))) }

  lemma {:induction false} UndisturbedKeeps(c: Cycle, run: seq<Event>)
    requires Calm(c) && Admissible(c, run) && Undisturbed(c, run)
    ensures Fine(After(c, run)) && Precedent(After(c, run))
    decreases |run|
  {
    hide Inv, Ok, Ordering, View, Stale, Start, Precedent, DagRun.May, DagRun.Step;
    if run == [] {
      CalmPrecedes(c);
    } else {
      StepFine(c, run[0]);
      match run[0] {
        case Tick => TickSimulates(c);
        case Restart => RestartSimulates(c);
        case Do(e) =>
          AllRestarted(c);
          AllClosed(c);
          DoSimulates(c, e);
      }
      UndisturbedKeeps(Step(c, run[0]), run[1..]);
    }
  }

  lemma CalmPrecedes(c: Cycle)
    requires Calm(c)
    ensures Precedent(c)
  {
    if c.begun < |c.order| {
      forall i | 0 <= i < |c.d.pends| && Restarted(c, i)
        ensures c.d.phases[i] == At(0)
      {
        assert View(c).phases[i] == At(0);
      }
    } else {
      AllRestarted(c);
      AllClosed(c);
      GoodPrecedes(c);
    }
  }

  /* ---- What a restart finds ---- */

  predicate Tidy(c: Cycle) { Fine(c) && Latches(c.d) && StaleOk(c) }

  lemma PendLatches(d: Dag, i: nat)
    requires Latches(d) && MayPend(d, i)
    ensures Latches(Pend(d, i))
  {
    OkKeeps(d, Pends(i));
    var next := Pend(d, i);
    var j := d.pends[i][d.phases[i].k];
    assert LatchOk(d, j);
    InsertMembers(d.keys, false, d.queues[j], i);
    InsertDistinct(d.keys, false, d.queues[j], i);
    InsertSorted(d.keys, d.queues[j], i);
    hide Insert, Distinct, Sorted;
    forall x | 0 <= x < |d.pends| ensures LatchOk(next, x) { assert LatchOk(d, x); }
  }

  lemma ResumeLatches(d: Dag, i: nat)
    requires Latches(d) && i < |d.phases| && d.phases[i].Woken?
    ensures Latches(Resume(d, i))
  {
    OkKeeps(d, Resumes(i));
    var next := Resume(d, i);
    var j := d.pends[i][d.phases[i].k];
    assert LatchOk(d, j);
    RemoveMembers(d.queues[j], i);
    RemoveSorted(d.keys, d.queues[j], i);
    hide Remove, Distinct, Sorted;
    forall x | 0 <= x < |d.pends| ensures LatchOk(next, x) { assert LatchOk(d, x); }
  }

  lemma PostLatches(d: Dag, i: nat)
    requires Latches(d) && i < |d.phases| && d.phases[i] == Running
    ensures Latches(Post(d, i))
  {
    OkKeeps(d, Posts(i));
    var next := Post(d, i);
    assert LatchOk(d, i) && i !in d.queues[i];
    hide Distinct, Sorted, Known;
    forall x | 0 <= x < |d.pends| ensures LatchOk(next, x) { assert LatchOk(d, x); }
  }

  lemma StartLatches(d: Dag, i: nat)
    requires Latches(d) && MayRun(d, i)
    ensures Latches(Run(d, i))
  {
    OkKeeps(d, Starts(i));
    hide Distinct, Sorted, Known;
    forall x | 0 <= x < |d.pends| ensures LatchOk(Run(d, i), x) { assert LatchOk(d, x); }
  }

  lemma LatchesKeep(d: Dag, e: DagRun.Event)
    requires Latches(d) && DagRun.May(d, e)
    ensures Latches(DagRun.Step(d, e))
  {
    hide Latches;
    match e
    case Pends(i) => PendLatches(d, i);
    case Resumes(i) => ResumeLatches(d, i);
    case Starts(i) => StartLatches(d, i);
    case Posts(i) => PostLatches(d, i);
  }

  /** A thread that is done has an open latch, which lets everybody through without queueing. */
  lemma DoneIsLeft(d: Dag, e: DagRun.Event, j: nat)
    requires Latches(d) && DagRun.May(d, e) && j < |d.pends| && Stale(d, j)
    ensures Ok(DagRun.Step(d, e)) && DagRun.Step(d, e).pends == d.pends && Stale(DagRun.Step(d, e), j)
  {
    OkKeeps(d, e);
    hide LatchOk;
  }

  lemma DoTidy(c: Cycle, e: DagRun.Event)
    requires Tidy(c) && May(c, Do(e))
    ensures Tidy(Step(c, Do(e)))
  {
    StepFine(c, Do(e));
    LatchesKeep(c.d, e);
    var z := Step(c, Do(e));
    hide Latches, Stale, DagRun.Step, DagRun.May;
    forall i | 0 <= i < |c.d.pends| && !Restarted(z, i) ensures Stale(z.d, i) { DoneIsLeft(c.d, e, i); }
  }

  lemma RestartTidy(c: Cycle)
    requires Tidy(c) && May(c, Restart)
    ensures Tidy(Step(c, Restart))
  {
    StepFine(c, Restart);
    NextIsStale(c);
    var z, i := Step(c, Restart), c.order[c.begun];
    assert c.order[..z.begun] == c.order[..c.begun] + [i];
    hide Sorted, Known;
    forall x | 0 <= x < |c.d.pends|
      ensures LatchOk(z.d, x) && (!Restarted(z, x) ==> Stale(z.d, x))
    {
      assert LatchOk(c.d, x) && i !in c.d.queues[x];
      assert Restarted(c, x) ==> x in c.order[..z.begun];
      assert x == i ==> x in c.order[..z.begun];
    }
  }

  lemma TickTidy(c: Cycle)
    requires Tidy(c) && May(c, Tick)
    ensures Tidy(Step(c, Tick))
  {
    StepFine(c, Tick);
    forall i | 0 <= i < |c.d.pends|
      ensures Stale(c.d, i)
    {
      DoneMeansStale(c.d, i);
    }
  }

  lemma {:induction false} RunTidy(c: Cycle, run: seq<Event>)
    requires Tidy(c) && Admissible(c, run)
    ensures Fine(After(c, run)) && Tidy(After(c, run))
    decreases |run|
  {
    hide Latches, StaleOk, Ok, Ordering, DagRun.May, DagRun.Step;
    if run != [] {
      StepFine(c, run[0]);
      match run[0] {
        case Tick => TickTidy(c);
        case Restart => RestartTidy(c);
        case Do(e) => DoTidy(c, e);
      }
      RunTidy(Step(c, run[0]), run[1..]);
    }
  }

  /** A restart empties no queue and is never held up: in every interleaving, whatever the order of the
      restarts, a thread that is not restarted yet is done, its latch open and its queue empty, and the
      restart closes that latch, puts the thread at its first predecessor and touches nothing else. */
  lemma RestartLosesNobody(c: Cycle, run: seq<Event>)
    requires Fine(c) && Start(c.d) && c.begun == |c.order| && Admissible(c, run)
    ensures var z := After(c, run);
            && Fine(z)
            && (forall i :: 0 <= i < |z.d.pends| && !Restarted(z, i) ==>
                  z.d.phases[i] == Done && z.d.counts[i] == 0 && z.d.queues[i] == [])
            && (z.begun < |z.order| ==>
                  && May(z, Restart)
                  && var i, next := z.order[z.begun], Step(z, Restart).d;
                     && next.counts == z.d.counts[i := 1] && next.phases == z.d.phases[i := At(0)]
                     && next.queues == z.d.queues && next.pends == z.d.pends && next.keys == z.d.keys)
  {
    StartInv(c.d);
    AllRestarted(c);
    RunTidy(c, run);
    var z := After(c, run);
    if z.begun < |z.order| {
      NextIsStale(z);
    }
    forall i | 0 <= i < |z.d.pends| && !Restarted(z, i)
      ensures z.d.phases[i] == Done && z.d.counts[i] == 0 && z.d.queues[i] == []
    {
      assert LatchOk(z.d, i);
    }
  }
}
