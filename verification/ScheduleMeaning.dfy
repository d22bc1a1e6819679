/** What the terms of the response-time equations count: jobs, slots and critical sections, as sums and
    maxima over all of them. */
module ScheduleMeaning {
  import opened ResponseTime

  /* ---- Sums ---- */

  function Sum(n: nat, f: nat -> nat): nat {
    if n == 0 then 0 else Sum(n - 1, f) + f(n - 1)
  }

  lemma {:induction false} SumSame(n: nat, f: nat -> nat, g: nat -> nat)
    requires forall i: nat :: i < n ==> f(i) == g(i)
    ensures Sum(n, f) == Sum(n, g)
  {
    if n > 0 { SumSame(n - 1, f, g); }
  }

  lemma {:induction false} SumZero(n: nat, m: nat, f: nat -> nat)
    requires n <= m && forall i: nat :: n <= i < m ==> f(i) == 0
    ensures Sum(m, f) == Sum(n, f)
  {
    if n < m { SumZero(n, m - 1, f); }
  }

  /* ---- Jobs ---- */

  /** The work of the jobs of demand `c` that a task of the given period releases in a window of length `x`
      that opens with a release: one at every multiple of the period. */
  function Jobs(x: nat, period: nat, c: nat): nat
    requires period > 0
  {
    Sum(x, (r: nat) => if r % period == 0 then c else 0)
  }

  /** The number of releases in the window, counted one by one. */
  lemma {:induction false} CeilCounts(x: nat, period: nat)
    requires period > 0
    ensures Ceil(x + 1, period) == Ceil(x, period) + (if x % period == 0 then 1 else 0)
    ensures Ceil(0, period) == 0
  {
    var q, r := x / period, x % period;
    assert x == q * period + r;
    if r == 0 {
      DivIs(x + period - 1, period, q, period - 1);
      DivIs(x + period, period, q + 1, 0) by { assert (q + 1) * period == q * period + period; }
    } else {
      DivIs(x + period - 1, period, q + 1, r - 1) by { assert (q + 1) * period == q * period + period; }
      DivIs(x + period, period, q + 1, r) by { assert (q + 1) * period == q * period + period; }
    }
    DivIs(period - 1, period, 0, period - 1);
  }

  lemma DivIs(x: nat, d: nat, q: nat, r: nat)
    requires d > 0 && x == q * d + r && r < d
    ensures x / d == q
  {
    if x / d < q { MulMono(x / d + 1, q, d); } else if x / d > q { MulMono(q + 1, x / d, d); }
  }

  /** The last release counted is inside the window and the next one is not. */
  lemma CeilBounds(x: nat, period: nat)
    requires period > 0 && x > 0
    ensures Ceil(x, period) > 0 && (Ceil(x, period) - 1) * period < x <= Ceil(x, period) * period
  {
    var n, r := (x + period - 1) / period, (x + period - 1) % period;
    assert x + period - 1 == n * period + r;
    assert (n - 1) * period == n * period - period;
  }

  /** Load is the work of all jobs released in the window. */
  lemma {:induction false} LoadIs(x: nat, period: nat, c: nat)
    requires period > 0
    ensures Load(x, period, c) == Jobs(x, period, c)
  {
    if x == 0 {
      CeilCounts(0, period);
    } else {
      LoadIs(x - 1, period, c);
      CeilCounts(x - 1, period);
      var f := (r: nat) => if r % period == 0 then c else 0;
      assert Sum(x, f) == Sum(x - 1, f) + f(x - 1);
      OneMore(Ceil(x - 1, period), c);
      hide Ceil;
    }
  }

  lemma OneMore(n: nat, c: nat)
    ensures (n + 1) * c == n * c + c
  {
  }

  /* ---- Preemption ---- */

  /** Time in the critical sections of a use. */
  function InSections(u: Use): nat { u.count * u.len }

  /** Execution outside global critical sections. */
  function Outside(sys: System, i: nat): int
    requires i < |sys.tasks|
  {
    var uses := sys.tasks[i].uses;
    sys.tasks[i].wcet - Sum(|uses|, (u: nat) =>
      if u < |uses| && uses[u].res < |sys.resources| && sys.resources[uses[u].res].isGlobal then InSections(uses[u]) else 0)
  }

  lemma {:induction false} GlobalUseIs(sys: System, uses: seq<Use>, n: nat)
    requires n <= |uses| && UsesKnown(sys, uses)
    ensures GlobalUse(sys, uses, n) == Sum(n, (u: nat) =>
      if u < |uses| && uses[u].res < |sys.resources| && sys.resources[uses[u].res].isGlobal then InSections(uses[u]) else 0)
  {
    if n > 0 {
      GlobalUseIs(sys, uses, n - 1);
      var f := (u: nat) =>
        if u < |uses| && uses[u].res < |sys.resources| && sys.resources[uses[u].res].isGlobal then InSections(uses[u]) else 0;
      assert Sum(n, f) == Sum(n - 1, f) + f(n - 1);
    }
  }

  lemma OutsideIs(sys: System, i: nat)
    requires i < |sys.tasks| && TaskOk(sys, sys.tasks[i])
    ensures Outside(sys, i) == sys.tasks[i].wcet - GlobalUse(sys, sys.tasks[i].uses, |sys.tasks[i].uses|)
    ensures 0 <= Outside(sys, i) <= sys.tasks[i].wcrt && sys.tasks[i].period > 0
  {
    GlobalUseIs(sys, sys.tasks[i].uses, |sys.tasks[i].uses|);
  }

  /** The task and all before it in the list are more urgent than task `k`. */
  predicate Urgent(sys: System, k: nat, i: nat) {
    k < |sys.tasks| && i < |sys.tasks| && forall j :: 0 <= j <= i ==> sys.tasks[j].prio < sys.tasks[k].prio
  }

  /** Work of the jobs of task `i` that can preempt task `k` in a window of length `t`, outside global
      critical sections. A job may have been released early by as much as its response leaves. */
  function Preemption(sys: System, k: nat, t: nat, i: nat): nat {
    if Urgent(sys, k, i) && sys.tasks[i].cpu == sys.tasks[k].cpu
       && 0 <= Outside(sys, i) <= sys.tasks[i].wcrt && sys.tasks[i].period > 0
    then Jobs(t + sys.tasks[i].wcrt - Outside(sys, i), sys.tasks[i].period, Outside(sys, i)) else 0
  }

  lemma UrgentPrefix(sys: System, k: nat, i: nat)
    requires k < |sys.tasks| && i < |sys.tasks|
    ensures Urgent(sys, k, i) <==> i < Higher(sys, k, 0)
  {
    if Urgent(sys, k, i) { PassedBy(sys, k, 0, i); } 
  }

  lemma {:induction false} PassedBy(sys: System, k: nat, j: nat, i: nat)
    requires Urgent(sys, k, i) && j <= i
    ensures i < Higher(sys, k, j)
    decreases i - j
  {
    if j < i { PassedBy(sys, k, j + 1, i); }
  }

  lemma {:induction false} NonGlobalIs(sys: System, k: nat, t: nat, m: nat)
    requires Consistent(sys) && k < |sys.tasks| && m <= Higher(sys, k, 0)
    ensures NonGlobal(sys, k, t, m) == Sum(m, (i: nat) => Preemption(sys, k, t, i))
  {
    hide Load, Jobs, GlobalUse, Urgent, Outside, Preemption;
    if m > 0 {
      NonGlobalIs(sys, k, t, m - 1);
      PreemptionIs(sys, k, t, m - 1);
      var f := (i: nat) => Preemption(sys, k, t, i);
      assert Sum(m, f) == Sum(m - 1, f) + f(m - 1);
    }
  }

  lemma PreemptionIs(sys: System, k: nat, t: nat, i: nat)
    requires Consistent(sys) && k < |sys.tasks| && i < Higher(sys, k, 0)
    ensures var task := sys.tasks[i];
            var c := task.wcet - GlobalUse(sys, task.uses, |task.uses|);
            Preemption(sys, k, t, i) == if task.cpu == sys.tasks[k].cpu then Load(t + task.wcrt - c, task.period, c) else 0
  {
    OutsideIs(sys, i);
    UrgentPrefix(sys, k, i);
    var task := sys.tasks[i];
    LoadIs(t + task.wcrt - Outside(sys, i), task.period, Outside(sys, i));
    hide Load, Jobs, GlobalUse, Urgent, Outside, Consistent;
  }

  /** The preemption term is the work of all jobs of the more urgent tasks of the core, task by task and job
      by job. */
  lemma LatencyNgIs(sys: System, k: nat, t: nat)
    requires Consistent(sys) && k < |sys.tasks|
    ensures LatencyNg(sys, k, t) == Sum(|sys.tasks|, (i: nat) => Preemption(sys, k, t, i))
  {
    var f := (i: nat) => Preemption(sys, k, t, i);
    NonGlobalIs(sys, k, t, Higher(sys, k, 0));
    forall i: nat | Higher(sys, k, 0) <= i < |sys.tasks| ensures f(i) == 0 { UrgentPrefix(sys, k, i); }
    SumZero(Higher(sys, k, 0), |sys.tasks|, f);
  }

  /* ---- Time-triggered slots ---- */

  /** The slots are in order and start within the hyper-period. */
  predicate InOrder(timed: Timed) {
    && (forall j :: 0 <= j < |timed.slots| ==> timed.slots[j].0 < timed.hyper)
    && (forall i, j :: 0 <= i < j < |timed.slots| ==> timed.slots[i].0 <= timed.slots[j].0)
  }

  /** Work of the slots that start, in hyper-period `h`, from `from` on and before `to`. */
  function Started(timed: Timed, h: nat, from: nat, to: nat): nat {
    Sum(|timed.slots|, (j: nat) =>
      if j < |timed.slots| && from <= h * timed.hyper + timed.slots[j].0 < to then timed.slots[j].1 else 0)
  }

  lemma {:induction false} DurationsAre(timed: Timed, n: nat)
    requires n <= |timed.slots|
    ensures Durations(timed.slots, n) == Sum(n, (j: nat) => if j < |timed.slots| then timed.slots[j].1 else 0)
  {
    if n > 0 {
      DurationsAre(timed, n - 1);
      var f := (j: nat) => if j < |timed.slots| then timed.slots[j].1 else 0;
      assert Sum(n, f) == Sum(n - 1, f) + f(n - 1);
    }
  }

  /** Up to the first slot that starts too late, slots are summed. */
  lemma {:induction false} EpsilonIs(timed: Timed, t: nat, n: nat, f: nat -> nat)
    requires n <= |timed.slots| && InOrder(timed)
    requires forall j: nat :: j < |timed.slots| ==> f(j) == if timed.slots[j].0 < t then timed.slots[j].1 else 0
    ensures Sum(n, f) + Epsilon(timed.slots, t, n) == Sum(|timed.slots|, f) || (n > 0 && timed.slots[n - 1].0 >= t)
    decreases |timed.slots| - n
  {
    if n < |timed.slots| {
      if timed.slots[n].0 < t {
        EpsilonIs(timed, t, n + 1, f);
        assert Sum(n + 1, f) == Sum(n, f) + f(n);
      } else {
        SumZero(n, |timed.slots|, f);
      }
    }
  }

  lemma EpsilonCounts(timed: Timed, t: nat, h: nat)
    requires InOrder(timed)
    ensures Epsilon(timed.slots, t, 0) == Started(timed, h, 0, h * timed.hyper + t)
  {
    var base := h * timed.hyper;
    EpsilonIs(timed, t, 0, (j: nat) =>
      if j < |timed.slots| && 0 <= base + timed.slots[j].0 < base + t then timed.slots[j].1 else 0);
    SumSame(|timed.slots|,
            (j: nat) => if j < |timed.slots| && 0 <= base + timed.slots[j].0 < base + t then timed.slots[j].1 else 0,
            (j: nat) => if j < |timed.slots| && 0 <= h * timed.hyper + timed.slots[j].0 < base + t then timed.slots[j].1 else 0);
  }

  /** A hyper-period that is over has run all its slots. */
  lemma WholePeriod(timed: Timed, h: nat, x: nat)
    requires InOrder(timed) && TimedOk(timed) && (h + 1) * timed.hyper <= x
    ensures Started(timed, h, 0, x) == timed.sum
  {
    hide Durations, Sum;
    DurationsAre(timed, |timed.slots|);
    assert (h + 1) * timed.hyper == h * timed.hyper + timed.hyper;
    SumSame(|timed.slots|,
            (j: nat) => if j < |timed.slots| then timed.slots[j].1 else 0,
            (j: nat) => if j < |timed.slots| && 0 <= h * timed.hyper + timed.slots[j].0 < x then timed.slots[j].1 else 0);
  }

  lemma {:induction false} WholePeriods(timed: Timed, n: nat, x: nat)
    requires InOrder(timed) && TimedOk(timed) && n * timed.hyper <= x
    ensures timed.sum * n == Sum(n, (h: nat) => Started(timed, h, 0, x))
  {
    hide InOrder, TimedOk, Started;
    if n > 0 {
      var f := (h: nat) => Started(timed, h, 0, x);
      assert n * timed.hyper == (n - 1) * timed.hyper + timed.hyper;
      WholePeriods(timed, n - 1, x);
      WholePeriod(timed, n - 1, x);
      assert Sum(n, f) == Sum(n - 1, f) + f(n - 1);
      assert timed.sum * n == timed.sum * (n - 1) + timed.sum;
    }
  }

  /** Work up to `x` is that of all slots of all hyper-periods that start before `x`. */
  lemma WorkUpToIs(timed: Timed, x: nat)
    requires timed.hyper > 0 && InOrder(timed) && TimedOk(timed)
    ensures WorkUpTo(timed, x) == Sum(x / timed.hyper + 1, (h: nat) => Started(timed, h, 0, x))
  {
    var q, r := x / timed.hyper, x % timed.hyper;
    var f := (h: nat) => Started(timed, h, 0, x);
    assert x == q * timed.hyper + r;
    WholePeriods(timed, q, x);
    EpsilonCounts(timed, r, q);
    assert Sum(q + 1, f) == Sum(q, f) + f(q);
  }

  lemma {:induction false} SumAdd(n: nat, f: nat -> nat, g: nat -> nat, h: nat -> nat)
    requires forall i: nat :: i < n ==> h(i) == f(i) + g(i)
    ensures Sum(n, h) == Sum(n, f) + Sum(n, g)
  {
    if n > 0 { SumAdd(n - 1, f, g, h); }
  }

  lemma StartedSplit(timed: Timed, h: nat, v: nat, x: nat)
    requires v <= x
    ensures Started(timed, h, 0, x) == Started(timed, h, 0, v) + Started(timed, h, v, x)
  {
    SumAdd(|timed.slots|,
           (j: nat) => if j < |timed.slots| && 0 <= h * timed.hyper + timed.slots[j].0 < v then timed.slots[j].1 else 0,
           (j: nat) => if j < |timed.slots| && v <= h * timed.hyper + timed.slots[j].0 < x then timed.slots[j].1 else 0,
           (j: nat) => if j < |timed.slots| && 0 <= h * timed.hyper + timed.slots[j].0 < x then timed.slots[j].1 else 0);
  }

  lemma NothingBefore(timed: Timed, h: nat, v: nat)
    requires v <= h * timed.hyper
    ensures Started(timed, h, 0, v) == 0
  {
    SumZero(0, |timed.slots|,
            (j: nat) => if j < |timed.slots| && 0 <= h * timed.hyper + timed.slots[j].0 < v then timed.slots[j].1 else 0);
  }

  lemma {:induction false} FirstPeriodOnly(timed: Timed, n: nat, v: nat)
    requires v < timed.hyper
    ensures Sum(n + 1, (h: nat) => Started(timed, h, 0, v)) == Started(timed, 0, 0, v)
  {
    var f := (h: nat) => Started(timed, h, 0, v);
    assert Sum(n + 1, f) == Sum(n, f) + f(n);
    if n == 0 {
      assert Sum(0, f) == 0;
    } else {
      FirstPeriodOnly(timed, n - 1, v);
      MulMono(1, n, timed.hyper);
      NothingBefore(timed, n, v);
    }
  }

  /** The work in a window of length `t` that opens at `v` is that of the slots that start in it. */
  lemma WindowIs(timed: Timed, v: nat, t: nat)
    requires v < timed.hyper && InOrder(timed) && TimedOk(timed)
    ensures WindowWork(timed, v, t) == Sum((v + t) / timed.hyper + 1, (h: nat) => Started(timed, h, v, v + t))
  {
    hide Started, WorkUpTo, Epsilon, Sum, InOrder, TimedOk;
    var n := (v + t) / timed.hyper;
    var all, before, within := (h: nat) => Started(timed, h, 0, v + t), (h: nat) => Started(timed, h, 0, v),
                               (h: nat) => Started(timed, h, v, v + t);
    WorkUpToIs(timed, v + t);
    EpsilonCounts(timed, v, 0);
    FirstPeriodOnly(timed, n, v);
    WorkBeforeSlot(timed, v, t);
    forall h: nat ensures all(h) == before(h) + within(h) { StartedSplit(timed, h, v, v + t); }
    SumAdd(n + 1, before, within, all);
    assert 0 * timed.hyper + v == v;
  }

  /** The term of the slots is the largest such work over the windows that open with a slot. */
  lemma {:induction false} WorstIs(timed: Timed, t: nat, n: nat)
    requires n <= |timed.slots| && TimedOk(timed)
    ensures forall j :: 0 <= j < n ==> WindowWork(timed, timed.slots[j].0, t) <= WorstWindow(timed, t, n)
    ensures WorstWindow(timed, t, n) == 0
            || exists j :: 0 <= j < n && WindowWork(timed, timed.slots[j].0, t) == WorstWindow(timed, t, n)
  {
    hide WindowWork;
    if n > 0 { WorstIs(timed, t, n - 1); }
  }

  lemma LatencyTIs(timed: Timed, t: nat)
    requires TimedOk(timed)
    ensures forall j :: 0 <= j < |timed.slots| ==> WindowWork(timed, timed.slots[j].0, t) <= LatencyT(timed, t)
    ensures LatencyT(timed, t) == 0
            || exists j :: 0 <= j < |timed.slots| && WindowWork(timed, timed.slots[j].0, t) == LatencyT(timed, t)
  {
    WorstIs(timed, t, |timed.slots|);
  }

  /* ---- Global resources ---- */

  /** Work of the jobs of task `i` in its critical sections of resource `res`, in a window of length `t`. */
  function SectionWork(sys: System, i: nat, res: nat, t: nat, u: nat): nat {
    if i < |sys.tasks| && u < |sys.tasks[i].uses| && sys.tasks[i].uses[u].res == res && sys.tasks[i].period > 0
       && InSections(sys.tasks[i].uses[u]) <= sys.tasks[i].wcrt
    then Jobs(t + sys.tasks[i].wcrt - InSections(sys.tasks[i].uses[u]), sys.tasks[i].period, InSections(sys.tasks[i].uses[u]))
    else 0
  }

  function TaskWork(sys: System, i: nat, res: nat, t: nat): nat {
    if i < |sys.tasks| then Sum(|sys.tasks[i].uses|, (u: nat) => SectionWork(sys, i, res, t, u)) else 0
  }

  /** Work of all tasks but `k` on one resource, or of the tasks more urgent than it. */
  function OthersWork(sys: System, k: nat, res: nat, t: nat, urgentOnly: bool): nat {
    Sum(|sys.tasks|, (i: nat) => if i == k || (urgentOnly && !Urgent(sys, k, i)) then 0 else TaskWork(sys, i, res, t))
  }

  /** The same on all global resources of a core. */
  function CoreWork(sys: System, k: nat, core: nat, t: nat, urgentOnly: bool): nat {
    if core < |sys.globalOn|
    then Sum(|sys.globalOn[core]|, (x: nat) =>
           if x < |sys.globalOn[core]| then OthersWork(sys, k, sys.globalOn[core][x], t, urgentOnly) else 0)
    else 0
  }

  lemma {:induction false} InterferenceIs(sys: System, i: nat, res: nat, t: nat, n: nat)
    requires i < |sys.tasks| && TaskOk(sys, sys.tasks[i]) && n <= |sys.tasks[i].uses|
    ensures Interference(sys, sys.tasks[i], res, t, n) == Sum(n, (u: nat) => SectionWork(sys, i, res, t, u))
  {
    if n > 0 {
      InterferenceIs(sys, i, res, t, n - 1);
      var f := (u: nat) => SectionWork(sys, i, res, t, u);
      assert Sum(n, f) == Sum(n - 1, f) + f(n - 1);
      var task := sys.tasks[i];
      var c := Total(task.uses[n - 1]);
      assert c == InSections(task.uses[n - 1]);
      LoadIs(t + task.wcrt - c, task.period, c);
      hide Load, Jobs, GlobalUse, Total, InSections;
    }
  }

  lemma {:induction false} DemandIs(sys: System, k: nat, res: nat, t: nat, m: nat)
    requires Consistent(sys) && m <= |sys.tasks|
    ensures Demand(sys, k, res, t, m) == Sum(m, (i: nat) => if i == k then 0 else TaskWork(sys, i, res, t))
  {
    if m > 0 {
      DemandIs(sys, k, res, t, m - 1);
      var f := (i: nat) => if i == k then 0 else TaskWork(sys, i, res, t);
      assert Sum(m, f) == Sum(m - 1, f) + f(m - 1);
      assert TaskOk(sys, sys.tasks[m - 1]);
      InterferenceIs(sys, m - 1, res, t, |sys.tasks[m - 1].uses|);
      hide Interference, SectionWork, Consistent, TaskOk;
    }
  }

  /** All tasks, or the list up to the first that is not more urgent. */
  lemma OthersIs(sys: System, k: nat, res: nat, t: nat, urgentOnly: bool)
    requires Consistent(sys) && k < |sys.tasks|
    ensures Demand(sys, k, res, t, if urgentOnly then Higher(sys, k, 0) else |sys.tasks|) == OthersWork(sys, k, res, t, urgentOnly)
  {
    var m := if urgentOnly then Higher(sys, k, 0) else |sys.tasks|;
    var f := (i: nat) => if i == k then 0 else TaskWork(sys, i, res, t);
    var g := (i: nat) => if i == k || (urgentOnly && !Urgent(sys, k, i)) then 0 else TaskWork(sys, i, res, t);
    DemandIs(sys, k, res, t, m);
    forall i: nat | i < |sys.tasks| ensures Urgent(sys, k, i) <==> i < Higher(sys, k, 0) { UrgentPrefix(sys, k, i); }
    SumSame(m, f, g);
    SumZero(m, |sys.tasks|, g);
  }

  lemma {:induction false} CoreDemandIs(sys: System, k: nat, core: nat, t: nat, urgentOnly: bool, r: nat)
    requires Consistent(sys) && k < |sys.tasks| && core < |sys.globalOn| && r <= |sys.globalOn[core]|
    ensures CoreDemand(sys, k, core, t, if urgentOnly then Higher(sys, k, 0) else |sys.tasks|, r)
         == Sum(r, (x: nat) =>
              if x < |sys.globalOn[core]| then OthersWork(sys, k, sys.globalOn[core][x], t, urgentOnly) else 0)
  {
    if r > 0 {
      CoreDemandIs(sys, k, core, t, urgentOnly, r - 1);
      var f := (x: nat) =>
        if x < |sys.globalOn[core]| then OthersWork(sys, k, sys.globalOn[core][x], t, urgentOnly) else 0;
      assert Sum(r, f) == Sum(r - 1, f) + f(r - 1);
      OthersIs(sys, k, sys.globalOn[core][r - 1], t, urgentOnly);
      hide Demand, OthersWork, Consistent, Higher;
    }
  }

  /** The work of all other tasks on the global resources of a core, task by task, section by section and
      job by job. */
  lemma CoreWorkIs(sys: System, k: nat, core: nat, t: nat)
    requires Consistent(sys) && k < |sys.tasks| && core < |sys.globalOn|
    ensures CoreDemand(sys, k, core, t, |sys.tasks|, |sys.globalOn[core]|) == CoreWork(sys, k, core, t, false)
    ensures CoreDemand(sys, k, core, t, Higher(sys, k, 0), |sys.globalOn[core]|) == CoreWork(sys, k, core, t, true)
  {
    CoreDemandIs(sys, k, core, t, false, |sys.globalOn[core]|);
    CoreDemandIs(sys, k, core, t, true, |sys.globalOn[core]|);
  }

  /** One request waits for what it starts with, for the more urgent tasks on all global resources of the
      core, and for its slots. */
  lemma HgRhsIs(sys: System, k: nat, core: nat, start: nat, h: nat)
    requires Consistent(sys) && k < |sys.tasks| && core < |sys.globalOn|
    ensures HgRhs(sys, k, core, start, h) == start + CoreWork(sys, k, core, h, true) + LatencyT(sys.timed[core], h)
  {
    CoreWorkIs(sys, k, core, h);
    hide CoreDemand, CoreWork, WorstWindow, Higher;
  }

  /* ---- The longest critical sections ---- */

  /** A critical section of length `l` of a less urgent task, on a resource of the list that belongs to core
      `owner` and whose ceiling is more urgent than task `k`. */
  predicate HoldsUp(sys: System, k: nat, list: seq<nat>, owner: nat, x: nat, i: nat, u: nat, l: nat) {
    && k < |sys.tasks| && x < |list| && list[x] < |sys.resources| && i < |sys.tasks| && u < |sys.tasks[i].uses|
    && sys.resources[list[x]].cpu == owner && sys.resources[list[x]].ceiling < sys.tasks[k].prio
    && sys.tasks[i].prio > sys.tasks[k].prio && sys.tasks[i].uses[u].res == list[x] && l == sys.tasks[i].uses[u].len
  }

  lemma {:induction false} LongestUseIs(uses: seq<Use>, res: nat, n: nat, acc: nat)
    requires n <= |uses|
    ensures var m := LongestUse(uses, res, n, acc);
            && m >= acc && (forall u :: 0 <= u < n && uses[u].res == res ==> uses[u].len <= m)
            && (m == acc || exists u :: 0 <= u < n && uses[u].res == res && uses[u].len == m)
  {
    if n > 0 { LongestUseIs(uses, res, n - 1, acc); }
  }

  predicate Lower(sys: System, k: nat, res: nat, i: nat, u: nat) {
    && k < |sys.tasks| && i < |sys.tasks| && u < |sys.tasks[i].uses|
    && sys.tasks[i].prio > sys.tasks[k].prio && sys.tasks[i].uses[u].res == res
  }

  lemma {:induction false} LongestLowerIs(sys: System, k: nat, res: nat, n: nat, acc: nat)
    requires k < |sys.tasks| && n <= |sys.tasks|
    ensures var m := LongestLower(sys, k, res, n, acc);
            && m >= acc
            && (forall i: nat, u: nat :: i < n && Lower(sys, k, res, i, u) ==> sys.tasks[i].uses[u].len <= m)
            && (m == acc || exists i: nat, u: nat :: i < n && Lower(sys, k, res, i, u) && sys.tasks[i].uses[u].len == m)
  {
    hide LongestUse;
    if n > 0 {
      LongestLowerIs(sys, k, res, n - 1, acc);
      var rest := LongestLower(sys, k, res, n - 1, acc);
      LongestUseIs(sys.tasks[n - 1].uses, res, |sys.tasks[n - 1].uses|, rest);
      var m := LongestLower(sys, k, res, n, acc);
      if m != rest {
        var u: nat :| u < |sys.tasks[n - 1].uses| && sys.tasks[n - 1].uses[u].res == res && sys.tasks[n - 1].uses[u].len == m;
        assert Lower(sys, k, res, n - 1, u);
      }
    }
  }

  lemma LowerHoldsUp(sys: System, k: nat, list: seq<nat>, owner: nat, x: nat, i: nat, u: nat)
    requires x < |list| && list[x] < |sys.resources| && Lower(sys, k, list[x], i, u)
    requires sys.resources[list[x]].cpu == owner && sys.resources[list[x]].ceiling < sys.tasks[k].prio
    ensures HoldsUp(sys, k, list, owner, x, i, u, sys.tasks[i].uses[u].len)
  {
  }

  /** The longest critical section that can hold up a request is the longest of all that can. */
  lemma {:induction false} LongestGlobalIs(sys: System, k: nat, list: seq<nat>, owner: nat, r: nat, acc: nat)
    requires Consistent(sys) && k < |sys.tasks| && r <= |list| && ListOk(sys, list)
    ensures var m := LongestGlobal(sys, k, list, owner, r, acc);
            && m >= acc
            && (forall x: nat, i: nat, u: nat, l: nat :: x < r && HoldsUp(sys, k, list, owner, x, i, u, l) ==> l <= m)
            && (m == acc || exists x: nat, i: nat, u: nat :: x < r && HoldsUp(sys, k, list, owner, x, i, u, m))
  {
    hide LongestLower, Consistent;
    if r > 0 {
      LongestGlobalIs(sys, k, list, owner, r - 1, acc);
      var rest := LongestGlobal(sys, k, list, owner, r - 1, acc);
      LongestLowerIs(sys, k, list[r - 1], |sys.tasks|, rest);
      var m := LongestGlobal(sys, k, list, owner, r, acc);
      if m != acc && m != rest {
        var i: nat, u: nat :| Lower(sys, k, list[r - 1], i, u) && sys.tasks[i].uses[u].len == m;
        LowerHoldsUp(sys, k, list, owner, r - 1, i, u);
      }
    }
  }

  /** The use of a resource that counts is the last one listed; without one, what was found before stays. */
  lemma {:induction false} LastUseIs(uses: seq<Use>, res: nat, n: nat, before: (nat, nat), u: nat)
    requires u < n <= |uses| && uses[u].res == res && forall w :: u < w < n ==> uses[w].res != res
    ensures LastUse(uses, res, n, before) == (uses[u].count, uses[u].len)
  {
    if u < n - 1 { LastUseIs(uses, res, n - 1, before, u); }
  }

  lemma {:induction false} NoUse(uses: seq<Use>, res: nat, n: nat, before: (nat, nat))
    requires n <= |uses| && forall u :: 0 <= u < n ==> uses[u].res != res
    ensures LastUse(uses, res, n, before) == before
  {
    if n > 0 { NoUse(uses, res, n - 1, before); }
  }

  /* ---- What the task itself does on a core ---- */

  function OwnSections(uses: seq<Use>, res: nat): nat {
    Sum(|uses|, (u: nat) => if u < |uses| && uses[u].res == res then InSections(uses[u]) else 0)
  }

  lemma {:induction false} OwnUseIs(uses: seq<Use>, res: nat, n: nat)
    requires n <= |uses|
    ensures OwnUse(uses, res, n) == Sum(n, (u: nat) => if u < |uses| && uses[u].res == res then InSections(uses[u]) else 0)
  {
    if n > 0 {
      OwnUseIs(uses, res, n - 1);
      var f := (u: nat) => if u < |uses| && uses[u].res == res then InSections(uses[u]) else 0;
      assert Sum(n, f) == Sum(n - 1, f) + f(n - 1);
    }
  }

  /** Its own critical sections on all resources of a list, each as often as the list names it. */
  lemma {:induction false} OwnDemandIs(uses: seq<Use>, list: seq<nat>, r: nat)
    requires r <= |list|
    ensures OwnDemand(uses, list, r) == Sum(r, (x: nat) => if x < |list| then OwnSections(uses, list[x]) else 0)
  {
    if r > 0 {
      OwnDemandIs(uses, list, r - 1);
      OwnUseIs(uses, list[r - 1], |uses|);
      var f := (x: nat) => if x < |list| then OwnSections(uses, list[x]) else 0;
      assert Sum(r, f) == Sum(r - 1, f) + f(r - 1);
    }
  }

  /* ---- Blocking ---- */

  /** The number of requests for global resources. */
  lemma {:induction false} GlobalRequestsIs(sys: System, uses: seq<Use>, n: nat)
    requires n <= |uses| && UsesKnown(sys, uses)
    ensures GlobalRequests(sys, uses, n) == Sum(n, (u: nat) =>
      if u < |uses| && uses[u].res < |sys.resources| && sys.resources[uses[u].res].isGlobal then uses[u].count else 0)
  {
    if n > 0 {
      GlobalRequestsIs(sys, uses, n - 1);
      var f := (u: nat) =>
        if u < |uses| && uses[u].res < |sys.resources| && sys.resources[uses[u].res].isGlobal then uses[u].count else 0;
      assert Sum(n, f) == Sum(n - 1, f) + f(n - 1);
    }
  }

  /** A local critical section of length `l` of a task of the same core that, like all behind it in the list,
      is less urgent than task `k`, under a ceiling that is more urgent. */
  predicate Blocks(sys: System, k: nat, i: nat, u: nat, l: nat) {
    && k < |sys.tasks| && i < |sys.tasks| && u < |sys.tasks[i].uses| && sys.tasks[i].uses[u].res < |sys.resources|
    && (forall j :: i <= j < |sys.tasks| ==> sys.tasks[j].prio > sys.tasks[k].prio)
    && sys.tasks[i].cpu == sys.tasks[k].cpu
    && !sys.resources[sys.tasks[i].uses[u].res].isGlobal
    && sys.resources[sys.tasks[i].uses[u].res].ceiling < sys.tasks[k].prio
    && l == sys.tasks[i].uses[u].len
  }

  lemma {:induction false} LongestLocalIs(sys: System, uses: seq<Use>, prio: nat, n: nat, acc: nat)
    requires n <= |uses| && UsesKnown(sys, uses)
    ensures var m := LongestLocal(sys, uses, prio, n, acc);
            && m >= acc
            && (forall u :: 0 <= u < n && !sys.resources[uses[u].res].isGlobal && sys.resources[uses[u].res].ceiling < prio
                  ==> uses[u].len <= m)
            && (m == acc || (exists u :: 0 <= u < n && !sys.resources[uses[u].res].isGlobal
                                         && sys.resources[uses[u].res].ceiling < prio && uses[u].len == m))
  {
    if n > 0 { LongestLocalIs(sys, uses, prio, n - 1, acc); }
  }

  /** From position `j` down, with everything behind it less urgent. */
  lemma {:induction false} LongestBlockIs(sys: System, k: nat, j: nat, acc: nat)
    requires Consistent(sys) && k < |sys.tasks| && j <= |sys.tasks|
    requires forall i :: j <= i < |sys.tasks| ==> sys.tasks[i].prio > sys.tasks[k].prio
    ensures var m := LongestBlock(sys, k, j, acc);
            && m >= acc
            && (forall i: nat, u: nat, l: nat :: i < j && Blocks(sys, k, i, u, l) ==> l <= m)
            && (m == acc || exists i: nat, u: nat :: i < j && Blocks(sys, k, i, u, m))
  {
    if j > 0 && sys.tasks[j - 1].prio > sys.tasks[k].prio {
      var uses := sys.tasks[j - 1].uses;
      assert UsesKnown(sys, uses) by { assert TaskOk(sys, sys.tasks[j - 1]); }
      hide Consistent, LongestLocal;
      LongestLocalIs(sys, uses, sys.tasks[k].prio, |uses|, acc);
      var next := if sys.tasks[j - 1].cpu == sys.tasks[k].cpu
                  then LongestLocal(sys, uses, sys.tasks[k].prio, |uses|, acc) else acc;
      LongestBlockIs(sys, k, j - 1, next);
      var m := LongestBlock(sys, k, j - 1, next);
      if m == next && next != acc {
        var u :| 0 <= u < |uses| && !sys.resources[uses[u].res].isGlobal
                 && sys.resources[uses[u].res].ceiling < sys.tasks[k].prio && uses[u].len == next;
        assert Blocks(sys, k, j - 1, u, m);
      }
    }
  }

  /** The longest local critical section that can block the task, 0 if there is none. */
  ghost predicate LongestBlocking(sys: System, k: nat, m: nat) {
    && (forall i: nat, u: nat, l: nat :: Blocks(sys, k, i, u, l) ==> l <= m)
    && (m == 0 || exists i: nat, u: nat :: Blocks(sys, k, i, u, m))
  }

  /** The blocking term is that section, once for every global request, counted in a byte, and once more. */
  lemma LatencyBIs(sys: System, k: nat, longest: nat)
    requires Consistent(sys) && k < |sys.tasks|
    ensures exists m: nat :: LongestBlocking(sys, k, m)
    ensures LongestBlocking(sys, k, longest) ==>
              LatencyB(sys, k) == (GlobalRequests(sys, sys.tasks[k].uses, |sys.tasks[k].uses|) % 256 + 1) * longest
  {
    LongestBlockIs(sys, k, |sys.tasks|, 0);
    var m := LongestBlock(sys, k, |sys.tasks|, 0);
    hide Consistent, GlobalRequests, LongestBlock;
    assert forall i: nat, u: nat, l: nat :: Blocks(sys, k, i, u, l) ==> i < |sys.tasks|;
    hide Blocks;
    assert LongestBlocking(sys, k, m);
    if LongestBlocking(sys, k, longest) { assert longest == m; }
  }

  /* ---- Request by request, over all cores ---- */

  predicate Uses(uses: seq<Use>, res: nat) {
    exists u: nat :: u < |uses| && uses[u].res == res
  }

  /** By core `n - 1` the task has met a resource that it uses, on a core other than its own. */
  predicate Flagged(sys: System, k: nat, n: nat) {
    k < |sys.tasks| && n <= |sys.globalOn|
    && exists c: nat, x: nat :: c < n && c != sys.tasks[k].cpu && x < |sys.globalOn[c]|
                                && Uses(sys.tasks[k].uses, sys.globalOn[c][x])
  }

  /** The resources that are visited on the first `n` cores, with their cores, in order. */
  function Visits(sys: System, k: nat, n: nat): seq<(nat, nat)>
    requires k < |sys.tasks| && n <= |sys.globalOn|
  {
    if n == 0 then [] else
      Visits(sys, k, n - 1)
        + if n - 1 != sys.tasks[k].cpu && Flagged(sys, k, n)
          then seq(|sys.globalOn[n - 1]|, x requires 0 <= x < |sys.globalOn[n - 1]| => (n - 1, sys.globalOn[n - 1][x]))
          else []
  }

  /** Number and length of the task's requests at the last of the first `v` visits to a resource it uses. */
  function Requests(uses: seq<Use>, visits: seq<(nat, nat)>, v: nat): (nat, nat)
    requires v <= |visits|
  {
    if v == 0 then (0, 0)
    else if Uses(uses, visits[v - 1].1) then LastUse(uses, visits[v - 1].1, |uses|, (0, 0))
    else Requests(uses, visits, v - 1)
  }

  predicate Visited(sys: System, visits: seq<(nat, nat)>) {
    forall v :: 0 <= v < |visits| ==> visits[v].0 < |sys.globalOn| && visits[v].1 < |sys.resources|
  }

  /** The longest section that can hold the task up on any of the first `v` visits. */
  function LongestBy(sys: System, k: nat, visits: seq<(nat, nat)>, v: nat): nat
    requires Consistent(sys) && k < |sys.tasks| && Visited(sys, visits) && v <= |visits|
  {
    if v == 0 then 0 else
      var list := sys.globalOn[visits[v - 1].0];
      Max(LongestBy(sys, k, visits, v - 1), LongestGlobal(sys, k, list, sys.resources[visits[v - 1].1].cpu, |list|, 0))
  }

  /** The bound of the request made on visit `v`. */
  ghost function BoundAt(sys: System, k: nat, visits: seq<(nat, nat)>, v: nat): nat
    requires Consistent(sys) && k < |sys.tasks| && Visited(sys, visits) && v < |visits|
  {
    HgBound(sys, k, visits[v].0, Requests(sys.tasks[k].uses, visits, v + 1).1 + LongestBy(sys, k, visits, v + 1))
  }

  function Times(a: nat, b: nat): nat { a * b }

  /** What the requests made on the first `v` visits take together. */
  ghost function DelayBy(sys: System, k: nat, visits: seq<(nat, nat)>, v: nat): nat
    requires Consistent(sys) && k < |sys.tasks| && Visited(sys, visits) && v <= |visits|
  {
    if v == 0 then 0 else
      DelayBy(sys, k, visits, v - 1) + Times(Requests(sys.tasks[k].uses, visits, v).0, BoundAt(sys, k, visits, v - 1))
  }

  /** One of the first `v` requests misses the deadline. */
  ghost predicate MissesBy(sys: System, k: nat, visits: seq<(nat, nat)>, v: nat)
    requires Consistent(sys) && k < |sys.tasks| && Visited(sys, visits) && v <= |visits|
  {
    exists w :: 0 <= w < v && BoundAt(sys, k, visits, w) > sys.tasks[k].deadline
  }

  /** The walk has come to visit `v`. */
  ghost predicate Reached(sys: System, k: nat, visits: seq<(nat, nat)>, v: nat, d: Direct)
    requires Consistent(sys) && k < |sys.tasks| && Visited(sys, visits) && v <= |visits|
  {
    && (d.failed <==> MissesBy(sys, k, visits, v))
    && (!d.failed ==>
          && (d.count, d.len) == Requests(sys.tasks[k].uses, visits, v)
          && d.longest == LongestBy(sys, k, visits, v)
          && d.delay == DelayBy(sys, k, visits, v))
  }

  lemma {:induction false} LongestFrom(sys: System, k: nat, list: seq<nat>, owner: nat, r: nat, acc: nat)
    requires Consistent(sys) && k < |sys.tasks| && r <= |list| && ListOk(sys, list)
    ensures LongestGlobal(sys, k, list, owner, r, acc) == Max(acc, LongestGlobal(sys, k, list, owner, r, 0))
  {
    LongestGlobalIs(sys, k, list, owner, r, acc);
    LongestGlobalIs(sys, k, list, owner, r, 0);
    hide LongestGlobal, HoldsUp, Consistent;
  }

  lemma LastUseFrom(uses: seq<Use>, res: nat, n: nat, before: (nat, nat))
    requires n <= |uses|
    ensures LastUse(uses, res, n, before)
         == if exists u: nat :: u < n && uses[u].res == res then LastUse(uses, res, n, (0, 0)) else before
  {
  }

  lemma ReachesNext(sys: System, k: nat, visits: seq<(nat, nat)>, v: nat, d: Direct)
    requires Consistent(sys) && k < |sys.tasks| && Visited(sys, visits) && v < |visits|
    requires Reached(sys, k, visits, v, d) && !d.failed
    ensures Reached(sys, k, visits, v + 1, DirectStep(sys, k, visits[v].0, d, visits[v].1))
  {
    var core, res := visits[v].0, visits[v].1;
    var list, uses := sys.globalOn[core], sys.tasks[k].uses;
    AboutCore(sys, core);
    LongestFrom(sys, k, list, sys.resources[res].cpu, |list|, d.longest);
    LastUseFrom(uses, res, |uses|, (d.count, d.len));
    hide Consistent, LongestGlobal, LastUse, HgBound;
    assert Requests(uses, visits, v + 1) == LastUse(uses, res, |uses|, (d.count, d.len));
    assert LongestBy(sys, k, visits, v + 1) == LongestGlobal(sys, k, list, sys.resources[res].cpu, |list|, d.longest);
    hide Requests, LongestBy, Uses;
    assert MissesBy(sys, k, visits, v + 1) <==> MissesBy(sys, k, visits, v) || BoundAt(sys, k, visits, v) > sys.tasks[k].deadline;
    hide BoundAt, MissesBy;
  }

  lemma MissStays(sys: System, k: nat, visits: seq<(nat, nat)>, v: nat, w: nat, d: Direct)
    requires Consistent(sys) && k < |sys.tasks| && Visited(sys, visits) && v <= w <= |visits|
    requires Reached(sys, k, visits, v, d) && d.failed
    ensures Reached(sys, k, visits, w, d)
  {
    hide Consistent, BoundAt, Requests, LongestBy, DelayBy;
  }

  lemma {:induction false} VisitsKnown(sys: System, k: nat, n: nat)
    requires Consistent(sys) && k < |sys.tasks| && n <= |sys.globalOn|
    ensures Visited(sys, Visits(sys, k, n))
    decreases n
  {
    hide Flagged;
    if n > 0 {
      VisitsKnown(sys, k, n - 1);
      AboutCore(sys, n - 1);
      hide Consistent;
    }
  }

  lemma {:induction false} VisitsGrow(sys: System, k: nat, n: nat, m: nat)
    requires k < |sys.tasks| && n <= m <= |sys.globalOn|
    ensures |Visits(sys, k, n)| <= |Visits(sys, k, m)| && Visits(sys, k, m)[..|Visits(sys, k, n)|] == Visits(sys, k, n)
    decreases m - n
  {
    hide Flagged;
    if n < m { VisitsGrow(sys, k, n, m - 1); }
  }

  /** Where the visits of core `n` stand among all. */
  lemma VisitOn(sys: System, k: nat, n: nat, x: nat)
    requires k < |sys.tasks| && n < |sys.globalOn| && n != sys.tasks[k].cpu && Flagged(sys, k, n + 1) && x < |sys.globalOn[n]|
    ensures var all, base := Visits(sys, k, |sys.globalOn|), |Visits(sys, k, n)|;
            && base + |sys.globalOn[n]| == |Visits(sys, k, n + 1)| <= |all|
            && all[base + x] == (n, sys.globalOn[n][x])
  {
    VisitsGrow(sys, k, n + 1, |sys.globalOn|);
    var all, upTo := Visits(sys, k, |sys.globalOn|), Visits(sys, k, n + 1);
    assert all[..|upTo|][|Visits(sys, k, n)| + x] == upTo[|Visits(sys, k, n)| + x];
    hide Flagged;
  }

  lemma {:induction false} FlagStays(sys: System, k: nat, core: nat, d: Direct, r: nat)
    requires Consistent(sys) && k < |sys.tasks| && core < |sys.globalOn| && r <= |sys.globalOn[core]|
    ensures DirectOn(sys, k, core, d, r).flag == d.flag
  {
    hide Consistent, LongestGlobal, LastUse, HgBound;
    if r > 0 { FlagStays(sys, k, core, d, r - 1); }
  }

  lemma {:induction false} ReachesOn(sys: System, k: nat, n: nat, d: Direct, r: nat)
    requires Consistent(sys) && k < |sys.tasks| && n < |sys.globalOn| && n != sys.tasks[k].cpu && Flagged(sys, k, n + 1)
    requires r <= |sys.globalOn[n]|
    requires var all := Visits(sys, k, |sys.globalOn|);
             Visited(sys, all) && |Visits(sys, k, n)| <= |all| && Reached(sys, k, all, |Visits(sys, k, n)|, d) && !d.failed
    ensures var all, base := Visits(sys, k, |sys.globalOn|), |Visits(sys, k, n)|;
            base + r <= |all| && Reached(sys, k, all, base + r, DirectOn(sys, k, n, d, r))
  {
    hide Reached, DirectStep, Flagged, Visits, Consistent, Visited;
    var all, base := Visits(sys, k, |sys.globalOn|), |Visits(sys, k, n)|;
    if r > 0 {
      ReachesOn(sys, k, n, d, r - 1);
      VisitOn(sys, k, n, r - 1);
      var e := DirectOn(sys, k, n, d, r - 1);
      if e.failed { MissStays(sys, k, all, base + (r - 1), base + r, e); } else { ReachesNext(sys, k, all, base + (r - 1), e); }
    }
  }

  lemma FlaggedStep(sys: System, k: nat, n: nat)
    requires k < |sys.tasks| && 0 < n <= |sys.globalOn|
    ensures Flagged(sys, k, n) <==>
      Flagged(sys, k, n - 1) || (n - 1 != sys.tasks[k].cpu && UsesOne(sys.tasks[k].uses, sys.globalOn[n - 1]))
  {
    var uses, list := sys.tasks[k].uses, sys.globalOn[n - 1];
    if n - 1 != sys.tasks[k].cpu && UsesOne(uses, list) {
      var u :| u in uses && u.res in list;
      var i: nat :| i < |uses| && uses[i] == u;
      var x: nat :| x < |list| && list[x] == u.res;
      assert Uses(uses, list[x]);
    }
  }

  /** The walk over the first `n` cores has come to the end of their visits. */
  ghost predicate Walked(sys: System, k: nat, n: nat, d: Direct)
    requires Consistent(sys) && k < |sys.tasks| && n <= |sys.globalOn|
  {
    var all := Visits(sys, k, |sys.globalOn|);
    && Visited(sys, all) && |Visits(sys, k, n)| <= |all| && Reached(sys, k, all, |Visits(sys, k, n)|, d)
    && (!d.failed ==> (d.flag <==> Flagged(sys, k, n)))
  }

  lemma {:induction false} WalkReaches(sys: System, k: nat, n: nat)
    requires Consistent(sys) && k < |sys.tasks| && n <= |sys.globalOn|
    ensures Walked(sys, k, n, DirectUpTo(sys, k, n))
  {
    hide Consistent, Walked, DirectOn, UsesOne;
    if n == 0 { WalkBegins(sys, k); } else {
      WalkReaches(sys, k, n - 1);
      WalkStep(sys, k, n, DirectUpTo(sys, k, n - 1));
    }
  }

  lemma WalkBegins(sys: System, k: nat)
    requires Consistent(sys) && k < |sys.tasks|
    ensures Walked(sys, k, 0, Direct(false, 0, 0, 0, 0, false))
  {
    VisitsKnown(sys, k, |sys.globalOn|);
    VisitsGrow(sys, k, 0, |sys.globalOn|);
    var all := Visits(sys, k, |sys.globalOn|);
    assert !MissesBy(sys, k, all, 0);
    hide Consistent, Visited;
  }

  lemma WalkStep(sys: System, k: nat, n: nat, d: Direct)
    requires Consistent(sys) && k < |sys.tasks| && 0 < n <= |sys.globalOn| && Walked(sys, k, n - 1, d)
    ensures Walked(sys, k, n,
      if d.failed || n - 1 == sys.tasks[k].cpu then d
      else if d.flag || UsesOne(sys.tasks[k].uses, sys.globalOn[n - 1])
      then DirectOn(sys, k, n - 1, d.(flag := true), |sys.globalOn[n - 1]|) else d)
  {
    hide Consistent, Flagged, DirectOn, UsesOne, Visited, Reached;
    var all := Visits(sys, k, |sys.globalOn|);
    VisitsGrow(sys, k, n, |sys.globalOn|);
    VisitsGrow(sys, k, n - 1, n);
    FlaggedStep(sys, k, n);
    if d.failed {
      MissStays(sys, k, all, |Visits(sys, k, n - 1)|, |Visits(sys, k, n)|, d);
      StillFailed(sys, k, all, |Visits(sys, k, n)|, d);
    } else if n - 1 != sys.tasks[k].cpu && Flagged(sys, k, n) {
      Reflagged(sys, k, all, |Visits(sys, k, n - 1)|, d);
      ReachesOn(sys, k, n - 1, d.(flag := true), |sys.globalOn[n - 1]|);
      FlagStays(sys, k, n - 1, d.(flag := true), |sys.globalOn[n - 1]|);
      EndOfVisits(sys, k, n);
    }
  }

  lemma StillFailed(sys: System, k: nat, visits: seq<(nat, nat)>, v: nat, d: Direct)
    requires Consistent(sys) && k < |sys.tasks| && Visited(sys, visits) && v <= |visits| && Reached(sys, k, visits, v, d)
    ensures d.failed <==> MissesBy(sys, k, visits, v)
  {
    hide Consistent;
  }

  lemma Reflagged(sys: System, k: nat, visits: seq<(nat, nat)>, v: nat, d: Direct)
    requires Consistent(sys) && k < |sys.tasks| && Visited(sys, visits) && v <= |visits| && Reached(sys, k, visits, v, d)
    ensures Reached(sys, k, visits, v, d.(flag := true))
  {
    hide Consistent, MissesBy, DelayBy, LongestBy, Requests;
  }

  lemma EndOfVisits(sys: System, k: nat, n: nat)
    requires k < |sys.tasks| && 0 < n <= |sys.globalOn| && n - 1 != sys.tasks[k].cpu && Flagged(sys, k, n)
    ensures |Visits(sys, k, n)| == |Visits(sys, k, n - 1)| + |sys.globalOn[n - 1]|
  {
    hide Flagged;
  }

  /** What the walk has found out at core `n`, if no request missed the deadline. */
  lemma WalkFinds(sys: System, k: nat, n: nat)
    requires Consistent(sys) && k < |sys.tasks| && n <= |sys.globalOn|
    ensures var all, d := Visits(sys, k, |sys.globalOn|), DirectUpTo(sys, k, n);
            && Visited(sys, all) && |Visits(sys, k, n)| <= |all|
            && (d.failed <==> MissesBy(sys, k, all, |Visits(sys, k, n)|))
            && (!d.failed ==> (d.flag <==> Flagged(sys, k, n)) && d.delay == DelayBy(sys, k, all, |Visits(sys, k, n)|))
  {
    hide Consistent, DirectUpTo, Flagged, MissesBy, DelayBy, Visited, Requests, LongestBy, Visits;
    WalkReaches(sys, k, n);
  }

  /** Pooled demand: on every remote core from the first that the task uses a resource of, what the task and all
      others do there, and the slots. */
  function PoolOn(sys: System, k: nat, t: nat, c: nat): nat {
    if k < |sys.tasks| && c < |sys.globalOn| && c != sys.tasks[k].cpu && Flagged(sys, k, c + 1)
       && c < |sys.timed| && TimedOk(sys.timed[c])
    then Sum(|sys.globalOn[c]|, (x: nat) =>
               if x < |sys.globalOn[c]| then OwnSections(sys.tasks[k].uses, sys.globalOn[c][x]) else 0)
           + CoreWork(sys, k, c, t, false) + LatencyT(sys.timed[c], t)
    else 0
  }

  lemma {:induction false} PooledIs(sys: System, k: nat, t: nat, n: nat)
    requires Consistent(sys) && k < |sys.tasks| && n <= |sys.globalOn| && !DirectUpTo(sys, k, n).failed
    ensures Pooled(sys, k, t, n) == Sum(n, (c: nat) => PoolOn(sys, k, t, c))
  {
    hide Consistent, DirectUpTo, PoolOn, CoreDemand, OwnDemand, WorstWindow;
    if n > 0 {
      NotFailedBefore(sys, k, n);
      PooledIs(sys, k, t, n - 1);
      PoolOnIs(sys, k, t, n - 1);
      var f := (c: nat) => PoolOn(sys, k, t, c);
      assert Sum(n, f) == Sum(n - 1, f) + f(n - 1);
      AboutCore(sys, n - 1);
    }
  }

  lemma PoolOnIs(sys: System, k: nat, t: nat, c: nat)
    requires Consistent(sys) && k < |sys.tasks| && c < |sys.globalOn| && !DirectUpTo(sys, k, c + 1).failed
    ensures c < |sys.timed| && TimedOk(sys.timed[c])
    ensures PoolOn(sys, k, t, c) ==
      if c == sys.tasks[k].cpu || !DirectUpTo(sys, k, c + 1).flag then 0
      else OwnDemand(sys.tasks[k].uses, sys.globalOn[c], |sys.globalOn[c]|)
           + CoreDemand(sys, k, c, t, |sys.tasks|, |sys.globalOn[c]|) + LatencyT(sys.timed[c], t)
  {
    hide Consistent, DirectUpTo, CoreDemand, OwnDemand, WorstWindow, CoreWork, OwnSections, Flagged, Visits, MissesBy, DelayBy;
    WalkFinds(sys, k, c + 1);
    CoreWorkIs(sys, k, c, t);
    OwnDemandIs(sys.tasks[k].uses, sys.globalOn[c], |sys.globalOn[c]|);
    AboutCore(sys, c);
  }

  lemma NotFailedBefore(sys: System, k: nat, n: nat)
    requires Consistent(sys) && k < |sys.tasks| && 0 < n <= |sys.globalOn| && !DirectUpTo(sys, k, n).failed
    ensures !DirectUpTo(sys, k, n - 1).failed
  {
    hide DirectOn, Consistent;
  }

  /** The wait for global resources that core `c` adds: on the task's own core the work of all others on its
      resources; on a remote one the smaller of the pooled demand and the delay of the requests, both counted
      from the first core on. */
  ghost function WaitOn(sys: System, k: nat, t: nat, c: nat): nat
    requires Consistent(sys) && k < |sys.tasks| && c < |sys.globalOn|
  {
    VisitsKnown(sys, k, |sys.globalOn|);
    VisitsGrow(sys, k, c + 1, |sys.globalOn|);
    if c == sys.tasks[k].cpu then CoreWork(sys, k, c, t, false)
    else if Flagged(sys, k, c + 1)
    then Min(Sum(c + 1, (b: nat) => PoolOn(sys, k, t, b)),
             DelayBy(sys, k, Visits(sys, k, |sys.globalOn|), |Visits(sys, k, c + 1)|))
    else 0
  }

  ghost function Waits(sys: System, k: nat, t: nat, n: nat): nat
    requires Consistent(sys) && k < |sys.tasks| && n <= |sys.globalOn|
  {
    if n == 0 then 0 else Waits(sys, k, t, n - 1) + WaitOn(sys, k, t, n - 1)
  }

  lemma {:induction false} GlobalDelayIs(sys: System, k: nat, t: nat, n: nat)
    requires Consistent(sys) && k < |sys.tasks| && n <= |sys.globalOn| && !DirectUpTo(sys, k, n).failed
    ensures GlobalDelay(sys, k, t, n) == Waits(sys, k, t, n)
  {
    hide Consistent, DirectUpTo, CoreDemand, Pooled, WaitOn;
    if n > 0 {
      NotFailedBefore(sys, k, n);
      GlobalDelayIs(sys, k, t, n - 1);
      WaitOnIs(sys, k, t, n - 1);
    }
  }

  lemma WaitOnIs(sys: System, k: nat, t: nat, c: nat)
    requires Consistent(sys) && k < |sys.tasks| && c < |sys.globalOn| && !DirectUpTo(sys, k, c + 1).failed
    ensures WaitOn(sys, k, t, c) ==
      if c == sys.tasks[k].cpu then CoreDemand(sys, k, c, t, |sys.tasks|, |sys.globalOn[c]|)
      else if DirectUpTo(sys, k, c + 1).flag then Min(Pooled(sys, k, t, c + 1), DirectUpTo(sys, k, c + 1).delay)
      else 0
  {
    hide Consistent, DirectUpTo, CoreDemand, CoreWork, Flagged, Visits, Pooled, DelayBy, MissesBy, PoolOn;
    WalkFinds(sys, k, c + 1);
    CoreWorkIs(sys, k, c, t);
    PooledIs(sys, k, t, c + 1);
  }

  /** The wait for global resources: the sum of these over the cores, if every request meets the deadline, and
      deadline + 100 as soon as one does not. */
  lemma LatencyGIs(sys: System, k: nat, t: nat)
    requires Consistent(sys) && k < |sys.tasks|
    ensures Visited(sys, Visits(sys, k, |sys.globalOn|))
    ensures LatencyG(sys, k, t) ==
      var all := Visits(sys, k, |sys.globalOn|);
      if MissesBy(sys, k, all, |all|) then sys.tasks[k].deadline + 100 else Waits(sys, k, t, |sys.globalOn|)
  {
    hide Consistent, DirectUpTo, GlobalDelay, Waits, Visits, MissesBy, DelayBy, Flagged;
    WalkFinds(sys, k, |sys.globalOn|);
    if !DirectUpTo(sys, k, |sys.globalOn|).failed { GlobalDelayIs(sys, k, t, |sys.globalOn|); }
  }

  /* ---- The equation, and what happens without a solution ---- */

  /** The right-hand side: the task's own execution, the jobs that preempt it, the slots of its core, and the
      wait for global resources. */
  lemma RhsIs(sys: System, k: nat, x: nat)
    requires Consistent(sys) && k < |sys.tasks|
    ensures Visited(sys, Visits(sys, k, |sys.globalOn|))
    ensures var all := Visits(sys, k, |sys.globalOn|);
            Rhs(sys, k, x) == sys.tasks[k].wcet + Sum(|sys.tasks|, (i: nat) => Preemption(sys, k, x, i))
              + LatencyT(sys.timed[sys.tasks[k].cpu], x)
              + if MissesBy(sys, k, all, |all|) then sys.tasks[k].deadline + 100 else Waits(sys, k, x, |sys.globalOn|)
  {
    LatencyNgIs(sys, k, x);
    LatencyGIs(sys, k, x);
    hide LatencyNg, LatencyG, Sum, Visits, Waits, MissesBy, WorstWindow, Consistent, Visited;
  }

  /** Without a solution within the deadline a request counts as deadline + 100. */
  lemma RequestRejected(sys: System, k: nat, core: nat, start: nat)
    requires Consistent(sys) && k < |sys.tasks| && core < |sys.globalOn|
    requires forall h: nat :: h <= sys.tasks[k].deadline ==> !HgLeast(sys, k, core, start, h)
    ensures HgBound(sys, k, core, start) == sys.tasks[k].deadline + 100
  {
    hide HgLeast, Consistent;
  }

  /** So does the verdict, and also when blocking alone exceeds the deadline. */
  lemma TaskRejected(sys: System, k: nat)
    requires Consistent(sys) && k < |sys.tasks|
    requires LatencyB(sys, k) > sys.tasks[k].deadline || forall x: nat :: x <= sys.tasks[k].deadline ==> !Least(sys, k, x)
    ensures Response(sys, k) == sys.tasks[k].deadline + 100
  {
    hide Least, Consistent, LatencyB;
  }
}
