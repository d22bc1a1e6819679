/** Response-time analysis of the admission controller: the equations, their monotonicity, and the
    fixed points that the iterations must find. Ceilings and floors are exact. */
module ResponseTime {
  /** How often a task enters the critical sections of a resource, and the longest of them. */
  datatype Use = Use(res: nat, count: nat, len: nat)

  datatype Task = Task(cpu: nat, deadline: nat, wcet: nat, wcrt: nat, period: nat, prio: nat,
                       uses: seq<Use>, isNew: bool)

  /** `isGlobal` and `ceiling` are the cached attributes; `cpu` is the core that owns the resource. */
  datatype Resource = Resource(cpu: nat, isGlobal: bool, ceiling: nat)

  /** The time-triggered slots of one core, (start, duration) in list order, its hyper-period, and
      the precomputed sum of the durations. */
  datatype Timed = Timed(slots: seq<(nat, nat)>, hyper: nat, sum: nat)

  /** `globalOn[i]` lists the global resources of core `i`; smaller `prio` is more urgent. */
  datatype System = System(tasks: seq<Task>, resources: seq<Resource>,
                           globalOn: seq<seq<nat>>, timed: seq<Timed>)

  function Total(u: Use): nat { u.count * u.len }

  /** Time a task spends in global critical sections, over its first `n` uses. */
  function GlobalUse(sys: System, uses: seq<Use>, n: nat): nat
    requires n <= |uses| && UsesKnown(sys, uses)
  {
    if n == 0 then 0 else
      GlobalUse(sys, uses, n - 1) + if sys.resources[uses[n - 1].res].isGlobal then Total(uses[n - 1]) else 0
  }

  predicate UsesKnown(sys: System, uses: seq<Use>) {
    forall i :: 0 <= i < |uses| ==> uses[i].res < |sys.resources|
  }

  /** Critical sections are part of the execution time, and no response is shorter than its execution. */
  predicate TaskOk(sys: System, task: Task) {
    && task.period > 0
    && task.wcet <= task.wcrt
    && UsesKnown(sys, task.uses)
    && GlobalUse(sys, task.uses, |task.uses|) <= task.wcet
    && (forall i :: 0 <= i < |task.uses| ==> Total(task.uses[i]) <= task.wcet)
    && task.cpu < |sys.globalOn|
  }

  function Durations(slots: seq<(nat, nat)>, n: nat): nat
    requires n <= |slots|
  {
    if n == 0 then 0 else Durations(slots, n - 1) + slots[n - 1].1
  }

  predicate TimedOk(timed: Timed) {
    && (timed.slots != [] ==> timed.hyper > 0)
    && timed.sum == Durations(timed.slots, |timed.slots|)
  }

  predicate ListOk(sys: System, list: seq<nat>) {
    forall i :: 0 <= i < |list| ==> list[i] < |sys.resources|
  }

  /** The tables the analysis may be run on. */
  predicate Consistent(sys: System) {
    && |sys.timed| == |sys.globalOn|
    && (forall i :: 0 <= i < |sys.tasks| ==> TaskOk(sys, sys.tasks[i]))
    && (forall i :: 0 <= i < |sys.timed| ==> TimedOk(sys.timed[i]))
    && (forall i :: 0 <= i < |sys.globalOn| ==> ListOk(sys, sys.globalOn[i]))
  }

  function Max(a: nat, b: nat): nat { if b > a then b else a }

  function Min(a: nat, b: nat): nat { if a < b then a else b }

  /** Jobs released in a window of length `x`. */
  function Ceil(x: nat, period: nat): nat
    requires period > 0
  {
    (x + period - 1) / period
  }

  /** Load that jobs of demand `c` put into a window of length `x`. */
  function Load(x: nat, period: nat, c: nat): nat
    requires period > 0
  {
    Ceil(x, period) * c
  }

  lemma DivMono(x: nat, y: nat, d: nat)
    requires d > 0 && x <= y
    ensures x / d <= y / d
  {
    var q, r := x / d, y / d;
    if q > r {
      assert d * q >= d * (r + 1) by { MulMono(r + 1, q, d); }
    }
  }

  lemma MulMono(a: nat, b: nat, c: nat)
    requires a <= b
    ensures a * c <= b * c && c * a <= c * b
  {
  }

  lemma LoadMono(x: nat, y: nat, period: nat, c: nat)
    requires period > 0 && x <= y
    ensures Load(x, period, c) <= Load(y, period, c)
  {
    DivMono(x + period - 1, y + period - 1, period);
    MulMono(Ceil(x, period), Ceil(y, period), c);
  }

  /* ---- Time-triggered work ---- */

  /** Time-triggered work of the leading slots that start before `t`. */
  function Epsilon(slots: seq<(nat, nat)>, t: nat, n: nat): nat
    requires n <= |slots|
    decreases |slots| - n
  {
    if n < |slots| && slots[n].0 < t then slots[n].1 + Epsilon(slots, t, n + 1) else 0
  }

  lemma {:induction false} EpsilonMono(slots: seq<(nat, nat)>, t: nat, t': nat, n: nat)
    requires n <= |slots| && t <= t'
    ensures Epsilon(slots, t, n) <= Epsilon(slots, t', n)
    decreases |slots| - n
  {
    if n < |slots| { EpsilonMono(slots, t, t', n + 1); }
  }

  lemma {:induction false} EpsilonBounded(slots: seq<(nat, nat)>, t: nat, n: nat)
    requires n <= |slots|
    ensures Epsilon(slots, t, n) <= Durations(slots, |slots|) - Durations(slots, n)
    decreases |slots| - n
  {
    if n < |slots| { EpsilonBounded(slots, t, n + 1); } 
  }

  /** Time-triggered work released from the start of a hyper-period up to `x`. */
  function WorkUpTo(timed: Timed, x: nat): nat
    requires timed.hyper > 0
  {
    timed.sum * (x / timed.hyper) + Epsilon(timed.slots, x % timed.hyper, 0)
  }

  lemma WorkUpToMono(timed: Timed, x: nat, y: nat)
    requires timed.hyper > 0 && TimedOk(timed) && x <= y
    ensures WorkUpTo(timed, x) <= WorkUpTo(timed, y)
  {
    var q, r := x / timed.hyper, y / timed.hyper;
    DivMono(x, y, timed.hyper);
    if q == r {
      EpsilonMono(timed.slots, x % timed.hyper, y % timed.hyper, 0);
    } else {
      EpsilonBounded(timed.slots, x % timed.hyper, 0);
      MulMono(q + 1, r, timed.sum);
      assert timed.sum * (q + 1) == timed.sum * q + timed.sum;
    }
  }

  lemma DivModSmall(x: nat, d: nat)
    requires x < d
    ensures x / d == 0 && x % d == x
  {
  }

  lemma WorkBeforeSlot(timed: Timed, v: nat, t: nat)
    requires timed.hyper > 0 && TimedOk(timed)
    ensures Epsilon(timed.slots, v, 0) <= WorkUpTo(timed, v + t)
  {
    EpsilonBounded(timed.slots, v, 0);
    if v + t < timed.hyper {
      DivModSmall(v + t, timed.hyper);
      EpsilonMono(timed.slots, v, v + t, 0);
    } else {
      DivMono(timed.hyper, v + t, timed.hyper);
      MulMono(1, (v + t) / timed.hyper, timed.sum);
    }
  }

  /** Time-triggered work in a window of length `t` that opens when a slot starts at `v`. */
  function WindowWork(timed: Timed, v: nat, t: nat): nat
    requires timed.hyper > 0 && TimedOk(timed)
  {
    WorkBeforeSlot(timed, v, t);
    WorkUpTo(timed, v + t) - Epsilon(timed.slots, v, 0)
  }

  /** The worst such window over the first `n` slots. */
  function WorstWindow(timed: Timed, t: nat, n: nat): nat
    requires n <= |timed.slots| && TimedOk(timed)
  {
    if n == 0 then 0 else Max(WorstWindow(timed, t, n - 1), WindowWork(timed, timed.slots[n - 1].0, t))
  }

  function LatencyT(timed: Timed, t: nat): nat
    requires TimedOk(timed)
  {
    WorstWindow(timed, t, |timed.slots|)
  }

  lemma {:induction false} WorstWindowMono(timed: Timed, t: nat, t': nat, n: nat)
    requires n <= |timed.slots| && TimedOk(timed) && t <= t'
    ensures WorstWindow(timed, t, n) <= WorstWindow(timed, t', n)
  {
    if n > 0 {
      WorstWindowMono(timed, t, t', n - 1);
      WorkUpToMono(timed, timed.slots[n - 1].0 + t, timed.slots[n - 1].0 + t');
    }
  }

  /* ---- Demand of other tasks ---- */

  /** Demand that the first `n` uses of a task put on a resource in a window of length `t`. */
  function Interference(sys: System, task: Task, res: nat, t: nat, n: nat): nat
    requires TaskOk(sys, task) && n <= |task.uses|
  {
    if n == 0 then 0 else
      var u := task.uses[n - 1];
      Interference(sys, task, res, t, n - 1)
        + if u.res == res then Load(t + task.wcrt - Total(u), task.period, Total(u)) else 0
  }

  /** Demand on a resource of the first `m` tasks, leaving out task `k`. */
  function Demand(sys: System, k: nat, res: nat, t: nat, m: nat): nat
    requires Consistent(sys) && m <= |sys.tasks|
  {
    if m == 0 then 0 else
      Demand(sys, k, res, t, m - 1)
        + if m - 1 == k then 0 else Interference(sys, sys.tasks[m - 1], res, t, |sys.tasks[m - 1].uses|)
  }

  /** Demand on the first `r` global resources of a core. */
  function CoreDemand(sys: System, k: nat, core: nat, t: nat, m: nat, r: nat): nat
    requires Consistent(sys) && m <= |sys.tasks| && core < |sys.globalOn| && r <= |sys.globalOn[core]|
  {
    if r == 0 then 0 else
      CoreDemand(sys, k, core, t, m, r - 1) + Demand(sys, k, sys.globalOn[core][r - 1], t, m)
  }

  lemma {:induction false} InterferenceMono(sys: System, task: Task, res: nat, t: nat, t': nat, n: nat)
    requires TaskOk(sys, task) && n <= |task.uses| && t <= t'
    ensures Interference(sys, task, res, t, n) <= Interference(sys, task, res, t', n)
  {
    if n > 0 {
      hide Total, Load;
      InterferenceMono(sys, task, res, t, t', n - 1);
      var u := task.uses[n - 1];
      LoadMono(t + task.wcrt - Total(u), t' + task.wcrt - Total(u), task.period, Total(u));
    }
  }

  lemma {:induction false} DemandMono(sys: System, k: nat, res: nat, t: nat, t': nat, m: nat)
    requires Consistent(sys) && m <= |sys.tasks| && t <= t'
    ensures Demand(sys, k, res, t, m) <= Demand(sys, k, res, t', m)
  {
    if m > 0 {
      DemandMono(sys, k, res, t, t', m - 1);
      InterferenceMono(sys, sys.tasks[m - 1], res, t, t', |sys.tasks[m - 1].uses|);
    }
  }

  lemma {:induction false} CoreDemandMono(sys: System, k: nat, core: nat, t: nat, t': nat, m: nat, r: nat)
    requires Consistent(sys) && m <= |sys.tasks| && core < |sys.globalOn| && r <= |sys.globalOn[core]| && t <= t'
    ensures CoreDemand(sys, k, core, t, m, r) <= CoreDemand(sys, k, core, t', m, r)
  {
    if r > 0 {
      CoreDemandMono(sys, k, core, t, t', m, r - 1);
      DemandMono(sys, k, sys.globalOn[core][r - 1], t, t', m);
    }
  }

  /** The walk over the task list stops here: the first task at or after `j` that is not more urgent. */
  function Higher(sys: System, k: nat, j: nat): (m: nat)
    requires k < |sys.tasks| && j <= |sys.tasks|
    ensures j <= m <= |sys.tasks|
    ensures forall i :: j <= i < m ==> sys.tasks[i].prio < sys.tasks[k].prio
    ensures j <= k ==> m <= k
    decreases |sys.tasks| - j
  {
    if j < |sys.tasks| && sys.tasks[j].prio < sys.tasks[k].prio then Higher(sys, k, j + 1) else j
  }

  /** Preemption of task `k` outside global critical sections by the first `m` tasks. */
  function NonGlobal(sys: System, k: nat, t: nat, m: nat): nat
    requires Consistent(sys) && k < |sys.tasks| && m <= |sys.tasks|
  {
    if m == 0 then 0 else
      var task := sys.tasks[m - 1];
      var c := task.wcet - GlobalUse(sys, task.uses, |task.uses|);
      NonGlobal(sys, k, t, m - 1)
        + if task.cpu == sys.tasks[k].cpu then Load(t + task.wcrt - c, task.period, c) else 0
  }

  function LatencyNg(sys: System, k: nat, t: nat): nat
    requires Consistent(sys) && k < |sys.tasks|
  {
    NonGlobal(sys, k, t, Higher(sys, k, 0))
  }

  lemma {:induction false} NonGlobalMono(sys: System, k: nat, t: nat, t': nat, m: nat)
    requires Consistent(sys) && k < |sys.tasks| && m <= |sys.tasks| && t <= t'
    ensures NonGlobal(sys, k, t, m) <= NonGlobal(sys, k, t', m)
  {
    if m > 0 {
      hide Load, GlobalUse;
      NonGlobalMono(sys, k, t, t', m - 1);
      var task := sys.tasks[m - 1];
      var c := task.wcet - GlobalUse(sys, task.uses, |task.uses|);
      LoadMono(t + task.wcrt - c, t' + task.wcrt - c, task.period, c);
    }
  }

  /* ---- One request for a global resource ---- */

  function HgRhs(sys: System, k: nat, core: nat, start: nat, h: nat): nat
    requires Consistent(sys) && k < |sys.tasks| && core < |sys.globalOn|
  {
    start + CoreDemand(sys, k, core, h, Higher(sys, k, 0), |sys.globalOn[core]|) + LatencyT(sys.timed[core], h)
  }

  lemma HgRhsMono(sys: System, k: nat, core: nat, start: nat, h: nat, h': nat)
    requires Consistent(sys) && k < |sys.tasks| && core < |sys.globalOn| && h <= h'
    ensures HgRhs(sys, k, core, start, h) <= HgRhs(sys, k, core, start, h')
  {
    CoreDemandMono(sys, k, core, h, h', Higher(sys, k, 0), |sys.globalOn[core]|);
    WorstWindowMono(sys.timed[core], h, h', |sys.timed[core].slots|);
  }

  /** `h` is the smallest solution of the request equation. */
  ghost predicate HgLeast(sys: System, k: nat, core: nat, start: nat, h: nat)
    requires Consistent(sys) && k < |sys.tasks| && core < |sys.globalOn|
  {
    && HgRhs(sys, k, core, start, h) == h
    && forall y: nat :: HgRhs(sys, k, core, start, y) == y ==> h <= y
  }

  /** The bound of one request: the least solution if it meets the deadline, else deadline + 100. */
  ghost function HgBound(sys: System, k: nat, core: nat, start: nat): (b: nat)
    requires Consistent(sys) && k < |sys.tasks| && core < |sys.globalOn|
  {
    if exists h: nat :: HgLeast(sys, k, core, start, h) && h <= sys.tasks[k].deadline then
      var h: nat :| HgLeast(sys, k, core, start, h) && h <= sys.tasks[k].deadline;
      h
    else
      sys.tasks[k].deadline + 100
  }

  lemma HgBoundIsLeast(sys: System, k: nat, core: nat, start: nat, h: nat)
    requires Consistent(sys) && k < |sys.tasks| && core < |sys.globalOn|
    requires HgLeast(sys, k, core, start, h) && h <= sys.tasks[k].deadline
    ensures HgBound(sys, k, core, start) == h
  {
  }

  /* ---- Global resources ---- */

  /** The last of the first `n` uses that names `res`, or what was found before. */
  function LastUse(uses: seq<Use>, res: nat, n: nat, before: (nat, nat)): (nat, nat)
    requires n <= |uses|
  {
    if n == 0 then before
    else if uses[n - 1].res == res then (uses[n - 1].count, uses[n - 1].len)
    else LastUse(uses, res, n - 1, before)
  }

  predicate UsesOne(uses: seq<Use>, list: seq<nat>) {
    exists u <- uses :: u.res in list
  }

  /** What a task itself spends on the first `r` resources of a list. */
  function OwnUse(uses: seq<Use>, res: nat, n: nat): nat
    requires n <= |uses|
  {
    if n == 0 then 0 else OwnUse(uses, res, n - 1) + if uses[n - 1].res == res then Total(uses[n - 1]) else 0
  }

  function OwnDemand(uses: seq<Use>, list: seq<nat>, r: nat): nat
    requires r <= |list|
  {
    if r == 0 then 0 else OwnDemand(uses, list, r - 1) + OwnUse(uses, list[r - 1], |uses|)
  }

  /** Longest critical section on `res` among the first `n` uses, and `acc`. */
  function LongestUse(uses: seq<Use>, res: nat, n: nat, acc: nat): nat
    requires n <= |uses|
  {
    if n == 0 then acc else
      var rest := LongestUse(uses, res, n - 1, acc);
      if uses[n - 1].res == res then Max(rest, uses[n - 1].len) else rest
  }

  /** Longest critical section on `res` of the less urgent among the first `m` tasks. */
  function LongestLower(sys: System, k: nat, res: nat, m: nat, acc: nat): nat
    requires k < |sys.tasks| && m <= |sys.tasks|
  {
    if m == 0 then acc else
      var rest := LongestLower(sys, k, res, m - 1, acc);
      if sys.tasks[m - 1].prio > sys.tasks[k].prio
      then LongestUse(sys.tasks[m - 1].uses, res, |sys.tasks[m - 1].uses|, rest) else rest
  }

  /** Longest critical section that can hold up task `k` on the first `r` resources of a list that
      live on core `owner` and whose ceiling is above the task. */
  function LongestGlobal(sys: System, k: nat, list: seq<nat>, owner: nat, r: nat, acc: nat): nat
    requires Consistent(sys) && k < |sys.tasks| && r <= |list| && ListOk(sys, list)
  {
    if r == 0 then acc else
      var rest := LongestGlobal(sys, k, list, owner, r - 1, acc);
      var other := sys.resources[list[r - 1]];
      if other.cpu == owner && other.ceiling < sys.tasks[k].prio
      then LongestLower(sys, k, list[r - 1], |sys.tasks|, rest) else rest
  }

  /** What the walk over the cores carries along; none of it is reset from core to core. */
  datatype Direct = Direct(flag: bool, count: nat, len: nat, longest: nat, delay: nat, failed: bool)

  /** The request-by-request delay over the first `r` global resources of a core. */
  ghost function DirectOn(sys: System, k: nat, core: nat, d: Direct, r: nat): Direct
    requires Consistent(sys) && k < |sys.tasks| && core < |sys.globalOn| && r <= |sys.globalOn[core]|
  {
    if r == 0 then d else
      var e := DirectOn(sys, k, core, d, r - 1);
      if e.failed then e else DirectStep(sys, k, core, e, sys.globalOn[core][r - 1])
  }

  ghost function DirectStep(sys: System, k: nat, core: nat, e: Direct, res: nat): Direct
    requires Consistent(sys) && k < |sys.tasks| && core < |sys.globalOn| && res < |sys.resources|
  {
    var uses, list := sys.tasks[k].uses, sys.globalOn[core];
    var own := LastUse(uses, res, |uses|, (e.count, e.len));
    var longest := LongestGlobal(sys, k, list, sys.resources[res].cpu, |list|, e.longest);
    var bound := HgBound(sys, k, core, own.1 + longest);
    if bound <= sys.tasks[k].deadline
    then Direct(e.flag, own.0, own.1, longest, e.delay + own.0 * bound, false)
    else Direct(e.flag, own.0, own.1, longest, e.delay, true)
  }

  /** The same after the first `n` cores; the task's own core takes no part. */
  ghost function DirectUpTo(sys: System, k: nat, n: nat): Direct
    requires Consistent(sys) && k < |sys.tasks| && n <= |sys.globalOn|
  {
    if n == 0 then Direct(false, 0, 0, 0, 0, false) else
      var d := DirectUpTo(sys, k, n - 1);
      if d.failed || n - 1 == sys.tasks[k].cpu then d else
        var flag := d.flag || UsesOne(sys.tasks[k].uses, sys.globalOn[n - 1]);
        if flag then DirectOn(sys, k, n - 1, d.(flag := true), |sys.globalOn[n - 1]|) else d
  }

  /** The pooled delay over the first `n` cores. */
  ghost function Pooled(sys: System, k: nat, t: nat, n: nat): nat
    requires Consistent(sys) && k < |sys.tasks| && n <= |sys.globalOn|
  {
    if n == 0 then 0 else
      Pooled(sys, k, t, n - 1)
        + if n - 1 == sys.tasks[k].cpu || !DirectUpTo(sys, k, n).flag then 0
          else OwnDemand(sys.tasks[k].uses, sys.globalOn[n - 1], |sys.globalOn[n - 1]|)
                 + CoreDemand(sys, k, n - 1, t, |sys.tasks|, |sys.globalOn[n - 1]|)
                 + LatencyT(sys.timed[n - 1], t)
  }

  ghost function GlobalDelay(sys: System, k: nat, t: nat, n: nat): nat
    requires Consistent(sys) && k < |sys.tasks| && n <= |sys.globalOn|
  {
    if n == 0 then 0 else
      GlobalDelay(sys, k, t, n - 1)
        + if n - 1 == sys.tasks[k].cpu
          then CoreDemand(sys, k, n - 1, t, |sys.tasks|, |sys.globalOn[n - 1]|)
          else if DirectUpTo(sys, k, n).flag
          then Min(Pooled(sys, k, t, n), DirectUpTo(sys, k, n).delay)
          else 0
  }

  ghost function LatencyG(sys: System, k: nat, t: nat): nat
    requires Consistent(sys) && k < |sys.tasks|
  {
    if DirectUpTo(sys, k, |sys.globalOn|).failed then sys.tasks[k].deadline + 100
    else GlobalDelay(sys, k, t, |sys.globalOn|)
  }

  lemma {:induction false} PooledMono(sys: System, k: nat, t: nat, t': nat, n: nat)
    requires Consistent(sys) && k < |sys.tasks| && n <= |sys.globalOn| && t <= t'
    ensures Pooled(sys, k, t, n) <= Pooled(sys, k, t', n)
  {
    if n > 0 {
      hide DirectUpTo, OwnDemand, CoreDemand, WorstWindow, Consistent;
      PooledMono(sys, k, t, t', n - 1);
      assert n - 1 < |sys.timed| && TimedOk(sys.timed[n - 1]) by { AboutCore(sys, n - 1); }
      CoreDemandMono(sys, k, n - 1, t, t', |sys.tasks|, |sys.globalOn[n - 1]|);
      WorstWindowMono(sys.timed[n - 1], t, t', |sys.timed[n - 1].slots|);
    }
  }

  lemma AboutCore(sys: System, core: nat)
    requires Consistent(sys) && core < |sys.globalOn|
    ensures core < |sys.timed| && TimedOk(sys.timed[core])
    ensures ListOk(sys, sys.globalOn[core])
  {
  }

  lemma {:induction false} GlobalDelayMono(sys: System, k: nat, t: nat, t': nat, n: nat)
    requires Consistent(sys) && k < |sys.tasks| && n <= |sys.globalOn| && t <= t'
    ensures GlobalDelay(sys, k, t, n) <= GlobalDelay(sys, k, t', n)
  {
    if n > 0 {
      hide DirectUpTo, Pooled, CoreDemand, Consistent;
      GlobalDelayMono(sys, k, t, t', n - 1);
      CoreDemandMono(sys, k, n - 1, t, t', |sys.tasks|, |sys.globalOn[n - 1]|);
      PooledMono(sys, k, t, t', n);
    }
  }

  /* ---- The response-time equation ---- */

  ghost function Rhs(sys: System, k: nat, x: nat): nat
    requires Consistent(sys) && k < |sys.tasks|
  {
    sys.tasks[k].wcet + LatencyNg(sys, k, x) + LatencyT(sys.timed[sys.tasks[k].cpu], x) + LatencyG(sys, k, x)
  }

  /** Every term of the equation, and so the whole right-hand side, is monotone. */
  lemma RhsMono(sys: System, k: nat, x: nat, y: nat)
    requires Consistent(sys) && k < |sys.tasks| && x <= y
    ensures LatencyNg(sys, k, x) <= LatencyNg(sys, k, y)
    ensures LatencyT(sys.timed[sys.tasks[k].cpu], x) <= LatencyT(sys.timed[sys.tasks[k].cpu], y)
    ensures LatencyG(sys, k, x) <= LatencyG(sys, k, y)
    ensures Rhs(sys, k, x) <= Rhs(sys, k, y)
  {
    hide NonGlobal, WorstWindow, GlobalDelay, DirectUpTo, GlobalUse;
    NonGlobalMono(sys, k, x, y, Higher(sys, k, 0));
    WorstWindowMono(sys.timed[sys.tasks[k].cpu], x, y, |sys.timed[sys.tasks[k].cpu].slots|);
    GlobalDelayMono(sys, k, x, y, |sys.globalOn|);
  }

  ghost predicate Least(sys: System, k: nat, x: nat)
    requires Consistent(sys) && k < |sys.tasks|
  {
    && Rhs(sys, k, x) == x
    && forall y: nat :: Rhs(sys, k, y) == y ==> x <= y
  }

  /** Requests for global resources of the first `n` uses. */
  function GlobalRequests(sys: System, uses: seq<Use>, n: nat): nat
    requires n <= |uses| && UsesKnown(sys, uses)
  {
    if n == 0 then 0 else
      GlobalRequests(sys, uses, n - 1) + if sys.resources[uses[n - 1].res].isGlobal then uses[n - 1].count else 0
  }

  /** Longest local critical section of the first `n` uses whose ceiling is above `prio`, and `acc`. */
  function LongestLocal(sys: System, uses: seq<Use>, prio: nat, n: nat, acc: nat): nat
    requires n <= |uses| && UsesKnown(sys, uses)
  {
    if n == 0 then acc else
      var rest := LongestLocal(sys, uses, prio, n - 1, acc);
      var r := sys.resources[uses[n - 1].res];
      if !r.isGlobal && r.ceiling < prio then Max(rest, uses[n - 1].len) else rest
  }

  /** The walk from the least urgent end down to position `j`: it stops at the first task that is not
      less urgent than task `k`. */
  function LongestBlock(sys: System, k: nat, j: nat, acc: nat): nat
    requires Consistent(sys) && k < |sys.tasks| && j <= |sys.tasks|
  {
    if j == 0 || sys.tasks[j - 1].prio <= sys.tasks[k].prio then acc
    else if sys.tasks[j - 1].cpu == sys.tasks[k].cpu then
      var uses := sys.tasks[j - 1].uses;
      LongestBlock(sys, k, j - 1, LongestLocal(sys, uses, sys.tasks[k].prio, |uses|, acc))
    else LongestBlock(sys, k, j - 1, acc)
  }

  /** Local blocking; the number of requests is kept in a byte. */
  function LatencyB(sys: System, k: nat): nat
    requires Consistent(sys) && k < |sys.tasks|
  {
    (GlobalRequests(sys, sys.tasks[k].uses, |sys.tasks[k].uses|) % 256 + 1)
      * LongestBlock(sys, k, |sys.tasks|, 0)
  }

  /** The byte is wide enough if and only if a task makes fewer than 256 global requests, or no local
      critical section of a less urgent task can block it; otherwise the bound is too small. */
  lemma LatencyBExact(sys: System, k: nat)
    requires Consistent(sys) && k < |sys.tasks|
    ensures var requests, longest := GlobalRequests(sys, sys.tasks[k].uses, |sys.tasks[k].uses|),
                                     LongestBlock(sys, k, |sys.tasks|, 0);
            && LatencyB(sys, k) <= (requests + 1) * longest
            && (LatencyB(sys, k) == (requests + 1) * longest <==> requests < 256 || longest == 0)
  {
    var requests, longest := GlobalRequests(sys, sys.tasks[k].uses, |sys.tasks[k].uses|), LongestBlock(sys, k, |sys.tasks|, 0);
    hide Consistent, GlobalRequests, LongestBlock;
    TimesLess(requests % 256 + 1, requests + 1, longest);
  }

  lemma TimesLess(a: nat, b: nat, x: nat)
    requires a <= b
    ensures a * x <= b * x && (a * x == b * x <==> a == b || x == 0)
  {
    assert b * x - a * x == (b - a) * x;
  }

  /** The verdict: least solution plus blocking when both meet the deadline, else deadline + 100. */
  ghost function Response(sys: System, k: nat): (r: nat)
    requires Consistent(sys) && k < |sys.tasks|
  {
    var deadline := sys.tasks[k].deadline;
    if exists x: nat :: Least(sys, k, x) && x <= deadline && LatencyB(sys, k) <= deadline
    then
      var x: nat :| Least(sys, k, x) && x <= deadline && LatencyB(sys, k) <= deadline;
      x + LatencyB(sys, k)
    else deadline + 100
  }

  lemma ResponseIsLeast(sys: System, k: nat, x: nat)
    requires Consistent(sys) && k < |sys.tasks|
    requires Least(sys, k, x) && x <= sys.tasks[k].deadline && LatencyB(sys, k) <= sys.tasks[k].deadline
    ensures Response(sys, k) == x + LatencyB(sys, k)
  {
    hide Rhs, LatencyB, Consistent;
  }

  /** No verdict is shorter than the execution time, when that meets the deadline. */
  lemma ResponseCoversExecution(sys: System, k: nat)
    requires Consistent(sys) && k < |sys.tasks| && Response(sys, k) <= sys.tasks[k].deadline
    ensures sys.tasks[k].wcet <= Response(sys, k)
  {
    hide LatencyB, LatencyG, LatencyT, LatencyNg;
    var x: nat :| Least(sys, k, x) && Response(sys, k) == x + LatencyB(sys, k);
    assert x == Rhs(sys, k, x);
  }
}
