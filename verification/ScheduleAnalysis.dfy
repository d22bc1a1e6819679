/** The loops of the admission controller: every walk computes its equation, the two iterations find
    least solutions, and the schedule analysis stores the verdicts in place. */
module ScheduleAnalysis {
  import opened ResponseTime

  method NonGlobalDemand(sys: System, task: Task) returns (c: nat)
    requires TaskOk(sys, task)
    ensures c == task.wcet - GlobalUse(sys, task.uses, |task.uses|)
  {
    hide Total;
    c := task.wcet;
    for i := 0 to |task.uses|
      invariant c == task.wcet - GlobalUse(sys, task.uses, i)
    {
      GlobalUseGrows(sys, task.uses, i + 1);
      if sys.resources[task.uses[i].res].isGlobal { c := c - Total(task.uses[i]); }
    }
  }

  lemma {:induction false} GlobalUseGrows(sys: System, uses: seq<Use>, n: nat)
    requires n <= |uses| && UsesKnown(sys, uses)
    ensures GlobalUse(sys, uses, n) <= GlobalUse(sys, uses, |uses|)
    decreases |uses| - n
  {
    if n < |uses| { GlobalUseGrows(sys, uses, n + 1); }
  }

  method LatencyNgTime(sys: System, k: nat, t: nat) returns (sum: nat)
    requires Consistent(sys) && k < |sys.tasks|
    ensures sum == LatencyNg(sys, k, t)
  {
    hide Load, GlobalUse, Ceil;
    var j := 0;
    sum := 0;
    while j < |sys.tasks|
      invariant j <= |sys.tasks| && Higher(sys, k, j) == Higher(sys, k, 0)
      invariant sum == NonGlobal(sys, k, t, j)
    {
      var task := sys.tasks[j];
      if task.cpu == sys.tasks[k].cpu && task.prio < sys.tasks[k].prio {
        var c := NonGlobalDemand(sys, task);
        sum := sum + Load(t + task.wcrt - c, task.period, c);
      } else if task.prio >= sys.tasks[k].prio {
        break;
      }
      j := j + 1;
    }
  }

  method EpsilonTime(slots: seq<(nat, nat)>, t: nat) returns (sum: nat)
    ensures sum == Epsilon(slots, t, 0)
  {
    var i := 0;
    sum := 0;
    while i < |slots|
      invariant i <= |slots| && sum + Epsilon(slots, t, i) == Epsilon(slots, t, 0)
    {
      if slots[i].0 < t { sum := sum + slots[i].1; } else { break; }
      i := i + 1;
    }
  }

  method LatencyTTime(timed: Timed, t: nat) returns (worst: nat)
    requires TimedOk(timed)
    ensures worst == LatencyT(timed, t)
  {
    hide Epsilon;
    worst := 0;
    for i := 0 to |timed.slots|
      invariant worst == WorstWindow(timed, t, i)
    {
      var v := timed.slots[i].0;
      var after := EpsilonTime(timed.slots, (v + t) % timed.hyper);
      var before := EpsilonTime(timed.slots, v);
      WorkBeforeSlot(timed, v, t);
      var window: nat := timed.sum * ((v + t) / timed.hyper) + after - before;
      if window > worst { worst := window; }
    }
  }

  method AddInterference(sys: System, task: Task, res: nat, t: nat, acc: nat) returns (sum: nat)
    requires TaskOk(sys, task)
    ensures sum == acc + Interference(sys, task, res, t, |task.uses|)
  {
    hide Load, Total, GlobalUse, Ceil;
    sum := acc;
    for i := 0 to |task.uses|
      invariant sum == acc + Interference(sys, task, res, t, i)
    {
      if task.uses[i].res == res {
        var n := Total(task.uses[i]);
        sum := sum + Load(t + task.wcrt - n, task.period, n);
      }
    }
  }

  /** One request for a global resource on `core`, by iteration. */
  method HgTime(sys: System, k: nat, core: nat, start: nat) returns (h: nat)
    requires Consistent(sys) && k < |sys.tasks| && core < |sys.globalOn|
    ensures h == HgBound(sys, k, core, start)
  {
    hide HgRhs, Consistent;
    var deadline := sys.tasks[k].deadline;
    h := start;
    StartBelow(sys, k, core, start);
    while h <= deadline
      invariant h <= HgRhs(sys, k, core, start, h)
      invariant forall y: nat :: HgRhs(sys, k, core, start, y) == y ==> h <= y
      decreases deadline - h
    {
      var next := HgStep(sys, k, core, start, h);
      if h == next {
        HgBoundIsLeast(sys, k, core, start, h);
        return;
      }
      HgAscends(sys, k, core, start, h);
      h := next;
    }
    return deadline + 100;
  }

  lemma StartBelow(sys: System, k: nat, core: nat, start: nat)
    requires Consistent(sys) && k < |sys.tasks| && core < |sys.globalOn|
    ensures forall y: nat :: start <= HgRhs(sys, k, core, start, y)
  {
    hide Consistent, WorstWindow, CoreDemand;
  }

  /** Stepping up from below stays below every solution. */
  lemma HgAscends(sys: System, k: nat, core: nat, start: nat, h: nat)
    requires Consistent(sys) && k < |sys.tasks| && core < |sys.globalOn|
    requires h <= HgRhs(sys, k, core, start, h)
    requires forall y: nat :: HgRhs(sys, k, core, start, y) == y ==> h <= y
    ensures var next := HgRhs(sys, k, core, start, h);
            && next <= HgRhs(sys, k, core, start, next)
            && forall y: nat :: HgRhs(sys, k, core, start, y) == y ==> next <= y
  {
    hide HgRhs, Consistent;
    HgRhsMono(sys, k, core, start, h, HgRhs(sys, k, core, start, h));
    forall y: nat | HgRhs(sys, k, core, start, y) == y
      ensures HgRhs(sys, k, core, start, h) <= y
    {
      HgRhsMono(sys, k, core, start, h, y);
    }
  }

  /** One evaluation of the right-hand side: resources, tasks until the first that is not more urgent. */
  method HgStep(sys: System, k: nat, core: nat, start: nat, h: nat) returns (sum: nat)
    requires Consistent(sys) && k < |sys.tasks| && core < |sys.globalOn|
    ensures sum == HgRhs(sys, k, core, start, h)
  {
    hide Interference, WorstWindow, Consistent;
    var list := sys.globalOn[core];
    sum := start;
    for r := 0 to |list|
      invariant sum == start + CoreDemand(sys, k, core, h, Higher(sys, k, 0), r)
    {
      var acc := sum;
      var j := 0;
      while j < |sys.tasks|
        invariant j <= |sys.tasks| && Higher(sys, k, j) == Higher(sys, k, 0)
        invariant sum == acc + Demand(sys, k, list[r], h, j)
      {
        if sys.tasks[j].prio < sys.tasks[k].prio {
          AboutTask(sys, j);
          sum := AddInterference(sys, sys.tasks[j], list[r], h, sum);
        } else {
          break;
        }
        j := j + 1;
      }
    }
    AboutCore(sys, core);
    var slots := LatencyTTime(sys.timed[core], h);
    sum := sum + slots;
  }

  lemma AboutTask(sys: System, j: nat)
    requires Consistent(sys) && j < |sys.tasks|
    ensures TaskOk(sys, sys.tasks[j]) && sys.tasks[j].cpu < |sys.globalOn|
  {
  }

  /** Demand of all other tasks on the global resources of a core, added to `acc`. */
  method OthersDemand(sys: System, k: nat, core: nat, t: nat, acc: nat) returns (sum: nat)
    requires Consistent(sys) && k < |sys.tasks| && core < |sys.globalOn|
    ensures sum == acc + CoreDemand(sys, k, core, t, |sys.tasks|, |sys.globalOn[core]|)
  {
    hide Interference, Consistent;
    var list := sys.globalOn[core];
    sum := acc;
    for r := 0 to |list|
      invariant sum == acc + CoreDemand(sys, k, core, t, |sys.tasks|, r)
    {
      ghost var before := sum;
      for j := 0 to |sys.tasks|
        invariant sum == before + Demand(sys, k, list[r], t, j)
      {
        if j != k {
          AboutTask(sys, j);
          sum := AddInterference(sys, sys.tasks[j], list[r], t, sum);
        }
      }
    }
  }

  /** The pooled demand of a remote core, added to what earlier cores left in `acc`. */
  method PoolDemand(sys: System, k: nat, core: nat, t: nat, acc: nat) returns (sum: nat)
    requires Consistent(sys) && k < |sys.tasks| && core < |sys.globalOn|
    ensures sum == acc + OwnDemand(sys.tasks[k].uses, sys.globalOn[core], |sys.globalOn[core]|)
                       + CoreDemand(sys, k, core, t, |sys.tasks|, |sys.globalOn[core]|)
                       + LatencyT(sys.timed[core], t)
  {
    hide Interference, OwnUse, WorstWindow, Consistent;
    var list, uses := sys.globalOn[core], sys.tasks[k].uses;
    sum := acc;
    for r := 0 to |list|
      invariant sum == acc + OwnDemand(uses, list, r) + CoreDemand(sys, k, core, t, |sys.tasks|, r)
    {
      ghost var before := sum;
      for j := 0 to |sys.tasks|
        invariant sum == before + Demand(sys, k, list[r], t, j)
                         + if j > k then OwnUse(uses, list[r], |uses|) else 0
      {
        AboutTask(sys, j);
        if j == k {
          var own := OwnUses(uses, list[r]);
          sum := sum + own;
        } else {
          sum := AddInterference(sys, sys.tasks[j], list[r], t, sum);
        }
      }
    }
    AboutCore(sys, core);
    var slots := LatencyTTime(sys.timed[core], t);
    sum := sum + slots;
  }

  method OwnUses(uses: seq<Use>, res: nat) returns (sum: nat)
    ensures sum == OwnUse(uses, res, |uses|)
  {
    hide Total;
    sum := 0;
    for i := 0 to |uses|
      invariant sum == OwnUse(uses, res, i)
    {
      if uses[i].res == res { sum := sum + Total(uses[i]); }
    }
  }

  method AnyUse(uses: seq<Use>, list: seq<nat>, before: bool) returns (flag: bool)
    ensures flag == (before || UsesOne(uses, list))
  {
    flag := before;
    for r := 0 to |list|
      invariant flag <==> (before || exists i, x :: 0 <= i < |uses| && 0 <= x < r && uses[i].res == list[x])
    {
      for i := 0 to |uses|
        invariant flag <==> (before || (exists i', x :: 0 <= i' < |uses| && 0 <= x < r && uses[i'].res == list[x])
                             || exists i' :: 0 <= i' < i && uses[i'].res == list[r])
      {
        if uses[i].res == list[r] { flag := true; }
      }
    }
    assert UsesOne(uses, list) ==> exists i, x :: 0 <= i < |uses| && 0 <= x < |list| && uses[i].res == list[x] by {
      if u :| u in uses && u.res in list {
        var i :| 0 <= i < |uses| && uses[i] == u;
        var x :| 0 <= x < |list| && list[x] == u.res;
        assert uses[i].res == list[x];
      }
    }
  }

  method FindLastUse(uses: seq<Use>, res: nat, count: nat, len: nat) returns (n: nat, l: nat)
    ensures (n, l) == LastUse(uses, res, |uses|, (count, len))
  {
    n, l := count, len;
    for i := 0 to |uses|
      invariant (n, l) == LastUse(uses, res, i, (count, len))
    {
      if uses[i].res == res { n, l := uses[i].count, uses[i].len; }
    }
  }

  method LongestSection(sys: System, k: nat, core: nat, owner: nat, acc: nat) returns (longest: nat)
    requires Consistent(sys) && k < |sys.tasks| && core < |sys.globalOn|
    ensures longest == LongestGlobal(sys, k, sys.globalOn[core], owner, |sys.globalOn[core]|, acc)
  {
    var list := sys.globalOn[core];
    longest := acc;
    AboutCore(sys, core);
    hide Consistent;
    for r := 0 to |list|
      invariant longest == LongestGlobal(sys, k, list, owner, r, acc)
    {
      var other := sys.resources[list[r]];
      if other.cpu == owner {
        ghost var before := longest;
        for j := 0 to |sys.tasks|
          invariant longest == if other.ceiling < sys.tasks[k].prio
                               then LongestLower(sys, k, list[r], j, before) else before
        {
          if sys.tasks[j].prio > sys.tasks[k].prio {
            ghost var bef := longest;
            var uses := sys.tasks[j].uses;
            for i := 0 to |uses|
              invariant longest == if other.ceiling < sys.tasks[k].prio
                                   then LongestUse(uses, list[r], i, bef) else bef
            {
              if uses[i].res == list[r] && other.ceiling < sys.tasks[k].prio && uses[i].len > longest {
                longest := uses[i].len;
              }
            }
          }
        }
      }
    }
  }

  /** Request-by-request delay on a remote core; `failed` when one request misses the deadline. */
  method DirectDelay(sys: System, k: nat, core: nat, ghost d: Direct, count: nat, len: nat, longest: nat, delay: nat)
    returns (n: nat, l: nat, m: nat, dd: nat, failed: bool)
    requires Consistent(sys) && k < |sys.tasks| && core < |sys.globalOn|
    requires d == Direct(true, count, len, longest, delay, false)
    ensures Direct(true, n, l, m, dd, failed) == DirectOn(sys, k, core, d, |sys.globalOn[core]|)
  {
    hide Consistent, LongestGlobal, LastUse, HgBound;
    var list, uses := sys.globalOn[core], sys.tasks[k].uses;
    n, l, m, dd, failed := count, len, longest, delay, false;
    AboutCore(sys, core);
    for r := 0 to |list|
      invariant !failed && Direct(true, n, l, m, dd, false) == DirectOn(sys, k, core, d, r)
    {
      n, l := FindLastUse(uses, list[r], n, l);
      m := LongestSection(sys, k, core, sys.resources[list[r]].cpu, m);
      var bound := HgTime(sys, k, core, l + m);
      if bound <= sys.tasks[k].deadline {
        dd := dd + n * bound;
      } else {
        failed := true;
        DirectStays(sys, k, core, d, r + 1);
        return;
      }
    }
  }

  lemma {:induction false} DirectStays(sys: System, k: nat, core: nat, d: Direct, r: nat)
    requires Consistent(sys) && k < |sys.tasks| && core < |sys.globalOn| && r <= |sys.globalOn[core]|
    requires DirectOn(sys, k, core, d, r).failed
    ensures DirectOn(sys, k, core, d, |sys.globalOn[core]|) == DirectOn(sys, k, core, d, r)
    decreases |sys.globalOn[core]| - r
  {
    hide Consistent, DirectStep;
    if r < |sys.globalOn[core]| { DirectStays(sys, k, core, d, r + 1); }
  }

  lemma {:induction false} DirectUpToStays(sys: System, k: nat, n: nat)
    requires Consistent(sys) && k < |sys.tasks| && n <= |sys.globalOn| && DirectUpTo(sys, k, n).failed
    ensures DirectUpTo(sys, k, |sys.globalOn|).failed
    decreases |sys.globalOn| - n
  {
    hide Consistent, DirectOn;
    if n < |sys.globalOn| { DirectUpToStays(sys, k, n + 1); }
  }

  lemma {:induction false} FlagKept(sys: System, k: nat, core: nat, d: Direct, r: nat)
    requires Consistent(sys) && k < |sys.tasks| && core < |sys.globalOn| && r <= |sys.globalOn[core]|
    ensures DirectOn(sys, k, core, d, r).flag == d.flag
  {
    hide Consistent, LongestGlobal, LastUse, HgBound;
    if r > 0 { FlagKept(sys, k, core, d, r - 1); }
  }

  /** Waiting for global resources, core by core. */
  method LatencyGTime(sys: System, k: nat, t: nat) returns (sum: nat)
    requires Consistent(sys) && k < |sys.tasks|
    ensures sum == LatencyG(sys, k, t)
  {
    hide Consistent, CoreDemand, OwnDemand, DirectOn, WorstWindow, UsesOne;
    var flag, count, len, longest, delay, pooled, failed := false, 0, 0, 0, 0, 0, false;
    sum := 0;
    for i := 0 to |sys.globalOn|
      invariant Direct(flag, count, len, longest, delay, false) == DirectUpTo(sys, k, i)
      invariant pooled == Pooled(sys, k, t, i) && sum == GlobalDelay(sys, k, t, i)
    {
      ghost var d := DirectUpTo(sys, k, i);
      if sys.tasks[k].cpu == i {
        sum := OthersDemand(sys, k, i, t, sum);
      } else {
        flag := AnyUse(sys.tasks[k].uses, sys.globalOn[i], flag);
        if flag {
          pooled := PoolDemand(sys, k, i, t, pooled);
          count, len, longest, delay, failed :=
            DirectDelay(sys, k, i, d.(flag := true), count, len, longest, delay);
          if failed {
            DirectUpToStays(sys, k, i + 1);
            return sys.tasks[k].deadline + 100;
          }
          if pooled < delay { sum := sum + pooled; } else { sum := sum + delay; }
        }
      }
    }
  }

  method CountRequests(sys: System, uses: seq<Use>) returns (n: nat)
    requires UsesKnown(sys, uses)
    ensures n == GlobalRequests(sys, uses, |uses|) % 256
  {
    n := 0;
    for i := 0 to |uses|
      invariant n == GlobalRequests(sys, uses, i) % 256
    {
      if sys.resources[uses[i].res].isGlobal { n := (n + uses[i].count) % 256; }
    }
  }

  method LatencyBTime(sys: System, k: nat) returns (b: nat)
    requires Consistent(sys) && k < |sys.tasks|
    ensures b == LatencyB(sys, k)
  {
    AboutTask(sys, k);
    var n := CountRequests(sys, sys.tasks[k].uses);
    hide Consistent, GlobalRequests;
    var longest: nat, j: nat := 0, |sys.tasks|;
    while j > 0
      invariant j <= |sys.tasks|
      invariant LongestBlock(sys, k, j, longest) == LongestBlock(sys, k, |sys.tasks|, 0)
    {
      var task := sys.tasks[j - 1];
      if task.cpu == sys.tasks[k].cpu && task.prio > sys.tasks[k].prio {
        AboutTask(sys, j - 1);
        ghost var before := longest;
        for i := 0 to |task.uses|
          invariant longest == LongestLocal(sys, task.uses, sys.tasks[k].prio, i, before)
        {
          var r := sys.resources[task.uses[i].res];
          if !r.isGlobal && r.ceiling < sys.tasks[k].prio && task.uses[i].len > longest {
            longest := task.uses[i].len;
          }
        }
      } else if task.prio <= sys.tasks[k].prio {
        break;
      }
      j := j - 1;
    }
    b := (n + 1) * longest;
  }

  /** The response-time iteration. The early exits discard no solution. */
  method ResponseTimeOf(sys: System, k: nat) returns (r: nat)
    requires Consistent(sys) && k < |sys.tasks|
    ensures r == Response(sys, k)
  {
    AboutTask(sys, k);
    AboutCore(sys, sys.tasks[k].cpu);
    hide Consistent, LatencyNg, LatencyT, LatencyG, LatencyB;
    var deadline := sys.tasks[k].deadline;
    var x := sys.tasks[k].wcet;
    while x <= deadline
      invariant x <= Rhs(sys, k, x)
      invariant forall y: nat :: Rhs(sys, k, y) == y ==> x <= y
      decreases deadline - x
    {
      var ng := LatencyNgTime(sys, k, x);
      if ng > deadline { NoneBelow(sys, k, x); return deadline + 100; }
      var tt := LatencyTTime(sys.timed[sys.tasks[k].cpu], x);
      if tt > deadline { NoneBelow(sys, k, x); return deadline + 100; }
      var g := LatencyGTime(sys, k, x);
      if g > deadline { NoneBelow(sys, k, x); return deadline + 100; }
      var next := sys.tasks[k].wcet + ng + tt + g;
      if x == next {
        var b := LatencyBTime(sys, k);
        assert Least(sys, k, x);
        if b > deadline { return deadline + 100; }
        ResponseIsLeast(sys, k, x);
        return x + b;
      }
      Ascends(sys, k, x);
      x := next;
    }
    return deadline + 100;
  }

  /** When one term alone is beyond the deadline, so is every solution from here on. */
  lemma NoneBelow(sys: System, k: nat, x: nat)
    requires Consistent(sys) && k < |sys.tasks|
    requires forall y: nat :: Rhs(sys, k, y) == y ==> x <= y
    requires Rhs(sys, k, x) > sys.tasks[k].deadline
    ensures forall y: nat :: Rhs(sys, k, y) == y ==> y > sys.tasks[k].deadline
  {
    hide Rhs, Consistent;
    forall y: nat | Rhs(sys, k, y) == y
      ensures y > sys.tasks[k].deadline
    {
      RhsMono(sys, k, x, y);
    }
  }

  lemma Ascends(sys: System, k: nat, x: nat)
    requires Consistent(sys) && k < |sys.tasks|
    requires x <= Rhs(sys, k, x)
    requires forall y: nat :: Rhs(sys, k, y) == y ==> x <= y
    ensures Rhs(sys, k, x) <= Rhs(sys, k, Rhs(sys, k, x))
    ensures forall y: nat :: Rhs(sys, k, y) == y ==> Rhs(sys, k, x) <= y
  {
    hide Rhs, Consistent;
    RhsMono(sys, k, x, Rhs(sys, k, x));
    forall y: nat | Rhs(sys, k, y) == y
      ensures Rhs(sys, k, x) <= y
    {
      RhsMono(sys, k, x, y);
    }
  }

  /** A window that holds all the work released in it proves that a least solution exists below it. */
  lemma {:induction false} SolutionBelow(sys: System, k: nat, x: nat, z: nat)
    requires Consistent(sys) && k < |sys.tasks|
    requires x <= z && Rhs(sys, k, z) <= z
    requires x <= Rhs(sys, k, x) && forall y: nat :: Rhs(sys, k, y) == y ==> x <= y
    ensures exists y: nat :: Least(sys, k, y) && y <= z
    decreases z - x
  {
    hide Rhs, Consistent;
    if Rhs(sys, k, x) == x {
      assert Least(sys, k, x);
    } else {
      RhsMono(sys, k, x, z);
      Ascends(sys, k, x);
      SolutionBelow(sys, k, Rhs(sys, k, x), z);
    }
  }

  /** A task is admitted exactly when some window up to its deadline holds all the work released in
      it and, with the blocking on top of the smallest solution, the deadline still holds. */
  lemma AdmittedIff(sys: System, k: nat)
    requires Consistent(sys) && k < |sys.tasks|
    ensures Response(sys, k) <= sys.tasks[k].deadline <==>
            exists z: nat :: Rhs(sys, k, z) <= z && z + LatencyB(sys, k) <= sys.tasks[k].deadline
  {
    hide LatencyB, Consistent, LatencyG, LatencyT, LatencyNg;
    var deadline := sys.tasks[k].deadline;
    if z: nat :| Rhs(sys, k, z) <= z && z + LatencyB(sys, k) <= deadline {
      SolutionBelow(sys, k, 0, z);
      var y: nat :| Least(sys, k, y) && y <= z;
      ResponseIsLeast(sys, k, y);
    }
    if Response(sys, k) <= deadline {
      var x: nat :| Least(sys, k, x) && Response(sys, k) == x + LatencyB(sys, k);
      assert Rhs(sys, k, x) <= x;
    }
  }

  /** The tables when task `i` is looked at: earlier tasks have their verdicts, later ones not yet. */
  function Midway(before: System, after: System, i: nat): System
    requires |before.tasks| == |after.tasks| && i <= |before.tasks|
  {
    before.(tasks := after.tasks[..i] + before.tasks[i..])
  }

  /** The first `n` tasks hold their verdicts, all within their deadlines, and nothing else changed. */
  ghost predicate Stored(before: System, after: System, n: nat) {
    && |after.tasks| == |before.tasks| && n <= |before.tasks|
    && after == before.(tasks := after.tasks)
    && (forall i :: n <= i < |before.tasks| ==> after.tasks[i] == before.tasks[i])
    && (forall i :: 0 <= i < n ==>
          if before.tasks[i].isNew then after.tasks[i] == before.tasks[i] else
            && Consistent(Midway(before, after, i))
            && after.tasks[i] == before.tasks[i].(wcrt := Response(Midway(before, after, i), i))
            && after.tasks[i].wcrt <= after.tasks[i].deadline)
  }

  /** The next task stores its verdict. */
  function Store(sys: System, i: nat, r: nat): System
    requires i < |sys.tasks|
  {
    sys.(tasks := sys.tasks[i := sys.tasks[i].(wcrt := r)])
  }

  lemma {:induction false} GlobalUseOf(sys: System, other: System, uses: seq<Use>, n: nat)
    requires n <= |uses| && UsesKnown(sys, uses) && other.resources == sys.resources
    ensures GlobalUse(other, uses, n) == GlobalUse(sys, uses, n)
  {
    hide Total;
    if n > 0 { GlobalUseOf(sys, other, uses, n - 1); }
  }

  lemma StoreKeepsConsistent(sys: System, k: nat, r: nat)
    requires Consistent(sys) && k < |sys.tasks| && sys.tasks[k].wcet <= r
    ensures Consistent(Store(sys, k, r))
  {
    var next := Store(sys, k, r);
    hide GlobalUse, Total, Durations;
    forall i | 0 <= i < |next.tasks|
      ensures TaskOk(next, next.tasks[i])
    {
      AboutTask(sys, i);
      GlobalUseOf(sys, next, sys.tasks[i].uses, |sys.tasks[i].uses|);
    }
  }

  lemma StoreExtends(before: System, now: System, n: nat)
    requires Stored(before, now, n) && n < |before.tasks| && Consistent(now)
    ensures Midway(before, now, n) == now
    ensures before.tasks[n].isNew ==> Stored(before, now, n + 1)
    ensures !before.tasks[n].isNew && Response(now, n) <= now.tasks[n].deadline
            ==> Stored(before, Store(now, n, Response(now, n)), n + 1)
  {
    hide Response, Consistent;
    assert Midway(before, now, n).tasks == now.tasks;
    var next := Store(now, n, Response(now, n));
    forall i | 0 <= i <= n
      ensures Midway(before, next, i) == Midway(before, now, i)
    {
      assert next.tasks[..i] == now.tasks[..i];
    }
  }

  /** The admission table, whose response times are rewritten in place. */
  class Controller {
    var sys: System

    constructor (tables: System)
      ensures sys == tables
    {
      sys := tables;
    }

    /** Tasks in list order, each against the verdicts already stored; the first failure stops the
        walk and leaves the earlier verdicts in place. */
    method Analyse() returns (ok: bool)
      requires Consistent(sys)
      modifies this
      ensures Consistent(sys)
      ensures ok ==> Stored(old(sys), sys, |sys.tasks|)
      ensures !ok ==> exists n :: 0 <= n < |sys.tasks| && Stored(old(sys), sys, n)
                                  && !sys.tasks[n].isNew && Response(sys, n) > sys.tasks[n].deadline
    {
      ghost var before := sys;
      hide Consistent, Response;
      for i := 0 to |sys.tasks|
        invariant Consistent(sys) && Stored(before, sys, i)
      {
        StoreExtends(before, sys, i);
        if !sys.tasks[i].isNew {
          var bound := ResponseTimeOf(sys, i);
          if bound <= sys.tasks[i].deadline {
            ResponseCoversExecution(sys, i);
            StoreKeepsConsistent(sys, i, bound);
            sys := Store(sys, i, bound);
          } else {
            return false;
          }
        }
      }
      return true;
    }
  }
}
