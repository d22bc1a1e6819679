/**
Delta queues: every entry holds the ticks that remain after the entry before it. The module relates
them to lists of absolute deadlines, and shows over every run at which tick an entry comes up.
*/
module DeltaQueue {

  datatype Entry<T> = Entry(id: T, delta: int)

  /** An entry of the plain list that a delta queue stands for. */
  datatype Due<T> = Due(id: T, at: int)

  /** Insertion by subtracting one delta after another until the rest would turn negative. */
  function Insert<T>(q: seq<Entry<T>>, id: T, ticks: int): (r: seq<Entry<T>>)
    ensures |r| == |q| + 1
  {
    if q == [] then [Entry(id, ticks)]
    else if ticks < q[0].delta then [Entry(id, ticks), Entry(q[0].id, q[0].delta - ticks)] + q[1..]
    else [q[0]] + Insert(q[1..], id, ticks - q[0].delta)
  }

  /** The deadlines a delta queue stands for, counted from `base`. */
  function Deadlines<T>(q: seq<Entry<T>>, base: int): (s: seq<Due<T>>)
    ensures |s| == |q|
  {
    if q == [] then [] else [Due(q[0].id, base + q[0].delta)] + Deadlines(q[1..], base + q[0].delta)
  }

  /** A deadline goes after all that are not later. */
  function Place<T>(s: seq<Due<T>>, d: Due<T>): seq<Due<T>>
  {
    if s == [] then [d] else if d.at < s[0].at then [d] + s else [s[0]] + Place(s[1..], d)
  }

  lemma {:induction false} DeadlinesShift<T>(q: seq<Entry<T>>, base: int, i: nat)
    requires i < |q|
    ensures Deadlines(q, base)[i] == Due(q[i].id, Deadlines(q, 0)[i].at + base)
  {
    if i > 0 {
      DeadlinesShift(q[1..], base + q[0].delta, i - 1);
      DeadlinesShift(q[1..], q[0].delta, i - 1);
    }
  }

  /** Inserting moves no other deadline, and puts the new one after all that are not later. */
  lemma {:induction false} InsertPlaces<T>(q: seq<Entry<T>>, id: T, ticks: int, base: int)
    ensures Deadlines(Insert(q, id, ticks), base) == Place(Deadlines(q, base), Due(id, base + ticks))
  {
    if q == [] {
    } else if ticks < q[0].delta {
      var r := Insert(q, id, ticks);
      assert r[1..] == [Entry(q[0].id, q[0].delta - ticks)] + q[1..];
      assert r[1..][1..] == q[1..];
    } else {
      InsertPlaces(q[1..], id, ticks - q[0].delta, base + q[0].delta);
      assert Insert(q, id, ticks)[1..] == Insert(q[1..], id, ticks - q[0].delta);
      assert Deadlines(q, base)[1..] == Deadlines(q[1..], base + q[0].delta);
    }
  }

  /** The place is right in front of the first deadline that is later: a newcomer stands behind those that
      are due at the same tick. */
  lemma {:induction false} PlaceIs<T>(s: seq<Due<T>>, d: Due<T>, i: nat)
    requires i <= |s| && (forall j | 0 <= j < i :: s[j].at <= d.at) && (i < |s| ==> d.at < s[i].at)
    ensures Place(s, d) == s[..i] + [d] + s[i..]
    decreases i
  {
    if i > 0 {
      PlaceIs(s[1..], d, i - 1);
      assert s[..i] == [s[0]] + s[1..][..i - 1] && s[1..][i - 1..] == s[i..];
    }
  }

  // ----- one tick

  /** One tick is one off the first entry, and so off all deadlines; once that is due, nothing counts. */
  lemma CountDownIs<T>(q: seq<Entry<T>>)
    ensures q == [] || q[0].delta <= 0 ==> CountDown(q) == q
    ensures q != [] && q[0].delta > 0 ==>
      |CountDown(q)| == |q| && CountDown(q)[0] == Entry(q[0].id, q[0].delta - 1) && CountDown(q)[1..] == q[1..]
  {
  }

  /** Counting down touches only the first entry, and not once it is zero. */
  function CountDown<T>(q: seq<Entry<T>>): seq<Entry<T>>
  {
    if q != [] && q[0].delta > 0 then [q[0].(delta := q[0].delta - 1)] + q[1..] else q
  }

  /** How many entries at the front have come up. */
  function Expired<T>(q: seq<Entry<T>>): (n: nat)
    ensures n <= |q|
    ensures n < |q| ==> q[n].delta > 0
    ensures forall i | 0 <= i < n :: q[i].delta <= 0
  {
    if q == [] || q[0].delta > 0 then 0 else 1 + Expired(q[1..])
  }

  /** The delay queue drops what has come up. */
  function DropExpired<T>(q: seq<Entry<T>>): seq<Entry<T>>
  {
    q[Expired(q)..]
  }

  /** The period queue re-inserts each entry that has come up with its period. */
  function Requeue<T>(q: seq<Entry<T>>, period: T -> int, n: nat): (r: seq<Entry<T>>)
    ensures |r| == |q|
    decreases n
  {
    if n == 0 || q == [] then q else Requeue(Insert(q[1..], q[0].id, period(q[0].id)), period, n - 1)
  }

  function PeriodTick<T>(q: seq<Entry<T>>, period: T -> int): seq<Entry<T>>
  {
    Requeue(CountDown(q), period, Expired(CountDown(q)))
  }

  function DelayTick<T>(q: seq<Entry<T>>): seq<Entry<T>>
  {
    DropExpired(CountDown(q))
  }

  // ----- the queue as a set of countdowns

  ghost predicate Has<T>(q: seq<Entry<T>>, id: T)
  {
    q != [] && (q[0].id == id || Has(q[1..], id))
  }

  /** The ticks until `id` comes up: its absolute deadline. */
  ghost function Remaining<T>(q: seq<Entry<T>>, id: T): int
  {
    if q == [] then 0 else if q[0].id == id then q[0].delta else q[0].delta + Remaining(q[1..], id)
  }

  /** Every id stands in the queue at most once. */
  ghost predicate Once<T>(q: seq<Entry<T>>)
  {
    q != [] ==> !Has(q[1..], q[0].id) && Once(q[1..])
  }

  ghost predicate NonNegative<T>(q: seq<Entry<T>>)
  {
    forall i | 0 <= i < |q| :: q[i].delta >= 0
  }

  /** Between two ticks nothing in the queue has come up. */
  ghost predicate Pending<T>(q: seq<Entry<T>>)
  {
    NonNegative(q) && (q != [] ==> q[0].delta > 0)
  }

  /** `Remaining` is the deadline in the plain list. */
  lemma {:induction false} RemainingIsDeadline<T>(q: seq<Entry<T>>, i: nat, base: int)
    requires i < |q| && Once(q)
    ensures Has(q, q[i].id) && Deadlines(q, base)[i] == Due(q[i].id, base + Remaining(q, q[i].id))
  {
    if i > 0 {
      RemainingIsDeadline(q[1..], i - 1, base + q[0].delta);
    }
  }

  lemma {:induction false} InsertMembers<T>(q: seq<Entry<T>>, id: T, ticks: int, x: T)
    ensures Has(Insert(q, id, ticks), x) <==> x == id || Has(q, x)
  {
    var r := Insert(q, id, ticks);
    if q == [] {
    } else if ticks < q[0].delta {
      assert r[1..][1..] == q[1..];
    } else {
      InsertMembers(q[1..], id, ticks - q[0].delta, x);
      assert r[1..] == Insert(q[1..], id, ticks - q[0].delta);
    }
  }

  /** The new entry comes up after `ticks`; every other one when it did before. */
  lemma {:induction false} InsertRemaining<T>(q: seq<Entry<T>>, id: T, ticks: int, x: T)
    requires !Has(q, id) && (x == id || Has(q, x))
    ensures Remaining(Insert(q, id, ticks), x) == if x == id then ticks else Remaining(q, x)
  {
    var r := Insert(q, id, ticks);
    if q == [] {
    } else if ticks < q[0].delta {
      assert r[1..][1..] == q[1..];
    } else {
      if x != q[0].id { InsertRemaining(q[1..], id, ticks - q[0].delta, x); }
      assert r[1..] == Insert(q[1..], id, ticks - q[0].delta);
    }
  }

  lemma {:induction false} InsertOnce<T>(q: seq<Entry<T>>, id: T, ticks: int)
    requires Once(q) && !Has(q, id)
    ensures Once(Insert(q, id, ticks))
  {
    var r := Insert(q, id, ticks);
    if q == [] {
    } else if ticks < q[0].delta {
      assert r[1..][1..] == q[1..];
    } else {
      InsertOnce(q[1..], id, ticks - q[0].delta);
      InsertMembers(q[1..], id, ticks - q[0].delta, q[0].id);
      assert r[1..] == Insert(q[1..], id, ticks - q[0].delta);
    }
  }

  /** A positive delay goes behind everything that has come up and leaves the deltas non-negative. */
  lemma {:induction false} InsertExpired<T>(q: seq<Entry<T>>, id: T, ticks: int)
    requires NonNegative(q) && ticks > 0
    ensures NonNegative(Insert(q, id, ticks)) && Expired(Insert(q, id, ticks)) == Expired(q)
  {
    var r := Insert(q, id, ticks);
    if q == [] {
    } else if ticks < q[0].delta {
    } else {
      assert r[1..] == Insert(q[1..], id, ticks - q[0].delta);
      if q[0].delta == 0 {
        InsertExpired(q[1..], id, ticks);
      } else {
        InsertNonNegative(q[1..], id, ticks - q[0].delta);
      }
    }
  }

  /** What has come up, and the first entry that has not, keep their places, or the latter its distance. */
  lemma {:induction false} InsertKeepsFront<T>(q: seq<Entry<T>>, id: T, ticks: int, i: nat)
    requires NonNegative(q) && ticks > 0 && i <= Expired(q) && i < |q|
    ensures i < Expired(q) ==> Insert(q, id, ticks)[i] == q[i]
    ensures i == Expired(q) ==>
      if Insert(q, id, ticks)[i].id == q[i].id && Insert(q, id, ticks)[i] == q[i] then q[i].delta > 0
      else Insert(q, id, ticks)[i + 1].id == q[i].id && Insert(q, id, ticks)[i + 1].delta > 0
  {
    if q[0].delta == 0 {
      if i > 0 { InsertKeepsFront(q[1..], id, ticks, i - 1); }
    }
  }

  lemma {:induction false} InsertNonNegative<T>(q: seq<Entry<T>>, id: T, ticks: int)
    requires NonNegative(q) && ticks >= 0
    ensures NonNegative(Insert(q, id, ticks))
  {
    if q != [] && ticks >= q[0].delta {
      InsertNonNegative(q[1..], id, ticks - q[0].delta);
      assert Insert(q, id, ticks)[1..] == Insert(q[1..], id, ticks - q[0].delta);
    }
  }

  /** One tick takes one off every countdown. */
  lemma CountDownAll<T>(q: seq<Entry<T>>, x: T)
    requires Pending(q)
    ensures NonNegative(CountDown(q)) && (Once(q) ==> Once(CountDown(q)))
    ensures Has(CountDown(q), x) <==> Has(q, x)
    ensures Has(q, x) ==> Remaining(CountDown(q), x) == Remaining(q, x) - 1 >= 0
  {
    if q != [] {
      assert CountDown(q)[1..] == q[1..];
      RemainingNonNegative(q[1..], x);
    }
  }

  lemma {:induction false} RemainingNonNegative<T>(q: seq<Entry<T>>, x: T)
    requires NonNegative(q)
    ensures Remaining(q, x) >= 0
  {
    if q != [] { RemainingNonNegative(q[1..], x); }
  }

  /** The entries that have come up are exactly those with nothing remaining. */
  lemma {:induction false} ExpiredAre<T>(q: seq<Entry<T>>, x: T)
    requires NonNegative(q) && Once(q)
    ensures (exists i :: 0 <= i < Expired(q) && q[i].id == x) <==> Has(q, x) && Remaining(q, x) == 0
  {
    if q != [] {
      var n := Expired(q);
      RemainingNonNegative(q[1..], x);
      ExpiredAre(q[1..], x);
      if q[0].delta == 0 {
        if i :| 0 <= i < Expired(q[1..]) && q[1..][i].id == x {
          assert q[i + 1].id == x;
        }
        if i :| 0 <= i < n && q[i].id == x && i > 0 {
          assert q[1..][i - 1].id == x;
        }
        if q[0].id == x { assert 0 < n; }
      }
    }
  }

  // ----- the period queue over one tick and over every run

  lemma {:induction false} RequeueAll<T>(q: seq<Entry<T>>, period: T -> int, x: T)
    requires NonNegative(q) && Once(q) && forall id :: period(id) > 0
    ensures var r := Requeue(q, period, Expired(q));
      && Pending(r) && Once(r) && (Has(r, x) <==> Has(q, x))
      && (Has(q, x) ==> Remaining(r, x) == if Remaining(q, x) == 0 then period(x) else Remaining(q, x))
    decreases Expired(q)
  {
    var n := Expired(q);
    if n == 0 {
      if q != [] { RemainingNonNegative(q[1..], x); }
    } else {
      var id, tail := q[0].id, q[1..];
      var next := Insert(tail, id, period(id));
      InsertExpired(tail, id, period(id));
      InsertOnce(tail, id, period(id));
      InsertMembers(tail, id, period(id), x);
      if Has(q, x) { InsertRemaining(tail, id, period(id), x); }
      RequeueAll(next, period, x);
    }
  }

  /** A tick restarts every countdown that reaches zero from its period, and takes one off the others. */
  lemma PeriodTickAll<T>(q: seq<Entry<T>>, period: T -> int, x: T)
    requires Pending(q) && Once(q) && forall id :: period(id) > 0
    ensures Pending(PeriodTick(q, period)) && Once(PeriodTick(q, period))
    ensures Has(PeriodTick(q, period), x) <==> Has(q, x)
    ensures Has(q, x) ==>
      Remaining(PeriodTick(q, period), x) == if Remaining(q, x) == 1 then period(x) else Remaining(q, x) - 1
    ensures Has(q, x) ==> Remaining(PeriodTick(q, period), x) > 0
  {
    CountDownAll(q, x);
    RequeueAll(CountDown(q), period, x);
  }

  datatype Event<T> = Tick | Join(id: T)

  /** `x` is taken from the queue at the `j`-th tick of the run. */
  ghost predicate FiresAt<T>(q: seq<Entry<T>>, period: T -> int, run: seq<Event<T>>, x: T, j: nat)
    decreases |run|
  {
    if run == [] then false
    else
      match run[0]
      case Join(id) => FiresAt(Insert(q, id, period(id)), period, run[1..], x, j)
      case Tick =>
        if j == 1 then exists i :: 0 <= i < Expired(CountDown(q)) && CountDown(q)[i].id == x
        else j > 1 && FiresAt(PeriodTick(q, period), period, run[1..], x, j - 1)
  }

  /** Threads join the queue once. */
  ghost predicate JoinOnce<T>(q: seq<Entry<T>>, period: T -> int, run: seq<Event<T>>)
    decreases |run|
  {
    run != [] ==>
      match run[0]
      case Join(id) => !Has(q, id) && JoinOnce(Insert(q, id, period(id)), period, run[1..])
      case Tick => JoinOnce(PeriodTick(q, period), period, run[1..])
  }

  function Ticks<T>(run: seq<Event<T>>): nat
  {
    if run == [] then 0 else (if run[0].Tick? then 1 else 0) + Ticks(run[1..])
  }

  lemma ModMinus(a: int, p: int)
    requires p > 0
    ensures (a - p) % p == a % p
  {
    var k, r := a / p, a % p;
    ModUnique(a - p, p, k - 1, r, p * (k - 1));
  }

  lemma Magnitude(p: int, d: int)
    requires p > 0
    ensures d > 0 ==> p * d >= p
    ensures d < 0 ==> p * d <= -p
  {
    if d > 0 { assert p * (d - 1) >= 0; }
    if d < 0 { assert p * (-d - 1) >= 0; }
  }

  lemma ModUnique(a: int, p: int, k: int, r: int, pk: int)
    requires p > 0 && 0 <= r < p && pk == p * k && a == pk + r
    ensures a % p == r
  {
    Magnitude(p, k - a / p);
    assert p * (k - a / p) == a % p - r;
  }

  /** The ticks at which a thread with `r` ticks to go and period `p` is due. */
  ghost predicate OnBeat(j: int, r: int, p: int)
    requires p > 0
  {
    j >= r && (j - r) % p == 0
  }

  lemma NextBeat(j: int, r: int, p: int)
    requires j >= 1 && r >= 1 && p > 0
    ensures OnBeat(1, r, p) <==> r == 1
    ensures j > 1 ==> (OnBeat(j - 1, if r == 1 then p else r - 1, p) <==> OnBeat(j, r, p))
  {
    ModUnique(0, p, 0, 0, 0);
    if r == 1 {
      ModMinus(j - 1, p);
      if j - 1 < p { ModUnique(j - 1, p, 0, j - 1, 0); }
    }
  }

  /**
  In every run of ticks and joins, a thread with `r` ticks to go is taken at the `r`-th tick and from then
  on at every `period`-th, at no other, although expired entries go back into the queue being walked.
  */
  lemma {:induction false} FiresExactly<T>(q: seq<Entry<T>>, period: T -> int, run: seq<Event<T>>, x: T, j: nat)
    requires Pending(q) && Once(q) && Has(q, x) && Remaining(q, x) > 0
    requires (forall id :: period(id) > 0) && JoinOnce(q, period, run) && 1 <= j <= Ticks(run)
    ensures FiresAt(q, period, run, x, j) <==> OnBeat(j, Remaining(q, x), period(x))
    decreases |run|
  {
    hide OnBeat;
    NextBeat(j, Remaining(q, x), period(x));
    match run[0]
    case Join(id) =>
      InsertExpired(q, id, period(id));
      InsertOnce(q, id, period(id));
      InsertMembers(q, id, period(id), x);
      InsertRemaining(q, id, period(id), x);
      FiresExactly(Insert(q, id, period(id)), period, run[1..], x, j);
    case Tick =>
      CountDownAll(q, x);
      ExpiredAre(CountDown(q), x);
      PeriodTickAll(q, period, x);
      if j > 1 {
        FiresExactly(PeriodTick(q, period), period, run[1..], x, j - 1);
      }
  }

  /** A thread that joins is taken at exactly every multiple of its period of the ticks that follow. */
  lemma ExactPeriod<T>(q: seq<Entry<T>>, period: T -> int, run: seq<Event<T>>, x: T, j: nat)
    requires Pending(q) && Once(q) && !Has(q, x) && forall id :: period(id) > 0
    requires JoinOnce(q, period, [Join(x)] + run) && 1 <= j <= Ticks(run)
    ensures FiresAt(q, period, [Join(x)] + run, x, j) <==> j % period(x) == 0
  {
    var p, all := period(x), [Join(x)] + run;
    assert all[1..] == run;
    InsertExpired(q, x, p);
    InsertOnce(q, x, p);
    InsertMembers(q, x, p, x);
    InsertRemaining(q, x, p, x);
    FiresExactly(Insert(q, x, p), period, run, x, j);
    ModMinus(j, p);
    if j < p { ModUnique(j, p, 0, j, 0); }
  }

  // ----- the delay queue

  lemma {:induction false} DropAll<T>(q: seq<Entry<T>>, x: T)
    requires NonNegative(q) && Once(q)
    ensures Pending(DropExpired(q)) && Once(DropExpired(q))
    ensures Has(DropExpired(q), x) <==> Has(q, x) && Remaining(q, x) > 0
    ensures Has(DropExpired(q), x) ==> Remaining(DropExpired(q), x) == Remaining(q, x)
  {
    if q != [] {
      RemainingNonNegative(q[1..], x);
      if q[0].delta == 0 {
        DropAll(q[1..], x);
        assert DropExpired(q) == DropExpired(q[1..]);
        MemberPositive(q, x);
      } else {
        assert DropExpired(q) == q;
      }
    }
  }

  /** In a queue whose head is zero and whose ids are distinct, the head is not found further on. */
  lemma MemberPositive<T>(q: seq<Entry<T>>, x: T)
    requires q != [] && q[0].delta == 0 && Once(q)
    ensures Has(q, x) && Remaining(q, x) > 0 ==> x != q[0].id && Remaining(q, x) == Remaining(q[1..], x)
    ensures Has(q[1..], x) ==> x != q[0].id && Remaining(q, x) == Remaining(q[1..], x)
  {
  }

  /** The thread is readied at the `j`-th tick; other threads may be delayed at any time in between. */
  ghost predicate WokenAt<T>(q: seq<Entry<T>>, run: seq<Delay<T>>, x: T, j: nat)
    decreases |run|
  {
    if run == [] then false
    else
      match run[0]
      case Delayed(id, ticks) => WokenAt(Insert(q, id, ticks), run[1..], x, j)
      case Elapse =>
        if j == 1 then exists i :: 0 <= i < Expired(CountDown(q)) && CountDown(q)[i].id == x
        else j > 1 && WokenAt(DelayTick(q), run[1..], x, j - 1)
  }

  datatype Delay<T> = Elapse | Delayed(id: T, ticks: int)

  /** Threads are delayed for at least a tick, not while already delayed, and `x` not again. */
  ghost predicate Orderly<T>(q: seq<Entry<T>>, run: seq<Delay<T>>, x: T)
    decreases |run|
  {
    run != [] ==>
      match run[0]
      case Delayed(id, ticks) => ticks > 0 && id != x && !Has(q, id) && Orderly(Insert(q, id, ticks), run[1..], x)
      case Elapse => Orderly(DelayTick(q), run[1..], x)
  }

  ghost function Elapsed<T>(run: seq<Delay<T>>): nat
  {
    if run == [] then 0 else (if run[0].Elapse? then 1 else 0) + Elapsed(run[1..])
  }

  lemma {:induction false} NeverWoken<T>(q: seq<Entry<T>>, run: seq<Delay<T>>, x: T, j: nat)
    requires Pending(q) && Once(q) && !Has(q, x) && Orderly(q, run, x)
    ensures !WokenAt(q, run, x, j)
    decreases |run|
  {
    if run != [] {
      match run[0]
      case Delayed(id, ticks) =>
        InsertExpired(q, id, ticks);
        InsertOnce(q, id, ticks);
        InsertMembers(q, id, ticks, x);
        NeverWoken(Insert(q, id, ticks), run[1..], x, j);
      case Elapse =>
        CountDownAll(q, x);
        ExpiredAre(CountDown(q), x);
        DropAll(CountDown(q), x);
        if j > 1 { NeverWoken(DelayTick(q), run[1..], x, j - 1); }
    }
  }

  /** A thread with `r` ticks of delay left is readied by exactly the `r`-th call of the tick handler. */
  lemma {:induction false} ExactDelay<T>(q: seq<Entry<T>>, run: seq<Delay<T>>, x: T, j: nat)
    requires Pending(q) && Once(q) && Has(q, x) && Remaining(q, x) > 0
    requires Orderly(q, run, x) && 1 <= j <= Elapsed(run)
    ensures WokenAt(q, run, x, j) <==> j == Remaining(q, x)
    decreases |run|
  {
    match run[0]
    case Delayed(id, ticks) =>
      InsertExpired(q, id, ticks);
      InsertOnce(q, id, ticks);
      InsertMembers(q, id, ticks, x);
      InsertRemaining(q, id, ticks, x);
      ExactDelay(Insert(q, id, ticks), run[1..], x, j);
    case Elapse =>
      CountDownAll(q, x);
      ExpiredAre(CountDown(q), x);
      DropAll(CountDown(q), x);
      if j > 1 {
        if Remaining(q, x) == 1 {
          NeverWoken(DelayTick(q), run[1..], x, j - 1);
        } else {
          ExactDelay(DelayTick(q), run[1..], x, j - 1);
        }
      }
  }
}
