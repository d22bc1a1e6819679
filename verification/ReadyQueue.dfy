/** The ready queue of a core: one queue per priority, a bitmap of the non-empty ones, a thread count,
    and the state flags of the threads, which must all tell the same story. */
module ReadyQueue {
  import opened Basics
  import opened Bitmap
  import opened WaitQueue
  import SlotPool

  /** `id` is the identifier word, which carries a tag of the core. */
  datatype Thread = Thread(id: nat, prio: nat, ready: bool, suspended: bool, running: bool)

  /** `Sent`: the thread belongs to another core, to which the command goes. */
  datatype Result = Ok | WrongState | Sent

  /** A thread stands in the queue of its priority exactly when it is flagged ready. */
  ghost predicate QueuesOk(queues: seq<seq<nat>>, threads: map<nat, Thread>) {
    && |queues| == MAX_PRIO_NUM
    && (forall p :: 0 <= p < |queues| ==> Distinct(queues[p]))
    && (forall p, t :: 0 <= p < |queues| && t in queues[p] ==> t in threads && threads[t].ready && threads[t].prio == p)
    && (forall t | t in threads :: ThreadOk(queues, threads[t], t))
  }

  predicate ThreadOk(queues: seq<seq<nat>>, thread: Thread, t: nat) {
    && thread.prio < |queues|
    && (thread.ready ==> t in queues[thread.prio])
    && thread.ready != thread.suspended
  }

  /** Bit `p` is set exactly when queue `p` is not empty. */
  ghost predicate BitmapOk(w0: bv32, w1: bv32, queues: seq<seq<nat>>) {
    forall p: nat :: IsSet(w0, w1, p) <==> p < |queues| && queues[p] != []
  }

  /** The linked threads. */
  ghost function Linked(threads: map<nat, Thread>): set<nat> {
    set t | t in threads && threads[t].ready
  }

  /** Only the current thread is flagged as running, and only while it is ready. */
  predicate RunningOk(threads: map<nat, Thread>, current: Option<nat>) {
    forall t | t in threads :: threads[t].running ==> threads[t].ready && current == Some(t)
  }

  function Readied(thread: Thread, core: nat): Thread {
    thread.(id := SlotPool.OnCore(thread.id, core), ready := true, suspended := false)
  }

  function Unreadied(thread: Thread): Thread { thread.(ready := false, suspended := true, running := false) }

  lemma AddKeeps(queues: seq<seq<nat>>, threads: map<nat, Thread>, t: nat, core: nat)
    requires QueuesOk(queues, threads) && t in threads && threads[t].suspended
    ensures threads[t].prio < |queues| == MAX_PRIO_NUM
    ensures var p := threads[t].prio;
            QueuesOk(queues[p := queues[p] + [t]], threads[t := Readied(threads[t], core)])
    ensures |Linked(threads[t := Readied(threads[t], core)])| == |Linked(threads)| + 1
  {
    assert Linked(threads[t := Readied(threads[t], core)]) == Linked(threads) + {t} && t !in Linked(threads);
    assert ThreadOk(queues, threads[t], t);
    var p := threads[t].prio;
    var more := queues[p := queues[p] + [t]];
    var after := threads[t := Readied(threads[t], core)];
    assert t !in queues[p];
    assert Distinct(more[p]);
    forall x | x in after
      ensures ThreadOk(more, after[x], x)
    {
      assert ThreadOk(queues, threads[x], x);
    }
  }

  lemma DelKeeps(queues: seq<seq<nat>>, threads: map<nat, Thread>, t: nat)
    requires QueuesOk(queues, threads) && t in threads && threads[t].ready
    ensures threads[t].prio < |queues| == MAX_PRIO_NUM && t in queues[threads[t].prio]
    ensures var p := threads[t].prio;
            QueuesOk(queues[p := Remove(queues[p], t)], threads[t := Unreadied(threads[t])])
    ensures |Linked(threads[t := Unreadied(threads[t])])| == |Linked(threads)| - 1
  {
    assert Linked(threads[t := Unreadied(threads[t])]) == Linked(threads) - {t} && t in Linked(threads);
    assert ThreadOk(queues, threads[t], t);
    var p := threads[t].prio;
    RemoveMembers(queues[p], t);
    hide Remove, Distinct;
    var less := queues[p := Remove(queues[p], t)];
    var after := threads[t := Unreadied(threads[t])];
    forall x | x in after
      ensures ThreadOk(less, after[x], x)
    {
      assert ThreadOk(queues, threads[x], x);
    }
  }

  lemma PrioKeeps(queues: seq<seq<nat>>, threads: map<nat, Thread>, t: nat, p: nat)
    requires QueuesOk(queues, threads) && t in threads && !threads[t].ready && p < MAX_PRIO_NUM
    ensures QueuesOk(queues, threads[t := threads[t].(prio := p)])
    ensures Linked(threads[t := threads[t].(prio := p)]) == Linked(threads)
  {
    hide Distinct;
    var after := threads[t := threads[t].(prio := p)];
    forall x | x in after
      ensures ThreadOk(queues, after[x], x)
    {
      assert ThreadOk(queues, threads[x], x);
    }
  }

  lemma SetKeeps(w0: bv32, w1: bv32, queues: seq<seq<nat>>, p: nat, q: seq<nat>)
    requires BitmapOk(w0, w1, queues) && p < |queues| <= 64 && q != []
    ensures BitmapOk(if p < 32 then WithSet(w0, p as bv8) else w0,
                     if p < 32 then w1 else WithSet(w1, p as bv8), queues[p := q])
  {
    forall x: nat { SetOne(w0, w1, p, x); }
    hide IsSet, WithSet;
  }

  lemma ClearKeeps(w0: bv32, w1: bv32, queues: seq<seq<nat>>, p: nat)
    requires BitmapOk(w0, w1, queues) && p < |queues| <= 64
    ensures BitmapOk(if p < 32 then WithClear(w0, p as bv8) else w0,
                     if p < 32 then w1 else WithClear(w1, p as bv8), queues[p := []])
  {
    forall x: nat { ClearOne(w0, w1, p, x); }
    hide IsSet, WithClear;
  }

  lemma SameBits(w0: bv32, w1: bv32, queues: seq<seq<nat>>, p: nat, q: seq<nat>)
    requires BitmapOk(w0, w1, queues) && p < |queues| && queues[p] != [] && q != []
    ensures BitmapOk(w0, w1, queues[p := q])
  {
    hide IsSet;
  }

  /** The first bit of a bitmap that agrees with the queues names the first linked thread of the
      numerically smallest priority. */
  lemma FirstIsMostUrgent(w0: bv32, w1: bv32, queues: seq<seq<nat>>, threads: map<nat, Thread>, p: nat)
    requires QueuesOk(queues, threads) && BitmapOk(w0, w1, queues)
    requires IsSet(w0, w1, p) && forall q: nat | q < p :: !IsSet(w0, w1, q)
    ensures p < |queues| && queues[p] != [] && queues[p][0] in threads
    ensures threads[queues[p][0]].ready && threads[queues[p][0]].prio == p
    ensures forall x :: x in Linked(threads) ==> x in threads && p <= threads[x].prio
  {
    hide IsSet, Distinct;
    assert queues[p][0] in queues[p];
    forall x | x in Linked(threads)
      ensures x in threads && p <= threads[x].prio
    {
      assert ThreadOk(queues, threads[x], x);
      assert IsSet(w0, w1, threads[x].prio);
    }
  }

  lemma LinkedHasBit(w0: bv32, w1: bv32, queues: seq<seq<nat>>, threads: map<nat, Thread>)
    requires QueuesOk(queues, threads) && BitmapOk(w0, w1, queues) && Linked(threads) != {}
    ensures w0 != 0 || w1 != 0
  {
    hide Distinct, IsSet;
    var x :| x in Linked(threads);
    assert ThreadOk(queues, threads[x], x);
    assert IsSet(w0, w1, threads[x].prio);
    NoneSet(w0, w1);
  }

  lemma RunningChanges(threads: map<nat, Thread>, current: Option<nat>, t: nat, core: nat, p: nat)
    requires RunningOk(threads, current) && t in threads
    ensures RunningOk(threads[t := Readied(threads[t], core)], current)
    ensures RunningOk(threads[t := Unreadied(threads[t])], current)
    ensures RunningOk(threads[t := threads[t].(prio := p)], current)
  {
  }

  /** The running flag moves from one thread to another. */
  function Passed(threads: map<nat, Thread>, current: Option<nat>, next: nat): map<nat, Thread>
    requires next in threads
  {
    var off := if current.Some? && current.value in threads
               then threads[current.value := threads[current.value].(running := false)] else threads;
    off[next := off[next].(running := true)]
  }

  lemma PassedIs(queues: seq<seq<nat>>, threads: map<nat, Thread>, current: Option<nat>, next: nat)
    requires QueuesOk(queues, threads) && RunningOk(threads, current) && next in threads && threads[next].ready
    ensures var after := Passed(threads, current, next);
            && after.Keys == threads.Keys && (forall t | t in threads :: after[t] == threads[t].(running := t == next))
            && RunningOk(after, Some(next)) && QueuesOk(queues, after) && Linked(after) == Linked(threads)
  {
    var after := Passed(threads, current, next);
    assert forall t | t in threads :: after[t] == threads[t].(running := t == next);
    hide Passed;
    FlagsOnly(queues, threads, after);
  }

  /** Queues, flags and count do not depend on who is running. */
  lemma FlagsOnly(queues: seq<seq<nat>>, threads: map<nat, Thread>, after: map<nat, Thread>)
    requires QueuesOk(queues, threads) && after.Keys == threads.Keys
    requires forall t | t in threads :: after[t] == threads[t].(running := after[t].running)
    ensures QueuesOk(queues, after) && Linked(after) == Linked(threads)
  {
    forall t | t in after ensures ThreadOk(queues, after[t], t) { assert ThreadOk(queues, threads[t], t); }
  }

  /** What readying and suspending do to a thread's flags and identifier. */
  lemma FlagsAre(thread: Thread, core: nat)
    ensures var r := Readied(thread, core);
            && r.ready && !r.suspended && r.running == thread.running && r.prio == thread.prio
            && r.id % 0x100_0000 == thread.id % 0x100_0000 && (core < 2 ==> (r.id / 0x100_0000) % 2 == core)
    ensures var u := Unreadied(thread);
            !u.ready && u.suspended && !u.running && u.prio == thread.prio && u.id == thread.id
  {
    SlotPool.CoreTagIs(thread.id, core);
  }

  class Core {
    const words: array<bv32>
    const core: nat
    var num: int
    var queues: seq<seq<nat>>
    var threads: map<nat, Thread>
    /** The threads of the other cores, as they look from here. */
    var others: map<nat, Thread>
    /** The thread that was last made the running one. */
    var current: Option<nat>
    var needSched: bool
    /** Whatever lies behind the bitmap in memory. */
    var beyond: bv32

    /** Queues, flags, bitmap and count agree. */
    ghost predicate Valid()
      reads this, words
    {
      && words.Length == 2
      && QueuesOk(queues, threads)
      && BitmapOk(words[0], words[1], queues)
      && num == |Linked(threads)|
      && threads.Keys !! others.Keys
      && RunningOk(threads, current)
    }

    /** An empty ready queue over threads that are all suspended. */
    constructor (core: nat, created: map<nat, Thread>, others: map<nat, Thread>)
      requires created.Keys !! others.Keys
      requires forall t | t in created ::
                 created[t].prio < MAX_PRIO_NUM && !created[t].ready && created[t].suspended && !created[t].running
      ensures Valid() && fresh(words) && this.core == core && threads == created && this.others == others
      ensures |queues| == 61 && forall p :: 0 <= p < 61 ==> queues[p] == []
    {
      words := new bv32[2](_ => 0);
      this.core, this.others := core, others;
      num, threads := 0, created;
      queues := seq(MAX_PRIO_NUM, _ => []);
      current, needSched, beyond := None, false, 0;
      new;
      NoneSet(words[0], words[1]);
      hide IsSet;
      assert Linked(threads) == {};
    }

    /** Set the bit of a priority whose queue is about to be `queue`. */
    method MarkPrio(p: nat, ghost queue: seq<nat>)
      requires words.Length == 2 && BitmapOk(words[0], words[1], queues)
      requires p < |queues| <= 64 && queue != []
      modifies words
      ensures BitmapOk(words[0], words[1], queues[p := queue])
    {
      hide BitmapOk, WithSet, IsSet;
      Numbers(p, 32);
      SetKeeps(words[0], words[1], queues, p, queue);
      SetBit(p as bv8, words);
    }

    /** Clear the bit of a priority whose queue is about to be empty; `rest` is what it is about to be. */
    method UnmarkPrio(p: nat, empty: bool, ghost rest: seq<nat>)
      requires words.Length == 2 && BitmapOk(words[0], words[1], queues)
      requires p < |queues| <= 64 && queues[p] != [] && (empty <==> rest == [])
      modifies words
      ensures BitmapOk(words[0], words[1], queues[p := rest])
    {
      hide BitmapOk, WithClear, IsSet;
      if empty {
        Numbers(p, 32);
        ClearKeeps(words[0], words[1], queues, p);
        ClearBit(p as bv8, words);
      } else {
        SameBits(words[0], words[1], queues, p, rest);
      }
    }

    /** Link a thread at the end of its priority's queue. */
    method QueueAdd(t: nat)
      requires Valid() && t in threads && threads[t].suspended
      modifies this`num, this`queues, this`threads, this`needSched, words
      ensures Valid() && needSched && old(threads[t].prio) < |old(queues)|
      ensures threads == old(threads)[t := Readied(old(threads[t]), core)]
      ensures queues == old(queues)[old(threads[t].prio) := old(queues[threads[t].prio]) + [t]]
    {
      hide Linked, QueuesOk, BitmapOk, Readied, RunningOk;
      RunningChanges(threads, current, t, core, 0);
      var p := threads[t].prio;
      AddKeeps(queues, threads, t, core);
      var queue := queues[p] + [t];
      assert queue != [];
      num := num + 1;
      MarkPrio(p, queue);
      queues := queues[p := queue];
      threads := threads[t := Readied(threads[t], core)];
      needSched := true;
    }

    /** Unlink a thread; its priority's bit goes with the last one. */
    method QueueDel(t: nat)
      requires Valid() && t in threads && threads[t].ready
      modifies this`num, this`queues, this`threads, this`needSched, words
      ensures Valid() && needSched && old(threads[t].prio) < |old(queues)|
      ensures threads == old(threads)[t := Unreadied(old(threads[t]))]
      ensures queues == old(queues)[old(threads[t].prio) := Remove(old(queues[threads[t].prio]), t)]
    {
      hide Linked, QueuesOk, BitmapOk, Remove, RunningOk;
      RunningChanges(threads, current, t, core, 0);
      var p := threads[t].prio;
      DelKeeps(queues, threads, t);
      num := num - 1;
      var rest := Removed(queues[p], t);
      UnmarkPrio(p, rest == [], rest) by { assert t in queues[p]; }
      queues := queues[p := rest];
      threads := threads[t := Unreadied(threads[t])];
      needSched := true;
    }

    /** Only a suspended thread is readied, here or by a command to its own core. */
    method RdyThread(t: nat) returns (r: Result)
      requires Valid() && (t in threads || t in others)
      modifies this`num, this`queues, this`threads, this`needSched, words
      ensures Valid()
      ensures r == if t in others then (if others[t].suspended then Sent else WrongState)
                   else if old(threads[t].suspended) then Ok else WrongState
      ensures !r.Ok? ==> unchanged(this) && unchanged(words)
      ensures r.Ok? ==> old(threads[t].prio) < |old(queues)|
                        && queues == old(queues)[old(threads[t].prio) := old(queues[threads[t].prio]) + [t]]
                        && threads == old(threads)[t := Readied(old(threads[t]), core)]
    {
      hide Linked, QueuesOk, BitmapOk, RunningOk;
      if !(if t in others then others[t] else threads[t]).suspended { return WrongState; }
      if t in others { return Sent; }
      QueueAdd(t);
      return Ok;
    }

    /** Only a ready thread is suspended, here or by a command to its own core. */
    method SuspendThread(t: nat) returns (r: Result)
      requires Valid() && (t in threads || t in others)
      modifies this`num, this`queues, this`threads, this`needSched, words
      ensures Valid()
      ensures r == if t in others then (if others[t].ready then Sent else WrongState)
                   else if old(threads[t].ready) then Ok else WrongState
      ensures !r.Ok? ==> unchanged(this) && unchanged(words)
      ensures r.Ok? ==> old(threads[t].prio) < |old(queues)|
                        && queues == old(queues)[old(threads[t].prio) := Remove(old(queues[threads[t].prio]), t)]
                        && threads == old(threads)[t := Unreadied(old(threads[t]))]
    {
      hide Linked, QueuesOk, BitmapOk, RunningOk;
      if !(if t in others then others[t] else threads[t]).ready { return WrongState; }
      if t in others { return Sent; }
      QueueDel(t);
      return Ok;
    }

    /** A ready thread moves to the end of its new queue, and stops counting as running until it is
        selected again; another thread just gets the new priority. For a thread of another core the
        command is sent. */
    method ChangePrio(t: nat, p: nat) returns (r: Result)
      requires Valid() && (t in threads || t in others) && p < MAX_PRIO_NUM
      modifies this`num, this`queues, this`threads, this`needSched, words
      ensures Valid() && r == (if t in others then Sent else Ok)
      ensures r.Sent? ==> unchanged(this) && unchanged(words)
      ensures r.Ok? ==>
                && |old(queues)| == MAX_PRIO_NUM && old(threads[t].prio) < MAX_PRIO_NUM
                && (if old(threads[t]).ready
                    then threads == old(threads)[t := Readied(Unreadied(old(threads[t])).(prio := p), core)]
                         && var q := old(queues)[old(threads[t].prio) := Remove(old(queues[threads[t].prio]), t)];
                            queues == q[p := q[p] + [t]]
                    else threads == old(threads)[t := old(threads[t]).(prio := p)] && queues == old(queues))
    {
      hide Linked, QueuesOk, BitmapOk, Remove, Readied, Unreadied, RunningOk;
      if t in others { return Sent; }
      ReadyNotSuspended(queues, threads, t);
      if threads[t].ready {
        QueueDel(t);
        UnreadiedIs(old(threads[t]));
        SetPrio(t, p);
        QueueAdd(t);
      } else {
        SetPrio(t, p);
      }
      return Ok;
    }

    static lemma UnreadiedIs(thread: Thread)
      ensures !Unreadied(thread).ready && Unreadied(thread).suspended && Unreadied(thread).prio == thread.prio
    {
    }

    lemma ReadyNotSuspended(queues: seq<seq<nat>>, threads: map<nat, Thread>, t: nat)
      requires QueuesOk(queues, threads) && t in threads
      ensures |queues| == MAX_PRIO_NUM && threads[t].prio < |queues| && threads[t].ready != threads[t].suspended
    {
      assert ThreadOk(queues, threads[t], t);
    }

    method SetPrio(t: nat, p: nat)
      requires Valid() && t in threads && !threads[t].ready && p < MAX_PRIO_NUM
      modifies this`threads
      ensures Valid() && threads == old(threads)[t := old(threads[t]).(prio := p)]
    {
      hide Linked, QueuesOk, BitmapOk, RunningOk;
      PrioKeeps(queues, threads, t, p);
      RunningChanges(threads, current, t, core, p);
      threads := threads[t := threads[t].(prio := p)];
    }

    /** Another thread is made the running one. */
    method SetRunning(next: nat)
      requires Valid() && next in threads && threads[next].ready
      modifies this`threads, this`current
      ensures Valid() && current == Some(next)
      ensures threads.Keys == old(threads).Keys
      ensures forall t | t in threads :: threads[t] == old(threads[t]).(running := t == next)
    {
      hide QueuesOk, Linked, BitmapOk, RunningOk;
      PassedIs(queues, threads, current, next);
      if current.Some? && current.value in threads {
        threads := threads[current.value := threads[current.value].(running := false)];
      }
      threads := threads[next := threads[next].(running := true)];
      current := Some(next);
    }

    /** The thread to run: the first of the most urgent non-empty queue. The idle thread is always
        linked, so the bitmap is never empty. */
    method SelectThread() returns (t: nat)
      requires Valid() && Linked(threads) != {}
      ensures t in threads && threads[t].ready
      ensures threads[t].prio < |queues| && queues[threads[t].prio] != [] && queues[threads[t].prio][0] == t
      ensures forall x :: x in Linked(threads) ==> x in threads && threads[t].prio <= threads[x].prio
    {
      LinkedHasBit(words[0], words[1], queues, threads);
      hide Linked, QueuesOk, BitmapOk, IsSet;
      var p := FirstSet(words, beyond);
      FirstIsMostUrgent(words[0], words[1], queues, threads, p);
      t := queues[p][0];
    }
  }
}
