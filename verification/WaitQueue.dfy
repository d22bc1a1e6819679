/** Queues of threads ordered by a key each thread carries, or first in first out. */
module WaitQueue {
  import opened Basics

  predicate Known(keys: seq<nat>, queue: seq<nat>) {
    forall i :: 0 <= i < |queue| ==> queue[i] < |keys|
  }

  /** Keys never decrease along the queue. */
  predicate Sorted(keys: seq<nat>, queue: seq<nat>)
    requires Known(keys, queue)
  {
    forall i, j :: 0 <= i < j < |queue| ==> keys[queue[i]] <= keys[queue[j]]
  }

  /** Where a newcomer goes: in front of the first entry with a larger key, or to the end. */
  function Place(keys: seq<nat>, fifo: bool, queue: seq<nat>, key: nat): (i: nat)
    requires Known(keys, queue)
    ensures i <= |queue|
    ensures !fifo ==> forall j :: 0 <= j < i ==> keys[queue[j]] <= key
    ensures !fifo && i < |queue| ==> keys[queue[i]] > key
    ensures fifo ==> i == |queue|
  {
    if queue == [] || (!fifo && keys[queue[0]] > key) then 0
    else
      assert forall j :: 0 <= j < |queue| - 1 ==> queue[1..][j] == queue[j + 1];
      1 + Place(keys, fifo, queue[1..], key)
  }

  function Insert(keys: seq<nat>, fifo: bool, queue: seq<nat>, t: nat): seq<nat>
    requires Known(keys, queue) && t < |keys|
  {
    var i := Place(keys, fifo, queue, keys[t]);
    queue[..i] + [t] + queue[i..]
  }

  function Remove(queue: seq<nat>, t: nat): seq<nat> {
    if queue == [] then [] else if queue[0] == t then queue[1..] else [queue[0]] + Remove(queue[1..], t)
  }

  lemma InsertMembers(keys: seq<nat>, fifo: bool, queue: seq<nat>, t: nat)
    requires Known(keys, queue) && t < |keys|
    ensures forall x :: x in Insert(keys, fifo, queue, t) <==> x == t || x in queue
    ensures Known(keys, Insert(keys, fifo, queue, t))
  {
    var i := Place(keys, fifo, queue, keys[t]);
    var q := Insert(keys, fifo, queue, t);
    hide Place, Insert;
    assert queue == queue[..i] + queue[i..];
    assert forall x :: x in q <==> x == t || x in queue;
    forall j | 0 <= j < |q| ensures q[j] < |keys| { assert q[j] in q; }
  }

  lemma InsertPair(queue: seq<nat>, i: nat, t: nat, j: nat, k: nat)
    requires i <= |queue| && j < k <= |queue|
    ensures var q := queue[..i] + [t] + queue[i..];
            && q[j] == (if j < i then queue[j] else if j == i then t else queue[j - 1])
            && q[k] == (if k < i then queue[k] else if k == i then t else queue[k - 1])
  {
  }

  lemma InsertDistinct(keys: seq<nat>, fifo: bool, queue: seq<nat>, t: nat)
    requires Known(keys, queue) && t < |keys| && t !in queue && Distinct(queue)
    ensures Distinct(Insert(keys, fifo, queue, t))
  {
    var i := Place(keys, fifo, queue, keys[t]);
    var q := Insert(keys, fifo, queue, t);
    forall j, k | 0 <= j < k < |q|
      ensures q[j] != q[k]
    {
      InsertPair(queue, i, t, j, k);
    }
  }

  lemma InsertBehindEquals(keys: seq<nat>, queue: seq<nat>, t: nat)
    requires Known(keys, queue) && t < |keys| && Sorted(keys, queue)
    ensures var i := Place(keys, false, queue, keys[t]);
            && (forall j :: 0 <= j < i ==> keys[queue[j]] <= keys[t])
            && (forall j :: i <= j < |queue| ==> keys[queue[j]] > keys[t])
  {
    var i := Place(keys, false, queue, keys[t]);
    forall j | i <= j < |queue|
      ensures keys[queue[j]] > keys[t]
    {
      assert j > i ==> keys[queue[i]] <= keys[queue[j]];
    }
  }

  lemma InsertSorted(keys: seq<nat>, queue: seq<nat>, t: nat)
    requires Known(keys, queue) && t < |keys| && Sorted(keys, queue)
    ensures Known(keys, Insert(keys, false, queue, t)) && Sorted(keys, Insert(keys, false, queue, t))
    ensures exists i :: 0 <= i <= |queue| && Insert(keys, false, queue, t) == queue[..i] + [t] + queue[i..]
                        && (forall j :: 0 <= j < i ==> keys[queue[j]] <= keys[t])
                        && (forall j :: i <= j < |queue| ==> keys[queue[j]] > keys[t])
  {
    InsertBehindEquals(keys, queue, t);
    InsertMembers(keys, false, queue, t);
    var i := Place(keys, false, queue, keys[t]);
    var q := Insert(keys, false, queue, t);
    forall j, k | 0 <= j < k < |q|
      ensures keys[q[j]] <= keys[q[k]]
    {
      InsertPair(queue, i, t, j, k);
      if j == i && k > i + 1 { assert keys[queue[i]] <= keys[queue[k - 1]]; }
    }
  }

  lemma {:induction false} RemoveMembers(queue: seq<nat>, t: nat)
    requires Distinct(queue)
    ensures forall x :: x in Remove(queue, t) <==> x in queue && x != t
    ensures Distinct(Remove(queue, t))
  {
    if queue != [] {
      var rest := queue[1..];
      assert forall i :: 0 <= i < |rest| ==> rest[i] == queue[i + 1];
      assert forall x :: x in queue <==> x == queue[0] || x in rest;
      assert queue[0] !in rest;
      RemoveMembers(rest, t);
    }
  }

  /** Removing what was just inserted gives the queue back. */
  lemma {:induction false} RemoveKnown(keys: seq<nat>, queue: seq<nat>, t: nat)
    requires Known(keys, queue)
    ensures Known(keys, Remove(queue, t))
  {
    if queue != [] {
      assert forall i :: 0 <= i < |queue| - 1 ==> queue[1..][i] == queue[i + 1];
      RemoveKnown(keys, queue[1..], t);
    }
  }

  /* ---- Whose turn it is ---- */

  /** Thread `a` is served before `b`: by key and then by arrival, or by arrival alone; `since` says when
      each thread arrived. */
  predicate Before(keys: seq<nat>, fifo: bool, since: seq<int>, a: nat, b: nat)
    requires a < |keys| && b < |keys| && |since| == |keys|
  {
    if fifo then since[a] < since[b] else keys[a] < keys[b] || (keys[a] == keys[b] && since[a] < since[b])
  }

  predicate InTurn(keys: seq<nat>, fifo: bool, since: seq<int>, queue: seq<nat>)
    requires Known(keys, queue) && |since| == |keys|
  {
    forall i, j :: 0 <= i < j < |queue| ==> Before(keys, fifo, since, queue[i], queue[j])
  }

  /** The last to arrive goes to its place. */
  lemma InsertInTurn(keys: seq<nat>, fifo: bool, since: seq<int>, queue: seq<nat>, t: nat, now: int)
    requires Known(keys, queue) && t < |keys| == |since| && t !in queue && InTurn(keys, fifo, since, queue)
    requires forall x <- queue :: since[x] < now
    ensures Known(keys, Insert(keys, fifo, queue, t)) && InTurn(keys, fifo, since[t := now], Insert(keys, fifo, queue, t))
  {
    InsertMembers(keys, fifo, queue, t);
    var i := Place(keys, fifo, queue, keys[t]);
    var q := Insert(keys, fifo, queue, t);
    forall j, k | 0 <= j < k < |q|
      ensures Before(keys, fifo, since[t := now], q[j], q[k])
    {
      InsertPair(queue, i, t, j, k);
      BehindPlace(keys, fifo, since, queue, keys[t], k - 1);
      hide Place, Insert;
    }
  }

  lemma BehindPlace(keys: seq<nat>, fifo: bool, since: seq<int>, queue: seq<nat>, key: nat, k: int)
    requires Known(keys, queue) && |since| == |keys| && InTurn(keys, fifo, since, queue)
    ensures !fifo && Place(keys, fifo, queue, key) <= k < |queue| ==> keys[queue[k]] > key
  {
  }

  lemma {:induction false} RemoveInTurn(keys: seq<nat>, fifo: bool, since: seq<int>, queue: seq<nat>, t: nat)
    requires Known(keys, queue) && |since| == |keys| && InTurn(keys, fifo, since, queue)
    ensures Known(keys, Remove(queue, t)) && InTurn(keys, fifo, since, Remove(queue, t))
    ensures forall x <- Remove(queue, t) :: x in queue
  {
    if queue != [] {
      var rest := queue[1..];
      assert forall i :: 0 <= i < |rest| ==> rest[i] == queue[i + 1];
      RemoveInTurn(keys, fifo, since, rest, t);
      var r := Remove(rest, t);
      forall k | 0 <= k < |r|
        ensures r[k] < |keys| && Before(keys, fifo, since, queue[0], r[k])
      {
        assert r[k] in rest;
      }
    }
  }

  lemma {:induction false} RemoveSorted(keys: seq<nat>, queue: seq<nat>, t: nat)
    requires Known(keys, queue) && Sorted(keys, queue)
    ensures Known(keys, Remove(queue, t)) && Sorted(keys, Remove(queue, t))
    ensures forall x <- Remove(queue, t) :: x in queue
  {
    if queue != [] {
      var rest := queue[1..];
      assert forall i :: 0 <= i < |rest| ==> rest[i] == queue[i + 1];
      if queue[0] != t {
        RemoveSorted(keys, rest, t);
        FrontSorted(keys, queue, Remove(rest, t));
      }
    }
  }

  lemma FrontSorted(keys: seq<nat>, queue: seq<nat>, r: seq<nat>)
    requires queue != [] && Known(keys, queue) && Sorted(keys, queue) && Known(keys, r) && Sorted(keys, r)
    requires forall x <- r :: x in queue[1..]
    ensures Known(keys, [queue[0]] + r) && Sorted(keys, [queue[0]] + r)
  {
    var all := [queue[0]] + r;
    forall i, j | 0 <= i < j < |all|
      ensures keys[all[i]] <= keys[all[j]]
    {
      if i == 0 {
        assert r[j - 1] in queue[1..];
        var k :| 0 <= k < |queue| - 1 && queue[1..][k] == r[j - 1];
      }
    }
  }

  lemma {:induction false} RemoveUndoesInsert(keys: seq<nat>, fifo: bool, queue: seq<nat>, t: nat)
    requires Known(keys, queue) && t < |keys| && t !in queue
    ensures Remove(Insert(keys, fifo, queue, t), t) == queue
  {
    var i := Place(keys, fifo, queue, keys[t]);
    RemoveAt(queue, i, t);
  }

  lemma {:induction false} RemoveAt(queue: seq<nat>, i: nat, t: nat)
    requires i <= |queue| && t !in queue
    ensures Remove(queue[..i] + [t] + queue[i..], t) == queue
  {
    var q := queue[..i] + [t] + queue[i..];
    if i == 0 {
      assert q[1..] == queue;
    } else {
      RemoveAt(queue[1..], i - 1, t);
      assert q[1..] == queue[1..][..i - 1] + [t] + queue[1..][i - 1..];
    }
  }

  method Inserted(keys: seq<nat>, fifo: bool, queue: seq<nat>, t: nat) returns (q: seq<nat>)
    requires Known(keys, queue) && t < |keys|
    ensures q == Insert(keys, fifo, queue, t)
  {
    var i := 0;
    while i < |queue|
      invariant i <= |queue| && Known(keys, queue[i..])
      invariant i + Place(keys, fifo, queue[i..], keys[t]) == Place(keys, fifo, queue, keys[t])
    {
      if !fifo && keys[queue[i]] > keys[t] { break; }
      assert queue[i..][1..] == queue[i + 1..];
      i := i + 1;
    }
    q := queue[..i] + [t] + queue[i..];
  }

  lemma RemoveSkips(queue: seq<nat>, i: nat, t: nat)
    requires i < |queue| && queue[i] != t
    ensures queue[..i + 1] + Remove(queue[i + 1..], t) == queue[..i] + Remove(queue[i..], t)
  {
    assert queue[i..][1..] == queue[i + 1..];
    assert queue[..i + 1] == queue[..i] + [queue[i]];
  }

  method Removed(queue: seq<nat>, t: nat) returns (q: seq<nat>)
    ensures q == Remove(queue, t)
  {
    var i := 0;
    while i < |queue| && queue[i] != t
      invariant i <= |queue| && queue[..i] + Remove(queue[i..], t) == Remove(queue, t)
    {
      RemoveSkips(queue, i, t);
      hide Remove;
      i := i + 1;
    }
    if i == |queue| { return queue; }
    assert queue[i..][1..] == queue[i + 1..];
    return queue[..i] + queue[i + 1..];
  }
}
