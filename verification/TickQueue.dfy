/** Tick queues on intrusive lists, and the two tick handlers that walk them. */
module TickQueue {
  import opened CircularList
  import D = DeltaQueue

  class Queue {
    const head: Node
    ghost var nodes: seq<Node>

    ghost predicate Valid()
      reads this, head, nodes
    {
      IsRing([head] + nodes)
    }

    /** The delta queue that the linked nodes hold. */
    ghost function Entries(): (q: seq<D.Entry<Node>>)
      reads this, nodes
      ensures |q| == |nodes|
    {
      seq(|nodes|, i requires 0 <= i < |nodes| reads this, nodes => D.Entry(nodes[i], nodes[i].value))
    }

    constructor Init()
      ensures Valid() && nodes == [] && fresh(head)
    {
      head := new Node(0, 0);
      nodes := [];
      new;
      assert [head] + nodes == [head];
    }

    /** The node at position `i` of the walk, which ends back at the head. */
    ghost function At(i: nat): Node
      requires i <= |nodes|
      reads this
    {
      if i < |nodes| then nodes[i] else head
    }

    /** Walks the queue, subtracting deltas, to the first node that is later, or back to the head. */
    method FindPlace(tnode: Node) returns (tmp: Node, rest: int, ghost i: nat)
      requires Valid()
      ensures i <= |nodes| && tmp == At(i)
      ensures i < |nodes| ==> rest < Entries()[i].delta
      ensures D.Insert(Entries(), tnode, tnode.value) == Entries()[..i] + D.Insert(Entries()[i..], tnode, rest)
    {
      ghost var q := Entries();
      var tick := tnode.value;
      tmp, rest, i := head.next, tick, 0;
      FirstAt();
      while tmp != head
        invariant 0 <= i <= |nodes| && tmp == At(i) && rest == tick
        invariant D.Insert(q, tnode, tnode.value) == q[..i] + D.Insert(q[i..], tnode, tick)
        decreases |nodes| - i
      {
        NextAt(i);
        SplitAt(q, i, tnode, tick);
        tick := tick - tmp.value;
        if tick < 0 {
          break;
        }
        tmp := tmp.next;
        rest := tick;
        i := i + 1;
      }
      if i < |nodes| { NextAt(i); }
    }

    lemma FirstAt()
      requires Valid()
      ensures head.next == At(0)
    {
      var ring := [head] + nodes;
      assert ring[0] == head && (nodes != [] ==> ring[1] == nodes[0]);
    }

    lemma NextAt(i: nat)
      requires Valid() && i < |nodes|
      ensures At(i) != head && At(i).next == At(i + 1) && At(i).value == Entries()[i].delta
    {
      var ring := [head] + nodes;
      assert ring[i + 1] == nodes[i] && ring[0] == head;
      assert i + 1 < |nodes| ==> ring[i + 2] == nodes[i + 1];
      assert i + 1 == |nodes| ==> ring[|ring| - 1] == nodes[i];
    }

    lemma DistinctNodes(i: nat, j: nat)
      requires Valid() && i < |nodes| && j < |nodes|
      ensures nodes[i] == nodes[j] ==> i == j
      ensures nodes[i] != head
    {
      var ring := [head] + nodes;
      assert ring[i + 1] == nodes[i] && ring[j + 1] == nodes[j] && ring[0] == head;
    }

    static lemma SplitAt(q: seq<D.Entry<Node>>, i: nat, tnode: Node, tick: int)
      requires i < |q|
      ensures tick >= q[i].delta ==>
        q[..i] + D.Insert(q[i..], tnode, tick) == q[..i + 1] + D.Insert(q[i + 1..], tnode, tick - q[i].delta)
    {
      assert q[i..][1..] == q[i + 1..] && q[..i + 1] == q[..i] + [q[i]];
    }

    /** Links the node in before the one found; no value changes. */
    method LinkBefore(tnode: Node, tmp: Node, ghost i: nat)
      requires Valid() && tnode != head && tnode !in nodes && i <= |nodes| && tmp == At(i)
      modifies this`nodes, tnode`next, tnode`prev, tmp`prev, tmp.prev`next
      ensures Valid() && nodes == old(nodes)[..i] + [tnode] + old(nodes)[i..]
    {
      ghost var ring := [head] + nodes;
      assert tmp == ring[if i < |nodes| then i + 1 else 0] && tmp.prev == ring[i];
      assert ring[i].next == tmp;
      ListAdd(tnode, tmp.prev, ring, i);
      nodes := nodes[..i] + [tnode] + nodes[i..];
      assert [head] + nodes == ring[..i + 1] + [tnode] + ring[i + 1..];
    }

    method SetValue(tmp: Node, value: int, ghost k: nat)
      requires Valid() && k < |nodes| && nodes[k] == tmp
      modifies tmp`value
      ensures Valid() && Entries() == old(Entries())[k := D.Entry(tmp, value)]
    {
      forall m | 0 <= m < |nodes| ensures nodes[m] == tmp <==> m == k { DistinctNodes(m, k); }
      tmp.value := value;
    }

    /** The new node takes what is left of its ticks, and the node behind it gives that up. */
    method TickQueueAdd(tnode: Node)
      requires Valid() && tnode != head && tnode !in nodes
      modifies this, head, nodes, tnode
      ensures Valid() && Entries() == D.Insert(old(Entries()), tnode, old(tnode.value))
      ensures forall n :: n in nodes <==> n in old(nodes) || n == tnode
    {
      hide IsRing, D.Insert;
      ghost var q := Entries();
      var tmp, rest, i := FindPlace(tnode);
      InRing(i);
      InsertAt(q, i, tnode, rest);
      tnode.value := rest;
      LinkBefore(tnode, tmp, i);
      assert Entries() == q[..i] + [D.Entry(tnode, rest)] + q[i..];
      if tmp != head {
        SetValue(tmp, tmp.value - rest, i + 1);
      }
    }

    static lemma InsertAt(q: seq<D.Entry<Node>>, i: nat, tnode: Node, rest: int)
      requires i <= |q| && (i < |q| ==> rest < q[i].delta)
      ensures var linked := q[..i] + [D.Entry(tnode, rest)] + q[i..];
        q[..i] + D.Insert(q[i..], tnode, rest) ==
          if i == |q| then linked else linked[i + 1 := D.Entry(q[i].id, q[i].delta - rest)]
    {
      if i < |q| { assert q[i..][1..] == q[i + 1..]; }
    }

    lemma NextInRing(i: nat)
      requires Valid() && i < |nodes|
      ensures At(i).next == head || At(i).next in nodes
    {
      NextAt(i);
    }

    lemma InRing(i: nat)
      requires Valid() && i <= |nodes|
      ensures At(i).prev == head || At(i).prev in nodes
      ensures i < |nodes| <==> At(i) != head
    {
      var ring := [head] + nodes;
      assert At(i) == ring[if i < |nodes| then i + 1 else 0];
      assert At(i).prev == ring[i];
    }

    /** Takes a node out; the deltas of the others stay as they are. */
    method TickQueueDel(tnode: Node, ghost i: nat)
      requires Valid() && i < |nodes| && nodes[i] == tnode
      modifies this`nodes, tnode`next, tnode`prev, tnode.prev`next, tnode.next`prev
      ensures Valid() && nodes == old(nodes)[..i] + old(nodes)[i + 1..]
      ensures Entries() == old(Entries())[..i] + old(Entries())[i + 1..]
    {
      ghost var ring := [head] + nodes;
      ListDel(tnode, ring, i + 1);
      nodes := nodes[..i] + nodes[i + 1..];
      assert [head] + nodes == ring[..i + 1] + ring[i + 2..];
    }

    /** One off the first node, unless it has come up already. */
    method CountDownFirst()
      requires Valid()
      modifies nodes
      ensures Valid() && Entries() == D.CountDown(old(Entries()))
    {
      hide IsRing;
      FirstAt();
      InRing(0);
      if nodes != [] { NextAt(0); }
      if head.next != head && head.next.value > 0 {
        ghost var q := Entries();
        SetValue(head.next, head.next.value - 1, 0);
        assert q == [q[0]] + q[1..];
      }
    }

    /** The nodes that are up, in the order in which they are taken. */
    static ghost function Up(q: seq<D.Entry<Node>>): seq<Node>
    {
      seq(D.Expired(q), i requires 0 <= i < D.Expired(q) => q[i].id)
    }

    /** Takes the node at the front of the walk out of the queue. */
    method TakeFirst(tmp: Node) returns (rest: Node)
      requires Valid() && nodes != [] && tmp == nodes[0]
      modifies this, head, nodes
      ensures Valid() && rest == At(0) && nodes == old(nodes)[1..] && tmp !in nodes && tmp != head
      ensures Entries() == old(Entries())[1..]
    {
      InRing(0);
      NextAt(0);
      NextInRing(0);
      forall k | 1 <= k < |nodes| ensures nodes[k] != tmp { DistinctNodes(0, k); }
      rest := tmp.next;
      ghost var q, before := Entries(), nodes;
      TickQueueDel(tmp, 0);
      assert before[..0] + before[1..] == before[1..] && q[..0] + q[1..] == q[1..];
    }

    /** The delay queue's tick: whatever has come up leaves the queue; `woken` are the threads made ready. */
    method TimeDelayDeal() returns (woken: seq<Node>)
      requires Valid() && D.Pending(Entries())
      modifies this, head, nodes
      ensures Valid() && Entries() == D.DelayTick(old(Entries())) && woken == Up(D.CountDown(old(Entries())))
      ensures forall n | n in nodes :: n in old(nodes)
    {
      hide IsRing, D.Pending, D.CountDown, D.Expired, D.DropExpired, Up, Left;
      woken := [];
      CountDownFirst();
      ghost var q := Entries();
      LeftStart(q);
      FirstAt();
      var tmp := head.next;
      while tmp != head
        invariant Valid() && tmp == At(0) && forall n | n in nodes :: n in old(nodes)
        invariant Left(q, Entries(), woken)
        decreases |nodes|
      {
        InRing(0);
        if tmp.value > 0 {
          break;
        }
        LeftStep(q, Entries(), woken, tmp);
        assert forall i | 0 <= i < |nodes| :: nodes[i] in old(nodes);
        woken := woken + [tmp];
        tmp := TakeFirst(tmp);
      }
      InRing(0);
      LeftDone(q, Entries(), woken);
    }

    /** Some of what is up in `q` has been woken, and `now` is left. */
    static ghost predicate Left(q: seq<D.Entry<Node>>, now: seq<D.Entry<Node>>, woken: seq<Node>)
    {
      |woken| <= D.Expired(q) && now == q[|woken|..] && woken == Up(q)[..|woken|]
    }

    static lemma LeftStart(q: seq<D.Entry<Node>>)
      ensures Left(q, q, [])
    {
    }

    static lemma LeftStep(q: seq<D.Entry<Node>>, now: seq<D.Entry<Node>>, woken: seq<Node>, tmp: Node)
      requires Left(q, now, woken) && now != [] && now[0].id == tmp && now[0].delta <= 0
      ensures Left(q, now[1..], woken + [tmp])
    {
      var d := |woken|;
      assert now[0] == q[d] && now[1..] == q[d + 1..];
      assert Up(q)[..d + 1] == Up(q)[..d] + [tmp];
    }

    static lemma LeftDone(q: seq<D.Entry<Node>>, now: seq<D.Entry<Node>>, woken: seq<Node>)
      requires Left(q, now, woken) && (now != [] ==> now[0].delta > 0)
      ensures now == D.DropExpired(q) && woken == Up(q)
    {
      DropIsSlice(q);
      assert now != [] ==> now[0] == q[|woken|];
    }

    static lemma {:induction false} DropIsSlice(q: seq<D.Entry<Node>>)
      ensures D.DropExpired(q) == q[D.Expired(q)..]
    {
      if q != [] && q[0].delta <= 0 {
        DropIsSlice(q[1..]);
        assert q[1..][D.Expired(q[1..])..] == q[D.Expired(q)..];
      }
    }

    static function Reload(n: Node): int
    {
      n.reload
    }

    /**
    The period queue's tick: whatever has come up is taken out and put back with its period while the
    walk goes on; `woken` are the threads dealt with.
    */
    method PeriodTimeDeal() returns (woken: seq<Node>)
      requires Valid() && D.Pending(Entries()) && forall n | n in nodes :: n.reload > 0
      modifies this, head, nodes
      ensures Valid() && Entries() == D.PeriodTick(old(Entries()), Reload)
      ensures woken == Up(D.CountDown(old(Entries())))
      ensures forall n :: n in nodes <==> n in old(nodes)
    {
      hide IsRing, D.CountDown, D.Requeue, D.NonNegative, Up, Renewing;
      woken := [];
      ghost var q0 := Entries();
      CountDownFirst();
      ghost var q := Entries();
      RenewingStart(q0, q);
      FirstAt();
      InRing(0);
      var tmp := head.next;
      UpHead(q);
      while tmp != head
        invariant Valid() && forall n :: n in nodes <==> n in old(nodes)
        invariant Renewing(q, Entries(), woken)
        invariant tmp == head || tmp in nodes
        invariant if D.Expired(Entries()) > 0 then tmp == At(0) else tmp == head || tmp.value > 0
        decreases D.Expired(Entries())
      {
        if tmp.value > 0 {
          break;
        }
        ghost var now, before := Entries(), woken;
        RenewingFacts(q, now, woken);
        assert forall i | 0 <= i < |nodes| :: nodes[i] in old(nodes);
        woken, tmp := Renew(tmp, woken);
        RenewingStep(q, now, before, Entries(), woken);
      }
      InRing(0);
      RenewingDone(q, Entries(), woken);
    }

    /** The walk over `q` has come to `now`, and what is still up will complete it. */
    static ghost predicate Renewing(q: seq<D.Entry<Node>>, now: seq<D.Entry<Node>>, woken: seq<Node>)
    {
      && D.NonNegative(now)
      && D.Requeue(now, Reload, D.Expired(now)) == D.Requeue(q, Reload, D.Expired(q))
      && woken + Up(now) == Up(q)
    }

    static lemma RenewingStart(q0: seq<D.Entry<Node>>, q: seq<D.Entry<Node>>)
      requires D.Pending(q0) && q == D.CountDown(q0)
      ensures Renewing(q, q, [])
    {
      hide D.Requeue;
      if q0 != [] { D.CountDownAll(q0, q0[0].id); }
    }

    static lemma RenewingFacts(q: seq<D.Entry<Node>>, now: seq<D.Entry<Node>>, woken: seq<Node>)
      requires Renewing(q, now, woken)
      ensures D.NonNegative(now)
    {
    }

    static lemma RenewingStep(q: seq<D.Entry<Node>>, now: seq<D.Entry<Node>>, woken: seq<Node>,
                              next: seq<D.Entry<Node>>, woken': seq<Node>)
      requires Renewing(q, now, woken) && D.NonNegative(next) && woken' + Up(next) == woken + Up(now)
      requires D.Requeue(next, Reload, D.Expired(next)) == D.Requeue(now, Reload, D.Expired(now))
      ensures Renewing(q, next, woken')
    {
      hide D.Requeue, Up;
    }

    static lemma RenewingDone(q: seq<D.Entry<Node>>, now: seq<D.Entry<Node>>, woken: seq<Node>)
      requires Renewing(q, now, woken) && D.Expired(now) == 0
      ensures now == D.Requeue(q, Reload, D.Expired(q)) && woken == Up(q)
    {
      RequeueNone(now);
      assert Up(now) == [];
    }

    static lemma UpHead(q: seq<D.Entry<Node>>)
      ensures D.Expired(q) > 0 <==> q != [] && q[0].delta <= 0
    {
    }

    static lemma RequeueNone(q: seq<D.Entry<Node>>)
      ensures D.Requeue(q, Reload, 0) == q
    {
    }

    /** One round: the node leaves the queue, its thread is dealt with, and it goes back with its period. */
    method Renew(tmp: Node, woken: seq<Node>) returns (woken': seq<Node>, rest: Node)
      requires Valid() && D.NonNegative(Entries()) && D.Expired(Entries()) > 0 && tmp == nodes[0] && tmp.reload > 0
      modifies this, head, nodes
      ensures Valid() && (forall n :: n in nodes <==> n in old(nodes))
      ensures Entries() == D.Insert(old(Entries())[1..], tmp, tmp.reload)
      ensures D.NonNegative(Entries()) && D.Expired(Entries()) == D.Expired(old(Entries())) - 1
      ensures D.Requeue(Entries(), Reload, D.Expired(Entries())) ==
        D.Requeue(old(Entries()), Reload, D.Expired(old(Entries())))
      ensures woken' + Up(Entries()) == woken + Up(old(Entries()))
      ensures rest == head || rest in nodes
      ensures if D.Expired(Entries()) > 0 then rest == At(0) else rest == head || rest.value > 0
    {
      hide IsRing, D.Insert, D.Requeue, Up, D.NonNegative;
      ghost var q := Entries();
      TailExpired(q);
      RequeueStep(q);
      assert tmp == q[0].id;
      rest := TakeFirst(tmp);
      woken' := woken + [tmp];
      tmp.next, tmp.prev, tmp.value := tmp, tmp, tmp.reload;
      D.InsertExpired(q[1..], tmp, tmp.reload);
      TickQueueAdd(tmp);
      Front(q, tmp, tmp.reload);
      if |q| > 1 {
        D.InsertKeepsFront(q[1..], tmp, tmp.reload, 0);
        assert Entries()[0].id == nodes[0] && Entries()[1].id == nodes[1];
      }
    }

    static lemma RequeueStep(q: seq<D.Entry<Node>>)
      requires D.Expired(q) > 0
      ensures D.Requeue(q, Reload, D.Expired(q)) ==
        D.Requeue(D.Insert(q[1..], q[0].id, q[0].id.reload), Reload, D.Expired(q) - 1)
    {
    }

    static lemma TailExpired(q: seq<D.Entry<Node>>)
      requires D.Expired(q) > 0 && D.NonNegative(q)
      ensures D.Expired(q[1..]) == D.Expired(q) - 1 && D.NonNegative(q[1..])
    {
    }

    /** Putting the first node back does not disturb the ones that are up behind it. */
    static lemma Front(q: seq<D.Entry<Node>>, id: Node, ticks: int)
      requires D.NonNegative(q) && D.Expired(q) > 0 && ticks > 0 && q[0].id == id
      ensures [id] + Up(D.Insert(q[1..], id, ticks)) == Up(q)
    {
      var tail := q[1..];
      var r := D.Insert(tail, id, ticks);
      TailExpired(q);
      hide D.Insert, D.NonNegative;
      D.InsertExpired(tail, id, ticks);
      forall i | 0 <= i < D.Expired(tail) ensures r[i] == q[i + 1] { D.InsertKeepsFront(tail, id, ticks, i); }
    }
  }
}
