/** Intrusive circular doubly linked lists. */
module CircularList {
  import opened Basics

  /** A list node; `reload` is what the thread that embeds the node counts down from, in ticks. */
  class Node {
    var next: Node
    var prev: Node
    var value: int
    const reload: int

    /** A node on its own is a ring of one. */
    constructor (value: int, reload: int)
      ensures this.value == value && this.reload == reload && IsRing([this])
    {
      this.value, this.reload := value, reload;
      next := this;
      prev := this;
    }
  }

  /** The nodes of `r` are linked to a ring, in this order, both ways. */
  ghost predicate IsRing(r: seq<Node>)
    reads r
  {
    && r != [] && Distinct(r)
    && (forall i | 0 <= i < |r| - 1 :: r[i].next == r[i + 1])
    && (forall i | 1 <= i < |r| :: r[i].prev == r[i - 1])
    && r[|r| - 1].next == r[0] && r[0].prev == r[|r| - 1]
  }

  /** Links `node` in right after `at`, which is `r[i]`. */
  method ListAdd(node: Node, at: Node, ghost r: seq<Node>, ghost i: nat)
    requires IsRing(r) && i < |r| && r[i] == at && node !in r
    modifies node`next, node`prev, at`next, at.next`prev
    ensures IsRing(r[..i + 1] + [node] + r[i + 1..])
  {
    ghost var r' := r[..i + 1] + [node] + r[i + 1..];
    assert at.next == if i < |r| - 1 then r[i + 1] else r[0];
    node.prev := at;
    node.next := at.next;
    at.next.prev := node;
    at.next := node;
    forall k | 0 <= k < |r'| - 1 ensures r'[k].next == r'[k + 1] {
      if k > i + 1 { assert r'[k] == r[k - 1] && r'[k + 1] == r[k]; }
    }
    forall k | 1 <= k < |r'| ensures r'[k].prev == r'[k - 1] {
      if k > i + 2 { assert r'[k] == r[k - 1] && r'[k - 1] == r[k - 2]; }
    }
  }

  /** Links `node` in right before the head of the ring, at its end. */
  method ListAddTail(node: Node, head: Node, ghost r: seq<Node>)
    requires IsRing(r) && r[0] == head && node !in r
    modifies node`next, node`prev, head`prev, head.prev`next
    ensures IsRing(r + [node])
  {
    assert head.prev in r by { assert head.prev == r[|r| - 1]; }
    node.prev := head.prev;
    node.next := head;
    head.prev.next := node;
    head.prev := node;
  }

  /** Takes `entry`, which is `r[i]`, out of the ring and leaves it a ring of one. */
  method ListDel(entry: Node, ghost r: seq<Node>, ghost i: nat)
    requires IsRing(r) && 0 < i < |r| && r[i] == entry
    modifies entry`next, entry`prev, entry.prev`next, entry.next`prev
    ensures IsRing(r[..i] + r[i + 1..]) && IsRing([entry])
  {
    assert entry.prev == r[i - 1];
    assert entry.next == if i < |r| - 1 then r[i + 1] else r[0];
    entry.prev.next := entry.next;
    entry.next.prev := entry.prev;
    entry.next := entry;
    entry.prev := entry;
    assert entry !in r[..i] + r[i + 1..];
  }
}
