/** Resource pools: slots whose free list runs through the identifier words themselves. Shifts and masks
    of bit fields are written as quotients and remainders. */
module SlotPool {
  import opened Basics
  import opened WaitQueue

  /* ---- Identifier words ---- */

  /** Identifier of a slot in use: slot number in bits 14-23, type and pool below. */
  function UsedId(index: nat, poolId: nat): nat { index % 1024 * 16384 + poolId }

  function IndexOf(id: nat): nat { id / 16384 % 1024 }

  function PoolOf(id: nat): nat { id % 1024 }

  const MAX_POOLS := 40

  /** The pool that an identifier word names, if there is one of that number. */
  function PoolById(id: nat): Option<nat> {
    if PoolOf(id) < MAX_POOLS then Some(PoolOf(id)) else None
  }

  /** A slot in the free list: its own number above, the number of the next one below. */
  function High(id: nat): nat { id / 65536 }

  function Low(id: nat): nat { id % 65536 }

  function WithLow(id: nat, low: nat): nat { High(id) * 65536 + low % 65536 }

  /** The core tag, bit 24. */
  function OnCore(id: nat, core: nat): nat {
    var tagged := id / 0x100_0000 % 2;
    if core == 0 then id - tagged * 0x100_0000
    else if core == 1 then id + (1 - tagged) * 0x100_0000
    else id
  }

  /** The layout of an identifier: pool and type in the low fourteen bits, the slot number in the next ten. */
  lemma IdentifierIs(index: nat, poolId: nat)
    requires poolId < 0x4000
    ensures UsedId(index, poolId) % 0x4000 == poolId
    ensures UsedId(index, poolId) / 0x4000 == index % 0x400
  {
  }

  /** There are forty pools, named by the low ten bits. */
  lemma PoolsAre(id: nat)
    ensures PoolById(id) == if id % 0x400 < 40 then Some(id % 0x400) else None
  {
  }

  /** Tagging for core 0 or 1 sets bit 24 to that number, for any other core it does nothing; no other bit
      changes. */
  lemma CoreTagIs(id: nat, core: nat)
    ensures var other := OnCore(id, core);
            && other % 0x100_0000 == id % 0x100_0000 && other / 0x200_0000 == id / 0x200_0000
            && (other / 0x100_0000) % 2 == if core < 2 then core else (id / 0x100_0000) % 2
  {
    var q, r := id / 0x100_0000, id % 0x100_0000;
    var other := OnCore(id, core);
    if core == 0 {
      assert other == (q - q % 2) * 0x100_0000 + r;
      AboveBit24(q - q % 2, r);
    } else if core == 1 {
      assert other == (q + 1 - q % 2) * 0x100_0000 + r;
      AboveBit24(q + 1 - q % 2, r);
    }
    AboveBit24(q, r);
  }

  lemma AboveBit24(q: nat, r: nat)
    requires r < 0x100_0000
    ensures var n := q * 0x100_0000 + r;
            n % 0x100_0000 == r && n / 0x100_0000 == q && n / 0x200_0000 == q / 2
  {
    var n := q * 0x100_0000 + r;
    assert n == q / 2 * 0x200_0000 + (q % 2 * 0x100_0000 + r);
  }

  /** An identifier leads back to its slot, whatever core the slot was tagged with, exactly when
      the slot number fits its ten bits. */
  lemma ByIdIff(index: nat, poolId: nat, core: nat)
    requires index < 65536 && poolId < 16384
    ensures IndexOf(OnCore(UsedId(index, poolId), core)) == index <==> index < 1024
    ensures PoolOf(OnCore(UsedId(index, poolId), core)) == PoolOf(poolId)
  {
    CoreKeepsLow(UsedId(index, poolId), core);
    UsedIdParts(index, poolId);
  }

  lemma UsedIdParts(index: nat, poolId: nat)
    requires poolId < 16384
    ensures IndexOf(UsedId(index, poolId)) == index % 1024 && PoolOf(UsedId(index, poolId)) == PoolOf(poolId)
    ensures UsedId(index, poolId) < 0x100_0000
  {
  }

  lemma CoreKeepsLow(id: nat, core: nat)
    ensures OnCore(id, core) % 0x100_0000 == id % 0x100_0000
    ensures IndexOf(OnCore(id, core)) == IndexOf(id) && PoolOf(OnCore(id, core)) == PoolOf(id)
  {
    var other := OnCore(id, core);
    assert other == id || other == id - 0x100_0000 || other == id + 0x100_0000;
    assert other % 0x100_0000 == id % 0x100_0000;
    hide OnCore;
    LowDecides(id);
    LowDecides(other);
  }

  lemma LowDecides(id: nat)
    ensures IndexOf(id) == IndexOf(id % 0x100_0000) && PoolOf(id) == PoolOf(id % 0x100_0000)
  {
    var q, r := id / 0x100_0000, id % 0x100_0000;
    assert id == q * 0x100_0000 + r;
    assert id / 16384 == q * 1024 + r / 16384;
  }

  /* ---- The list of free slots ---- */

  function Numbers(n: nat): (s: seq<nat>)
    ensures |s| == n && forall i :: 0 <= i < n ==> s[i] == i
  {
    seq(n, i => i)
  }

  /** `free` lists the free slots in the order in which they will be handed out. */
  predicate Chain(ids: seq<nat>, free: seq<nat>) {
    && Distinct(free)
    && (forall i :: 0 <= i < |free| ==> free[i] < |ids| && High(ids[free[i]]) == free[i])
    && (forall i :: 0 <= i < |free| - 1 ==> Low(ids[free[i]]) == free[i + 1])
  }

  /** Slots in use carry their identifier, under any core tag. */
  predicate Used(ids: seq<nat>, free: seq<nat>, poolId: nat) {
    forall k :: 0 <= k < |ids| && k !in free ==> ids[k] % 0x100_0000 == UsedId(k, poolId)
  }

  /** Following the links. */
  function Walk(ids: seq<nat>, first: nat, n: nat): seq<nat>
    decreases n
  {
    if n == 0 || first >= |ids| then [] else [first] + Walk(ids, Low(ids[first]), n - 1)
  }

  /** Following the links from the first free slot for as many steps as there are free slots visits
      each of them once. */
  lemma {:induction false} WalkVisitsFree(ids: seq<nat>, free: seq<nat>)
    requires Chain(ids, free) && free != []
    ensures Walk(ids, free[0], |free|) == free
  {
    if |free| > 1 {
      var rest := free[1..];
      assert Chain(ids, rest) by {
        assert forall i :: 0 <= i < |rest| ==> rest[i] == free[i + 1];
      }
      WalkVisitsFree(ids, rest);
    }
  }

  /** What a pool keeps: the words of its slots, the first free one, and how many are free. */
  datatype Words = Words(ids: seq<nat>, first: nat, freeNum: nat)

  /** The free list can be followed from its first slot for as many slots as are counted. */
  ghost predicate Followable(w: Words) { exists free :: Lists(w, free) }

  ghost predicate Lists(w: Words, free: seq<nat>) {
    Chain(w.ids, free) && |free| == w.freeNum && (free != [] ==> free[0] == w.first)
  }

  function NewWords(n: nat): Words
    requires n > 0
  {
    Words(seq(n, i => i * 65536 + if i < n - 1 then i + 1 else 0), 0, n)
  }

  /** The release of slot `k` reaches the pool only if the slot's own word names it. In the word of a free
      slot the pool number is overlaid by the link. */
  predicate Reached(ids: seq<nat>, poolId: nat, k: nat) {
    k < |ids| && PoolById(ids[k]) == Some(PoolOf(poolId))
  }

  /** The word a released slot gets: its number, and the number of the slot that was first. That slot's
      word may be `wild`, read from outside the pool, when none was free. */
  function BackWord(ids: seq<nat>, first: nat, k: nat, wild: nat): nat {
    WithLow(k * 65536, High(if first == k then k * 65536 else if first < |ids| then ids[first] else wild))
  }

  function Released(w: Words, poolId: nat, k: nat, wild: nat): Words {
    if Reached(w.ids, poolId, k)
    then Words(w.ids[k := BackWord(w.ids, w.first, k, wild)], k, w.freeNum + 1)
    else w
  }

  /** Taking the first slot: the rest of the chain is untouched. */
  lemma ChainTake(ids: seq<nat>, free: seq<nat>, w: nat)
    requires Chain(ids, free) && free != []
    ensures Chain(ids[free[0] := w], free[1..]) && free[0] !in free[1..]
  {
    var rest := free[1..];
    assert forall i :: 0 <= i < |rest| ==> rest[i] == free[i + 1] && rest[i] != free[0];
  }

  lemma ChainGive(ids: seq<nat>, free: seq<nat>, k: nat, w: nat)
    requires Chain(ids, free) && k < |ids| && k !in free
    requires High(w) == k && (free != [] ==> Low(w) == free[0])
    ensures Chain(ids[k := w], [k] + free)
  {
    var all := [k] + free;
    assert forall i :: 1 <= i < |all| ==> all[i] == free[i - 1] && all[i] in free;
  }

  /** Each of `n` slots is free or handed out, and only once. */
  predicate Shared(free: seq<nat>, held: seq<nat>, n: nat) {
    multiset(free) + multiset(held) == multiset(Numbers(n))
  }

  class Pool {
    const ids: array<nat>
    const poolId: nat
    var first: nat
    var freeNum: nat
    ghost var free: seq<nat>
    ghost var held: seq<nat>

    /** Every slot is either free or handed out, and the links lead through the free ones. */
    ghost predicate Valid()
      reads this, ids
    {
      && Shared(free, held, ids.Length)
      && 1 <= ids.Length <= 65536 && poolId < 16384 && PoolOf(poolId) < MAX_POOLS
      && Chain(ids[..], free) && Used(ids[..], free, poolId)
      && freeNum == |free|
      && (free != [] ==> first == free[0])
    }

    constructor (words: array<nat>, id: nat)
      requires 1 <= words.Length <= 65536 && id < 16384
      ensures ids == words && poolId == id
    {
      ids, poolId := words, id;
      first, freeNum, free, held := 0, 0, [], [];
    }

    /** Which slots are free and which are handed out. */
    ghost function Slots(): Book
      reads this
    {
      Book(free, held)
    }

    ghost function Now(): Words
      reads this, ids
    {
      Words(ids[..], first, freeNum)
    }

    /** A new pool: every slot free, linked in order. */
    method Init()
      requires 1 <= ids.Length <= 65536 && poolId < 16384 && PoolOf(poolId) < MAX_POOLS
      modifies this, ids
      ensures Valid() && Slots() == Book(Numbers(ids.Length), []) && Now() == NewWords(ids.Length)
    {
      hide WithLow, Chain, Used, Numbers;
      var n := ids.Length;
      first, freeNum := 0, n;
      for i := 0 to n - 1
        modifies ids
        invariant forall j :: 0 <= j < i ==> ids[j] == j * 65536 + (j + 1)
      {
        ids[i] := i * 65536;
        LinkWord(i, i + 1);
        ids[i] := WithLow(ids[i], i + 1);
      }
      ids[n - 1] := (n - 1) * 65536;
      LinkWord(n - 1, 0);
      ids[n - 1] := WithLow(ids[n - 1], 0);
      free, held := Numbers(n), [];
      assert ids[..] == NewWords(n).ids;
      InitChain(ids[..], poolId);
    }

    /** The first free slot, or nothing when the pool is exhausted. */
    method GetRes() returns (r: Option<nat>)
      requires Valid()
      modifies this, ids
      ensures Valid()
      ensures r == if old(free) == [] then None else Some(old(free)[0])
      ensures if r.None? then Slots() == old(Slots())
              else May(old(Slots()), Take) && Slots() == Step(old(Slots()), Take)
      ensures r.Some? ==> r.value < ids.Length && ids[r.value] == UsedId(r.value, poolId)
      ensures forall k :: 0 <= k < ids.Length && r != Some(k) ==> ids[k] == old(ids[k])
    {
      hide Chain, Used, Shared, UsedId, High, Low;
      if freeNum == 0 { return None; }
      ghost var before := ids[..];
      SharedTake(free, held, ids.Length);
      ChainHead(before, free);
      var res := first;
      var w := UsedId(High(ids[res]), poolId);
      ChainTake(before, free, w);
      first := Low(ids[res]);
      ids[res] := w;
      freeNum := freeNum - 1;
      NextIsFirst(before, free);
      free, held := free[1..], held + [free[0]];
      assert ids[..] == before[res := w];
      UsedTake(before, old(free), poolId, w);
      return Some(res);
    }

    /** A slot comes back and will be the next to go. One that is free already is not noticed: the release
        goes to the pool that its link happens to name, and if that is this one, its list is spoilt. */
    method ReleaseRes(k: nat, wild: nat) returns (ok: bool)
      requires Valid()
      modifies this, ids
      ensures Now() == Released(old(Now()), poolId, k, wild)
      ensures ok == Reached(old(ids[..]), poolId, k)
      ensures k !in old(free) ==> Valid() && ok == (k < ids.Length)
      ensures !ok ==> Valid() && Slots() == old(Slots())
      ensures ok && k !in old(free) ==> May(old(Slots()), Give(k)) && Slots() == Step(old(Slots()), Give(k))
      ensures k in old(free) ==> (Followable(Now()) <==> !ok)
    {
      hide Chain, Used, Shared, Remove, High, Low, WithLow, PoolById;
      ghost var before := ids[..];
      ChainKnown(before, free);
      if k !in free { HeldReached(before, free, poolId, k); }
      if k < ids.Length && PoolById(ids[k]) == Some(PoolOf(poolId)) {
        var tmp := first;
        first := k;
        ids[k] := k * 65536;
        var link := High(if tmp < ids.Length then ids[tmp] else wild);
        ids[k] := WithLow(ids[k], link);
        freeNum := freeNum + 1;
        GiveWord(before, free, k, link);
        assert ids[..] == before[k := WithLow(k * 65536, link)];
        Given(before, free, held, poolId, k, WithLow(k * 65536, link));
        if k !in free { free, held := [k] + free, Remove(held, k); }
        return true;
      }
      assert Lists(Now(), free);
      return false;
    }

    /** The slot an identifier stands for. */
    function ResById(id: nat): nat { IndexOf(id) }

    /** A slot in use moves to another core's ready queue. */
    method SetCore(k: nat, core: nat)
      requires Valid() && k < ids.Length && k !in free
      modifies ids
      ensures Valid() && Slots() == old(Slots())
      ensures k < 1024 ==> ResById(ids[k]) == k
      ensures forall j :: 0 <= j < ids.Length && j != k ==> ids[j] == old(ids[j])
    {
      hide OnCore, IndexOf, UsedId, Chain, Used, Shared;
      ghost var before := ids[..];
      ids[k] := OnCore(ids[k], core);
      assert ids[..] == before[k := OnCore(before[k], core)];
      Retagged(before, free, poolId, k, core);
    }
  }

  lemma Retagged(ids: seq<nat>, free: seq<nat>, poolId: nat, k: nat, core: nat)
    requires Chain(ids, free) && Used(ids, free, poolId) && k < |ids| && k !in free && poolId < 16384
    ensures var w := OnCore(ids[k], core);
            && Chain(ids[k := w], free) && Used(ids[k := w], free, poolId)
            && (k < 1024 ==> IndexOf(w) == k)
  {
    CoreKeepsLow(ids[k], core);
    LowDecides(OnCore(ids[k], core));
    UsedIdParts(k, poolId);
    LowDecides(UsedId(k, poolId));
    hide OnCore, IndexOf, UsedId, High, Low;
    assert IndexOf(OnCore(ids[k], core)) == k % 1024;
  }

  lemma LinkWord(index: nat, link: nat)
    requires link < 65536
    ensures WithLow(index * 65536, link) == index * 65536 + link
  {
  }

  lemma InitChain(ids: seq<nat>, poolId: nat)
    requires 1 <= |ids| <= 65536
    requires forall j :: 0 <= j < |ids| - 1 ==> ids[j] == j * 65536 + (j + 1)
    requires ids[|ids| - 1] == (|ids| - 1) * 65536
    ensures var free := Numbers(|ids|); Chain(ids, free) && Used(ids, free, poolId)
    ensures Numbers(|ids|)[0] == 0
  {
    var free := Numbers(|ids|);
    forall j | 0 <= j < |ids|
      ensures High(ids[j]) == j && (j < |ids| - 1 ==> Low(ids[j]) == j + 1)
    {
    }
    forall k: nat | k < |ids| ensures k in free { assert free[k] == k; }
  }

  lemma ChainHead(ids: seq<nat>, free: seq<nat>)
    requires Chain(ids, free) && free != []
    ensures free[0] < |ids| && High(ids[free[0]]) == free[0]
  {
  }

  lemma ChainKnown(ids: seq<nat>, free: seq<nat>)
    requires Chain(ids, free)
    ensures free != [] ==> free[0] < |ids|
    ensures forall x <- free :: x < |ids|
  {
  }

  lemma NextIsFirst(ids: seq<nat>, free: seq<nat>)
    requires Chain(ids, free) && free != []
    ensures |free| > 1 ==> free[0] < |ids| && Low(ids[free[0]]) == free[1..][0]
  {
  }

  lemma UsedTake(ids: seq<nat>, free: seq<nat>, poolId: nat, w: nat)
    requires Used(ids, free, poolId) && free != [] && free[0] < |ids| && poolId < 16384
    requires w == UsedId(free[0], poolId)
    ensures Used(ids[free[0] := w], free[1..], poolId)
  {
    UsedIdParts(free[0], poolId);
    hide UsedId;
    assert forall k: nat :: k !in free[1..] ==> k == free[0] || k !in free;
  }

  lemma UsedGive(ids: seq<nat>, free: seq<nat>, poolId: nat, k: nat, w: nat)
    requires Used(ids, free, poolId) && k < |ids|
    ensures Used(ids[k := w], [k] + free, poolId)
  {
    hide UsedId;
  }

  lemma SharedTake(free: seq<nat>, held: seq<nat>, n: nat)
    requires Shared(free, held, n) && free != []
    ensures Shared(free[1..], held + [free[0]], n)
  {
    StepConserves(Book(free, held), Take);
  }

  /** A slot in use is found by its own word. */
  lemma HeldReached(ids: seq<nat>, free: seq<nat>, poolId: nat, k: nat)
    requires Used(ids, free, poolId) && k !in free && poolId < 16384 && PoolOf(poolId) < MAX_POOLS
    ensures k < |ids| ==> Reached(ids, poolId, k)
  {
    if k < |ids| {
      LowDecides(ids[k]);
      LowDecides(UsedId(k, poolId));
      UsedIdParts(k, poolId);
      hide PoolOf, UsedId;
    }
  }

  /** The second release of a free slot spoils the list of this pool exactly when the number of the slot it
      links to, modulo 1024, is the number of the pool; otherwise it changes nothing. */
  lemma SecondReleaseIff(w: Words, free: seq<nat>, poolId: nat, i: nat, wild: nat)
    requires Lists(w, free) && i < |free| && |w.ids| <= 65536 && PoolOf(poolId) < MAX_POOLS
    ensures var next := if i < |free| - 1 then free[i + 1] else Low(w.ids[free[i]]);
            && (Followable(Released(w, poolId, free[i], wild)) <==> next % 1024 != PoolOf(poolId))
            && (next % 1024 != PoolOf(poolId) ==> Released(w, poolId, free[i], wild) == w)
  {
    var k := free[i];
    LinkNames(w.ids[k]);
    hide Low, High, WithLow, PoolOf;
    if Reached(w.ids, poolId, k) {
      GiveWord(w.ids, free, k, High(if w.first == k then k * 65536 else w.ids[w.first]));
      DoubleGive(w.ids, free, k, BackWord(w.ids, w.first, k, wild));
    }
  }

  lemma LinkNames(id: nat)
    ensures PoolOf(id) == Low(id) % 1024
  {
  }

  /** In a new pool of `n` slots that is slot `k` if its successor has the number of the pool modulo 1024;
      the last slot is linked to 0. */
  lemma NewPoolSpoiltIff(n: nat, poolId: nat, k: nat, wild: nat)
    requires k < n <= 65536 && PoolOf(poolId) < MAX_POOLS
    ensures Followable(Released(NewWords(n), poolId, k, wild))
            <==> (if k < n - 1 then (k + 1) % 1024 else 0) != PoolOf(poolId)
  {
    NewLists(n);
    hide Chain;
    SecondReleaseIff(NewWords(n), Numbers(n), poolId, k, wild);
  }

  lemma NewLists(n: nat)
    requires 0 < n <= 65536
    ensures Lists(NewWords(n), Numbers(n))
    ensures Low(NewWords(n).ids[n - 1]) == 0
  {
    hide Chain, Used, Low, High;
    InitChain(NewWords(n).ids, 0);
    assert NewWords(n).ids[n - 1] == (n - 1) * 65536;
    LowOfShifted(n - 1);
  }

  lemma LowOfShifted(index: nat)
    ensures Low(index * 65536) == 0
  {
  }

  /** In pool 0 of eight slots the release of slot 7 spoils the list, that of any other free one does nothing. */
  lemma LastSlotSpoils(k: nat, wild: nat)
    requires k < 8
    ensures Followable(Released(NewWords(8), 1024, k, wild)) <==> k != 7
  {
    NewPoolSpoiltIff(8, 1024, k, wild);
  }

  lemma GiveWord(ids: seq<nat>, free: seq<nat>, k: nat, link: nat)
    requires Chain(ids, free) && k < |ids| <= 65536
    requires free != [] ==> link == High(if free[0] == k then k * 65536 else ids[free[0]])
    ensures High(WithLow(k * 65536, link)) == k
    ensures free != [] ==> Low(WithLow(k * 65536, link)) == free[0]
  {
  }

  lemma Given(ids: seq<nat>, free: seq<nat>, held: seq<nat>, poolId: nat, k: nat, w: nat)
    requires Chain(ids, free) && Used(ids, free, poolId) && Shared(free, held, |ids|) && k < |ids|
    requires High(w) == k && (free != [] ==> Low(w) == free[0])
    ensures k !in free ==>
              && Chain(ids[k := w], [k] + free) && Used(ids[k := w], [k] + free, poolId)
              && k in held && Shared([k] + free, Remove(held, k), |ids|)
    ensures k in free ==> !Followable(Words(ids[k := w], k, |free| + 1))
  {
    hide Chain, Used, High, Low;
    if k in free {
      DoubleGive(ids, free, k, w);
    } else {
      ChainGive(ids, free, k, w);
      UsedGive(ids, free, poolId, k, w);
      assert Numbers(|ids|)[k] == k;
      assert k in multiset(free) + multiset(held);
      StepConserves(Book(free, held), Give(k));
    }
  }

  /** Putting a free slot in front once more closes its links to a ring: from there they come back to it
      before they have visited as many slots as are counted. */
  lemma DoubleGive(ids: seq<nat>, free: seq<nat>, k: nat, w: nat)
    requires Chain(ids, free) && k in free && Low(w) == free[0]
    ensures !Followable(Words(ids[k := w], k, |free| + 1))
  {
    var z := Words(ids[k := w], k, |free| + 1);
    var pos :| 0 <= pos < |free| && free[pos] == k;
    forall list: seq<nat>
      ensures !Lists(z, list)
    {
      if Lists(z, list) {
        RingBack(ids, free, pos, w, list, pos);
        assert false;
      }
    }
  }

  lemma {:induction false} RingBack(ids: seq<nat>, free: seq<nat>, pos: nat, w: nat, list: seq<nat>, i: nat)
    requires Chain(ids, free) && i <= pos < |free| && Low(w) == free[0]
    requires |list| == |free| + 1 && list[0] == free[pos] && Chain(ids[free[pos] := w], list)
    ensures list[i + 1] == free[i]
    decreases i
  {
    if i > 0 { RingBack(ids, free, pos, w, list, i - 1); }
  }

  /* ---- Whole runs ---- */

  datatype Event = Take | Give(k: nat)

  /** `held` are the slots handed out and not given back, in the order in which they were taken. */
  datatype Book = Book(free: seq<nat>, held: seq<nat>)

  predicate May(b: Book, e: Event) {
    match e
    case Take => b.free != []
    case Give(k) => k in b.held
  }

  function Step(b: Book, e: Event): Book
    requires May(b, e)
  {
    match e
    case Take => Book(b.free[1..], b.held + [b.free[0]])
    case Give(k) => Book([k] + b.free, Remove(b.held, k))
  }

  ghost predicate Admissible(b: Book, run: seq<Event>)
    decreases |run|
  {
    run == [] || (May(b, run[0]) && Admissible(Step(b, run[0]), run[1..]))
  }

  ghost function After(b: Book, run: seq<Event>): Book
    requires Admissible(b, run)
    decreases |run|
  {
    if run == [] then b else After(Step(b, run[0]), run[1..])
  }

  lemma {:induction false} RemoveTakesOne(s: seq<nat>, k: nat)
    requires k in s
    ensures multiset(s) == multiset(Remove(s, k)) + multiset{k}
  {
    assert s == [s[0]] + s[1..];
    if s[0] != k {
      RemoveTakesOne(s[1..], k);
    }
  }

  /** Slots are conserved over every run: free and held together are always what there was. */
  lemma {:induction false} RunConserves(b: Book, run: seq<Event>)
    requires Admissible(b, run)
    ensures multiset(After(b, run).free) + multiset(After(b, run).held) == multiset(b.free) + multiset(b.held)
    decreases |run|
  {
    if run != [] {
      StepConserves(b, run[0]);
      hide May, Step;
      RunConserves(Step(b, run[0]), run[1..]);
    }
  }

  lemma StepConserves(b: Book, e: Event)
    requires May(b, e)
    ensures multiset(Step(b, e).free) + multiset(Step(b, e).held) == multiset(b.free) + multiset(b.held)
  {
    match e
    case Take => assert b.free == [b.free[0]] + b.free[1..];
    case Give(k) => RemoveTakesOne(b.held, k);
  }

  /** From a fresh pool no slot is ever both free and held, or held twice. */
  lemma NeverTwice(n: nat, run: seq<Event>, k: nat)
    requires k < n && Admissible(Book(Numbers(n), []), run)
    ensures var b := After(Book(Numbers(n), []), run);
            && multiset(b.free)[k] + multiset(b.held)[k] == 1
            && |b.free| + |b.held| == n
  {
    var all := Numbers(n);
    var b := After(Book(all, []), run);
    RunConserves(Book(all, []), run);
    OnceEach(n, k);
    var sum := multiset(b.free) + multiset(b.held);
    assert sum == multiset(all) + multiset([]) == multiset(all);
    assert |sum| == n && sum[k] == 1;
  }

  lemma {:induction false} OnceEach(n: nat, k: nat)
    requires k < n
    ensures multiset(Numbers(n))[k] == 1
  {
    var s := Numbers(n);
    assert s == s[..k] + [s[k]] + s[k + 1..];
    assert multiset(s) == multiset(s[..k]) + multiset{k} + multiset(s[k + 1..]);
    assert k !in s[..k] && k !in s[k + 1..];
  }
}
