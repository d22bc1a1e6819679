/**
The `vol` allocator seen as a list of blocks: where blocks start, what next-fit search finds, what
splitting and coalescing do to the list, and what holds over every run.
Sizes are in 32-bit words and include the header word.
*/
module HeapBlocks {
  import opened Basics

  datatype Block = Block(words: nat, used: bool)

  /** Where block `k` starts; with `k == |bs|`, where the blocks end. */
  function Pos(bs: seq<Block>, k: nat): nat
    requires k <= |bs|
  {
    if k == 0 then 0 else Pos(bs, k - 1) + bs[k - 1].words
  }

  /** Blocks `i` to `j - 1` replaced by `mid`. */
  function Splice(bs: seq<Block>, i: nat, j: nat, mid: seq<Block>): seq<Block>
    requires i <= j <= |bs|
  {
    bs[..i] + mid + bs[j..]
  }

  predicate Fits(b: Block, need: nat)
  {
    !b.used && b.words >= need
  }

  function FirstFit(bs: seq<Block>, lo: nat, hi: nat, need: nat): (r: Option<nat>)
    requires lo <= hi <= |bs|
    ensures r.Some? ==> lo <= r.value < hi && Fits(bs[r.value], need)
    ensures r.Some? ==> (forall k | lo <= k < r.value :: !Fits(bs[k], need))
    ensures r.None? ==> (forall k | lo <= k < hi :: !Fits(bs[k], need))
    decreases hi - lo
  {
    if lo == hi then None else if Fits(bs[lo], need) then Some(lo) else FirstFit(bs, lo + 1, hi, need)
  }

  /** From the roving pointer to the top, then from the bottom to the roving pointer. */
  function NextFit(bs: seq<Block>, rover: nat, need: nat): Option<nat>
    requires rover <= |bs|
  {
    var r := FirstFit(bs, rover, |bs|, need);
    if r.Some? then r else FirstFit(bs, 0, rover, need)
  }

  /** The block handed out and what is left over. */
  function Pieces(b: Block, need: nat): (mid: seq<Block>)
    requires need <= b.words
  {
    [Block(need, true)] + if b.words > need then [Block(b.words - need, false)] else []
  }

  /** The front of block `k` becomes a used block of `need` words, what is left over a free one. */
  function MallocAt(bs: seq<Block>, k: nat, need: nat): seq<Block>
    requires k < |bs| && need <= bs[k].words
  {
    Splice(bs, k, k + 1, Pieces(bs[k], need))
  }

  function Low(bs: seq<Block>, k: nat): nat
    requires k < |bs|
  {
    if k > 0 && !bs[k - 1].used then k - 1 else k
  }

  function High(bs: seq<Block>, k: nat): nat
    requires k < |bs|
  {
    if k + 1 < |bs| && !bs[k + 1].used then k + 2 else k + 1
  }

  /** Block `k` and its free neighbours become one free block. */
  function FreeAt(bs: seq<Block>, k: nat): seq<Block>
    requires k < |bs|
  {
    Splice(bs, Low(bs, k), High(bs, k), [Block(Span(bs, Low(bs, k), High(bs, k)), false)])
  }

  function Span(bs: seq<Block>, i: nat, j: nat): nat
    requires i <= j <= |bs|
    decreases j - i
  {
    if i == j then 0 else Span(bs, i, j - 1) + bs[j - 1].words
  }

  /** The blocks that are handed out, by position and size. */
  ghost function Live(bs: seq<Block>): set<(nat, nat)>
  {
    set k | 0 <= k < |bs| && bs[k].used :: (Pos(bs, k), bs[k].words)
  }

  predicate NoFreeNeighbours(bs: seq<Block>)
  {
    forall k | 0 <= k < |bs| - 1 :: bs[k].used || bs[k + 1].used
  }

  /** The blocks tile `words` words, none is empty, and no two free ones touch. */
  ghost predicate Tiling(bs: seq<Block>, words: nat)
  {
    Pos(bs, |bs|) == words && (forall k | 0 <= k < |bs| :: bs[k].words > 0) && NoFreeNeighbours(bs)
  }

  // ----- positions under a splice

  lemma {:induction false} PosSplit(bs: seq<Block>, i: nat, j: nat)
    requires i <= j <= |bs|
    ensures Pos(bs, j) == Pos(bs, i) + Span(bs, i, j)
    decreases j - i
  {
    if i < j { PosSplit(bs, i, j - 1); }
  }

  lemma {:induction false} PosConcat(a: seq<Block>, b: seq<Block>, k: nat)
    requires k <= |a| + |b|
    ensures Pos(a + b, k) == if k <= |a| then Pos(a, k) else Pos(a, |a|) + Pos(b, k - |a|)
  {
    if k > 0 { PosConcat(a, b, k - 1); }
  }

  lemma PosSplice(bs: seq<Block>, i: nat, j: nat, mid: seq<Block>, k: nat)
    requires i <= j <= |bs| && k <= |Splice(bs, i, j, mid)| && Pos(mid, |mid|) == Span(bs, i, j)
    ensures Pos(Splice(bs, i, j, mid), k) ==
      if k <= i then Pos(bs, k)
      else if k <= i + |mid| then Pos(bs, i) + Pos(mid, k - i)
      else Pos(bs, k - i - |mid| + j)
  {
    hide Span;
    var head, tail := bs[..i], bs[j..];
    PosConcat(head + mid, tail, k);
    if k <= i {
      PosConcat(head, mid, k);
      assert bs == head + bs[i..];
      PosConcat(head, bs[i..], k);
    } else {
      PosConcat(head, mid, if k <= i + |mid| then k else i + |mid|);
      PosHead(bs, i);
      if k > i + |mid| {
        var m := k - i - |mid|;
        assert bs == bs[..j] + tail;
        PosConcat(bs[..j], tail, m + j);
        PosHead(bs, j);
        PosSplit(bs, i, j);
        assert k - |head + mid| == m && m + j - |bs[..j]| == m;
      }
    }
  }

  lemma PosHead(bs: seq<Block>, i: nat)
    requires i <= |bs|
    ensures Pos(bs[..i], i) == Pos(bs, i)
  {
    assert bs == bs[..i] + bs[i..];
    PosConcat(bs[..i], bs[i..], i);
  }

  lemma {:induction false} PosIncreases(bs: seq<Block>, i: nat, j: nat)
    requires i < j <= |bs| && forall k | 0 <= k < |bs| :: bs[k].words > 0
    ensures Pos(bs, i) + bs[i].words <= Pos(bs, j)
    decreases j
  {
    if i < j - 1 { PosIncreases(bs, i, j - 1); }
  }

  /** Payloads of distinct blocks do not overlap. */
  lemma Disjoint(bs: seq<Block>, words: nat, p: (nat, nat), q: (nat, nat))
    requires Tiling(bs, words) && p in Live(bs) && q in Live(bs) && p != q
    ensures p.0 + p.1 <= words
    ensures p.0 + p.1 <= q.0 || q.0 + q.1 <= p.0
  {
    var i :| 0 <= i < |bs| && bs[i].used && p == (Pos(bs, i), bs[i].words);
    var j :| 0 <= j < |bs| && bs[j].used && q == (Pos(bs, j), bs[j].words);
    PosIncreases(bs, i, |bs|);
    if i < j { PosIncreases(bs, i, j); } else { PosIncreases(bs, j, i); }
  }

  // ----- what a splice does to the live blocks

  ghost function Outside(bs: seq<Block>, i: nat, j: nat): set<(nat, nat)>
    requires i <= j <= |bs|
  {
    set k | 0 <= k < |bs| && bs[k].used && !(i <= k < j) :: (Pos(bs, k), bs[k].words)
  }

  ghost function Inside(start: nat, mid: seq<Block>): set<(nat, nat)>
  {
    set k | 0 <= k < |mid| && mid[k].used :: (start + Pos(mid, k), mid[k].words)
  }

  lemma SpliceAt(bs: seq<Block>, i: nat, j: nat, mid: seq<Block>, k: nat)
    requires i <= j <= |bs| && k < |Splice(bs, i, j, mid)|
    ensures Splice(bs, i, j, mid)[k] ==
      if k < i then bs[k] else if k < i + |mid| then mid[k - i] else bs[k - i - |mid| + j]
  {
  }

  /** Where block `k` of the spliced list comes from. */
  lemma SpliceOrigin(bs: seq<Block>, i: nat, j: nat, mid: seq<Block>, k: nat)
    requires i <= j <= |bs| && Pos(mid, |mid|) == Span(bs, i, j) && k < |Splice(bs, i, j, mid)|
    ensures var b := Splice(bs, i, j, mid)[k];
      if k < i then b == bs[k] && Pos(Splice(bs, i, j, mid), k) == Pos(bs, k)
      else if k < i + |mid| then b == mid[k - i] && Pos(Splice(bs, i, j, mid), k) == Pos(bs, i) + Pos(mid, k - i)
      else b == bs[k - i - |mid| + j] && Pos(Splice(bs, i, j, mid), k) == Pos(bs, k - i - |mid| + j)
  {
    hide *;
    SpliceAt(bs, i, j, mid, k);
    PosSplice(bs, i, j, mid, k);
    PosSplit(bs, i, j);
    PosZero(mid);
  }

  lemma PosZero(bs: seq<Block>)
    ensures Pos(bs, 0) == 0
  {
  }

  lemma LiveFrom(bs: seq<Block>, i: nat, j: nat, mid: seq<Block>)
    requires i <= j <= |bs| && Pos(mid, |mid|) == Span(bs, i, j)
    ensures Live(Splice(bs, i, j, mid)) <= Outside(bs, i, j) + Inside(Pos(bs, i), mid)
  {
    hide Pos, Span, Splice;
    var bs', start := Splice(bs, i, j, mid), Pos(bs, i);
    forall k | 0 <= k < |bs'| && bs'[k].used
      ensures (Pos(bs', k), bs'[k].words) in Outside(bs, i, j) + Inside(start, mid)
    {
      SpliceLength(bs, i, j, mid);
      SpliceOrigin(bs, i, j, mid, k);
      if k < i {
        assert (Pos(bs, k), bs[k].words) in Outside(bs, i, j);
      } else if k < i + |mid| {
        assert (start + Pos(mid, k - i), mid[k - i].words) in Inside(start, mid);
      } else {
        var m := k - i - |mid| + j;
        assert (Pos(bs, m), bs[m].words) in Outside(bs, i, j);
      }
    }
  }

  lemma SpliceLength(bs: seq<Block>, i: nat, j: nat, mid: seq<Block>)
    requires i <= j <= |bs|
    ensures |Splice(bs, i, j, mid)| == |bs| - (j - i) + |mid|
  {
  }

  lemma OutsideLive(bs: seq<Block>, i: nat, j: nat, mid: seq<Block>)
    requires i <= j <= |bs| && Pos(mid, |mid|) == Span(bs, i, j)
    ensures Outside(bs, i, j) <= Live(Splice(bs, i, j, mid))
  {
    hide Pos, Span, Splice;
    var bs' := Splice(bs, i, j, mid);
    SpliceLength(bs, i, j, mid);
    forall k | 0 <= k < |bs| && bs[k].used && !(i <= k < j)
      ensures (Pos(bs, k), bs[k].words) in Live(bs')
    {
      var k' := if k < i then k else k - j + i + |mid|;
      SpliceOrigin(bs, i, j, mid, k');
      assert (Pos(bs', k'), bs'[k'].words) in Live(bs');
    }
  }

  lemma InsideLive(bs: seq<Block>, i: nat, j: nat, mid: seq<Block>)
    requires i <= j <= |bs| && Pos(mid, |mid|) == Span(bs, i, j)
    ensures Inside(Pos(bs, i), mid) <= Live(Splice(bs, i, j, mid))
  {
    hide Pos, Span, Splice;
    var bs', start := Splice(bs, i, j, mid), Pos(bs, i);
    SpliceLength(bs, i, j, mid);
    forall k | 0 <= k < |mid| && mid[k].used
      ensures (start + Pos(mid, k), mid[k].words) in Live(bs')
    {
      SpliceOrigin(bs, i, j, mid, i + k);
      assert (Pos(bs', i + k), bs'[i + k].words) in Live(bs');
    }
  }

  lemma LiveSplice(bs: seq<Block>, i: nat, j: nat, mid: seq<Block>)
    requires i <= j <= |bs| && Pos(mid, |mid|) == Span(bs, i, j)
    ensures Live(Splice(bs, i, j, mid)) == Outside(bs, i, j) + Inside(Pos(bs, i), mid)
  {
    hide *;
    LiveFrom(bs, i, j, mid);
    OutsideLive(bs, i, j, mid);
    InsideLive(bs, i, j, mid);
  }

  /** The tiling survives if the new blocks have the same extent and no free ones touch. */
  lemma SpliceTiling(bs: seq<Block>, words: nat, i: nat, j: nat, mid: seq<Block>)
    requires Tiling(bs, words) && i < j <= |bs| && mid != [] && Pos(mid, |mid|) == Span(bs, i, j)
    requires (forall m | 0 <= m < |mid| :: mid[m].words > 0) && NoFreeNeighbours(mid)
    requires i > 0 ==> bs[i - 1].used || mid[0].used
    requires j < |bs| ==> mid[|mid| - 1].used || bs[j].used
    ensures Tiling(Splice(bs, i, j, mid), words)
  {
    hide Pos, Span, Splice;
    var bs' := Splice(bs, i, j, mid);
    SpliceLength(bs, i, j, mid);
    PosSplice(bs, i, j, mid, |bs'|);
    if j == |bs| { PosSplit(bs, i, j); }
    forall m | 0 <= m < |bs'| ensures bs'[m].words > 0 { SpliceAt(bs, i, j, mid, m); }
    forall m | 0 <= m < |bs'| - 1 ensures bs'[m].used || bs'[m + 1].used {
      SpliceAt(bs, i, j, mid, m);
      SpliceAt(bs, i, j, mid, m + 1);
    }
  }

  // ----- allocation

  lemma PiecesExtent(bs: seq<Block>, k: nat, need: nat)
    requires k < |bs| && 0 < need <= bs[k].words
    ensures var mid := Pieces(bs[k], need);
      && Pos(mid, 1) == need && Pos(mid, |mid|) == Span(bs, k, k + 1) == bs[k].words
      && NoFreeNeighbours(mid) && forall m | 0 <= m < |mid| :: mid[m].words > 0
  {
    var mid := Pieces(bs[k], need);
    assert Pos(mid, 1) == Pos(mid, 0) + mid[0].words;
    assert |mid| == 2 ==> Pos(mid, 2) == Pos(mid, 1) + mid[1].words;
    assert Span(bs, k, k) == 0;
  }

  lemma PiecesLive(start: nat, b: Block, need: nat)
    requires need <= b.words
    ensures Inside(start, Pieces(b, need)) == {(start, need)}
  {
    var mid := Pieces(b, need);
    assert mid[0].used && (start + Pos(mid, 0), mid[0].words) in Inside(start, mid);
  }

  /** Handing out the front of a free block adds it to the live ones and keeps the tiling. */
  lemma MallocKeeps(bs: seq<Block>, words: nat, k: nat, need: nat)
    requires Tiling(bs, words) && k < |bs| && need > 0 && Fits(bs[k], need)
    ensures Tiling(MallocAt(bs, k, need), words)
    ensures Live(MallocAt(bs, k, need)) == Live(bs) + {(Pos(bs, k), need)}
    ensures Pos(MallocAt(bs, k, need), k) == Pos(bs, k) && Pos(MallocAt(bs, k, need), k + 1) == Pos(bs, k) + need
  {
    hide Pos, Span, Splice;
    var mid := Pieces(bs[k], need);
    PiecesExtent(bs, k, need);
    SpliceTiling(bs, words, k, k + 1, mid);
    SpliceLength(bs, k, k + 1, mid);
    PosSplice(bs, k, k + 1, mid, k);
    PosSplice(bs, k, k + 1, mid, k + 1);
    LiveSplice(bs, k, k + 1, mid);
    PiecesLive(Pos(bs, k), bs[k], need);
    assert Outside(bs, k, k + 1) == Live(bs);
  }

  // ----- release

  lemma Neighbours(bs: seq<Block>, k: nat)
    requires k < |bs| && bs[k].used && NoFreeNeighbours(bs)
    ensures Low(bs, k) <= k < High(bs, k) <= |bs|
    ensures forall m | Low(bs, k) <= m < High(bs, k) && m != k :: !bs[m].used
    ensures Low(bs, k) > 0 ==> bs[Low(bs, k) - 1].used
    ensures High(bs, k) < |bs| ==> bs[High(bs, k)].used
    ensures Span(bs, Low(bs, k), High(bs, k)) >= bs[k].words
  {
    var lo, hi := Low(bs, k), High(bs, k);
    assert Span(bs, lo, lo) == 0;
    assert Span(bs, lo, k + 1) >= bs[k].words;
    assert hi == k + 2 ==> Span(bs, lo, hi) == Span(bs, lo, k + 1) + bs[k + 1].words;
  }

  /** Releasing a live block removes just that block from the live ones and keeps the tiling. */
  lemma FreeKeeps(bs: seq<Block>, words: nat, k: nat)
    requires Tiling(bs, words) && k < |bs| && bs[k].used
    ensures Tiling(FreeAt(bs, k), words)
    ensures Live(FreeAt(bs, k)) == Live(bs) - {(Pos(bs, k), bs[k].words)}
    ensures Low(bs, k) < |FreeAt(bs, k)| && Pos(FreeAt(bs, k), Low(bs, k)) == Pos(bs, Low(bs, k))
  {
    hide Span, Splice, Low, High, Live;
    var lo, hi := Low(bs, k), High(bs, k);
    Neighbours(bs, k);
    var mid := [Block(Span(bs, lo, hi), false)];
    assert Pos(mid, 1) == Pos(mid, 0) + mid[0].words;
    SpliceTiling(bs, words, lo, hi, mid);
    SpliceLength(bs, lo, hi, mid);
    PosSplice(bs, lo, hi, mid, lo);
    LiveSplice(bs, lo, hi, mid);
    OutsideOf(bs, words, k);
    assert Inside(Pos(bs, lo), mid) == {};
  }

  lemma OutsideOf(bs: seq<Block>, words: nat, k: nat)
    requires Tiling(bs, words) && k < |bs| && bs[k].used
    ensures Low(bs, k) <= High(bs, k) <= |bs|
    ensures Outside(bs, Low(bs, k), High(bs, k)) == Live(bs) - {(Pos(bs, k), bs[k].words)}
  {
    Neighbours(bs, k);
    hide Pos, Low, High;
    forall m | 0 <= m < |bs| && bs[m].used && m != k
      ensures Pos(bs, m) != Pos(bs, k)
    {
      if m < k { PosIncreases(bs, m, k); } else { PosIncreases(bs, k, m); }
    }
  }

  /** Releasing what was just handed out restores the list of blocks. */
  lemma FreeUndoesMalloc(bs: seq<Block>, words: nat, k: nat, need: nat)
    requires Tiling(bs, words) && k < |bs| && need > 0 && Fits(bs[k], need)
    ensures FreeAt(MallocAt(bs, k, need), k) == bs
  {
    var bs' := MallocAt(bs, k, need);
    assert bs'[..k] == bs[..k] && bs'[k] == Block(need, true);
    assert k > 0 ==> bs'[k - 1] == bs[k - 1];
    assert Low(bs', k) == k;
    var hi := High(bs', k);
    assert bs'[hi..] == bs[k + 1..];
    assert Span(bs', k, k) == 0 && Span(bs', k, k + 1) == need;
    assert Span(bs', k, hi) == bs[k].words;
    assert FreeAt(bs', k) == bs[..k] + [bs[k]] + bs[k + 1..];
  }

  /** With nothing live there is one free block: releasing everything, in whatever order, ends here. */
  lemma AllReleased(bs: seq<Block>, words: nat)
    requires Tiling(bs, words) && words > 0 && Live(bs) == {}
    ensures bs == [Block(words, false)]
  {
    if bs[0].used { UsedIsLive(bs, 0); }
    if |bs| > 1 {
      if bs[1].used { UsedIsLive(bs, 1); }
    }
    assert Pos(bs, 0) == 0 && (|bs| == 1 ==> Pos(bs, 1) == bs[0].words);
  }

  lemma UsedIsLive(bs: seq<Block>, k: nat)
    requires k < |bs| && bs[k].used
    ensures (Pos(bs, k), bs[k].words) in Live(bs)
  {
  }

  // ----- every run

  /** The allocator between two calls: its blocks and the block the roving pointer stands at (or the top). */
  datatype Heap = Heap(blocks: seq<Block>, rover: nat)

  /** A search for no words at all takes nothing from the free block it finds. */
  datatype Call = Malloc(need: nat) | Free(block: nat)

  ghost predicate Sound(h: Heap, words: nat)
  {
    Tiling(h.blocks, words) && h.rover <= |h.blocks|
  }

  function Step(h: Heap, c: Call): (r: Heap)
    requires h.rover <= |h.blocks|
    ensures r.rover <= |r.blocks|
  {
    match c
    case Malloc(need) =>
      var k := NextFit(h.blocks, h.rover, need);
      if k.None? then h
      else if need == 0 then Heap(h.blocks, k.value)
      else Heap(MallocAt(h.blocks, k.value, need), k.value + 1)
    case Free(k) =>
      if k < |h.blocks| && h.blocks[k].used then Heap(FreeAt(h.blocks, k), Low(h.blocks, k)) else h
  }

  lemma StepKeepsSound(h: Heap, words: nat, c: Call)
    requires Sound(h, words)
    ensures Sound(Step(h, c), words)
  {
    match c
    case Malloc(need) =>
      var k := NextFit(h.blocks, h.rover, need);
      if k.Some? && need > 0 { MallocKeeps(h.blocks, words, k.value, need); }
    case Free(k) =>
      if k < |h.blocks| && h.blocks[k].used { FreeKeeps(h.blocks, words, k); }
  }

  /** The heap after a run, oldest call first. */
  function Run(h: Heap, calls: seq<Call>): Heap
    requires h.rover <= |h.blocks|
    decreases |calls|
  {
    if calls == [] then h else Run(Step(h, calls[0]), calls[1..])
  }

  /** From one free block of the whole region, every run of calls keeps the blocks tiling it, coalesced. */
  lemma {:induction false} RunKeepsSound(h: Heap, words: nat, calls: seq<Call>)
    requires Sound(h, words)
    ensures Sound(Run(h, calls), words)
    ensures Live(Run(h, calls).blocks) == {} && words > 0 ==> Run(h, calls).blocks == [Block(words, false)]
    decreases |calls|
  {
    if calls == [] {
      if Live(h.blocks) == {} && words > 0 { AllReleased(h.blocks, words); }
    } else {
      StepKeepsSound(h, words, calls[0]);
      RunKeepsSound(Step(h, calls[0]), words, calls[1..]);
    }
  }

  // ----- which block is taken, and where the next search starts

  /** Next fit: the lowest fitting block from the roving pointer on; if there is none, the lowest below it. */
  lemma NextFitIs(bs: seq<Block>, rover: nat, need: nat, k: nat)
    requires rover <= |bs| && k < |bs| && Fits(bs[k], need)
    ensures rover <= k && (forall j | rover <= j < k :: !Fits(bs[j], need)) ==> NextFit(bs, rover, need) == Some(k)
    ensures k < rover && (forall j | rover <= j < |bs| || 0 <= j < k :: !Fits(bs[j], need))
            ==> NextFit(bs, rover, need) == Some(k)
  {
    if k < rover { assert FirstFit(bs, rover, |bs|, need).None? || exists j | rover <= j < |bs| :: Fits(bs[j], need); }
  }

  /** A search fails exactly when every block is used or smaller than what is needed. */
  lemma SearchFailsIff(bs: seq<Block>, rover: nat, need: nat)
    requires rover <= |bs|
    ensures NextFit(bs, rover, need).None? <==> forall b | b in bs :: b.used || b.words < need
  {
  }

  /** A search for nothing leaves the blocks and stops at the first free one from the roving pointer on, or
      else from the bottom. */
  lemma NothingRoves(h: Heap, k: nat)
    requires h.rover <= |h.blocks| && k < |h.blocks| && !h.blocks[k].used
    requires if h.rover <= k then forall j | h.rover <= j < k :: h.blocks[j].used
             else forall j | h.rover <= j < |h.blocks| || 0 <= j < k :: h.blocks[j].used
    ensures Step(h, Malloc(0)) == Heap(h.blocks, k)
  {
    NextFitIs(h.blocks, h.rover, 0, k);
  }

  /** After a search the roving pointer stands right behind the words handed out, and what is left of the
      block is a free block there. */
  lemma MallocRoves(h: Heap, words: nat, need: nat)
    requires Sound(h, words) && need > 0 && NextFit(h.blocks, h.rover, need).Some?
    ensures var k, next := NextFit(h.blocks, h.rover, need).value, Step(h, Malloc(need));
            && k < |h.blocks| && need <= h.blocks[k].words
            && Pos(next.blocks, next.rover) == Pos(h.blocks, k) + need
            && (need < h.blocks[k].words ==>
                  next.rover < |next.blocks| && next.blocks[next.rover] == Block(h.blocks[k].words - need, false))
            && (need == h.blocks[k].words ==> |next.blocks| == |h.blocks|)
  {
    hide Pos;
    var k := NextFit(h.blocks, h.rover, need).value;
    MallocKeeps(h.blocks, words, k, need);
  }

  /** After a release it stands at the free block that the released one has become part of. */
  lemma FreeRoves(h: Heap, words: nat, k: nat)
    requires Sound(h, words) && k < |h.blocks| && h.blocks[k].used
    ensures var next := Step(h, Free(k));
            && next.rover < |next.blocks| && !next.blocks[next.rover].used
            && Pos(next.blocks, next.rover) <= Pos(h.blocks, k)
            && Pos(h.blocks, k) + h.blocks[k].words <= Pos(next.blocks, next.rover) + next.blocks[next.rover].words
  {
    hide Pos, Splice, Span, Tiling, Live;
    var bs := h.blocks;
    var lo, hi := Low(bs, k), High(bs, k);
    var mid := [Block(Span(bs, lo, hi), false)];
    FreeKeeps(bs, words, k);
    SpliceAt(bs, lo, hi, mid, lo) by { SpliceLength(bs, lo, hi, mid); }
    PosSplit(bs, lo, hi);
    PosSteps(bs, lo, k);
    PosSteps(bs, k + 1, hi);
    PosNext(bs, k);
  }

  lemma PosNext(bs: seq<Block>, k: nat)
    requires k < |bs|
    ensures Pos(bs, k + 1) == Pos(bs, k) + bs[k].words
  {
  }

  lemma {:induction false} PosSteps(bs: seq<Block>, i: nat, j: nat)
    requires i <= j <= |bs|
    ensures Pos(bs, i) <= Pos(bs, j)
    decreases j - i
  {
    if i < j { PosSteps(bs, i, j - 1); }
  }
}
