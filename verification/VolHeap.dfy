/**
The `vol` allocator in place: a region of words with a header in front of every block, and a roving
pointer from which the next search starts.
*/
module VolHeap {
  import opened Basics
  import opened HeapBlocks

  const MAGIC: nat := 0xCC

  /** A header: the size in bytes, the magic bits and the use tag. */
  function Header(b: Block): nat
  {
    b.words * 4 * 256 + 0xCC + if b.used then 1 else 0
  }

  function BlockSize(value: nat): nat
  {
    value / 256
  }

  predicate BlockIsUsed(value: nat)
  {
    value % 2 == 1
  }

  predicate BlockCheck(value: nat)
  {
    value % 256 / 2 * 2 == 0xCC
  }

  lemma HeaderFields(b: Block)
    ensures BlockSize(Header(b)) == b.words * 4
    ensures BlockIsUsed(Header(b)) <==> b.used
    ensures BlockCheck(Header(b))
  {
    var size, low := b.words * 4, if b.used then 205 else 204;
    assert Header(b) == 256 * size + low;
    assert (256 * size + low) / 256 == size && (256 * size + low) % 256 == low;
    assert (256 * size + low) % 2 == low % 2;
  }

  /** A header word: the size in bytes above the lowest byte, which is 0xCD for a used block and 0xCC for a
      free one. */
  lemma HeaderIs(b: Block)
    ensures Header(b) / 0x100 == 4 * b.words && Header(b) % 0x100 == if b.used then 0xCD else 0xCC
  {
  }

  /** The headers in memory are those of the blocks. */
  ghost predicate Written(mem: seq<nat>, bs: seq<Block>)
  {
    Pos(bs, |bs|) < |mem| && forall k | 0 <= k < |bs| :: Pos(bs, k) < |mem| && mem[Pos(bs, k)] == Header(bs[k])
  }

  lemma OutsideUnchanged(mem: seq<nat>, mem': seq<nat>, bs: seq<Block>, i: nat, j: nat, k: nat)
    requires Written(mem, bs) && i <= j <= |bs| && |mem'| == |mem| && k < |bs| && !(i <= k < j)
    requires forall k | 0 <= k < |bs| :: bs[k].words > 0
    requires forall a | 0 <= a < |mem| && !(Pos(bs, i) <= a < Pos(bs, j)) :: mem'[a] == mem[a]
    ensures Pos(bs, k) < |mem| && mem'[Pos(bs, k)] == Header(bs[k])
  {
    hide Header, Pos;
    if k < i { PosIncreases(bs, k, i); } else if k > j { PosIncreases(bs, j, k); }
  }

  /** A splice is in memory once the headers of the new blocks are and nothing outside them changed. */
  lemma WrittenSplice(mem: seq<nat>, mem': seq<nat>, bs: seq<Block>, i: nat, j: nat, mid: seq<Block>)
    requires Written(mem, bs) && i <= j <= |bs| && |mem'| == |mem| && Pos(mid, |mid|) == Span(bs, i, j)
    requires forall k | 0 <= k < |bs| :: bs[k].words > 0
    requires forall a | 0 <= a < |mem| && !(Pos(bs, i) <= a < Pos(bs, j)) :: mem'[a] == mem[a]
    requires forall m | 0 <= m < |mid| :: Pos(bs, i) + Pos(mid, m) < |mem| && mem'[Pos(bs, i) + Pos(mid, m)] == Header(mid[m])
    ensures Written(mem', Splice(bs, i, j, mid))
  {
    hide Span, Splice, Header, Pos;
    var bs' := Splice(bs, i, j, mid);
    forall k | 0 <= k < |bs'|
      ensures Pos(bs', k) < |mem'| && mem'[Pos(bs', k)] == Header(bs'[k])
    {
      SplicedHeader(mem, mem', bs, i, j, mid, k);
    }
    SpliceExtent(bs, i, j, mid);
  }

  lemma SplicedHeader(mem: seq<nat>, mem': seq<nat>, bs: seq<Block>, i: nat, j: nat, mid: seq<Block>, k: nat)
    requires Written(mem, bs) && i <= j <= |bs| && |mem'| == |mem| && Pos(mid, |mid|) == Span(bs, i, j)
    requires forall k | 0 <= k < |bs| :: bs[k].words > 0
    requires forall a | 0 <= a < |mem| && !(Pos(bs, i) <= a < Pos(bs, j)) :: mem'[a] == mem[a]
    requires forall m | 0 <= m < |mid| :: Pos(bs, i) + Pos(mid, m) < |mem| && mem'[Pos(bs, i) + Pos(mid, m)] == Header(mid[m])
    requires k < |Splice(bs, i, j, mid)|
    ensures Pos(Splice(bs, i, j, mid), k) < |mem'|
    ensures mem'[Pos(Splice(bs, i, j, mid), k)] == Header(Splice(bs, i, j, mid)[k])
  {
    hide Span, Splice, Header, Pos;
    SpliceLength(bs, i, j, mid);
    SpliceOrigin(bs, i, j, mid, k);
    if k < i {
      OutsideUnchanged(mem, mem', bs, i, j, k);
    } else if k < i + |mid| {
      assert mid[k - i] == Splice(bs, i, j, mid)[k];
    } else {
      OutsideUnchanged(mem, mem', bs, i, j, k - i - |mid| + j);
    }
  }

  lemma SpliceExtent(bs: seq<Block>, i: nat, j: nat, mid: seq<Block>)
    requires i <= j <= |bs| && Pos(mid, |mid|) == Span(bs, i, j)
    ensures Pos(Splice(bs, i, j, mid), |Splice(bs, i, j, mid)|) == Pos(bs, |bs|)
  {
    hide Span, Pos, Splice;
    SpliceLength(bs, i, j, mid);
    PosSplice(bs, i, j, mid, |Splice(bs, i, j, mid)|);
    PosSplit(bs, i, j);
    PosZero(mid);
  }

  lemma FirstFitAt(bs: seq<Block>, lo: nat, hi: nat, need: nat, k: nat)
    requires lo <= k <= hi <= |bs| && forall j | lo <= j < k :: !Fits(bs[j], need)
    ensures k == hi ==> FirstFit(bs, lo, hi, need).None?
    ensures k < hi && Fits(bs[k], need) ==> FirstFit(bs, lo, hi, need) == Some(k)
  {
  }

  class Allocator {
    /** False when no region could be had at start-up. */
    var memState: bool
    /** The region, `words` long, and the one word after it. */
    const mem: array<nat>
    const words: nat
    var freep: nat
    ghost var heap: Heap

    /** The word after the region is taken to read as a used header: `VolFree` looks at it. */
    ghost predicate Valid()
      reads this, mem
    {
      memState ==>
        && mem.Length == words + 1 && words > 0 && words * 4 < 0x100_0000
        && BlockIsUsed(mem[words])
        && Sound(heap, words)
        && Written(mem[..], heap.blocks)
        && freep == Pos(heap.blocks, heap.rover)
    }

    constructor Init(region: array<nat>, obtained: bool)
      requires obtained ==> region.Length >= 2 && (region.Length - 1) * 4 < 0x100_0000
      requires obtained ==> BlockIsUsed(region[region.Length - 1])
      modifies region
      ensures Valid() && memState == obtained && mem == region
      ensures obtained ==> words == region.Length - 1 && heap == Heap([Block(words, false)], 0)
    {
      memState, mem := obtained, region;
      words := if obtained then region.Length - 1 else 0;
      freep := 0;
      heap := Heap([Block(if obtained then region.Length - 1 else 0, false)], 0);
      new;
      if obtained {
        mem[0] := words * 4 * 256 + MAGIC;
        assert Pos(heap.blocks, 1) == Pos(heap.blocks, 0) + words;
      }
    }

    /** Hands out the front of block `k`, which stands at `tp` and fits. With a size of zero the second
        header overwrites the first: the block stays as it is. */
    method TakeBlock(tp: nat, size: nat, bSize: nat, ghost k: nat) returns (p: nat)
      requires Valid() && memState && k < |heap.blocks| && tp == Pos(heap.blocks, k)
      requires size % 4 == 0 && bSize == heap.blocks[k].words * 4 && Fits(heap.blocks[k], size / 4)
      modifies this, mem
      ensures Valid() && memState && p == tp + 1
      ensures heap == if size == 0 then Heap(old(heap.blocks), k) else Heap(MallocAt(old(heap.blocks), k, size / 4), k + 1)
      ensures size == 0 ==> mem[..] == old(mem[..])
    {
      hide Pos, Span, Header, Sound, Tiling, MallocAt;
      ghost var bs, before := heap.blocks, mem[..];
      if size > 0 { TakeFacts(k, size / 4); }
      StartOf(k);
      var next := tp + size / 4;
      SplitHeader(tp, size, bSize);
      freep := next;
      if size == 0 {
        assert mem[..] == before;
        heap := Heap(bs, k);
      } else {
        WrittenSplice(before, mem[..], bs, k, k + 1, Pieces(bs[k], size / 4));
        heap := Heap(MallocAt(bs, k, size / 4), k + 1);
      }
      return next - size / 4 + 1;
    }

    lemma StartOf(k: nat)
      requires Valid() && memState && k < |heap.blocks|
      ensures Pos(heap.blocks, k) + heap.blocks[k].words <= words && heap.blocks[k].words > 0
      ensures mem[Pos(heap.blocks, k)] == Header(heap.blocks[k])
      ensures Sound(Heap(heap.blocks, k), words)
    {
      hide Pos, Header, NoFreeNeighbours, BlockSize;
      Consistent();
      HeaderRead(heap.blocks, k);
      assert mem[..][Pos(heap.blocks, k)] == Header(heap.blocks[k]);
    }

    /** What the split will have to show. */
    lemma TakeFacts(k: nat, need: nat)
      requires Valid() && memState && k < |heap.blocks| && need > 0 && Fits(heap.blocks[k], need)
      ensures var bs, mid := heap.blocks, Pieces(heap.blocks[k], need);
        && (forall i | 0 <= i < |bs| :: bs[i].words > 0)
        && Pos(mid, |mid|) == Span(bs, k, k + 1) && Pos(mid, 0) == 0 && (|mid| > 1 ==> Pos(mid, 1) == need)
        && Pos(bs, k + 1) == Pos(bs, k) + bs[k].words <= words
        && MallocAt(bs, k, need) == Splice(bs, k, k + 1, mid)
        && Sound(Heap(MallocAt(bs, k, need), k + 1), words)
        && Pos(MallocAt(bs, k, need), k + 1) == Pos(bs, k) + need
    {
      hide Pos, Header;
      ghost var bs, mid := heap.blocks, Pieces(heap.blocks[k], need);
      PiecesExtent(bs, k, need);
      PosZero(mid);
      PosSplit(bs, k, k + 1);
      PosEnd(bs, k + 1);
      MallocKeeps(bs, words, k, need);
      SpliceLength(bs, k, k + 1, mid);
    }

    /** The header of the block handed out and, if something is left, of the free rest. */
    method SplitHeader(tp: nat, size: nat, bSize: nat)
      requires size % 4 == 0 && size <= bSize && 0 < bSize && bSize % 4 == 0 && tp + bSize / 4 <= mem.Length
      modifies mem
      ensures size > 0 ==> mem[tp] == Header(Block(size / 4, true))
      ensures bSize > size ==> mem[tp + size / 4] == Header(Block(bSize / 4 - size / 4, false))
      ensures forall a | 0 <= a < mem.Length && a != tp && (bSize > size ==> a != tp + size / 4) :: mem[a] == old(mem[a])
    {
      hide Header;
      mem[tp] := size * 256 + 1 + MAGIC;
      HeaderValue(size, true);
      if bSize - size > 0 {
        mem[tp + size / 4] := (bSize - size) * 256 + MAGIC;
        HeaderValue(bSize - size, false);
      }
    }

    static lemma HeaderValue(size: nat, used: bool)
      requires size % 4 == 0
      ensures Header(Block(size / 4, used)) == size * 256 + 0xCC + if used then 1 else 0
    {
    }

    static lemma PosEnd(bs: seq<Block>, k: nat)
      requires k <= |bs|
      ensures Pos(bs, k) <= Pos(bs, |bs|)
      decreases |bs| - k
    {
      if k < |bs| { PosEnd(bs, k + 1); }
    }

    /** One look at a header during the search: the block's size in bytes, and whether it will do. */
    method Inspect(tp: nat, size: nat, ghost k: nat) returns (bSize: nat, fits: bool)
      requires Valid() && memState && k < |heap.blocks| && tp == Pos(heap.blocks, k) && size % 4 == 0
      ensures bSize == heap.blocks[k].words * 4 && bSize > 0 && (fits <==> Fits(heap.blocks[k], size / 4))
      ensures tp + bSize / 4 == Pos(heap.blocks, k + 1)
    {
      hide Header;
      assert mem[..][tp] == Header(heap.blocks[k]);
      HeaderFields(heap.blocks[k]);
      bSize := BlockSize(mem[tp]);
      fits := !(BlockIsUsed(mem[tp]) || bSize < size);
    }

    /** A size of whole words with its header, as the unsigned word that block sizes are compared with. */
    static function WithHeader(size: int): (bytes: nat)
      requires size % 4 == 0
      ensures bytes % 4 == 0
    {
      (size + 4) % 0x1_0000_0000
    }

    /** The bytes a request is searched for. */
    static function Wanted(size: int): (bytes: nat)
      ensures bytes % 4 == 0
    {
      WithHeader(Rounded(size))
    }

    static function Rounded(size: int): (r: int)
      ensures r % 4 == 0
    {
      size + 3 - (size + 3) % 4
    }

    /** What becomes of a size: in the ordinary range the words of payload and header; from -7 to -4
        nothing; otherwise more than any region holds. */
    static lemma WantedIs(size: int)
      requires -TWO_31 <= size < TWO_31
      ensures -4 < size < TWO_31 - 3 ==> Wanted(size) == ((size + 3) / 4 + 1) * 4
      ensures Wanted(size) == 0 <==> -8 < size <= -4
      ensures size <= -8 || size >= TWO_31 - 3 ==> Wanted(size) >= TWO_31
    {
    }

    /** The call of the abstract heap that a request for `size` bytes amounts to. */
    static function Request(size: int): (c: Call)
      ensures c.Malloc?
    {
      Malloc(Wanted(size) / 4)
    }

    /** Next-fit search: up from the roving pointer, then from the bottom up to it. */
    method VolRMalloc(size0: int) returns (p: Option<nat>)
      requires Valid() && memState && size0 % 4 == 0
      modifies this, mem
      ensures Valid() && memState
      ensures var need := WithHeader(size0) / 4;
              var k := NextFit(old(heap.blocks), old(heap.rover), need);
              && heap == Step(old(heap), Malloc(need))
              && p == if k.None? then None else Some(old(Pos(heap.blocks, k.value)) + 1)
      ensures WithHeader(size0) == 0 || p.None? ==> mem[..] == old(mem[..])
    {
      hide Pos, Header, Sound, Written, FirstFit, Tiling, WithHeader, MallocAt;
      var size, tp := WithHeader(size0), freep;
      ghost var bs, rover := heap.blocks, heap.rover;
      Bounds();
      ghost var k := rover;
      while tp < words
        invariant rover <= k <= |bs| && tp == Pos(bs, k) && forall j | rover <= j < k :: !Fits(bs[j], size / 4)
        invariant unchanged(this, mem)
        decreases |bs| - k
      {
        AtTop(k);
        var bSize, fits := Inspect(tp, size, k);
        if bSize == 0 {
          return None;
        }
        FirstFitAt(bs, rover, |bs|, size / 4, k);
        if !fits {
          tp := tp + bSize / 4;
          k := k + 1;
        } else {
          var q := TakeBlock(tp, size, bSize, k);
          return Some(q);
        }
      }
      AtTop(k);
      FirstFitAt(bs, rover, |bs|, size / 4, k);
      tp, k := 0, 0;
      while tp < freep
        invariant 0 <= k <= rover && tp == Pos(bs, k) && forall j | 0 <= j < k :: !Fits(bs[j], size / 4)
        invariant unchanged(this, mem)
        decreases rover - k
      {
        AtRover(k);
        var bSize, fits := Inspect(tp, size, k);
        if bSize == 0 {
          return None;
        }
        FirstFitAt(bs, 0, rover, size / 4, k);
        if !fits {
          tp := tp + bSize / 4;
          k := k + 1;
        } else {
          var q := TakeBlock(tp, size, bSize, k);
          return Some(q);
        }
      }
      AtRover(k);
      FirstFitAt(bs, 0, rover, size / 4, k);
      return None;
    }

    lemma Bounds()
      requires Valid() && memState
      ensures heap.rover <= |heap.blocks| && freep == Pos(heap.blocks, heap.rover) && Pos(heap.blocks, 0) == 0
    {
    }

    lemma AtTop(k: nat)
      requires Valid() && memState && k <= |heap.blocks|
      ensures Pos(heap.blocks, k) < words <==> k < |heap.blocks|
    {
      hide Pos, Written, NoFreeNeighbours;
      if k < |heap.blocks| { PosIncreases(heap.blocks, k, |heap.blocks|); }
    }

    lemma AtRover(k: nat)
      requires Valid() && memState && k <= heap.rover
      ensures Pos(heap.blocks, k) < freep <==> k < heap.rover
    {
      hide Pos, Written, NoFreeNeighbours;
      if k < heap.rover { PosIncreases(heap.blocks, k, heap.rover); }
    }

    /**
    A request is rounded up to whole words and gets a header. NULL comes back exactly when no free block
    is large enough; otherwise the payload handed out is a block no one else holds. That is so for every
    size above -4. A size of -7 to -4 comes out as no bytes at all: the pointer handed out is behind the
    header of a block that stays free. Below that nothing is ever found.
    */
    method VolMalloc(size: int) returns (p: Option<nat>)
      requires Valid() && -TWO_31 <= size < TWO_31
      modifies this, mem
      ensures Valid() && memState == old(memState)
      ensures !memState ==> p.None? && heap == old(heap)
      ensures memState ==> heap == Step(old(heap), Request(size))
      ensures memState ==> (p.None? <==> forall b | b in old(heap.blocks) :: b.used || b.words < Request(size).need)
      ensures memState && p.Some? ==> p.value > 0 && (p.value - 1, Request(size).need) !in Live(old(heap.blocks))
      ensures memState && size > -4 && p.Some? ==>
                Live(heap.blocks) == Live(old(heap.blocks)) + {(p.value - 1, Request(size).need)}
      ensures memState && size <= -4 ==> heap.blocks == old(heap.blocks) && mem[..] == old(mem[..])
      ensures memState && size <= -4 && p.Some? ==> size > -8 && IsFree(heap.blocks, p.value)
      ensures memState && size <= -8 ==> p.None?
    {
      if !memState {
        return None;
      }
      hide Valid, Pos, Step, NextFit, Live, WithHeader, Rounded, Fits, IsFree;
      Served(size);
      p := VolRMalloc(Rounded(size));
    }

    /** What the next search finds means for the caller. */
    lemma Served(size: int)
      requires Valid() && memState && -TWO_31 <= size < TWO_31
      ensures heap.rover <= |heap.blocks|
      ensures var bs, need, next := heap.blocks, Request(size).need, Step(heap, Request(size)).blocks;
              var k := NextFit(bs, heap.rover, need);
              && (k.None? <==> forall b | b in bs :: b.used || b.words < need)
              && (size <= -8 ==> k.None?)
              && (size <= -4 ==> next == bs && (size > -8 ==> Wanted(size) == 0))
              && (k.Some? ==>
                    && (Pos(bs, k.value), need) !in Live(bs) && IsFree(bs, Pos(bs, k.value) + 1)
                    && (size > -4 ==> Live(next) == Live(bs) + {(Pos(bs, k.value), need)}))
    {
      hide Pos, Wanted, Live, MallocAt, Written;
      var bs, rover, need := heap.blocks, heap.rover, Request(size).need;
      WantedIs(size);
      SearchComplete(bs, rover, need);
      var k := NextFit(bs, rover, need);
      if k.Some? {
        StartOf(k.value);
        FreeNotLive(bs, words, k.value, need);
        assert AtBlock(bs, k.value, Pos(bs, k.value) + 1);
        if need > 0 { MallocKeeps(bs, words, k.value, need); }
      }
    }

    /** `p` points behind the header of a free block. */
    static ghost predicate IsFree(bs: seq<Block>, p: nat)
    {
      exists k: nat :: AtBlock(bs, k, p) && !bs[k].used
    }

    /** The header that `p` would have is not in the region. */
    predicate Outside(p: nat)
      reads this
    {
      p == 0 || p > words
    }

    /** `p` points behind the header of block `k`. */
    static ghost predicate AtBlock(bs: seq<Block>, k: nat, p: nat)
    {
      k < |bs| && p == Pos(bs, k) + 1
    }

    /** Block `k` is live and `p` is the pointer that was handed out for it. */
    static ghost predicate Owns(bs: seq<Block>, k: nat, p: nat)
    {
      AtBlock(bs, k, p) && bs[k].used
    }

    /** The blocks are in memory, the word after them reads as used. */
    ghost predicate Holds(bs: seq<Block>)
      reads mem
    {
      && mem.Length == words + 1 && BlockIsUsed(mem[words])
      && Pos(bs, |bs|) == words && Written(mem[..], bs) && forall k | 0 <= k < |bs| :: bs[k].words > 0
    }

    /** Blocks `i` to `j - 1` as one free block. */
    static ghost function Joined(bs: seq<Block>, i: nat, j: nat): seq<Block>
      requires i < j <= |bs|
    {
      Splice(bs, i, j, [Block(Span(bs, i, j), false)])
    }

    /** Writing one free header over a run of blocks, with nothing else changed outside the run, joins them. */
    lemma JoinWritten(before: seq<nat>, bs: seq<Block>, i: nat, j: nat)
      requires mem.Length == words + 1 == |before| && Pos(bs, |bs|) == words && Written(before, bs)
      requires i < j <= |bs| && forall k | 0 <= k < |bs| :: bs[k].words > 0
      requires forall a | 0 <= a < |before| && !(Pos(bs, i) <= a < Pos(bs, j)) :: mem[a] == before[a]
      requires Pos(bs, i) < mem.Length && mem[Pos(bs, i)] == Header(Block(Span(bs, i, j), false))
      requires BlockIsUsed(before[words])
      ensures Holds(Joined(bs, i, j))
    {
      hide Pos, Span, Header;
      var mid := [Block(Span(bs, i, j), false)];
      PosOne(mid);
      PosSplit(bs, i, j);
      PosIncreases(bs, i, j);
      PosEnd(bs, j);
      WrittenSplice(before, mem[..], bs, i, j, mid);
      SpliceExtent(bs, i, j, mid);
      SpliceLength(bs, i, j, mid);
      forall k | 0 <= k < |Joined(bs, i, j)| ensures Joined(bs, i, j)[k].words > 0 { SpliceAt(bs, i, j, mid, k); }
    }

    static lemma PosOne(mid: seq<Block>)
      requires |mid| == 1
      ensures Pos(mid, 0) == 0 && Pos(mid, 1) == mid[0].words
    {
      assert Pos(mid, 1) == Pos(mid, 0) + mid[0].words;
    }

    /** The first half of a release: the block and a free block behind it become one. */
    method MergeBehind(tp: nat, ghost bs: seq<Block>, ghost k: nat) returns (bSize: nat)
      requires Holds(bs) && k < |bs| && bs[k].used && tp == Pos(bs, k)
      modifies mem
      ensures k < High(bs, k) <= |bs| && Holds(Joined(bs, k, High(bs, k))) && bSize == 4 * Span(bs, k, High(bs, k))
    {
      hide Pos, Header, Written;
      ghost var before, hi := mem[..], High(bs, k);
      HeaderRead(bs, k);
      SpanValues(bs, k);
      bSize := BlockSize(mem[tp]);
      var next := tp + bSize / 4;
      if k + 1 < |bs| { HeaderRead(bs, k + 1); }
      if !BlockIsUsed(mem[next]) {
        var size := BlockSize(mem[next]);
        bSize := bSize + size;
        mem[next] := 0;
      }
      mem[tp] := bSize * 256 + MAGIC;
      HeaderValue(bSize, false);
      JoinWritten(before, bs, k, hi);
    }

    lemma HeaderRead(bs: seq<Block>, k: nat)
      requires Holds(bs) && k < |bs|
      ensures Pos(bs, k) < words && Pos(bs, k + 1) == Pos(bs, k) + bs[k].words <= words
      ensures BlockSize(mem[Pos(bs, k)]) == 4 * bs[k].words > 0 && (BlockIsUsed(mem[Pos(bs, k)]) <==> bs[k].used)
      ensures BlockCheck(mem[Pos(bs, k)])
      ensures k + 1 == |bs| ==> Pos(bs, k + 1) == words
    {
      assert mem[..][Pos(bs, k)] == Header(bs[k]);
      HeaderFields(bs[k]);
      hide Header;
      PosEnd(bs, k + 1);
    }

    static lemma SpanValues(bs: seq<Block>, k: nat)
      requires k < |bs|
      ensures Span(bs, k, k + 1) == bs[k].words && Pos(bs, k + 1) == Pos(bs, k) + bs[k].words
      ensures k + 2 <= |bs| ==> Span(bs, k, k + 2) == bs[k].words + bs[k + 1].words
      ensures k + 2 <= |bs| ==> Pos(bs, k + 2) == Pos(bs, k + 1) + bs[k + 1].words
    {
      assert Span(bs, k, k) == 0;
    }

    /** The walk from the bottom to the block in front of the one at `tp`. */
    method FindPrevious(tp: nat, ghost bs: seq<Block>, ghost k: nat) returns (prev: nat, size: nat)
      requires Holds(bs) && 0 < k <= |bs| && tp == Pos(bs, k)
      ensures prev == Pos(bs, k - 1) && size == 4 * bs[k - 1].words
    {
      hide Pos, Header, Written;
      var cur := 0;
      prev, size := 0, 0;
      ghost var i := 0;
      PosZero(bs);
      PosIncreases(bs, 0, k);
      while cur < tp
        invariant 0 <= i <= k && cur == Pos(bs, i) && (i > 0 ==> prev == Pos(bs, i - 1) && size == 4 * bs[i - 1].words)
        decreases k - i
      {
        HeaderRead(bs, i);
        size := BlockSize(mem[cur]);
        prev := cur;
        cur := cur + size / 4;
        i := i + 1;
      }
      if i < k { PosIncreases(bs, i, k); }
    }

    static lemma JoinedTwice(bs: seq<Block>, k: nat)
      requires 0 < k < |bs| && bs[k].used
      requires k < High(bs, k) <= |bs|
      ensures Joined(bs, k, High(bs, k))[k - 1] == bs[k - 1] && |Joined(bs, k, High(bs, k))| > k
      ensures Span(Joined(bs, k, High(bs, k)), k - 1, k + 1) == bs[k - 1].words + Span(bs, k, High(bs, k))
      ensures !bs[k - 1].used ==> Joined(Joined(bs, k, High(bs, k)), k - 1, k + 1) == FreeAt(bs, k)
      ensures bs[k - 1].used ==> Joined(bs, k, High(bs, k)) == FreeAt(bs, k)
    {
      var hi := High(bs, k);
      var one := Joined(bs, k, hi);
      SpanValues(one, k - 1);
      SpanValues(bs, k - 1);
      SpanValues(bs, k);
      SpanThree(bs, k, hi);
      hide Span;
      if !bs[k - 1].used {
        assert one[..k - 1] == bs[..k - 1] && one[k + 1..] == bs[hi..];
      }
    }

    static lemma SpanThree(bs: seq<Block>, k: nat, hi: nat)
      requires 0 < k < hi <= |bs|
      ensures Span(bs, k - 1, hi) == bs[k - 1].words + Span(bs, k, hi)
      decreases hi
    {
      if hi > k + 1 {
        SpanThree(bs, k, hi - 1);
      } else {
        SpanValues(bs, k - 1);
        SpanValues(bs, k);
      }
    }

    /** The word in front of `p` looks like the header of a block in use. */
    predicate LooksUsed(p: nat)
      requires 0 < p <= mem.Length
      reads mem
    {
      BlockCheck(mem[p - 1]) && BlockIsUsed(mem[p - 1])
    }

    /** Coalesces the released block with a free block behind it, then with one in front of it. Nothing is
        changed by a pointer from outside the region, to a block that is free already, or to anywhere in a
        block where the word in front of it does not happen to look like a header. */
    method VolFree(p: nat, ghost k: nat)
      requires Valid()
      requires memState ==> Outside(p) || AtBlock(heap.blocks, k, p) || !LooksUsed(p)
      modifies this, mem
      ensures Valid() && memState == old(memState)
      ensures memState && Owns(old(heap.blocks), k, p) ==>
                && heap == Step(old(heap), Free(k))
                && Live(heap.blocks) == Live(old(heap.blocks)) - {(p - 1, old(heap.blocks)[k].words)}
      ensures !(memState && Owns(old(heap.blocks), k, p)) ==> heap == old(heap) && mem[..] == old(mem[..])
    {
      hide Pos, Live, Valid, FreeAt, Low, BlockCheck, BlockIsUsed;
      if !memState {
        return;
      }
      Consistent();
      if k < |heap.blocks| { HeaderRead(heap.blocks, k); }
      if p == 0 || p - 1 >= words || !BlockCheck(mem[p - 1]) {
        return;
      }
      if !BlockIsUsed(mem[p - 1]) {
        return;
      }
      FreeLive(p, k);
    }

    method FreeLive(p: nat, ghost k: nat)
      requires Valid() && memState && Owns(heap.blocks, k, p)
      modifies this, mem
      ensures Valid() && memState
      ensures heap == Step(old(heap), Free(k))
      ensures Live(heap.blocks) == Live(old(heap.blocks)) - {(p - 1, old(heap.blocks)[k].words)}
    {
      hide Pos, Low, High, Live, FreeAt, Tiling, Valid, Holds;
      Consistent();
      ghost var bs := heap.blocks;
      FreeKeeps(bs, words, k);
      Release(p - 1, bs, k);
      heap := Heap(FreeAt(bs, k), Low(bs, k));
      ConsistentAgain();
    }

    lemma Consistent()
      requires Valid() && memState
      ensures Holds(heap.blocks) && Tiling(heap.blocks, words) && mem.Length == words + 1 && words * 4 < 0x100_0000 && words > 0
    {
    }

    lemma ConsistentAgain()
      requires memState && words > 0 && words * 4 < 0x100_0000 && Holds(heap.blocks) && Tiling(heap.blocks, words)
      requires heap.rover <= |heap.blocks| && freep == Pos(heap.blocks, heap.rover)
      ensures Valid()
    {
    }

    static lemma JoinedKeepsPos(bs: seq<Block>, i: nat, j: nat)
      requires i < j <= |bs|
      ensures |Joined(bs, i, j)| > i && Pos(Joined(bs, i, j), i) == Pos(bs, i)
    {
      hide Pos, Span;
      var mid := [Block(Span(bs, i, j), false)];
      PosOne(mid);
      PosSplice(bs, i, j, mid, i);
    }

    static lemma AtBottom(bs: seq<Block>, k: nat)
      requires k < |bs| && bs[k].used && forall k | 0 <= k < |bs| :: bs[k].words > 0
      ensures Pos(bs, k) == 0 <==> k == 0
      ensures k < High(bs, k) <= |bs|
      ensures k == 0 ==> Low(bs, k) == 0 && Joined(bs, k, High(bs, k)) == FreeAt(bs, k)
    {
      if k > 0 { PosIncreases(bs, 0, k); }
    }

    method Release(tp: nat, ghost bs: seq<Block>, ghost k: nat)
      requires Holds(bs) && k < |bs| && bs[k].used && tp == Pos(bs, k)
      modifies mem, this`freep
      ensures Holds(FreeAt(bs, k)) && Low(bs, k) <= |FreeAt(bs, k)| && freep == Pos(FreeAt(bs, k), Low(bs, k))
    {
      hide Pos, Header, Written, Span;
      var bSize := MergeBehind(tp, bs, k);
      freep := tp;
      ghost var one := Joined(bs, k, High(bs, k));
      JoinedKeepsPos(bs, k, High(bs, k));
      AtBottom(bs, k);
      if tp == 0 {
        return;
      }
      JoinedTwice(bs, k);
      ghost var before := mem[..];
      var prev, size := FindPrevious(tp, one, k);
      HeaderRead(one, k - 1);
      if !BlockIsUsed(mem[prev]) {
        mem[tp] := 0;
        mem[prev] := (bSize + size) * 256 + MAGIC;
        freep := prev;
        HeaderValue(bSize + size, false);
        SpanValues(one, k - 1);
        PosIncreases(one, k, k + 1);
        JoinWritten(before, one, k - 1, k + 1);
        JoinedKeepsPos(one, k - 1, k + 1);
      }
    }

    static lemma SearchComplete(bs: seq<Block>, rover: nat, need: nat)
      requires rover <= |bs|
      ensures NextFit(bs, rover, need).None? <==> forall b | b in bs :: !Fits(b, need)
    {
    }

    static lemma FreeNotLive(bs: seq<Block>, words: nat, k: nat, need: nat)
      requires Tiling(bs, words) && k < |bs| && !bs[k].used
      ensures (Pos(bs, k), need) !in Live(bs)
    {
      hide Pos;
      forall m | 0 <= m < |bs| && bs[m].used ensures Pos(bs, m) != Pos(bs, k) {
        if m < k { PosIncreases(bs, m, k); } else { PosIncreases(bs, k, m); }
      }
    }
  }
}
