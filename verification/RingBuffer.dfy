/** The ring buffer: a power-of-two array whose indices are wrapped by a mask, refining a sequence that
    keeps its last bytes. */
module RingBuffer {
  import opened Basics

  /* ---- Masks ---- */

  /** Bitwise conjunction. */
  function And(a: nat, b: nat): nat {
    if a == 0 || b == 0 then 0 else (if a % 2 == 1 && b % 2 == 1 then 1 else 0) + 2 * And(a / 2, b / 2)
  }

  function Pow2(n: nat): (p: nat)
    ensures p > 0
  {
    if n == 0 then 1 else 2 * Pow2(n - 1)
  }

  function Rem(x: nat, m: nat): nat
    requires m > 0
  {
    x % m
  }

  /** Masking with 2^n - 1 is the remainder by 2^n. */
  lemma {:induction false} MaskIsRemainder(x: nat, n: nat)
    ensures And(x, Pow2(n) - 1) == Rem(x, Pow2(n))
  {
    if x == 0 {
      Remainder(0, Pow2(n), 0);
    } else if n > 0 {
      var p := Pow2(n - 1);
      assert Pow2(n) == 2 * p;
      MaskIsRemainder(x / 2, n - 1);
      HalveRemainder(x, p);
      AndOdd(x, p);
      hide And, Pow2, Rem;
    } else {
      Remainder(x, 1, 0);
    }
  }

  lemma AndOdd(x: nat, p: nat)
    requires x > 0 && p > 0
    ensures And(x, 2 * p - 1) == x % 2 + 2 * And(x / 2, p - 1)
  {
    assert (2 * p - 1) % 2 == 1 && (2 * p - 1) / 2 == p - 1;
  }

  lemma HalveRemainder(x: nat, p: nat)
    requires p > 0
    ensures Rem(x, 2 * p) == 2 * Rem(x / 2, p) + x % 2
  {
    var q, r := x / 2 / p, x / 2 % p;
    Division(x / 2, p);
    DoubleProduct(q, p);
    Remainder(q, 2 * p, 2 * r + x % 2);
  }

  lemma Division(x: nat, p: nat)
    requires p > 0
    ensures x == x / p * p + x % p && x % p < p
  {
  }

  lemma DoubleProduct(q: nat, p: nat)
    ensures q * (2 * p) == 2 * (q * p)
  {
  }

  lemma Remainder(q: nat, m: nat, r: nat)
    requires r < m
    ensures Rem(q * m + r, m) == r
  {
    var x := q * m + r;
    var q', r' := x / m, x % m;
    Division(x, m);
    assert (q' - q) * m == r - r';
    if q' > q { Product(q' - q, m); }
    if q' < q { Product(q - q', m); }
  }

  lemma Product(k: nat, m: nat)
    requires k >= 1
    ensures k * m >= m
  {
  }

  /** The test that start-up makes of a size: it passes the powers of two, and zero. */
  lemma {:induction false} PowerOfTwoIff(size: nat)
    requires size > 0
    ensures And(size, size - 1) == 0 <==> exists n: nat :: size == Pow2(n)
  {
    if size == 1 {
      assert size == Pow2(0);
    } else if size % 2 == 1 {
      assert (size - 1) / 2 == size / 2;
      AndSelf(size / 2);
      forall n: nat ensures size != Pow2(n) { Pow2Parity(n); }
    } else {
      assert (size - 1) / 2 == size / 2 - 1;
      PowerOfTwoIff(size / 2);
      if n: nat :| size / 2 == Pow2(n) { assert size == Pow2(n + 1); }
      if n: nat :| size == Pow2(n) { assert size / 2 == Pow2(n - 1); }
    }
  }

  lemma {:induction false} Pow2Parity(n: nat)
    ensures Pow2(n) == 1 || Pow2(n) % 2 == 0
  {
    if n > 0 { assert Pow2(n) == 2 * Pow2(n - 1); }
  }

  lemma {:induction false} AndSelf(a: nat)
    ensures And(a, a) == a
  {
    if a > 0 { AndSelf(a / 2); }
  }

  /** Indices one lap apart. */
  function Wrap(i: nat, size: nat): nat { if i < size then i else i - size }

  lemma StepForward(i: nat, n: nat)
    requires i < Pow2(n)
    ensures And(i + 1, Pow2(n) - 1) == Wrap(i + 1, Pow2(n))
  {
    MaskIsRemainder(i + 1, n);
    hide And, Pow2, Rem;
    if i + 1 == Pow2(n) { Remainder(1, Pow2(n), 0); } else { Remainder(0, Pow2(n), i + 1); }
  }

  /** The masked 32-bit difference of two indices is the number of bytes between them. */
  lemma Distance(head: nat, tail: nat, n: nat)
    requires head < Pow2(n) && tail < Pow2(n) && n <= 32
    ensures And((head - tail) % 0x1_0000_0000, Pow2(n) - 1)
         == if head >= tail then head - tail else head - tail + Pow2(n)
  {
    hide And, Pow2, Rem;
    var size := Pow2(n);
    var d := (head - tail) % 0x1_0000_0000;
    MaskIsRemainder(d, n);
    WordIsLaps(n);
    var laps := Pow2(32 - n);
    Pow2Grows(n);
    WordDifference(head, tail);
    if head >= tail {
      Remainder(0, size, head - tail);
    } else {
      LapsLess(laps, size);
      Remainder(laps - 1, size, size + head - tail);
    }
  }

  lemma WordDifference(head: nat, tail: nat)
    requires head < 0x1_0000_0000 && tail <= 0x1_0000_0000
    ensures (head - tail) % 0x1_0000_0000 == if head >= tail then head - tail else 0x1_0000_0000 + head - tail
  {
  }

  lemma LapsLess(laps: nat, size: nat)
    requires laps > 0
    ensures laps * size == (laps - 1) * size + size
  {
  }

  lemma {:induction false} WordIsLaps(n: nat)
    requires n <= 32
    ensures Pow2(32 - n) * Pow2(n) == 0x1_0000_0000
    decreases 32 - n
  {
    if n == 32 { Pow32(); } else {
      WordIsLaps(n + 1);
      var a, b := Pow2(32 - n - 1), Pow2(n);
      assert Pow2(32 - n) == 2 * a && Pow2(n + 1) == 2 * b;
      hide Pow2;
      DoubleProduct(a, b);
      DoubleFirst(a, b);
    }
  }

  lemma DoubleFirst(a: nat, b: nat)
    ensures (2 * a) * b == 2 * (a * b)
  {
  }

  lemma Pow32()
    ensures Pow2(32) == 0x1_0000_0000
  {
    assert Pow2(8) == 256;
    assert Pow2(16) == 65536;
    assert Pow2(24) == 0x100_0000;
  }

  lemma Pow2Grows(n: nat)
    requires n <= 32
    ensures Pow2(n) <= 0x1_0000_0000
  {
    WordIsLaps(n);
    Product(Pow2(32 - n), Pow2(n));
  }

  /* ---- The buffer ---- */

  datatype Result = Ok | Error

  /** The last `n` bytes. */
  function Last(s: seq<byte>, n: nat): seq<byte> { if |s| <= n then s else s[|s| - n..] }

  function Min(a: nat, b: nat): nat { if a < b then a else b }

  /** Number of bytes from `tail` round to `head`. */
  function Gap(head: nat, tail: nat, size: nat): nat
    requires head < size && tail < size
  {
    if head >= tail then head - tail else head - tail + size
  }

  /** The bytes from `tail` round to `head`, oldest first. */
  function Held(b: seq<byte>, head: nat, tail: nat): (s: seq<byte>)
    requires head < |b| && tail < |b|
    ensures |s| == Gap(head, tail, |b|) < |b|
  {
    if head >= tail then b[tail..head] else b[tail..] + b[..head]
  }

  lemma HeldDrop(b: seq<byte>, head: nat, tail: nat)
    requires head < |b| && tail < |b| && head != tail
    ensures Wrap(tail + 1, |b|) < |b|
    ensures Held(b, head, tail) == [b[tail]] + Held(b, head, Wrap(tail + 1, |b|))
  {
    if head > tail {
      SliceHead(b, tail, head);
    } else {
      SliceHead(b, tail, |b|);
      WrapHead(b, head, tail);
    }
  }

  lemma SliceHead(b: seq<byte>, lo: nat, hi: nat)
    requires lo < hi <= |b|
    ensures b[lo..hi] == [b[lo]] + b[lo + 1..hi]
  {
  }

  lemma WrapHead(b: seq<byte>, head: nat, tail: nat)
    requires head < tail < |b| && b[tail..] == [b[tail]] + b[tail + 1..]
    ensures b[tail..] + b[..head] == [b[tail]] + Held(b, head, Wrap(tail + 1, |b|))
  {
    if tail + 1 == |b| {
      assert b[tail + 1..] == [];
    } else {
      assert [b[tail]] + b[tail + 1..] + b[..head] == [b[tail]] + (b[tail + 1..] + b[..head]);
    }
  }

  lemma HeldAppend(b: seq<byte>, head: nat, tail: nat, x: byte)
    requires head < |b| && tail < |b| && Gap(head, tail, |b|) < |b| - 1
    ensures Wrap(head + 1, |b|) < |b|
    ensures Held(b[head := x], Wrap(head + 1, |b|), tail) == Held(b, head, tail) + [x]
  {
  }

  class Ring {
    const buffer: array<byte>
    const mask: nat
    ghost const bits: nat
    var head: nat
    var tail: nat

    ghost predicate Valid()
      reads this
    {
      && 1 <= bits <= 31 && buffer.Length == Pow2(bits) && mask == Pow2(bits) - 1
      && head <= mask && tail <= mask
    }

    /** The bytes held, oldest first. */
    ghost function Contents(): (s: seq<byte>)
      reads this, buffer
      requires Valid()
      ensures |s| < buffer.Length
    {
      Held(buffer[..], head, tail)
    }

    constructor (space: array<byte>, ghost n: nat)
      requires 1 <= n <= 31 && space.Length == Pow2(n)
      ensures Valid() && buffer == space && Contents() == []
    {
      buffer, mask, bits := space, space.Length - 1, n;
      head, tail := 0, 0;
    }

    method Clear()
      requires Valid()
      modifies this`head, this`tail
      ensures Valid() && Contents() == []
    {
      head, tail := 0, 0;
    }

    method IsFull() returns (full: bool)
      requires Valid()
      ensures full <==> |Contents()| == buffer.Length - 1
    {
      Distance(head, tail, bits);
      full := And((head - tail) % 0x1_0000_0000, mask) == mask;
    }

    method IsEmpty() returns (empty: bool)
      requires Valid()
      ensures empty <==> Contents() == []
    {
      empty := head == tail;
    }

    /** The tail index moves on: the oldest byte is forgotten. */
    method ForwardTail()
      requires Valid() && head != tail
      modifies this`tail
      ensures Valid() && old(Contents()) == [buffer[old(tail)]] + Contents()
    {
      HeldDrop(buffer[..], head, tail);
      StepForward(tail, bits);
      hide And, Held, Pow2;
      tail := And(tail + 1, mask);
    }

    /** Store at the head index and move it on. */
    method Store(data: byte)
      requires Valid() && |Contents()| < buffer.Length - 1
      modifies this`head, buffer
      ensures Valid() && Contents() == old(Contents()) + [data]
    {
      HeldAppend(buffer[..], head, tail, data);
      StepForward(head, bits);
      ghost var bytes := buffer[..];
      hide And, Held, Pow2;
      buffer[head] := data;
      assert buffer[..] == bytes[head := data];
      head := And(head + 1, mask);
    }

    /** Append a byte; the oldest one makes room when the buffer is full. */
    method Put(data: byte) returns (r: Result)
      requires Valid()
      modifies this`head, this`tail, buffer
      ensures Valid()
      ensures r.Error? <==> |old(Contents())| == buffer.Length - 1
      ensures Contents() == Last(old(Contents()) + [data], buffer.Length - 1)
      ensures Contents() == (if r.Error? then old(Contents())[1..] else old(Contents())) + [data]
    {
      ghost var before := Contents();
      r := Ok;
      var full := IsFull();
      if full {
        assert head != tail && buffer.Length >= 2;
        ForwardTail();
        r := Error;
      }
      LastPush(before, data, Contents(), buffer.Length - 1);
      hide Held, Pow2, Last;
      Store(data);
    }

    /** Take the oldest byte. */
    method Get() returns (r: Result, data: byte)
      requires Valid()
      modifies this`tail
      ensures Valid()
      ensures r.Ok? <==> old(Contents()) != []
      ensures r.Ok? ==> old(Contents()) == [data] + Contents()
      ensures r.Error? ==> Contents() == old(Contents())
    {
      data := 0;
      var empty := IsEmpty();
      if empty { return Error, 0; }
      data := buffer[tail];
      ForwardTail();
      return Ok, data;
    }

    lemma AtLeastTwo()
      requires Valid()
      ensures buffer.Length >= 2
    {
    }

    /** One byte of many: `sum` counts down when a byte is dropped. */
    method PutCounted(data: byte, sum: int) returns (sum': int)
      requires Valid()
      modifies this`head, this`tail, buffer
      ensures Valid() && Contents() == Last(old(Contents()) + [data], buffer.Length - 1)
      ensures sum' == Counted(|old(Contents())|, buffer.Length - 1, sum)
    {
      var one := Put(data);
      sum' := if one.Error? then Word(sum - 1) else sum;
    }

    /** Append many bytes: the buffer ends with the last bytes of everything, and the error count, a
        32-bit word that wraps around, tells whether anything was dropped. */
    method PutMore(data: seq<byte>) returns (r: Result)
      requires Valid() && |data| < 0x1_0000_0000
      modifies this`head, this`tail, buffer
      ensures Valid()
      ensures Contents() == Last(old(Contents()) + data, buffer.Length - 1)
      ensures r.Error? <==> |old(Contents())| + |data| > buffer.Length - 1
      ensures var all := old(Contents()) + data;
              && |Contents()| == Min(|all|, buffer.Length - 1)
              && Contents() == all[|all| - |Contents()|..]
    {
      hide *;
      ghost var before := Contents();
      var sum: int := 0;
      AtLeastTwo();
      FedStart(before, data, buffer.Length - 1);
      for i := 0 to |data|
        invariant Valid() && Given(before, data, i, buffer.Length - 1, Contents(), sum)
      {
        GivenNext(before, data, i, buffer.Length - 1, Contents(), sum);
        sum := PutCounted(data[i], sum);
      }
      GivenAll(before, data, buffer.Length - 1, Contents(), sum);
      r := if sum != 0 then Error else Ok;
    }

    /** Take many bytes. A size of zero still takes one, and the count includes the attempt that found
        the buffer empty. */
    method GetMore(size: nat) returns (count: nat, out: seq<byte>)
      requires Valid()
      modifies this`tail
      ensures Valid()
      ensures var n := Min(if size == 0 then 1 else size, |old(Contents())|);
              out == old(Contents())[..n] && Contents() == old(Contents())[n..]
      ensures count == if old(Contents()) == [] then 0
                       else Min(if size == 0 then 1 else size, |old(Contents())| + 1)
    {
      ghost var before := Contents();
      hide Held, Pow2, And, Last;
      count, out := 0, [];
      var empty := IsEmpty();
      if !empty {
        var err, data := Get();
        count, out := 1, [data];
        while count < size && err.Ok?
          invariant Valid() && before == out + Contents()
          invariant 1 <= count && |out| == (if err.Ok? then count else count - 1)
          invariant err.Error? ==> Contents() == [] && count <= size
          invariant count <= size || count == 1
          decreases size - count
        {
          ghost var taken, rest := out, Contents();
          err, data := Get();
          if err.Ok? {
            out := out + [data];
            Regroup(taken, data, Contents());
          }
          count := count + 1;
        }
        Split(before, out, Contents());
      }
    }
  }

  lemma Regroup(taken: seq<byte>, data: byte, rest: seq<byte>)
    ensures taken + ([data] + rest) == taken + [data] + rest
  {
  }

  lemma Split(all: seq<byte>, out: seq<byte>, rest: seq<byte>)
    requires all == out + rest
    ensures out == all[..|out|] && rest == all[|out|..]
  {
  }

  /** A signed 32-bit word. */
  function Word(x: int): int { (x + 0x8000_0000) % 0x1_0000_0000 - 0x8000_0000 }

  function Counted(held: nat, cap: nat, sum: int): int { if held == cap then Word(sum - 1) else sum }

  /** How many of `n` bytes are beyond the room. */
  function Excess(n: nat, room: nat): nat { if n <= room then 0 else n - room }

  /** What the buffer and the count must be after `i` bytes. */
  predicate Given(before: seq<byte>, data: seq<byte>, i: nat, cap: nat, now: seq<byte>, sum: int) {
    && i <= |data| && |before| <= cap && cap > 0
    && now == Last(before + data[..i], cap) && sum == Word(0 - Excess(i, cap - |before|))
  }

  lemma FedStart(before: seq<byte>, data: seq<byte>, cap: nat)
    requires |before| <= cap && cap > 0
    ensures Given(before, data, 0, cap, before, 0)
  {
    assert before + data[..0] == before;
  }

  lemma GivenNext(before: seq<byte>, data: seq<byte>, i: nat, cap: nat, now: seq<byte>, sum: int)
    requires Given(before, data, i, cap, now, sum) && i < |data|
    ensures Given(before, data, i + 1, cap, Last(now + [data[i]], cap), Counted(|now|, cap, sum))
  {
    assert before + data[..i + 1] == (before + data[..i]) + [data[i]];
    LastLength(before + data[..i], cap);
    LastOfLast(before + data[..i], data[i], cap);
    hide Last;
    WordDown(Excess(i, cap - |before|));
  }

  lemma GivenAll(before: seq<byte>, data: seq<byte>, cap: nat, now: seq<byte>, sum: int)
    requires Given(before, data, |data|, cap, now, sum) && |data| < 0x1_0000_0000
    ensures now == Last(before + data, cap) && (sum != 0 <==> |before| + |data| > cap)
    ensures var all := before + data;
            |now| == Min(|all|, cap) && now == all[|all| - |now|..]
  {
    assert data[..|data|] == data;
  }

  lemma WordDown(d: nat)
    ensures Word(Word(0 - d) - 1) == Word(0 - (d + 1))
  {
  }

  lemma LastLength(s: seq<byte>, n: nat)
    ensures |Last(s, n)| == Min(|s|, n)
  {
  }

  /** Keeping the last bytes one byte at a time is keeping the last bytes of it all. */
  lemma LastOfLast(s: seq<byte>, x: byte, n: nat)
    requires n > 0
    ensures Last(Last(s, n) + [x], n) == Last(s + [x], n)
  {
  }

  lemma LastPush(before: seq<byte>, x: byte, kept: seq<byte>, n: nat)
    requires |before| <= n && n > 0 && before == (if |before| == n then [before[0]] else []) + kept
    ensures Last(before + [x], n) == kept + [x]
  {
    assert |before| == n ==> before + [x] == [before[0]] + (kept + [x]);
  }
}
