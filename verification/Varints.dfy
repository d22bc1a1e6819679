/**
Base-128 varints ("Base 128 Varints" and "Signed Integers" in the Protocol Buffers Encoding guide)
as pure functions: the canonical form the encoder must emit, and what the 64-bit and the 32-bit
reader make of an arbitrary byte stream.
*/
module Varints {
  import opened Basics

  /** The canonical form: seven bits a byte, least significant group first, high bit set on all but the last. */
  function Varint(v: nat): (s: seq<byte>)
    ensures s != []
  {
    if v < 128 then [v] else [v % 128 + 128] + Varint(v / 128)
  }

  /** The 64-bit reader; `bitpos` is the number of bits already taken. */
  function Read64(s: seq<byte>, bitpos: nat): (p: Parse<nat>)
    ensures p.Parsed? ==> |p.rest| < |s|
  {
    if s == [] || (bitpos >= 63 && s[0] > 1) then Failed
    else if s[0] < 128 then Parsed(s[0], s[1..])
    else
      var tail := Read64(s[1..], bitpos + 7);
      if tail.Failed? then Failed else Parsed(s[0] - 128 + 128 * tail.value, tail.rest)
  }

  /** The 32-bit reader after its first byte; `acc` holds the low `bitpos` bits. */
  function Read32Tail(s: seq<byte>, bitpos: nat, acc: nat): (p: Parse<nat>)
    ensures p.Parsed? ==> |p.rest| < |s|
  {
    if s == [] then Failed
    else
      var b := s[0];
      var next := Step32(b, bitpos, acc);
      if next.None? then Failed
      else if b < 128 then Parsed(next.value, s[1..])
      else Read32Tail(s[1..], bitpos + 7, next.value)
  }

  /** `x << bitpos` at the positions where the groups of a 32-bit word start. */
  function Shl(x: nat, bitpos: nat): nat
  {
    if bitpos == 7 then 0x80 * x else if bitpos == 14 then 0x4000 * x
    else if bitpos == 21 then 0x20_0000 * x else if bitpos == 28 then 0x1000_0000 * x else x
  }

  /** One continuation byte of the 32-bit reader: padding past bit 32 must be zeros or a sign extension. */
  function Step32(b: byte, bitpos: nat, acc: nat): Option<nat>
  {
    if bitpos >= 32 then
      var signExtension := if bitpos < 63 then 0xFF else 0x01;
      if bitpos >= 64 || !(b % 128 == 0 || (acc / 0x8000_0000 != 0 && b == signExtension)) then None else Some(acc)
    else if bitpos == 28 then
      if b % 128 / 16 != 0 && b % 128 / 8 != 15 then None else Some(acc + Shl(b % 128 % 16, 28))
    else Some(acc + Shl(b % 128, bitpos))
  }

  function Read32(s: seq<byte>): (p: Parse<nat>)
    ensures p.Parsed? ==> |p.rest| < |s|
  {
    if s == [] then Failed
    else if s[0] < 128 then Parsed(s[0], s[1..])
    else Read32Tail(s[1..], 7, s[0] - 128)
  }

  /** Zigzag: signed integers of small magnitude become small unsigned ones. */
  function ZigZag(v: int): (z: nat)
  {
    if v < 0 then -2 * v - 1 else 2 * v
  }

  function UnZigZag(z: nat): int
  {
    if z % 2 == 1 then -(z / 2) - 1 else z / 2
  }

  lemma ZigZagRoundTrip(v: int)
    ensures UnZigZag(ZigZag(v)) == v
    ensures -TWO_63 <= v < TWO_63 <==> ZigZag(v) < TWO_64
  {
  }

  // ----- the canonical form is read back, is minimal, and has one to ten bytes

  /** How many values still fit a 64-bit word once `bitpos` bits are taken. */
  ghost function Room(bitpos: nat): (r: nat)
    requires bitpos <= 63 && bitpos % 7 == 0
    decreases 63 - bitpos
  {
    if bitpos == 63 then 2 else 128 * Room(bitpos + 7)
  }

  lemma RoomValues()
    ensures Room(0) == TWO_64 && Room(7) == TWO_64 / 128 && Room(28) == 0x10_0000_0000 && Room(56) == 256
    ensures Room(35) == 0x2000_0000 && Room(42) == 0x40_0000 && Room(49) == 0x8000
  {
    assert Room(49) == 128 * Room(56);
    assert Room(35) == 128 * Room(42);
    assert Room(21) == 128 * Room(28);
    assert Room(7) == 128 * Room(14);
  }

  lemma {:induction false} Read64Varint(v: nat, bitpos: nat, rest: seq<byte>)
    requires bitpos <= 63 && bitpos % 7 == 0 && v < Room(bitpos)
    ensures Read64(Varint(v) + rest, bitpos) == Parsed(v, rest)
  {
    var s := Varint(v) + rest;
    if v < 128 {
      assert s[1..] == rest;
    } else {
      Read64Varint(v / 128, bitpos + 7, rest);
      assert s[1..] == Varint(v / 128) + rest;
    }
  }

  /** Every 64-bit value is read back from its canonical form, and what follows it is left alone. */
  lemma VarintRoundTrip(v: nat, rest: seq<byte>)
    requires v < TWO_64
    ensures Read64(Varint(v) + rest, 0) == Parsed(v, rest)
  {
    RoomValues();
    Read64Varint(v, 0, rest);
  }

  /** The value the reader accepts fits the room that is left. */
  lemma {:induction false} Read64Bound(s: seq<byte>, bitpos: nat)
    requires bitpos <= 63 && bitpos % 7 == 0 && Read64(s, bitpos).Parsed?
    ensures Read64(s, bitpos).value < Room(bitpos)
  {
    if bitpos < 63 {
      assert Room(bitpos) >= 128 by { assert Room(bitpos + 7) >= 1 by { RoomPositive(bitpos + 7); } }
      if s[0] >= 128 {
        Read64Bound(s[1..], bitpos + 7);
      }
    }
  }

  lemma RoomPositive(bitpos: nat)
    requires bitpos <= 63 && bitpos % 7 == 0
    ensures Room(bitpos) >= 1
    decreases 63 - bitpos
  {
    if bitpos < 63 { RoomPositive(bitpos + 7); }
  }

  /**
  On any input at all, the reader takes at most ten bytes, and no byte string it reads as `v` is
  shorter than the canonical form of `v`.
  */
  lemma {:induction false} VarintMinimal(s: seq<byte>, bitpos: nat)
    requires Read64(s, bitpos).Parsed?
    ensures |Varint(Read64(s, bitpos).value)| <= |s| - |Read64(s, bitpos).rest|
    ensures bitpos % 7 == 0 && bitpos <= 63 ==> |s| - |Read64(s, bitpos).rest| <= 10 - bitpos / 7
  {
    if s[0] >= 128 {
      VarintMinimal(s[1..], bitpos + 7);
    }
  }

  // ----- the 32-bit reader against the 64-bit one

  /** The 64-bit words that stand for a 32-bit one: zero-extended, or sign-extended from a negative. */
  predicate Narrow(v: int)
  {
    0 <= v < TWO_32 || TWO_64 - TWO_31 <= v < TWO_64
  }

  /** The bits past the word: none, or all ones over a word whose top bit is set. */
  ghost predicate Padding(bits: nat, bitpos: nat, word: nat)
    requires 35 <= bitpos <= 63 && bitpos % 7 == 0
  {
    bits == 0 || (word >= TWO_31 && bits == Room(bitpos) - 1)
  }

  lemma {:induction false} PaddingRead(s: seq<byte>, bitpos: nat, word: nat)
    requires 35 <= bitpos <= 63 && bitpos % 7 == 0 && Read32Tail(s, bitpos, word).Parsed?
    ensures Read64(s, bitpos).Parsed? && Read32Tail(s, bitpos, word) == Parsed(word, Read64(s, bitpos).rest)
    decreases 63 - bitpos
  {
    if s[0] >= 128 && bitpos < 63 {
      PaddingRead(s[1..], bitpos + 7, word);
    }
  }

  lemma {:induction false} PaddingAccepted(s: seq<byte>, bitpos: nat, word: nat)
    requires 35 <= bitpos <= 63 && bitpos % 7 == 0 && word < TWO_32
    requires Read64(s, bitpos).Parsed? && Padding(Read64(s, bitpos).value, bitpos, word)
    ensures Read32Tail(s, bitpos, word).Parsed?
    decreases 63 - bitpos
  {
    if bitpos < 63 {
      RoomPositive(bitpos + 7);
      if bitpos == 56 {
      } else {
        RoomPositive(bitpos + 14);
      }
      if s[0] >= 128 {
        PaddingAccepted(s[1..], bitpos + 7, word);
      }
    }
  }

  lemma LowWord(a: nat, k: int)
    requires a < TWO_32
    ensures (a + 0x1_0000_0000 * k) % 0x1_0000_0000 == a
  {
  }

  lemma StepMeaning(b: byte, bitpos: nat, acc: nat, high: nat)
    requires (bitpos == 7 || bitpos == 14 || bitpos == 21) && acc < Shl(1, bitpos)
    ensures acc + Shl(b % 128, bitpos) < Shl(1, bitpos + 7)
    ensures acc + Shl(b % 128 + 128 * high, bitpos) == acc + Shl(b % 128, bitpos) + Shl(high, bitpos + 7)
  {
  }

  lemma StepAt28(b: byte, acc: nat)
    requires acc < 0x1000_0000 && Step32(b, 28, acc).Some?
    ensures Step32(b, 28, acc).value == acc + 0x1000_0000 * (b % 128 % 16) < 0x1_0000_0000
  {
  }

  lemma Straddle(b: byte, acc: nat, high: nat)
    ensures acc + 0x1000_0000 * (b % 128 % 16) + 0x1_0000_0000 * (b % 128 / 16 + 8 * high)
      == acc + 0x1000_0000 * (b % 128 + 128 * high)
  {
    var group: int := b % 128;
    assert group == 16 * (group / 16) + group % 16;
  }

  lemma LastRead(s: seq<byte>, acc: nat) returns (carry: nat)
    requires acc < 0x1000_0000 && Read32Tail(s, 28, acc).Parsed?
    ensures Read64(s, 28).Parsed? && Read32Tail(s, 28, acc).rest == Read64(s, 28).rest
    ensures Read32Tail(s, 28, acc).value < 0x1_0000_0000
    ensures Read32Tail(s, 28, acc).value + 0x1_0000_0000 * carry == acc + 0x1000_0000 * Read64(s, 28).value
  {
    hide Step32;
    StepAt28(s[0], acc);
    var high := 0;
    if s[0] >= 128 {
      PaddingRead(s[1..], 35, Step32(s[0], 28, acc).value);
      high := Read64(s[1..], 35).value;
    }
    carry := s[0] % 128 / 16 + 8 * high;
    Straddle(s[0], acc, high);
  }

  lemma StepBelow28(b: byte, bitpos: nat, acc: nat)
    requires bitpos == 7 || bitpos == 14 || bitpos == 21
    ensures Step32(b, bitpos, acc) == Some(acc + Shl(b % 128, bitpos))
  {
  }

  /** Both readers one continued byte further. */
  lemma BothStep(s: seq<byte>, bitpos: nat, acc: nat)
    requires (bitpos == 7 || bitpos == 14 || bitpos == 21) && s != [] && s[0] >= 128
    ensures Read32Tail(s, bitpos, acc) == Read32Tail(s[1..], bitpos + 7, acc + Shl(s[0] % 128, bitpos))
    ensures Read64(s, bitpos).Parsed? <==> Read64(s[1..], bitpos + 7).Parsed?
    ensures Read64(s, bitpos).Parsed? ==>
      Read64(s, bitpos) == Parsed(s[0] % 128 + 128 * Read64(s[1..], bitpos + 7).value, Read64(s[1..], bitpos + 7).rest)
  {
    hide Shl;
    StepBelow28(s[0], bitpos, acc);
  }

  /** Up to a carry out of the word, both readers collect the same number. */
  lemma {:induction false} TailRead(s: seq<byte>, bitpos: nat, acc: nat) returns (carry: nat)
    requires (bitpos == 7 || bitpos == 14 || bitpos == 21 || bitpos == 28) && acc < Shl(1, bitpos)
    requires Read32Tail(s, bitpos, acc).Parsed?
    ensures Read64(s, bitpos).Parsed? && Read32Tail(s, bitpos, acc).rest == Read64(s, bitpos).rest
    ensures Read32Tail(s, bitpos, acc).value < 0x1_0000_0000
    ensures Read32Tail(s, bitpos, acc).value + 0x1_0000_0000 * carry == acc + Shl(Read64(s, bitpos).value, bitpos)
    decreases 28 - bitpos
  {
    carry := 0;
    if bitpos == 28 {
      carry := LastRead(s, acc);
    } else if s[0] >= 128 {
      hide Shl, Read64, Read32Tail;
      BothStep(s, bitpos, acc);
      StepMeaning(s[0], bitpos, acc, 0);
      ShlZero(bitpos + 7);
      carry := TailRead(s[1..], bitpos + 7, acc + Shl(s[0] % 128, bitpos));
      StepMeaning(s[0], bitpos, acc, Read64(s[1..], bitpos + 7).value);
    } else {
      StepBelow28(s[0], bitpos, acc);
    }
  }

  lemma ShlZero(bitpos: nat)
    ensures Shl(0, bitpos) == 0
  {
  }

  lemma LastAccepted(s: seq<byte>, acc: nat)
    requires acc < 0x1000_0000 && Read64(s, 28).Parsed? && Narrow(acc + 0x1000_0000 * Read64(s, 28).value)
    ensures Read32Tail(s, 28, acc).Parsed?
  {
    hide Room, Narrow, Step32;
    RoomValues();
    var high := 0;
    if s[0] >= 128 {
      Read64Bound(s[1..], 35);
      high := Read64(s[1..], 35).value;
    }
    LastGroup(s[0], high, acc);
    if s[0] >= 128 {
      StepAt28(s[0], acc);
      PaddingAccepted(s[1..], 35, Step32(s[0], 28, acc).value);
    }
  }

  lemma {:induction false} TailAccepted(s: seq<byte>, bitpos: nat, acc: nat)
    requires (bitpos == 7 || bitpos == 14 || bitpos == 21 || bitpos == 28) && acc < Shl(1, bitpos)
    requires Read64(s, bitpos).Parsed? && Narrow(acc + Shl(Read64(s, bitpos).value, bitpos))
    ensures Read32Tail(s, bitpos, acc).Parsed?
    decreases 28 - bitpos
  {
    if bitpos == 28 {
      LastAccepted(s, acc);
    } else if s[0] >= 128 {
      hide Shl, Narrow, Read64, Read32Tail;
      BothStep(s, bitpos, acc);
      StepMeaning(s[0], bitpos, acc, Read64(s[1..], bitpos + 7).value);
      TailAccepted(s[1..], bitpos + 7, acc + Shl(s[0] % 128, bitpos));
    } else {
      StepBelow28(s[0], bitpos, acc);
    }
  }

  /** The byte at bit 28 of a narrow value carries four bits of the word and three of padding. */
  lemma LastGroup(b: byte, high: nat, acc: nat)
    requires acc < 0x1000_0000 && high < 0x2000_0000
    requires Narrow(acc + 0x1000_0000 * (b % 128 + 128 * high))
    ensures Step32(b, 28, acc).Some?
    ensures high == 0 || (high == 0x1FFF_FFFF && acc + 0x1000_0000 * (b % 128 % 16) >= TWO_31)
  {
    hide Narrow;
    Groups(b % 128, high, acc);
  }

  lemma Groups(group: int, high: nat, acc: nat)
    requires acc < 0x1000_0000 && high < 0x2000_0000 && 0 <= group < 128
    requires Narrow(acc + 0x1000_0000 * (group + 128 * high))
    ensures (high == 0 && group / 16 == 0) || (high == 0x1FFF_FFFF && group / 8 == 15 && group % 16 >= 8)
  {
    if acc + 0x1000_0000 * (group + 128 * high) < TWO_32 {
      assert group + 128 * high < 16;
    } else {
      assert group + 128 * high >= 0xF_FFFF_FFF8;
    }
  }

  /**
  On every input, canonical or not: what the 32-bit reader accepts is the low word of what the 64-bit
  reader makes of the same bytes, and it accepts whenever that value is a 32-bit one.
  */
  lemma Read32Agrees(s: seq<byte>)
    ensures Read32(s).Parsed? ==>
      Read64(s, 0).Parsed? && Read32(s) == Parsed(Read64(s, 0).value % 0x1_0000_0000, Read64(s, 0).rest)
    ensures Read64(s, 0).Parsed? && Narrow(Read64(s, 0).value) ==> Read32(s).Parsed?
  {
    if s != [] && s[0] >= 128 {
      if Read32(s).Parsed? {
        var carry := TailRead(s[1..], 7, s[0] - 128);
        LowWord(Read32(s).value, carry);
      }
      if Read64(s, 0).Parsed? && Narrow(Read64(s, 0).value) { TailAccepted(s[1..], 7, s[0] - 128); }
    }
  }

  lemma Read32From64(s: seq<byte>, v: nat, rest: seq<byte>)
    requires Read64(s, 0) == Parsed(v, rest) && Narrow(v)
    ensures Read32(s) == Parsed(v % 0x1_0000_0000, rest)
  {
    Read32Agrees(s);
  }

  /** The 32-bit reader recovers every unsigned 32-bit value. */
  lemma Read32Varint(v: nat, rest: seq<byte>)
    requires v < TWO_32
    ensures Read32(Varint(v) + rest) == Parsed(v, rest)
  {
    hide Varint, Read64, Read32;
    VarintRoundTrip(v, rest);
    Read32From64(Varint(v) + rest, v, rest);
  }

  /** It recovers, as two's complement, every negative 32-bit value the encoder sign-extends to 64 bits. */
  lemma Read32SignExtended(v: int, rest: seq<byte>)
    requires -TWO_31 <= v < 0
    ensures Read32(Varint(TWO_64 + v) + rest) == Parsed(TWO_32 + v, rest)
  {
    hide Varint, Read64, Read32;
    VarintRoundTrip(TWO_64 + v, rest);
    Read32From64(Varint(TWO_64 + v) + rest, TWO_64 + v, rest);
  }

  // ----- exactly what the two readers accept

  /** The number that groups of seven bits stand for, least significant first. */
  function Digits(s: seq<byte>): nat
  {
    if s == [] then 0 else s[0] % 128 + 128 * Digits(s[1..])
  }

  /** `s` begins with a varint of `n` bytes: the high bit is set on all of them but the last. */
  predicate Form(s: seq<byte>, n: nat)
  {
    0 < n <= |s| && s[n - 1] < 128 && forall i | 0 <= i < n - 1 :: s[i] >= 128
  }

  lemma FormTail(s: seq<byte>, n: nat)
    requires Form(s, n) && n > 1
    ensures s[0] >= 128 && Form(s[1..], n - 1) && s[1..][n - 1..] == s[n..]
    ensures Digits(s[..n]) == s[0] % 128 + 128 * Digits(s[1..][..n - 1])
  {
    assert s[..n][1..] == s[1..][..n - 1];
  }

  /** The canonical form is the varint of its value that has no empty group at its end. */
  lemma {:induction false} VarintIs(v: nat)
    ensures Form(Varint(v), |Varint(v)|) && Digits(Varint(v)) == v
    ensures |Varint(v)| > 1 ==> Varint(v)[|Varint(v)| - 1] != 0
  {
    if v >= 128 {
      VarintIs(v / 128);
      var s := Varint(v);
      assert s[1..] == Varint(v / 128);
      assert forall i | 0 < i < |s| :: s[i] == s[1..][i - 1];
    } else {
      assert Varint(v)[1..] == [];
    }
  }

  lemma DigitsOne(s: seq<byte>)
    requires Form(s, 1)
    ensures Digits(s[..1]) == s[0]
  {
    assert s[..1][1..] == [];
  }

  /** Which groups the 64-bit reader accepts from the byte at `bitpos` on. */
  predicate Within64(s: seq<byte>, n: nat, bitpos: nat)
    requires n <= |s|
  {
    forall i | 0 <= i < n && bitpos + 7 * i >= 63 :: s[i] <= 1
  }

  lemma Within64Tail(s: seq<byte>, n: nat, bitpos: nat)
    requires 1 < n <= |s|
    ensures Within64(s, n, bitpos) <==> (bitpos >= 63 ==> s[0] <= 1) && Within64(s[1..], n - 1, bitpos + 7)
  {
    if Within64(s[1..], n - 1, bitpos + 7) {
      assert forall i | 0 < i < n :: s[i] == s[1..][i - 1] && bitpos + 7 * i == bitpos + 7 + 7 * (i - 1);
    }
    if Within64(s, n, bitpos) {
      assert forall i | 0 <= i < n - 1 :: s[1..][i] == s[i + 1] && bitpos + 7 * (i + 1) == bitpos + 7 + 7 * i;
      assert bitpos >= 63 ==> bitpos + 7 * 0 >= 63;
    }
  }

  lemma {:induction false} Read64From(s: seq<byte>, n: nat, bitpos: nat)
    requires Form(s, n)
    ensures Read64(s, bitpos) == if Within64(s, n, bitpos) then Parsed(Digits(s[..n]), s[n..]) else Failed
    decreases n
  {
    hide Digits;
    if n == 1 {
      DigitsOne(s);
      assert bitpos >= 63 ==> bitpos + 7 * 0 >= 63;
    } else {
      FormTail(s, n);
      Within64Tail(s, n, bitpos);
      hide Within64;
      Read64From(s[1..], n - 1, bitpos + 7);
    }
  }

  /** The 64-bit reader takes every varint of at most ten bytes whose tenth byte is 0 or 1, padded or not,
      and no other: its value is that of its groups. */
  lemma Read64Is(s: seq<byte>, n: nat)
    requires Form(s, n)
    ensures Read64(s, 0) == if n <= 10 && (n == 10 ==> s[9] <= 1) then Parsed(Digits(s[..n]), s[n..]) else Failed
  {
    Read64From(s, n, 0);
    if n > 10 { assert s[9] > 1 && 0 + 7 * 9 >= 63; }
  }

  /** A string in which no byte ends a varint is refused. */
  lemma {:induction false} OpenRefused(s: seq<byte>, bitpos: nat)
    requires forall i | 0 <= i < |s| :: s[i] >= 128
    ensures Read64(s, bitpos).Failed? && Read32(s).Failed?
  {
    if s != [] {
      OpenRefused(s[1..], bitpos + 7);
      OpenTailRefused(s[1..], 7, s[0] - 128);
    }
  }

  lemma {:induction false} OpenTailRefused(s: seq<byte>, bitpos: nat, acc: nat)
    requires forall i | 0 <= i < |s| :: s[i] >= 128
    ensures Read32Tail(s, bitpos, acc).Failed?
  {
    if s != [] && Step32(s[0], bitpos, acc).Some? {
      OpenTailRefused(s[1..], bitpos + 7, Step32(s[0], bitpos, acc).value);
    }
  }

  /** A byte past the word: nothing, or the extension of a set top bit. */
  predicate Pad(b: byte, i: nat, word: nat)
  {
    i <= 9 && (b % 128 == 0 || (word >= TWO_31 && b == if i < 9 then 255 else 1))
  }

  lemma {:induction false} PadsFrom(s: seq<byte>, n: nat, at: nat, word: nat)
    requires Form(s, n) && at >= 5 && word < TWO_32
    ensures Read32Tail(s, 7 * at, word) ==
      if forall i | 0 <= i < n :: Pad(s[i], at + i, word) then Parsed(word, s[n..]) else Failed
    decreases n
  {
    assert Step32(s[0], 7 * at, word).Some? <==> Pad(s[0], at + 0, word);
    if n > 1 {
      FormTail(s, n);
      PadsFrom(s[1..], n - 1, at + 1, word);
      assert forall i | 0 < i < n :: s[i] == s[1..][i - 1] && at + i == at + 1 + (i - 1);
    }
  }

  /** The fifth byte has four bits of the word, and may have three of padding. */
  predicate Fifth(b: byte)
  {
    b % 128 < 16 || b % 128 >= 120
  }

  lemma {:induction false} TailFrom(s: seq<byte>, n: nat, at: nat, acc: nat)
    requires Form(s, n) && 1 <= at <= 4 && acc < Shl(1, 7 * at)
    ensures Read32Tail(s, 7 * at, acc).Parsed? <==>
      && (n > 4 - at ==> Fifth(s[4 - at]))
      && forall i | 5 - at <= i < n :: Pad(s[i], at + i, (acc + Shl(Digits(s[..n]), 7 * at)) % 0x1_0000_0000)
    decreases n
  {
    hide Pad, Digits;
    if at == 4 {
      FifthFrom(s, n, acc);
    } else {
      StepBelow28(s[0], 7 * at, acc);
      if n > 1 {
        FormTail(s, n);
        StepMeaning(s[0], 7 * at, acc, Digits(s[1..][..n - 1]));
        TailFrom(s[1..], n - 1, at + 1, acc + Shl(s[0] % 128, 7 * at));
        assert forall i | 0 < i < n :: s[i] == s[1..][i - 1] && at + i == at + 1 + (i - 1);
      }
    }
  }

  lemma FifthFrom(s: seq<byte>, n: nat, acc: nat)
    requires Form(s, n) && acc < 0x1000_0000
    ensures Read32Tail(s, 28, acc).Parsed? <==>
      Fifth(s[0]) && forall i | 1 <= i < n :: Pad(s[i], 4 + i, (acc + 0x1000_0000 * Digits(s[..n])) % 0x1_0000_0000)
  {
    hide Pad;
    assert Step32(s[0], 28, acc).Some? <==> Fifth(s[0]);
    if n > 1 && Fifth(s[0]) {
      hide Digits;
      FormTail(s, n);
      StepAt28(s[0], acc);
      var word := Step32(s[0], 28, acc).value;
      WordOf(s[0], acc, Digits(s[1..][..n - 1]));
      PadsFrom(s[1..], n - 1, 5, word);
      assert forall i | 1 <= i < n :: s[i] == s[1..][i - 1] && 4 + i == 5 + (i - 1);
    }
  }

  lemma WordOf(b: byte, acc: nat, high: nat)
    requires acc < 0x1000_0000
    ensures (acc + 0x1000_0000 * (b % 128 + 128 * high)) % 0x1_0000_0000 == acc + 0x1000_0000 * (b % 128 % 16)
  {
    Straddle(b, acc, high);
    LowWord(acc + 0x1000_0000 * (b % 128 % 16), b % 128 / 16 + 8 * high);
  }

  /**
  The 32-bit reader takes a varint of at most ten bytes if and only if what goes past 32 bits is padding:
  the fifth byte brings no more than four bits, or all seven of a sign extension, and each byte behind it
  is empty, or all ones over a word whose top bit is set. The value is the low word of the groups.
  */
  lemma Read32Is(s: seq<byte>, n: nat)
    requires Form(s, n)
    ensures var word := Digits(s[..n]) % 0x1_0000_0000;
      Read32(s) ==
        if (n > 4 ==> Fifth(s[4])) && (forall i | 5 <= i < n :: Pad(s[i], i, word)) then Parsed(word, s[n..]) else Failed
  {
    hide Pad, Digits, Read64;
    Read32Agrees(s);
    Read64Is(s, n);
    if n == 1 {
      DigitsOne(s);
    } else {
      FormTail(s, n);
      TailFrom(s[1..], n - 1, 1, s[0] - 128);
      assert forall i | 0 < i < n :: s[i] == s[1..][i - 1] && i == 1 + (i - 1);
    }
  }
}
