/** What the decoder accepts and what it makes of it, for every byte string and in terms of the bytes. */
module DecodingLaws {
  import opened Basics
  import opened Varints
  import opened Messages
  import opened EncodingLaws

  // ----- numbers

  /** The value an integer field means by the 64-bit number `v`. */
  function Meant(k: Kind, v: nat): int
  {
    match k
    case SInt(_) => if v % 2 == 0 then v / 2 else -((v + 1) / 2)
    case Int(size) =>
      if size == 8 then (if v >= TWO_63 then v - 0x1_0000_0000_0000_0000 else v)
      else
        var low := v % 0x1_0000_0000;
        if low >= TWO_31 then low - 0x1_0000_0000 else low
    case _ => v
  }

  /** The integers of `size` bytes. */
  predicate InType(k: Kind, n: int)
  {
    match k
    case UInt(size) => 0 <= n < Power(size)
    case Int(size) => -(Power(size) as int) <= 2 * n < Power(size)
    case SInt(size) => -(Power(size) as int) <= 2 * n < Power(size)
    case _ => false
  }

  lemma Powers()
    ensures Power(1) == 0x100 && Power(2) == 0x1_0000 && Power(4) == TWO_32 && Power(8) == TWO_64
  {
    assert Power(3) == 0x100_0000;
    assert Power(4) == 256 * Power(3);
    assert Power(6) == 0x1_0000 * Power(4);
    assert Power(8) == 0x1_0000 * Power(6);
  }

  predicate IsInteger(k: Kind)
  {
    (k.Int? || k.UInt? || k.SInt?) && k.size in {1, 2, 4, 8}
  }

  lemma NarrowedIs(k: Kind, v: nat)
    requires IsInteger(k) && v < TWO_64
    ensures Narrowed(k, v) == if InType(k, Meant(k, v)) then Some(Num(Meant(k, v))) else None
  {
    Powers();
    hide Power;
  }

  /** An integer field takes a varint if and only if it is one of 64 bits and what it means is a value of the
      field's type. */
  lemma IntegerAccepted(k: Kind, cur: Val, s: seq<byte>, n: nat)
    requires IsInteger(k) && Form(s, n)
    ensures DecodeValue(k, cur, 0, s) ==
      if n <= 10 && (n == 10 ==> s[9] <= 1) && InType(k, Meant(k, Digits(s[..n])))
      then Parsed(Num(Meant(k, Digits(s[..n]))), s[n..]) else Failed
  {
    Read64Is(s, n);
    if n <= 10 && (n == 10 ==> s[9] <= 1) {
      Read64Bound(s, 0);
      RoomValues();
      NarrowedIs(k, Digits(s[..n]));
    }
    hide Narrowed, Read64, InType, Meant, Room, Digits;
  }

  /** In particular the canonical varint of every 64-bit number is taken exactly when it means a value of the
      type, and refused as too large otherwise. */
  lemma IntegerTooLarge(k: Kind, cur: Val, v: nat, rest: seq<byte>)
    requires IsInteger(k) && v < TWO_64
    ensures DecodeValue(k, cur, 0, Varint(v) + rest) ==
      if InType(k, Meant(k, v)) then Parsed(Num(Meant(k, v)), rest) else Failed
  {
    VarintRoundTrip(v, rest);
    NarrowedIs(k, v);
    hide Narrowed, Read64, InType, Meant, Varint;
  }

  /** A boolean takes what the 32-bit reader takes, and is false for zero only. */
  lemma BoolAccepted(cur: Val, s: seq<byte>)
    ensures DecodeValue(Bool, cur, 0, s) ==
      if Read32(s).Failed? then Failed else Parsed(Num(if Read32(s).value == 0 then 0 else 1), Read32(s).rest)
  {
  }

  function Word(s: seq<byte>): nat
    requires |s| >= 4
  {
    (s[0] as int) + 0x100 * (s[1] as int) + 0x1_0000 * (s[2] as int) + 0x100_0000 * (s[3] as int)
  }

  lemma FixedAccepted(cur: Val, s: seq<byte>)
    ensures DecodeValue(Fixed32, cur, 5, s) == if |s| < 4 then Failed else Parsed(Num(Word(s)), s[4..])
    ensures DecodeValue(Fixed64, cur, 1, s) ==
      if |s| < 8 then Failed else Parsed(Num(Word(s) + 0x1_0000_0000 * Word(s[4..])), s[8..])
  {
    if |s| >= 4 { WordIs(s[..4]); assert Word(s[..4]) == Word(s); }
    if |s| >= 8 {
      WordsAre(s[..8]);
      assert s[..8][4..] == s[4..][..4] && Word(s[..8]) == Word(s) && Word(s[..8][4..]) == Word(s[4..]);
    }
    hide FromLittleEndian;
  }

  lemma WordIs(s: seq<byte>)
    requires |s| == 4
    ensures FromLittleEndian(s) == Word(s)
  {
    assert s[1..][1..] == s[2..] && s[2..][1..] == s[3..] && s[3..][1..] == [];
    assert FromLittleEndian(s[3..]) == s[3];
    assert FromLittleEndian(s[2..]) == s[2] + 256 * (s[3] as int);
  }

  lemma WordsAre(s: seq<byte>)
    requires |s| == 8
    ensures FromLittleEndian(s) == Word(s) + 0x1_0000_0000 * Word(s[4..])
  {
    WordIs(s[4..]);
    FourFirst(s);
  }

  lemma FourFirst(s: seq<byte>)
    requires |s| >= 4
    ensures FromLittleEndian(s) == Word(s) + 0x1_0000_0000 * FromLittleEndian(s[4..])
  {
    assert s[1..][1..] == s[2..] && s[2..][1..] == s[3..] && s[3..][1..] == s[4..];
    assert FromLittleEndian(s[3..]) == s[3] + 256 * FromLittleEndian(s[4..]);
    assert FromLittleEndian(s[2..]) == s[2] + 256 * FromLittleEndian(s[3..]);
    assert FromLittleEndian(s[1..]) == s[1] + 256 * FromLittleEndian(s[2..]);
  }

  // ----- strings, byte arrays, submessages

  lemma {:induction false} CStringIs(s: seq<byte>)
    ensures var m := |CString(s)|;
      m <= |s| && CString(s) == s[..m] && 0 !in s[..m] && (m < |s| ==> s[m] == 0)
  {
    if s != [] && s[0] != 0 {
      CStringIs(s[1..]);
      var m := |CString(s[1..])|;
      assert s[..m + 1] == [s[0]] + s[1..][..m];
    }
  }

  /** A byte array is taken exactly when its length leaves room for the count and the input has it all. */
  lemma BytesAccepted(space: nat, cur: Val, s: seq<byte>)
    ensures DecodeValue(Bytes(space), cur, 2, s) ==
      if Read32(s).Failed? then Failed
      else
        var n, b := Read32(s).value, Read32(s).rest;
        if n <= 65535 && n <= space - 2 && n <= |b| then Parsed(Blob(b[..n]), b[n..]) else Failed
  {
    hide Read32;
  }

  /** A byte array of fixed size is given in full, or with length zero for all zeros. */
  lemma FixedBytesAccepted(size: nat, cur: Val, s: seq<byte>)
    ensures DecodeValue(FixedBytes(size), cur, 2, s) ==
      if Read32(s).Failed? then Failed
      else
        var n, b := Read32(s).value, Read32(s).rest;
        if n == 0 then Parsed(Blob(seq(size, _ => 0 as byte)), b)
        else if n == size && n <= 65535 && n <= |b| then Parsed(Blob(b[..n]), b[n..])
        else Failed
  {
    hide Read32;
  }

  /** A string is taken exactly when there is room for it and its terminator; it ends at its first zero. */
  lemma StringAccepted(space: nat, cur: Val, s: seq<byte>)
    ensures Read32(s).Failed? ==> DecodeValue(Str(space), cur, 2, s).Failed?
    ensures Read32(s).Parsed? ==>
      var n, b, p := Read32(s).value, Read32(s).rest, DecodeValue(Str(space), cur, 2, s);
      && (p.Parsed? <==> n != TWO_32 - 1 && n <= space - 1 && n <= |b|)
      && (p.Parsed? ==> p.rest == b[n..] && p.value.Blob? && IsText(b[..n], p.value.b))
  {
    hide Read32, CString;
    if Read32(s).Parsed? {
      var n, b := Read32(s).value, Read32(s).rest;
      if n <= |b| { CStringIs(b[..n]); }
    }
  }

  /** `t` is `s` up to its first zero. */
  predicate IsText(s: seq<byte>, t: seq<byte>)
  {
    |t| <= |s| && t == s[..|t|] && 0 !in t && (|t| < |s| ==> s[|t|] == 0)
  }

  /** A submessage is decoded from exactly its own bytes, over what the field holds already. */
  lemma SubmessageAccepted(d: Desc, cur: Val, s: seq<byte>)
    ensures DecodeValue(Submsg(d), cur, 2, s).Parsed? ==>
      Read32(s).Parsed? && Read32(s).value <= |Read32(s).rest|
    ensures Read32(s).Parsed? && Read32(s).value <= |Read32(s).rest| ==>
      var n, b := Read32(s).value, Read32(s).rest;
      var slots := DecodeMsg(d, if cur.Msg? then cur.slots else [], b[..n]);
      DecodeValue(Submsg(d), cur, 2, s) == if slots.None? then Failed else Parsed(Msg(slots.value), b[n..])
  {
    hide Read32, DecodeLoop;
  }

  /** The one wire type each kind of value takes; an element of a packed array has none of its own. */
  lemma OtherWireTypes(k: Kind, cur: Val, wt: nat, s: seq<byte>)
    ensures DecodeValue(k, cur, wt, s).Parsed? ==>
      if k.Bool? || k.Int? || k.UInt? || k.SInt? then wt == 0 || wt == 255
      else if k.Fixed64? then wt == 1 || wt == 255
      else if k.Fixed32? then wt == 5 || wt == 255
      else wt == 2
    ensures Packable(k) ==> DecodeValue(k, cur, 255, s) == DecodeValue(k, cur, WireType(k), s)
    ensures Packable(k) <==> !k.Bytes? && !k.Str? && !k.FixedBytes? && !k.Submsg?
  {
  }

  // ----- fields

  /** A field with one value takes the new value, whatever it held, and its presence flag is set. */
  lemma LastOneWins(f: Field, cur: Slot, wt: nat, s: seq<byte>)
    requires !IsArray(f.rule) && !cur.Many?
    ensures DecodeField(f, cur, wt, s) ==
      var p := DecodeValue(f.kind, cur.v, wt, s);
      if p.Failed? then Failed else Parsed(if f.rule.Optional? then Opt(true, p.value) else One(p.value), p.rest)
    ensures !f.kind.Submsg? ==> forall other :: DecodeValue(f.kind, other, wt, s) == DecodeValue(f.kind, cur.v, wt, s)
  {
  }

  /** An element on its own is appended, if there is room. */
  lemma ElementAppended(f: Field, vs: seq<Val>, wt: nat, s: seq<byte>)
    requires IsArray(f.rule) && !(wt == 2 && Packable(f.kind))
    ensures DecodeField(f, Many(vs), wt, s) ==
      var p := DecodeValue(f.kind, Default(f.kind), wt, s);
      if p.Parsed? && |vs| < f.rule.max then Parsed(Many(vs + [p.value]), p.rest) else Failed
  {
  }

  /** Packed elements are appended one after the other; they must all be whole, and there must be room for
      all of them. */
  lemma {:induction false} PackedAppended(k: Kind, vs: seq<Val>, max: nat, items: seq<Val>, parts: seq<seq<byte>>)
    requires |items| == |parts| && |vs| <= max
    requires forall i | 0 <= i < |parts| :: parts[i] != []
    requires forall i, x | 0 <= i < |parts| :: DecodeValue(k, Default(k), 255, parts[i] + x) == Parsed(items[i], x)
    ensures DecodePacked(k, vs, max, Concat(parts)) == if |vs| + |items| <= max then Some(vs + items) else None
    decreases |parts|
  {
    hide DecodeValue;
    if parts == [] {
      assert vs + items == vs;
    } else if |vs| < max {
      var tail := Concat(parts[1..]);
      assert DecodeValue(k, Default(k), 255, parts[0] + tail) == Parsed(items[0], tail);
      PackedAppended(k, vs + [items[0]], max, items[1..], parts[1..]);
      assert vs + [items[0]] + items[1..] == vs + items;
    }
  }

  /** An element that cannot be read makes the whole record unreadable. */
  lemma PackedRefused(k: Kind, vs: seq<Val>, max: nat, s: seq<byte>)
    requires s != [] && DecodeValue(k, Default(k), 255, s).Failed?
    ensures DecodePacked(k, vs, max, s).None?
  {
  }

  /** A packed record is a length and that many bytes of elements. */
  lemma PackedRecord(f: Field, vs: seq<Val>, s: seq<byte>)
    requires IsArray(f.rule) && Packable(f.kind)
    ensures DecodeField(f, Many(vs), 2, s).Parsed? <==>
      && Read32(s).Parsed? && Read32(s).value <= |Read32(s).rest|
      && DecodePacked(f.kind, vs, f.rule.max, Read32(s).rest[..Read32(s).value]).Some?
    ensures DecodeField(f, Many(vs), 2, s).Parsed? ==>
      var n, b := Read32(s).value, Read32(s).rest;
      DecodeField(f, Many(vs), 2, s) == Parsed(Many(DecodePacked(f.kind, vs, f.rule.max, b[..n]).value), b[n..])
  {
    hide Read32, DecodePacked;
  }

  // ----- what is accepted is sound

  /** A value of its type, within the space set aside. */
  predicate Sound(k: Kind, v: Val)
    decreases k
  {
    match k
    case Bool => v == Num(0) || v == Num(1)
    case Fixed32 => v.Num? && 0 <= v.n < TWO_32
    case Fixed64 => v.Num? && 0 <= v.n < TWO_64
    case Bytes(space) => v.Blob? && |v.b| <= space - 2
    case Str(space) => v.Blob? && |v.b| <= space - 1 && 0 !in v.b
    case FixedBytes(size) => v.Blob? && |v.b| == size
    case Submsg(d) => v.Msg? && SoundMsg(d, v.slots)
    case _ => v.Num? && InType(k, v.n)
  }

  predicate SoundMsg(d: Desc, slots: seq<Slot>)
    decreases d
  {
    |slots| == |d.fields| && forall i | 0 <= i < |slots| :: SoundSlot(d.fields[i], slots[i])
  }

  /** No array has more elements than there is room for, and a fixed one has all of them or none. */
  predicate SoundSlot(f: Field, s: Slot)
    decreases f
  {
    match f.rule
    case Required => s.One? && Sound(f.kind, s.v)
    case Singular => s.One? && Sound(f.kind, s.v)
    case Optional => s.Opt? && Sound(f.kind, s.v)
    case Repeated(max) => s.Many? && |s.vs| <= max && forall i | 0 <= i < |s.vs| :: Sound(f.kind, s.vs[i])
    case FixArray(n) => s.Many? && (|s.vs| == n || s.vs == []) && forall i | 0 <= i < |s.vs| :: Sound(f.kind, s.vs[i])
  }

  lemma {:induction false} DefaultSound(k: Kind)
    requires WellFormedKind(k)
    ensures Sound(k, Default(k))
    decreases k
  {
    if k.Submsg? { DefaultMsgSound(k.desc); }
    Powers();
  }

  lemma {:induction false} DefaultMsgSound(d: Desc)
    requires WellFormed(d)
    ensures SoundMsg(d, DefaultMsg(d))
    decreases d
  {
    forall i | 0 <= i < |d.fields|
      ensures SoundSlot(d.fields[i], DefaultMsg(d)[i])
    {
      assert WellFormedKind(d.fields[i].kind);
      DefaultSound(d.fields[i].kind);
    }
  }

  /** The slot while its field is being filled: a fixed array may not have all its elements yet. */
  predicate Growing(f: Field, s: Slot)
  {
    if IsArray(f.rule) then s.Many? && |s.vs| <= f.rule.max && forall i | 0 <= i < |s.vs| :: Sound(f.kind, s.vs[i])
    else SoundSlot(f, s)
  }

  lemma {:induction false} ValueSound(k: Kind, cur: Val, wt: nat, s: seq<byte>)
    requires WellFormedKind(k) && DecodeValue(k, cur, wt, s).Parsed?
    requires Sound(k, cur)
    ensures Sound(k, DecodeValue(k, cur, wt, s).value)
    decreases k, 0, 0
  {
    match k
    case Bool =>
    case Fixed32 => FixedAccepted(cur, s);
    case Fixed64 => FixedAccepted(cur, s);
    case Bytes(space) => BytesAccepted(space, cur, s);
    case Str(space) => StringAccepted(space, cur, s);
    case FixedBytes(size) => FixedBytesAccepted(size, cur, s);
    case Submsg(d) =>
      SubmessageAccepted(d, cur, s);
      var b := Read32(s).rest[..Read32(s).value];
      MessageSound(d, cur.slots, b);
    case _ =>
      Read64Bound(s, 0);
      RoomValues();
      NarrowedIs(k, Read64(s, 0).value);
  }

  lemma {:induction false} PackedSound(k: Kind, vs: seq<Val>, max: nat, s: seq<byte>)
    requires WellFormedKind(k) && DecodePacked(k, vs, max, s).Some?
    requires |vs| <= max && forall i | 0 <= i < |vs| :: Sound(k, vs[i])
    ensures |DecodePacked(k, vs, max, s).value| <= max
    ensures forall i | 0 <= i < |DecodePacked(k, vs, max, s).value| :: Sound(k, DecodePacked(k, vs, max, s).value[i])
    decreases k, 1, max - |vs|
  {
    hide DecodeValue, Sound;
    if s != [] {
      DefaultSound(k);
      ValueSound(k, Default(k), 255, s);
      var p := DecodeValue(k, Default(k), 255, s);
      PackedSound(k, vs + [p.value], max, p.rest);
    }
  }

  lemma {:induction false} FieldSound(f: Field, cur: Slot, wt: nat, s: seq<byte>)
    requires WellFormedKind(f.kind) && Growing(f, cur) && DecodeField(f, cur, wt, s).Parsed?
    ensures Growing(f, DecodeField(f, cur, wt, s).value)
    decreases f, 0, 0
  {
    hide DecodeValue, DecodePacked, Sound;
    if !IsArray(f.rule) {
      ValueSound(f.kind, cur.v, wt, s);
    } else if wt == 2 && Packable(f.kind) {
      PackedSound(f.kind, cur.vs, f.rule.max, ReadDelimited(s).value);
    } else {
      DefaultSound(f.kind);
      ValueSound(f.kind, Default(f.kind), wt, s);
    }
  }

  /** Every slot is sound but that of the fixed array being filled. */
  predicate Midway(d: Desc, st: Progress)
  {
    && |st.slots| == |d.fields|
    && (st.filling.Some? ==> st.filling.value < |d.fields| && d.fields[st.filling.value].rule.FixArray?)
    && forall i | 0 <= i < |d.fields| ::
         if st.filling == Some(i) then Growing(d.fields[i], st.slots[i]) else SoundSlot(d.fields[i], st.slots[i])
  }

  lemma {:induction false} KnownSound(d: Desc, st: Progress, i: nat, wt: nat, s: seq<byte>)
    requires WellFormed(d) && Midway(d, st) && i < |d.fields| && DecodeKnown(d, st, i, wt, s).Parsed?
    ensures Midway(d, DecodeKnown(d, st, i, wt, s).value)
    decreases d, 0, 0
  {
    hide DecodeField, Sound;
    var f := d.fields[i];
    assert WellFormedKind(f.kind);
    FieldSound(f, if f.rule.FixArray? && st.filling != Some(i) then Many([]) else st.slots[i], wt, s);
  }

  lemma {:induction false} LoopSound(d: Desc, st: Progress, s: seq<byte>)
    requires WellFormed(d) && Midway(d, st) && DecodeLoop(d, st, s).Some?
    ensures SoundMsg(d, DecodeLoop(d, st, s).value)
    decreases d, 1, |s|
  {
    hide DecodeKnown, Read32, SkipField, WellFormed;
    if s == [] {
    } else {
      var t := Read32(s);
      var i := FindField(d, t.value / 8);
      if i.None? {
        LoopSound(d, st, SkipField(t.value % 8, t.rest).rest);
      } else {
        KnownSound(d, st, i.value, t.value % 8, t.rest);
        var p := DecodeKnown(d, st, i.value, t.value % 8, t.rest);
        LoopSound(d, p.value, p.rest);
      }
    }
  }

  /** Whatever bytes are accepted, over contents that are sound: every value is one of its type, and every
      length and count is within its space. */
  lemma {:induction false} MessageSound(d: Desc, init: seq<Slot>, s: seq<byte>)
    requires WellFormed(d) && SoundMsg(d, init) && DecodeMsg(d, init, s).Some?
    ensures SoundMsg(d, DecodeMsg(d, init, s).value)
    decreases d, 2, 0
  {
    LoopSound(d, Progress(init, {}, None), s);
  }

  /** In particular over default storage. */
  lemma AcceptedIsSound(d: Desc, s: seq<byte>)
    requires WellFormed(d) && DecodeMsg(d, DefaultMsg(d), s).Some?
    ensures SoundMsg(d, DecodeMsg(d, DefaultMsg(d), s).value)
  {
    DefaultMsgSound(d);
    MessageSound(d, DefaultMsg(d), s);
  }
}
