/** The decoder inverts the encoder, for every schema and every value that fits it. */
module RoundTrip {
  import opened Basics
  import opened Varints
  import opened Messages

  // ----- the encoder succeeds exactly on the values that fit

  lemma {:induction false} ValueEncodes(k: Kind, v: Val, packed: bool)
    requires Shaped(k, v)
    ensures EncodeValue(k, v, packed).Some? <==> Fits(k, v)
    decreases k, 0, 0
  {
    if k.Submsg? {
      MsgEncodes(k.desc, v.slots, 0, packed);
    }
  }

  lemma {:induction false} ItemsEncode(f: Field, vs: seq<Val>, i: nat, tagged: bool, packed: bool)
    requires i <= |vs| && forall j | 0 <= j < |vs| :: Shaped(f.kind, vs[j])
    ensures EncodeItems(f, vs, i, tagged, packed).Some? <==> forall j | i <= j < |vs| :: Fits(f.kind, vs[j])
    decreases f, 1, |vs| - i
  {
    if i < |vs| {
      ValueEncodes(f.kind, vs[i], packed);
      ItemsEncode(f, vs, i + 1, tagged, packed);
    }
  }

  lemma {:induction false} FieldEncodes(f: Field, s: Slot, packed: bool)
    requires ShapedSlot(f, s)
    ensures EncodeField(f, s, packed).Some? <==> FitsSlot(f, s)
    decreases f, 2, 0
  {
    match s
    case One(v) => ValueEncodes(f.kind, v, packed);
    case Opt(_, v) => ValueEncodes(f.kind, v, packed);
    case Many(vs) =>
      ItemsEncode(f, vs, 0, false, packed);
      ItemsEncode(f, vs, 0, true, packed);
  }

  lemma {:induction false} MsgEncodes(d: Desc, slots: seq<Slot>, i: nat, packed: bool)
    requires ShapedMsg(d, slots) && i <= |slots|
    ensures EncodeMsg(d, slots, i, packed).Some? <==> forall j | i <= j < |slots| :: FitsSlot(d.fields[j], slots[j])
    decreases d, 0, |slots| - i
  {
    if i < |slots| {
      FieldEncodes(d.fields[i], slots[i], packed);
      MsgEncodes(d, slots, i + 1, packed);
    }
  }

  /** Encoding fails exactly when some present string, byte array or count exceeds its space. */
  lemma EncodeSucceedsIffFits(d: Desc, slots: seq<Slot>, packed: bool)
    requires ShapedMsg(d, slots)
    ensures EncodeMsg(d, slots, 0, packed).Some? <==> FitsMsg(d, slots)
  {
    MsgEncodes(d, slots, 0, packed);
  }

  // ----- what is left out is what the decoder puts back

  lemma {:induction false} DefaultIsNorm(k: Kind, v: Val)
    requires Shaped(k, v) && IsDefault(k, v)
    ensures Norm(k, v) == Default(k)
    decreases k
  {
    match k
    case Submsg(d) =>
      forall i | 0 <= i < |v.slots|
        ensures NormSlot(d.fields[i], v.slots[i]) == DefaultSlot(d.fields[i])
      {
        DefaultSlotIsNorm(d.fields[i], v.slots[i]);
      }
      assert NormMsg(d, v.slots) == DefaultMsg(d);
    case FixedBytes(n) => assert v.b == Zeros(n);
    case _ =>
  }

  lemma {:induction false} DefaultSlotIsNorm(f: Field, s: Slot)
    requires ShapedSlot(f, s) && IsDefaultSlot(f, s)
    ensures NormSlot(f, s) == DefaultSlot(f)
    decreases f
  {
    if s.One? {
      DefaultIsNorm(f.kind, s.v);
    }
  }

  // ----- scalars

  ghost function Bound(n: nat): nat
  {
    if n == 0 then 1 else 256 * Bound(n - 1)
  }

  lemma {:induction false} LittleEndianRoundTrip(v: nat, n: nat)
    requires v < Bound(n)
    ensures FromLittleEndian(LittleEndian(v, n)) == v
  {
    if n > 0 {
      LittleEndianRoundTrip(v / 256, n - 1);
      assert LittleEndian(v, n)[1..] == LittleEndian(v / 256, n - 1);
    }
  }

  lemma FixedRoundTrip(v: nat, n: nat, rest: seq<byte>)
    requires (n == 4 && v < TWO_32) || (n == 8 && v < TWO_64)
    ensures DecodeFixed(ReadBytes(LittleEndian(v, n) + rest, n)) == Parsed(Num(v), rest)
  {
    assert Bound(4) == TWO_32 && Bound(8) == TWO_64 by {
      assert Bound(2) == 0x1_0000;
      assert Bound(6) == 0x1_0000 * Bound(4);
      assert Bound(8) == 0x1_0000 * Bound(6);
    }
    LittleEndianRoundTrip(v, n);
    assert (LittleEndian(v, n) + rest)[..n] == LittleEndian(v, n);
    assert (LittleEndian(v, n) + rest)[n..] == rest;
  }

  /** The 64-bit word the encoder sends for an integer field. */
  function Wire(k: Kind, n: int): int
  {
    if k.SInt? then ZigZag(n) else if n < 0 then TWO_64 + n else n
  }

  lemma TwosComplement(n: int)
    ensures -TWO_63 <= n < TWO_63 ==> Signed(if n < 0 then TWO_64 + n else n, TWO_63) == n
    ensures -TWO_31 <= n < TWO_31 ==> Signed((if n < 0 then TWO_64 + n else n) % 0x1_0000_0000, TWO_31) == n
  {
    if n < 0 {
      assert (0x1_0000_0000_0000_0000 + n) % 0x1_0000_0000 == n % 0x1_0000_0000;
    }
  }

  lemma NarrowedRoundTrip(k: Kind, v: Val)
    requires (k.Int? || k.UInt? || k.SInt?) && WellFormedKind(k) && Shaped(k, v)
    ensures 0 <= Wire(k, v.n) < TWO_64 && Narrowed(k, Wire(k, v.n)) == Some(v)
  {
    assert Half(k.size) <= TWO_63 && (k.size != 8 ==> Half(k.size) <= TWO_31);
    if k.SInt? {
      ZigZagRoundTrip(v.n);
    } else if k.Int? {
      hide Signed;
      TwosComplement(v.n);
    }
  }

  lemma DelimitedRoundTrip(b: seq<byte>, rest: seq<byte>)
    requires |b| < TWO_32
    ensures Read32(Delimited(b) + rest) == Parsed(|b|, b + rest)
    ensures ReadDelimited(Delimited(b) + rest) == Parsed(b, rest)
    ensures ReadBytes(b + rest, |b|) == Parsed(b, rest)
  {
    hide Varint, Read32;
    Read32Varint(|b|, b + rest);
    assert Delimited(b) + rest == Varint(|b|) + (b + rest);
    assert (b + rest)[..|b|] == b && (b + rest)[|b|..] == rest;
  }

  lemma {:induction false} CStringOfText(s: seq<byte>)
    requires 0 !in s
    ensures CString(s) == s
  {
    if s != [] {
      CStringOfText(s[1..]);
    }
  }

  // ----- one value

  lemma ScalarRoundTrip(k: Kind, v: Val, packed: bool, wt: nat, rest: seq<byte>)
    requires WellFormedKind(k) && Packable(k) && Shaped(k, v) && (wt == WireType(k) || wt == WT_PACKED)
    ensures EncodeValue(k, v, packed).Some? && EncodeValue(k, v, packed).value != []
    ensures DecodeValue(k, Default(k), wt, EncodeValue(k, v, packed).value + rest) == Parsed(v, rest)
  {
    hide Varint, Read32, Read64, LittleEndian, FromLittleEndian;
    if k.Bool? {
      Read32Varint(v.n, rest);
    } else if k.Fixed32? {
      FixedRoundTrip(v.n, 4, rest);
    } else if k.Fixed64? {
      FixedRoundTrip(v.n, 8, rest);
    } else {
      hide Narrowed;
      NarrowedRoundTrip(k, v);
      VarintRoundTrip(Wire(k, v.n), rest);
    }
  }

  lemma {:induction false} ValueRoundTrip(k: Kind, v: Val, packed: bool, rest: seq<byte>)
    requires WellFormedKind(k) && Shaped(k, v) && Fits(k, v)
    requires EncodeValue(k, v, packed).Some? && |EncodeValue(k, v, packed).value| < TWO_32
    ensures DecodeValue(k, Default(k), WireType(k), EncodeValue(k, v, packed).value + rest) == Parsed(Norm(k, v), rest)
    decreases k, 0, 0
  {
    hide Varint, Read32;
    if Packable(k) {
      ScalarRoundTrip(k, v, packed, WireType(k), rest);
    } else if k.Submsg? {
      var body := EncodeMsg(k.desc, v.slots, 0, packed).value;
      DelimitedRoundTrip(body, rest);
      MsgRoundTrip(k.desc, v.slots, packed);
    } else {
      DelimitedRoundTrip(v.b, rest);
      if k.Str? { CStringOfText(v.b); }
      if k.FixedBytes? && v.b == [] { assert v.b == Zeros(0) && v.b + rest == rest; }
    }
  }

  // ----- arrays

  lemma {:induction false} PackedRoundTrip(f: Field, vs: seq<Val>, i: nat, packed: bool)
    requires WellFormedKind(f.kind) && Packable(f.kind) && IsArray(f.rule) && i <= |vs| <= f.rule.max
    requires forall j | 0 <= j < |vs| :: Shaped(f.kind, vs[j])
    ensures EncodeItems(f, vs, i, false, packed).Some?
    ensures DecodePacked(f.kind, vs[..i], f.rule.max, EncodeItems(f, vs, i, false, packed).value) == Some(vs)
    decreases |vs| - i
  {
    hide EncodeValue, DecodeValue;
    if i == |vs| {
      assert vs[..i] == vs;
    } else {
      PackedRoundTrip(f, vs, i + 1, packed);
      var tail := EncodeItems(f, vs, i + 1, false, packed).value;
      ScalarRoundTrip(f.kind, vs[i], packed, WT_PACKED, tail);
      assert vs[..i] + [vs[i]] == vs[..i + 1];
    }
  }

  /** Reading a tag the schema knows, and then its record. */
  lemma TagStep(d: Desc, st: Progress, i: nat, wt: nat, tail: seq<byte>)
    requires WellFormed(d) && i < |d.fields| == |st.slots| && wt < 8
    ensures DecodeLoop(d, st, Tag(wt, d.fields[i].tag) + tail) ==
      var p := DecodeKnown(d, st, i, wt, tail);
      if p.Failed? then None else DecodeLoop(d, p.value, p.rest)
  {
    hide Varint, Read32, DecodeKnown;
    var tag := d.fields[i].tag;
    Read32Varint(tag * 8 + wt, tail);
    var found := FindField(d, tag);
    assert found == Some(i);
    assert tag * 8 + wt < TWO_32 && (tag * 8 + wt) / 8 == tag && (tag * 8 + wt) % 8 == wt;
    assert Tag(wt, tag) + tail != [];
  }

  /** The decoder after the first `i` fields of an encoded message. */
  ghost function Seen(d: Desc, i: nat): set<nat>
  {
    set j: nat | j < i && j < |d.fields| && d.fields[j].rule.Required?
  }

  ghost function LastFixed(d: Desc, i: nat): Option<nat>
    requires i <= |d.fields|
  {
    if i == 0 then None
    else if d.fields[i - 1].rule.FixArray? then Some(i - 1)
    else LastFixed(d, i - 1)
  }

  ghost function After(d: Desc, slots: seq<Slot>, i: nat): Progress
    requires ShapedMsg(d, slots) && i <= |slots|
  {
    Progress(NormMsg(d, slots)[..i] + DefaultMsg(d)[i..], Seen(d, i), LastFixed(d, i))
  }

  lemma {:induction false} LastFixedFilled(d: Desc, slots: seq<Slot>, i: nat)
    requires ShapedMsg(d, slots) && i <= |slots|
    ensures LastFixed(d, i).Some? ==> LastFixed(d, i).value < i && d.fields[LastFixed(d, i).value].rule.FixArray?
    ensures Filled(d, After(d, slots, i))
  {
    if i > 0 {
      LastFixedFilled(d, slots, i - 1);
      var last := LastFixed(d, i);
      if last.Some? {
        var j := last.value;
        assert After(d, slots, i).slots[j] == NormSlot(d.fields[j], slots[j]);
        assert ShapedSlot(d.fields[j], slots[j]);
      }
    }
  }

  /** Storing field `i` takes the decoder from one such state to the next. */
  lemma AfterStep(d: Desc, slots: seq<Slot>, i: nat)
    requires ShapedMsg(d, slots) && i < |slots|
    ensures |After(d, slots, i).slots| == |After(d, slots, i + 1).slots| == |d.fields|
    ensures After(d, slots, i).slots[i] == DefaultSlot(d.fields[i])
    ensures After(d, slots, i + 1).slots == After(d, slots, i).slots[i := NormSlot(d.fields[i], slots[i])]
    ensures After(d, slots, i + 1).seen ==
      if d.fields[i].rule.Required? then After(d, slots, i).seen + {i} else After(d, slots, i).seen
    ensures After(d, slots, i + 1).filling == if d.fields[i].rule.FixArray? then Some(i) else After(d, slots, i).filling
  {
  }

  // ----- one field

  /** A record with a single value. */
  lemma SingleStep(d: Desc, slots: seq<Slot>, i: nat, packed: bool, rest: seq<byte>)
    requires WellFormed(d) && ShapedMsg(d, slots) && FitsMsg(d, slots) && i < |slots| && !IsArray(d.fields[i].rule)
    requires slots[i].One? || (slots[i].Opt? && slots[i].has)
    requires var f, v := d.fields[i], slots[i].v;
      && Shaped(f.kind, v) && EncodeValue(f.kind, v, packed).Some?
      && DecodeValue(f.kind, Default(f.kind), WireType(f.kind), EncodeValue(f.kind, v, packed).value + rest)
         == Parsed(Norm(f.kind, v), rest)
    ensures EncodeTagged(d.fields[i], slots[i].v, packed).Some?
    ensures DecodeLoop(d, After(d, slots, i), EncodeTagged(d.fields[i], slots[i].v, packed).value + rest)
      == DecodeLoop(d, After(d, slots, i + 1), rest)
  {
    hide EncodeValue, DecodeValue, DecodeLoop, Tag, After;
    var f, v := d.fields[i], slots[i].v;
    assert ShapedSlot(f, slots[i]);
    var body := EncodeValue(f.kind, v, packed).value;
    AfterStep(d, slots, i);
    TagStep(d, After(d, slots, i), i, WireType(f.kind), body + rest);
    assert EncodeTagged(f, v, packed).value + rest == Tag(WireType(f.kind), f.tag) + (body + rest);
    var next := After(d, slots, i + 1);
    assert DecodeKnown(d, After(d, slots, i), i, WireType(f.kind), body + rest)
      == Parsed(Progress(next.slots, next.seen, next.filling), rest);
  }

  /** The encoding of `v` is read back as its normal form, whatever follows. */
  ghost predicate ReadsBack(k: Kind, v: Val, packed: bool, rest: seq<byte>)
  {
    && Shaped(k, v)
    && EncodeValue(k, v, packed).Some?
    && DecodeValue(k, Default(k), WireType(k), EncodeValue(k, v, packed).value + rest) == Parsed(Norm(k, v), rest)
  }

  /** A run of tagged array elements: the decoder has stored the first `j` and is about to read the rest. */
  lemma {:induction false} ItemsStep(d: Desc, st: Progress, i: nat, vs: seq<Val>, norm: seq<Val>, j: nat,
                                     packed: bool, rest: seq<byte>)
    requires WellFormed(d) && i < |d.fields| == |st.slots| && IsArray(d.fields[i].rule)
    requires j <= |vs| == |norm| <= d.fields[i].rule.max && (!packed || !Packable(d.fields[i].kind))
    requires forall m | 0 <= m < |vs| :: Shaped(d.fields[i].kind, vs[m]) && norm[m] == Norm(d.fields[i].kind, vs[m])
    requires forall m, r | j <= m < |vs| :: ReadsBack(d.fields[i].kind, vs[m], packed, r)
    requires EncodeItems(d.fields[i], vs, j, true, packed).Some?
    requires st.slots[i] == Many(norm[..j])
    requires d.fields[i].rule.FixArray? ==> st.filling == Some(i) || (j == 0 && Filled(d, st))
    ensures DecodeLoop(d, st, EncodeItems(d.fields[i], vs, j, true, packed).value + rest) ==
      DecodeLoop(d, Progress(st.slots[i := Many(norm)], st.seen,
        if d.fields[i].rule.FixArray? && j < |vs| then Some(i) else st.filling), rest)
    decreases |vs| - j
  {
    hide EncodeValue, DecodeValue, DecodeLoop, Tag, Filled, WellFormed, Shaped, Norm;
    var f := d.fields[i];
    var code := EncodeItems(f, vs, j, true, packed).value;
    if j == |vs| {
      assert norm[..j] == norm && code + rest == rest;
      assert st.slots[i := Many(norm)] == st.slots;
    } else {
      var body := EncodeValue(f.kind, vs[j], packed).value;
      var tail := EncodeItems(f, vs, j + 1, true, packed).value + rest;
      assert ReadsBack(f.kind, vs[j], packed, tail);
      assert code + rest == Tag(WireType(f.kind), f.tag) + (body + tail);
      TagStep(d, st, i, WireType(f.kind), body + tail);
      var st' := Progress(st.slots[i := Many(norm[..j + 1])], st.seen, if f.rule.FixArray? then Some(i) else st.filling);
      ItemRead(d, st, i, norm[..j], norm[j], body + tail, tail);
      assert norm[..j] + [norm[j]] == norm[..j + 1];
      ItemsStep(d, st', i, vs, norm, j + 1, packed, rest);
      assert st'.slots[i := Many(norm)] == st.slots[i := Many(norm)];
    }
  }

  lemma ItemRead(d: Desc, st: Progress, i: nat, stored: seq<Val>, item: Val, s: seq<byte>, rest: seq<byte>)
    requires i < |d.fields| == |st.slots| && IsArray(d.fields[i].rule)
    requires st.slots[i] == Many(stored) && |stored| < d.fields[i].rule.max
    requires d.fields[i].rule.FixArray? ==> st.filling == Some(i) || (stored == [] && Filled(d, st))
    requires Packable(d.fields[i].kind) ==> WireType(d.fields[i].kind) != WT_STRING
    requires DecodeValue(d.fields[i].kind, Default(d.fields[i].kind), WireType(d.fields[i].kind), s) == Parsed(item, rest)
    ensures DecodeKnown(d, st, i, WireType(d.fields[i].kind), s) == Parsed(
      Progress(st.slots[i := Many(stored + [item])], st.seen,
               if d.fields[i].rule.FixArray? then Some(i) else st.filling), rest)
  {
    hide DecodeValue, Filled;
  }

  lemma {:induction false} ItemLength(f: Field, vs: seq<Val>, i: nat, packed: bool, m: nat)
    requires i <= m < |vs| && forall j | 0 <= j < |vs| :: Shaped(f.kind, vs[j])
    requires EncodeItems(f, vs, i, true, packed).Some?
    ensures EncodeValue(f.kind, vs[m], packed).Some?
    ensures |EncodeValue(f.kind, vs[m], packed).value| <= |EncodeItems(f, vs, i, true, packed).value|
    decreases |vs| - i
  {
    if i < m {
      ItemLength(f, vs, i + 1, packed, m);
    }
  }

  lemma {:induction false} FieldRoundTrip(d: Desc, slots: seq<Slot>, i: nat, packed: bool, rest: seq<byte>)
    requires WellFormed(d) && ShapedMsg(d, slots) && FitsMsg(d, slots) && i < |slots|
    requires EncodeField(d.fields[i], slots[i], packed).Some?
    requires |EncodeField(d.fields[i], slots[i], packed).value| < TWO_32
    ensures DecodeLoop(d, After(d, slots, i), EncodeField(d.fields[i], slots[i], packed).value + rest)
      == DecodeLoop(d, After(d, slots, i + 1), rest)
    decreases d, 1, 0
  {
    hide DecodeLoop, After, DecodeValue, EncodeValue, NormMsg, WellFormed;
    var f, s := d.fields[i], slots[i];
    assert ShapedSlot(f, s) && FitsSlot(f, s);
    assert WellFormedKind(f.kind) by { FieldKindWellFormed(d, i); }
    var code := EncodeField(f, s, packed).value;
    AfterStep(d, slots, i);
    if IsDefaultSlot(f, s) {
      DefaultSlotIsNorm(f, s);
      assert code + rest == rest;
      LeftOut(d, slots, i);
    } else if s.Many? {
      ArrayRoundTrip(d, slots, i, packed, rest);
    } else {
      ValueRoundTrip(f.kind, s.v, packed, rest);
      SingleStep(d, slots, i, packed, rest);
    }
  }

  lemma FieldKindWellFormed(d: Desc, i: nat)
    requires WellFormed(d) && i < |d.fields|
    ensures WellFormedKind(d.fields[i].kind)
  {
  }

  lemma LeftOut(d: Desc, slots: seq<Slot>, i: nat)
    requires WellFormed(d) && ShapedMsg(d, slots) && i < |slots|
    requires IsDefaultSlot(d.fields[i], slots[i]) && NormSlot(d.fields[i], slots[i]) == DefaultSlot(d.fields[i])
    ensures After(d, slots, i) == After(d, slots, i + 1)
  {
    AfterStep(d, slots, i);
    assert ShapedSlot(d.fields[i], slots[i]);
    assert After(d, slots, i).slots[i := DefaultSlot(d.fields[i])] == After(d, slots, i).slots;
  }

  lemma {:induction false} ArrayRoundTrip(d: Desc, slots: seq<Slot>, i: nat, packed: bool, rest: seq<byte>)
    requires WellFormed(d) && ShapedMsg(d, slots) && FitsMsg(d, slots) && i < |slots|
    requires slots[i].Many? && slots[i].vs != []
    requires EncodeField(d.fields[i], slots[i], packed).Some?
    requires |EncodeField(d.fields[i], slots[i], packed).value| < TWO_32
    ensures DecodeLoop(d, After(d, slots, i), EncodeField(d.fields[i], slots[i], packed).value + rest)
      == DecodeLoop(d, After(d, slots, i + 1), rest)
    decreases d, 0, 0
  {
    hide DecodeLoop, After, DecodeValue, EncodeValue, NormMsg, WellFormed, Tag, Filled, DecodePacked, EncodeItems, Shaped, Fits;
    var f, vs := d.fields[i], slots[i].vs;
    assert ShapedSlot(f, slots[i]) && FitsSlot(f, slots[i]);
    FieldKindWellFormed(d, i);
    var st, next := After(d, slots, i), After(d, slots, i + 1);
    AfterStep(d, slots, i);
    LastFixedFilled(d, slots, i);
    if packed && Packable(f.kind) {
      var body := EncodeItems(f, vs, 0, false, packed).value;
      PackedStep(d, slots, i, packed, body, rest);
    } else {
      forall m, r | 0 <= m < |vs|
        ensures ReadsBack(f.kind, vs[m], packed, r)
      {
        ItemLength(f, vs, 0, packed, m);
        ValueRoundTrip(f.kind, vs[m], packed, r);
      }
      var norm := NormSlot(f, slots[i]).vs;
      assert norm[..0] == [];
      ItemsStep(d, st, i, vs, norm, 0, packed, rest);
    }
  }

  lemma PackedStep(d: Desc, slots: seq<Slot>, i: nat, packed: bool, body: seq<byte>, rest: seq<byte>)
    requires WellFormed(d) && ShapedMsg(d, slots) && FitsMsg(d, slots) && i < |slots|
    requires slots[i].Many? && Packable(d.fields[i].kind) && WellFormedKind(d.fields[i].kind)
    requires ShapedSlot(d.fields[i], slots[i]) && FitsSlot(d.fields[i], slots[i])
    requires EncodeItems(d.fields[i], slots[i].vs, 0, false, packed) == Some(body) && |body| < TWO_32
    requires Filled(d, After(d, slots, i))
    ensures DecodeLoop(d, After(d, slots, i), Tag(WT_STRING, d.fields[i].tag) + Delimited(body) + rest)
      == DecodeLoop(d, After(d, slots, i + 1), rest)
  {
    hide DecodeLoop, After, DecodeValue, EncodeValue, NormMsg, WellFormed, Tag, Filled, DecodePacked, EncodeItems, Delimited, Read32;
    var f, vs := d.fields[i], slots[i].vs;
    AfterStep(d, slots, i);
    PackedRoundTrip(f, vs, 0, packed);
    assert vs[..0] == [];
    DelimitedRoundTrip(body, rest);
    TagStep(d, After(d, slots, i), i, WT_STRING, Delimited(body) + rest);
    assert Tag(WT_STRING, f.tag) + Delimited(body) + rest == Tag(WT_STRING, f.tag) + (Delimited(body) + rest);
    assert NormSlot(f, slots[i]).vs == vs;
  }

  lemma EncodeMsgStep(d: Desc, slots: seq<Slot>, i: nat, packed: bool)
    requires ShapedMsg(d, slots) && i < |slots| && EncodeMsg(d, slots, i, packed).Some?
    ensures |slots| == |d.fields| && ShapedSlot(d.fields[i], slots[i])
    ensures EncodeField(d.fields[i], slots[i], packed).Some? && EncodeMsg(d, slots, i + 1, packed).Some?
    ensures EncodeMsg(d, slots, i, packed).value ==
      EncodeField(d.fields[i], slots[i], packed).value + EncodeMsg(d, slots, i + 1, packed).value
    ensures |EncodeField(d.fields[i], slots[i], packed).value| <= |EncodeMsg(d, slots, i, packed).value|
    ensures |EncodeMsg(d, slots, i + 1, packed).value| <= |EncodeMsg(d, slots, i, packed).value|
  {
    hide EncodeField;
  }

  lemma {:induction false} FieldsRoundTrip(d: Desc, slots: seq<Slot>, i: nat, packed: bool, rest: seq<byte>)
    requires WellFormed(d) && ShapedMsg(d, slots) && FitsMsg(d, slots) && i <= |slots|
    requires EncodeMsg(d, slots, i, packed).Some? && |EncodeMsg(d, slots, i, packed).value| < TWO_32
    ensures DecodeLoop(d, After(d, slots, i), EncodeMsg(d, slots, i, packed).value + rest)
      == DecodeLoop(d, After(d, slots, |slots|), rest)
    decreases d, 2, |slots| - i
  {
    if i == |slots| {
      assert [] + rest == rest;
    } else {
      EncodeMsgStep(d, slots, i, packed);
      hide *;
      var item, tail := EncodeField(d.fields[i], slots[i], packed).value, EncodeMsg(d, slots, i + 1, packed).value;
      FieldsRoundTrip(d, slots, i + 1, packed, rest);
      FieldRoundTrip(d, slots, i, packed, tail + rest);
      Reassociate(item, tail, rest);
    }
  }

  lemma Reassociate(a: seq<byte>, b: seq<byte>, c: seq<byte>)
    ensures a + b + c == a + (b + c)
  {
  }

  /** At the end of the input nothing is missing. */
  lemma Complete(d: Desc, slots: seq<Slot>)
    requires ShapedMsg(d, slots)
    ensures DecodeLoop(d, After(d, slots, |slots|), []) == Some(NormMsg(d, slots))
  {
    LastFixedFilled(d, slots, |slots|);
    assert After(d, slots, |slots|).slots == NormMsg(d, slots);
  }

  /**
  Decoding an encoded message over freshly initialised storage gives the message back: every present
  value, and a default for everything absent, whether or not arrays are packed.
  */
  lemma {:induction false} MsgRoundTrip(d: Desc, slots: seq<Slot>, packed: bool)
    requires WellFormed(d) && ShapedMsg(d, slots) && FitsMsg(d, slots)
    requires EncodeMsg(d, slots, 0, packed).Some? && |EncodeMsg(d, slots, 0, packed).value| < TWO_32
    ensures DecodeMsg(d, DefaultMsg(d), EncodeMsg(d, slots, 0, packed).value) == Some(NormMsg(d, slots))
    decreases d, 3, 0
  {
    hide DecodeLoop, EncodeMsg;
    var code := EncodeMsg(d, slots, 0, packed).value;
    FieldsRoundTrip(d, slots, 0, packed, []);
    Complete(d, slots);
    assert code + [] == code;
    assert After(d, slots, 0) == Progress(DefaultMsg(d), {}, None);
  }

  // ----- when the value itself comes back

  /** Nothing is stored behind a presence flag that is off. */
  ghost predicate Clean(k: Kind, v: Val)
    requires Shaped(k, v)
    decreases k
  {
    k.Submsg? ==> CleanMsg(k.desc, v.slots)
  }

  ghost predicate CleanMsg(d: Desc, slots: seq<Slot>)
    requires ShapedMsg(d, slots)
    decreases d
  {
    forall i | 0 <= i < |slots| :: CleanSlot(d.fields[i], slots[i])
  }

  ghost predicate CleanSlot(f: Field, s: Slot)
    requires ShapedSlot(f, s)
    decreases f
  {
    match s
    case One(v) => Clean(f.kind, v)
    case Opt(has, v) => if has then Clean(f.kind, v) else v == Default(f.kind)
    case Many(vs) => forall i | 0 <= i < |vs| :: Clean(f.kind, vs[i])
  }

  lemma {:induction false} NormFixesClean(k: Kind, v: Val)
    requires Shaped(k, v)
    ensures Norm(k, v) == v <==> Clean(k, v)
    decreases k
  {
    if k.Submsg? {
      NormFixesCleanMsg(k.desc, v.slots);
    }
  }

  lemma {:induction false} NormFixesCleanSlot(f: Field, s: Slot)
    requires ShapedSlot(f, s)
    ensures NormSlot(f, s) == s <==> CleanSlot(f, s)
    decreases f
  {
    match s
    case One(v) => NormFixesClean(f.kind, v);
    case Opt(_, v) => NormFixesClean(f.kind, v);
    case Many(vs) =>
      forall i | 0 <= i < |vs| { NormFixesClean(f.kind, vs[i]); }
      var norm := NormSlot(f, s).vs;
      assert forall i | 0 <= i < |vs| :: norm[i] == Norm(f.kind, vs[i]);
      assert norm == vs <==> forall i | 0 <= i < |vs| :: norm[i] == vs[i];
  }

  /** The normal form is the message itself exactly when no absent field holds a value. */
  lemma {:induction false} NormFixesCleanMsg(d: Desc, slots: seq<Slot>)
    requires ShapedMsg(d, slots)
    ensures NormMsg(d, slots) == slots <==> CleanMsg(d, slots)
    decreases d
  {
    forall i | 0 <= i < |slots| { NormFixesCleanSlot(d.fields[i], slots[i]); }
    var norm := NormMsg(d, slots);
    assert forall i | 0 <= i < |slots| :: norm[i] == NormSlot(d.fields[i], slots[i]);
    assert norm == slots <==> forall i | 0 <= i < |slots| :: norm[i] == slots[i];
  }

  // ----- fields the reader's schema does not have

  lemma {:induction false} SkipVarintForm(v: nat, rest: seq<byte>)
    ensures SkipVarint(Varint(v) + rest) == Parsed((), rest)
  {
    var s := Varint(v) + rest;
    if v < 128 {
      assert s[1..] == rest;
    } else {
      SkipVarintForm(v / 128, rest);
      assert s[1..] == Varint(v / 128) + rest;
    }
  }

  lemma ValueSkipped(k: Kind, v: Val, packed: bool, rest: seq<byte>)
    requires WellFormedKind(k) && Shaped(k, v) && EncodeValue(k, v, packed).Some?
    requires |EncodeValue(k, v, packed).value| < TWO_32
    ensures SkipField(WireType(k), EncodeValue(k, v, packed).value + rest) == Parsed((), rest)
  {
    hide Varint, SkipVarint, Read32, ReadDelimited;
    if k.Bool? {
      SkipVarintForm(v.n, rest);
    } else if k.Int? || k.UInt? || k.SInt? {
      NarrowedRoundTrip(k, v);
      SkipVarintForm(Wire(k, v.n), rest);
    } else if k.Fixed32? || k.Fixed64? {
      var n := if k.Fixed32? then 4 else 8;
      assert (LittleEndian(v.n, n) + rest)[n..] == rest;
    } else if k.Submsg? {
      DelimitedRoundTrip(EncodeMsg(k.desc, v.slots, 0, packed).value, rest);
    } else {
      DelimitedRoundTrip(v.b, rest);
    }
  }

  ghost predicate Unknown(d: Desc, f: Field)
  {
    && 1 <= f.tag <= PB_SIZE_MAX && WellFormedKind(f.kind)
    && forall i | 0 <= i < |d.fields| :: d.fields[i].tag != f.tag
  }

  lemma RecordSkipped(d: Desc, st: Progress, f: Field, wt: nat, body: seq<byte>, rest: seq<byte>)
    requires |st.slots| == |d.fields| && Unknown(d, f) && wt < 8
    requires SkipField(wt, body + rest) == Parsed((), rest)
    ensures DecodeLoop(d, st, Tag(wt, f.tag) + body + rest) == DecodeLoop(d, st, rest)
  {
    hide Varint, Read32, SkipField, WellFormedKind;
    Read32Varint(f.tag * 8 + wt, body + rest);
    assert FindField(d, f.tag).None?;
    assert Tag(wt, f.tag) + body + rest == Tag(wt, f.tag) + (body + rest);
    assert (f.tag * 8 + wt) / 8 == f.tag && (f.tag * 8 + wt) % 8 == wt;
    assert Tag(wt, f.tag) + (body + rest) != [];
  }

  lemma {:induction false} ItemsSkipped(d: Desc, st: Progress, f: Field, vs: seq<Val>, i: nat, packed: bool, rest: seq<byte>)
    requires |st.slots| == |d.fields| && Unknown(d, f) && i <= |vs| && forall j | 0 <= j < |vs| :: Shaped(f.kind, vs[j])
    requires EncodeItems(f, vs, i, true, packed).Some? && |EncodeItems(f, vs, i, true, packed).value| < TWO_32
    ensures DecodeLoop(d, st, EncodeItems(f, vs, i, true, packed).value + rest) == DecodeLoop(d, st, rest)
    decreases |vs| - i
  {
    hide DecodeLoop, EncodeValue, Tag, WellFormedKind, Shaped;
    if i == |vs| {
      assert [] + rest == rest;
    } else {
      var tail := EncodeItems(f, vs, i + 1, true, packed).value;
      var body := EncodeValue(f.kind, vs[i], packed).value;
      ItemsSkipped(d, st, f, vs, i + 1, packed, rest);
      ValueSkipped(f.kind, vs[i], packed, tail + rest);
      RecordSkipped(d, st, f, WireType(f.kind), body, tail + rest);
      Reassociate4(Tag(WireType(f.kind), f.tag), body, tail, rest);
    }
  }

  lemma Reassociate4(a: seq<byte>, b: seq<byte>, c: seq<byte>, d: seq<byte>)
    ensures (a + b + c) + d == a + b + (c + d)
  {
  }

  lemma FieldSkipped(d: Desc, st: Progress, f: Field, s: Slot, packed: bool, rest: seq<byte>)
    requires |st.slots| == |d.fields| && Unknown(d, f) && ShapedSlot(f, s)
    requires EncodeField(f, s, packed).Some? && |EncodeField(f, s, packed).value| < TWO_32
    ensures DecodeLoop(d, st, EncodeField(f, s, packed).value + rest) == DecodeLoop(d, st, rest)
  {
    hide DecodeLoop, EncodeValue, Tag, WellFormedKind, Shaped, Delimited, EncodeItems, Unknown;
    assert WellFormedKind(f.kind) by { UnknownKind(d, f); }
    var code := EncodeField(f, s, packed).value;
    if code == [] {
      assert [] + rest == rest;
    } else if s.Many? {
      if packed && Packable(f.kind) {
        var items := EncodeItems(f, s.vs, 0, false, packed).value;
        DelimitedShorter(items);
        DelimitedRoundTrip(items, rest);
        RecordSkipped(d, st, f, WT_STRING, Delimited(items), rest);
      } else {
        ItemsSkipped(d, st, f, s.vs, 0, packed, rest);
      }
    } else {
      ValueSkipped(f.kind, s.v, packed, rest);
      RecordSkipped(d, st, f, WireType(f.kind), EncodeValue(f.kind, s.v, packed).value, rest);
    }
  }

  lemma UnknownKind(d: Desc, f: Field)
    requires Unknown(d, f)
    ensures WellFormedKind(f.kind)
  {
  }

  lemma DelimitedShorter(b: seq<byte>)
    ensures |b| <= |Delimited(b)|
  {
  }

  lemma {:induction false} RestSkipped(d: Desc, slots: seq<Slot>, n: nat, i: nat, st: Progress, packed: bool)
    requires WellFormed(d) && ShapedMsg(d, slots) && n <= i <= |slots| && |st.slots| == n
    requires EncodeMsg(d, slots, i, packed).Some? && |EncodeMsg(d, slots, i, packed).value| < TWO_32
    ensures DecodeLoop(Desc(d.fields[..n]), st, EncodeMsg(d, slots, i, packed).value)
      == DecodeLoop(Desc(d.fields[..n]), st, [])
    decreases |slots| - i
  {
    hide DecodeLoop, EncodeField;
    if i < |slots| {
      RestSkipped(d, slots, n, i + 1, st, packed);
      assert ShapedSlot(d.fields[i], slots[i]);
      assert Unknown(Desc(d.fields[..n]), d.fields[i]);
      FieldSkipped(Desc(d.fields[..n]), st, d.fields[i], slots[i], packed, EncodeMsg(d, slots, i + 1, packed).value);
    }
  }

  lemma {:induction false} EncodeSplit(d: Desc, slots: seq<Slot>, n: nat, i: nat, packed: bool)
    requires ShapedMsg(d, slots) && i <= n <= |slots| && EncodeMsg(d, slots, i, packed).Some?
    ensures ShapedMsg(Desc(d.fields[..n]), slots[..n])
    ensures EncodeMsg(d, slots, n, packed).Some? && EncodeMsg(Desc(d.fields[..n]), slots[..n], i, packed).Some?
    ensures EncodeMsg(d, slots, i, packed).value ==
      EncodeMsg(Desc(d.fields[..n]), slots[..n], i, packed).value + EncodeMsg(d, slots, n, packed).value
    decreases n - i
  {
    hide EncodeField, ShapedSlot;
    if i < n {
      EncodeSplit(d, slots, n, i + 1, packed);
    }
  }

  /** A reader with an older schema, the first `n` fields, gets exactly those fields of a newer writer's message. */
  lemma OlderReader(d: Desc, slots: seq<Slot>, n: nat, packed: bool)
    requires WellFormed(d) && ShapedMsg(d, slots) && FitsMsg(d, slots) && n <= |slots|
    requires EncodeMsg(d, slots, 0, packed).Some? && |EncodeMsg(d, slots, 0, packed).value| < TWO_32
    ensures DecodeMsg(Desc(d.fields[..n]), DefaultMsg(Desc(d.fields[..n])), EncodeMsg(d, slots, 0, packed).value)
      == Some(NormMsg(d, slots)[..n])
  {
    hide DecodeLoop, EncodeMsg;
    var reader, mine := Desc(d.fields[..n]), slots[..n];
    EncodeSplit(d, slots, n, 0, packed);
    FieldsRoundTrip(reader, mine, 0, packed, EncodeMsg(d, slots, n, packed).value);
    RestSkipped(d, slots, n, n, After(reader, mine, n), packed);
    Complete(reader, mine);
    assert After(reader, mine, 0) == Progress(DefaultMsg(reader), {}, None);
    assert NormMsg(reader, mine) == NormMsg(d, slots)[..n];
  }
}
