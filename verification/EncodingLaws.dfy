/** What the encoder sends, said of the values and the bytes: what is left out, and the layout of the rest. */
module EncodingLaws {
  import opened Basics
  import opened Varints
  import opened Messages

  // ----- what is left out

  lemma KeyNotEmpty(f: Field, v: Val, packed: bool)
    requires Shaped(f.kind, v)
    ensures EncodeTagged(f, v, packed) != Some([])
  {
  }

  /** A field adds nothing to a message exactly when it is a singular default, an absent optional or an
      empty array. */
  lemma {:induction false} SlotLeftOut(f: Field, s: Slot, packed: bool)
    requires ShapedSlot(f, s)
    ensures EncodeField(f, s, packed) == Some([]) <==> IsDefaultSlot(f, s)
  {
    hide EncodeTagged, IsDefault;
    match s
    case One(v) => KeyNotEmpty(f, v, packed);
    case Opt(has, v) => KeyNotEmpty(f, v, packed);
    case Many(vs) => if vs != [] { KeyNotEmpty(f, vs[0], packed); }
  }

  /** A singular number is left out if and only if it is zero. */
  lemma ZeroLeftOut(f: Field, n: int, packed: bool)
    requires f.rule.Singular? && Packable(f.kind) && Shaped(f.kind, Num(n))
    ensures EncodeField(f, One(Num(n)), packed) == Some([]) <==> n == 0
  {
    SlotLeftOut(f, One(Num(n)), packed);
  }

  /** Singular bytes and strings are left out if and only if they are empty. */
  lemma EmptyLeftOut(f: Field, b: seq<byte>, packed: bool)
    requires f.rule.Singular? && Shaped(f.kind, Blob(b))
    ensures EncodeField(f, One(Blob(b)), packed) == Some([]) <==> b == []
  {
    SlotLeftOut(f, One(Blob(b)), packed);
  }

  /** A singular submessage is left out if and only if every field of it is. */
  lemma MessageLeftOut(f: Field, d: Desc, slots: seq<Slot>, packed: bool)
    requires f.rule.Singular? && f.kind == Submsg(d) && ShapedMsg(d, slots)
    ensures EncodeField(f, One(Msg(slots)), packed) == Some([])
            <==> forall i | 0 <= i < |slots| :: EncodeField(d.fields[i], slots[i], packed) == Some([])
  {
    SlotLeftOut(f, One(Msg(slots)), packed);
    assert IsDefault(f.kind, Msg(slots)) <==> IsDefaultMsg(d, slots);
    forall i | 0 <= i < |slots| { SlotLeftOut(d.fields[i], slots[i], packed); }
    hide EncodeField, IsDefaultSlot;
  }

  /** A required field is always sent; an optional one exactly when its flag is set; an array exactly when
      it has elements. Required and optional zeros are sent like any other value. */
  lemma SentWhen(f: Field, s: Slot, packed: bool)
    requires ShapedSlot(f, s)
    ensures f.rule.Required? ==> EncodeField(f, s, packed) != Some([])
    ensures f.rule.Optional? ==> (EncodeField(f, s, packed) == Some([]) <==> !s.has)
    ensures IsArray(f.rule) ==> (EncodeField(f, s, packed) == Some([]) <==> s.vs == [])
  {
    SlotLeftOut(f, s, packed);
  }

  /** The message has no required field, fixed array or singular byte array of fixed size, and neither have
      its singular submessages. */
  predicate NothingForced(d: Desc)
    decreases d
  {
    forall i | 0 <= i < |d.fields| ::
      var f := d.fields[i];
      && !f.rule.Required? && !f.rule.FixArray?
      && (f.rule.Singular? && f.kind.FixedBytes? ==> f.kind.dataSize == 0)
      && (f.kind.Submsg? ==> NothingForced(f.kind.desc))
  }

  lemma {:induction false} DefaultIsSilent(d: Desc)
    requires NothingForced(d)
    ensures ShapedMsg(d, DefaultMsg(d)) && IsDefaultMsg(d, DefaultMsg(d))
    decreases d
  {
    forall i | 0 <= i < |d.fields|
      ensures ShapedSlot(d.fields[i], DefaultMsg(d)[i]) && IsDefaultSlot(d.fields[i], DefaultMsg(d)[i])
    {
      var f := d.fields[i];
      if f.kind.Submsg? { DefaultIsSilent(f.kind.desc); }
      DefaultValueShaped(f.kind);
    }
  }

  lemma DefaultValueShaped(k: Kind)
    requires k.Submsg? ==> ShapedMsg(k.desc, DefaultMsg(k.desc)) && IsDefaultMsg(k.desc, DefaultMsg(k.desc))
    ensures Shaped(k, Default(k))
    ensures (k.FixedBytes? ==> k.dataSize == 0) ==> IsDefault(k, Default(k))
  {
  }

  /** A fresh message of such a schema, in particular one of singular numbers, encodes to nothing. */
  lemma FreshSendsNothing(d: Desc, i: nat, packed: bool)
    requires NothingForced(d) && i <= |d.fields|
    ensures ShapedMsg(d, DefaultMsg(d)) && EncodeMsg(d, DefaultMsg(d), i, packed) == Some([])
    decreases |d.fields| - i
  {
    DefaultIsSilent(d);
    if i < |d.fields| {
      assert ShapedSlot(d.fields[i], DefaultMsg(d)[i]) && IsDefaultSlot(d.fields[i], DefaultMsg(d)[i]);
      hide EncodeField, DefaultMsg, IsDefaultSlot, ShapedSlot;
      var none: seq<byte> := [];
      assert none + none == none;
      SlotLeftOut(d.fields[i], DefaultMsg(d)[i], packed);
      FreshSendsNothing(d, i + 1, packed);
    }
  }

  // ----- the layout

  /** The number a varint field sends: itself, in two's complement over 64 bits, or zigzag. */
  function OnWire(k: Kind, n: int): int
  {
    match k
    case SInt(_) => if n >= 0 then 2 * n else -2 * n - 1
    case _ => if n >= 0 then n else n + 0x1_0000_0000_0000_0000
  }

  /** `b` is the canonical varint of `v`. */
  predicate Canonical(b: seq<byte>, v: int)
  {
    Form(b, |b|) && Digits(b) == v && (|b| > 1 ==> b[|b| - 1] != 0)
  }

  /** The key of a record is eight times the tag plus the wire type: 0 for varints, 1 for eight bytes, 2 for
      delimited contents, 5 for four bytes. */
  lemma KeyIs(k: Kind, tag: nat)
    ensures Canonical(Tag(WireType(k), tag), tag * 8 +
      if k.Bool? || k.Int? || k.UInt? || k.SInt? then 0 else if k.Fixed64? then 1 else if k.Fixed32? then 5 else 2)
  {
    VarintIs(tag * 8 + WireType(k));
  }

  /** Booleans and integers are canonical varints; a negative one takes the ten bytes of its two's
      complement, whatever the width of its type. */
  lemma IntegerIs(k: Kind, n: int, packed: bool)
    requires k.Bool? || k.Int? || k.UInt? || k.SInt?
    requires WellFormedKind(k) && Shaped(k, Num(n))
    ensures EncodeValue(k, Num(n), packed).Some?
    ensures Canonical(EncodeValue(k, Num(n), packed).value, OnWire(k, n))
  {
    VarintIs(OnWire(k, n));
  }

  function Power(n: nat): nat
  {
    if n == 0 then 1 else 256 * Power(n - 1)
  }

  lemma {:induction false} LittleEndianAt(v: nat, n: nat, i: nat)
    requires i < n
    ensures Power(i) > 0 && LittleEndian(v, n)[i] == v / Power(i) % 256
    decreases i
  {
    if i > 0 {
      LittleEndianAt(v / 256, n - 1, i - 1);
      DivTwice(v, Power(i - 1));
    }
  }

  lemma DivTwice(v: nat, d: nat)
    requires d > 0
    ensures v / 256 / d == v / (256 * d)
  {
    var q := v / 256 / d;
    var r := v / 256 % d;
    assert v / 256 == q * d + r;
    assert v == 256 * (q * d + r) + v % 256 == q * (256 * d) + (256 * r + v % 256);
    assert 0 <= 256 * r + v % 256 < 256 * d;
    Quotient(v, 256 * d, q, 256 * r + v % 256);
  }

  lemma Quotient(v: nat, d: nat, q: nat, r: nat)
    requires d > 0 && v == q * d + r && r < d
    ensures v / d == q
  {
    if v / d < q { Products(v / d + 1, q, d); } else if v / d > q { Products(q + 1, v / d, d); }
  }

  lemma Products(a: nat, b: nat, d: nat)
    requires a <= b
    ensures a * d <= b * d
  {
  }

  /** Fixed-size numbers are their bytes, least significant first. */
  lemma FixedIs(k: Kind, n: int, packed: bool, i: nat)
    requires (k.Fixed32? || k.Fixed64?) && Shaped(k, Num(n)) && i < if k.Fixed32? then 4 else 8
    ensures EncodeValue(k, Num(n), packed).Some?
    ensures |EncodeValue(k, Num(n), packed).value| == if k.Fixed32? then 4 else 8
    ensures Power(i) > 0 && EncodeValue(k, Num(n), packed).value[i] == n / Power(i) % 256
  {
    LittleEndianAt(n, if k.Fixed32? then 4 else 8, i);
  }

  /** Strings and byte arrays are their length and their bytes, if they fit. */
  lemma BytesAre(k: Kind, b: seq<byte>, packed: bool)
    requires Shaped(k, Blob(b))
    ensures EncodeValue(k, Blob(b), packed).None?
            <==> (k.Bytes? && |b| > k.dataSize - 2) || (k.Str? && |b| > k.dataSize - 1)
    ensures EncodeValue(k, Blob(b), packed).Some? ==>
              exists p :: Canonical(p, |b|) && EncodeValue(k, Blob(b), packed).value == p + b
  {
    VarintIs(|b|);
    assert Canonical(Varint(|b|), |b|);
  }

  /** A submessage is its length and the encoding of its fields. */
  lemma SubmessageIs(d: Desc, slots: seq<Slot>, packed: bool)
    requires Shaped(Submsg(d), Msg(slots)) && EncodeMsg(d, slots, 0, packed).Some?
    ensures var body := EncodeMsg(d, slots, 0, packed).value;
            exists p :: Canonical(p, |body|) && EncodeValue(Submsg(d), Msg(slots), packed) == Some(p + body)
  {
    var n := |EncodeMsg(d, slots, 0, packed).value|;
    VarintIs(n);
    assert Canonical(Varint(n), n);
  }

  function Concat(parts: seq<seq<byte>>): seq<byte>
  {
    if parts == [] then [] else parts[0] + Concat(parts[1..])
  }

  lemma {:induction false} ItemsAre(f: Field, vs: seq<Val>, i: nat, tagged: bool, packed: bool, parts: seq<seq<byte>>)
    requires i <= |vs| && (forall j | 0 <= j < |vs| :: Shaped(f.kind, vs[j])) && |parts| == |vs| - i
    requires forall j | i <= j < |vs| :: EncodeValue(f.kind, vs[j], packed).Some? && parts[j - i] ==
               (if tagged then Tag(WireType(f.kind), f.tag) else []) + EncodeValue(f.kind, vs[j], packed).value
    ensures EncodeItems(f, vs, i, tagged, packed) == Some(Concat(parts))
    decreases |vs| - i
  {
    hide EncodeValue, Tag, Shaped;
    if i < |vs| {
      ItemsAre(f, vs, i + 1, tagged, packed, parts[1..]);
      assert parts[0] == (if tagged then Tag(WireType(f.kind), f.tag) else []) + EncodeValue(f.kind, vs[i], packed).value;
      if !tagged { assert parts[0] == EncodeValue(f.kind, vs[i], packed).value; }
    }
  }

  /** A field with a single value that is not left out is its key and its value. */
  lemma SingleIs(f: Field, s: Slot, packed: bool)
    requires ShapedSlot(f, s) && !IsArray(f.rule) && EncodeField(f, s, packed) != Some([])
    ensures EncodeField(f, s, packed) ==
      var body := EncodeValue(f.kind, s.v, packed);
      if body.None? then None else Some(Tag(WireType(f.kind), f.tag) + body.value)
  {
  }

  /** An array of numbers is one delimited record of all its elements when arrays are packed; any other
      array is a record for each element, in order. More elements than there is room for are refused. */
  lemma ArrayIs(f: Field, vs: seq<Val>, packed: bool, parts: seq<seq<byte>>)
    requires ShapedSlot(f, Many(vs)) && IsArray(f.rule) && |vs| > 0 && |parts| == |vs|
    requires forall j | 0 <= j < |vs| :: EncodeValue(f.kind, vs[j], packed) == Some(parts[j])
    ensures |vs| > f.rule.max ==> EncodeField(f, Many(vs), packed) == None
    ensures |vs| <= f.rule.max && packed && Packable(f.kind) ==>
              exists p :: Canonical(p, |Concat(parts)|)
                          && EncodeField(f, Many(vs), packed) == Some(Tag(2, f.tag) + p + Concat(parts))
    ensures |vs| <= f.rule.max && !(packed && Packable(f.kind)) ==>
              EncodeField(f, Many(vs), packed) ==
                Some(Concat(seq(|vs|, j requires 0 <= j < |vs| => Tag(WireType(f.kind), f.tag) + parts[j])))
  {
    hide EncodeValue, Tag, Shaped;
    if packed && Packable(f.kind) {
      forall j | 0 <= j < |vs| ensures parts[j] == [] + EncodeValue(f.kind, vs[j], packed).value { }
      ItemsAre(f, vs, 0, false, packed, parts);
      VarintIs(|Concat(parts)|);
      assert Canonical(Varint(|Concat(parts)|), |Concat(parts)|);
      Reassociated(Tag(2, f.tag), Varint(|Concat(parts)|), Concat(parts));
    } else {
      ItemsAre(f, vs, 0, true, packed, seq(|vs|, j requires 0 <= j < |vs| => Tag(WireType(f.kind), f.tag) + parts[j]));
    }
  }

  lemma Reassociated(a: seq<byte>, b: seq<byte>, c: seq<byte>)
    ensures a + (b + c) == a + b + c
  {
  }

  /** A message is the encodings of its fields, in the order of the schema. */
  lemma {:induction false} MessageIs(d: Desc, slots: seq<Slot>, i: nat, packed: bool, parts: seq<seq<byte>>)
    requires ShapedMsg(d, slots) && i <= |slots| && |parts| == |slots| - i
    requires forall j | i <= j < |slots| :: EncodeField(d.fields[j], slots[j], packed) == Some(parts[j - i])
    ensures EncodeMsg(d, slots, i, packed) == Some(Concat(parts))
    decreases |slots| - i
  {
    hide EncodeField, ShapedSlot;
    if i < |slots| {
      MessageIs(d, slots, i + 1, packed, parts[1..]);
      assert EncodeField(d.fields[i], slots[i], packed) == Some(parts[0]);
    }
  }
}
