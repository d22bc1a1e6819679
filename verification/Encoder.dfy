/** The message encoder: fields are written one after another to an output stream, submessages in two passes. */
module Encoder {
  import opened Basics
  import opened Varints
  import opened Messages
  import opened OutputStream
  import RoundTrip

  // ----- lengths known before anything is written

  lemma {:induction false} FixedItemsLength(f: Field, vs: seq<Val>, i: nat, packed: bool)
    requires i <= |vs| && forall j | 0 <= j < |vs| :: Shaped(f.kind, vs[j])
    requires f.kind.Fixed32? || f.kind.Fixed64?
    ensures EncodeItems(f, vs, i, false, packed).Some?
    ensures |EncodeItems(f, vs, i, false, packed).value| == (if f.kind.Fixed32? then 4 else 8) * (|vs| - i)
    decreases |vs| - i
  {
    if i < |vs| { FixedItemsLength(f, vs, i + 1, packed); }
  }

  /** The writer of one packable scalar, as used inside packed arrays: booleans go through the integer path. */
  method EncodeScalar(stream: OStream, k: Kind, v: Val, ghost packed: bool) returns (ok: bool)
    requires WellFormedKind(k) && Packable(k) && Shaped(k, v)
    modifies stream
    ensures stream.Emits(EncodeValue(k, v, packed), ok)
  {
    if k.Fixed32? {
      ok := stream.EncodeFixed32(v.n);
    } else if k.Fixed64? {
      ok := stream.EncodeFixed64(v.n);
    } else if k.SInt? {
      ok := stream.EncodeSvarint(v.n);
    } else {
      ok := stream.EncodeVarint(if v.n < 0 then TWO_64 + v.n else v.n);
    }
  }

  /** The elements of a packed array, without tags. */
  method EncodeScalars(stream: OStream, f: Field, vs: seq<Val>, ghost packed: bool) returns (ok: bool)
    requires WellFormedKind(f.kind) && Packable(f.kind) && forall j | 0 <= j < |vs| :: Shaped(f.kind, vs[j])
    modifies stream
    ensures stream.Emits(EncodeItems(f, vs, 0, false, packed), ok)
  {
    hide EncodeValue, Shaped;
    ghost var all := EncodeItems(f, vs, 0, false, packed);
    ghost var done: seq<byte> := [];
    AppendEmpty(all);
    var i := 0;
    while i < |vs|
      invariant 0 <= i <= |vs|
      invariant all == Append(Some(done), EncodeItems(f, vs, i, false, packed))
      invariant stream.Emits(Some(done), true)
    {
      ok := EncodeScalar(stream, f.kind, vs[i], packed);
      ghost var item := EncodeValue(f.kind, vs[i], packed);
      Regroup(done, item, EncodeItems(f, vs, i + 1, false, packed));
      if !ok {
        return false;
      }
      done := done + item.value;
      i := i + 1;
    }
    return true;
  }

  lemma AppendEmpty(code: Option<seq<byte>>)
    ensures Append(Some([]), code) == code
  {
    if code.Some? { assert [] + code.value == code.value; }
  }

  lemma Regroup(done: seq<byte>, item: Option<seq<byte>>, rest: Option<seq<byte>>)
    ensures Append(Some(done), Append(item, rest)).Some? ==> item.Some? && rest.Some?
    ensures Append(Some(done), Append(item, rest)).Some? ==>
      |Append(Some(done), Append(item, rest)).value| == |done| + |item.value| + |rest.value|
    ensures item.Some? ==> Append(Some(done), Append(item, rest)) == Append(Some(done + item.value), rest)
  {
    if item.Some? && rest.Some? {
      assert done + (item.value + rest.value) == done + item.value + rest.value;
    }
  }

  // ----- sizes are held in a 32-bit size_t

  ghost predicate Sized(code: Option<seq<byte>>)
  {
    code.Some? ==> |code.value| < TWO_32
  }

  /** Every length the encoder computes on the way is representable. */
  ghost predicate Measurable(k: Kind, v: Val, packed: bool)
    requires Shaped(k, v)
    decreases k
  {
    match v
    case Num(_) => true
    case Blob(b) => |b| < TWO_32
    case Msg(slots) => Sized(EncodeMsg(k.desc, slots, 0, packed)) && MeasurableMsg(k.desc, slots, packed)
  }

  ghost predicate MeasurableMsg(d: Desc, slots: seq<Slot>, packed: bool)
    requires ShapedMsg(d, slots)
    decreases d
  {
    forall i | 0 <= i < |slots| :: MeasurableSlot(d.fields[i], slots[i], packed)
  }

  ghost predicate MeasurableSlot(f: Field, s: Slot, packed: bool)
    requires ShapedSlot(f, s)
    decreases f
  {
    match s
    case One(v) => Measurable(f.kind, v, packed)
    case Opt(_, v) => Measurable(f.kind, v, packed)
    case Many(vs) =>
      && Sized(EncodeItems(f, vs, 0, false, packed))
      && forall i | 0 <= i < |vs| :: Measurable(f.kind, vs[i], packed)
  }

  // ----- fields

  method EncodePacked(stream: OStream, f: Field, vs: seq<Val>, packed: bool) returns (ok: bool)
    requires WellFormedKind(f.kind) && Packable(f.kind) && forall j | 0 <= j < |vs| :: Shaped(f.kind, vs[j])
    requires f.tag <= PB_SIZE_MAX && Sized(EncodeItems(f, vs, 0, false, packed))
    modifies stream
    ensures var items := EncodeItems(f, vs, 0, false, packed);
      stream.Emits(if items.None? then None else Some(Tag(WT_STRING, f.tag) + Delimited(items.value)), ok)
  {
    hide Varint, EncodeItems, Tag;
    ghost var items := EncodeItems(f, vs, 0, false, packed);
    ok := stream.EncodeTag(WT_STRING, f.tag);
    if !ok {
      return false;
    }
    var size;
    if f.kind.Fixed32? || f.kind.Fixed64? {
      FixedItemsLength(f, vs, 0, packed);
      size := (if f.kind.Fixed32? then 4 else 8) * |vs|;
    } else {
      var sizestream := new OStream.Sizing();
      ok := EncodeScalars(sizestream, f, vs, packed);
      if !ok {
        return false;
      }
      size := sizestream.bytesWritten;
    }
    ok := stream.EncodeVarint(size);
    if !ok {
      return false;
    }
    if stream.sizing {
      ok := stream.Write(Zeros(size));
    } else {
      ok := EncodeScalars(stream, f, vs, packed);
    }
    assert Tag(WT_STRING, f.tag) + (Varint(size) + items.value) == Tag(WT_STRING, f.tag) + Varint(size) + items.value;
  }

  method EncodeArray(stream: OStream, f: Field, vs: seq<Val>, packed: bool) returns (ok: bool)
    requires ShapedSlot(f, Many(vs)) && WellFormedKind(f.kind) && f.tag <= PB_SIZE_MAX
    requires MeasurableSlot(f, Many(vs), packed)
    modifies stream
    ensures stream.Emits(EncodeField(f, Many(vs), packed), ok)
    decreases f, 1
  {
    if |vs| == 0 {
      assert stream.state == old(stream.state) + [];
      return true;
    }
    if |vs| > f.rule.max {
      return false;
    }
    if packed && Packable(f.kind) {
      ok := EncodePacked(stream, f, vs, packed);
    } else {
      hide EncodeTagged, Shaped, Measurable;
      ghost var all := EncodeItems(f, vs, 0, true, packed);
      ghost var done: seq<byte> := [];
      AppendEmpty(all);
      var i := 0;
      while i < |vs|
        invariant 0 <= i <= |vs|
        invariant all == Append(Some(done), EncodeItems(f, vs, i, true, packed))
        invariant stream.Emits(Some(done), true)
      {
        ok := EncodeBasicField(stream, f, vs[i], packed);
        ghost var item := EncodeTagged(f, vs[i], packed);
        Regroup(done, item, EncodeItems(f, vs, i + 1, true, packed));
        if !ok {
          return false;
        }
        done := done + item.value;
        i := i + 1;
      }
      return true;
    }
  }

  method EncodeBasicField(stream: OStream, f: Field, v: Val, packed: bool) returns (ok: bool)
    requires Shaped(f.kind, v) && WellFormedKind(f.kind) && f.tag <= PB_SIZE_MAX && Measurable(f.kind, v, packed)
    modifies stream
    ensures stream.Emits(EncodeTagged(f, v, packed), ok)
    decreases f, 0
  {
    hide Varint, Tag;
    ok := stream.EncodeTag(WireType(f.kind), f.tag);
    if !ok {
      return false;
    }
    ok := EncodeContents(stream, f.kind, v, packed);
  }

  method EncodeContents(stream: OStream, k: Kind, v: Val, packed: bool) returns (ok: bool)
    requires Shaped(k, v) && WellFormedKind(k) && Measurable(k, v, packed)
    modifies stream
    ensures stream.Emits(EncodeValue(k, v, packed), ok)
    decreases k, 2
  {
    hide Varint;
    match k
    case Bytes(n) =>
      if |v.b| > n - 2 {
        return false;
      }
      ok := stream.EncodeString(v.b);
    case Str(n) =>
      if |v.b| > n - 1 {
        return false;
      }
      ok := stream.EncodeString(v.b);
    case FixedBytes(_) => ok := stream.EncodeString(v.b);
    case Submsg(d) => ok := EncodeSubmessage(stream, d, v.slots, packed);
    case _ => ok := EncodeScalar(stream, k, v, packed);
  }

  method EncodeFieldTo(stream: OStream, f: Field, s: Slot, packed: bool) returns (ok: bool)
    requires ShapedSlot(f, s) && WellFormedKind(f.kind) && f.tag <= PB_SIZE_MAX && MeasurableSlot(f, s, packed)
    modifies stream
    ensures stream.Emits(EncodeField(f, s, packed), ok)
    decreases f, 2
  {
    assert forall t: seq<byte> :: t + [] == t;
    match s
    case One(v) =>
      if f.rule.Singular? && IsDefault(f.kind, v) {
        return true;
      }
      ok := EncodeBasicField(stream, f, v, packed);
    case Opt(has, v) =>
      if !has {
        return true;
      }
      ok := EncodeBasicField(stream, f, v, packed);
    case Many(vs) => ok := EncodeArray(stream, f, vs, packed);
  }

  // ----- messages

  /** All fields in order. */
  method EncodeMessage(stream: OStream, d: Desc, slots: seq<Slot>, packed: bool) returns (ok: bool)
    requires WellFormed(d) && ShapedMsg(d, slots) && MeasurableMsg(d, slots, packed)
    modifies stream
    ensures stream.Emits(EncodeMsg(d, slots, 0, packed), ok)
    ensures var code := EncodeMsg(d, slots, 0, packed);
      && (ok <==> code.Some? && (stream.sizing || code.value == [] || old(stream.bytesWritten) + |code.value| <= stream.maxSize))
      && (ok && stream.sizing ==> stream.state == old(stream.state))
      && (ok && !stream.sizing ==> stream.state == old(stream.state) + code.value)
    decreases d, 0
  {
    hide EncodeField;
    ghost var all := EncodeMsg(d, slots, 0, packed);
    ghost var done: seq<byte> := [];
    AppendEmpty(all);
    var i := 0;
    while i < |slots|
      invariant 0 <= i <= |slots|
      invariant all == Append(Some(done), EncodeMsg(d, slots, i, packed))
      invariant stream.Emits(Some(done), true)
    {
      ok := EncodeFieldTo(stream, d.fields[i], slots[i], packed);
      ghost var item := EncodeField(d.fields[i], slots[i], packed);
      Regroup(done, item, EncodeMsg(d, slots, i + 1, packed));
      if !ok {
        return false;
      }
      done := done + item.value;
      i := i + 1;
    }
    return true;
  }

  /**
  First the size, by encoding to a counting stream; then the prefix and, unless the outer stream is
  counting too, the contents through a substream limited to that size.
  The contract leaves no room for the "submsg size changed" exit.
  */
  method EncodeSubmessage(stream: OStream, d: Desc, slots: seq<Slot>, packed: bool) returns (ok: bool)
    requires WellFormed(d) && ShapedMsg(d, slots) && MeasurableMsg(d, slots, packed)
    requires Sized(EncodeMsg(d, slots, 0, packed))
    modifies stream
    ensures var body := EncodeMsg(d, slots, 0, packed);
      stream.Emits(if body.None? then None else Some(Delimited(body.value)), ok)
    decreases d, 1
  {
    hide Varint, EncodeMsg;
    ghost var body := EncodeMsg(d, slots, 0, packed);
    var substream := new OStream.Sizing();
    ok := EncodeMessage(substream, d, slots, packed);
    if !ok {
      return false;
    }
    var size := substream.bytesWritten;
    ok := stream.EncodeVarint(size);
    if !ok {
      return false;
    }
    if stream.sizing {
      ok := stream.Write(Zeros(size));
      return;
    }
    if stream.bytesWritten + size > stream.maxSize {
      return false;
    }
    substream.sizing, substream.state := false, stream.state;
    substream.maxSize, substream.bytesWritten := size, 0;
    var status := EncodeMessage(substream, d, slots, packed);
    stream.bytesWritten := stream.bytesWritten + substream.bytesWritten;
    stream.state := substream.state;
    if substream.bytesWritten != size {
      return false;
    }
    return status;
  }

  /** The size of a message is the number of bytes a later pass into a large enough buffer writes. */
  method GetEncodedSize(d: Desc, slots: seq<Slot>, packed: bool) returns (ok: bool, size: nat)
    requires WellFormed(d) && ShapedMsg(d, slots) && MeasurableMsg(d, slots, packed)
    ensures ok <==> FitsMsg(d, slots)
    ensures ok ==> EncodeMsg(d, slots, 0, packed).Some? && size == |EncodeMsg(d, slots, 0, packed).value|
  {
    RoundTrip.EncodeSucceedsIffFits(d, slots, packed);
    var stream := new OStream.Sizing();
    ok := EncodeMessage(stream, d, slots, packed);
    size := stream.bytesWritten;
  }
}
