/** The message decoder: a loop over field records, with a substream for every delimited one. */
module Decoder {
  import opened Basics
  import opened Varints
  import opened Messages
  import opened InputStream

  method DecodeInteger(stream: IStream, k: Kind) returns (ok: bool, v: Val)
    requires stream.Valid() && (k.Int? || k.UInt? || k.SInt?)
    modifies stream
    ensures stream.Reads(DecodeValue(k, Default(k), WT_VARINT, old(stream.Rest())), ok, v)
  {
    var value;
    v := Num(0);
    ok, value := stream.DecodeVarint();
    if ok {
      var clamped := Narrowed(k, value);
      if clamped.None? {
        return false, v;
      }
      v := clamped.value;
    }
  }

  /** The three length-prefixed scalar types. */
  method DecodeBlob(stream: IStream, k: Kind) returns (ok: bool, v: Val)
    requires stream.Valid() && (k.Bytes? || k.Str? || k.FixedBytes?)
    modifies stream
    ensures stream.Reads(DecodeValue(k, Default(k), WT_STRING, old(stream.Rest())), ok, v)
  {
    hide Read32;
    var size, b;
    v := Blob([]);
    ok, size := stream.DecodeVarint32();
    if !ok {
      return;
    }
    match k {
      case Bytes(n) =>
        if size > PB_SIZE_MAX || size + 2 > n {
          return false, v;
        }
        ok, b := stream.Read(size);
        v := Blob(b);
      case Str(n) =>
        if size == 0xFFFF_FFFF || size + 1 > n {
          return false, v;
        }
        ok, b := stream.Read(size);
        v := Blob(CString(b));
      case FixedBytes(n) =>
        if size > PB_SIZE_MAX {
          return false, v;
        }
        if size == 0 {
          return true, Blob(Zeros(n));
        }
        if size != n {
          return false, v;
        }
        ok, b := stream.Read(n);
        v := Blob(b);
    }
  }

  method DecodeBasicField(stream: IStream, k: Kind, cur: Val, wireType: nat) returns (ok: bool, v: Val)
    requires stream.Valid()
    modifies stream
    ensures stream.Reads(DecodeValue(k, cur, wireType, old(stream.Rest())), ok, v)
    decreases k, 0, 0
  {
    v := cur;
    if wireType != WireType(k) && !(wireType == WT_PACKED && Packable(k)) {
      return false, cur;
    }
    var n;
    if k.Bool? {
      ok, n := stream.DecodeVarint32();
      v := Num(if n != 0 then 1 else 0);
    } else if k.Fixed32? {
      ok, n := stream.DecodeFixed32();
      v := Num(n);
    } else if k.Fixed64? {
      ok, n := stream.DecodeFixed64();
      v := Num(n);
    } else if k.Submsg? {
      ok, v := DecodeSubmessage(stream, k.desc, cur);
    } else if k.Bytes? || k.Str? || k.FixedBytes? {
      ok, v := DecodeBlob(stream, k);
    } else {
      ok, v := DecodeInteger(stream, k);
    }
  }

  /** The contents of a submessage are decoded from a substream over what the field already holds. */
  method DecodeSubmessage(stream: IStream, d: Desc, cur: Val) returns (ok: bool, v: Val)
    requires stream.Valid()
    modifies stream
    ensures stream.Reads(DecodeValue(Submsg(d), cur, WT_STRING, old(stream.Rest())), ok, v)
    decreases d, 3, 0
  {
    v := cur;
    var made, substream := stream.MakeStringSubstream();
    if !made {
      return false, cur;
    }
    ghost var end := substream.pos + substream.bytesLeft;
    var status, slots := DecodeInner(substream, d, if cur.Msg? then cur.slots else []);
    if !status {
      return false, cur;
    }
    stream.CloseStringSubstream(substream, end);
    return true, Msg(slots);
  }

  method DecodePackedArray(stream: IStream, k: Kind, vs0: seq<Val>, max: nat) returns (ok: bool, vs: seq<Val>)
    requires stream.Valid() && Packable(k)
    modifies stream
    ensures var b := ReadDelimited(old(stream.Rest()));
      stream.Reads(if b.Failed? || DecodePacked(k, vs0, max, b.value).None? then Failed
                   else Parsed(DecodePacked(k, vs0, max, b.value).value, b.rest), ok, vs)
    decreases k, 1, 0
  {
    hide Read32, DecodeValue, ReadDelimited;
    vs := vs0;
    var made, substream := stream.MakeStringSubstream();
    if !made {
      return false, vs;
    }
    ghost var end := substream.pos + substream.bytesLeft;
    ghost var all := DecodePacked(k, vs0, max, substream.Rest());
    while substream.bytesLeft > 0 && |vs| < max
      invariant substream.Valid() && substream.pos + substream.bytesLeft == end
      invariant all == DecodePacked(k, vs, max, substream.Rest())
      decreases max - |vs|
      modifies substream
    {
      var status, v := DecodeBasicField(substream, k, Default(k), WT_PACKED);
      if !status {
        return false, vs;
      }
      vs := vs + [v];
    }
    if substream.bytesLeft != 0 {
      return false, vs;
    }
    stream.CloseStringSubstream(substream, end);
    return true, vs;
  }

  method DecodeStaticField(stream: IStream, f: Field, cur: Slot, wireType: nat) returns (ok: bool, s: Slot)
    requires stream.Valid()
    modifies stream
    ensures stream.Reads(DecodeField(f, cur, wireType, old(stream.Rest())), ok, s)
    decreases f, 1, 0
  {
    hide DecodeValue, DecodePacked, ReadDelimited;
    s := cur;
    var v;
    if !IsArray(f.rule) {
      ok, v := DecodeBasicField(stream, f.kind, if cur.Many? then Default(f.kind) else cur.v, wireType);
      return ok, if f.rule.Optional? then Opt(true, v) else One(v);
    }
    var vs := if cur.Many? then cur.vs else [];
    if wireType == WT_STRING && Packable(f.kind) {
      ok, vs := DecodePackedArray(stream, f.kind, vs, f.rule.max);
      return ok, Many(vs);
    }
    if |vs| >= f.rule.max {
      return false, cur;
    }
    ok, v := DecodeBasicField(stream, f.kind, Default(f.kind), wireType);
    return ok, Many(vs + [v]);
  }

  /** A record of a field the schema knows: the bookkeeping of fixed arrays and required fields, then its value. */
  method DecodeFound(stream: IStream, d: Desc, st: Progress, i: nat, wireType: nat) returns (ok: bool, st': Progress)
    requires stream.Valid() && |st.slots| == |d.fields| && i < |d.fields|
    modifies stream
    ensures stream.Reads(DecodeKnown(d, st, i, wireType, old(stream.Rest())), ok, st')
    decreases d, 0, 0
  {
    hide DecodeField;
    var f := d.fields[i];
    st' := st;
    var restart := f.rule.FixArray? && st.filling != Some(i);
    if restart && !Filled(d, st) {
      return false, st;
    }
    var s;
    ok, s := DecodeStaticField(stream, f, if restart then Many([]) else st.slots[i], wireType);
    if ok {
      st' := Progress(st.slots[i := s], if f.rule.Required? then st.seen + {i} else st.seen,
                      if f.rule.FixArray? then Some(i) else st.filling);
    }
  }

  /** The loop over the records of one message, and the checks at its end. */
  method DecodeInner(stream: IStream, d: Desc, init: seq<Slot>) returns (ok: bool, slots: seq<Slot>)
    requires stream.Valid()
    modifies stream
    ensures stream.Valid()
    ensures ok <==> DecodeMsg(d, init, old(stream.Rest())).Some?
    ensures ok ==> slots == DecodeMsg(d, init, old(stream.Rest())).value
    ensures ok ==> stream.bytesLeft == 0 && stream.pos == old(stream.pos + stream.bytesLeft)
    decreases d, 2, 0
  {
    hide Read32, DecodeKnown, SkipField, Filled, AllSeen;
    slots := init;
    if |init| != |d.fields| {
      return false, init;
    }
    var st := Progress(init, {}, None);
    ghost var all := DecodeLoop(d, st, stream.Rest());
    while stream.bytesLeft > 0
      invariant stream.Valid() && stream.pos + stream.bytesLeft == old(stream.pos + stream.bytesLeft)
      invariant |st.slots| == |d.fields|
      invariant all == DecodeLoop(d, st, stream.Rest())
      decreases stream.bytesLeft
    {
      var got, tagWord, eof := stream.DecodeVarint32Eof();
      if !got {
        return false, init;
      }
      if tagWord / 8 == 0 {
        return false, init;
      }
      var i := FindField(d, tagWord / 8);
      if i.None? {
        var skipped := stream.SkipFieldBytes(tagWord % 8);
        if !skipped {
          return false, init;
        }
      } else {
        var status, st' := DecodeFound(stream, d, st, i.value, tagWord % 8);
        if !status {
          return false, init;
        }
        st := st';
      }
    }
    if !Filled(d, st) || !AllSeen(d, st.seen) {
      return false, init;
    }
    return true, st.slots;
  }

  /** A message decoded from a buffer over default storage. */
  method Decode(buf: seq<byte>, d: Desc) returns (ok: bool, slots: seq<Slot>)
    ensures ok <==> DecodeMsg(d, DefaultMsg(d), buf).Some?
    ensures ok ==> slots == DecodeMsg(d, DefaultMsg(d), buf).value
  {
    var stream := new IStream.FromBuffer(buf);
    ok, slots := DecodeInner(stream, d, DefaultMsg(d));
  }
}
