/**
Message schemas, the values that fit them, and the wire format as a pair of pure functions: what the
encoder must emit for a value and what the decoder must make of any byte string.
Only statically allocated fields are covered.
*/
module Messages {
  import opened Basics
  import opened Varints

  // ----- schemas

  /** The scalar type of a field; `size` is the width of the C integer, `dataSize` the bytes set aside. */
  datatype Kind =
    | Bool | Int(size: nat) | UInt(size: nat) | SInt(size: nat) | Fixed32 | Fixed64
    | Bytes(dataSize: nat) | Str(dataSize: nat) | FixedBytes(dataSize: nat)
    | Submsg(desc: Desc)

  /** How often a field occurs: `Singular` has no presence flag, `FixArray` no count variable. */
  datatype Rule = Required | Optional | Singular | Repeated(max: nat) | FixArray(max: nat)

  datatype Field = Field(tag: nat, rule: Rule, kind: Kind)

  datatype Desc = Desc(fields: seq<Field>)

  const MAX_REQUIRED_FIELDS: nat := 64
  const PB_SIZE_MAX: nat := 65535

  const WT_VARINT: nat := 0
  const WT_64BIT: nat := 1
  const WT_STRING: nat := 2
  const WT_32BIT: nat := 5
  const WT_PACKED: nat := 255

  predicate IsArray(r: Rule)
  {
    r.Repeated? || r.FixArray?
  }

  predicate Packable(k: Kind)
  {
    k.Bool? || k.Int? || k.UInt? || k.SInt? || k.Fixed32? || k.Fixed64?
  }

  function WireType(k: Kind): (wt: nat)
    ensures wt in {0, 1, 2, 5}
  {
    match k
    case Bool => WT_VARINT
    case Int(_) => WT_VARINT
    case UInt(_) => WT_VARINT
    case SInt(_) => WT_VARINT
    case Fixed32 => WT_32BIT
    case Fixed64 => WT_64BIT
    case _ => WT_STRING
  }

  /** Half the number of values of a `size`-byte integer. */
  function Half(size: nat): int
  {
    if size == 1 then 0x80 else if size == 2 then 0x8000 else if size == 4 then TWO_31 else TWO_63
  }

  predicate WellFormedKind(k: Kind)
  {
    match k
    case Int(n) => n in {1, 2, 4, 8}
    case UInt(n) => n in {1, 2, 4, 8}
    case SInt(n) => n in {1, 2, 4, 8}
    case Bytes(n) => 2 <= n <= PB_SIZE_MAX
    case Str(n) => 1 <= n <= PB_SIZE_MAX
    case FixedBytes(n) => n <= PB_SIZE_MAX
    case Submsg(d) => WellFormed(d)
    case _ => true
  }

  /** What the generator guarantees: tags ascend from 1, and sizes are those of C objects. */
  predicate WellFormed(d: Desc)
  {
    && (forall i | 0 <= i < |d.fields| ::
          && 1 <= d.fields[i].tag <= PB_SIZE_MAX
          && (d.fields[i].rule.FixArray? ==> d.fields[i].rule.max >= 1)
          && WellFormedKind(d.fields[i].kind))
    && (forall i, j | 0 <= i < j < |d.fields| :: d.fields[i].tag < d.fields[j].tag)
  }

  // ----- values

  datatype Val = Num(n: int) | Blob(b: seq<byte>) | Msg(slots: seq<Slot>)

  /** The storage of a field: a value, a value with its presence flag, or the counted part of an array. */
  datatype Slot = One(v: Val) | Opt(has: bool, v: Val) | Many(vs: seq<Val>)

  /** The value has the C type the schema declares; a string is the characters before its terminator. */
  predicate Shaped(k: Kind, v: Val)
    decreases k
  {
    match k
    case Bool => v.Num? && 0 <= v.n <= 1
    case Int(size) => v.Num? && -Half(size) <= v.n < Half(size)
    case UInt(size) => v.Num? && 0 <= v.n < 2 * Half(size)
    case SInt(size) => v.Num? && -Half(size) <= v.n < Half(size)
    case Fixed32 => v.Num? && 0 <= v.n < TWO_32
    case Fixed64 => v.Num? && 0 <= v.n < TWO_64
    case Bytes(_) => v.Blob?
    case Str(_) => v.Blob? && 0 !in v.b
    case FixedBytes(n) => v.Blob? && |v.b| == n
    case Submsg(d) => v.Msg? && ShapedMsg(d, v.slots)
  }

  predicate ShapedMsg(d: Desc, slots: seq<Slot>)
    decreases d
  {
    |slots| == |d.fields| && forall i | 0 <= i < |slots| :: ShapedSlot(d.fields[i], slots[i])
  }

  predicate ShapedSlot(f: Field, s: Slot)
    decreases f
  {
    match f.rule
    case Required => s.One? && Shaped(f.kind, s.v)
    case Singular => s.One? && Shaped(f.kind, s.v)
    case Optional => s.Opt? && Shaped(f.kind, s.v)
    case Repeated(_) => s.Many? && forall i | 0 <= i < |s.vs| :: Shaped(f.kind, s.vs[i])
    case FixArray(n) => s.Many? && |s.vs| == n && forall i | 0 <= i < |s.vs| :: Shaped(f.kind, s.vs[i])
  }

  /** Lengths and counts stay within the space set aside; what is absent is not looked at. */
  predicate Fits(k: Kind, v: Val)
    requires Shaped(k, v)
    decreases k
  {
    match k
    case Bytes(n) => |v.b| + 2 <= n
    case Str(n) => |v.b| + 1 <= n
    case Submsg(d) => FitsMsg(d, v.slots)
    case _ => true
  }

  predicate FitsMsg(d: Desc, slots: seq<Slot>)
    requires ShapedMsg(d, slots)
    decreases d
  {
    forall i | 0 <= i < |slots| :: FitsSlot(d.fields[i], slots[i])
  }

  predicate FitsSlot(f: Field, s: Slot)
    requires ShapedSlot(f, s)
    decreases f
  {
    match s
    case One(v) => (f.rule.Singular? && IsDefault(f.kind, v)) || Fits(f.kind, v)
    case Opt(has, v) => has ==> Fits(f.kind, v)
    case Many(vs) => |vs| <= f.rule.max && forall i | 0 <= i < |vs| :: Fits(f.kind, vs[i])
  }

  /** The test by which the encoder leaves a singular field out. */
  predicate IsDefault(k: Kind, v: Val)
    requires Shaped(k, v)
    decreases k
  {
    match k
    case Bytes(_) => v.b == []
    case Str(_) => v.b == []
    case FixedBytes(n) => n == 0
    case Submsg(d) => IsDefaultMsg(d, v.slots)
    case _ => v.n == 0
  }

  predicate IsDefaultMsg(d: Desc, slots: seq<Slot>)
    requires ShapedMsg(d, slots)
    decreases d
  {
    forall i | 0 <= i < |slots| :: IsDefaultSlot(d.fields[i], slots[i])
  }

  predicate IsDefaultSlot(f: Field, s: Slot)
    requires ShapedSlot(f, s)
    decreases f
  {
    match s
    case One(v) => f.rule.Singular? && IsDefault(f.kind, v)
    case Opt(has, _) => !has
    case Many(vs) => vs == []
  }

  function Zeros(n: nat): (z: seq<byte>)
    ensures |z| == n
  {
    seq(n, _ => 0 as byte)
  }

  function Default(k: Kind): Val
    decreases k
  {
    match k
    case Bytes(_) => Blob([])
    case Str(_) => Blob([])
    case FixedBytes(n) => Blob(Zeros(n))
    case Submsg(d) => Msg(DefaultMsg(d))
    case _ => Num(0)
  }

  function DefaultMsg(d: Desc): (slots: seq<Slot>)
    ensures |slots| == |d.fields|
    decreases d
  {
    seq(|d.fields|, i requires 0 <= i < |d.fields| => DefaultSlot(d.fields[i]))
  }

  function DefaultSlot(f: Field): Slot
    decreases f
  {
    match f.rule
    case Required => One(Default(f.kind))
    case Singular => One(Default(f.kind))
    case Optional => Opt(false, Default(f.kind))
    case Repeated(_) => Many([])
    case FixArray(_) => Many([])
  }

  /** The value with the payload of every absent optional field reset: all that a message can carry. */
  function Norm(k: Kind, v: Val): Val
    requires Shaped(k, v)
    decreases k
  {
    if k.Submsg? then Msg(NormMsg(k.desc, v.slots)) else v
  }

  function NormMsg(d: Desc, slots: seq<Slot>): (r: seq<Slot>)
    requires ShapedMsg(d, slots)
    ensures |r| == |slots|
    decreases d
  {
    seq(|slots|, i requires 0 <= i < |slots| => NormSlot(d.fields[i], slots[i]))
  }

  function NormSlot(f: Field, s: Slot): Slot
    requires ShapedSlot(f, s)
    decreases f
  {
    match s
    case One(v) => One(Norm(f.kind, v))
    case Opt(has, v) => Opt(has, if has then Norm(f.kind, v) else Default(f.kind))
    case Many(vs) => Many(seq(|vs|, i requires 0 <= i < |vs| => Norm(f.kind, vs[i])))
  }

  // ----- encoding

  function LittleEndian(v: nat, n: nat): (s: seq<byte>)
    ensures |s| == n
  {
    if n == 0 then [] else [v % 256] + LittleEndian(v / 256, n - 1)
  }

  function Tag(wt: nat, tag: nat): seq<byte>
  {
    Varint(tag * 8 + wt)
  }

  function Delimited(s: seq<byte>): seq<byte>
  {
    Varint(|s|) + s
  }

  function Append(a: Option<seq<byte>>, b: Option<seq<byte>>): Option<seq<byte>>
  {
    if a.Some? && b.Some? then Some(a.value + b.value) else None
  }

  /** A field's value without its tag. */
  function EncodeValue(k: Kind, v: Val, packed: bool): Option<seq<byte>>
    requires Shaped(k, v)
    decreases k, 0, 0
  {
    match k
    case Bool => Some(Varint(v.n))
    case Int(_) => Some(Varint(if v.n < 0 then TWO_64 + v.n else v.n))
    case UInt(_) => Some(Varint(v.n))
    case SInt(_) => Some(Varint(ZigZag(v.n)))
    case Fixed32 => Some(LittleEndian(v.n, 4))
    case Fixed64 => Some(LittleEndian(v.n, 8))
    case Bytes(n) => if |v.b| + 2 > n then None else Some(Delimited(v.b))
    case Str(n) => if |v.b| + 1 > n then None else Some(Delimited(v.b))
    case FixedBytes(_) => Some(Delimited(v.b))
    case Submsg(d) =>
      var body := EncodeMsg(d, v.slots, 0, packed);
      if body.None? then None else Some(Delimited(body.value))
  }

  function EncodeTagged(f: Field, v: Val, packed: bool): Option<seq<byte>>
    requires Shaped(f.kind, v)
    decreases f, 0, 0
  {
    Append(Some(Tag(WireType(f.kind), f.tag)), EncodeValue(f.kind, v, packed))
  }

  /** The elements of an array from index `i` on, each with its own tag when `tagged`. */
  function EncodeItems(f: Field, vs: seq<Val>, i: nat, tagged: bool, packed: bool): Option<seq<byte>>
    requires i <= |vs| && forall j | 0 <= j < |vs| :: Shaped(f.kind, vs[j])
    decreases f, 1, |vs| - i
  {
    if i == |vs| then Some([])
    else
      Append(if tagged then EncodeTagged(f, vs[i], packed) else EncodeValue(f.kind, vs[i], packed),
             EncodeItems(f, vs, i + 1, tagged, packed))
  }

  function EncodeField(f: Field, s: Slot, packed: bool): Option<seq<byte>>
    requires ShapedSlot(f, s)
    decreases f, 2, 0
  {
    match s
    case One(v) =>
      if f.rule.Singular? && IsDefault(f.kind, v) then Some([]) else EncodeTagged(f, v, packed)
    case Opt(has, v) => if has then EncodeTagged(f, v, packed) else Some([])
    case Many(vs) =>
      if vs == [] then Some([])
      else if |vs| > f.rule.max then None
      else if packed && Packable(f.kind) then
        var body := EncodeItems(f, vs, 0, false, packed);
        if body.None? then None else Some(Tag(WT_STRING, f.tag) + Delimited(body.value))
      else EncodeItems(f, vs, 0, true, packed)
  }

  /** The fields from index `i` on; `packed` is off when arrays are configured to be sent unpacked. */
  function EncodeMsg(d: Desc, slots: seq<Slot>, i: nat, packed: bool): Option<seq<byte>>
    requires ShapedMsg(d, slots) && i <= |slots|
    decreases d, 0, |slots| - i
  {
    if i == |slots| then Some([])
    else Append(EncodeField(d.fields[i], slots[i], packed), EncodeMsg(d, slots, i + 1, packed))
  }

  // ----- decoding

  function FromLittleEndian(s: seq<byte>): nat
  {
    if s == [] then 0 else s[0] + 256 * FromLittleEndian(s[1..])
  }

  function ReadBytes(s: seq<byte>, n: nat): (p: Parse<seq<byte>>)
    ensures p.Parsed? ==> |p.rest| <= |s|
  {
    if |s| < n then Failed else Parsed(s[..n], s[n..])
  }

  /** A length prefix and that many bytes. */
  function ReadDelimited(s: seq<byte>): (p: Parse<seq<byte>>)
    ensures p.Parsed? ==> |p.rest| < |s|
  {
    var n := Read32(s);
    if n.Failed? then Failed else ReadBytes(n.rest, n.value)
  }

  function SkipVarint(s: seq<byte>): (p: Parse<()>)
    ensures p.Parsed? ==> |p.rest| < |s|
  {
    if s == [] then Failed else if s[0] < 128 then Parsed((), s[1..]) else SkipVarint(s[1..])
  }

  /** The field of a tag the schema does not know. */
  function SkipField(wt: nat, s: seq<byte>): (p: Parse<()>)
    ensures p.Parsed? ==> |p.rest| <= |s|
  {
    if wt == WT_VARINT then SkipVarint(s)
    else if wt == WT_64BIT then Drop(ReadBytes(s, 8))
    else if wt == WT_STRING then Drop(ReadDelimited(s))
    else if wt == WT_32BIT then Drop(ReadBytes(s, 4))
    else Failed
  }

  function Drop<T>(p: Parse<T>): (r: Parse<()>)
    ensures r.Parsed? <==> p.Parsed?
    ensures p.Parsed? ==> r.rest == p.rest
  {
    if p.Failed? then Failed else Parsed((), p.rest)
  }

  /** The characters before the first terminator. */
  function CString(s: seq<byte>): seq<byte>
  {
    if s == [] || s[0] == 0 then [] else [s[0]] + CString(s[1..])
  }

  function Signed(v: int, half: nat): int
  {
    if v < half then v else v - 2 * half
  }

  /** The 64-bit varint `v` stored into a signed or unsigned integer of `k.size` bytes, with the overflow check. */
  function Narrowed(k: Kind, v: nat): Option<Val>
    requires k.Int? || k.UInt? || k.SInt?
  {
    var n := if k.UInt? then v
      else if k.SInt? then UnZigZag(v)
      else if k.size == 8 then Signed(v, TWO_63)
      else Signed(v % 0x1_0000_0000, TWO_31);
    if Shaped(k, Num(n)) then Some(Num(n)) else None
  }

  function DecodeValue(k: Kind, cur: Val, wt: nat, s: seq<byte>): (p: Parse<Val>)
    ensures p.Parsed? ==> |p.rest| <= |s|
    decreases k, 0, 0
  {
    if wt != WireType(k) && !(wt == WT_PACKED && Packable(k)) then Failed
    else match k
      case Bool =>
        var r := Read32(s);
        if r.Failed? then Failed else Parsed(Num(if r.value != 0 then 1 else 0), r.rest)
      case Fixed32 => DecodeFixed(ReadBytes(s, 4))
      case Fixed64 => DecodeFixed(ReadBytes(s, 8))
      case Bytes(n) =>
        var r := Read32(s);
        if r.Failed? || r.value > PB_SIZE_MAX || r.value + 2 > n then Failed
        else var b := ReadBytes(r.rest, r.value); if b.Failed? then Failed else Parsed(Blob(b.value), b.rest)
      case Str(n) =>
        var r := Read32(s);
        if r.Failed? || r.value == TWO_32 - 1 || r.value + 1 > n then Failed
        else var b := ReadBytes(r.rest, r.value); if b.Failed? then Failed else Parsed(Blob(CString(b.value)), b.rest)
      case FixedBytes(n) =>
        var r := Read32(s);
        if r.Failed? || r.value > PB_SIZE_MAX then Failed
        else if r.value == 0 then Parsed(Blob(Zeros(n)), r.rest)
        else if r.value != n then Failed
        else var b := ReadBytes(r.rest, n); if b.Failed? then Failed else Parsed(Blob(b.value), b.rest)
      case Submsg(d) =>
        var b := ReadDelimited(s);
        if b.Failed? then Failed
        else
          var slots := DecodeMsg(d, if cur.Msg? then cur.slots else [], b.value);
          if slots.None? then Failed else Parsed(Msg(slots.value), b.rest)
      case _ =>
        var r := Read64(s, 0);
        if r.Failed? then Failed
        else var v := Narrowed(k, r.value); if v.None? then Failed else Parsed(v.value, r.rest)
  }

  function DecodeFixed(b: Parse<seq<byte>>): (p: Parse<Val>)
    ensures p.Parsed? <==> b.Parsed?
    ensures b.Parsed? ==> p.rest == b.rest
  {
    if b.Failed? then Failed else Parsed(Num(FromLittleEndian(b.value)), b.rest)
  }

  /** Packed elements up to the end of their record or the end of the array; a leftover is an overflow. */
  function DecodePacked(k: Kind, vs: seq<Val>, max: nat, s: seq<byte>): Option<seq<Val>>
    decreases k, 1, max - |vs|
  {
    if s == [] then Some(vs)
    else if |vs| >= max then None
    else
      var p := DecodeValue(k, Default(k), WT_PACKED, s);
      if p.Failed? then None else DecodePacked(k, vs + [p.value], max, p.rest)
  }

  function DecodeField(f: Field, cur: Slot, wt: nat, s: seq<byte>): (p: Parse<Slot>)
    ensures p.Parsed? ==> |p.rest| <= |s|
    decreases f, 0, 0
  {
    if !IsArray(f.rule) then
      var v := DecodeValue(f.kind, if cur.Many? then Default(f.kind) else cur.v, wt, s);
      if v.Failed? then Failed
      else Parsed(if f.rule.Optional? then Opt(true, v.value) else One(v.value), v.rest)
    else
      var vs := if cur.Many? then cur.vs else [];
      if wt == WT_STRING && Packable(f.kind) then
        var b := ReadDelimited(s);
        if b.Failed? then Failed
        else
          var vs' := DecodePacked(f.kind, vs, f.rule.max, b.value);
          if vs'.None? then Failed else Parsed(Many(vs'.value), b.rest)
      else if |vs| >= f.rule.max then Failed
      else
        var v := DecodeValue(f.kind, Default(f.kind), wt, s);
        if v.Failed? then Failed else Parsed(Many(vs + [v.value]), v.rest)
  }

  /** The decoder between two fields: the message so far, the required fields seen, the fixed array being filled. */
  datatype Progress = Progress(slots: seq<Slot>, seen: set<nat>, filling: Option<nat>)

  function FindField(d: Desc, tag: nat, i: nat := 0): (r: Option<nat>)
    requires i <= |d.fields|
    ensures r.Some? ==> i <= r.value < |d.fields| && d.fields[r.value].tag == tag
    ensures r.None? ==> forall j | i <= j < |d.fields| :: d.fields[j].tag != tag
    decreases |d.fields| - i
  {
    if i == |d.fields| then None else if d.fields[i].tag == tag then Some(i) else FindField(d, tag, i + 1)
  }

  function RequiredBefore(d: Desc, i: nat): nat
    requires i <= |d.fields|
  {
    if i == 0 then 0 else RequiredBefore(d, i - 1) + if d.fields[i - 1].rule.Required? then 1 else 0
  }

  /** The fixed array being filled, if any, has all its elements. */
  predicate Filled(d: Desc, st: Progress)
    requires |st.slots| == |d.fields|
  {
    st.filling.Some? && st.filling.value < |d.fields| && IsArray(d.fields[st.filling.value].rule) ==>
      st.slots[st.filling.value].Many? && |st.slots[st.filling.value].vs| == d.fields[st.filling.value].rule.max
  }

  /** Every required field that the bit field has room for was seen. */
  predicate AllSeen(d: Desc, seen: set<nat>)
  {
    forall i | 0 <= i < |d.fields| && d.fields[i].rule.Required? && RequiredBefore(d, i) < MAX_REQUIRED_FIELDS ::
      i in seen
  }

  /** One field record of a known tag. */
  function DecodeKnown(d: Desc, st: Progress, i: nat, wt: nat, s: seq<byte>): (p: Parse<Progress>)
    requires |st.slots| == |d.fields| && i < |d.fields|
    ensures p.Parsed? ==> |p.rest| <= |s| && |p.value.slots| == |d.fields|
    decreases d, 0, 0
  {
    var f := d.fields[i];
    var restart := f.rule.FixArray? && st.filling != Some(i);
    if restart && !Filled(d, st) then Failed
    else
      var p := DecodeField(f, if restart then Many([]) else st.slots[i], wt, s);
      if p.Failed? then Failed
      else
        Parsed(Progress(st.slots[i := p.value],
                        if f.rule.Required? then st.seen + {i} else st.seen,
                        if f.rule.FixArray? then Some(i) else st.filling), p.rest)
  }

  function DecodeLoop(d: Desc, st: Progress, s: seq<byte>): (r: Option<seq<Slot>>)
    requires |st.slots| == |d.fields|
    ensures r.Some? ==> |r.value| == |d.fields|
    decreases d, 1, |s|
  {
    if s == [] then
      if Filled(d, st) && AllSeen(d, st.seen) then Some(st.slots) else None
    else
      var t := Read32(s);
      if t.Failed? || t.value / 8 == 0 then None
      else
        var i := FindField(d, t.value / 8);
        if i.None? then
          var p := SkipField(t.value % 8, t.rest);
          if p.Failed? then None else DecodeLoop(d, st, p.rest)
        else
          var p := DecodeKnown(d, st, i.value, t.value % 8, t.rest);
          if p.Failed? then None else DecodeLoop(d, p.value, p.rest)
  }

  /** A whole message decoded over the initial contents `init`. */
  function DecodeMsg(d: Desc, init: seq<Slot>, s: seq<byte>): (r: Option<seq<Slot>>)
    ensures r.Some? ==> |r.value| == |d.fields|
    decreases d, 2, 0
  {
    if |init| != |d.fields| then None else DecodeLoop(d, Progress(init, {}, None), s)
  }
}
