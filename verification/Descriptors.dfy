/**
Field descriptors packed into one, two, four or eight 32-bit words, and the iterator that walks and
searches them.
*/
module Descriptors {

  /** What a descriptor says of a field; `sizeOffset` is the two's complement of a signed offset. */
  datatype FieldInfo = FieldInfo(tag: bv32, typ: bv32, dataOffset: bv32, dataSize: bv32, sizeOffset: bv32, arraySize: bv32)

  /** The conversion to `int_least8_t` and back. */
  function SignedByte(x: bv32): bv32
  {
    if x & 0x80 != 0 then (x & 0xFF) | 0xFFFF_FF00 else x & 0xFF
  }

  /** The words of a descriptor of the given width. */
  function Pack(width: nat, f: FieldInfo): (words: seq<bv32>)
    requires width in {1, 2, 4, 8}
    ensures |words| == width
  {
    var head := ((f.tag << 2) & 0xFF) | (f.typ << 8);
    var split := SignedByte(f.sizeOffset) | ((f.tag << 2) & 0xFFFF_FF00);
    if width == 1 then
      [0 | head | ((f.dataOffset & 0xFF) << 16) | ((f.sizeOffset & 0x0F) << 24) | ((f.dataSize & 0x0F) << 28)]
    else if width == 2 then
      [1 | head | ((f.arraySize & 0xFFF) << 16) | ((f.sizeOffset & 0x0F) << 28),
       (f.dataOffset & 0xFFFF) | ((f.dataSize & 0xFFF) << 16) | ((f.tag & 0x3C0) << 22)]
    else if width == 4 then
      [2 | head | ((f.arraySize & 0xFFFF) << 16), split, f.dataOffset, f.dataSize]
    else
      [3 | head, split, f.dataOffset, f.dataSize, f.arraySize, 0, 0, 0]
  }

  /** The compile-time assertions on the parts of a descriptor (16-bit `pb_size_t`). */
  predicate Asserted(width: nat, f: FieldInfo)
  {
    if width == 1 then
      f.tag < 0x40 && f.dataOffset < 0x100 && f.sizeOffset < 0x10 && f.dataSize < 0x10 && f.arraySize < 2
    else if width == 2 then
      f.tag < 0x400 && f.dataOffset < 0x1_0000 && f.sizeOffset < 0x10 && f.dataSize < 0x1000 && f.arraySize < 0x1000
    else
      && f.tag < 0x1_0000 && f.dataOffset < 0x1_0000 && SignedByte(f.sizeOffset) < 0x100
      && f.dataSize < 0x1_0000 && f.arraySize < 0x1_0000
  }

  /** The width of the descriptor that starts with `word0`. */
  function Width(word0: bv32): (w: nat)
    ensures w in {1, 2, 4, 8}
  {
    var code := word0 & 3;
    if code == 0 then 1 else if code == 1 then 2 else if code == 2 then 4 else 8
  }

  /** The descriptor at the head of `words`, unpacked. */
  function Unpack(words: seq<bv32>): FieldInfo
    requires words != [] && Width(words[0]) <= |words|
  {
    var word0 := words[0];
    var typ := (word0 >> 8) & 0xFF;
    if word0 & 3 == 0 then
      FieldInfo((word0 >> 2) & 0x3F, typ, (word0 >> 16) & 0xFF, (word0 >> 28) & 0x0F, (word0 >> 24) & 0x0F, 1)
    else if word0 & 3 == 1 then
      FieldInfo(((word0 >> 2) & 0x3F) | ((words[1] >> 28) << 6), typ, words[1] & 0xFFFF,
                (words[1] >> 16) & 0x0FFF, (word0 >> 28) & 0x0F, (word0 >> 16) & 0x0FFF)
    else
      var tag := (((word0 >> 2) & 0x3F) | ((words[1] >> 8) << 6)) & 0xFFFF;
      var sizeOffset := SignedByte(words[1] & 0xFF);
      FieldInfo(tag, typ, words[2], words[3] & 0xFFFF, sizeOffset,
                (if word0 & 3 == 2 then word0 >> 16 else words[4]) & 0xFFFF)
  }

  /** The bits of `w` from bit `from` on. */
  function Bits(w: bv32, from: bv6, mask: bv32): bv32
    requires from < 32
  {
    (w >> from) & mask
  }

  /** Where everything stands in a one-word descriptor, from the lowest bit on: 2 bits of format, 6 of tag, 8
      of type, 8 of data offset, 4 of size offset and 4 of data size. */
  lemma LayoutOne(f: FieldInfo)
    requires Asserted(1, f) && f.typ < 0x100
    ensures var w := Pack(1, f)[0];
      && Bits(w, 0, 0x3) == 0 && Bits(w, 2, 0x3F) == f.tag && Bits(w, 8, 0xFF) == f.typ
      && Bits(w, 16, 0xFF) == f.dataOffset && Bits(w, 24, 0xF) == f.sizeOffset && Bits(w, 28, 0xF) == f.dataSize
  {
  }

  /** Two words: format, low tag bits, type, 12 bits of array size and 4 of size offset; then 16 of data offset,
      12 of data size and 4 more of tag. */
  lemma LayoutTwo(f: FieldInfo)
    requires Asserted(2, f) && f.typ < 0x100
    ensures var w := Pack(2, f)[0];
      && w & 0x3 == 1 && Bits(w, 2, 0x3F) == f.tag & 0x3F && Bits(w, 8, 0xFF) == f.typ
      && Bits(w, 16, 0xFFF) == f.arraySize && Bits(w, 28, 0xF) == f.sizeOffset
    ensures var w := Pack(2, f)[1];
      w & 0xFFFF == f.dataOffset && Bits(w, 16, 0xFFF) == f.dataSize && w >> 28 == f.tag >> 6
  {
    hide TwoWord0, TwoWord1, Pack, Asserted;
    TwoFirst(f);
    TwoSecond(f);
    TwoTag(f);
  }

  lemma TwoTag(f: FieldInfo)
    requires Asserted(2, f)
    ensures TwoWord1(f) >> 28 == f.tag >> 6
  {
  }

  /** Four words: format, low tag bits, type and 16 bits of array size; 8 of size offset and 24 more of tag;
      data offset; data size. */
  lemma LayoutFour(f: FieldInfo)
    requires Asserted(4, f) && f.typ < 0x100
    ensures var w := Pack(4, f)[0];
      && Bits(w, 0, 0x3) == 2 && Bits(w, 2, 0x3F) == f.tag & 0x3F && Bits(w, 8, 0xFF) == f.typ
      && Bits(w, 16, 0xFFFF) == f.arraySize
    ensures var w := Pack(4, f)[1]; Bits(w, 0, 0xFF) == f.sizeOffset & 0x7F && Bits(w, 8, 0xFF_FFFF) == f.tag >> 6
    ensures Pack(4, f)[2] == f.dataOffset && Pack(4, f)[3] == f.dataSize
  {
  }

  /** Eight words: the same with the array size in a word of its own, and three words to spare. */
  lemma LayoutEight(f: FieldInfo)
    requires Asserted(8, f) && f.typ < 0x100
    ensures var w := Pack(8, f)[0];
      Bits(w, 0, 0x3) == 3 && Bits(w, 2, 0x3F) == f.tag & 0x3F && Bits(w, 8, 0xFF) == f.typ && Bits(w, 16, 0xFFFF) == 0
    ensures Pack(8, f)[1..4] == Pack(4, f)[1..]
    ensures Pack(8, f)[4..] == [f.arraySize, 0, 0, 0]
  {
  }

  /** The part of `Asserted` that is missing from it. */
  predicate Faithful(width: nat, f: FieldInfo)
  {
    if width == 1 then f.arraySize == 1 else if width == 2 then true else f.sizeOffset < 0x80
  }

  lemma UnpackNarrow(width: nat, f: FieldInfo)
    requires (width == 1 || width == 2) && Asserted(width, f) && f.typ < 0x100
    ensures Width(Pack(width, f)[0]) == width
    ensures Unpack(Pack(width, f)) == f.(arraySize := if width == 1 then 1 else f.arraySize)
  {
    if width == 1 { UnpackOne(f); } else { UnpackTwo(f); }
    hide Pack, Unpack, Width;
  }

  lemma UnpackOne(f: FieldInfo)
    requires Asserted(1, f) && f.typ < 0x100
    ensures Width(Pack(1, f)[0]) == 1 && Unpack(Pack(1, f)) == f.(arraySize := 1)
  {
  }

  lemma UnpackTwo(f: FieldInfo)
    requires Asserted(2, f) && f.typ < 0x100
    ensures Width(Pack(2, f)[0]) == 2 && Unpack(Pack(2, f)) == f
  {
    hide TwoWord0, TwoWord1, Pack, Asserted;
    TwoFirst(f);
    TwoSecond(f);
  }

  function TwoWord0(f: FieldInfo): bv32 {
    1 | (((f.tag << 2) & 0xFF) | (f.typ << 8)) | ((f.arraySize & 0xFFF) << 16) | ((f.sizeOffset & 0x0F) << 28)
  }

  function TwoWord1(f: FieldInfo): bv32 {
    (f.dataOffset & 0xFFFF) | ((f.dataSize & 0xFFF) << 16) | ((f.tag & 0x3C0) << 22)
  }

  lemma TwoFirst(f: FieldInfo)
    requires Asserted(2, f) && f.typ < 0x100
    ensures var w := TwoWord0(f);
      && Pack(2, f)[0] == w && w & 3 == 1 && (w >> 8) & 0xFF == f.typ && (w >> 2) & 0x3F == f.tag & 0x3F
      && (w >> 28) & 0x0F == f.sizeOffset && (w >> 16) & 0x0FFF == f.arraySize
  {
  }

  lemma TwoSecond(f: FieldInfo)
    requires Asserted(2, f)
    ensures var w := TwoWord1(f);
      && Pack(2, f)[1] == w && w & 0xFFFF == f.dataOffset && (w >> 16) & 0x0FFF == f.dataSize
      && (f.tag & 0x3F) | ((w >> 28) << 6) == f.tag
  {
  }

  lemma UnpackWide(width: nat, f: FieldInfo)
    requires (width == 4 || width == 8) && Asserted(width, f) && f.typ < 0x100
    ensures Width(Pack(width, f)[0]) == width
    ensures Unpack(Pack(width, f)) == f.(sizeOffset := f.sizeOffset & 0x7F)
    ensures (f.sizeOffset & 0x7F == f.sizeOffset) <==> f.sizeOffset < 0x80
  {
  }

  /**
  Unpacking undoes packing exactly when the array size of a one-word descriptor is 1 and the size
  offset of a four- or eight-word one is below 128: the compile-time assertions do not ensure either.
  */
  lemma UnpackPack(width: nat, f: FieldInfo)
    requires width in {1, 2, 4, 8} && Asserted(width, f) && f.typ < 0x100
    ensures Width(Pack(width, f)[0]) == width
    ensures Unpack(Pack(width, f)) == f <==> Faithful(width, f)
  {
    hide Pack, Unpack, Width;
    if width == 1 || width == 2 {
      UnpackNarrow(width, f);
    } else {
      UnpackWide(width, f);
    }
  }

  /** What passes the assertions and is not read back: in the wide formats exactly the size offsets of 256
      or more (their low byte is then below 128), in the one-word format exactly an array size of 0. */
  lemma LostIff(width: nat, f: FieldInfo)
    requires width in {1, 2, 4, 8} && Asserted(width, f) && f.typ < 0x100
    ensures Unpack(Pack(width, f)) != f <==> (width >= 4 && f.sizeOffset >= 0x100) || (width == 1 && f.arraySize == 0)
    ensures width >= 4 ==> f.sizeOffset & 0xFF < 0x80
  {
    UnpackPack(width, f);
    hide Pack, Unpack;
  }

  /** A size offset of 261 passes the assertion, which looks at its low byte only, and is read back as 5. */
  lemma SizeOffsetLost()
    ensures var f := FieldInfo(1, 0, 300, 4, 261, 1);
      Asserted(4, f) && Unpack(Pack(4, f)).sizeOffset == 5 && Unpack(Pack(4, f)) != f
  {
  }

  /** Every format keeps the width, the low tag bits and the type in the same places of the first word. */
  lemma FirstWord(width: nat, f: FieldInfo)
    requires width in {1, 2, 4, 8} && f.typ < 0x100
    ensures (Pack(width, f)[0] >> 2) & 0x3F == f.tag & 0x3F
    ensures (Pack(width, f)[0] >> 8) & 0xFF == f.typ
  {
  }
}
