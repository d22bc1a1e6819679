/** The input stream over a buffer, its length-limited substreams, and the integer decoders. */
module InputStream {
  import opened Basics
  import opened Varints
  import opened Messages

  /** `pos` is the stream's buffer pointer, `bytesLeft` how far it may still be read. */
  class IStream {
    const data: seq<byte>
    var pos: nat
    var bytesLeft: nat

    constructor FromBuffer(buf: seq<byte>)
      ensures Valid() && data == buf && Rest() == buf
    {
      data, pos, bytesLeft := buf, 0, |buf|;
    }

    constructor Limited(parent: IStream, size: nat)
      requires parent.Valid() && size <= parent.bytesLeft
      ensures Valid() && data == parent.data && pos == parent.pos && bytesLeft == size
    {
      data, pos, bytesLeft := parent.data, parent.pos, size;
    }

    predicate Valid()
      reads this
    {
      pos + bytesLeft <= |data|
    }

    function Rest(): (s: seq<byte>)
      requires Valid()
      reads this
      ensures |s| == bytesLeft
    {
      data[pos..pos + bytesLeft]
    }

    /** The contract of every reader: it does to the rest of the stream what the pure reader does to a string. */
    twostate predicate Reads<T>(new p: Parse<T>, ok: bool, new v: T)
      reads this
    {
      && old(Valid()) && Valid()
      && (ok <==> p.Parsed?)
      && (ok ==> v == p.value && Rest() == p.rest && pos + bytesLeft == old(pos + bytesLeft))
    }

    method ReadByte() returns (ok: bool, b: byte)
      requires Valid()
      modifies this
      ensures Valid() && (ok <==> old(Rest()) != [])
      ensures ok ==> [b] + Rest() == old(Rest()) && pos + bytesLeft == old(pos + bytesLeft)
    {
      if bytesLeft == 0 {
        return false, 0;
      }
      b := data[pos];
      pos, bytesLeft := pos + 1, bytesLeft - 1;
      return true, b;
    }

    method Read(count: nat) returns (ok: bool, buf: seq<byte>)
      requires Valid()
      modifies this
      ensures Reads(ReadBytes(old(Rest()), count), ok, buf)
      ensures ok <==> count <= old(bytesLeft)
      ensures ok ==> pos == old(pos) + count && bytesLeft == old(bytesLeft) - count && buf == data[old(pos)..pos]
    {
      if count == 0 {
        assert Rest()[..0] == [] && Rest()[0..] == Rest();
        return true, [];
      }
      if bytesLeft < count {
        return false, [];
      }
      buf := data[pos..pos + count];
      assert buf == Rest()[..count];
      pos, bytesLeft := pos + count, bytesLeft - count;
      assert Rest() == old(Rest())[count..];
      return true, buf;
    }

    /** Accumulates seven bits a byte; from bit 63 on only a last 0 or 1 is accepted. */
    method DecodeVarint() returns (ok: bool, dest: nat)
      requires Valid()
      modifies this
      ensures Reads(Read64(old(Rest()), 0), ok, dest)
    {
      var result: nat, bitpos: nat, weight: nat := 0, 0, 1;  // weight is 1 << bitpos
      ghost var all := Read64(Rest(), 0);
      hide Scaled, Times;
      ScaledUnit(all);
      while true
        invariant Valid() && pos + bytesLeft == old(pos + bytesLeft)
        invariant all == Scaled(result, weight, Read64(Rest(), bitpos))
        decreases bytesLeft
      {
        ghost var before := Rest();
        var got, b := ReadByte();
        ScaledEnds(result, weight, b, Rest());
        if !got || (bitpos >= 63 && b > 1) {
          return false, 0;
        }
        assert before[0] == b && before[1..] == Rest();
        if b < 128 {
          return true, result + Times(weight, b);
        }
        ScaledStep(result, weight, b, Read64(Rest(), bitpos + 7));
        result := result + Times(weight, b - 128);
        bitpos, weight := bitpos + 7, 128 * weight;
      }
    }

    /** The seven bits `x` shifted to where the word is filled next. */
    static function Times(weight: nat, x: nat): nat
    {
      weight * x
    }

    static ghost function Scaled(low: nat, weight: nat, p: Parse<nat>): Parse<nat>
    {
      if p.Failed? then Failed else Parsed(low + weight * p.value, p.rest)
    }

    static lemma ScaledUnit(p: Parse<nat>)
      ensures Scaled(0, 1, p) == p
    {
    }

    static lemma ScaledEnds(low: nat, weight: nat, b: byte, rest: seq<byte>)
      ensures Scaled(low, weight, Failed) == Failed
      ensures Scaled(low, weight, Parsed(b, rest)) == Parsed(low + Times(weight, b), rest)
    {
    }

    static lemma ScaledStep(low: nat, weight: nat, b: byte, tail: Parse<nat>)
      requires b >= 128
      ensures Scaled(low, weight, if tail.Failed? then Failed else Parsed(b - 128 + 128 * tail.value, tail.rest))
        == Scaled(low + Times(weight, b - 128), 128 * weight, tail)
    {
    }

    /** The 32-bit reader; `eof` reports that the stream ended before the first byte. */
    method DecodeVarint32Eof() returns (ok: bool, dest: nat, eof: bool)
      requires Valid()
      modifies this
      ensures Reads(Read32(old(Rest())), ok, dest)
      ensures eof <==> old(Rest()) == []
    {
      ghost var start := Rest();
      var got, b := ReadByte();
      if !got {
        return false, 0, true;
      }
      assert start[0] == b && start[1..] == Rest();
      if b < 128 {
        return true, b, false;
      }
      ghost var all := Read32(start);
      var result: nat, bitpos: nat := b - 128, 7;
      while true
        invariant Valid() && pos + bytesLeft == old(pos + bytesLeft)
        invariant all == Read32Tail(Rest(), bitpos, result)
        decreases bytesLeft
      {
        ghost var before := Rest();
        got, b := ReadByte();
        if !got {
          return false, 0, false;
        }
        assert before[0] == b && before[1..] == Rest();
        var next := Step32(b, bitpos, result);
        if next.None? {
          return false, 0, false;
        }
        result, bitpos := next.value, bitpos + 7;
        if b < 128 {
          return true, result, false;
        }
      }
    }

    method DecodeVarint32() returns (ok: bool, dest: nat)
      requires Valid()
      modifies this
      ensures Reads(Read32(old(Rest())), ok, dest)
    {
      var eof;
      ok, dest, eof := DecodeVarint32Eof();
    }

    static function Word(b0: int, b1: int, b2: int, b3: int): int
    {
      b0 + b1 * 0x100 + b2 * 0x1_0000 + b3 * 0x100_0000
    }

    method DecodeFixed32() returns (ok: bool, dest: nat)
      requires Valid()
      modifies this
      ensures Reads(DecodeFixed(ReadBytes(old(Rest()), 4)), ok, Num(dest))
    {
      var u;
      dest := 0;
      ok, u := Read(4);
      if ok {
        dest := Word(u[0], u[1], u[2], u[3]);
        LittleEndianWord(u);
      }
    }

    static lemma LittleEndianWord(u: seq<byte>)
      requires |u| == 4
      ensures FromLittleEndian(u) == Word(u[0], u[1], u[2], u[3])
    {
      assert u[2..][1..] == u[3..] && u[1..][1..] == u[2..];
      assert FromLittleEndian(u[3..]) == u[3] by { assert u[3..][1..] == []; }
      assert FromLittleEndian(u[2..]) == u[2] + 256 * FromLittleEndian(u[3..]);
      assert FromLittleEndian(u[1..]) == u[1] + 256 * FromLittleEndian(u[2..]);
    }

    method DecodeFixed64() returns (ok: bool, dest: nat)
      requires Valid()
      modifies this
      ensures Reads(DecodeFixed(ReadBytes(old(Rest()), 8)), ok, Num(dest))
    {
      var u;
      dest := 0;
      ok, u := Read(8);
      if ok {
        dest := Word(u[0], u[1], u[2], u[3]) + Word(u[4], u[5], u[6], u[7]) * 0x1_0000_0000;
        LittleEndianWords(u);
      }
    }

    static lemma LittleEndianWords(u: seq<byte>)
      requires |u| == 8
      ensures FromLittleEndian(u) == Word(u[0], u[1], u[2], u[3]) + Word(u[4], u[5], u[6], u[7]) * 0x1_0000_0000
    {
      LittleEndianWord(u[4..]);
      assert u[1..][1..] == u[2..] && u[2..][1..] == u[3..] && u[3..][1..] == u[4..];
      assert FromLittleEndian(u[3..]) == u[3] + 256 * FromLittleEndian(u[4..]);
      assert FromLittleEndian(u[2..]) == u[2] + 256 * FromLittleEndian(u[3..]);
      assert FromLittleEndian(u[1..]) == u[1] + 256 * FromLittleEndian(u[2..]);
    }

    method SkipVarintBytes() returns (ok: bool)
      requires Valid()
      modifies this
      ensures Reads(SkipVarint(old(Rest())), ok, ())
    {
      ghost var all := SkipVarint(Rest());
      while true
        invariant Valid() && pos + bytesLeft == old(pos + bytesLeft)
        invariant all == SkipVarint(Rest())
        decreases bytesLeft
      {
        ghost var before := Rest();
        var got, b := ReadByte();
        if !got {
          return false;
        }
        assert before[0] == b && before[1..] == Rest();
        if b < 128 {
          return true;
        }
      }
    }

    method SkipFieldBytes(wireType: nat) returns (ok: bool)
      requires Valid()
      modifies this
      ensures Reads(SkipField(wireType, old(Rest())), ok, ())
    {
      var skipped;
      if wireType == WT_VARINT {
        ok := SkipVarintBytes();
      } else if wireType == WT_64BIT {
        ok, skipped := Read(8);
      } else if wireType == WT_STRING {
        var length;
        ok, length := DecodeVarint32();
        if ok {
          ok, skipped := Read(length);
        }
      } else if wireType == WT_32BIT {
        ok, skipped := Read(4);
      } else {
        ok := false;
      }
    }

    /** A substream limited to the next delimited record; this stream's count already excludes it, its pointer not yet. */
    method MakeStringSubstream() returns (ok: bool, substream: IStream)
      requires Valid()
      modifies this
      ensures Valid() && substream.Valid() && fresh(substream)
      ensures ok <==> ReadDelimited(old(Rest())).Parsed?
      ensures ok ==>
        && substream.data == data && substream.Rest() == ReadDelimited(old(Rest())).value
        && pos == substream.pos && pos + substream.bytesLeft + bytesLeft == old(pos + bytesLeft)
        && data[pos + substream.bytesLeft..][..bytesLeft] == ReadDelimited(old(Rest())).rest
    {
      var size;
      ok, size := DecodeVarint32();
      if !ok || bytesLeft < size {
        ok := false;
        substream := new IStream.Limited(this, 0);
        return;
      }
      ghost var after := Rest();
      substream := new IStream.Limited(this, size);
      bytesLeft := bytesLeft - size;
      assert substream.Rest() == after[..size];
      assert data[pos + size..][..bytesLeft] == after[size..];
    }

    /** Skips what the substream left unread and takes over its pointer. */
    method CloseStringSubstream(substream: IStream, ghost end: nat)
      requires Valid() && substream.Valid() && substream != this && substream.data == data
      requires end == substream.pos + substream.bytesLeft && end + bytesLeft <= |data|
      modifies this, substream
      ensures Valid() && pos == end && bytesLeft == old(bytesLeft)
      ensures Rest() == data[end..][..bytesLeft]
    {
      if substream.bytesLeft > 0 {
        var ok, skipped := substream.Read(substream.bytesLeft);
      }
      pos := substream.pos;
    }
  }
}
