/** The output stream and the integer encoders that write to it. */
module OutputStream {
  import opened Basics
  import opened Varints
  import opened Messages

  /**
  A stream that only counts (`sizing`, a null callback) or one that stores into a buffer of `maxSize` bytes.
  `state` is what has been stored behind the buffer pointer.
  */
  class OStream {
    var sizing: bool
    var state: seq<byte>
    var maxSize: nat
    var bytesWritten: nat

    constructor Sizing()
      ensures sizing && state == [] && bytesWritten == 0
    {
      sizing, state, maxSize, bytesWritten := true, [], 0, 0;
    }

    constructor FromBuffer(bufsize: nat)
      ensures !sizing && state == [] && maxSize == bufsize && bytesWritten == 0
    {
      sizing, state, maxSize, bytesWritten := false, [], bufsize, 0;
    }

    predicate HasRoom(n: nat)
      reads this
    {
      sizing || n == 0 || bytesWritten + n <= maxSize
    }

    /**
    The contract of every encoder: it succeeds exactly when the value has an encoding and the encoding
    fits, and then it has counted, and unless it is only sizing stored, precisely that encoding.
    */
    twostate predicate Emits(new code: Option<seq<byte>>, ok: bool)
      reads this
    {
      && sizing == old(sizing) && maxSize == old(maxSize)
      && (ok <==> code.Some? && old(HasRoom(|code.value|)))
      && (ok ==> bytesWritten == old(bytesWritten) + |code.value|)
      && (ok ==> state == old(state) + if sizing then [] else code.value)
    }

    method Write(buf: seq<byte>) returns (ok: bool)
      modifies this
      ensures Emits(Some(buf), ok)
      ensures ok <==> sizing || buf == [] || old(bytesWritten) + |buf| <= maxSize
      ensures ok ==> bytesWritten == old(bytesWritten) + |buf| && state == if sizing then old(state) else old(state) + buf
    {
      if |buf| > 0 && !sizing {
        if bytesWritten + |buf| > maxSize {
          return false;
        }
        state := state + buf;
      }
      bytesWritten := bytesWritten + |buf|;
      assert !sizing && buf == [] ==> state == old(state) + buf;
      return true;
    }

    /** What `2^(32 - 7 i)` and the bound on the low word are once `i` groups are out. */
    static function HighWeight(i: nat): nat
    {
      if i == 0 then 0x1_0000_0000 else if i == 1 then 0x200_0000 else if i == 2 then 0x4_0000 else if i == 3 then 0x800 else 16
    }

    static function LowBound(i: nat): nat
    {
      if i == 0 then 0x200_0000 else if i == 1 then 0x4_0000 else if i == 2 then 0x800 else if i == 3 then 16 else 1
    }

    static function HighBound(i: nat): nat
    {
      if i == 4 then 0x2000_0000 else if i == 5 then 0x40_0000 else if i == 6 then 0x8000
      else if i == 7 then 0x100 else if i == 8 then 2 else 1
    }

    /** One more group of the canonical form. */
    static lemma VarintGroup(prefix: seq<byte>, group: nat, more: nat)
      requires group < 128 && more > 0
      ensures prefix + Varint(group + 128 * more) == prefix + [group + 128] + Varint(more)
    {
      assert (group + 128 * more) / 128 == more && (group + 128 * more) % 128 == group;
      assert prefix + ([group + 128] + Varint(more)) == prefix + [group + 128] + Varint(more);
    }

    /** The groups of the low word, as long as something is left to send after them. */
    static method LowGroups(buffer: array<byte>, low0: nat, high: nat) returns (i: nat, group: int)
      requires low0 < TWO_32 && high < TWO_32 && buffer.Length == 10
      modifies buffer
      ensures i <= 4 && (high != 0 ==> i == 4) && 0 <= group < if i == 4 then 16 else 128
      ensures Varint(low0 + 0x1_0000_0000 * high) == buffer[..i] + Varint(group + 16 * high)
    {
      hide Varint;
      var low := low0 / 128;
      i, group := 0, low0 % 128;
      assert buffer[..0] == [];
      while i < 4 && (low != 0 || high != 0)
        invariant 0 <= i <= 4 && 0 <= low < LowBound(i)
        invariant 0 <= group < if i == 4 then 16 else 128
        invariant Varint(low0 + 0x1_0000_0000 * high) == buffer[..i] + Varint(group + 128 * low + HighWeight(i) * high)
        decreases 4 - i
      {
        VarintGroup(buffer[..i], group, low + HighWeight(i + 1) * high);
        buffer[i] := group + 128;
        i := i + 1;
        group := low % 128;
        low := low / 128;
      }
    }

    /** The groups of the high word; `group` is the one that straddles. */
    static method HighGroups(buffer: array<byte>, group0: nat, high0: nat, ghost code: seq<byte>)
      returns (i: nat, group: int)
      requires group0 < 16 && 0 < high0 < TWO_32 && buffer.Length == 10
      requires code == buffer[..4] + Varint(group0 + 16 * high0)
      modifies buffer
      ensures i <= 9 && 0 <= group < 128 && code == buffer[..i] + Varint(group)
    {
      hide Varint;
      i, group := 4, group0 + high0 % 8 * 16;
      var high := high0 / 8;
      while high != 0
        invariant 4 <= i <= 9 && 0 <= high < HighBound(i) && 0 <= group < 128
        invariant code == buffer[..i] + Varint(group + 128 * high)
        decreases high
      {
        VarintGroup(buffer[..i], group, high);
        buffer[i] := group + 128;
        i := i + 1;
        group := high % 128;
        high := high / 128;
      }
    }

    /** The encoder without 64-bit shifts: four groups of the low word, one that straddles, the rest of the high word. */
    method EncodeVarint32(low: nat, high: nat) returns (ok: bool)
      requires low < TWO_32 && high < TWO_32
      modifies this
      ensures Emits(Some(Varint(low + 0x1_0000_0000 * high)), ok)
    {
      hide Varint;
      ghost var code := Varint(low + 0x1_0000_0000 * high);
      var buffer := new byte[10];
      var i, group := LowGroups(buffer, low, high);
      if high != 0 {
        i, group := HighGroups(buffer, group, high, code);
      }
      VarintSingle(group);
      buffer[i] := group;
      i := i + 1;
      assert code == buffer[..i];
      ok := Write(buffer[..i]);
    }

    static lemma VarintSingle(group: byte)
      requires group < 128
      ensures Varint(group) == [group]
    {
    }

    method EncodeVarint(value: nat) returns (ok: bool)
      requires value < TWO_64
      modifies this
      ensures Emits(Some(Varint(value)), ok)
    {
      if value <= 0x7F {
        ok := Write([value]);
      } else {
        ok := EncodeVarint32(value % 0x1_0000_0000, value / 0x1_0000_0000);
      }
    }

    /** Zigzag by masking, shifting and complementing the two's complement word. */
    method EncodeSvarint(value: int) returns (ok: bool)
      requires -TWO_63 <= value < TWO_63
      modifies this
      ensures Emits(Some(Varint(ZigZag(value))), ok)
    {
      var zigzagged;
      if value < 0 {
        var masked := (0x1_0000_0000_0000_0000 + value) % 0x8000_0000_0000_0000;
        zigzagged := 0xFFFF_FFFF_FFFF_FFFF - masked * 2;
      } else {
        zigzagged := value * 2;
      }
      ok := EncodeVarint(zigzagged);
    }

    method EncodeFixed32(value: nat) returns (ok: bool)
      requires value < TWO_32
      modifies this
      ensures Emits(Some(LittleEndian(value, 4)), ok)
    {
      var bytes: seq<byte> := [value % 256, value / 0x100 % 256, value / 0x1_0000 % 256, value / 0x100_0000 % 256];
      assert LittleEndian(value, 4) == bytes by {
        assert LittleEndian(value / 0x1_0000, 2) == [value / 0x1_0000 % 256, value / 0x100_0000 % 256];
      }
      ok := Write(bytes);
    }

    method EncodeFixed64(value: nat) returns (ok: bool)
      requires value < TWO_64
      modifies this
      ensures Emits(Some(LittleEndian(value, 8)), ok)
    {
      var bytes: seq<byte> := [
        value % 256, value / 0x100 % 256, value / 0x1_0000 % 256, value / 0x100_0000 % 256,
        value / 0x1_0000_0000 % 256, value / 0x100_0000_0000 % 256,
        value / 0x1_0000_0000_0000 % 256, value / 0x100_0000_0000_0000 % 256];
      LittleEndianSplit(value);
      ok := Write(bytes);
    }

    static lemma LittleEndianPair(v: nat, n: nat)
      ensures LittleEndian(v, n + 2) == [v % 256, v / 0x100 % 256] + LittleEndian(v / 0x1_0000, n)
    {
      assert v / 0x100 / 0x100 == v / 0x1_0000;
    }

    static lemma LittleEndianSplit(value: nat)
      ensures LittleEndian(value, 8) == [
        value % 256, value / 0x100 % 256, value / 0x1_0000 % 256, value / 0x100_0000 % 256,
        value / 0x1_0000_0000 % 256, value / 0x100_0000_0000 % 256,
        value / 0x1_0000_0000_0000 % 256, value / 0x100_0000_0000_0000 % 256]
    {
      hide LittleEndian;
      Quotients(value);
      LittleEndianPair(value, 6);
      LittleEndianPair(value / 0x1_0000, 4);
      LittleEndianPair(value / 0x1_0000_0000, 2);
      LittleEndianPair(value / 0x1_0000_0000_0000, 0);
      assert LittleEndian(value / 0x1_0000_0000_0000 / 0x1_0000, 0) == [];
    }

    static lemma Quotients(v: nat)
      ensures v / 0x1_0000 / 0x1_0000 == v / 0x1_0000_0000
      ensures v / 0x1_0000_0000 / 0x1_0000 == v / 0x1_0000_0000_0000
      ensures v / 0x1_0000 / 0x100 == v / 0x100_0000
      ensures v / 0x1_0000_0000 / 0x100 == v / 0x100_0000_0000
      ensures v / 0x1_0000_0000_0000 / 0x100 == v / 0x100_0000_0000_0000
    {
    }

    method EncodeTag(wireType: nat, fieldNumber: nat) returns (ok: bool)
      requires wireType < 8 && fieldNumber < TWO_32
      modifies this
      ensures Emits(Some(Tag(wireType, fieldNumber)), ok)
    {
      ok := EncodeVarint(fieldNumber * 8 + wireType);
    }

    method EncodeString(buffer: seq<byte>) returns (ok: bool)
      requires |buffer| < TWO_64
      modifies this
      ensures Emits(Some(Delimited(buffer)), ok)
    {
      ok := EncodeVarint(|buffer|);
      if ok {
        ok := Write(buffer);
      }
    }
  }
}
