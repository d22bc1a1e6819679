/** The iterator over packed field descriptors. */
module FieldIterator {
  import opened Descriptors

  datatype Entry = Entry(width: nat, info: FieldInfo)

  predicate IsRequired(typ: bv32)
  {
    typ & 0x30 == 0
  }

  predicate IsSubmessage(typ: bv32)
  {
    typ & 0x0F == 0x08 || typ & 0x0F == 0x09
  }

  predicate IsExtension(typ: bv32)
  {
    typ & 0x0F == 0x0A
  }

  /** The constants the generator emits for a message: packed words, and the counts beside them. */
  datatype Descriptor = Descriptor(fieldInfo: seq<bv32>, fieldCount: nat, largestTag: bv32)

  function WordsBefore(fields: seq<Entry>, i: nat): nat
    requires i <= |fields|
  {
    if i == 0 then 0 else WordsBefore(fields, i - 1) + fields[i - 1].width
  }

  function RequiredIndex(fields: seq<Entry>, i: nat): nat
    requires i <= |fields|
  {
    if i == 0 then 0 else RequiredIndex(fields, i - 1) + if IsRequired(fields[i - 1].info.typ) then 1 else 0
  }

  function SubmessageIndex(fields: seq<Entry>, i: nat): nat
    requires i <= |fields|
  {
    if i == 0 then 0 else SubmessageIndex(fields, i - 1) + if IsSubmessage(fields[i - 1].info.typ) then 1 else 0
  }

  /** All descriptors in order and a closing zero. */
  function Bind(fields: seq<Entry>): seq<bv32>
    requires forall i | 0 <= i < |fields| :: fields[i].width in {1, 2, 4, 8}
  {
    Words(fields, |fields|) + [0]
  }

  function Words(fields: seq<Entry>, n: nat): (w: seq<bv32>)
    requires n <= |fields| && forall i | 0 <= i < |fields| :: fields[i].width in {1, 2, 4, 8}
    ensures |w| == WordsBefore(fields, n)
  {
    if n == 0 then [] else Words(fields, n - 1) + Pack(fields[n - 1].width, fields[n - 1].info)
  }

  predicate Less(a: bv32, b: bv32)
  {
    a < b
  }

  /** What the generator and its compile-time assertions guarantee of a message's fields. */
  ghost predicate Bindable(fields: seq<Entry>)
  {
    && |fields| < 0xFFFF
    && (forall i | 0 <= i < |fields| ::
          && fields[i].width in {1, 2, 4, 8} && fields[i].info.typ < 0x100 && fields[i].info.tag != 0
          && Asserted(fields[i].width, fields[i].info) && Faithful(fields[i].width, fields[i].info))
    && (forall i, j | 0 <= i < j < |fields| :: Less(fields[i].info.tag, fields[j].info.tag))
  }

  ghost predicate Describes(d: Descriptor, fields: seq<Entry>)
  {
    && Bindable(fields)
    && d.fieldInfo == Bind(fields)
    && d.fieldCount == |fields|
    && d.largestTag == if fields == [] then 0 else fields[|fields| - 1].info.tag
  }

  lemma {:induction false} WordsPrefix(fields: seq<Entry>, i: nat, n: nat)
    requires i < n <= |fields| && forall i | 0 <= i < |fields| :: fields[i].width in {1, 2, 4, 8}
    ensures WordsBefore(fields, i) + fields[i].width <= WordsBefore(fields, n)
    ensures Words(fields, n)[WordsBefore(fields, i)..][..fields[i].width] == Pack(fields[i].width, fields[i].info)
    decreases n
  {
    hide Pack;
    var at, w := WordsBefore(fields, i), fields[i].width;
    if i < n - 1 {
      WordsPrefix(fields, i, n - 1);
      assert Words(fields, n)[at..][..w] == Words(fields, n - 1)[at..][..w];
    }
  }

  /** The descriptor of field `i` stands at the sum of the widths before it. */
  lemma DescriptorAt(d: Descriptor, fields: seq<Entry>, i: nat)
    requires Describes(d, fields) && i < |fields|
    ensures WordsBefore(fields, i) + fields[i].width < |d.fieldInfo|
    ensures d.fieldInfo[WordsBefore(fields, i)..][..fields[i].width] == Pack(fields[i].width, fields[i].info)
  {
    hide Pack;
    var at, w := WordsBefore(fields, i), fields[i].width;
    WordsPrefix(fields, i, |fields|);
    assert d.fieldInfo[at..][..w] == Words(fields, |fields|)[at..][..w];
  }

  function TypeOf(word0: bv32): bv32
  {
    (word0 >> 8) & 0xFF
  }

  lemma HeadAt(d: Descriptor, fields: seq<Entry>, i: nat)
    requires Describes(d, fields) && i < |fields|
    ensures WordsBefore(fields, i) < |d.fieldInfo|
    ensures Width(d.fieldInfo[WordsBefore(fields, i)]) == fields[i].width
    ensures TypeOf(d.fieldInfo[WordsBefore(fields, i)]) == fields[i].info.typ
  {
    hide Pack, Unpack, Width, Asserted, Faithful, Less;
    var at, f := WordsBefore(fields, i), fields[i];
    DescriptorAt(d, fields, i);
    assert d.fieldInfo[at] == d.fieldInfo[at..][..f.width][0];
    UnpackPack(f.width, f.info);
    FirstWord(f.width, f.info);
  }

  /** The field a search for `tag` is looking for. */
  predicate Matches(e: Entry, tag: bv32)
  {
    e.info.tag == tag && !IsExtension(e.info.typ)
  }

  lemma LessOrder(t: bv32, a: bv32, b: bv32)
    ensures Less(t, a) && (Less(a, b) || a == b) ==> t != b
    ensures Less(b, t) && (Less(a, b) || a == b) ==> a != t
  {
  }

  lemma Ordered(fields: seq<Entry>, i: nat, j: nat, tag: bv32)
    requires Bindable(fields) && i <= j < |fields|
    ensures Less(tag, fields[i].info.tag) ==> !Matches(fields[j], tag)
    ensures Less(fields[j].info.tag, tag) ==> !Matches(fields[i], tag)
  {
    hide IsExtension, Asserted, Faithful, Less;
    LessOrder(tag, fields[i].info.tag, fields[j].info.tag);
  }

  class FieldIter {
    const desc: Descriptor
    ghost const fields: seq<Entry>
    var index: nat
    var fieldInfoIndex: nat
    var requiredFieldIndex: nat
    var submessageIndex: nat
    var info: FieldInfo

    ghost predicate Valid()
      reads this
    {
      Describes(desc, fields) && Positioned() && Loaded()
    }

    /** The three running indexes are the sums over the fields before `index`. */
    ghost predicate Positioned()
      reads this
    {
      && index <= |fields| && (index == |fields| ==> index == 0)
      && fieldInfoIndex == WordsBefore(fields, index)
      && requiredFieldIndex == RequiredIndex(fields, index)
      && submessageIndex == SubmessageIndex(fields, index)
    }

    /** The loaded values are those of the current field; a message without fields reads as all zeros. */
    ghost predicate Loaded()
      reads this
    {
      if fields == [] then info.tag == 0 else index < |fields| && info == fields[index].info
    }

    constructor Begin(desc: Descriptor, ghost fields: seq<Entry>)
      requires Describes(desc, fields)
      ensures Valid() && this.desc == desc && this.fields == fields && index == 0
    {
      this.desc, this.fields := desc, fields;
      index, fieldInfoIndex, requiredFieldIndex, submessageIndex := 0, 0, 0, 0;
      info := FieldInfo(0, 0, 0, 0, 0, 0);
      new;
      var loaded := LoadDescriptorValues();
    }

    method LoadDescriptorValues() returns (ok: bool)
      requires Describes(desc, fields) && Positioned() && (fields == [] ==> info.tag == 0)
      modifies this`info
      ensures Valid() && (ok <==> fields != [])
    {
      hide Pack, Unpack, Width, Asserted, Faithful;
      if index >= desc.fieldCount {
        return false;
      }
      DescriptorAt(desc, fields, index);
      ghost var f := fields[index];
      UnpackPack(f.width, f.info);
      var word0 := desc.fieldInfo[fieldInfoIndex];
      assert word0 == desc.fieldInfo[fieldInfoIndex..][..f.width][0];
      info := Unpack(desc.fieldInfo[fieldInfoIndex..][..Width(word0)]);
      return true;
    }

    /** One field on, restarting past the last; the new descriptor is not loaded yet. */
    method AdvanceIterator()
      requires Describes(desc, fields) && (Positioned() || index >= |fields|)
      modifies this`index, this`fieldInfoIndex, this`requiredFieldIndex, this`submessageIndex
      ensures Positioned()
      ensures index == if old(index) + 1 >= |fields| then 0 else old(index) + 1
    {
      hide Pack, Unpack, Width, Asserted, Faithful, IsRequired, IsSubmessage, TypeOf, Less;
      index := index + 1;
      if index >= desc.fieldCount {
        index, fieldInfoIndex, submessageIndex, requiredFieldIndex := 0, 0, 0, 0;
      } else {
        HeadAt(desc, fields, index - 1);
        var prevDescriptor := desc.fieldInfo[fieldInfoIndex];
        var prevType := TypeOf(prevDescriptor);
        fieldInfoIndex := fieldInfoIndex + Width(prevDescriptor);
        requiredFieldIndex := requiredFieldIndex + if IsRequired(prevType) then 1 else 0;
        submessageIndex := submessageIndex + if IsSubmessage(prevType) then 1 else 0;
      }
    }

    /** True until the iterator wraps around. */
    method Next() returns (more: bool)
      requires Valid()
      modifies this
      ensures Valid() && (more <==> index != 0)
      ensures index == if old(index) + 1 >= |fields| then 0 else old(index) + 1
    {
      AdvanceIterator();
      var loaded := LoadDescriptorValues();
      return index != 0;
    }

    /** The fast check on the low tag bits, and the full one, with the values loaded, if it passes. */
    method CheckCandidate(tag: bv32) returns (matches: bool)
      requires Describes(desc, fields) && Positioned() && fields != []
      modifies this`info
      ensures matches ==> Valid()
      ensures matches ==> info == fields[index].info
      ensures matches <==> Matches(fields[index], tag)
    {
      hide WordsBefore, RequiredIndex, SubmessageIndex, Pack, IsExtension, Asserted, Faithful;
      ghost var f := fields[index];
      DescriptorAt(desc, fields, index);
      var fieldinfo := desc.fieldInfo[fieldInfoIndex];
      assert fieldinfo == desc.fieldInfo[fieldInfoIndex..][..f.width][0];
      FirstWord(f.width, f.info);
      if (fieldinfo >> 2) & 0x3F == tag & 0x3F {
        var loaded := LoadDescriptorValues();
        return info.tag == tag && !IsExtension(info.typ);
      }
      return false;
    }

    ghost predicate HasField(tag: bv32)
    {
      exists i :: 0 <= i < |fields| && Matches(fields[i], tag)
    }

    /**
    Cyclic search from the current field: it ends, and it succeeds exactly when the current field has
    the tag or some field that is no extension placeholder has it; otherwise the position is kept.
    */
    method Find(tag: bv32) returns (found: bool)
      requires Valid()
      modifies this
      ensures Valid()
      ensures found <==> old(info.tag) == tag || HasField(tag)
      ensures found ==> info.tag == tag
      ensures !found ==> index == old(index)
    {
      hide WordsBefore, RequiredIndex, SubmessageIndex, Describes, Bindable, Less;
      DescribesBasics(desc, fields);
      if info.tag == tag {
        return true;
      }
      hide IsExtension;
      if Less(desc.largestTag, tag) {
        TooLarge(desc, fields, tag);
        return false;
      }
      NotEmpty(desc, fields, tag, info.tag);
      var start := index;
      if Less(tag, info.tag) {
        forall j | start <= j < |fields| ensures !Matches(fields[j], tag) {
          Ordered(fields, start, j, tag);
        }
        index := desc.fieldCount;
      }
      ghost var wrapped := false;
      while true
        invariant Describes(desc, fields) && (Positioned() || (index == |fields| && !wrapped)) && start < |fields|
        invariant if wrapped then index < start else start <= index
        invariant forall j | (if wrapped then 0 <= j <= index || start < j < |fields| else start < j <= index && j < |fields|) ::
          !Matches(fields[j], tag)
        decreases if wrapped then start - index else |fields| + start + 1 - index
      {
        wrapped := wrapped || index + 1 >= |fields|;
        AdvanceIterator();
        var matches := CheckCandidate(tag);
        if matches {
          return true;
        }
        if index == start {
          break;
        }
      }
      var loaded := LoadDescriptorValues();
      return false;
    }

    static lemma DescribesBasics(d: Descriptor, fields: seq<Entry>)
      requires Describes(d, fields)
      ensures Bindable(fields) && d.fieldCount == |fields|
    {
    }

    static lemma TooLarge(d: Descriptor, fields: seq<Entry>, tag: bv32)
      requires Describes(d, fields) && Less(d.largestTag, tag)
      ensures forall i | 0 <= i < |fields| :: !Matches(fields[i], tag)
    {
      hide Bind, Matches, Less;
      forall i | 0 <= i < |fields| ensures !Matches(fields[i], tag) { Ordered(fields, i, |fields| - 1, tag); }
    }

    static lemma NotEmpty(d: Descriptor, fields: seq<Entry>, tag: bv32, cur: bv32)
      requires Describes(d, fields) && !Less(d.largestTag, tag) && tag != cur && (fields == [] ==> cur == 0)
      ensures fields != []
    {
    }
  }
}
