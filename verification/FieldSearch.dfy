/** The decoder's search for the field of a tag, made over the packed descriptor of a schema. */
module FieldSearch {
  import opened Basics
  import Messages
  import FieldIterator

  /** A 32-bit word as a number. */
  function Number(word: bv32): nat { word as nat }

  function Word(n: nat): bv32
    requires n < TWO_32
  {
    n as bv32
  }

  lemma Recovered(word: bv32)
    ensures Number(word) < TWO_32 && Word(Number(word)) == word
  {
  }

  lemma SameWord(a: bv32, b: bv32)
    ensures Number(a) == Number(b) <==> a == b
  {
    hide Number, Word;
    Recovered(a);
    Recovered(b);
  }

  /** The type byte of a statically allocated field: how often it occurs in bits 4 and 5, its kind below. */
  function TypeByte(f: Messages.Field): bv32 {
    (match f.rule
     case Required => 0x00
     case Optional => 0x10
     case Singular => 0x10
     case Repeated(_) => 0x20
     case FixArray(_) => 0x20)
    | (match f.kind
       case Bool => 0x00
       case Int(_) => 0x01
       case UInt(_) => 0x02
       case SInt(_) => 0x03
       case Fixed32 => 0x04
       case Fixed64 => 0x05
       case Bytes(_) => 0x06
       case Str(_) => 0x07
       case Submsg(_) => 0x08
       case FixedBytes(_) => 0x0B)
  }

  /** What the iterator's tests make of it. */
  lemma TypeByteIs(f: Messages.Field)
    ensures FieldIterator.IsRequired(TypeByte(f)) <==> f.rule.Required?
    ensures FieldIterator.IsSubmessage(TypeByte(f)) <==> f.kind.Submsg?
    ensures !FieldIterator.IsExtension(TypeByte(f))
  {
  }

  /** The other types of submessage and field that the tests know of. */
  lemma OtherTypes()
    ensures FieldIterator.IsSubmessage(0x19) && FieldIterator.IsExtension(0x5A) && !FieldIterator.IsSubmessage(0x5A)
    ensures !FieldIterator.IsRequired(0x30)
  {
  }

  /** The packed fields are those of the schema, in its order. */
  ghost predicate Stands(d: Messages.Desc, fields: seq<FieldIterator.Entry>) {
    && |d.fields| == |fields|
    && (forall i :: 0 <= i < |fields| ==> Number(fields[i].info.tag) == d.fields[i].tag)
    && (forall i :: 0 <= i < |fields| ==> fields[i].info.typ == TypeByte(d.fields[i]))
  }

  /** What the schema says of a tag, the packed fields say of its word. */
  lemma FieldMatches(d: Messages.Desc, fields: seq<FieldIterator.Entry>, word: bv32, i: nat)
    requires Stands(d, fields) && i < |fields|
    ensures FieldIterator.Matches(fields[i], word) <==> d.fields[i].tag == Number(word)
    ensures fields[i].info.tag == word <==> d.fields[i].tag == Number(word)
  {
    SameWord(fields[i].info.tag, word);
    TypeByteIs(d.fields[i]);
    hide Number, FieldIterator.IsExtension, TypeByte;
  }

  /** A search of the schema finds the one field of the tag, or there is none. */
  lemma SearchMeans(d: Messages.Desc, fields: seq<FieldIterator.Entry>, word: bv32)
    requires Messages.WellFormed(d) && Stands(d, fields)
    ensures (exists i :: 0 <= i < |fields| && FieldIterator.Matches(fields[i], word))
            <==> Messages.FindField(d, Number(word)).Some?
    ensures forall i :: 0 <= i < |fields| && fields[i].info.tag == word ==>
              Messages.FindField(d, Number(word)) == Some(i)
  {
    hide Number, Stands, Messages.WellFormedKind, FieldIterator.Matches;
    assert |d.fields| == |fields| by { SameCount(d, fields); }
    forall i: nat | i < |fields|
      ensures FieldIterator.Matches(fields[i], word) <==> d.fields[i].tag == Number(word)
      ensures fields[i].info.tag == word <==> d.fields[i].tag == Number(word)
    {
      FieldMatches(d, fields, word, i);
    }
    var found := Messages.FindField(d, Number(word));
    if found.Some? { assert FieldIterator.Matches(fields[found.value], word); }
  }

  /** The iterator's running index counts the required fields of the schema. */
  lemma {:induction false} RequiredCounts(d: Messages.Desc, fields: seq<FieldIterator.Entry>, i: nat)
    requires Stands(d, fields) && i <= |fields|
    ensures FieldIterator.RequiredIndex(fields, i) == Messages.RequiredBefore(d, i)
  {
    hide Number, FieldIterator.IsExtension, FieldIterator.IsRequired, TypeByte;
    if i > 0 {
      RequiredCounts(d, fields, i - 1);
      TypeByteIs(d.fields[i - 1]);
    }
  }

  lemma SameCount(d: Messages.Desc, fields: seq<FieldIterator.Entry>)
    requires Stands(d, fields)
    ensures |d.fields| == |fields|
  {
  }

  /** The iterator finds, wherever it stands, the field that a search of the schema finds, and knows how
      many required fields stand before it. */
  method FindTag(iter: FieldIterator.FieldIter, d: Messages.Desc, word: bv32) returns (i: Option<nat>)
    requires iter.Valid() && Messages.WellFormed(d) && Stands(d, iter.fields) && word != 0
    modifies iter
    ensures iter.Valid() && i == Messages.FindField(d, Number(word))
    ensures i.Some? ==> iter.index == i.value && iter.requiredFieldIndex == Messages.RequiredBefore(d, i.value)
  {
    hide Number, Stands, Messages.WellFormed, Messages.FindField, FieldIterator.Matches, FieldIterator.Describes;
    SearchMeans(d, iter.fields, word);
    SameCount(d, iter.fields);
    var found := iter.Find(word);
    if !found { return None; }
    RequiredCounts(d, iter.fields, iter.index);
    return Some(iter.index);
  }
}
