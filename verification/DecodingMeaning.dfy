/** The decoder's one pass over the stream against its meaning: the stream is a sequence of records, and
    each field is made of the records of its own tag alone. */
module DecodingMeaning {
  import opened Basics
  import opened Varints
  import opened Messages

  // ----- records

  datatype Record = Record(tag: nat, wt: nat, body: seq<byte>)

  /** What was read of `s` when `rest` is left over. */
  function Taken(s: seq<byte>, rest: seq<byte>): seq<byte>
    requires |rest| <= |s|
  {
    s[..|s| - |rest|]
  }

  /** The records of a stream, whatever their tags. */
  function Split(s: seq<byte>): Option<seq<Record>>
    decreases |s|
  {
    if s == [] then Some([])
    else
      var t := Read32(s);
      if t.Failed? || t.value / 8 == 0 then None
      else
        var p := SkipField(t.value % 8, t.rest);
        if p.Failed? then None
        else
          var later := Split(p.rest);
          if later.None? then None
          else Some([Record(t.value / 8, t.value % 8, Taken(t.rest, p.rest))] + later.value)
  }

  // ----- the meaning of a field

  predicate IsFixed(d: Desc, tag: nat)
  {
    exists j | 0 <= j < |d.fields| :: d.fields[j].tag == tag && d.fields[j].rule.FixArray?
  }

  predicate Full(f: Field, s: Slot)
  {
    IsArray(f.rule) && s.Many? && |s.vs| == f.rule.max
  }

  /** Field `i` over the records, which changes on those of its own tag only. For a fixed array `open` says
      that it is being filled: a record of another fixed array, or the end, must find it full, and the next
      record of its own starts it anew. */
  function Meaning(d: Desc, i: nat, cur: Slot, open: bool, rs: seq<Record>): Option<Slot>
    requires i < |d.fields| && (open ==> d.fields[i].rule.FixArray?)
    decreases |rs|
  {
    var f := d.fields[i];
    if rs == [] then if open && !Full(f, cur) then None else Some(cur)
    else if rs[0].tag == f.tag then
      var p := DecodeField(f, if f.rule.FixArray? && !open then Many([]) else cur, rs[0].wt, rs[0].body);
      if p.Failed? || p.rest != [] then None else Meaning(d, i, p.value, f.rule.FixArray?, rs[1..])
    else if open && IsFixed(d, rs[0].tag) then
      if Full(f, cur) then Meaning(d, i, cur, false, rs[1..]) else None
    else Meaning(d, i, cur, open, rs[1..])
  }

  /** A record of field `i` is among them. */
  predicate Present(d: Desc, i: nat, rs: seq<Record>)
    requires i < |d.fields|
  {
    exists r | r in rs :: r.tag == d.fields[i].tag
  }

  /** The required fields before field `i`. */
  ghost function Earlier(d: Desc, i: nat): set<nat>
    requires i <= |d.fields|
  {
    set j | 0 <= j < i && d.fields[j].rule.Required?
  }

  ghost predicate Needed(d: Desc, i: nat)
    requires i < |d.fields|
  {
    d.fields[i].rule.Required? && |Earlier(d, i)| < 64
  }

  lemma {:induction false} EarlierCount(d: Desc, i: nat)
    requires i <= |d.fields|
    ensures |Earlier(d, i)| == RequiredBefore(d, i)
  {
    if i > 0 {
      EarlierCount(d, i - 1);
      assert Earlier(d, i) == Earlier(d, i - 1) + if d.fields[i - 1].rule.Required? then {i - 1} else {};
    }
  }

  /** Every field has a meaning. */
  predicate Meaningful(d: Desc, st: Progress, rs: seq<Record>)
    requires |st.slots| == |d.fields| && (st.filling.Some? ==> st.filling.value < |d.fields| && d.fields[st.filling.value].rule.FixArray?)
  {
    forall i | 0 <= i < |d.fields| :: Meaning(d, i, st.slots[i], st.filling == Some(i), rs).Some?
  }

  /** None of the first 64 required fields is missing. */
  ghost predicate Complete(d: Desc, seen: set<nat>, rs: seq<Record>)
  {
    forall i | 0 <= i < |d.fields| && Needed(d, i) :: i in seen || Present(d, i, rs)
  }

  predicate Valid(d: Desc, st: Progress)
  {
    |st.slots| == |d.fields| && (st.filling.Some? ==> st.filling.value < |d.fields| && d.fields[st.filling.value].rule.FixArray?)
  }

  /** The meaning of the message, field by field. */
  ghost function Message(d: Desc, st: Progress, s: seq<byte>): Option<seq<Slot>>
    requires Valid(d, st)
  {
    var rs := Split(s);
    if rs.None? || !Meaningful(d, st, rs.value) || !Complete(d, st.seen, rs.value) then None
    else Some(seq(|d.fields|, i requires 0 <= i < |d.fields| =>
                Meaning(d, i, st.slots[i], st.filling == Some(i), rs.value).value))
  }

  // ----- reading a record on its own

  /** The same outcome in front of `x`. */
  function Before<T>(p: Parse<T>, x: seq<byte>): Parse<T>
  {
    if p.Failed? then Failed else Parsed(p.value, x)
  }

  lemma FormOf(s: seq<byte>) returns (n: nat)
    ensures n == 0 ==> forall i | 0 <= i < |s| :: s[i] >= 128
    ensures n > 0 ==> Form(s, n)
  {
    n := 0;
    while n < |s| && s[n] >= 128
      invariant n <= |s| && forall i | 0 <= i < n :: s[i] >= 128
    {
      n := n + 1;
    }
    if n < |s| { n := n + 1; } else { n := 0; }
  }

  /** The readers look no further than the end of the varint. */
  lemma VarintLocal(s: seq<byte>, n: nat, x: seq<byte>)
    requires Form(s, n)
    ensures Form(s[..n] + x, n) && (s[..n] + x)[n..] == x && s == s[..n] + s[n..]
    ensures Read32(s[..n] + x) == Before(Read32(s), x) && Read64(s[..n] + x, 0) == Before(Read64(s, 0), x)
    ensures Read32(s).Parsed? ==> Read32(s).rest == s[n..]
    ensures Read64(s, 0).Parsed? ==> Read64(s, 0).rest == s[n..]
  {
    var z := s[..n] + x;
    assert z[..n] == s[..n] && z[n..] == x && forall i | 0 <= i < n :: z[i] == s[i];
    Read32Is(s, n);
    Read32Is(z, n);
    Read64Is(s, n);
    Read64Is(z, n);
    hide Read32, Read64, Digits;
  }

  lemma {:induction false} SkipVarintIs(s: seq<byte>, n: nat)
    requires Form(s, n)
    ensures SkipVarint(s) == Parsed((), s[n..])
    decreases n
  {
    if n > 1 {
      FormTail(s, n);
      SkipVarintIs(s[1..], n - 1);
    }
  }

  lemma {:induction false} OpenNotSkipped(s: seq<byte>)
    requires forall i | 0 <= i < |s| :: s[i] >= 128
    ensures SkipVarint(s).Failed?
  {
    if s != [] { OpenNotSkipped(s[1..]); }
  }

  /** A field of an unknown tag is skipped by its wire type: a varint to its last byte, eight or four bytes, or
      a length and that many bytes. */
  lemma SkippedByType(wt: nat, s: seq<byte>)
    ensures wt == 1 ==> SkipField(wt, s) == if |s| < 8 then Failed else Parsed((), s[8..])
    ensures wt == 5 ==> SkipField(wt, s) == if |s| < 4 then Failed else Parsed((), s[4..])
    ensures wt == 2 ==> (SkipField(wt, s).Parsed? <==> Read32(s).Parsed? && Read32(s).value <= |Read32(s).rest|)
    ensures wt == 2 && SkipField(wt, s).Parsed? ==> SkipField(wt, s).rest == Read32(s).rest[Read32(s).value..]
    ensures wt !in {0, 1, 2, 5} ==> SkipField(wt, s).Failed?
  {
    hide Read32;
  }

  lemma VarintSkipped(s: seq<byte>, n: nat)
    requires Form(s, n)
    ensures SkipField(0, s) == Parsed((), s[n..])
  {
    SkipVarintIs(s, n);
  }

  /** Four bytes, eight bytes, or a length and its contents. */
  lemma TakenIs(s: seq<byte>, rest: seq<byte>, n: nat)
    requires n <= |s| && rest == s[n..]
    ensures Taken(s, rest) == s[..n] && s == Taken(s, rest) + rest
  {
  }

  /** The value of a record depends on nothing behind the record, and is read from all of it. */
  ghost predicate Local<T>(whole: Parse<T>, alone: Parse<T>, skip: Parse<()>)
  {
    && (whole.Parsed? ==> skip == Parsed((), whole.rest))
    && (skip.Parsed? ==> alone == Before(whole, []))
  }

  lemma VarintValueLocal(k: Kind, cur: Val, s: seq<byte>)
    requires k.Bool? || k.Int? || k.UInt? || k.SInt?
    ensures var p := SkipField(0, s);
            Local(DecodeValue(k, cur, 0, s), DecodeValue(k, cur, 0, if p.Parsed? then Taken(s, p.rest) else []), p)
  {
    var n := FormOf(s);
    if n == 0 {
      OpenRefused(s, 0);
      OpenNotSkipped(s);
    } else {
      VarintSkipped(s, n);
      VarintLocal(s, n, []);
      TakenIs(s, s[n..], n);
      assert s[..n] + [] == s[..n];
    }
    hide Read32, Read64, Narrowed, SkipVarint;
  }

  lemma FixedValueLocal(k: Kind, cur: Val, s: seq<byte>)
    requires k.Fixed32? || k.Fixed64?
    ensures var wt := WireType(k);
            var p := SkipField(wt, s);
            Local(DecodeValue(k, cur, wt, s), DecodeValue(k, cur, wt, if p.Parsed? then Taken(s, p.rest) else []), p)
  {
    var m := if k.Fixed32? then 4 else 8;
    if |s| >= m {
      TakenIs(s, s[m..], m);
      assert s[..m][..m] == s[..m] && s[..m][m..] == [];
    }
    hide FromLittleEndian;
  }

  /** A length and its contents in front of anything else. */
  lemma PrefixLocal(s: seq<byte>) returns (n: nat)
    ensures Read32(s).Failed? ==> SkipField(2, s).Failed?
    ensures Read32(s).Parsed? ==> 0 < n <= |s| && Read32(s).rest == s[n..]
    ensures var m := if Read32(s).Parsed? then Read32(s).value else 0;
            Read32(s).Parsed? && m <= |Read32(s).rest| ==>
              && SkipField(2, s) == Parsed((), s[n + m..])
              && Taken(s, s[n + m..]) == s[..n + m]
              && Read32(s[..n + m]) == Parsed(m, s[n..][..m]) && ReadDelimited(s) == Parsed(s[n..][..m], s[n + m..])
              && ReadDelimited(s[..n + m]) == Parsed(s[n..][..m], [])
    ensures Read32(s).Parsed? && Read32(s).value > |Read32(s).rest| ==> SkipField(2, s).Failed?
  {
    n := FormOf(s);
    SkippedByType(2, s);
    if n == 0 {
      OpenRefused(s, 0);
    } else if Read32(s).Parsed? {
      VarintLocal(s, n, []);
      var m := Read32(s).value;
      if m <= |s[n..]| {
        VarintLocal(s, n, s[n..][..m]);
        assert s[n..][m..] == s[n + m..];
        TakenIs(s, s[n + m..], n + m);
        assert s[..n] + s[n..][..m] == s[..n + m];
        assert s[n..][..m][..m] == s[n..][..m] && s[n..][..m][m..] == [];
      }
    }
    hide Read32;
  }

  lemma DelimitedValueLocal(k: Kind, cur: Val, s: seq<byte>)
    requires WireType(k) == 2
    ensures var p := SkipField(2, s);
            Local(DecodeValue(k, cur, 2, s), DecodeValue(k, cur, 2, if p.Parsed? then Taken(s, p.rest) else []), p)
  {
    var n := PrefixLocal(s);
    hide Read32, CString, DecodeMsg, ReadDelimited, SkipField;
    if Read32(s).Parsed? && Read32(s).value <= |Read32(s).rest| {
      var m := Read32(s).value;
      assert s[n..][m..] == s[n + m..];
      assert s[n..][..m][..m] == s[n..][..m] && s[n..][..m][m..] == [];
      if m == 0 { assert s[n..][..0] == [] && s[n + 0..] == s[n..]; }
    } else if k.Submsg? {
      NotDelimited(s);
    }
  }

  lemma NotDelimited(s: seq<byte>)
    requires Read32(s).Failed? || Read32(s).value > |Read32(s).rest|
    ensures ReadDelimited(s).Failed?
  {
    hide Read32;
  }

  lemma ValueLocal(k: Kind, cur: Val, wt: nat, s: seq<byte>)
    requires wt < 8
    ensures var p := SkipField(wt, s);
            Local(DecodeValue(k, cur, wt, s), DecodeValue(k, cur, wt, if p.Parsed? then Taken(s, p.rest) else []), p)
  {
    if wt == WireType(k) {
      if k.Bool? || k.Int? || k.UInt? || k.SInt? {
        VarintValueLocal(k, cur, s);
      } else if k.Fixed32? || k.Fixed64? {
        FixedValueLocal(k, cur, s);
      } else {
        DelimitedValueLocal(k, cur, s);
      }
    }
  }

  lemma FieldLocal(f: Field, cur: Slot, wt: nat, s: seq<byte>)
    requires wt < 8
    ensures var p := SkipField(wt, s);
            Local(DecodeField(f, cur, wt, s), DecodeField(f, cur, wt, if p.Parsed? then Taken(s, p.rest) else []), p)
  {
    if IsArray(f.rule) && wt == 2 && Packable(f.kind) {
      var n := PrefixLocal(s);
      if Read32(s).Failed? || Read32(s).value > |Read32(s).rest| { NotDelimited(s); }
      hide Read32, ReadDelimited, DecodePacked, SkipField;
    } else if IsArray(f.rule) {
      ValueLocal(f.kind, Default(f.kind), wt, s);
      hide DecodeValue, SkipField;
    } else {
      ValueLocal(f.kind, if cur.Many? then Default(f.kind) else cur.v, wt, s);
      hide DecodeValue, SkipField;
    }
  }

  // ----- one record more

  lemma PresentStep(d: Desc, i: nat, r: Record, rs: seq<Record>)
    requires i < |d.fields|
    ensures Present(d, i, [r] + rs) <==> r.tag == d.fields[i].tag || Present(d, i, rs)
  {
    assert forall x :: x in [r] + rs <==> x == r || x in rs;
  }

  lemma MeaningStep(d: Desc, k: nat, cur: Slot, open: bool, r: Record, rs: seq<Record>)
    requires k < |d.fields| && (open ==> d.fields[k].rule.FixArray?)
    ensures var f := d.fields[k];
      Meaning(d, k, cur, open, [r] + rs) ==
        if r.tag == f.tag then
          var p := DecodeField(f, if f.rule.FixArray? && !open then Many([]) else cur, r.wt, r.body);
          if p.Failed? || p.rest != [] then None else Meaning(d, k, p.value, f.rule.FixArray?, rs)
        else if open && IsFixed(d, r.tag) then
          if Full(f, cur) then Meaning(d, k, cur, false, rs) else None
        else Meaning(d, k, cur, open, rs)
  {
    hide DecodeField;
    assert ([r] + rs)[1..] == rs;
  }

  lemma FixedTag(d: Desc, i: nat)
    requires WellFormed(d) && i < |d.fields|
    ensures IsFixed(d, d.fields[i].tag) <==> d.fields[i].rule.FixArray?
    ensures forall k | 0 <= k < |d.fields| && k != i :: d.fields[k].tag != d.fields[i].tag
  {
    hide WellFormedKind;
  }

  /** A record of an unknown tag means nothing to any field. */
  lemma UnknownStep(d: Desc, st: Progress, r: Record, rs: seq<Record>)
    requires Valid(d, st) && forall k | 0 <= k < |d.fields| :: d.fields[k].tag != r.tag
    ensures forall k | 0 <= k < |d.fields| ::
      Meaning(d, k, st.slots[k], st.filling == Some(k), [r] + rs) == Meaning(d, k, st.slots[k], st.filling == Some(k), rs)
    ensures Complete(d, st.seen, [r] + rs) <==> Complete(d, st.seen, rs)
  {
    forall k | 0 <= k < |d.fields|
      ensures Meaning(d, k, st.slots[k], st.filling == Some(k), [r] + rs) == Meaning(d, k, st.slots[k], st.filling == Some(k), rs)
      ensures Present(d, k, [r] + rs) <==> Present(d, k, rs)
    {
      MeaningStep(d, k, st.slots[k], st.filling == Some(k), r, rs);
      PresentStep(d, k, r, rs);
    }
    hide Meaning, Present;
  }

  /** A record of field `i` that is decoded takes every field's meaning to that of the next state. */
  lemma KnownStep(d: Desc, st: Progress, i: nat, r: Record, rs: seq<Record>, next: Progress)
    requires WellFormed(d) && Valid(d, st) && i < |d.fields| && r.tag == d.fields[i].tag
    requires DecodeKnown(d, st, i, r.wt, r.body) == Parsed(next, [])
    ensures Valid(d, next)
    ensures forall k | 0 <= k < |d.fields| ::
      Meaning(d, k, st.slots[k], st.filling == Some(k), [r] + rs) == Meaning(d, k, next.slots[k], next.filling == Some(k), rs)
    ensures Complete(d, st.seen, [r] + rs) <==> Complete(d, next.seen, rs)
  {
    FixedTag(d, i);
    forall k | 0 <= k < |d.fields|
      ensures Meaning(d, k, st.slots[k], st.filling == Some(k), [r] + rs) == Meaning(d, k, next.slots[k], next.filling == Some(k), rs)
      ensures Present(d, k, [r] + rs) <==> k == i || Present(d, k, rs)
    {
      hide Meaning, DecodeField, Present, WellFormed, IsFixed;
      MeaningStep(d, k, st.slots[k], st.filling == Some(k), r, rs);
      PresentStep(d, k, r, rs);
    }
    hide Meaning, DecodeField, Present, WellFormed, IsFixed;
  }

  /** One that is not leaves some field without a meaning. */
  lemma KnownRefused(d: Desc, st: Progress, i: nat, r: Record, rs: seq<Record>)
    requires WellFormed(d) && Valid(d, st) && i < |d.fields| && r.tag == d.fields[i].tag
    requires DecodeKnown(d, st, i, r.wt, r.body).Failed?
    ensures !Meaningful(d, st, [r] + rs)
  {
    FixedTag(d, i);
    var f := d.fields[i];
    var k := if f.rule.FixArray? && st.filling != Some(i) && !Filled(d, st) then st.filling.value else i;
    MeaningStep(d, k, st.slots[k], st.filling == Some(k), r, rs);
    hide DecodeField, WellFormed, IsFixed;
    assert Meaning(d, k, st.slots[k], st.filling == Some(k), [r] + rs).None?;
  }

  /** The record at the head of the stream is decoded as it would be alone. */
  lemma KnownLocal(d: Desc, st: Progress, i: nat, wt: nat, s: seq<byte>)
    requires Valid(d, st) && i < |d.fields| && wt < 8
    ensures var p := SkipField(wt, s);
            Local(DecodeKnown(d, st, i, wt, s), DecodeKnown(d, st, i, wt, if p.Parsed? then Taken(s, p.rest) else []), p)
  {
    var f := d.fields[i];
    FieldLocal(f, if f.rule.FixArray? && st.filling != Some(i) then Many([]) else st.slots[i], wt, s);
    hide DecodeField, SkipField;
  }

  lemma EndIs(d: Desc, st: Progress)
    requires Valid(d, st)
    ensures DecodeLoop(d, st, []) == Message(d, st, [])
  {
    assert Filled(d, st) <==> Meaningful(d, st, []) by {
      forall i | 0 <= i < |d.fields|
        ensures Meaning(d, i, st.slots[i], st.filling == Some(i), []) ==
                if st.filling == Some(i) && !Full(d.fields[i], st.slots[i]) then None else Some(st.slots[i])
      {
      }
    }
    forall i | 0 <= i < |d.fields| ensures Needed(d, i) <==> d.fields[i].rule.Required? && RequiredBefore(d, i) < 64 {
      EarlierCount(d, i);
    }
    assert AllSeen(d, st.seen) <==> Complete(d, st.seen, []);
    if Meaningful(d, st, []) && Complete(d, st.seen, []) { assert Message(d, st, []).value == st.slots; }
  }

  /** Field by field the meaning is the same, so that of the message is. */
  lemma SameMessage(d: Desc, st: Progress, next: Progress, s: seq<byte>, rest: seq<byte>)
    requires Valid(d, st) && Valid(d, next) && (Split(s).Some? <==> Split(rest).Some?)
    requires Split(s).Some? ==>
      && (forall k | 0 <= k < |d.fields| ::
            Meaning(d, k, st.slots[k], st.filling == Some(k), Split(s).value)
            == Meaning(d, k, next.slots[k], next.filling == Some(k), Split(rest).value))
      && (Complete(d, st.seen, Split(s).value) <==> Complete(d, next.seen, Split(rest).value))
    ensures Message(d, st, s) == Message(d, next, rest)
  {
    hide Split, Meaning, Complete;
    if Split(s).Some? && Meaningful(d, st, Split(s).value) && Complete(d, st.seen, Split(s).value) {
      assert Message(d, st, s).value == Message(d, next, rest).value;
    }
  }

  lemma SplitStep(s: seq<byte>)
    requires s != []
    ensures var t := Read32(s);
      var p := if t.Parsed? then SkipField(t.value % 8, t.rest) else Failed;
      Split(s) ==
        if t.Failed? || t.value / 8 == 0 || p.Failed? || Split(p.rest).None? then None
        else Some([Record(t.value / 8, t.value % 8, Taken(t.rest, p.rest))] + Split(p.rest).value)
  {
    hide Read32, SkipField, Taken;
  }

  /** The decoder's pass over the stream gives every field the meaning that its own records have, and fails
      exactly when some record is not whole, some field has no meaning, or a required field is missing. */
  lemma {:induction false} LoopIs(d: Desc, st: Progress, s: seq<byte>)
    requires WellFormed(d) && Valid(d, st)
    ensures DecodeLoop(d, st, s) == Message(d, st, s)
    decreases |s|
  {
    hide Read32, SkipField, DecodeKnown, Split, Meaning, Meaningful, Complete, WellFormed, Taken;
    if s == [] {
      EndIs(d, st);
    } else {
      SplitStep(s);
      var t := Read32(s);
      if t.Parsed? && t.value / 8 != 0 {
        var tag, wt := t.value / 8, t.value % 8;
        var i := FindField(d, tag);
        var p := SkipField(wt, t.rest);
        var body := if p.Parsed? then Taken(t.rest, p.rest) else [];
        var r := Record(tag, wt, body);
        if i.None? {
          if p.Parsed? {
            LoopIs(d, st, p.rest);
            if Split(p.rest).Some? { UnknownStep(d, st, r, Split(p.rest).value); }
            SameMessage(d, st, st, s, p.rest);
          }
        } else {
          KnownLocal(d, st, i.value, wt, t.rest);
          var k := DecodeKnown(d, st, i.value, wt, t.rest);
          if k.Failed? {
            if p.Parsed? && Split(p.rest).Some? { KnownRefused(d, st, i.value, r, Split(p.rest).value); }
          } else {
            KnownValid(d, st, i.value, wt, t.rest);
            LoopIs(d, k.value, p.rest);
            if Split(p.rest).Some? { KnownStep(d, st, i.value, r, Split(p.rest).value, k.value); }
            SameMessage(d, st, k.value, s, p.rest);
          }
        }
      }
    }
  }

  lemma KnownValid(d: Desc, st: Progress, i: nat, wt: nat, s: seq<byte>)
    requires Valid(d, st) && i < |d.fields| && DecodeKnown(d, st, i, wt, s).Parsed?
    ensures Valid(d, DecodeKnown(d, st, i, wt, s).value)
  {
    hide DecodeField;
  }

  /** The decoded message, field by field, for every schema and every byte string. */
  lemma DecodeIs(d: Desc, init: seq<Slot>, s: seq<byte>)
    requires WellFormed(d) && |init| == |d.fields|
    ensures DecodeMsg(d, init, s) == Message(d, Progress(init, {}, None), s)
  {
    LoopIs(d, Progress(init, {}, None), s);
  }

  /** An accepted stream is whole, has a record of each of the first 64 required fields, and every field is
      made of its own records alone: two streams with the same records of a tag give its field the same
      value. */
  lemma FieldsAreIndependent(d: Desc, init: seq<Slot>, s: seq<byte>, i: nat)
    requires WellFormed(d) && |init| == |d.fields| && DecodeMsg(d, init, s).Some? && i < |d.fields|
    ensures Split(s).Some?
    ensures Needed(d, i) ==> Present(d, i, Split(s).value)
    ensures Meaning(d, i, init[i], false, Split(s).value) == Some(DecodeMsg(d, init, s).value[i])
    ensures !d.fields[i].rule.FixArray? ==>
      Meaning(d, i, init[i], false, Split(s).value) == Meaning(d, i, init[i], false, Own(d.fields[i].tag, Split(s).value))
  {
    DecodeIs(d, init, s);
    if !d.fields[i].rule.FixArray? { OwnOnly(d, i, init[i], Split(s).value); }
    hide Split, Meaning, Present;
  }

  /** The records of one tag, in order. */
  function Own(tag: nat, rs: seq<Record>): seq<Record>
  {
    if rs == [] then [] else (if rs[0].tag == tag then [rs[0]] else []) + Own(tag, rs[1..])
  }

  lemma {:induction false} OwnOnly(d: Desc, i: nat, cur: Slot, rs: seq<Record>)
    requires i < |d.fields| && !d.fields[i].rule.FixArray?
    ensures Meaning(d, i, cur, false, rs) == Meaning(d, i, cur, false, Own(d.fields[i].tag, rs))
    decreases |rs|
  {
    hide DecodeField;
    if rs != [] {
      var f, later := d.fields[i], Own(d.fields[i].tag, rs[1..]);
      if rs[0].tag == f.tag {
        MeaningStep(d, i, cur, false, rs[0], later);
        var p := DecodeField(f, cur, rs[0].wt, rs[0].body);
        if p.Parsed? && p.rest == [] { OwnOnly(d, i, p.value, rs[1..]); }
      } else {
        OwnOnly(d, i, cur, rs[1..]);
        assert Own(f.tag, rs) == later;
      }
    }
  }
}
