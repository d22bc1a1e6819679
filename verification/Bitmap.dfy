/** The two-word priority bitmap. Bit numbers are bytes, as priorities are. */
module Bitmap {
  /** Bit `p` of the pair of words. */
  predicate Bit(w0: bv32, w1: bv32, p: bv8) {
    if p < 32 then Has(w0, p as bv32) else p < 64 && Has(w1, (p - 32) as bv32)
  }

  predicate Has(w: bv32, k: bv32)
    requires k < 32
  {
    (w >> k) & 1 == 1
  }

  function Mask(p: bv8): bv32 { 1 << (p & 31) as bv32 }

  function WithSet(w: bv32, p: bv8): bv32 { w | Mask(p) }

  function WithClear(w: bv32, p: bv8): bv32 { w & !Mask(p) }

  /** Below `k` nothing is set. */
  predicate LowClear(w: bv32, k: bv32)
    requires k < 32
  {
    w & ((1 << k) - 1) == 0
  }

  /** Find-first-set by halving: the lowest bit of a word that is not zero, 31 for zero. */
  method Ffs(word: bv32) returns (k: bv32)
    ensures k < 32
    ensures word != 0 ==> Has(word, k) && LowClear(word, k)
    ensures word == 0 ==> k == 31
  {
    var w := word;
    k := 31;
    if w & 0x0000_ffff != 0 { k := k - 16; w := w << 16; }
    if w & 0x00ff_0000 != 0 { k := k - 8; w := w << 8; }
    if w & 0x0f00_0000 != 0 { k := k - 4; w := w << 4; }
    if w & 0x3000_0000 != 0 { k := k - 2; w := w << 2; }
    if w & 0x4000_0000 != 0 { k := k - 1; }
  }

  /** Position of the first set bit. An empty bitmap is read one word too far, into `beyond`. */
  method FindFirstBit(w0: bv32, w1: bv32, beyond: bv32) returns (r: bv32)
    ensures w0 == 0 && w1 == 0 <==> r >= 64
    ensures r < 64 ==> Bit(w0, w1, r as bv8) && forall q: bv8 | q < r as bv8 :: !Bit(w0, w1, q)
    ensures r >= 64 && beyond != 0 ==> r < 96 && Has(beyond, r - 64) && LowClear(beyond, r - 64)
    ensures r >= 64 && beyond == 0 ==> r == 95
  {
    var off: bv32 := 0;
    var v := w0;
    while off < 2
      invariant off <= 2
      invariant v == if off == 0 then w0 else if off == 1 then w1 else beyond
      invariant off > 0 ==> w0 == 0
      invariant off > 1 ==> w1 == 0
      decreases 2 - off
    {
      if v != 0 { break; }
      off := off + 1;
      v := if off == 1 then w1 else beyond;
    }
    var k := Ffs(v);
    r := k + off * 32;
  }

  lemma SetBitSets(w0: bv32, w1: bv32, p: bv8, q: bv8)
    requires p < 64
    ensures Bit(if p < 32 then WithSet(w0, p) else w0, if p < 32 then w1 else WithSet(w1, p), q)
            <==> q == p || Bit(w0, w1, q)
  {
  }

  lemma ClearBitClears(w0: bv32, w1: bv32, p: bv8, q: bv8)
    requires p < 64
    ensures Bit(if p < 32 then WithClear(w0, p) else w0, if p < 32 then w1 else WithClear(w1, p), q)
            <==> q != p && Bit(w0, w1, q)
  {
  }

  /** Bit `n`, numbered by an integer. */
  predicate IsSet(w0: bv32, w1: bv32, n: nat) { n < 64 && Bit(w0, w1, n as bv8) }

  lemma Numbers(n: nat, m: nat)
    requires n < 64 && m < 64
    ensures n as bv8 < 64 && (n as bv8) as nat == n
    ensures n as bv8 == m as bv8 <==> n == m
    ensures n as bv8 < m as bv8 <==> n < m
    ensures n as bv8 < 32 <==> n < 32
  {
    Roundtrip(n);
    Roundtrip(m);
  }

  lemma Roundtrip(n: nat)
    requires n < 64
    ensures n as bv8 < 64 && (n as bv8) as nat == n
  {
  }

  lemma SetOne(w0: bv32, w1: bv32, n: nat, m: nat)
    requires n < 64
    ensures IsSet(if n < 32 then WithSet(w0, n as bv8) else w0, if n < 32 then w1 else WithSet(w1, n as bv8), m)
            <==> m == n || IsSet(w0, w1, m)
  {
    if m < 64 {
      Numbers(n, m);
      SetBitSets(w0, w1, n as bv8, m as bv8);
      hide Bit, WithSet;
    }
  }

  lemma ClearOne(w0: bv32, w1: bv32, n: nat, m: nat)
    requires n < 64
    ensures IsSet(if n < 32 then WithClear(w0, n as bv8) else w0, if n < 32 then w1 else WithClear(w1, n as bv8), m)
            <==> m != n && IsSet(w0, w1, m)
  {
    if m < 64 {
      Numbers(n, m);
      ClearBitClears(w0, w1, n as bv8, m as bv8);
      hide Bit, WithClear;
    }
  }

  lemma NoneSet(w0: bv32, w1: bv32)
    ensures w0 == 0 && w1 == 0 ==> forall n :: !IsSet(w0, w1, n)
    ensures (exists n :: IsSet(w0, w1, n)) ==> w0 != 0 || w1 != 0
  {
  }

  lemma WordOf(p: bv8)
    requires p < 64
    ensures (p >> 5) as int == if p < 32 then 0 else 1
  {
  }

  method SetBit(p: bv8, words: array<bv32>)
    requires words.Length == 2 && p < 64
    modifies words
    ensures words[0] == if p < 32 then WithSet(old(words[0]), p) else old(words[0])
    ensures words[1] == if p < 32 then old(words[1]) else WithSet(old(words[1]), p)
  {
    WordOf(p);
    hide WithSet;
    var i := (p >> 5) as int;
    words[i] := WithSet(words[i], p);
  }

  method ClearBit(p: bv8, words: array<bv32>)
    requires words.Length == 2 && p < 64
    modifies words
    ensures words[0] == if p < 32 then WithClear(old(words[0]), p) else old(words[0])
    ensures words[1] == if p < 32 then old(words[1]) else WithClear(old(words[1]), p)
  {
    WordOf(p);
    hide WithClear;
    var i := (p >> 5) as int;
    words[i] := WithClear(words[i], p);
  }

  /** The bit where it stands, so the result is zero exactly when the bit is clear. */
  method GetBit(p: bv8, words: array<bv32>) returns (r: bv32)
    requires words.Length == 2 && p < 64
    ensures r != 0 <==> Bit(words[0], words[1], p)
  {
    WordOf(p);
    r := words[(p >> 5) as int] & Mask(p);
  }

  /** The number of the first set bit, or at least 64 when there is none. */
  method FirstSet(words: array<bv32>, beyond: bv32) returns (n: nat)
    requires words.Length == 2
    ensures n >= 64 <==> words[0] == 0 && words[1] == 0
    ensures n < 64 ==> IsSet(words[0], words[1], n) && forall m: nat | m < n :: !IsSet(words[0], words[1], m)
  {
    var r := FindFirstBit(words[0], words[1], beyond);
    SmallWord(r);
    n := r as nat;
    if n < 64 { BelowClear(words[0], words[1], n); }
  }

  lemma BelowClear(w0: bv32, w1: bv32, n: nat)
    requires n < 64 && forall q: bv8 | q < n as bv8 :: !Bit(w0, w1, q)
    ensures forall m: nat | m < n :: !IsSet(w0, w1, m)
  {
    hide Bit;
    forall m: nat | m < n
      ensures !IsSet(w0, w1, m)
    {
      Numbers(m, n);
    }
  }

  lemma SmallWord(r: bv32)
    ensures r < 64 <==> (r as nat) < 64
    ensures r < 64 ==> (r as nat) as bv8 == r as bv8
  {
  }
}
