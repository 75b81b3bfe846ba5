/** The words of a bitset, and the set of numbers that they stand for: what liveness does with sets, done on words. */
module Bitsets {

  const WORD := 64

  predicate HasBit(word: bv64, k: bv6) {
    (word >> k) & 1 == 1
  }

  function Amount(n: nat): (k: bv6)
    requires n < WORD
  {
    n as bv6
  }

  predicate Contains(words: seq<bv64>, bit: nat) {
    bit / WORD < |words| && HasBit(words[bit / WORD], Amount(bit % WORD))
  }

  // The numbers of the set
  function Elements(words: seq<bv64>): (elements: set<int>)
    ensures forall bit: nat :: bit in elements <==> Contains(words, bit)
    ensures forall bit :: bit in elements ==> bit >= 0
  {
    InWords(words);
    set bit | 0 <= bit < WORD * |words| && Contains(words, bit)
  }

  lemma InWords(words: seq<bv64>)
    ensures forall bit: nat :: Contains(words, bit) ==> bit < WORD * |words|
  {
  }

  // The operations on words
  function Or(a: bv64, b: bv64): bv64 {
    a | b
  }

  function Minus(a: bv64, b: bv64): bv64 {
    a & !b
  }

  function One(k: bv6): bv64 {
    (1 as bv64) << k
  }

  // ---------------------------------------------------------------------------------------
  // Words
  // ---------------------------------------------------------------------------------------

  lemma OrBit(a: bv64, b: bv64, k: bv6)
    ensures HasBit(a | b, k) <==> HasBit(a, k) || HasBit(b, k)
  {
  }

  lemma MinusBit(a: bv64, b: bv64, k: bv6)
    ensures HasBit(a & !b, k) <==> HasBit(a, k) && !HasBit(b, k)
  {
  }

  lemma OrHas(a: bv64, b: bv64, k: bv6)
    ensures HasBit(Or(a, b), k) <==> HasBit(a, k) || HasBit(b, k)
  {
    hide HasBit;
    OrBit(a, b, k);
  }

  lemma MinusHas(a: bv64, b: bv64, k: bv6)
    ensures HasBit(Minus(a, b), k) <==> HasBit(a, k) && !HasBit(b, k)
  {
    hide HasBit;
    MinusBit(a, b, k);
  }

  lemma OneHas(k: bv6, j: bv6)
    ensures HasBit(One(k), j) <==> j == k
  {
  }

  lemma NoneHas(k: bv6)
    ensures !HasBit(0, k)
  {
  }

  // Words that differ have a bit that differs, which halving finds.
  lemma Difference(a: bv64, b: bv64) returns (k: bv6)
    requires a != b
    ensures HasBit(a, k) != HasBit(b, k)
  {
    var x := a ^ b;
    var k5: bv6 := if x & 0xFFFF_FFFF == 0 then 32 else 0;
    var x5 := x >> k5;
    var k4: bv6 := if x5 & 0xFFFF == 0 then 16 else 0;
    var x4 := x5 >> k4;
    var k3: bv6 := if x4 & 0xFF == 0 then 8 else 0;
    var x3 := x4 >> k3;
    var k2: bv6 := if x3 & 0xF == 0 then 4 else 0;
    var x2 := x3 >> k2;
    var k1: bv6 := if x2 & 3 == 0 then 2 else 0;
    var x1 := x2 >> k1;
    var k0: bv6 := if x1 & 1 == 0 then 1 else 0;
    k := k5 + k4 + k3 + k2 + k1 + k0;
  }

  lemma AmountIs(k: bv6) returns (n: nat)
    ensures n < WORD && Amount(n) == k
  {
    n := k as nat;
  }

  lemma AmountBack(n: nat)
    requires n < WORD
    ensures Amount(n) as int == n
  {
  }

  lemma AmountsDiffer(n: nat, m: nat)
    requires n < WORD && m < WORD && Amount(n) == Amount(m)
    ensures n == m
  {
    AmountBack(n);
    AmountBack(m);
  }

  // ---------------------------------------------------------------------------------------
  // Sets
  // ---------------------------------------------------------------------------------------

  lemma WordOf(w: nat, n: nat)
    requires n < WORD
    ensures (WORD * w + n) / WORD == w && (WORD * w + n) % WORD == n
  {
  }

  lemma DifferentElement(a: seq<bv64>, b: seq<bv64>, w: nat) returns (bit: nat)
    requires w < |a| == |b| && a[w] != b[w]
    ensures bit in Elements(a) <==> bit !in Elements(b)
  {
    var k := Difference(a[w], b[w]);
    var n := AmountIs(k);
    WordOf(w, n);
    bit := WORD * w + n;
  }

  // Sets with the same elements have the same words.
  lemma SameWords(a: seq<bv64>, b: seq<bv64>)
    requires |a| == |b| && Elements(a) == Elements(b)
    ensures a == b
  {
    forall w: nat | w < |a|
      ensures a[w] == b[w]
    {
      if a[w] != b[w] {
        var bit := DifferentElement(a, b, w);
        assert false;
      }
    }
  }

  function WordCount(bitCount: nat): (count: nat)
    ensures count > 0 && bitCount <= WORD * count
  {
    if bitCount == 0 then 1 else (bitCount + 63) / WORD
  }

  method NewBitset(bitCount: nat) returns (words: array<bv64>)
    ensures fresh(words) && words.Length == WordCount(bitCount)
    ensures Elements(words[..]) == {}
  {
    var count := (bitCount + 63) / WORD;
    words := new bv64[if count == 0 then 1 else count](_ => 0);
    forall bit: nat
      ensures !Contains(words[..], bit)
    {
      if bit / WORD < words.Length {
        NoneHas(Amount(bit % WORD));
      }
    }
  }

  method Get(words: array<bv64>, bit: nat) returns (has: bool)
    requires bit < WORD * words.Length
    ensures has <==> bit in Elements(words[..])
  {
    has := (words[bit / WORD] >> Amount(bit % WORD)) & 1 == 1;
  }

  method Insert(words: array<bv64>, bit: nat)
    requires bit < WORD * words.Length
    modifies words
    ensures Elements(words[..]) == old(Elements(words[..])) + {bit}
  {
    hide HasBit, Amount, Or, Minus, One, Contains;
    ghost var before := words[..];
    words[bit / WORD] := Or(words[bit / WORD], One(Amount(bit % WORD)));
    forall b: nat
      ensures Contains(words[..], b) <==> Contains(before, b) || b == bit
    {
      OneMore(before, words[..], bit, b);
    }
  }

  lemma OneMore(before: seq<bv64>, after: seq<bv64>, bit: nat, b: nat)
    requires bit / WORD < |before|
    requires after == before[bit / WORD := Or(before[bit / WORD], One(Amount(bit % WORD)))]
    ensures Contains(after, b) <==> Contains(before, b) || b == bit
  {
    hide HasBit, Amount, Or, Minus, One;
    if b / WORD == bit / WORD {
      OrHas(before[bit / WORD], One(Amount(bit % WORD)), Amount(b % WORD));
      OneHas(Amount(bit % WORD), Amount(b % WORD));
      if Amount(b % WORD) == Amount(bit % WORD) {
        AmountsDiffer(b % WORD, bit % WORD);
      }
    }
  }

  method Clear(words: array<bv64>, bit: nat)
    requires bit < WORD * words.Length
    modifies words
    ensures Elements(words[..]) == old(Elements(words[..])) - {bit}
  {
    hide HasBit, Amount, Or, Minus, One, Contains;
    ghost var before := words[..];
    words[bit / WORD] := Minus(words[bit / WORD], One(Amount(bit % WORD)));
    forall b: nat
      ensures Contains(words[..], b) <==> Contains(before, b) && b != bit
    {
      OneLess(before, words[..], bit, b);
    }
  }

  lemma OneLess(before: seq<bv64>, after: seq<bv64>, bit: nat, b: nat)
    requires bit / WORD < |before|
    requires after == before[bit / WORD := Minus(before[bit / WORD], One(Amount(bit % WORD)))]
    ensures Contains(after, b) <==> Contains(before, b) && b != bit
  {
    hide HasBit, Amount, Or, Minus, One;
    if b / WORD == bit / WORD {
      MinusHas(before[bit / WORD], One(Amount(bit % WORD)), Amount(b % WORD));
      OneHas(Amount(bit % WORD), Amount(b % WORD));
      if Amount(b % WORD) == Amount(bit % WORD) {
        AmountsDiffer(b % WORD, bit % WORD);
      }
    }
  }

  lemma UnionOfWords(a: seq<bv64>, b: seq<bv64>, merged: seq<bv64>)
    requires |a| == |b| == |merged| && forall w :: 0 <= w < |a| ==> merged[w] == Or(a[w], b[w])
    ensures Elements(merged) == Elements(a) + Elements(b)
  {
    hide HasBit, Amount, Or, Minus, One;
    forall bit: nat
      ensures Contains(merged, bit) <==> Contains(a, bit) || Contains(b, bit)
    {
      if bit / WORD < |a| {
        OrHas(a[bit / WORD], b[bit / WORD], Amount(bit % WORD));
      }
    }
  }

  // Adds the elements of src, and says if there are more than before.
  method UnionInto(dst: array<bv64>, src: array<bv64>) returns (changed: bool)
    requires dst != src && dst.Length == src.Length
    modifies dst
    ensures Elements(dst[..]) == old(Elements(dst[..])) + Elements(src[..])
    ensures changed <==> Elements(dst[..]) != old(Elements(dst[..]))
  {
    hide HasBit, Contains, Or, Minus;
    ghost var before := dst[..];
    changed := false;
    for i := 0 to dst.Length
      invariant forall w :: 0 <= w < i ==> dst[w] == Or(before[w], src[w])
      invariant forall w :: i <= w < dst.Length ==> dst[w] == before[w]
      invariant changed <==> exists w :: 0 <= w < i && dst[w] != before[w]
    {
      var merged := Or(dst[i], src[i]);
      if merged != dst[i] {
        dst[i] := merged;
        changed := true;
      }
    }
    UnionOfWords(before, src[..], dst[..]);
    if changed && Elements(dst[..]) == Elements(before) {
      SameWords(dst[..], before);
      assert false;
    }
    if !changed {
      assert dst[..] == before;
    }
  }

  lemma TransferOfWords(uses: seq<bv64>, liveOut: seq<bv64>, defs: seq<bv64>, result: seq<bv64>)
    requires |uses| == |liveOut| == |defs| == |result|
    requires forall w :: 0 <= w < |uses| ==> result[w] == Or(uses[w], Minus(liveOut[w], defs[w]))
    ensures Elements(result) == Elements(uses) + (Elements(liveOut) - Elements(defs))
  {
    hide HasBit, Amount, Or, Minus, One;
    forall bit: nat
      ensures Contains(result, bit) <==> Contains(uses, bit) || (Contains(liveOut, bit) && !Contains(defs, bit))
    {
      if bit / WORD < |uses| {
        var w, k := bit / WORD, Amount(bit % WORD);
        OrHas(uses[w], Minus(liveOut[w], defs[w]), k);
        MinusHas(liveOut[w], defs[w], k);
      }
    }
  }

  // One step of liveness on the words: what is live at the start of a block, into a set of its own
  method Transfer(scratch: array<bv64>, uses: array<bv64>, liveOut: array<bv64>, defs: array<bv64>)
    requires scratch != uses && scratch != liveOut && scratch != defs
    requires scratch.Length == uses.Length == liveOut.Length == defs.Length
    modifies scratch
    ensures Elements(scratch[..]) == Elements(uses[..]) + (Elements(liveOut[..]) - Elements(defs[..]))
  {
    hide HasBit, Contains, Or, Minus;
    for w := 0 to scratch.Length
      invariant forall v :: 0 <= v < w ==> scratch[v] == Or(uses[v], Minus(liveOut[v], defs[v]))
    {
      scratch[w] := Or(uses[w], Minus(liveOut[w], defs[w]));
    }
    TransferOfWords(uses[..], liveOut[..], defs[..], scratch[..]);
  }
}
