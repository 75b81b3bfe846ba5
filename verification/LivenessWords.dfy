/** Liveness on the words of bitsets: the tables of the compiler, whose sets are those of Liveness. */
module LivenessWords {
  import opened Ir
  import opened Liveness
  import opened Bitsets

  // ---------------------------------------------------------------------------------------
  // Tables of bitsets
  // ---------------------------------------------------------------------------------------

  // Different bitsets of the same size
  predicate AreRows(rows: seq<array<bv64>>, words: nat) {
    && (forall i :: 0 <= i < |rows| ==> rows[i].Length == words)
    && forall i, j :: 0 <= i < j < |rows| ==> rows[i] != rows[j]
  }

  predicate AreSeparate(a: seq<array<bv64>>, b: seq<array<bv64>>) {
    forall i, j :: 0 <= i < |a| && 0 <= j < |b| ==> a[i] != b[j]
  }

  predicate IsNotIn(row: array<bv64>, rows: seq<array<bv64>>) {
    forall i :: 0 <= i < |rows| ==> rows[i] != row
  }

  function SetsOf(rows: seq<array<bv64>>): (sets: seq<set<int>>)
    reads rows
    ensures |sets| == |rows| && forall i :: 0 <= i < |rows| ==> sets[i] == Elements(rows[i][..])
    decreases |rows|
  {
    if |rows| == 0 then [] else SetsOf(rows[..|rows| - 1]) + [Elements(rows[|rows| - 1][..])]
  }

  // A table of empty sets
  method NewRows(count: nat, bitCount: nat, words: nat) returns (rows: seq<array<bv64>>)
    requires words == WordCount(bitCount)
    ensures |rows| == count && AreRows(rows, words) && fresh(rows)
    ensures forall i :: 0 <= i < count ==> Elements(rows[i][..]) == {}
  {
    rows := [];
    for n := 0 to count
      invariant |rows| == n && AreRows(rows, words)
      invariant forall i :: 0 <= i < n ==> fresh(rows[i])
      invariant forall i :: 0 <= i < n ==> Elements(rows[i][..]) == {}
    {
      var row := NewBitset(bitCount);
      rows := rows + [row];
    }
  }

  // The sets of a table are known row by row.
  lemma SetsAre(rows: seq<array<bv64>>, sets: seq<set<int>>)
    requires |sets| == |rows| && forall i :: 0 <= i < |rows| ==> Elements(rows[i][..]) == sets[i]
    ensures SetsOf(rows) == sets
  {
  }

  // ---------------------------------------------------------------------------------------
  // The summaries of the blocks
  // ---------------------------------------------------------------------------------------

  method ExposeOperands(vregs: seq<int>, uses: array<bv64>, defs: array<bv64>)
    requires uses != defs && uses.Length == defs.Length && forall u :: 0 <= u < |vregs| ==> 0 <= vregs[u] < WORD * uses.Length
    modifies uses
    ensures Elements(uses[..]) == old(Elements(uses[..])) + (SetOf(vregs) - Elements(defs[..]))
  {
    hide Elements, SetOf;
    ghost var before := Elements(uses[..]);
    EmptySetOf(vregs[..0]);
    for u := 0 to |vregs|
      invariant Elements(uses[..]) == before + (SetOf(vregs[..u]) - Elements(defs[..]))
    {
      SetOfOneMore(vregs, u);
      var defined := Get(defs, vregs[u]);
      if !defined {
        Insert(uses, vregs[u]);
      }
    }
    assert vregs[..|vregs|] == vregs;
  }

  lemma EmptySetOf(vregs: seq<int>)
    requires |vregs| == 0
    ensures SetOf(vregs) == {}
  {
  }

  predicate BlockInRange(block: Block, bits: nat) {
    && (forall i, u :: 0 <= i < |block.insts| && 0 <= u < |block.insts[i].uses| ==> 0 <= block.insts[i].uses[u] < bits)
    && (forall i :: 0 <= i < |block.insts| ==> NO_VREG <= block.insts[i].dst < bits)
    && (forall u :: 0 <= u < |TermUses(block.term)| ==> 0 <= TermUses(block.term)[u] < bits)
  }

  method SummarizeBlock(block: Block, uses: array<bv64>, defs: array<bv64>)
    requires uses != defs && uses.Length == defs.Length && BlockInRange(block, WORD * uses.Length)
    requires Elements(uses[..]) == {} == Elements(defs[..])
    modifies uses, defs
    ensures Elements(uses[..]) == BlockUses(block) && Elements(defs[..]) == BlockDefs(block)
  {
    hide Elements, SetOf;
    for i := 0 to |block.insts|
      invariant Elements(uses[..]) == ExposedUpTo(block, i) && Elements(defs[..]) == DefsUpTo(block, i)
    {
      var inst := block.insts[i];
      ExposeOperands(inst.uses, uses, defs);
      if inst.dst != NO_VREG {
        Insert(defs, inst.dst);
      }
    }
    ExposeOperands(TermUses(block.term), uses, defs);
  }

  lemma BlocksInRange(f: Function, b: nat)
    requires InRange(f) && b < |f.blocks|
    ensures BlockInRange(f.blocks[b], WORD * WordCount(f.VregCount()))
  {
    var block := f.blocks[b];
    forall i, u | 0 <= i < |block.insts| && 0 <= u < |block.insts[i].uses|
      ensures 0 <= block.insts[i].uses[u] < f.VregCount()
    {
      assert block.insts[i].uses[u] in block.insts[i].uses;
    }
    forall u | 0 <= u < |TermUses(block.term)|
      ensures 0 <= TermUses(block.term)[u] < f.VregCount()
    {
      assert TermUses(block.term)[u] in TermUses(block.term);
    }
  }

  method SummarizeBlocks(f: Function, uses: seq<array<bv64>>, defs: seq<array<bv64>>)
    requires InRange(f) && |uses| == |f.blocks| == |defs|
    requires AreRows(uses, WordCount(f.VregCount())) && AreRows(defs, WordCount(f.VregCount())) && AreSeparate(uses, defs)
    requires forall b :: 0 <= b < |f.blocks| ==> Elements(uses[b][..]) == {} == Elements(defs[b][..])
    modifies uses, defs
    ensures forall b :: 0 <= b < |f.blocks| ==> Elements(uses[b][..]) == BlockUses(f.blocks[b]) && Elements(defs[b][..]) == BlockDefs(f.blocks[b])
  {
    hide Elements, BlockUses, BlockDefs, InRange;
    for b := 0 to |f.blocks|
      invariant forall k :: 0 <= k < b ==> Elements(uses[k][..]) == BlockUses(f.blocks[k]) && Elements(defs[k][..]) == BlockDefs(f.blocks[k])
      invariant forall k :: b <= k < |f.blocks| ==> Elements(uses[k][..]) == {} == Elements(defs[k][..])
    {
      BlocksInRange(f, b);
      SummarizeBlock(f.blocks[b], uses[b], defs[b]);
    }
  }

  // ---------------------------------------------------------------------------------------
  // The fixpoint
  // ---------------------------------------------------------------------------------------

  // Adds what is live at the starts of the successors.
  method GatherInto(dst: array<bv64>, rows: seq<array<bv64>>, successors: seq<int>) returns (changed: bool)
    requires AreRows(rows, dst.Length) && IsNotIn(dst, rows)
    requires forall s :: 0 <= s < |successors| ==> 0 <= successors[s] < |rows|
    modifies dst
    ensures Elements(dst[..]) == old(Elements(dst[..])) + Gather(SetsOf(rows), successors)
    ensures changed <==> Elements(dst[..]) != old(Elements(dst[..]))
  {
    hide Elements;
    ghost var before, sets := Elements(dst[..]), SetsOf(rows);
    changed := false;
    for s := 0 to |successors|
      invariant SetsOf(rows) == sets && Elements(dst[..]) == before + Gather(sets, successors[..s])
      invariant changed <==> Elements(dst[..]) != before
    {
      var grew := UnionInto(dst, rows[successors[s]]);
      SetsAre(rows, sets);
      GatherOneMore(sets, successors, s);
      if grew {
        changed := true;
      }
    }
    assert successors[..|successors|] == successors;
  }

  // All tables, and the one that a step works in
  predicate AreTables(f: Function, liveIn: seq<array<bv64>>, liveOut: seq<array<bv64>>, uses: seq<array<bv64>>, defs: seq<array<bv64>>,
                      scratch: array<bv64>) {
    var words := WordCount(f.VregCount());
    && |liveIn| == |f.blocks| == |liveOut| && |uses| == |f.blocks| == |defs| && scratch.Length == words
    && AreRows(liveIn, words) && AreRows(liveOut, words) && AreRows(uses, words) && AreRows(defs, words)
    && AreSeparate(liveIn, liveOut) && AreSeparate(liveIn, uses) && AreSeparate(liveIn, defs)
    && AreSeparate(liveOut, uses) && AreSeparate(liveOut, defs)
    && IsNotIn(scratch, liveIn) && IsNotIn(scratch, liveOut) && IsNotIn(scratch, uses) && IsNotIn(scratch, defs)
  }

  ghost predicate AreSummaries(f: Function, uses: seq<array<bv64>>, defs: seq<array<bv64>>)
    reads uses, defs
  {
    |uses| == |f.blocks| == |defs| &&
    forall b :: 0 <= b < |f.blocks| ==> Elements(uses[b][..]) == BlockUses(f.blocks[b]) && Elements(defs[b][..]) == BlockDefs(f.blocks[b])
  }

  method PropagateBlock(f: Function, liveIn: seq<array<bv64>>, liveOut: seq<array<bv64>>, uses: seq<array<bv64>>, defs: seq<array<bv64>>,
                        scratch: array<bv64>, b: nat) returns (changed: bool)
    requires InRange(f) && AreTables(f, liveIn, liveOut, uses, defs, scratch) && AreSummaries(f, uses, defs) && b < |f.blocks|
    modifies liveIn[b], liveOut[b], scratch
    ensures SetsOf(liveOut) == old(SetsOf(liveOut))[b := old(SetsOf(liveOut))[b] + Gather(old(SetsOf(liveIn)), Successors(f.blocks[b].term))]
    ensures SetsOf(liveIn) == old(SetsOf(liveIn))[b := old(SetsOf(liveIn))[b] + (BlockUses(f.blocks[b]) + (SetsOf(liveOut)[b] - BlockDefs(f.blocks[b])))]
    ensures changed <==> SetsOf(liveIn) != old(SetsOf(liveIn)) || SetsOf(liveOut) != old(SetsOf(liveOut))
    ensures AreSummaries(f, uses, defs)
  {
    hide Elements, BlockUses, BlockDefs, AreRows, AreSeparate, IsNotIn, Gather, InRange;
    ghost var in0, out0 := SetsOf(liveIn), SetsOf(liveOut);
    changed := PropagateOut(f, liveIn, liveOut, uses, defs, scratch, b);
    var grew := PropagateIn(f, liveIn, liveOut, uses, defs, scratch, b);
    changed := changed || grew;
  }

  // live_out of a block, from the starts of its successors
  method PropagateOut(f: Function, liveIn: seq<array<bv64>>, liveOut: seq<array<bv64>>, ghost uses: seq<array<bv64>>,
                      ghost defs: seq<array<bv64>>, ghost scratch: array<bv64>, b: nat) returns (changed: bool)
    requires InRange(f) && AreTables(f, liveIn, liveOut, uses, defs, scratch) && AreSummaries(f, uses, defs) && b < |f.blocks|
    modifies liveOut[b]
    ensures SetsOf(liveOut) == old(SetsOf(liveOut))[b := old(SetsOf(liveOut))[b] + Gather(SetsOf(liveIn), Successors(f.blocks[b].term))]
    ensures SetsOf(liveIn) == old(SetsOf(liveIn)) && AreSummaries(f, uses, defs)
    ensures changed <==> SetsOf(liveOut) != old(SetsOf(liveOut))
  {
    hide Elements, BlockUses, BlockDefs, Gather;
    ghost var in0, out0 := SetsOf(liveIn), SetsOf(liveOut);
    SuccessorsInRange(f, b);
    changed := GatherInto(liveOut[b], liveIn, Successors(f.blocks[b].term));
    SetsAre(liveOut, out0[b := out0[b] + Gather(in0, Successors(f.blocks[b].term))]);
    SetsAre(liveIn, in0);
  }

  // live_in of a block, from its own summary and its live_out
  method PropagateIn(f: Function, liveIn: seq<array<bv64>>, liveOut: seq<array<bv64>>, uses: seq<array<bv64>>, defs: seq<array<bv64>>,
                     scratch: array<bv64>, b: nat) returns (changed: bool)
    requires AreTables(f, liveIn, liveOut, uses, defs, scratch) && AreSummaries(f, uses, defs) && b < |f.blocks|
    modifies liveIn[b], scratch
    ensures SetsOf(liveIn) == old(SetsOf(liveIn))[b := old(SetsOf(liveIn))[b] + (BlockUses(f.blocks[b]) + (SetsOf(liveOut)[b] - BlockDefs(f.blocks[b])))]
    ensures SetsOf(liveOut) == old(SetsOf(liveOut)) && AreSummaries(f, uses, defs)
    ensures changed <==> SetsOf(liveIn) != old(SetsOf(liveIn))
  {
    hide Elements, BlockUses, BlockDefs;
    ghost var in0, out0 := SetsOf(liveIn), SetsOf(liveOut);
    Transfer(scratch, uses[b], liveOut[b], defs[b]);
    changed := UnionInto(liveIn[b], scratch);
    SetsAre(liveIn, in0[b := in0[b] + (BlockUses(f.blocks[b]) + (out0[b] - BlockDefs(f.blocks[b])))]);
    SetsAre(liveOut, out0);
  }

  lemma SuccessorsInRange(f: Function, b: nat)
    requires InRange(f) && b < |f.blocks|
    ensures forall s :: 0 <= s < |Successors(f.blocks[b].term)| ==> 0 <= Successors(f.blocks[b].term)[s] < |f.blocks|
  {
    var targets := Successors(f.blocks[b].term);
    forall s | 0 <= s < |targets|
      ensures 0 <= targets[s] < |f.blocks|
    {
      assert targets[s] in targets;
    }
  }

  // One pass over the blocks, from the last to the first
  method Pass(f: Function, liveIn: seq<array<bv64>>, liveOut: seq<array<bv64>>, uses: seq<array<bv64>>, defs: seq<array<bv64>>,
              scratch: array<bv64>) returns (changed: bool)
    requires InRange(f) && AreTables(f, liveIn, liveOut, uses, defs, scratch) && AreSummaries(f, uses, defs)
    requires Sound(f, SetsOf(liveIn), SetsOf(liveOut))
    modifies liveIn, liveOut, scratch
    ensures Sound(f, SetsOf(liveIn), SetsOf(liveOut)) && AreSummaries(f, uses, defs)
    ensures !changed ==> Closed(f, SetsOf(liveIn), SetsOf(liveOut))
    ensures var n := f.VregCount();
      Room(SetsOf(liveIn), n) + Room(SetsOf(liveOut), n) + (if changed then 1 else 0) <= old(Room(SetsOf(liveIn), n) + Room(SetsOf(liveOut), n))
  {
    hide Elements, BlockUses, BlockDefs, Sound, Room, AreRows, AreSeparate, IsNotIn, AreSummaries, BlockClosed, Gather, InRange;
    changed := false;
    var n := f.VregCount();
    ghost var in0, out0 := SetsOf(liveIn), SetsOf(liveOut);
    for b := |f.blocks| downto 0
      invariant Sound(f, SetsOf(liveIn), SetsOf(liveOut)) && AreSummaries(f, uses, defs)
      invariant Room(SetsOf(liveIn), n) + Room(SetsOf(liveOut), n) + (if changed then 1 else 0) <= Room(in0, n) + Room(out0, n)
      invariant !changed ==> SetsOf(liveIn) == in0 && SetsOf(liveOut) == out0
      invariant !changed ==> forall k :: b <= k < |f.blocks| ==> BlockClosed(f, in0, out0, k)
    {
      ghost var before, beforeOut := SetsOf(liveIn), SetsOf(liveOut);
      var grew := PropagateBlock(f, liveIn, liveOut, uses, defs, scratch, b);
      PassStep(f, before, beforeOut, SetsOf(liveIn), SetsOf(liveOut), b);
      if grew {
        changed := true;
      }
    }
  }

  method NewSummaries(f: Function) returns (uses: seq<array<bv64>>, defs: seq<array<bv64>>)
    requires InRange(f)
    ensures AreRows(uses, WordCount(f.VregCount())) && AreRows(defs, WordCount(f.VregCount())) && AreSeparate(uses, defs)
    ensures |uses| == |f.blocks| == |defs| && fresh(uses) && fresh(defs) && AreSummaries(f, uses, defs)
  {
    hide Elements, BlockUses, BlockDefs, InRange, AreRows;
    uses := NewRows(|f.blocks|, f.VregCount(), WordCount(f.VregCount()));
    defs := NewRows(|f.blocks|, f.VregCount(), WordCount(f.VregCount()));
    SummarizeBlocks(f, uses, defs);
  }

  // Empty tables, and the summaries of the blocks
  method NewTables(f: Function) returns (liveIn: seq<array<bv64>>, liveOut: seq<array<bv64>>, uses: seq<array<bv64>>,
                                         defs: seq<array<bv64>>, scratch: array<bv64>)
    requires InRange(f)
    ensures AreTables(f, liveIn, liveOut, uses, defs, scratch) && AreSummaries(f, uses, defs)
    ensures fresh(liveIn) && fresh(liveOut) && fresh(scratch)
    ensures Sound(f, SetsOf(liveIn), SetsOf(liveOut))
  {
    hide Elements, Sound, InRange, AreRows, AreSummaries;
    var n, count := f.VregCount(), |f.blocks|;
    var words := WordCount(n);
    liveIn := NewRows(count, n, words);
    liveOut := NewRows(count, n, words);
    NothingIsSound(f, SetsOf(liveIn), SetsOf(liveOut));
    scratch := NewBitset(n);
    uses, defs := NewSummaries(f);
  }

  // The tables of the compiler, from empty ones until a pass changes nothing: exactly what is live at the edges of blocks.
  method ComputeLiveness(f: Function) returns (liveIn: seq<array<bv64>>, liveOut: seq<array<bv64>>)
    requires InRange(f)
    ensures AreRows(liveIn, WordCount(f.VregCount())) && AreRows(liveOut, WordCount(f.VregCount()))
    ensures fresh(liveIn) && fresh(liveOut) && IsLiveness(f, LiveSets(SetsOf(liveIn), SetsOf(liveOut)))
  {
    hide Elements, Sound, Closed, Room, InRange, IsLiveness, AreRows, AreSeparate, IsNotIn, AreSummaries;
    var uses, defs, scratch;
    liveIn, liveOut, uses, defs, scratch := NewTables(f);
    ghost var n := f.VregCount();
    var changed := true;
    while changed
      invariant Sound(f, SetsOf(liveIn), SetsOf(liveOut)) && AreSummaries(f, uses, defs)
      invariant !changed ==> Closed(f, SetsOf(liveIn), SetsOf(liveOut))
      decreases Room(SetsOf(liveIn), n) + Room(SetsOf(liveOut), n), changed
    {
      RoomsAreNatural(f, SetsOf(liveIn), SetsOf(liveOut));
      changed := Pass(f, liveIn, liveOut, uses, defs, scratch);
      RoomsAreNatural(f, SetsOf(liveIn), SetsOf(liveOut));
    }
    FixpointIsLiveness(f, SetsOf(liveIn), SetsOf(liveOut));
  }

  lemma NothingIsSound(f: Function, liveIn: seq<set<int>>, liveOut: seq<set<int>>)
    requires |liveIn| == |f.blocks| == |liveOut| && forall b :: 0 <= b < |f.blocks| ==> liveIn[b] == {} == liveOut[b]
    ensures Sound(f, liveIn, liveOut)
  {
  }
}
