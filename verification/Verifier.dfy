/** The verifier of the IR: an accepted function never reads a vreg that is not defined yet. */
module Verifier {
  import opened Ir
  import opened Liveness
  import Bitsets
  import LivenessWords

  function VregType(f: Function, vreg: int): IrType {
    if 0 <= vreg < f.VregCount() then f.vregTypes[vreg] else Void
  }

  // ---------------------------------------------------------------------------------------
  // What the verifier promises
  // ---------------------------------------------------------------------------------------

  function Occurrences(vregs: seq<int>, v: int): nat {
    if |vregs| == 0 then 0 else Occurrences(vregs[..|vregs| - 1], v) + (if vregs[|vregs| - 1] == v then 1 else 0)
  }

  function DefsInInsts(insts: seq<Inst>, v: int): nat {
    if |insts| == 0 then 0 else DefsInInsts(insts[..|insts| - 1], v) + (if insts[|insts| - 1].dst == v then 1 else 0)
  }

  function DefsInBlocks(blocks: seq<Block>, v: int): nat {
    if |blocks| == 0 then 0 else DefsInBlocks(blocks[..|blocks| - 1], v) + DefsInInsts(blocks[|blocks| - 1].insts, v)
  }

  // A parameter counts as a definition at the entry.
  function DefinitionCount(f: Function, v: int): nat {
    Occurrences(f.params, v) + DefsInBlocks(f.blocks, v)
  }

  predicate TermOk(f: Function, term: Term) {
    match term
    case NoTerm => false
    case Jmp(target) => 0 <= target < |f.blocks|
    case Br(cond, thenTarget, elseTarget) =>
      0 <= thenTarget < |f.blocks| && 0 <= elseTarget < |f.blocks| && VregType(f, cond) == I8
    case Ret(value) => if f.returnType == Void then value == NO_VREG else VregType(f, value) == f.returnType
  }

  // No run from the entry reads a vreg that is neither a parameter nor defined earlier in the run.
  ghost predicate NothingReadUndefined(f: Function) {
    forall path, v :: ReadsUndefined(f, path, v) && path[0] == Place(0, 0) ==> v in f.params
  }

  predicate UsesDefined(f: Function, vregs: seq<int>) {
    forall k :: 0 <= k < |vregs| ==> 0 <= vregs[k] < f.VregCount() && DefinitionCount(f, vregs[k]) > 0
  }

  predicate BlockUsesDefined(f: Function, block: Block) {
    && (forall i :: 0 <= i < |block.insts| ==> UsesDefined(f, block.insts[i].uses))
    && UsesDefined(f, TermUses(block.term))
  }

  ghost predicate Accepted(f: Function) {
    && |f.blocks| > 0
    && (forall p :: p in f.params ==> 0 <= p < f.VregCount())
    && (forall b :: 0 <= b < |f.blocks| ==> TermOk(f, f.blocks[b].term))
    && (forall v :: 0 <= v < f.VregCount() ==> DefinitionCount(f, v) <= 1)
    && (forall b :: 0 <= b < |f.blocks| ==> BlockUsesDefined(f, f.blocks[b]))
    && NothingReadUndefined(f)
  }

  // The operand numbers of the instructions are vregs of the function.
  ghost predicate OperandsInRange(f: Function) {
    && (forall b, i, u :: 0 <= b < |f.blocks| && 0 <= i < |f.blocks[b].insts| && u in f.blocks[b].insts[i].uses ==>
          0 <= u < f.VregCount())
    && (forall b, i :: 0 <= b < |f.blocks| && 0 <= i < |f.blocks[b].insts| ==>
          NO_VREG <= f.blocks[b].insts[i].dst < f.VregCount())
  }

  lemma TermOkInRange(f: Function, term: Term)
    requires TermOk(f, term)
    ensures forall s :: s in Successors(term) ==> 0 <= s < |f.blocks|
    ensures forall u :: u in TermUses(term) ==> 0 <= u < f.VregCount()
  {
  }

  lemma ChecksGiveInRange(f: Function)
    requires OperandsInRange(f)
    requires forall p :: p in f.params ==> 0 <= p < f.VregCount()
    requires forall b :: 0 <= b < |f.blocks| ==> TermOk(f, f.blocks[b].term)
    ensures InRange(f)
  {
    forall b | 0 <= b < |f.blocks|
      ensures forall s :: s in Successors(f.blocks[b].term) ==> 0 <= s < |f.blocks|
      ensures forall u :: u in TermUses(f.blocks[b].term) ==> 0 <= u < f.VregCount()
    {
      TermOkInRange(f, f.blocks[b].term);
    }
  }

  // The last check of the verifier, on the entry block's live-in set, is the promise about every run.
  lemma EntryLiveInIsThePromise(f: Function, live: LiveSets)
    requires IsLiveness(f, live) && |f.blocks| > 0
    ensures NothingReadUndefined(f) <==> live.liveIn[0] - SetOf(f.params) == {}
  {
    if NothingReadUndefined(f) {
      forall v | v in live.liveIn[0]
        ensures v in f.params
      {
        assert LiveAt(f, Place(0, 0), v);
        var path :| ReadsUndefined(f, path, v) && path[0] == Place(0, 0);
      }
    }
    if live.liveIn[0] - SetOf(f.params) == {} {
      forall path, v | ReadsUndefined(f, path, v) && path[0] == Place(0, 0)
        ensures v in f.params
      {
        assert LiveAt(f, Place(0, 0), v);
        assert v in live.liveIn[0];
        assert v !in live.liveIn[0] - SetOf(f.params);
      }
    }
  }

  // ---------------------------------------------------------------------------------------
  // The checks
  // ---------------------------------------------------------------------------------------

  // defCount[v] for the parameters that exist; the rest are errors.
  method CountParams(f: Function, defCount: array<int>) returns (errors: nat)
    requires defCount.Length == f.VregCount() && forall v :: 0 <= v < defCount.Length ==> defCount[v] == 0
    modifies defCount
    ensures forall v :: 0 <= v < defCount.Length ==> defCount[v] == Occurrences(f.params, v)
    ensures errors == 0 <==> forall p :: p in f.params ==> 0 <= p < f.VregCount()
  {
    errors := 0;
    for i := 0 to |f.params|
      invariant forall v :: 0 <= v < defCount.Length ==> defCount[v] == Occurrences(f.params[..i], v)
      invariant errors == 0 <==> forall k :: 0 <= k < i ==> 0 <= f.params[k] < f.VregCount()
    {
      assert f.params[..i + 1][..i] == f.params[..i] && f.params[..i + 1] == f.params[..i] + [f.params[i]];
      var vreg := f.params[i];
      if vreg < 0 || vreg >= f.VregCount() {
        errors := errors + 1;
      } else {
        defCount[vreg] := defCount[vreg] + 1;
      }
    }
    assert f.params[..|f.params|] == f.params;
    assert forall k :: 0 <= k < |f.params| ==> f.params[k] in f.params;
  }

  method CountInsts(insts: seq<Inst>, defCount: array<int>)
    modifies defCount
    ensures forall v :: 0 <= v < defCount.Length ==> defCount[v] == old(defCount[v]) + DefsInInsts(insts, v)
  {
    for i := 0 to |insts|
      invariant forall v :: 0 <= v < defCount.Length ==> defCount[v] == old(defCount[v]) + DefsInInsts(insts[..i], v)
    {
      assert insts[..i + 1][..i] == insts[..i];
      var dst := insts[i].dst;
      if dst != NO_VREG && 0 <= dst < defCount.Length {
        defCount[dst] := defCount[dst] + 1;
      }
    }
    assert insts[..|insts|] == insts;
  }

  method CountAndCheckBlocks(f: Function, defCount: array<int>) returns (errors: nat)
    requires defCount.Length == f.VregCount()
    modifies defCount
    ensures forall v :: 0 <= v < defCount.Length ==> defCount[v] == old(defCount[v]) + DefsInBlocks(f.blocks, v)
    ensures errors == 0 <==> forall b :: 0 <= b < |f.blocks| ==> TermOk(f, f.blocks[b].term)
  {
    errors := 0;
    for b := 0 to |f.blocks|
      invariant forall v :: 0 <= v < defCount.Length ==> defCount[v] == old(defCount[v]) + DefsInBlocks(f.blocks[..b], v)
      invariant errors == 0 <==> forall k :: 0 <= k < b ==> TermOk(f, f.blocks[k].term)
    {
      assert f.blocks[..b + 1][..b] == f.blocks[..b];
      CountInsts(f.blocks[b].insts, defCount);
      var term := f.blocks[b].term;
      match term {
        case NoTerm => errors := errors + 1;
        case Jmp(target) =>
          if !(0 <= target < |f.blocks|) { errors := errors + 1; }
        case Br(cond, thenTarget, elseTarget) =>
          if !(0 <= thenTarget < |f.blocks| && 0 <= elseTarget < |f.blocks|) { errors := errors + 1; }
          if cond == NO_VREG || VregType(f, cond) != I8 { errors := errors + 1; }
        case Ret(value) =>
          if f.returnType == Void && value != NO_VREG { errors := errors + 1; }
          if f.returnType != Void && (value == NO_VREG || VregType(f, value) != f.returnType) { errors := errors + 1; }
      }
    }
    assert f.blocks[..|f.blocks|] == f.blocks;
  }

  method CheckUses(f: Function, vregs: seq<int>, defCount: array<int>) returns (errors: nat)
    requires defCount.Length == f.VregCount() && forall v :: 0 <= v < defCount.Length ==> defCount[v] == DefinitionCount(f, v)
    ensures errors == 0 <==> UsesDefined(f, vregs)
  {
    errors := 0;
    for u := 0 to |vregs|
      invariant errors == 0 <==> forall k :: 0 <= k < u ==> 0 <= vregs[k] < f.VregCount() && DefinitionCount(f, vregs[k]) > 0
    {
      if vregs[u] < 0 || vregs[u] >= f.VregCount() || defCount[vregs[u]] == 0 { errors := errors + 1; }
    }
  }

  method CheckAllUses(f: Function, defCount: array<int>) returns (errors: nat)
    requires defCount.Length == f.VregCount() && forall v :: 0 <= v < defCount.Length ==> defCount[v] == DefinitionCount(f, v)
    ensures errors == 0 <==> forall b :: 0 <= b < |f.blocks| ==> BlockUsesDefined(f, f.blocks[b])
  {
    errors := 0;
    for b := 0 to |f.blocks|
      invariant errors == 0 <==> forall k :: 0 <= k < b ==> BlockUsesDefined(f, f.blocks[k])
    {
      var block := f.blocks[b];
      var blockErrors := 0;
      for i := 0 to |block.insts|
        invariant blockErrors >= 0
        invariant blockErrors == 0 <==> forall k :: 0 <= k < i ==> UsesDefined(f, block.insts[k].uses)
      {
        var found := CheckUses(f, block.insts[i].uses, defCount);
        blockErrors := blockErrors + found;
      }
      var found := CheckUses(f, TermUses(block.term), defCount);
      errors := errors + blockErrors + found;
    }
  }

  method CheckSingleDefinitions(f: Function, defCount: array<int>) returns (errors: nat)
    requires defCount.Length == f.VregCount() && forall v :: 0 <= v < defCount.Length ==> defCount[v] == DefinitionCount(f, v)
    ensures errors == 0 <==> forall v :: 0 <= v < f.VregCount() ==> DefinitionCount(f, v) <= 1
  {
    errors := 0;
    for vreg := 0 to f.VregCount()
      invariant errors == 0 <==> forall v :: 0 <= v < vreg ==> DefinitionCount(f, v) <= 1
    {
      if defCount[vreg] > 1 { errors := errors + 1; }
    }
  }

  method CheckEntry(f: Function) returns (errors: nat)
    requires InRange(f) && |f.blocks| > 0
    ensures errors == 0 <==> NothingReadUndefined(f)
  {
    var liveIn, liveOut := LivenessWords.ComputeLiveness(f);
    ghost var live := LiveSets(LivenessWords.SetsOf(liveIn), LivenessWords.SetsOf(liveOut));
    EntryLiveInIsThePromise(f, live);
    EntryLiveInRange(f, live);
    ParamsInRange(f);
    ClearParams(liveIn[0], f.params);
    errors := CountUndefined(liveIn[0], f.VregCount());
  }

  lemma ParamsInRange(f: Function)
    requires InRange(f)
    ensures forall k :: 0 <= k < |f.params| ==> 0 <= f.params[k] < f.VregCount()
  {
    forall k | 0 <= k < |f.params|
      ensures 0 <= f.params[k] < f.VregCount()
    {
      assert f.params[k] in f.params;
    }
  }

  method ClearParams(entry: array<bv64>, params: seq<int>)
    requires forall k :: 0 <= k < |params| ==> 0 <= params[k] < Bitsets.WORD * entry.Length
    modifies entry
    ensures Bitsets.Elements(entry[..]) == old(Bitsets.Elements(entry[..])) - SetOf(params)
  {
    hide Bitsets.Elements, SetOf;
    ghost var before := Bitsets.Elements(entry[..]);
    LivenessWords.EmptySetOf(params[..0]);
    for i := 0 to |params|
      invariant Bitsets.Elements(entry[..]) == before - SetOf(params[..i])
    {
      SetOfOneMore(params, i);
      Bitsets.Clear(entry, params[i]);
    }
    assert params[..|params|] == params;
  }

  method CountUndefined(entry: array<bv64>, vregCount: nat) returns (errors: nat)
    requires vregCount <= Bitsets.WORD * entry.Length
    requires forall v :: v in Bitsets.Elements(entry[..]) ==> v < vregCount
    ensures errors == 0 <==> Bitsets.Elements(entry[..]) == {}
  {
    hide Bitsets.Elements;
    errors := 0;
    for vreg := 0 to vregCount
      invariant errors == 0 <==> forall v :: 0 <= v < vreg ==> v !in Bitsets.Elements(entry[..])
    {
      var has := Bitsets.Get(entry, vreg);
      if has { errors := errors + 1; }
    }
    if errors == 0 {
      assert forall v :: v !in Bitsets.Elements(entry[..]);
    }
  }

  lemma EntryLiveInRange(f: Function, live: LiveSets)
    requires InRange(f) && IsLiveness(f, live) && |f.blocks| > 0
    ensures forall v :: v in live.liveIn[0] ==> 0 <= v < f.VregCount()
  {
    forall v | v in live.liveIn[0]
      ensures 0 <= v < f.VregCount()
    {
      LiveIsInRange(f, Place(0, 0), v);
    }
  }

  // Accepts exactly the functions that meet the rules, and among these rules is the promise about every run.
  method VerifyFunction(f: Function) returns (ok: bool)
    requires OperandsInRange(f)
    ensures ok <==> Accepted(f)
  {
    if |f.blocks| == 0 { return false; }
    var defCount := new int[f.VregCount()](_ => 0);
    var paramErrors := CountParams(f, defCount);
    var blockErrors := CountAndCheckBlocks(f, defCount);
    var defErrors := CheckSingleDefinitions(f, defCount);
    if paramErrors + blockErrors + defErrors != 0 { return false; }
    var useErrors := CheckAllUses(f, defCount);
    if useErrors != 0 { return false; }
    ChecksGiveInRange(f);
    var entryErrors := CheckEntry(f);
    ok := entryErrors == 0;
  }
}
