/** What the verifier's rules mean for runs: an accepted function never gets stuck, depends on its parameters only, keeps the
    types of its values, and returns what its type says. */
module Safety {
  import opened Ir
  import opened Liveness
  import opened Verifier
  import opened Execution

  // ---------------------------------------------------------------------------------------
  // Definitions
  // ---------------------------------------------------------------------------------------

  predicate DefinesIn(blocks: seq<Block>, p: Place, v: int) {
    p.b < |blocks| && p.i < |blocks[p.b].insts| && blocks[p.b].insts[p.i].dst == v
  }

  lemma {:induction false} OccursIn(vregs: seq<int>, v: int)
    ensures Occurrences(vregs, v) > 0 <==> v in vregs
    ensures Occurrences(vregs, v) > 1 <==> exists i, j :: 0 <= i < j < |vregs| && vregs[i] == vregs[j] == v
  {
    if |vregs| > 0 {
      var n, before := |vregs| - 1, vregs[..|vregs| - 1];
      OccursIn(before, v);
      assert vregs == before + [vregs[n]];
      if i, j :| 0 <= i < j < |vregs| && vregs[i] == vregs[j] == v {
        assert before[i] == v && (j < n ==> before[j] == v);
      }
      if Occurrences(before, v) > 0 && vregs[n] == v {
        var i :| 0 <= i < n && before[i] == v;
        assert vregs[i] == vregs[n] == v;
      } else if Occurrences(before, v) > 1 {
        var i, j :| 0 <= i < j < n && before[i] == before[j] == v;
        assert vregs[i] == vregs[j] == v;
      }
    }
  }

  function Destinations(insts: seq<Inst>): (dsts: seq<int>)
    ensures |dsts| == |insts| && forall i :: 0 <= i < |insts| ==> dsts[i] == insts[i].dst
  {
    seq(|insts|, i requires 0 <= i < |insts| => insts[i].dst)
  }

  lemma {:induction false} DefsAreOccurrences(insts: seq<Inst>, v: int)
    ensures DefsInInsts(insts, v) == Occurrences(Destinations(insts), v)
  {
    if |insts| > 0 {
      DefsAreOccurrences(insts[..|insts| - 1], v);
      assert Destinations(insts)[..|insts| - 1] == Destinations(insts[..|insts| - 1]);
    }
  }

  // Two definitions in one block, or none, one
  lemma DefinedInBlock(block: Block, v: int)
    ensures DefsInInsts(block.insts, v) > 0 <==> exists i :: 0 <= i < |block.insts| && block.insts[i].dst == v
    ensures DefsInInsts(block.insts, v) > 1 <==> exists i, j :: 0 <= i < j < |block.insts| && block.insts[i].dst == block.insts[j].dst == v
  {
    var dsts := Destinations(block.insts);
    DefsAreOccurrences(block.insts, v);
    OccursIn(dsts, v);
    if v in dsts {
      var i :| 0 <= i < |dsts| && dsts[i] == v;
      assert block.insts[i].dst == v;
    }
    if i :| 0 <= i < |block.insts| && block.insts[i].dst == v {
      assert dsts[i] == v;
    }
    if i, j :| 0 <= i < j < |dsts| && dsts[i] == dsts[j] == v {
      assert block.insts[i].dst == block.insts[j].dst == v;
    }
    if i, j :| 0 <= i < j < |block.insts| && block.insts[i].dst == block.insts[j].dst == v {
      assert dsts[i] == dsts[j] == v;
    }
  }

  lemma {:induction false} DefinedSomewhere(blocks: seq<Block>, v: int)
    ensures DefsInBlocks(blocks, v) > 0 <==> exists p :: DefinesIn(blocks, p, v)
  {
    if |blocks| > 0 {
      var n, before := |blocks| - 1, blocks[..|blocks| - 1];
      DefinedSomewhere(before, v);
      DefinedInBlock(blocks[n], v);
      if DefsInBlocks(before, v) > 0 {
        var p :| DefinesIn(before, p, v);
        assert DefinesIn(blocks, p, v);
      } else if DefsInInsts(blocks[n].insts, v) > 0 {
        var i: nat :| i < |blocks[n].insts| && blocks[n].insts[i].dst == v;
        assert DefinesIn(blocks, Place(n, i), v);
      }
      if p :| DefinesIn(blocks, p, v) {
        assert p.b < n ==> DefinesIn(before, p, v);
      }
    }
  }

  lemma {:induction false} TwoPlaces(blocks: seq<Block>, v: int) returns (p: Place, q: Place)
    requires DefsInBlocks(blocks, v) > 1
    ensures p != q && DefinesIn(blocks, p, v) && DefinesIn(blocks, q, v)
  {
    var n, before := |blocks| - 1, blocks[..|blocks| - 1];
    DefinedInBlock(blocks[n], v);
    if DefsInBlocks(before, v) > 1 {
      p, q := TwoPlaces(before, v);
    } else if DefsInBlocks(before, v) == 1 {
      DefinedSomewhere(before, v);
      p :| DefinesIn(before, p, v);
      var i: nat :| i < |blocks[n].insts| && blocks[n].insts[i].dst == v;
      q := Place(n, i);
    } else {
      var i: nat, j: nat :| i < j < |blocks[n].insts| && blocks[n].insts[i].dst == blocks[n].insts[j].dst == v;
      p, q := Place(n, i), Place(n, j);
    }
  }

  lemma {:induction false} PlacesCount(blocks: seq<Block>, v: int, p: Place, q: Place)
    requires p != q && DefinesIn(blocks, p, v) && DefinesIn(blocks, q, v)
    ensures DefsInBlocks(blocks, v) > 1
  {
    var n, before := |blocks| - 1, blocks[..|blocks| - 1];
    DefinedInBlock(blocks[n], v);
    DefinedSomewhere(before, v);
    assert p.b < n ==> DefinesIn(before, p, v);
    assert q.b < n ==> DefinesIn(before, q, v);
    if p.b < n && q.b < n {
      PlacesCount(before, v, p, q);
    } else if p.b == n && q.b == n {
      var i, j := if p.i < q.i then p.i else q.i, if p.i < q.i then q.i else p.i;
      assert blocks[n].insts[i].dst == blocks[n].insts[j].dst == v;
    }
  }

  // One parameter or one instruction defines it, once.
  ghost predicate DefinedOnce(f: Function, v: int) {
    && (forall p, q :: DefinesIn(f.blocks, p, v) && DefinesIn(f.blocks, q, v) ==> p == q)
    && (forall i, j :: 0 <= i < j < |f.params| ==> !(f.params[i] == f.params[j] == v))
    && (v in f.params ==> forall p :: !DefinesIn(f.blocks, p, v))
  }

  // The counts of the verifier say what they are for.
  lemma CountIsOneIff(f: Function, v: int)
    ensures DefinitionCount(f, v) > 0 <==> v in f.params || exists p :: DefinesIn(f.blocks, p, v)
    ensures DefinitionCount(f, v) <= 1 <==> DefinedOnce(f, v)
  {
    OccursIn(f.params, v);
    DefinedSomewhere(f.blocks, v);
    if DefsInBlocks(f.blocks, v) > 1 {
      var p, q := TwoPlaces(f.blocks, v);
    }
    forall p, q | DefinesIn(f.blocks, p, v) && DefinesIn(f.blocks, q, v) && p != q
      ensures DefsInBlocks(f.blocks, v) > 1
    {
      PlacesCount(f.blocks, v, p, q);
    }
  }

  // What is read anywhere, in code that runs or not, is a vreg that something defines.
  lemma UsesHaveDefinitions(f: Function, p: Place, v: int)
    requires Accepted(f) && IsPlace(f, p) && v in UsesAt(f, p)
    ensures 0 <= v < f.VregCount() && (v in f.params || exists q :: DefinesIn(f.blocks, q, v)) && DefinedOnce(f, v)
  {
    var block := f.blocks[p.b];
    assert BlockUsesDefined(f, block);
    assert UsesDefined(f, UsesAt(f, p));
    CountIsOneIff(f, v);
  }

  // ---------------------------------------------------------------------------------------
  // Runs
  // ---------------------------------------------------------------------------------------

  // What a run of f can come to
  predicate IsSafe(f: Function, status: Status) {
    match status
    case At(p) => IsPlace(f, p)
    case Returned(values) => |values| == if f.returnType == Void then 0 else 1
    case Stuck => false
  }

  lemma TermsAreOk(f: Function, b: nat)
    requires Accepted(f) && b < |f.blocks|
    ensures TermOk(f, f.blocks[b].term)
  {
  }

  // A return gives the value of its vreg, which has the function's type, and nothing without a type.
  lemma ReturnsItsVreg(f: Function, sem: Semantics, s: VregState)
    requires Accepted(f) && s.status.At? && IsPlace(f, s.status.place)
    requires var p := s.status.place; p.i == |f.blocks[p.b].insts| && f.blocks[p.b].term.Ret?
    ensures var value := f.blocks[s.status.place.b].term.value;
            if f.returnType == Void then StepOnVregs(f, sem, s).status == Returned([])
            else 0 <= value < f.VregCount() && f.vregTypes[value] == f.returnType && StepOnVregs(f, sem, s).status == Returned([s.env(value)])
  {
    TermsAreOk(f, s.status.place.b);
    var value := f.blocks[s.status.place.b].term.value;
    assert [value][..0] == [];
  }

  // A branch goes where the value of its vreg says, and a jump to its block.
  lemma GoesToItsTarget(f: Function, sem: Semantics, s: VregState)
    requires Accepted(f) && s.status.At? && IsPlace(f, s.status.place)
    requires s.status.place.i == |f.blocks[s.status.place.b].insts| && !f.blocks[s.status.place.b].term.Ret?
    ensures match f.blocks[s.status.place.b].term
            case Br(cond, thenTarget, elseTarget) =>
              var target := if sem.isTrue(s.env(cond)) then thenTarget else elseTarget;
              0 <= target < |f.blocks| && StepOnVregs(f, sem, s) == s.(status := At(Place(target, 0)))
            case Jmp(target) => 0 <= target < |f.blocks| && StepOnVregs(f, sem, s) == s.(status := At(Place(target, 0)))
            case _ => false
  {
    TermsAreOk(f, s.status.place.b);
    var term := f.blocks[s.status.place.b].term;
    if term.Br? {
      assert [term.cond][..0] == [];
    }
  }

  lemma StepIsSafe(f: Function, sem: Semantics, s: VregState)
    requires Accepted(f) && s.status.At? && IsPlace(f, s.status.place)
    ensures IsSafe(f, StepOnVregs(f, sem, s).status)
  {
    var p := s.status.place;
    if p.i == |f.blocks[p.b].insts| {
      if f.blocks[p.b].term.Ret? {
        ReturnsItsVreg(f, sem, s);
      } else {
        GoesToItsTarget(f, sem, s);
      }
    }
  }

  // An accepted function never gets stuck, and returns one value exactly when it has a return type.
  lemma {:induction false} RunIsSafe(f: Function, sem: Semantics, s: VregState, steps: nat)
    requires Accepted(f) && IsSafe(f, s.status)
    ensures IsSafe(f, RunOnVregs(f, sem, s, steps).status)
    decreases steps
  {
    if steps > 0 && s.status.At? {
      StepIsSafe(f, sem, s);
      RunIsSafe(f, sem, StepOnVregs(f, sem, s), steps - 1);
    }
  }

  // ---------------------------------------------------------------------------------------
  // Only parameters matter
  // ---------------------------------------------------------------------------------------

  ghost predicate SameWhereLive(f: Function, s: VregState, t: VregState) {
    && s.status == t.status && s.world == t.world
    && (s.status.At? ==> forall v :: LiveAt(f, s.status.place, v) ==> s.env(v) == t.env(v))
  }

  lemma {:induction false} ReadsAlike(vregs: seq<int>, a: int -> Value, b: int -> Value)
    requires forall k :: 0 <= k < |vregs| ==> a(vregs[k]) == b(vregs[k])
    ensures ReadAll(vregs, a) == ReadAll(vregs, b)
  {
    if |vregs| > 0 {
      ReadsAlike(vregs[..|vregs| - 1], a, b);
    }
  }

  lemma UsesAlike(f: Function, s: VregState, t: VregState)
    requires SameWhereLive(f, s, t) && s.status.At? && IsPlace(f, s.status.place)
    ensures ReadAll(UsesAt(f, s.status.place), s.env) == ReadAll(UsesAt(f, s.status.place), t.env)
  {
    var p := s.status.place;
    forall k | 0 <= k < |UsesAt(f, p)|
      ensures s.env(UsesAt(f, p)[k]) == t.env(UsesAt(f, p)[k])
    {
      LiveAtStep(f, p, UsesAt(f, p)[k]);
    }
    ReadsAlike(UsesAt(f, p), s.env, t.env);
  }

  lemma StepsAlike(f: Function, sem: Semantics, s: VregState, t: VregState)
    requires InRange(f) && SameWhereLive(f, s, t) && s.status.At? && IsPlace(f, s.status.place)
    ensures SameWhereLive(f, StepOnVregs(f, sem, s), StepOnVregs(f, sem, t))
  {
    var p := s.status.place;
    UsesAlike(f, s, t);
    var s', t' := StepOnVregs(f, sem, s), StepOnVregs(f, sem, t);
    if s'.status.At? {
      var q := s'.status.place;
      assert Follows(f, p, q);
      forall v | LiveAt(f, q, v)
        ensures s'.env(v) == t'.env(v)
      {
        LiveIsInRange(f, q, v);
        LiveAtStep(f, p, v);
      }
    }
  }

  lemma {:induction false} RunsAlike(f: Function, sem: Semantics, s: VregState, t: VregState, steps: nat)
    requires InRange(f) && SameWhereLive(f, s, t)
    ensures RunOnVregs(f, sem, s, steps) == RunOnVregs(f, sem, t, steps)
    decreases steps
  {
    hide StepOnVregs, UsesAt, ReadAll, InRange, LiveAt;
    if steps > 0 && s.status.At? && IsPlace(f, s.status.place) {
      UsesAlike(f, s, t);
      StepsAlike(f, sem, s, t);
      RunsAlike(f, sem, StepOnVregs(f, sem, s), StepOnVregs(f, sem, t), steps - 1);
    }
  }

  // Two runs of an accepted function with the same parameters are the same, whatever the other vregs hold at first.
  lemma OnlyParametersMatter(f: Function, sem: Semantics, env: int -> Value, other: int -> Value, world: World, steps: nat)
    requires OperandsInRange(f) && Accepted(f) && forall v :: v in f.params ==> env(v) == other(v)
    ensures RunOnVregs(f, sem, VregState(At(Place(0, 0)), env, world), steps) == RunOnVregs(f, sem, VregState(At(Place(0, 0)), other, world), steps)
  {
    ChecksGiveInRange(f);
    forall v | LiveAt(f, Place(0, 0), v)
      ensures env(v) == other(v)
    {
      var path :| ReadsUndefined(f, path, v) && path[0] == Place(0, 0);
    }
    RunsAlike(f, sem, VregState(At(Place(0, 0)), env, world), VregState(At(Place(0, 0)), other, world), steps);
  }

  // ---------------------------------------------------------------------------------------
  // Types
  // ---------------------------------------------------------------------------------------

  // Every value that is still needed has the type of its vreg.
  ghost predicate IsTyped(f: Function, hasType: (Value, IrType) -> bool, s: VregState) {
    match s.status
    case At(p) => forall v :: 0 <= v < f.VregCount() && LiveAt(f, p, v) ==> hasType(s.env(v), f.vregTypes[v])
    case Returned(values) => if f.returnType == Void then values == [] else |values| == 1 && hasType(values[0], f.returnType)
    case Stuck => false
  }

  // What an instruction gives has the type of its destination.
  ghost predicate GivesTypes(f: Function, hasType: (Value, IrType) -> bool, sem: Semantics) {
    forall b, i, operands, world :: 0 <= b < |f.blocks| && 0 <= i < |f.blocks[b].insts| && 0 <= f.blocks[b].insts[i].dst < f.VregCount() ==>
      hasType(sem.exec(f.blocks[b].insts[i], operands, world).value, f.vregTypes[f.blocks[b].insts[i].dst])
  }

  // A branch reads one value, an 8-bit integer.
  ghost predicate BranchesOnI8(f: Function, hasType: (Value, IrType) -> bool, event: Event) {
    var p := event.place;
    p.b < |f.blocks| && p.i == |f.blocks[p.b].insts| && f.blocks[p.b].term.Br? ==> |event.operands| == 1 && hasType(event.operands[0], I8)
  }

  lemma StepKeepsTypes(f: Function, hasType: (Value, IrType) -> bool, sem: Semantics, s: VregState)
    requires Accepted(f) && InRange(f) && GivesTypes(f, hasType, sem) && IsTyped(f, hasType, s) && s.status.At? && IsPlace(f, s.status.place)
    ensures IsTyped(f, hasType, StepOnVregs(f, sem, s))
  {
    var p, s' := s.status.place, StepOnVregs(f, sem, s);
    StepIsSafe(f, sem, s);
    if s'.status.At? {
      var q := s'.status.place;
      assert Follows(f, p, q);
      forall v | 0 <= v < f.VregCount() && LiveAt(f, q, v)
        ensures hasType(s'.env(v), f.vregTypes[v])
      {
        LiveAtStep(f, p, v);
      }
    } else {
      ReturnsItsVreg(f, sem, s);
      if f.returnType != Void {
        LiveAtStep(f, p, f.blocks[p.b].term.value);
      }
    }
  }

  lemma BranchReadsI8(f: Function, hasType: (Value, IrType) -> bool, s: VregState)
    requires Accepted(f) && IsTyped(f, hasType, s) && s.status.At? && IsPlace(f, s.status.place)
    ensures BranchesOnI8(f, hasType, Event(s.status.place, ReadAll(UsesAt(f, s.status.place), s.env)))
  {
    var p := s.status.place;
    TermsAreOk(f, p.b);
    if p.i == |f.blocks[p.b].insts| && f.blocks[p.b].term.Br? {
      LiveAtStep(f, p, f.blocks[p.b].term.cond);
      assert [f.blocks[p.b].term.cond][..0] == [];
    }
  }

  // When instructions give values of their types and the parameters have theirs, so does everything that is read: every
  // branch is on an 8-bit integer, and what is returned has the return type.
  lemma {:induction false} RunKeepsTypes(f: Function, hasType: (Value, IrType) -> bool, sem: Semantics, s: VregState, steps: nat)
    requires Accepted(f) && InRange(f) && GivesTypes(f, hasType, sem) && IsTyped(f, hasType, s) && IsSafe(f, s.status)
    ensures var run := RunOnVregs(f, sem, s, steps);
            && (forall k :: 0 <= k < |run.events| ==> BranchesOnI8(f, hasType, run.events[k]))
            && (run.status.Returned? ==> if f.returnType == Void then run.status.values == []
                                         else |run.status.values| == 1 && hasType(run.status.values[0], f.returnType))
    decreases steps
  {
    hide StepOnVregs, BranchesOnI8, UsesAt, ReadAll, Accepted, InRange, GivesTypes, LiveAt;
    if steps > 0 && s.status.At? {
      BranchReadsI8(f, hasType, s);
      StepKeepsTypes(f, hasType, sem, s);
      StepIsSafe(f, sem, s);
      RunKeepsTypes(f, hasType, sem, StepOnVregs(f, sem, s), steps - 1);
    }
  }

  // The same for a function that the verifier accepts, from its entry.
  lemma AcceptedRunsKeepTypes(f: Function, hasType: (Value, IrType) -> bool, sem: Semantics, env: int -> Value, world: World, steps: nat)
    requires OperandsInRange(f) && Accepted(f) && GivesTypes(f, hasType, sem)
    requires forall v :: v in f.params && 0 <= v < f.VregCount() ==> hasType(env(v), f.vregTypes[v])
    ensures var run := RunOnVregs(f, sem, VregState(At(Place(0, 0)), env, world), steps);
            && (forall k :: 0 <= k < |run.events| ==> BranchesOnI8(f, hasType, run.events[k]))
            && (run.status.Returned? ==> if f.returnType == Void then run.status.values == []
                                         else |run.status.values| == 1 && hasType(run.status.values[0], f.returnType))
  {
    ChecksGiveInRange(f);
    forall v | LiveAt(f, Place(0, 0), v)
      ensures v in f.params
    {
      var path :| ReadsUndefined(f, path, v) && path[0] == Place(0, 0);
    }
    RunKeepsTypes(f, hasType, sem, VregState(At(Place(0, 0)), env, world), steps);
  }
}
