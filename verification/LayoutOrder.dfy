/** Why the layout matters: an accepted function whose value is lost over a call, because the block that
    opens with the call is laid out before the block that defines the value. */
module LayoutOrder {
  import opened Ir
  import opened Liveness
  import opened Verifier
  import opened LinearScan
  import opened RegAlloc
  import opened LiveRanges
  import opened Execution
  import Calls

  const DEFINE := Inst(Const, I64, 7, 0, [])
  const CALL := Inst(CallOp, Void, 0, NO_VREG, [])

  // entry: jmp define      use: call; ret v0      define: v0 = const; jmp use
  const EXAMPLE := Function([I64], [], I64, [Block([], Jmp(2)), Block([CALL], Ret(0)), Block([DEFINE], Jmp(1))])

  const LIVE := LiveSets([{}, {0}, {}], [{}, {}, {0}])
  const INTERVAL := Interval(4, 10, Gpr, false)

  lemma ExampleInRange()
    ensures InRange(EXAMPLE) && OperandsInRange(EXAMPLE)
  {
  }

  lemma LiveAtUse(v: int)
    ensures LiveAt(EXAMPLE, Place(1, 1), v) <==> v == 0
  {
    LiveAtStep(EXAMPLE, Place(1, 1), v);
  }

  lemma LiveAtCall(v: int)
    requires v != NO_VREG
    ensures LiveAt(EXAMPLE, Place(1, 0), v) <==> v == 0
  {
    LiveAtUse(v);
    LiveAtStep(EXAMPLE, Place(1, 0), v);
    assert Follows(EXAMPLE, Place(1, 0), Place(1, 1));
  }

  lemma LiveAfterDefinition(v: int)
    requires v != NO_VREG
    ensures LiveAt(EXAMPLE, Place(2, 1), v) <==> v == 0
  {
    LiveAtCall(v);
    LiveAtStep(EXAMPLE, Place(2, 1), v);
    assert Follows(EXAMPLE, Place(2, 1), Place(1, 0));
  }

  lemma LiveBeforeDefinition(v: int)
    requires v != NO_VREG
    ensures !LiveAt(EXAMPLE, Place(2, 0), v) && !LiveAt(EXAMPLE, Place(0, 0), v)
  {
    LiveAfterDefinition(v);
    LiveAtStep(EXAMPLE, Place(2, 0), v);
    LiveAtStep(EXAMPLE, Place(0, 0), v);
  }

  lemma NoVregIsNotLive(p: Place)
    ensures !LiveAt(EXAMPLE, p, NO_VREG)
  {
    ExampleInRange();
    if LiveAt(EXAMPLE, p, NO_VREG) {
      LiveIsInRange(EXAMPLE, p, NO_VREG);
    }
  }

  lemma LiveBlockStarts(b: nat, v: int)
    requires b < 3
    ensures v in LIVE.liveIn[b] <==> LiveAt(EXAMPLE, Place(b, 0), v)
  {
    if v == NO_VREG {
      NoVregIsNotLive(Place(b, 0));
    } else {
      LiveAtCall(v);
      LiveBeforeDefinition(v);
    }
  }

  lemma LiveBlockEnds(b: nat, v: int)
    requires b < 3
    ensures v in LIVE.liveOut[b] <==> LeavesLive(EXAMPLE, b, v)
  {
    var targets := Successors(EXAMPLE.blocks[b].term);
    assert b == 0 ==> targets == [2];
    assert b == 1 ==> targets == [];
    assert b == 2 ==> targets == [1];
    LiveBlockStarts(1, v);
    LiveBlockStarts(2, v);
  }

  lemma ExampleLiveness()
    ensures IsLiveness(EXAMPLE, LIVE)
  {
    forall b: nat, v: int | b < 3
      ensures v in LIVE.liveIn[b] <==> LiveAt(EXAMPLE, Place(b, 0), v)
      ensures v in LIVE.liveOut[b] <==> LeavesLive(EXAMPLE, b, v)
    {
      LiveBlockStarts(b, v);
      LiveBlockEnds(b, v);
    }
  }

  lemma ExampleStarts()
    ensures BlockStart(EXAMPLE, 1) == 4 && BlockStart(EXAMPLE, 2) == 8 && BlockStart(EXAMPLE, 0) == 2
  {
    assert BlockStart(EXAMPLE, 1) == BlockStart(EXAMPLE, 0) + 2;
    assert BlockStart(EXAMPLE, 2) == BlockStart(EXAMPLE, 1) + 4;
  }

  lemma HullOfTouches(touched: set<int>)
    requires touched == {4, 6, 8, 10}
    ensures Hull(INTERVAL, touched)
  {
  }

  lemma ExampleTouches()
    ensures Hull(INTERVAL, Touches(EXAMPLE, LIVE, 3, 0))
  {
    HullOfTouches({4, 6, 8, 10});
    ExampleStarts();
    assert InstTouches(EXAMPLE, 1, 1, 0) == {};
    assert InstTouches(EXAMPLE, 2, 1, 0) == {8};
    assert BlockTouches(EXAMPLE, LIVE, 0, 0) == {};
    assert BlockTouches(EXAMPLE, LIVE, 1, 0) == {4, 6};
    assert BlockTouches(EXAMPLE, LIVE, 2, 0) == {8, 10};
    assert Touches(EXAMPLE, LIVE, 1, 0) == {};
    assert Touches(EXAMPLE, LIVE, 2, 0) == {4, 6};
    assert Touches(EXAMPLE, LIVE, 3, 0) == {4, 6, 8, 10};
  }

  // The call is at 4, and the interval [4, 10] starts there, so the call is not strictly inside.
  lemma ExampleCrossesNothing()
    ensures !CrossesCall(EXAMPLE, 4, 10)
  {
    ExampleStarts();
    forall p | CallAt(EXAMPLE, p)
      ensures Position(EXAMPLE, p) == 4
    {
      assert p == Place(1, 0);
    }
  }

  lemma ExampleDefinesOnce()
    ensures DefinitionCount(EXAMPLE, 0) == 1
  {
    assert DefsInInsts([DEFINE], 0) == 1 && DefsInInsts([CALL], 0) == 0;
    var blocks := EXAMPLE.blocks;
    assert blocks[..2][..1] == blocks[..1];
    assert DefsInBlocks(blocks[..1], 0) == 0;
    assert DefsInBlocks(blocks[..2], 0) == 0;
  }

  lemma ExampleReadsNothingUndefined()
    ensures NothingReadUndefined(EXAMPLE)
  {
    ExampleLiveness();
    EntryLiveInIsThePromise(EXAMPLE, LIVE);
  }

  lemma ExampleTermsOk()
    ensures forall b :: 0 <= b < 3 ==> TermOk(EXAMPLE, EXAMPLE.blocks[b].term)
  {
  }

  lemma ExampleUsesDefined()
    ensures forall b :: 0 <= b < 3 ==> BlockUsesDefined(EXAMPLE, EXAMPLE.blocks[b])
  {
    ExampleDefinesOnce();
    assert UsesDefined(EXAMPLE, []) && UsesDefined(EXAMPLE, [0]);
  }

  // The verifier accepts the function.
  lemma ExampleIsAccepted()
    ensures Accepted(EXAMPLE)
  {
    ExampleDefinesOnce();
    ExampleTermsOk();
    ExampleUsesDefined();
    ExampleReadsNothingUndefined();
  }

  lemma OneInterval(f: Function, live: LiveSets, interval: Interval)
    requires |live.liveIn| == |f.blocks| == |live.liveOut| && f.VregCount() == 1
    requires Hull(interval, Touches(f, live, |f.blocks|, 0)) && interval.regClass == ClassOf(f.vregTypes[0])
    requires interval.crossesCall <==> CrossesCall(f, interval.start, interval.end)
    ensures AreIntervals(f, live, [interval])
  {
    var intervals := [interval];
    forall v: nat | v < |intervals|
      ensures Hull(intervals[v], Touches(f, live, |f.blocks|, v)) && intervals[v].regClass == ClassOf(f.vregTypes[v])
      ensures intervals[v].crossesCall <==> CrossesCall(f, intervals[v].start, intervals[v].end)
    {
      assert v == 0;
    }
  }

  // ---------------------------------------------------------------------------------------
  // What the allocation makes of it
  // ---------------------------------------------------------------------------------------

  function Allocation(reg: nat): RegAllocResult {
    RegAllocResult([InReg(reg)], [INTERVAL], 0, seq(MAX_REGS, _ => false))
  }

  lemma OneVregAllocation(f: Function, target: Target, live: LiveSets, interval: Interval, reg: nat)
    requires IsLiveness(f, live) && AreIntervals(f, live, [interval])
    requires interval.Used() && Allowed(target, interval, reg) && reg !in target.calleeSaved
    ensures IsAllocation(f, target, live, RegAllocResult([InReg(reg)], [interval], 0, seq(MAX_REGS, _ => false)))
  {
    assert ValidLocation(target, interval, InReg(reg), 0);
    assert ValidAllocation(target, [interval], [InReg(reg)], 0);
  }

  // Any caller-saved register is a valid place for the value.
  lemma CallerSavedIsAllocation(target: Target, reg: nat)
    requires target.Valid() && reg in target.gprs && reg !in target.calleeSaved
    ensures IsAllocation(EXAMPLE, target, LIVE, Allocation(reg))
  {
    ExampleLiveness();
    ExampleTouches();
    ExampleCrossesNothing();
    OneInterval(EXAMPLE, LIVE, INTERVAL);
    OneVregAllocation(EXAMPLE, target, LIVE, INTERVAL, reg);
  }

  lemma LivenessIsUnique(live: LiveSets)
    requires IsLiveness(EXAMPLE, live)
    ensures live == LIVE
  {
    ExampleLiveness();
    forall b | 0 <= b < 3
      ensures live.liveIn[b] == LIVE.liveIn[b] && live.liveOut[b] == LIVE.liveOut[b]
    {
      forall v: int
        ensures v in live.liveIn[b] <==> v in LIVE.liveIn[b]
        ensures v in live.liveOut[b] <==> v in LIVE.liveOut[b]
      {
      }
    }
  }

  // The only interval starts at the call and does not count as one across it.
  lemma IntervalIsUnique(intervals: seq<Interval>)
    requires AreIntervals(EXAMPLE, LIVE, intervals)
    ensures intervals == [INTERVAL]
  {
    ExampleTouches();
    ExampleCrossesNothing();
    HullIsUnique(intervals[0], INTERVAL, Touches(EXAMPLE, LIVE, 3, 0));
  }

  lemma HullIsUnique(a: Interval, b: Interval, touched: set<int>)
    requires Hull(a, touched) && Hull(b, touched)
    ensures a.start == b.start && a.end == b.end
  {
    if touched != {} {
      assert b.Contains(a.start) && b.Contains(a.end);
    }
  }

  lemma NobodyElse(interval: Interval, holders: map<nat, nat>)
    requires AreHolders([interval], 0, holders)
    ensures forall reg :: reg !in holders
  {
  }

  lemma AloneIsNotCrowded(target: Target, interval: Interval, v: nat)
    requires var pool := target.Pool(interval.regClass); |pool| > 0 && Allowed(target, interval, pool[0])
    ensures !Crowded(target, [interval], v)
  {
    if v == 0 {
      forall holders: map<nat, nat>
        ensures !HoldersAt(target, [interval], 0, holders)
      {
        if AreHolders([interval], 0, holders) {
          NobodyElse(interval, holders);
        }
        assert Allowed(target, [interval][0], target.Pool(interval.regClass)[0]);
      }
    }
  }

  lemma AloneIsFirst(target: Target, interval: Interval, reg: nat, i: nat, holders: map<nat, nat>)
    requires var pool := target.Pool(interval.regClass); |pool| > 0 && Allowed(target, interval, pool[0])
    requires PassedOver(target, [interval], 0, reg, i, holders)
    ensures reg == target.Pool(interval.regClass)[0]
  {
    NobodyElse(interval, holders);
    assert target.Pool(interval.regClass)[0] !in holders;
  }

  // Alone, an interval holds the first register of its pool that it may have.
  lemma AloneHasTheFirst(target: Target, interval: Interval, locations: seq<Location>, spillCount: nat)
    requires ValidAllocation(target, [interval], locations, spillCount) && AllPreferred(target, [interval], locations)
    requires spillCount > 0 ==> exists v: nat :: Crowded(target, [interval], v)
    requires var pool := target.Pool(interval.regClass); |pool| > 0 && Allowed(target, interval, pool[0])
    requires interval.Used()
    ensures locations == [InReg(target.Pool(interval.regClass)[0])]
  {
    var intervals := [interval];
    assert ValidLocation(target, intervals[0], locations[0], spillCount);
    forall v: nat
      ensures !Crowded(target, intervals, v)
    {
      AloneIsNotCrowded(target, interval, v);
    }
    assert Preferred(target, intervals, 0, locations[0].reg);
    var i: nat, holders: map<nat, nat> :| PassedOver(target, intervals, 0, locations[0].reg, i, holders);
    AloneIsFirst(target, interval, locations[0].reg, i, holders);
  }

  lemma ExampleHasTheFirst(live: LiveSets, result: RegAllocResult)
    requires IsAllocation(EXAMPLE, Calls.WIN64, live, result) && AllPreferred(Calls.WIN64, result.intervals, result.locations)
    requires result.spillSlotCount > 0 ==> exists v: nat :: Crowded(Calls.WIN64, result.intervals, v)
    ensures live == LIVE && result.intervals == [INTERVAL] && result.locations == [InReg(8)]
  {
    LivenessIsUnique(live);
    IntervalIsUnique(result.intervals);
    assert Calls.WIN64.gprs[0] == 8;
    AloneHasTheFirst(Calls.WIN64, INTERVAL, result.locations, result.spillSlotCount);
  }

  lemma EightIsNotSaved()
    ensures 8 !in Calls.WIN64.calleeSaved
  {
  }

  lemma ExampleCanBeAllocated()
    ensures InRange(EXAMPLE) && PositionsFit(EXAMPLE) && Calls.WIN64.Valid()
  {
    ExampleInRange();
    ExampleStarts();
    assert BlockStart(EXAMPLE, 3) == BlockStart(EXAMPLE, 2) + 4;
    assert forall k :: 0 <= k < |Calls.WIN64.gprs| ==> Calls.WIN64.gprs[k] < MAX_REGS;
    assert forall k :: 0 <= k < |Calls.WIN64.fprs| ==> Calls.WIN64.fprs[k] < MAX_REGS;
  }

  // The allocation gives the value r8, which a call does not keep.
  method AllocateExample() returns (result: RegAllocResult)
    ensures result.locations == [InReg(8)] && 8 !in Calls.WIN64.calleeSaved
  {
    hide InRange, PositionsFit, IsAllocation, AllPreferred, Crowded;
    ExampleCanBeAllocated();
    EightIsNotSaved();
    ghost var live;
    result, live := RegallocFunction(EXAMPLE, Calls.WIN64);
    ExampleHasTheFirst(live, result);
  }

  // ---------------------------------------------------------------------------------------
  // The runs
  // ---------------------------------------------------------------------------------------

  lemma VregsFromUse(sem: Semantics, s: VregState)
    requires s.status == At(Place(1, 1))
    ensures RunOnVregs(EXAMPLE, sem, s, 1).status == Returned([s.env(0)])
  {
    assert [0][..0] == [];
    assert ReadAll([0], s.env) == [s.env(0)];
    assert RunOnVregs(EXAMPLE, sem, StepOnVregs(EXAMPLE, sem, s), 0).status == Returned([s.env(0)]);
  }

  lemma VregsFromCall(sem: Semantics, s: VregState)
    requires s.status == At(Place(1, 0))
    ensures RunOnVregs(EXAMPLE, sem, s, 2).status == Returned([s.env(0)])
  {
    VregsFromUse(sem, StepOnVregs(EXAMPLE, sem, s));
  }

  lemma VregsFromDefinition(sem: Semantics, s: VregState, x: Value)
    requires s.status == At(Place(2, 0)) && forall inst, operands, world :: sem.exec(inst, operands, world).value == x
    ensures RunOnVregs(EXAMPLE, sem, s, 4).status == Returned([x])
  {
    var s1 := StepOnVregs(EXAMPLE, sem, s);
    assert s1.status == At(Place(2, 1)) && s1.env(0) == x;
    var s2 := StepOnVregs(EXAMPLE, sem, s1);
    VregsFromCall(sem, s2);
    assert RunOnVregs(EXAMPLE, sem, s1, 3).status == RunOnVregs(EXAMPLE, sem, s2, 2).status;
  }

  lemma MachineFromUse(sem: Semantics, target: Target, reg: nat, junk: (nat, nat) -> Value, m: MachineState)
    requires m.status == At(Place(1, 1))
    ensures RunOnMachine(EXAMPLE, sem, target, [InReg(reg)], junk, m, 1).status == Returned([m.regs(reg)])
  {
    var read := LocationReader([InReg(reg)], m.regs, m.slots);
    assert [0][..0] == [];
    assert ReadAll([0], read) == [read(0)];
    assert RunOnMachine(EXAMPLE, sem, target, [InReg(reg)], junk, StepOnMachine(EXAMPLE, sem, target, [InReg(reg)], junk, m), 0).status
        == Returned([m.regs(reg)]);
  }

  lemma MachineFromCall(sem: Semantics, target: Target, reg: nat, junk: (nat, nat) -> Value, m: MachineState)
    requires m.status == At(Place(1, 0)) && reg !in target.calleeSaved
    ensures RunOnMachine(EXAMPLE, sem, target, [InReg(reg)], junk, m, 2).status == Returned([junk(m.time, reg)])
  {
    var m' := StepOnMachine(EXAMPLE, sem, target, [InReg(reg)], junk, m);
    assert m'.status == At(Place(1, 1)) && m'.regs(reg) == junk(m.time, reg);
    MachineFromUse(sem, target, reg, junk, m');
  }

  lemma MachineFromDefinition(sem: Semantics, target: Target, reg: nat, junk: (nat, nat) -> Value, m: MachineState)
    requires m.status == At(Place(2, 0)) && reg !in target.calleeSaved
    ensures RunOnMachine(EXAMPLE, sem, target, [InReg(reg)], junk, m, 4).status == Returned([junk(m.time + 2, reg)])
  {
    var m1 := StepOnMachine(EXAMPLE, sem, target, [InReg(reg)], junk, m);
    assert m1.status == At(Place(2, 1));
    var m2 := StepOnMachine(EXAMPLE, sem, target, [InReg(reg)], junk, m1);
    assert m2.status == At(Place(1, 0));
    MachineFromCall(sem, target, reg, junk, m2);
    assert RunOnMachine(EXAMPLE, sem, target, [InReg(reg)], junk, m1, 3).status
        == RunOnMachine(EXAMPLE, sem, target, [InReg(reg)], junk, m2, 2).status;
  }

  // The call in front of the use takes the value away: the run on vregs returns the value that was defined, the run on
  // the machine returns what the call left in the register.
  lemma ValueIsLost(sem: Semantics, target: Target, reg: nat, junk: (nat, nat) -> Value, s: VregState, m: MachineState, x: Value)
    requires reg !in target.calleeSaved
    requires forall inst, operands, world :: sem.exec(inst, operands, world).value == x
    requires s.status == At(Place(0, 0)) == m.status
    ensures RunOnVregs(EXAMPLE, sem, s, 5).status == Returned([x])
    ensures RunOnMachine(EXAMPLE, sem, target, [InReg(reg)], junk, m, 5).status == Returned([junk(m.time + 3, reg)])
  {
    var s' := StepOnVregs(EXAMPLE, sem, s);
    assert s'.status == At(Place(2, 0));
    VregsFromDefinition(sem, s', x);
    var m' := StepOnMachine(EXAMPLE, sem, target, [InReg(reg)], junk, m);
    assert m'.status == At(Place(2, 0));
    MachineFromDefinition(sem, target, reg, junk, m');
  }

  // So with what the allocation gives, the compiled function returns something else than the function, for every junk
  // that differs from the value.
  lemma AllocationLosesTheValue(result: RegAllocResult, live: LiveSets, sem: Semantics, junk: (nat, nat) -> Value, s: VregState, m: MachineState, x: Value)
    requires IsAllocation(EXAMPLE, Calls.WIN64, live, result) && AllPreferred(Calls.WIN64, result.intervals, result.locations)
    requires result.spillSlotCount > 0 ==> exists v: nat :: Crowded(Calls.WIN64, result.intervals, v)
    requires (forall inst, operands, world :: sem.exec(inst, operands, world).value == x) && junk(m.time + 3, 8) != x
    requires s.status == At(Place(0, 0)) == m.status
    ensures Accepted(EXAMPLE) && OperandsInRange(EXAMPLE)
    ensures RunOnVregs(EXAMPLE, sem, s, 5).status == Returned([x])
    ensures RunOnMachine(EXAMPLE, sem, Calls.WIN64, result.locations, junk, m, 5).status == Returned([junk(m.time + 3, 8)]) != Returned([x])
  {
    hide Accepted, OperandsInRange, IsAllocation, AllPreferred, Crowded, RunOnVregs, RunOnMachine;
    ExampleIsAccepted();
    ExampleInRange();
    ExampleHasTheFirst(live, result);
    EightIsNotSaved();
    ValueIsLost(sem, Calls.WIN64, 8, junk, s, m, x);
  }
}
