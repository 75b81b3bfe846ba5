/** Register allocation preserves meaning: the machine run reads the same operand values, takes the same
    branches, changes the world the same way and returns the same value as the run on vregs. */
module Simulation {
  import opened Ir
  import opened Liveness
  import opened Verifier
  import opened LinearScan
  import opened RegAlloc
  import opened LiveRanges
  import opened Execution

  // Every live vreg has its value in its location.
  ghost predicate Agree(f: Function, locations: seq<Location>, p: Place, env: int -> Value, regs: nat -> Value, slots: nat -> Value) {
    forall v :: LiveAt(f, p, v) ==> env(v) == LocationReader(locations, regs, slots)(v)
  }

  ghost predicate Matches(f: Function, locations: seq<Location>, s: VregState, m: MachineState) {
    && s.status == m.status && s.world == m.world
    && (s.status.At? ==> Agree(f, locations, s.status.place, s.env, m.regs, m.slots))
  }

  // What the theorem needs to know of an allocation
  ghost predicate Allocated(f: Function, target: Target, live: LiveSets, result: RegAllocResult) {
    && InRange(f) && IsAllocation(f, target, live, result)
    && CrossingsAreMarked(f, result.intervals)
  }

  // ---------------------------------------------------------------------------------------
  // Locations that do not disturb each other
  // ---------------------------------------------------------------------------------------

  // Vregs whose intervals meet have different registers, or different slots.
  lemma MeetingIntervalsAreApart(target: Target, intervals: seq<Interval>, locations: seq<Location>, spillCount: nat, v: nat, w: nat, p: int)
    requires ValidAllocation(target, intervals, locations, spillCount)
    requires v < |intervals| && w < |intervals| && v != w
    requires intervals[v].Contains(p) && intervals[w].Contains(p)
    ensures locations[v] != locations[w] && !locations[v].NoLocation?
  {
    assert Compatible(intervals, locations, v, w);
    assert ValidLocation(target, intervals[v], locations[v], spillCount);
    assert ValidLocation(target, intervals[w], locations[w], spillCount);
  }

  // The invariant the emitter relies on for two-address code: a destination never shares its register
  // (or slot) with an operand of the same instruction, so 'mov dst, a; op dst, b' still reads b.
  lemma DestinationSparesOperands(f: Function, target: Target, live: LiveSets, result: RegAllocResult, p: Place, dst: nat, operand: nat)
    requires InRange(f) && IsAllocation(f, target, live, result)
    requires IsPlace(f, p) && DefAt(f, p) == dst && operand in UsesAt(f, p) && dst != operand
    requires dst < f.VregCount() && operand < f.VregCount()
    ensures result.locations[dst] != result.locations[operand]
  {
    OperandsAreContained(f, live, result.intervals, p, dst);
    OperandsAreContained(f, live, result.intervals, p, operand);
    MeetingIntervalsAreApart(target, result.intervals, result.locations, result.spillSlotCount, dst, operand, Position(f, p));
  }

  // A value that lives across an instruction keeps its location through it.
  lemma LiveAcrossKeepsLocation(f: Function, target: Target, live: LiveSets, result: RegAllocResult, p: Place, v: nat)
    requires Allocated(f, target, live, result) && v < f.VregCount() && LiveAcross(f, p, v)
    ensures |result.locations| == f.VregCount()
    ensures !result.locations[v].NoLocation?
    ensures result.locations[v].InReg? ==> Survives(target, f.blocks[p.b].insts[p.i], result.locations[v].reg)
    ensures 0 <= DefAt(f, p) < f.VregCount() ==> result.locations[DefAt(f, p)] != result.locations[v]
  {
    LiveAcrossIsLive(f, p, v);
    LiveIsContained(f, live, result.intervals, p, v);
    assert ValidLocation(target, result.intervals[v], result.locations[v], result.spillSlotCount);
    if IsCallLike(f.blocks[p.b].insts[p.i]) {
      assert CallAt(f, p);
    }
    if 0 <= DefAt(f, p) < f.VregCount() {
      OperandsAreContained(f, live, result.intervals, p, DefAt(f, p));
      MeetingIntervalsAreApart(target, result.intervals, result.locations, result.spillSlotCount, DefAt(f, p), v, Position(f, p));
    }
  }

  // ---------------------------------------------------------------------------------------
  // One step
  // ---------------------------------------------------------------------------------------

  lemma {:induction false} SameReads(vregs: seq<int>, a: int -> Value, b: int -> Value)
    requires forall k :: 0 <= k < |vregs| ==> a(vregs[k]) == b(vregs[k])
    ensures ReadAll(vregs, a) == ReadAll(vregs, b)
  {
    if |vregs| > 0 {
      SameReads(vregs[..|vregs| - 1], a, b);
    }
  }

  lemma SameOperands(f: Function, locations: seq<Location>, p: Place, env: int -> Value, regs: nat -> Value, slots: nat -> Value)
    requires IsPlace(f, p) && Agree(f, locations, p, env, regs, slots)
    ensures ReadAll(UsesAt(f, p), env) == ReadAll(UsesAt(f, p), LocationReader(locations, regs, slots))
  {
    forall k | 0 <= k < |UsesAt(f, p)|
      ensures env(UsesAt(f, p)[k]) == LocationReader(locations, regs, slots)(UsesAt(f, p)[k])
    {
      LiveAtStep(f, p, UsesAt(f, p)[k]);
    }
    SameReads(UsesAt(f, p), env, LocationReader(locations, regs, slots));
  }

  lemma DestinationIsPlaced(f: Function, target: Target, live: LiveSets, result: RegAllocResult, p: Place)
    requires InRange(f) && IsAllocation(f, target, live, result)
    requires IsPlace(f, p) && 0 <= DefAt(f, p) < f.VregCount()
    ensures |result.locations| == f.VregCount() && !result.locations[DefAt(f, p)].NoLocation?
  {
    OperandsAreContained(f, live, result.intervals, p, DefAt(f, p));
    assert ValidLocation(target, result.intervals[DefAt(f, p)], result.locations[DefAt(f, p)], result.spillSlotCount);
  }

  // Reading a location that survives an instruction, and is not its destination, gives the same value after it.
  lemma SurvivorIsUnchanged(f: Function, sem: Semantics, target: Target, locations: seq<Location>, junk: (nat, nat) -> Value,
                            m: MachineState, v: nat)
    requires m.status.At? && IsPlace(f, m.status.place) && m.status.place.i < |f.blocks[m.status.place.b].insts| && v < |locations|
    requires locations[v].InReg? ==> Survives(target, f.blocks[m.status.place.b].insts[m.status.place.i], locations[v].reg)
    requires !locations[v].NoLocation?
    requires 0 <= DefAt(f, m.status.place) < |locations| ==> locations[DefAt(f, m.status.place)] != locations[v]
    ensures var m' := StepOnMachine(f, sem, target, locations, junk, m);
      LocationReader(locations, m'.regs, m'.slots)(v) == LocationReader(locations, m.regs, m.slots)(v)
  {
  }

  // The destination's location has the result after the instruction.
  lemma ResultIsInPlace(f: Function, sem: Semantics, target: Target, locations: seq<Location>, junk: (nat, nat) -> Value, m: MachineState)
    requires m.status.At? && IsPlace(f, m.status.place) && m.status.place.i < |f.blocks[m.status.place.b].insts|
    requires 0 <= DefAt(f, m.status.place) < |locations| && !locations[DefAt(f, m.status.place)].NoLocation?
    ensures
      var m' := StepOnMachine(f, sem, target, locations, junk, m);
      var p := m.status.place;
      var operands := ReadAll(UsesAt(f, p), LocationReader(locations, m.regs, m.slots));
      LocationReader(locations, m'.regs, m'.slots)(DefAt(f, p)) == sem.exec(f.blocks[p.b].insts[p.i], operands, m.world).value
  {
  }

  lemma StepReaches(f: Function, sem: Semantics, target: Target, locations: seq<Location>, junk: (nat, nat) -> Value, m: MachineState)
    requires m.status.At? && IsPlace(f, m.status.place) && m.status.place.i < |f.blocks[m.status.place.b].insts|
    ensures
      var m' := StepOnMachine(f, sem, target, locations, junk, m);
      var p := m.status.place;
      var operands := ReadAll(UsesAt(f, p), LocationReader(locations, m.regs, m.slots));
      m'.status == At(Place(p.b, p.i + 1)) && m'.world == sem.exec(f.blocks[p.b].insts[p.i], operands, m.world).world
  {
  }

  lemma AcrossAgrees(f: Function, sem: Semantics, target: Target, locations: seq<Location>, junk: (nat, nat) -> Value,
                     s: VregState, m: MachineState, v: nat)
    requires s.status.At? && Matches(f, locations, s, m) && LiveAcross(f, s.status.place, v) && v < |locations|
    requires locations[v].InReg? ==> Survives(target, f.blocks[m.status.place.b].insts[m.status.place.i], locations[v].reg)
    requires !locations[v].NoLocation?
    requires 0 <= DefAt(f, m.status.place) < |locations| ==> locations[DefAt(f, m.status.place)] != locations[v]
    ensures var m' := StepOnMachine(f, sem, target, locations, junk, m);
      StepOnVregs(f, sem, s).env(v) == LocationReader(locations, m'.regs, m'.slots)(v)
  {
    LiveAcrossIsLive(f, s.status.place, v);
    SurvivorIsUnchanged(f, sem, target, locations, junk, m, v);
  }

  lemma ResultAgrees(f: Function, sem: Semantics, target: Target, locations: seq<Location>, junk: (nat, nat) -> Value,
                     s: VregState, m: MachineState)
    requires s.status.At? && IsPlace(f, s.status.place) && s.status.place.i < |f.blocks[s.status.place.b].insts|
    requires Matches(f, locations, s, m)
    requires 0 <= DefAt(f, m.status.place) < |locations| && !locations[DefAt(f, m.status.place)].NoLocation?
    ensures var m' := StepOnMachine(f, sem, target, locations, junk, m);
      StepOnVregs(f, sem, s).env(DefAt(f, m.status.place)) == LocationReader(locations, m'.regs, m'.slots)(DefAt(f, m.status.place))
  {
    SameOperands(f, locations, s.status.place, s.env, m.regs, m.slots);
    ResultIsInPlace(f, sem, target, locations, junk, m);
  }

  // What is live after the instruction agrees after it.
  lemma LiveAfterAgrees(f: Function, sem: Semantics, target: Target, live: LiveSets, result: RegAllocResult,
                        junk: (nat, nat) -> Value, s: VregState, m: MachineState, v: int)
    requires Allocated(f, target, live, result)
    requires s.status.At? && IsPlace(f, s.status.place) && s.status.place.i < |f.blocks[s.status.place.b].insts|
    requires Matches(f, result.locations, s, m)
    requires LiveAt(f, Place(s.status.place.b, s.status.place.i + 1), v)
    ensures var m' := StepOnMachine(f, sem, target, result.locations, junk, m);
      StepOnVregs(f, sem, s).env(v) == LocationReader(result.locations, m'.regs, m'.slots)(v)
  {
    var p := s.status.place;
    LiveIsInRange(f, Place(p.b, p.i + 1), v);
    if v == DefAt(f, p) {
      DestinationIsPlaced(f, target, live, result, p);
      ResultAgrees(f, sem, target, result.locations, junk, s, m);
    } else {
      LiveAcrossKeepsLocation(f, target, live, result, p, v);
      AcrossAgrees(f, sem, target, result.locations, junk, s, m, v);
    }
  }

  lemma InstructionStep(f: Function, sem: Semantics, target: Target, live: LiveSets, result: RegAllocResult,
                        junk: (nat, nat) -> Value, s: VregState, m: MachineState)
    requires Allocated(f, target, live, result)
    requires s.status.At? && IsPlace(f, s.status.place) && s.status.place.i < |f.blocks[s.status.place.b].insts|
    requires Matches(f, result.locations, s, m)
    ensures Matches(f, result.locations, StepOnVregs(f, sem, s), StepOnMachine(f, sem, target, result.locations, junk, m))
  {
    var p := s.status.place;
    SameOperands(f, result.locations, p, s.env, m.regs, m.slots);
    StepReaches(f, sem, target, result.locations, junk, m);
    forall v | LiveAt(f, Place(p.b, p.i + 1), v)
      ensures StepOnVregs(f, sem, s).env(v)
           == LocationReader(result.locations, StepOnMachine(f, sem, target, result.locations, junk, m).regs,
                             StepOnMachine(f, sem, target, result.locations, junk, m).slots)(v)
    {
      LiveAfterAgrees(f, sem, target, live, result, junk, s, m, v);
    }
  }

  lemma TerminatorStep(f: Function, sem: Semantics, target: Target, locations: seq<Location>, junk: (nat, nat) -> Value,
                       s: VregState, m: MachineState)
    requires InRange(f) && s.status.At? && IsPlace(f, s.status.place) && s.status.place.i == |f.blocks[s.status.place.b].insts|
    requires Matches(f, locations, s, m)
    ensures Matches(f, locations, StepOnVregs(f, sem, s), StepOnMachine(f, sem, target, locations, junk, m))
  {
    var p := s.status.place;
    SameOperands(f, locations, p, s.env, m.regs, m.slots);
    var s' := StepOnVregs(f, sem, s);
    if s'.status.At? {
      var q := s'.status.place;
      assert Follows(f, p, q);
      forall v | LiveAt(f, q, v)
        ensures s'.env(v) == LocationReader(locations, m.regs, m.slots)(v)
      {
        LiveIsInRange(f, q, v);
        LiveAtStep(f, p, v);
      }
    }
  }

  // ---------------------------------------------------------------------------------------
  // Whole runs
  // ---------------------------------------------------------------------------------------

  lemma {:induction false} MatchingRuns(f: Function, sem: Semantics, target: Target, live: LiveSets, result: RegAllocResult,
                                        junk: (nat, nat) -> Value, s: VregState, m: MachineState, steps: nat)
    requires Allocated(f, target, live, result) && Matches(f, result.locations, s, m)
    ensures RunOnVregs(f, sem, s, steps) == RunOnMachine(f, sem, target, result.locations, junk, m, steps)
    decreases steps
  {
    if steps > 0 && s.status.At? && IsPlace(f, s.status.place) {
      var p := s.status.place;
      SameOperands(f, result.locations, p, s.env, m.regs, m.slots);
      if p.i < |f.blocks[p.b].insts| {
        InstructionStep(f, sem, target, live, result, junk, s, m);
      } else {
        TerminatorStep(f, sem, target, result.locations, junk, s, m);
      }
      MatchingRuns(f, sem, target, live, result, junk, StepOnVregs(f, sem, s), StepOnMachine(f, sem, target, result.locations, junk, m), steps - 1);
    }
  }

  // The prologue has put each parameter in its location.
  ghost predicate ParametersPlaced(f: Function, locations: seq<Location>, env: int -> Value, regs: nat -> Value, slots: nat -> Value) {
    forall v :: v in f.params ==> env(v) == LocationReader(locations, regs, slots)(v)
  }

  // The theorem: for an accepted function, every run on the registers and spill slots of the allocation, whatever
  // junk its steps leave behind, is step for step the run on vregs.
  lemma AllocationPreservesMeaning(f: Function, sem: Semantics, target: Target, live: LiveSets, result: RegAllocResult,
                                   junk: (nat, nat) -> Value, env: int -> Value, regs: nat -> Value, slots: nat -> Value,
                                   world: World, steps: nat)
    requires OperandsInRange(f) && Accepted(f)
    requires IsAllocation(f, target, live, result)
    requires CrossingsAreMarked(f, result.intervals)
    requires ParametersPlaced(f, result.locations, env, regs, slots)
    ensures RunOnVregs(f, sem, VregState(At(Place(0, 0)), env, world), steps)
         == RunOnMachine(f, sem, target, result.locations, junk, MachineState(At(Place(0, 0)), regs, slots, world, 0), steps)
  {
    ChecksGiveInRange(f);
    forall v | LiveAt(f, Place(0, 0), v)
      ensures env(v) == LocationReader(result.locations, regs, slots)(v)
    {
      var path :| ReadsUndefined(f, path, v) && path[0] == Place(0, 0);
      assert v in f.params;
    }
    MatchingRuns(f, sem, target, live, result, junk, VregState(At(Place(0, 0)), env, world),
                 MachineState(At(Place(0, 0)), regs, slots, world, 0), steps);
  }

  // The same for functions whose definitions come first in the layout.
  lemma AllocationPreservesMeaningInLayoutOrder(f: Function, sem: Semantics, target: Target, live: LiveSets, result: RegAllocResult,
                                                junk: (nat, nat) -> Value, env: int -> Value, regs: nat -> Value, slots: nat -> Value,
                                                world: World, steps: nat)
    requires OperandsInRange(f) && Accepted(f) && DefinitionsPrecede(f)
    requires IsAllocation(f, target, live, result)
    requires ParametersPlaced(f, result.locations, env, regs, slots)
    ensures RunOnVregs(f, sem, VregState(At(Place(0, 0)), env, world), steps)
         == RunOnMachine(f, sem, target, result.locations, junk, MachineState(At(Place(0, 0)), regs, slots, world, 0), steps)
  {
    ChecksGiveInRange(f);
    PrecedingDefinitionsSuffice(f, live, result.intervals);
    AllocationPreservesMeaning(f, sem, target, live, result, junk, env, regs, slots, world, steps);
  }

  // The parameters have locations that are all different, so a prologue can put them there.
  lemma ParametersAreApart(f: Function, target: Target, live: LiveSets, result: RegAllocResult, v: nat, w: nat)
    requires InRange(f) && IsAllocation(f, target, live, result)
    requires v in f.params && w in f.params && v != w
    ensures |result.locations| == f.VregCount() && v < f.VregCount() && w < f.VregCount()
    ensures result.locations[v] != result.locations[w] && !result.locations[v].NoLocation?
  {
    ParamContainsEntry(f, live, result.intervals, v);
    ParamContainsEntry(f, live, result.intervals, w);
    MeetingIntervalsAreApart(target, result.intervals, result.locations, result.spillSlotCount, v, w, 0);
  }
}
