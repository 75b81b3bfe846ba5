/** What running a function means: on unlimited vregs, and on the registers and spill slots of an allocation. */
module Execution {
  import opened Ir
  import opened LinearScan

  type Value(!new)

  // Memory, and everything else calls can see and change
  type World(!new)

  datatype Effect = Effect(value: Value, world: World)

  // What the instructions compute from the values they read; nothing else is known about them.
  datatype Semantics = Semantics(exec: (Inst, seq<Value>, World) -> Effect, isTrue: Value -> bool)

  datatype Status = At(place: Place) | Returned(values: seq<Value>) | Stuck

  // One executed step: where it was, and the operand values it read
  datatype Event = Event(place: Place, operands: seq<Value>)

  datatype Run = Run(events: seq<Event>, status: Status, world: World)

  // Where control goes after the terminator of a block
  function Leave(term: Term, sem: Semantics, operands: seq<Value>): Status
    requires |operands| == |TermUses(term)|
  {
    match term
    case NoTerm => Stuck
    case Jmp(target) => if target >= 0 then At(Place(target, 0)) else Stuck
    case Br(_, thenTarget, elseTarget) =>
      var target := if sem.isTrue(operands[0]) then thenTarget else elseTarget;
      if target >= 0 then At(Place(target, 0)) else Stuck
    case Ret(_) => Returned(operands)
  }

  // ---------------------------------------------------------------------------------------
  // On vregs
  // ---------------------------------------------------------------------------------------

  datatype VregState = VregState(status: Status, env: int -> Value, world: World)

  function ReadAll(vregs: seq<int>, read: int -> Value): (r: seq<Value>)
    ensures |r| == |vregs|
  {
    if |vregs| == 0 then [] else ReadAll(vregs[..|vregs| - 1], read) + [read(vregs[|vregs| - 1])]
  }

  function StepOnVregs(f: Function, sem: Semantics, s: VregState): VregState
    requires s.status.At? && IsPlace(f, s.status.place)
  {
    var p := s.status.place;
    var operands := ReadAll(UsesAt(f, p), s.env);
    if p.i == |f.blocks[p.b].insts| then s.(status := Leave(f.blocks[p.b].term, sem, operands))
    else
      var inst := f.blocks[p.b].insts[p.i];
      var effect := sem.exec(inst, operands, s.world);
      VregState(At(Place(p.b, p.i + 1)),
                if inst.dst == NO_VREG then s.env else (v: int) => if v == inst.dst then effect.value else s.env(v),
                effect.world)
  }

  function RunOnVregs(f: Function, sem: Semantics, s: VregState, steps: nat): Run
    decreases steps
  {
    if steps == 0 || !s.status.At? || !IsPlace(f, s.status.place) then Run([], s.status, s.world)
    else
      var rest := RunOnVregs(f, sem, StepOnVregs(f, sem, s), steps - 1);
      Run([Event(s.status.place, ReadAll(UsesAt(f, s.status.place), s.env))] + rest.events, rest.status, rest.world)
  }

  // ---------------------------------------------------------------------------------------
  // On the machine
  // ---------------------------------------------------------------------------------------

  // 'time' counts the steps made so far.
  datatype MachineState = MachineState(status: Status, regs: nat -> Value, slots: nat -> Value, world: World, time: nat)

  function ReadLocation(location: Location, regs: nat -> Value, slots: nat -> Value): Value {
    match location
    case InReg(reg) => regs(reg)
    case Spilled(slot) => slots(slot)
    case NoLocation => slots(0)
  }

  function LocationReader(locations: seq<Location>, regs: nat -> Value, slots: nat -> Value): int -> Value {
    (v: int) => ReadLocation(if 0 <= v < |locations| then locations[v] else NoLocation, regs, slots)
  }

  // The registers an instruction leaves alone: the ones it can't use as scratch, and over a call only the callee-saved ones.
  predicate Survives(target: Target, inst: Inst, reg: nat) {
    (reg in target.gprs || reg in target.fprs) && (IsCallLike(inst) ==> reg in target.calleeSaved)
  }

  // 'junk(time, reg)' is what the step at that time leaves in a register that does not survive it, so two visits of a
  // call can leave different values.
  function StepOnMachine(f: Function, sem: Semantics, target: Target, locations: seq<Location>, junk: (nat, nat) -> Value, s: MachineState): MachineState
    requires s.status.At? && IsPlace(f, s.status.place)
  {
    var p := s.status.place;
    var operands := ReadAll(UsesAt(f, p), LocationReader(locations, s.regs, s.slots));
    if p.i == |f.blocks[p.b].insts| then s.(status := Leave(f.blocks[p.b].term, sem, operands), time := s.time + 1)
    else
      var inst := f.blocks[p.b].insts[p.i];
      var effect := sem.exec(inst, operands, s.world);
      var regs := (reg: nat) => if Survives(target, inst, reg) then s.regs(reg) else junk(s.time, reg);
      var next := At(Place(p.b, p.i + 1));
      match if 0 <= inst.dst < |locations| then locations[inst.dst] else NoLocation
      case InReg(r) => MachineState(next, (reg: nat) => if reg == r then effect.value else regs(reg), s.slots, effect.world, s.time + 1)
      case Spilled(t) => MachineState(next, regs, (slot: nat) => if slot == t then effect.value else s.slots(slot), effect.world, s.time + 1)
      case NoLocation => MachineState(next, regs, s.slots, effect.world, s.time + 1)
  }

  function RunOnMachine(f: Function, sem: Semantics, target: Target, locations: seq<Location>, junk: (nat, nat) -> Value, s: MachineState, steps: nat): Run
    decreases steps
  {
    if steps == 0 || !s.status.At? || !IsPlace(f, s.status.place) then Run([], s.status, s.world)
    else
      var rest := RunOnMachine(f, sem, target, locations, junk, StepOnMachine(f, sem, target, locations, junk, s), steps - 1);
      Run([Event(s.status.place, ReadAll(UsesAt(f, s.status.place), LocationReader(locations, s.regs, s.slots)))] + rest.events,
          rest.status, rest.world)
  }
}
