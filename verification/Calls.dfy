/** Passing arguments and taking parameters: the parallel moves around calls, on the locations of the register
    allocation and the cells of the frame. */
module Calls {
  import opened Ir
  import opened LinearScan
  import opened Liveness
  import opened RegAlloc
  import opened LiveRanges
  import opened Frame
  import opened Moves
  import Simulation

  const RAX: nat := 0
  const RCX: nat := 1
  const RDX: nat := 2
  const R8: nat := 8
  const R9: nat := 9
  const R10: nat := 10
  const XMM14: nat := 30

  // x64_target: caller-saved registers first
  const WIN64 := Target([8, 9, 3, 6, 7, 12, 13, 14, 15],
                        [16, 17, 18, 19, 20, 21, 22, 23, 24, 25, 26, 27, 28, 29],
                        {3, 5, 6, 7, 12, 13, 14, 15, 22, 23, 24, 25, 26, 27, 28, 29, 30, 31})

  lemma GprsOfWin64(reg: nat)
    requires reg in WIN64.gprs
    ensures reg == 8 || reg == 9 || reg == 3 || reg == 6 || reg == 7 || reg == 12 || reg == 13 || reg == 14 || reg == 15
  {
    var k :| 0 <= k < |WIN64.gprs| && WIN64.gprs[k] == reg;
  }

  lemma FprsOfWin64(reg: nat)
    requires reg in WIN64.fprs
    ensures 16 <= reg <= 29
  {
    var k :| 0 <= k < |WIN64.fprs| && WIN64.fprs[k] == reg;
  }

  // The registers the emitter keeps for itself are never given to a vreg.
  lemma ReservedRegistersAreNotAllocated(reg: nat)
    requires reg in WIN64.gprs || reg in WIN64.fprs
    ensures reg < REG_COUNT
    ensures reg != RSP && reg != RBP && reg != RAX && reg != RCX && reg != RDX && reg != R10 && reg != R11
    ensures reg != XMM14 && reg != XMM15
  {
    if reg in WIN64.gprs { GprsOfWin64(reg); } else { FprsOfWin64(reg); }
  }

  function ArgumentGpr(i: nat): nat
    requires i < 4
  {
    if i == 0 then RCX else if i == 1 then RDX else if i == 2 then R8 else R9
  }

  // move_vreg
  function OperandOf(frame: FrameLayout, location: Location): Operand
    requires !location.NoLocation?
  {
    match location
    case InReg(reg) => Reg(reg)
    case Spilled(slot) => Mem(RBP, frame.spillBase - 8 * slot)
  }

  datatype CallArg = CallArg(src: Operand, isFloat: bool, isVararg: bool)

  // The moves of argument i. A float in '...' goes in the integer register too.
  function ArgumentMoves(arg: CallArg, i: nat): seq<Move> {
    if i >= 4 then [Move(Mem(RSP, 8 * i), arg.src, false)]
    else if !arg.isFloat then [Move(Reg(ArgumentGpr(i)), arg.src, false)]
    else if arg.isVararg then [Move(Reg(XMM0 + i), arg.src, false), Move(Reg(ArgumentGpr(i)), arg.src, false)]
    else [Move(Reg(XMM0 + i), arg.src, false)]
  }

  function CallMoves(args: seq<CallArg>): seq<Move> {
    if |args| == 0 then []
    else CallMoves(args[..|args| - 1]) + ArgumentMoves(args[|args| - 1], |args| - 1)
  }

  // The sources are locations of vregs, or numbers for integer registers: no scratch register, and spill slots apart from
  // the outgoing arguments.
  ghost predicate SourcesApart(args: seq<CallArg>, gap: int) {
    forall j :: 0 <= j < |args| ==>
      && (args[j].src.Imm? && j < 4 ==> !args[j].isFloat)
      && (args[j].src.Reg? ==> !IsScratch(args[j].src.reg))
      && (args[j].src.Mem? ==> forall i :: 4 <= i < |args| ==> ApartOperands(Mem(RSP, 8 * i), args[j].src, gap))
  }

  // Where the callee looks for argument i
  predicate PassedIn(arg: CallArg, i: nat, place: Operand) {
    if i >= 4 then place == Mem(RSP, 8 * i)
    else (arg.isFloat && place == Reg(XMM0 + i)) || ((!arg.isFloat || arg.isVararg) && place == Reg(ArgumentGpr(i)))
  }

  ghost predicate ArgumentsPassed(args: seq<CallArg>, m: Machine, m': Machine) {
    && (forall i: nat, place :: i < |args| && PassedIn(args[i], i, place) ==> Eval(m', place) == Eval(m, args[i].src))
    && m'.regs(RAX) == m.regs(RAX) && m'.rsp == m.rsp && m'.rbp == m.rbp
  }

  // ---------------------------------------------------------------------------------------
  // The moves of a call
  // ---------------------------------------------------------------------------------------

  predicate IsMoveOf(args: seq<CallArg>, i: nat, move: Move)
    requires i < |args|
  {
    PassedIn(args[i], i, move.dst) && move.src == args[i].src && !move.done
  }

  // The argument that a move is for
  lemma {:induction false} MoveHasArgument(args: seq<CallArg>, k: nat) returns (i: nat)
    requires k < |CallMoves(args)|
    ensures i < |args| && IsMoveOf(args, i, CallMoves(args)[k])
  {
    var n := |args| - 1;
    var before, mine := CallMoves(args[..n]), ArgumentMoves(args[n], n);
    if k < |before| {
      i := MoveHasArgument(args[..n], k);
    } else {
      i := n;
      assert CallMoves(args)[k] == mine[k - |before|];
    }
  }

  // The move that fills a place
  lemma {:induction false} PlaceHasMove(args: seq<CallArg>, i: nat, place: Operand) returns (k: nat)
    requires i < |args| && PassedIn(args[i], i, place)
    ensures k < |CallMoves(args)| && CallMoves(args)[k] == Move(place, args[i].src, false)
  {
    var n := |args| - 1;
    var before, mine := CallMoves(args[..n]), ArgumentMoves(args[n], n);
    if i < n {
      k := PlaceHasMove(args[..n], i, place);
    } else {
      var own := if |mine| == 2 && place == Reg(ArgumentGpr(n)) then 1 else 0;
      assert mine[own] == Move(place, args[n].src, false);
      k := |before| + own;
    }
  }

  // Places of different arguments are different.
  lemma PlacesAreApart(a: CallArg, i: nat, p: Operand, b: CallArg, j: nat, q: Operand, gap: int)
    requires PassedIn(a, i, p) && PassedIn(b, j, q) && i != j
    ensures ApartOperands(p, q, gap)
  {
  }

  lemma {:induction false} CallDestinationsApart(args: seq<CallArg>, gap: int, k: nat, l: nat)
    requires k < l < |CallMoves(args)|
    ensures ApartOperands(CallMoves(args)[k].dst, CallMoves(args)[l].dst, gap)
  {
    var n := |args| - 1;
    var before, mine := CallMoves(args[..n]), ArgumentMoves(args[n], n);
    if l < |before| {
      CallDestinationsApart(args[..n], gap, k, l);
    } else {
      assert CallMoves(args)[l] == mine[l - |before|];
      if k < |before| {
        var i := MoveHasArgument(args[..n], k);
        PlacesAreApart(args[i], i, before[k].dst, args[n], n, mine[l - |before|].dst, gap);
      } else {
        assert CallMoves(args)[k] == mine[k - |before|];
      }
    }
  }

  lemma PlaceIsNoScratch(arg: CallArg, i: nat, place: Operand)
    requires PassedIn(arg, i, place)
    ensures !place.Imm? && place != Reg(RAX) && (place.Reg? ==> !IsScratch(place.reg))
    ensures place.Mem? ==> i >= 4 && place == Mem(RSP, 8 * i)
  {
  }

  lemma CallMoveIsMovable(args: seq<CallArg>, gap: int, k: nat)
    requires SourcesApart(args, gap) && k < |CallMoves(args)|
    ensures var move := CallMoves(args)[k];
      && !move.done && !move.dst.Imm? && move.dst != Reg(RAX)
      && (move.src.Imm? && move.dst.Reg? ==> !IsXmm(move.dst.reg))
      && (move.dst.Reg? ==> !IsScratch(move.dst.reg)) && (move.src.Reg? ==> !IsScratch(move.src.reg))
  {
    var i := MoveHasArgument(args, k);
    PlaceIsNoScratch(args[i], i, CallMoves(args)[k].dst);
  }

  lemma CallCellsApart(args: seq<CallArg>, gap: int, k: nat, l: nat)
    requires SourcesApart(args, gap) && k < |CallMoves(args)| && l < |CallMoves(args)|
    requires CallMoves(args)[k].dst.Mem? && CallMoves(args)[l].src.Mem?
    ensures ApartOperands(CallMoves(args)[k].dst, CallMoves(args)[l].src, gap)
  {
    var i := MoveHasArgument(args, k);
    var j := MoveHasArgument(args, l);
    PlaceIsNoScratch(args[i], i, CallMoves(args)[k].dst);
  }

  lemma CallMovesAreMovable(args: seq<CallArg>, gap: int)
    requires SourcesApart(args, gap)
    ensures Movable(CallMoves(args), gap)
  {
    var moves := CallMoves(args);
    forall k | 0 <= k < |moves|
      ensures !moves[k].done && !moves[k].dst.Imm?
      ensures moves[k].src.Imm? && moves[k].dst.Reg? ==> !IsXmm(moves[k].dst.reg)
      ensures moves[k].dst.Reg? ==> !IsScratch(moves[k].dst.reg)
      ensures moves[k].src.Reg? ==> !IsScratch(moves[k].src.reg)
    {
      CallMoveIsMovable(args, gap, k);
    }
    forall k, l | 0 <= k < l < |moves|
      ensures ApartOperands(moves[k].dst, moves[l].dst, gap)
    {
      CallDestinationsApart(args, gap, k, l);
    }
    forall k, l | 0 <= k < |moves| && 0 <= l < |moves| && moves[k].dst.Mem? && moves[l].src.Mem?
      ensures ApartOperands(moves[k].dst, moves[l].src, gap)
    {
      CallCellsApart(args, gap, k, l);
    }
  }

  lemma MovedArgumentsArePassed(args: seq<CallArg>, m: Machine, m': Machine)
    requires MovedAtOnce(CallMoves(args), m, m')
    ensures ArgumentsPassed(args, m, m')
  {
    var moves := CallMoves(args);
    forall i: nat, place | i < |args| && PassedIn(args[i], i, place)
      ensures Eval(m', place) == Eval(m, args[i].src)
    {
      var k := PlaceHasMove(args, i, place);
    }
    forall k | 0 <= k < |moves|
      ensures moves[k].dst != Reg(RAX)
    {
      var i := MoveHasArgument(args, k);
      PlaceIsNoScratch(args[i], i, moves[k].dst);
    }
    assert !IsDestination(moves, RAX);
  }

  // x64_emit_call_with_args: at the call, every argument is where the callee looks for it.
  method EmitCallWithArgs(args: seq<CallArg>, ghost gap: int) returns (code: seq<Instr>)
    requires SourcesApart(args, gap)
    ensures forall m: Machine :: m.rbp - m.rsp == gap ==> ArgumentsPassed(args, m, Exec(code, m))
  {
    var list := [];
    for i := 0 to |args|
      invariant list == CallMoves(args[..i])
    {
      assert args[..i + 1][..i] == args[..i];
      list := list + ArgumentMoves(args[i], i);
    }
    assert args[..|args|] == args;
    CallMovesAreMovable(args, gap);
    var moves := new Move[|list|](k requires 0 <= k < |list| => list[k]);
    assert moves[..] == list;
    code := ParallelMove(moves, gap);
    forall m: Machine | m.rbp - m.rsp == gap
      ensures ArgumentsPassed(args, m, Exec(code, m))
    {
      MovedArgumentsArePassed(args, m, Exec(code, m));
    }
  }

  // ---------------------------------------------------------------------------------------
  // On the frame
  // ---------------------------------------------------------------------------------------

  // The bytes of a number in a register, the lowest first
  function WordOf(value: int): Word {
    Word(value % 256, value / 0x100 % 256, value / 0x1_0000 % 256, value / 0x100_0000 % 256, value / 0x1_0000_0000 % 256,
         value / 0x100_0000_0000 % 256, value / 0x1_0000_0000_0000 % 256, value / 0x100_0000_0000_0000 % 256)
  }

  // An argument that is the value of a vreg
  ghost predicate IsInLocation(vreg: int, locations: seq<Location>, frame: FrameLayout, src: Operand) {
    0 <= vreg < |locations| && !locations[vreg].NoLocation? && src == OperandOf(frame, locations[vreg])
  }

  // The arguments of a call-like instruction: those of the call, or what memcpy and memset take
  ghost predicate AreArgumentsOf(inst: RawInst, locations: seq<Location>, frame: FrameLayout, args: seq<CallArg>) {
    match inst.op
    case CallOp =>
      |args| == |inst.call.args| && forall j :: 0 <= j < |args| ==> IsInLocation(inst.call.args[j], locations, frame, args[j].src)
    case Memcpy =>
      && |args| == 3 && (forall j :: 0 <= j < 3 ==> !args[j].isFloat && !args[j].isVararg)
      && IsInLocation(inst.a, locations, frame, args[0].src) && IsInLocation(inst.b, locations, frame, args[1].src)
      && args[2].src == Imm(WordOf(inst.imm))
    case Memset =>
      && |args| == 3 && (forall j :: 0 <= j < 3 ==> !args[j].isFloat && !args[j].isVararg)
      && IsInLocation(inst.a, locations, frame, args[0].src)
      && args[1].src == Imm(WordOf(inst.imm2)) && args[2].src == Imm(WordOf(inst.imm))
    case _ => false
  }

  lemma LocationIsApart(needs: FrameNeeds, frame: FrameLayout, saved: int, slots: int, spills: int,
                        intervals: seq<Interval>, locations: seq<Location>, vreg: int, src: Operand)
    requires needs.Valid() && LaidOut(needs, frame, saved, slots, spills)
    requires ValidAllocation(WIN64, intervals, locations, needs.spillCount) && IsInLocation(vreg, locations, frame, src)
    ensures !src.Imm? && (src.Reg? ==> !IsScratch(src.reg))
    ensures src.Mem? ==> forall i: nat :: SomeCallNeeds(needs, i) ==> ApartOperands(Mem(RSP, 8 * i), src, frame.frameSize)
  {
    assert ValidLocation(WIN64, intervals[vreg], locations[vreg], needs.spillCount);
    if locations[vreg].Spilled? {
      forall i: nat | SomeCallNeeds(needs, i)
        ensures ApartOperands(Mem(RSP, 8 * i), src, frame.frameSize)
      {
        assert IsPart(needs, Argument(i)) && IsPart(needs, Spill(locations[vreg].slot));
        PartsAreApart(needs, frame, saved, slots, spills, Argument(i), Spill(locations[vreg].slot));
      }
    } else {
      ReservedRegistersAreNotAllocated(locations[vreg].reg);
    }
  }

  // An argument is the value of a vreg, or a number that is no float.
  lemma ArgumentIs(inst: RawInst, locations: seq<Location>, frame: FrameLayout, args: seq<CallArg>, j: nat) returns (vreg: int)
    requires AreArgumentsOf(inst, locations, frame, args) && j < |args|
    ensures NeedsArgument(inst, j)
    ensures IsInLocation(vreg, locations, frame, args[j].src) || (args[j].src.Imm? && !args[j].isFloat)
  {
    hide OperandOf;
    vreg := if inst.op == CallOp then inst.call.args[j] else if j == 0 then inst.a else inst.b;
  }

  // The arguments of the calls of a function, and of its memcpy and memset: locations of the allocation never are in the
  // way of the outgoing cells.
  lemma ArgumentsOfCallsAreApart(needs: FrameNeeds, frame: FrameLayout, saved: int, slots: int, spills: int,
                                 intervals: seq<Interval>, locations: seq<Location>, b: nat, k: nat, args: seq<CallArg>)
    requires needs.Valid() && LaidOut(needs, frame, saved, slots, spills)
    requires ValidAllocation(WIN64, intervals, locations, needs.spillCount)
    requires b < |needs.code| && k < |needs.code[b]| && AreArgumentsOf(needs.code[b][k], locations, frame, args)
    ensures SourcesApart(args, frame.frameSize)
  {
    hide LaidOut, ValidAllocation, AreArgumentsOf, NeedsArgument, IsInLocation, IsScratch, ApartOperands;
    forall i: nat | i < |args|
      ensures SomeCallNeeds(needs, i)
    {
      var vreg := ArgumentIs(needs.code[b][k], locations, frame, args, i);
    }
    forall j: nat | j < |args|
      ensures args[j].src.Imm? && j < 4 ==> !args[j].isFloat
      ensures args[j].src.Reg? ==> !IsScratch(args[j].src.reg)
      ensures args[j].src.Mem? ==> forall i :: 4 <= i < |args| ==> ApartOperands(Mem(RSP, 8 * i), args[j].src, frame.frameSize)
    {
      var vreg := ArgumentIs(needs.code[b][k], locations, frame, args, j);
      if IsInLocation(vreg, locations, frame, args[j].src) {
        LocationIsApart(needs, frame, saved, slots, spills, intervals, locations, vreg, args[j].src);
      }
    }
  }

  // ---------------------------------------------------------------------------------------
  // The prologue
  // ---------------------------------------------------------------------------------------

  // Where the caller has put argument i
  function Incoming(i: nat, isFloat: bool): Operand {
    if i >= 4 then Mem(RBP, 16 + 8 * i) else if isFloat then Reg(XMM0 + i) else Reg(ArgumentGpr(i))
  }

  ghost predicate ParametersFit(f: Function, target: Target, live: LiveSets, result: RegAllocResult) {
    && InRange(f) && target == WIN64 && IsAllocation(f, target, live, result)
    && |f.params| <= 64
    && (forall i, j :: 0 <= i < j < |f.params| ==> f.params[i] != f.params[j])
  }

  // The move of parameter i: from where the caller put it to its location
  function ParameterMove(f: Function, result: RegAllocResult, frame: FrameLayout, i: nat): Move
    requires i < |f.params| && 0 <= f.params[i] < f.VregCount() && |result.locations| == f.VregCount()
    requires !result.locations[f.params[i]].NoLocation?
  {
    Move(OperandOf(frame, result.locations[f.params[i]]), Incoming(i, f.vregTypes[f.params[i]].IsFloat()), false)
  }

  lemma ParameterHasLocation(f: Function, target: Target, live: LiveSets, result: RegAllocResult, i: nat)
    requires ParametersFit(f, target, live, result) && i < |f.params|
    ensures 0 <= f.params[i] < f.VregCount() && |result.locations| == f.VregCount() == |result.intervals|
    ensures result.intervals[f.params[i]].Used() && !result.locations[f.params[i]].NoLocation?
    ensures result.locations[f.params[i]].InReg? ==> !IsScratch(result.locations[f.params[i]].reg)
    ensures result.locations[f.params[i]].Spilled? ==> result.locations[f.params[i]].slot < result.spillSlotCount
  {
    assert f.params[i] in f.params;
    ParamContainsEntry(f, live, result.intervals, f.params[i]);
    assert ValidLocation(target, result.intervals[f.params[i]], result.locations[f.params[i]], result.spillSlotCount);
    if result.locations[f.params[i]].InReg? {
      ReservedRegistersAreNotAllocated(result.locations[f.params[i]].reg);
    }
  }

  ghost predicate IsPrologue(f: Function, result: RegAllocResult, frame: FrameLayout, moves: seq<Move>) {
    && |moves| == |f.params| && |result.locations| == f.VregCount()
    && forall i: nat :: i < |moves| ==>
         && 0 <= f.params[i] < f.VregCount() && !result.locations[f.params[i]].NoLocation?
         && moves[i] == ParameterMove(f, result, frame, i)
  }

  lemma IncomingIsNoScratch(i: nat, isFloat: bool)
    ensures !Incoming(i, isFloat).Imm? && (Incoming(i, isFloat).Reg? ==> !IsScratch(Incoming(i, isFloat).reg))
    ensures Incoming(i, isFloat).Mem? ==> Incoming(i, isFloat).base == RBP && Incoming(i, isFloat).offset >= 48
  {
  }

  // Two parameters are moved to different places.
  lemma PrologueDestinationsApart(f: Function, target: Target, live: LiveSets, result: RegAllocResult, frame: FrameLayout, gap: int, i: nat, j: nat)
    requires ParametersFit(f, target, live, result) && i < j < |f.params|
    ensures 0 <= f.params[i] < f.VregCount() && 0 <= f.params[j] < f.VregCount() && |result.locations| == f.VregCount()
    ensures !result.locations[f.params[i]].NoLocation? && !result.locations[f.params[j]].NoLocation?
    ensures ApartOperands(OperandOf(frame, result.locations[f.params[i]]), OperandOf(frame, result.locations[f.params[j]]), gap)
  {
    ParameterHasLocation(f, target, live, result, i);
    ParameterHasLocation(f, target, live, result, j);
    assert f.params[i] in f.params && f.params[j] in f.params;
    Simulation.ParametersAreApart(f, target, live, result, f.params[i], f.params[j]);
  }

  lemma PrologueMoveIsMovable(f: Function, target: Target, live: LiveSets, result: RegAllocResult, needs: FrameNeeds, frame: FrameLayout,
                              saved: int, slots: int, spills: int, i: nat)
    requires ParametersFit(f, target, live, result) && i < |f.params|
    requires needs.Valid() && needs.spillCount == result.spillSlotCount && LaidOut(needs, frame, saved, slots, spills)
    ensures 0 <= f.params[i] < f.VregCount() && |result.locations| == f.VregCount() && !result.locations[f.params[i]].NoLocation?
    ensures FromCallerToFrame(ParameterMove(f, result, frame, i))
  {
    ParameterHasLocation(f, target, live, result, i);
    IncomingIsNoScratch(i, f.vregTypes[f.params[i]].IsFloat());
    if result.locations[f.params[i]].Spilled? {
      assert Inside(SpillRegion(frame, result.locations[f.params[i]].slot), -spills, -slots);
    }
  }

  // From a register or a cell above rbp into a register or a cell below it
  predicate FromCallerToFrame(move: Move) {
    && !move.done && !move.dst.Imm? && !move.src.Imm?
    && (move.dst.Reg? ==> !IsScratch(move.dst.reg)) && (move.src.Reg? ==> !IsScratch(move.src.reg))
    && (move.dst.Mem? ==> move.dst.base == RBP && move.dst.offset + 8 <= 0)
    && (move.src.Mem? ==> move.src.base == RBP && move.src.offset >= 48)
  }

  lemma FromCallerToFrameIsMovable(moves: seq<Move>, gap: int)
    requires forall i :: 0 <= i < |moves| ==> FromCallerToFrame(moves[i])
    requires forall i, j :: 0 <= i < j < |moves| ==> ApartOperands(moves[i].dst, moves[j].dst, gap)
    ensures Movable(moves, gap)
  {
  }

  lemma PrologueIsMovable(f: Function, target: Target, live: LiveSets, result: RegAllocResult, needs: FrameNeeds, frame: FrameLayout,
                          saved: int, slots: int, spills: int, moves: seq<Move>)
    requires ParametersFit(f, target, live, result)
    requires needs.Valid() && needs.spillCount == result.spillSlotCount && LaidOut(needs, frame, saved, slots, spills)
    requires IsPrologue(f, result, frame, moves)
    ensures Movable(moves, frame.frameSize)
  {
    forall i: nat | i < |moves|
      ensures FromCallerToFrame(moves[i])
    {
      PrologueMoveIsMovable(f, target, live, result, needs, frame, saved, slots, spills, i);
    }
    forall i: nat, j: nat | i < j < |moves|
      ensures ApartOperands(moves[i].dst, moves[j].dst, frame.frameSize)
    {
      PrologueDestinationsApart(f, target, live, result, frame, frame.frameSize, i, j);
    }
    FromCallerToFrameIsMovable(moves, frame.frameSize);
  }

  ghost predicate ParametersArrive(f: Function, result: RegAllocResult, frame: FrameLayout, m: Machine, m': Machine) {
    && |result.locations| == f.VregCount()
    && forall i: nat :: i < |f.params| ==>
         && 0 <= f.params[i] < f.VregCount() && !result.locations[f.params[i]].NoLocation?
         && Eval(m', OperandOf(frame, result.locations[f.params[i]])) == Eval(m, Incoming(i, f.vregTypes[f.params[i]].IsFloat()))
  }

  // A parameter with an interval and a location
  predicate HasPlace(f: Function, result: RegAllocResult, i: nat) {
    && i < |f.params| && |result.locations| == f.VregCount() == |result.intervals| && 0 <= f.params[i] < f.VregCount()
    && result.intervals[f.params[i]].Used() && !result.locations[f.params[i]].NoLocation?
  }

  // Every parameter is in use, so the list has one move for each.
  method CollectPrologueMoves(f: Function, result: RegAllocResult, frame: FrameLayout) returns (list: seq<Move>)
    requires |result.locations| == f.VregCount() && forall i: nat :: i < |f.params| ==> HasPlace(f, result, i)
    ensures IsPrologue(f, result, frame, list)
  {
    list := [];
    for i := 0 to |f.params|
      invariant |list| == i
      invariant forall k: nat :: k < i ==> HasPlace(f, result, k) && list[k] == ParameterMove(f, result, frame, k)
    {
      assert HasPlace(f, result, i);
      if !result.intervals[f.params[i]].Used() { continue; }
      list := list + [ParameterMove(f, result, frame, i)];
    }
    assert forall k: nat :: k < |list| ==> HasPlace(f, result, k);
  }

  lemma MovedParametersArrive(f: Function, result: RegAllocResult, frame: FrameLayout, list: seq<Move>, m: Machine, m': Machine)
    requires IsPrologue(f, result, frame, list) && MovedAtOnce(list, m, m')
    ensures ParametersArrive(f, result, frame, m, m')
  {
    forall i: nat | i < |f.params|
      ensures 0 <= f.params[i] < f.VregCount() && !result.locations[f.params[i]].NoLocation?
      ensures Eval(m', OperandOf(frame, result.locations[f.params[i]])) == Eval(m, Incoming(i, f.vregTypes[f.params[i]].IsFloat()))
    {
      assert list[i] == ParameterMove(f, result, frame, i);
    }
  }

  // The moves of the prologue: every parameter ends in its location.
  method EmitPrologueMoves(f: Function, target: Target, ghost live: LiveSets, result: RegAllocResult, ghost needs: FrameNeeds, frame: FrameLayout,
                           ghost saved: int, ghost slots: int, ghost spills: int)
    returns (code: seq<Instr>)
    requires ParametersFit(f, target, live, result)
    requires needs.Valid() && needs.spillCount == result.spillSlotCount && LaidOut(needs, frame, saved, slots, spills)
    ensures forall m: Machine :: m.rbp - m.rsp == frame.frameSize ==> ParametersArrive(f, result, frame, m, Exec(code, m))
  {
    forall i: nat | i < |f.params|
      ensures HasPlace(f, result, i)
    {
      ParameterHasLocation(f, target, live, result, i);
    }
    var list := CollectPrologueMoves(f, result, frame);
    PrologueIsMovable(f, target, live, result, needs, frame, saved, slots, spills, list);
    var moves := new Move[|list|](k requires 0 <= k < |list| => list[k]);
    assert moves[..] == list;
    code := ParallelMove(moves, frame.frameSize);
    forall m: Machine | m.rbp - m.rsp == frame.frameSize
      ensures ParametersArrive(f, result, frame, m, Exec(code, m))
    {
      MovedParametersArrive(f, result, frame, list, m, Exec(code, m));
    }
  }
}
