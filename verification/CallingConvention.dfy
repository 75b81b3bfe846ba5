/** The Win64 calling convention, kept by both sides of a call: which instructions are calls, where arguments come from and
    arrive, what lies below the caller's frame, and which registers a function gives back. */
module CallingConvention {
  import opened Ir
  import opened LinearScan
  import opened Liveness
  import opened RegAlloc
  import opened LiveRanges
  import opened Frame
  import opened Moves
  import opened SavedRegisters
  import opened Calls
  import Execution

  // ---------------------------------------------------------------------------------------
  // Which instructions are calls
  // ---------------------------------------------------------------------------------------

  // Every operand has a location, and what is copied or set has an address.
  ghost predicate OperandsPlaced(raw: RawInst, locations: seq<Location>) {
    && (forall k :: 0 <= k < |Operands(raw)| ==> IsPlacedVreg(Operands(raw)[k], locations))
    && (raw.op == Memcpy ==> raw.a != NO_VREG && raw.b != NO_VREG)
    && (raw.op == Memset ==> raw.a != NO_VREG)
  }

  predicate IsPlacedVreg(vreg: int, locations: seq<Location>) {
    0 <= vreg < |locations| && !locations[vreg].NoLocation?
  }

  function ArgumentsAt(vregs: seq<int>, locations: seq<Location>, frame: FrameLayout): (args: seq<CallArg>)
    requires forall k :: 0 <= k < |vregs| ==> IsPlacedVreg(vregs[k], locations)
    ensures |args| == |vregs| && forall k :: 0 <= k < |vregs| ==> IsInLocation(vregs[k], locations, frame, args[k].src)
  {
    seq(|vregs|, k requires 0 <= k < |vregs| && IsPlacedVreg(vregs[k], locations) => CallArg(OperandOf(frame, locations[vregs[k]]), false, false))
  }

  lemma CallArgumentsPlaced(raw: RawInst, locations: seq<Location>, k: nat)
    requires OperandsPlaced(raw, locations) && raw.op == CallOp && k < |raw.call.args|
    ensures IsPlacedVreg(raw.call.args[k], locations)
  {
    var operands := Operands(raw);
    assert operands[|operands| - |raw.call.args| + k] == raw.call.args[k];
  }

  lemma AddressesPlaced(raw: RawInst, locations: seq<Location>)
    requires OperandsPlaced(raw, locations) && (raw.op == Memcpy || raw.op == Memset)
    ensures IsPlacedVreg(raw.a, locations) && (raw.op == Memcpy ==> IsPlacedVreg(raw.b, locations))
  {
    var operands := Operands(raw);
    assert operands[0] == raw.a;
    assert raw.op == Memcpy ==> operands[1] == raw.b;
  }

  // The instructions that the passes take for calls are the ones that the emitter makes a call of.
  lemma CallLikeIffEmitted(raw: RawInst, locations: seq<Location>, frame: FrameLayout)
    requires OperandsPlaced(raw, locations)
    ensures IsCallLike(SeenAs(raw)) <==> exists args :: AreArgumentsOf(raw, locations, frame, args)
  {
    if raw.op == CallOp {
      forall k | 0 <= k < |raw.call.args|
        ensures IsPlacedVreg(raw.call.args[k], locations)
      {
        CallArgumentsPlaced(raw, locations, k);
      }
      assert AreArgumentsOf(raw, locations, frame, ArgumentsAt(raw.call.args, locations, frame));
    } else if raw.op == Memcpy || raw.op == Memset {
      AddressesPlaced(raw, locations);
      var first := CallArg(OperandOf(frame, locations[raw.a]), false, false);
      var second := CallArg(if raw.op == Memcpy then OperandOf(frame, locations[raw.b]) else Imm(WordOf(raw.imm2)), false, false);
      var args := [first, second, CallArg(Imm(WordOf(raw.imm)), false, false)];
      assert forall j :: 0 <= j < 3 ==> !args[j].isFloat && !args[j].isVararg;
      assert AreArgumentsOf(raw, locations, frame, args);
    }
  }

  // An instruction that the emitter makes a call of leaves no caller-saved register alone.
  lemma EmittedCallLosesRegisters(raw: RawInst, locations: seq<Location>, frame: FrameLayout, args: seq<CallArg>, reg: nat)
    requires AreArgumentsOf(raw, locations, frame, args) && reg !in WIN64.calleeSaved
    ensures !Execution.Survives(WIN64, SeenAs(raw), reg)
  {
  }

  // A value that lives across it is marked and in a callee-saved register, or in memory, unless the instruction opens its
  // block and the interval starts there.
  lemma ValueSurvivesEmittedCall(f: Function, live: LiveSets, result: RegAllocResult, p: Place, v: nat,
                                 raw: RawInst, frame: FrameLayout, args: seq<CallArg>)
    requires InRange(f) && IsAllocation(f, WIN64, live, result)
    requires p.b < |f.blocks| && p.i < |f.blocks[p.b].insts| && f.blocks[p.b].insts[p.i] == SeenAs(raw)
    requires AreArgumentsOf(raw, result.locations, frame, args)
    requires v < f.VregCount() && LiveAcross(f, p, v)
    requires p.i > 0 || result.intervals[v].start < BlockStart(f, p.b)
    ensures result.intervals[v].crossesCall
    ensures result.locations[v].InReg? ==> result.locations[v].reg in WIN64.calleeSaved
  {
    assert CallAt(f, p);
    CallTestIsExact(f, live, result.intervals, p, v);
    assert ValidLocation(WIN64, result.intervals[v], result.locations[v], result.spillSlotCount);
  }

  // ---------------------------------------------------------------------------------------
  // Registers
  // ---------------------------------------------------------------------------------------

  // A vreg in an xmm register is a float, of either size, and the other way around.
  lemma FloatsAreInXmm(f: Function, live: LiveSets, result: RegAllocResult, v: nat)
    requires IsAllocation(f, WIN64, live, result) && v < f.VregCount()
    requires |result.locations| == f.VregCount() && result.locations[v].InReg?
    ensures IsXmm(result.locations[v].reg) <==> f.vregTypes[v] == F32 || f.vregTypes[v] == F64
  {
    assert ValidLocation(WIN64, result.intervals[v], result.locations[v], result.spillSlotCount);
    if f.vregTypes[v].IsFloat() {
      FprsOfWin64(result.locations[v].reg);
    } else {
      GprsOfWin64(result.locations[v].reg);
    }
  }

  // The registers a function has to give back: rbx, rbp, rsi, rdi, r12 to r15 and xmm6 to xmm15 (x64 calling convention of
  // Windows, caller-saved and callee-saved registers).
  lemma CalleeSavedOfWin64(reg: nat)
    ensures reg in WIN64.calleeSaved <==>
            reg == 3 || reg == 5 || reg == 6 || reg == 7 || 12 <= reg <= 15 || XMM0 + 6 <= reg <= XMM0 + 15
  {
  }

  // The first four arguments are in rcx, rdx, r8 and r9, or in xmm0 to xmm3, and for '...' in both; the others are on the
  // stack, above four cells (the same, parameter passing and varargs).
  lemma ArgumentsOfWin64(arg: CallArg, i: nat)
    ensures forall place :: PassedIn(arg, i, place) <==>
              if i >= 4 then place == Mem(RSP, 32 + 8 * (i - 4))
              else (arg.isFloat && place == Reg([16, 17, 18, 19][i])) || ((!arg.isFloat || arg.isVararg) && place == Reg([1, 2, 8, 9][i]))
  {
  }

  // ---------------------------------------------------------------------------------------
  // Arguments arrive
  // ---------------------------------------------------------------------------------------

  // From the call to the end of the prologue's pushes: the return address and rbp are below the arguments, and rbp is there.
  // The probe of a big frame uses r11.
  ghost predicate Entered(caller: Machine, callee: Machine) {
    && callee.rbp == caller.rsp - 16
    && (forall a :: a >= caller.rsp ==> callee.mem(a) == caller.mem(a))
    && forall r: nat :: r != R11 ==> callee.regs(r) == caller.regs(r)
  }

  // The arguments of a call are those that the function declares; more of them can follow.
  predicate Declares(f: Function, args: seq<CallArg>) {
    && |f.params| <= |args| && (forall i :: 0 <= i < |f.params| ==> 0 <= f.params[i] < f.VregCount())
    && forall i :: 0 <= i < |f.params| ==> args[i].isFloat == f.vregTypes[f.params[i]].IsFloat()
  }

  // The place where the caller puts argument i is the place where the callee takes parameter i from.
  lemma ArgumentIsIncoming(arg: CallArg, i: nat, caller: Machine, callee: Machine)
    requires Entered(caller, callee)
    ensures exists place :: PassedIn(arg, i, place) && Eval(callee, Incoming(i, arg.isFloat)) == Eval(caller, place)
  {
    var place := if i >= 4 then Mem(RSP, 8 * i) else if arg.isFloat then Reg(XMM0 + i) else Reg(ArgumentGpr(i));
    assert PassedIn(arg, i, place);
    if i >= 4 {
      assert Address(callee, RBP, 16 + 8 * i) == Address(caller, RSP, 8 * i);
    }
  }

  // After the prologue each parameter has, in its location, the value that the argument had before the moves of the call.
  lemma ArgumentsArrive(f: Function, result: RegAllocResult, frame: FrameLayout, args: seq<CallArg>,
                        before: Machine, atCall: Machine, entered: Machine, after: Machine, i: nat)
    requires Declares(f, args) && i < |f.params|
    requires ArgumentsPassed(args, before, atCall) && Entered(atCall, entered) && ParametersArrive(f, result, frame, entered, after)
    ensures |result.locations| == f.VregCount() && !result.locations[f.params[i]].NoLocation?
    ensures Eval(after, OperandOf(frame, result.locations[f.params[i]])) == Eval(before, args[i].src)
  {
    ArgumentIsIncoming(args[i], i, atCall, entered);
    var place :| PassedIn(args[i], i, place) && Eval(entered, Incoming(i, args[i].isFloat)) == Eval(atCall, place);
  }

  // ---------------------------------------------------------------------------------------
  // The outgoing area
  // ---------------------------------------------------------------------------------------

  // How many cells from rsp up belong to a call: at least the four that the callee can use as it likes
  function CellsOf(raw: RawInst): nat {
    match raw.op
    case CallOp => if |raw.call.args| > 4 then |raw.call.args| else 4
    case Memcpy => 4
    case Memset => 4
    case _ => 0
  }

  // Nothing else of the frame is in the cells of a call.
  lemma OutgoingAreaIsFree(needs: FrameNeeds, frame: FrameLayout, saved: int, slots: int, spills: int, b: nat, k: nat, part: Part)
    requires needs.Valid() && LaidOut(needs, frame, saved, slots, spills)
    requires b < |needs.code| && k < |needs.code[b]| && IsPart(needs, part) && !part.Argument?
    ensures -frame.frameSize + 8 * CellsOf(needs.code[b][k]) <= RegionOf(needs, frame, part).at
  {
    var cells := CellsOf(needs.code[b][k]);
    if cells > 0 {
      assert NeedsArgument(needs.code[b][k], cells - 1);
      assert SomeCallNeeds(needs, cells - 1);
      assert Inside(ArgumentRegion(frame, cells - 1), -frame.frameSize, -spills);
    }
  }

  // ---------------------------------------------------------------------------------------
  // Registers that a function gives back
  // ---------------------------------------------------------------------------------------

  // What the code between the prologue and the epilogue does: it writes the registers that vregs have, the ones the emitter
  // keeps for itself, and what calls do not keep; and it leaves rbp and the saved registers in the frame alone.
  ghost predicate IsBody(result: RegAllocResult, used: seq<bool>, frame: FrameLayout, m: Machine, m': Machine)
    requires |used| == |frame.savedOffset|
  {
    && m'.rbp == m.rbp
    && (forall r: nat :: m'.regs(r) != m.regs(r) ==>
          r !in WIN64.calleeSaved || r == XMM14 || r == XMM15 || exists v :: 0 <= v < |result.locations| && result.locations[v] == InReg(r))
    && forall r: nat :: r < |used| && used[r] ==> SavedCell(m', frame, r) == SavedCell(m, frame, r)
  }

  // From the entry of the function to its return: the callee-saved registers are as they were, the two xmm registers that
  // the emitter uses as scratch exactly when the body has left them alone.
  lemma CalleeSavedAreKept(f: Function, live: LiveSets, result: RegAllocResult, needs: FrameNeeds, frame: FrameLayout, saved: int, slots: int, spills: int,
                           entry: Machine, body: Machine, end: Machine, exit: Machine, r: nat)
    requires IsAllocation(f, WIN64, live, result) && needs.Valid() && LaidOut(needs, frame, saved, slots, spills)
    requires |result.usedCalleeSaved| == MAX_REGS && needs.used == result.usedCalleeSaved[..REG_COUNT] && r in WIN64.calleeSaved
    requires body == Exec(SaveCode(needs.used, frame, REG_COUNT), entry) && IsBody(result, needs.used, frame, body, end)
    requires exit == Exec(RestoreCode(needs.used, frame, REG_COUNT), end)
    ensures exit.rbp == entry.rbp
    ensures r != XMM14 && r != XMM15 ==> exit.regs(r) == entry.regs(r)
    ensures r == XMM14 || r == XMM15 ==> (exit.regs(r) == entry.regs(r) <==> end.regs(r) == entry.regs(r))
  {
    hide *;
    LaidOutCells(needs, frame, saved, slots, spills);
    BodyKeeps(f, live, result, needs.used, frame, body, end, r);
    SavedIsRestored(needs.used, frame, entry, body, end, r);
  }

  lemma LaidOutCells(needs: FrameNeeds, frame: FrameLayout, saved: int, slots: int, spills: int)
    requires needs.Valid() && LaidOut(needs, frame, saved, slots, spills)
    ensures |needs.used| == |frame.savedOffset| == REG_COUNT == 32 && CellsApart(needs.used, frame)
  {
    SavedCellsApart(needs, frame, saved, slots, spills);
  }

  // A callee-saved register that the body changes is saved, or scratch, and not both.
  lemma BodyKeeps(f: Function, live: LiveSets, result: RegAllocResult, used: seq<bool>, frame: FrameLayout, m: Machine, m': Machine, r: nat)
    requires IsAllocation(f, WIN64, live, result) && r in WIN64.calleeSaved
    requires |result.usedCalleeSaved| == MAX_REGS && used == result.usedCalleeSaved[..REG_COUNT]
    requires |used| == |frame.savedOffset| && IsBody(result, used, frame, m, m')
    ensures r < |used|
    ensures m'.rbp == m.rbp && (used[r] ==> SavedCell(m', frame, r) == SavedCell(m, frame, r))
    ensures m'.regs(r) == m.regs(r) || used[r] || r == XMM14 || r == XMM15
    ensures used[r] ==> r != XMM14 && r != XMM15
  {
    hide IsAllocation, SavedCell;
    CalleeSavedOfWin64(r);
    UsedIsALocation(f, live, result, r);
    if used[r] {
      UsedIsNoScratch(f, live, result, r);
    }
  }

  lemma UsedIsALocation(f: Function, live: LiveSets, result: RegAllocResult, r: nat)
    requires IsAllocation(f, WIN64, live, result) && r in WIN64.calleeSaved && r < MAX_REGS
    ensures |result.usedCalleeSaved| == MAX_REGS
    ensures result.usedCalleeSaved[r] <==> exists v :: 0 <= v < |result.locations| && result.locations[v] == InReg(r)
  {
  }

  lemma UsedIsNoScratch(f: Function, live: LiveSets, result: RegAllocResult, r: nat)
    requires IsAllocation(f, WIN64, live, result) && r < MAX_REGS && result.usedCalleeSaved[r]
    ensures r != XMM14 && r != XMM15
  {
    var v :| 0 <= v < |result.locations| && result.locations[v] == InReg(r);
    assert ValidLocation(WIN64, result.intervals[v], result.locations[v], result.spillSlotCount);
    ReservedRegistersAreNotAllocated(r);
  }

  // So a call keeps every register that a value can be in across it.
  lemma SurvivorsAreKept(f: Function, live: LiveSets, result: RegAllocResult, needs: FrameNeeds, frame: FrameLayout, saved: int, slots: int, spills: int,
                         entry: Machine, body: Machine, end: Machine, exit: Machine, call: Inst, r: nat)
    requires IsAllocation(f, WIN64, live, result) && needs.Valid() && LaidOut(needs, frame, saved, slots, spills)
    requires |result.usedCalleeSaved| == MAX_REGS && needs.used == result.usedCalleeSaved[..REG_COUNT]
    requires body == Exec(SaveCode(needs.used, frame, REG_COUNT), entry) && IsBody(result, needs.used, frame, body, end)
    requires exit == Exec(RestoreCode(needs.used, frame, REG_COUNT), end)
    requires IsCallLike(call) && Execution.Survives(WIN64, call, r)
    ensures exit.regs(r) == entry.regs(r)
  {
    ReservedRegistersAreNotAllocated(r);
    CalleeSavedAreKept(f, live, result, needs, frame, saved, slots, spills, entry, body, end, exit, r);
  }

  // ---------------------------------------------------------------------------------------
  // The result
  // ---------------------------------------------------------------------------------------

  function ResultRegister(ty: IrType): nat {
    if ty.IsFloat() then XMM0 else RAX
  }

  // From the location of the returned vreg to the location of the call's destination: through the move of the callee, its
  // epilogue, and the move of the caller.
  lemma ResultArrives(f: Function, live: LiveSets, result: RegAllocResult, needs: FrameNeeds, frame: FrameLayout, src: Operand, ty: IrType,
                      dst: Operand, callee: Machine, caller: Machine)
    requires IsAllocation(f, WIN64, live, result) && |result.usedCalleeSaved| == MAX_REGS && needs.used == result.usedCalleeSaved[..REG_COUNT]
    requires |frame.savedOffset| == REG_COUNT && !dst.Imm?
    requires caller.regs == Exec(RestoreCode(needs.used, frame, REG_COUNT), Exec(MoveCode(Reg(ResultRegister(ty)), src), callee)).regs
    ensures Eval(Exec(MoveCode(dst, Reg(ResultRegister(ty))), caller), dst) == Eval(callee, src)
  {
    var r := ResultRegister(ty);
    hide Exec, MoveCode, RestoreCode, IsAllocation, Eval;
    var moved := Exec(MoveCode(Reg(r), src), callee);
    ResultIsNotSaved(f, live, result, ty);
    RestoresKeep(needs.used, frame, moved, r);
    MovesIntoRegister(callee, r, src);
    MovesFromRegister(caller, dst, r);
  }

  lemma ResultIsNotSaved(f: Function, live: LiveSets, result: RegAllocResult, ty: IrType)
    requires IsAllocation(f, WIN64, live, result) && |result.usedCalleeSaved| == MAX_REGS
    ensures ResultRegister(ty) < REG_COUNT < MAX_REGS && !result.usedCalleeSaved[ResultRegister(ty)]
  {
    CalleeSavedOfWin64(ResultRegister(ty));
  }

  lemma MovesIntoRegister(m: Machine, r: nat, src: Operand)
    ensures Exec(MoveCode(Reg(r), src), m).regs(r) == Eval(m, src)
  {
    MoveCodeMoves(Reg(r), src, m);
  }

  lemma MovesFromRegister(m: Machine, dst: Operand, r: nat)
    requires !dst.Imm?
    ensures Eval(Exec(MoveCode(dst, Reg(r)), m), dst) == m.regs(r)
  {
    MoveCodeMoves(dst, Reg(r), m);
  }
}
