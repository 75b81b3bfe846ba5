/** Parallel moves of the x64 emitter: the code that is emitted moves everything as if at once. */
module Moves {

  // ---------------------------------------------------------------------------------------
  // The machine: 64-bit registers, bytes of memory, and a frame
  // ---------------------------------------------------------------------------------------

  datatype Word = Word(b0: int, b1: int, b2: int, b3: int, b4: int, b5: int, b6: int, b7: int) {
    function Byte(k: int): int {
      if k == 0 then b0 else if k == 1 then b1 else if k == 2 then b2 else if k == 3 then b3
      else if k == 4 then b4 else if k == 5 then b5 else if k == 6 then b6 else b7
    }
  }

  const RSP: nat := 4
  const RBP: nat := 5
  const R11: nat := 11
  const XMM0: nat := 16
  const XMM15: nat := 31

  predicate IsXmm(reg: nat) { XMM0 <= reg <= XMM15 }

  datatype Operand = Reg(reg: nat) | Mem(base: nat, offset: int) | Imm(value: Word)

  datatype Instr =
    | MoveReg(dst: nat, src: nat)
    | Load(dst: nat, base: nat, offset: int)
    | LoadImm(dst: nat, value: Word)
    | Store(base: nat, offset: int, src: nat)

  // rsp and rbp are not among the registers that moves write, so they are kept apart.
  datatype Machine = Machine(regs: nat -> Word, mem: int -> int, rsp: int, rbp: int)

  function Address(m: Machine, base: nat, offset: int): int {
    (if base == RSP then m.rsp else m.rbp) + offset
  }

  function ReadWord(mem: int -> int, at: int): Word {
    Word(mem(at), mem(at + 1), mem(at + 2), mem(at + 3), mem(at + 4), mem(at + 5), mem(at + 6), mem(at + 7))
  }

  function Eval(m: Machine, op: Operand): Word {
    match op
    case Reg(r) => m.regs(r)
    case Mem(base, offset) => ReadWord(m.mem, Address(m, base, offset))
    case Imm(value) => value
  }

  function SetReg(m: Machine, reg: nat, value: Word): Machine {
    m.(regs := (r: nat) => if r == reg then value else m.regs(r))
  }

  function SetMem(m: Machine, at: int, value: Word): Machine {
    m.(mem := (a: int) => if at <= a < at + 8 then value.Byte(a - at) else m.mem(a))
  }

  function Step(m: Machine, instr: Instr): Machine {
    match instr
    case MoveReg(dst, src) => SetReg(m, dst, m.regs(src))
    case Load(dst, base, offset) => SetReg(m, dst, Eval(m, Mem(base, offset)))
    case LoadImm(dst, value) => SetReg(m, dst, value)
    case Store(base, offset, src) => SetMem(m, Address(m, base, offset), m.regs(src))
  }

  function Exec(code: seq<Instr>, m: Machine): Machine {
    if |code| == 0 then m else Step(Exec(code[..|code| - 1], m), code[|code| - 1])
  }

  lemma {:induction false} ExecAppend(a: seq<Instr>, b: seq<Instr>, m: Machine)
    ensures Exec(a + b, m) == Exec(b, Exec(a, m))
  {
    if |b| == 0 {
      assert a + b == a;
    } else {
      assert (a + b)[..|a + b| - 1] == a + b[..|b| - 1];
      ExecAppend(a, b[..|b| - 1], m);
    }
  }

  // ---------------------------------------------------------------------------------------
  // One move
  // ---------------------------------------------------------------------------------------

  function MoveRegCode(dst: nat, src: nat): seq<Instr> {
    if dst == src then [] else [MoveReg(dst, src)]
  }

  // Into a register directly; from memory or an immediate into memory through r11
  function MoveCode(dst: Operand, src: Operand): seq<Instr>
    requires !dst.Imm?
  {
    match (dst, src)
    case (Reg(d), Reg(s)) => MoveRegCode(d, s)
    case (Reg(d), Mem(base, offset)) => [Load(d, base, offset)]
    case (Reg(d), Imm(value)) => [LoadImm(d, value)]
    case (Mem(base, offset), Reg(s)) => [Store(base, offset, s)]
    case (Mem(base, offset), Mem(sb, so)) => [Load(R11, sb, so), Store(base, offset, R11)]
    case (Mem(base, offset), Imm(value)) => [LoadImm(R11, value), Store(base, offset, R11)]
  }

  // m' has the source's value in the destination; apart from it and, for memory, r11, it is m.
  ghost predicate Moved(m: Machine, m': Machine, dst: Operand, value: Word) {
    && m'.rsp == m.rsp && m'.rbp == m.rbp
    && Eval(m', dst) == value
    && (forall r: nat :: !(dst.Reg? && r == dst.reg) && !(dst.Mem? && r == R11) ==> m'.regs(r) == m.regs(r))
    && (forall a :: !(dst.Mem? && Address(m, dst.base, dst.offset) <= a < Address(m, dst.base, dst.offset) + 8) ==> m'.mem(a) == m.mem(a))
  }

  lemma ExecShort(a: Instr, b: Instr, m: Machine)
    ensures Exec([a], m) == Step(m, a)
    ensures Exec([a, b], m) == Step(Step(m, a), b)
  {
    assert [a][..0] == [] && [a, b][..1] == [a];
  }

  lemma StoredWord(m: Machine, at: int, value: Word)
    ensures ReadWord(SetMem(m, at, value).mem, at) == value
  {
    var mem := SetMem(m, at, value).mem;
    forall k | 0 <= k < 8
      ensures mem(at + k) == value.Byte(k)
    {
    }
    assert mem(at + 0) == value.Byte(0) && mem(at + 7) == value.Byte(7);
  }

  lemma SetRegMoves(m: Machine, reg: nat, value: Word)
    ensures Moved(m, SetReg(m, reg, value), Reg(reg), value)
  {
  }

  lemma SetMemMoves(m: Machine, base: nat, offset: int, value: Word)
    ensures Moved(m, SetMem(m, Address(m, base, offset), value), Mem(base, offset), value)
  {
    StoredWord(m, Address(m, base, offset), value);
  }

  // Through r11
  lemma ViaR11Moves(m: Machine, base: nat, offset: int, value: Word)
    ensures
      var m1 := SetReg(m, R11, value);
      Moved(m, SetMem(m1, Address(m1, base, offset), m1.regs(R11)), Mem(base, offset), value)
  {
    SetMemMoves(SetReg(m, R11, value), base, offset, value);
  }

  lemma MoveCodeMoves(dst: Operand, src: Operand, m: Machine)
    requires !dst.Imm?
    ensures Moved(m, Exec(MoveCode(dst, src), m), dst, Eval(m, src))
  {
    match (dst, src)
    case (Reg(d), Reg(s)) =>
      if d != s {
        ExecShort(MoveReg(d, s), MoveReg(d, s), m);
        SetRegMoves(m, d, m.regs(s));
      }
    case (Reg(d), Mem(base, offset)) =>
      ExecShort(Load(d, base, offset), Load(d, base, offset), m);
      SetRegMoves(m, d, Eval(m, src));
    case (Reg(d), Imm(value)) =>
      ExecShort(LoadImm(d, value), LoadImm(d, value), m);
      SetRegMoves(m, d, value);
    case (Mem(base, offset), Reg(s)) =>
      ExecShort(Store(base, offset, s), Store(base, offset, s), m);
      SetMemMoves(m, base, offset, m.regs(s));
    case (Mem(base, offset), Mem(sb, so)) =>
      ExecShort(Load(R11, sb, so), Store(base, offset, R11), m);
      ViaR11Moves(m, base, offset, Eval(m, src));
    case (Mem(base, offset), Imm(value)) =>
      ExecShort(LoadImm(R11, value), Store(base, offset, R11), m);
      ViaR11Moves(m, base, offset, value);
  }

  // ---------------------------------------------------------------------------------------
  // Lists of moves
  // ---------------------------------------------------------------------------------------

  datatype Move = Move(dst: Operand, src: Operand, done: bool)

  // Where a memory operand is, from rsp, in a frame of 'gap' bytes between rsp and rbp
  function Cell(op: Operand, gap: int): int
    requires op.Mem?
  {
    if op.base == RSP then op.offset else gap + op.offset
  }

  predicate IsScratch(reg: nat) { reg == R11 || reg == XMM15 }

  predicate ApartOperands(a: Operand, b: Operand, gap: int) {
    match (a, b)
    case (Reg(r), Reg(s)) => r != s
    case (Mem(_, _), Mem(_, _)) => Cell(a, gap) + 8 <= Cell(b, gap) || Cell(b, gap) + 8 <= Cell(a, gap)
    case _ => true
  }

  // What a caller of x64_parallel_move provides: different destinations, no scratch register among the operands,
  // stack cells that are written apart from the ones that are read, and no immediate into an xmm register.
  ghost predicate Movable(moves: seq<Move>, gap: int) {
    && (forall i :: 0 <= i < |moves| ==>
          && !moves[i].done && !moves[i].dst.Imm?
          && (moves[i].dst.Reg? ==> !IsScratch(moves[i].dst.reg))
          && (moves[i].src.Reg? ==> !IsScratch(moves[i].src.reg)))
    && (forall i, j :: 0 <= i < j < |moves| ==> ApartOperands(moves[i].dst, moves[j].dst, gap))
    && (forall i, j :: 0 <= i < |moves| && 0 <= j < |moves| && moves[i].dst.Mem? && moves[j].src.Mem? ==>
          ApartOperands(moves[i].dst, moves[j].src, gap))
    && (forall i :: 0 <= i < |moves| && moves[i].dst.Reg? && moves[i].src.Imm? ==> !IsXmm(moves[i].dst.reg))
  }

  ghost predicate IsDestination(moves: seq<Move>, reg: nat) {
    exists i :: 0 <= i < |moves| && moves[i].dst == Reg(reg)
  }

  ghost predicate IsWritten(moves: seq<Move>, m: Machine, a: int) {
    exists i :: 0 <= i < |moves| && moves[i].dst.Mem?
      && Address(m, moves[i].dst.base, moves[i].dst.offset) <= a < Address(m, moves[i].dst.base, moves[i].dst.offset) + 8
  }

  // The rest of the machine is as before.
  ghost predicate OnlyDestinations(moves: seq<Move>, m: Machine, m': Machine) {
    && m'.rsp == m.rsp && m'.rbp == m.rbp
    && (forall r: nat :: !IsDestination(moves, r) && !IsScratch(r) ==> m'.regs(r) == m.regs(r))
    && (forall a :: !IsWritten(moves, m, a) ==> m'.mem(a) == m.mem(a))
  }

  // All moves at once: every destination has what its source had before any of them.
  ghost predicate MovedAtOnce(moves: seq<Move>, m: Machine, m': Machine) {
    && OnlyDestinations(moves, m, m')
    && forall i :: 0 <= i < |moves| ==> Eval(m', moves[i].dst) == Eval(m, moves[i].src)
  }

  ghost predicate Performs(code: seq<Instr>, moves: seq<Move>, gap: int) {
    forall m: Machine :: m.rbp - m.rsp == gap ==> MovedAtOnce(moves, m, Exec(code, m))
  }

  // ---------------------------------------------------------------------------------------
  // On the way
  // ---------------------------------------------------------------------------------------

  // The list as the emitter has changed it so far: flags, and sources that moved to a scratch register
  ghost predicate Shape(moves0: seq<Move>, moves: seq<Move>) {
    && |moves| == |moves0|
    && (forall i :: 0 <= i < |moves| ==> moves[i].dst == moves0[i].dst)
    && (forall i :: 0 <= i < |moves| && !moves[i].done ==>
          moves[i].src == moves0[i].src || (moves[i].dst.Reg? && moves[i].src.Reg? && IsScratch(moves[i].src.reg)))
  }

  ghost predicate SoFar(moves0: seq<Move>, moves: seq<Move>, m: Machine, m': Machine)
    requires |moves| == |moves0|
  {
    && OnlyDestinations(moves0, m, m')
    && (forall i :: 0 <= i < |moves| && moves[i].done ==> Eval(m', moves0[i].dst) == Eval(m, moves0[i].src))
    && (forall i :: 0 <= i < |moves| && !moves[i].done ==> Eval(m', moves[i].src) == Eval(m, moves0[i].src))
  }

  ghost predicate PerformsSoFar(code: seq<Instr>, moves0: seq<Move>, moves: seq<Move>, gap: int)
    requires |moves| == |moves0|
  {
    forall m: Machine :: m.rbp - m.rsp == gap ==> SoFar(moves0, moves, m, Exec(code, m))
  }

  predicate ReadsReg(src: Operand, reg: nat) {
    src.Reg? && src.reg == reg
  }

  // Another pending move reads the destination.
  ghost predicate Blocked(moves: seq<Move>, i: nat)
    requires i < |moves|
  {
    moves[i].dst.Reg? && exists j :: 0 <= j < |moves| && j != i && !moves[j].done && ReadsReg(moves[j].src, moves[i].dst.reg)
  }

  // No pending source is in the way of writing dst.
  ghost predicate SparesSources(moves: seq<Move>, i: nat, gap: int)
    requires i < |moves|
  {
    forall j :: 0 <= j < |moves| && j != i && !moves[j].done ==>
      && (moves[i].dst.Reg? ==> !ReadsReg(moves[j].src, moves[i].dst.reg))
      && (moves[i].dst.Mem? ==> !ReadsReg(moves[j].src, R11))
      && (moves[i].dst.Mem? && moves[j].src.Mem? ==> ApartOperands(moves[i].dst, moves[j].src, gap))
  }

  lemma MovedKeepsOperand(m: Machine, m': Machine, dst: Operand, value: Word, op: Operand, gap: int)
    requires Moved(m, m', dst, value) && m.rbp - m.rsp == gap && !dst.Imm?
    requires dst.Reg? ==> !ReadsReg(op, dst.reg)
    requires dst.Mem? ==> !ReadsReg(op, R11)
    requires dst.Mem? && op.Mem? ==> ApartOperands(dst, op, gap)
    ensures Eval(m', op) == Eval(m, op)
  {
  }

  // Performing a move that spares the pending sources keeps the promise, with the move done.
  lemma MoveOne(moves0: seq<Move>, moves: seq<Move>, i: nat, m: Machine, m1: Machine, m2: Machine, gap: int)
    requires Movable(moves0, gap) && Shape(moves0, moves) && i < |moves| && !moves[i].done
    requires SparesSources(moves, i, gap)
    requires m.rbp - m.rsp == gap && SoFar(moves0, moves, m, m1)
    requires Moved(m1, m2, moves[i].dst, Eval(m1, moves[i].src))
    ensures SoFar(moves0, moves[i := moves[i].(done := true)], m, m2)
  {
    var moves' := moves[i := moves[i].(done := true)];
    var dst := moves[i].dst;
    forall j | 0 <= j < |moves| && !moves'[j].done
      ensures Eval(m2, moves'[j].src) == Eval(m, moves0[j].src)
    {
      MovedKeepsOperand(m1, m2, dst, Eval(m1, moves[i].src), moves[j].src, gap);
    }
    forall j | 0 <= j < |moves| && moves'[j].done
      ensures Eval(m2, moves0[j].dst) == Eval(m, moves0[j].src)
    {
      if j != i {
        assert ApartOperands(moves0[if i < j then i else j].dst, moves0[if i < j then j else i].dst, gap);
        MovedKeepsOperand(m1, m2, dst, Eval(m1, moves[i].src), moves0[j].dst, gap);
      }
    }
    assert OnlyDestinations(moves0, m, m2) by {
      forall r: nat | !IsDestination(moves0, r) && !IsScratch(r)
        ensures m2.regs(r) == m.regs(r)
      {
        assert dst == moves0[i].dst;
      }
      forall a | !IsWritten(moves0, m, a)
        ensures m2.mem(a) == m.mem(a)
      {
        assert dst == moves0[i].dst;
      }
    }
  }

  lemma Emitted(moves0: seq<Move>, moves: seq<Move>, i: nat, code: seq<Instr>, gap: int)
    requires Movable(moves0, gap) && Shape(moves0, moves) && i < |moves| && !moves[i].done
    requires SparesSources(moves, i, gap) && PerformsSoFar(code, moves0, moves, gap)
    ensures PerformsSoFar(code + MoveCode(moves[i].dst, moves[i].src), moves0, moves[i := moves[i].(done := true)], gap)
  {
    var emitted := MoveCode(moves[i].dst, moves[i].src);
    forall m: Machine | m.rbp - m.rsp == gap
      ensures SoFar(moves0, moves[i := moves[i].(done := true)], m, Exec(code + emitted, m))
    {
      ExecAppend(code, emitted, m);
      MoveCodeMoves(moves[i].dst, moves[i].src, Exec(code, m));
      MoveOne(moves0, moves, i, m, Exec(code, m), Exec(code + emitted, m), gap);
    }
  }

  // A move of a register to itself is done without code.
  lemma NothingToMove(moves0: seq<Move>, moves: seq<Move>, i: nat, code: seq<Instr>, gap: int)
    requires Shape(moves0, moves) && i < |moves| && !moves[i].done && moves[i].src == moves[i].dst
    requires PerformsSoFar(code, moves0, moves, gap)
    ensures PerformsSoFar(code, moves0, moves[i := moves[i].(done := true)], gap)
  {
    forall m: Machine | m.rbp - m.rsp == gap
      ensures SoFar(moves0, moves[i := moves[i].(done := true)], m, Exec(code, m))
    {
      assert SoFar(moves0, moves, m, Exec(code, m));
    }
  }

  // ---------------------------------------------------------------------------------------
  // Cycles
  // ---------------------------------------------------------------------------------------

  function Pending(moves: seq<Move>): nat {
    if |moves| == 0 then 0 else Pending(moves[..|moves| - 1]) + (if moves[|moves| - 1].done then 0 else 1)
  }

  lemma {:induction false} DoneLowersPending(moves: seq<Move>, i: nat)
    requires i < |moves| && !moves[i].done
    ensures Pending(moves[i := moves[i].(done := true)]) + 1 == Pending(moves)
  {
    var last := |moves| - 1;
    if i == last {
      assert moves[i := moves[i].(done := true)][..last] == moves[..last];
    } else {
      assert moves[i := moves[i].(done := true)][..last] == moves[..last][i := moves[i].(done := true)];
      DoneLowersPending(moves[..last], i);
    }
  }

  ghost predicate Stuck(moves: seq<Move>) {
    forall i {:trigger Blocked(moves, i)} :: 0 <= i < |moves| && !moves[i].done ==> Blocked(moves, i)
  }

  // The registers that pending moves write, and the ones they read
  function PendingDsts(moves: seq<Move>): set<nat> {
    if |moves| == 0 then {}
    else
      var last := moves[|moves| - 1];
      PendingDsts(moves[..|moves| - 1]) + (if !last.done && last.dst.Reg? then {last.dst.reg} else {})
  }

  function PendingSrcs(moves: seq<Move>): set<nat> {
    if |moves| == 0 then {}
    else
      var last := moves[|moves| - 1];
      PendingSrcs(moves[..|moves| - 1]) + (if !last.done && last.src.Reg? then {last.src.reg} else {})
  }

  predicate DistinctRegDsts(moves: seq<Move>) {
    forall i, j :: 0 <= i < j < |moves| && !moves[i].done && !moves[j].done ==>
      moves[i].dst.Reg? && moves[j].dst.Reg? && moves[i].dst.reg != moves[j].dst.reg
  }

  predicate RegDsts(moves: seq<Move>) {
    forall i :: 0 <= i < |moves| && !moves[i].done ==> moves[i].dst.Reg?
  }

  lemma {:induction false} InPendingDsts(moves: seq<Move>, r: nat)
    ensures r in PendingDsts(moves) <==> exists i :: 0 <= i < |moves| && !moves[i].done && moves[i].dst == Reg(r)
  {
    if |moves| > 0 {
      var rest := moves[..|moves| - 1];
      InPendingDsts(rest, r);
      if i :| 0 <= i < |moves| && !moves[i].done && moves[i].dst == Reg(r) {
        if i < |rest| { assert rest[i] == moves[i]; }
      }
      if i :| 0 <= i < |rest| && !rest[i].done && rest[i].dst == Reg(r) {
        assert moves[i] == rest[i];
      }
    }
  }

  lemma {:induction false} InPendingSrcs(moves: seq<Move>, r: nat)
    ensures r in PendingSrcs(moves) <==> exists i :: 0 <= i < |moves| && !moves[i].done && moves[i].src == Reg(r)
  {
    if |moves| > 0 {
      var rest := moves[..|moves| - 1];
      InPendingSrcs(rest, r);
      if i :| 0 <= i < |moves| && !moves[i].done && moves[i].src == Reg(r) {
        if i < |rest| { assert rest[i] == moves[i]; }
      }
      if i :| 0 <= i < |rest| && !rest[i].done && rest[i].src == Reg(r) {
        assert moves[i] == rest[i];
      }
    }
  }

  // As many registers are written as there are pending moves,
  lemma {:induction false} CountDsts(moves: seq<Move>)
    requires RegDsts(moves) && DistinctRegDsts(moves)
    ensures |PendingDsts(moves)| == Pending(moves)
  {
    if |moves| > 0 {
      var rest, last := moves[..|moves| - 1], moves[|moves| - 1];
      CountDsts(rest);
      if !last.done {
        InPendingDsts(rest, last.dst.reg);
        assert forall i :: 0 <= i < |rest| ==> rest[i] == moves[i];
        assert last.dst.reg !in PendingDsts(rest);
      }
    }
  }

  // and at most as many are read, fewer when some source is not a register.
  lemma {:induction false} CountSrcs(moves: seq<Move>)
    ensures |PendingSrcs(moves)| <= Pending(moves)
    ensures (exists i :: 0 <= i < |moves| && !moves[i].done && !moves[i].src.Reg?) ==> |PendingSrcs(moves)| < Pending(moves)
  {
    if |moves| > 0 {
      var rest, last := moves[..|moves| - 1], moves[|moves| - 1];
      CountSrcs(rest);
      if i :| 0 <= i < |moves| && !moves[i].done && !moves[i].src.Reg? {
        if i < |rest| { assert rest[i] == moves[i]; }
      }
    }
  }

  lemma SubsetsOfSameSize(a: set<nat>, b: set<nat>)
    requires a <= b && |b| <= |a|
    ensures a == b
  {
    assert b == a + (b - a);
    assert |b| == |a| + |b - a|;
  }

  // When no pending move is ready, the pending moves permute registers among themselves: every source is a
  // register, and the registers that are read are exactly the ones that are written.
  lemma StuckIsPermutation(moves: seq<Move>)
    requires RegDsts(moves) && DistinctRegDsts(moves) && Stuck(moves)
    ensures forall i :: 0 <= i < |moves| && !moves[i].done ==> moves[i].src.Reg?
    ensures PendingSrcs(moves) == PendingDsts(moves)
  {
    CountDsts(moves);
    CountSrcs(moves);
    forall r | r in PendingDsts(moves)
      ensures r in PendingSrcs(moves)
    {
      InPendingDsts(moves, r);
      var i :| 0 <= i < |moves| && !moves[i].done && moves[i].dst == Reg(r);
      assert Blocked(moves, i);
      InPendingSrcs(moves, r);
    }
    SubsetsOfSameSize(PendingDsts(moves), PendingSrcs(moves));
  }

  // The sources that read reg now read the scratch register.
  function Redirected(moves: seq<Move>, reg: nat, scratch: nat): (r: seq<Move>)
    ensures |r| == |moves|
    ensures forall i :: 0 <= i < |moves| ==>
      r[i] == if !moves[i].done && ReadsReg(moves[i].src, reg) then moves[i].(src := Reg(scratch)) else moves[i]
  {
    if |moves| == 0 then []
    else
      var last := moves[|moves| - 1];
      Redirected(moves[..|moves| - 1], reg, scratch)
      + [if !last.done && ReadsReg(last.src, reg) then last.(src := Reg(scratch)) else last]
  }

  lemma CopyToScratch(moves0: seq<Move>, moves: seq<Move>, code: seq<Instr>, gap: int, reg: nat, scratch: nat)
    requires Movable(moves0, gap) && Shape(moves0, moves) && PerformsSoFar(code, moves0, moves, gap)
    requires IsScratch(scratch) && reg != scratch
    requires forall i :: 0 <= i < |moves| && !moves[i].done ==> !ReadsReg(moves[i].src, scratch)
    ensures PerformsSoFar(code + MoveRegCode(scratch, reg), moves0, Redirected(moves, reg, scratch), gap)
  {
    forall m: Machine | m.rbp - m.rsp == gap
      ensures SoFar(moves0, Redirected(moves, reg, scratch), m, Exec(code + MoveRegCode(scratch, reg), m))
    {
      ExecAppend(code, MoveRegCode(scratch, reg), m);
      ExecShort(MoveReg(scratch, reg), MoveReg(scratch, reg), Exec(code, m));
      ScratchCopied(moves0, moves, m, Exec(code, m), gap, reg, scratch);
    }
  }

  lemma ScratchCopied(moves0: seq<Move>, moves: seq<Move>, m: Machine, m1: Machine, gap: int, reg: nat, scratch: nat)
    requires Movable(moves0, gap) && Shape(moves0, moves) && SoFar(moves0, moves, m, m1)
    requires IsScratch(scratch) && reg != scratch
    requires forall i :: 0 <= i < |moves| && !moves[i].done ==> !ReadsReg(moves[i].src, scratch)
    ensures SoFar(moves0, Redirected(moves, reg, scratch), m, SetReg(m1, scratch, m1.regs(reg)))
  {
    var m2 := SetReg(m1, scratch, m1.regs(reg));
    var moves' := Redirected(moves, reg, scratch);
    forall i | 0 <= i < |moves| && !moves'[i].done
      ensures Eval(m2, moves'[i].src) == Eval(m, moves0[i].src)
    {
      if !ReadsReg(moves[i].src, reg) {
        SetRegMoves(m1, scratch, m1.regs(reg));
        MovedKeepsOperand(m1, m2, Reg(scratch), m1.regs(reg), moves[i].src, m1.rbp - m1.rsp);
      }
    }
    forall i | 0 <= i < |moves| && moves'[i].done
      ensures Eval(m2, moves0[i].dst) == Eval(m, moves0[i].src)
    {
      SetRegMoves(m1, scratch, m1.regs(reg));
      MovedKeepsOperand(m1, m2, Reg(scratch), m1.regs(reg), moves0[i].dst, m1.rbp - m1.rsp);
    }
  }

  lemma {:induction false} RedirectedKeepsPending(moves: seq<Move>, reg: nat, scratch: nat)
    ensures Pending(Redirected(moves, reg, scratch)) == Pending(moves)
  {
    if |moves| > 0 {
      var last := |moves| - 1;
      assert Redirected(moves, reg, scratch)[..last] == Redirected(moves[..last], reg, scratch);
      RedirectedKeepsPending(moves[..last], reg, scratch);
    }
  }

  // The move that writes the saved register is ready then.
  lemma RedirectedIsNotStuck(moves: seq<Move>, first: nat, scratch: nat)
    requires first < |moves| && !moves[first].done && moves[first].src.Reg?
    requires RegDsts(moves) && DistinctRegDsts(moves) && Stuck(moves) && moves[first].src.reg != scratch
    ensures !Stuck(Redirected(moves, moves[first].src.reg, scratch))
  {
    var reg := moves[first].src.reg;
    var moves' := Redirected(moves, reg, scratch);
    StuckIsPermutation(moves);
    InPendingSrcs(moves, reg);
    InPendingDsts(moves, reg);
    var i :| 0 <= i < |moves| && !moves[i].done && moves[i].dst == Reg(reg);
    assert !moves'[i].done && moves'[i].dst == Reg(reg);
    assert !Blocked(moves', i);
  }

  // ---------------------------------------------------------------------------------------
  // The emitter
  // ---------------------------------------------------------------------------------------

  // Between the steps: only register destinations are pending, and the code so far does the rest.
  ghost predicate InRegisters(moves0: seq<Move>, moves: seq<Move>, code: seq<Instr>, gap: int) {
    && Movable(moves0, gap) && Shape(moves0, moves) && RegDsts(moves)
    && PerformsSoFar(code, moves0, moves, gap)
  }

  lemma PendingAreDistinct(moves0: seq<Move>, moves: seq<Move>, gap: int)
    requires Movable(moves0, gap) && Shape(moves0, moves) && RegDsts(moves)
    ensures DistinctRegDsts(moves)
  {
    forall i, j | 0 <= i < j < |moves| && !moves[i].done && !moves[j].done
      ensures moves[i].dst.Reg? && moves[j].dst.Reg? && moves[i].dst.reg != moves[j].dst.reg
    {
      assert ApartOperands(moves0[i].dst, moves0[j].dst, gap);
    }
  }

  method IsBlocked(moves: array<Move>, i: nat) returns (blocked: bool)
    requires i < moves.Length && moves[i].dst.Reg?
    ensures blocked <==> Blocked(moves[..], i)
  {
    blocked := false;
    for j := 0 to moves.Length
      invariant forall k :: 0 <= k < j && k != i && !moves[k].done ==> !ReadsReg(moves[k].src, moves[i].dst.reg)
    {
      if j != i && !moves[j].done && ReadsReg(moves[j].src, moves[i].dst.reg) {
        assert moves[..][j] == moves[j];
        return true;
      }
    }
  }

  // The moves into memory change no register, so those that are left still have their sources.
  method MoveIntoMemory(moves: array<Move>, ghost gap: int) returns (code: seq<Instr>)
    requires Movable(moves[..], gap)
    modifies moves
    ensures InRegisters(old(moves[..]), moves[..], code, gap)
  {
    code := [];
    ghost var moves0 := moves[..];
    for i := 0 to moves.Length
      invariant Shape(moves0, moves[..]) && PerformsSoFar(code, moves0, moves[..], gap)
      invariant forall k :: 0 <= k < moves.Length ==> moves[k] == moves0[k] || moves[k] == moves0[k].(done := true)
      invariant forall k :: 0 <= k < i ==> moves[k].done || moves[k].dst.Reg?
      invariant forall k :: i <= k < moves.Length ==> moves[k] == moves0[k]
    {
      if moves[i].dst.Mem? {
        ghost var before := moves[..];
        Emitted(moves0, before, i, code, gap);
        code := code + MoveCode(moves[i].dst, moves[i].src);
        moves[i] := moves[i].(done := true);
        assert moves[..] == before[i := before[i].(done := true)];
      }
    }
  }

  // What a round over the pending moves leaves
  ghost predicate AfterRound(before: seq<Move>, after: seq<Move>) {
    && |after| == |before|
    && (forall k :: 0 <= k < |after| ==> after[k] == before[k] || (!before[k].done && after[k] == before[k].(done := true)))
    && Pending(after) <= Pending(before)
    && (after != before ==> Pending(after) < Pending(before))
  }

  lemma OneMoreDone(before: seq<Move>, after: seq<Move>, i: nat)
    requires AfterRound(before, after) && i < |after| && !after[i].done
    ensures AfterRound(before, after[i := after[i].(done := true)])
    ensures Pending(after[i := after[i].(done := true)]) < Pending(before)
  {
    DoneLowersPending(after, i);
  }

  datatype Turn = Nothing | Wait | Emit

  // The turn of one pending move: done already, waiting, or emitted.
  method TakeTurn(moves: array<Move>, i: nat, code: seq<Instr>, ghost moves0: seq<Move>, ghost gap: int)
    returns (longer: seq<Instr>, turn: Turn)
    requires InRegisters(moves0, moves[..], code, gap) && i < moves.Length && !moves[i].done
    modifies moves
    ensures InRegisters(moves0, moves[..], longer, gap)
    ensures turn == Wait ==> moves[..] == old(moves[..]) && Blocked(moves[..], i)
    ensures turn != Wait ==> moves[..] == old(moves[..])[i := old(moves[i]).(done := true)]
    ensures turn == Nothing ==> old(moves[i]).src == old(moves[i]).dst
    ensures turn == Emit ==> !Blocked(old(moves[..]), i)
  {
    ghost var now := moves[..];
    longer := code;
    if moves[i].src.Reg? && moves[i].src.reg == moves[i].dst.reg {
      NothingToMove(moves0, now, i, longer, gap);
      moves[i] := moves[i].(done := true);
      assert moves[..] == now[i := now[i].(done := true)];
      return longer, Nothing;
    }
    var blocked := IsBlocked(moves, i);
    if blocked { return longer, Wait; }
    Emitted(moves0, now, i, longer, gap);
    longer := longer + MoveCode(moves[i].dst, moves[i].src);
    moves[i] := moves[i].(done := true);
    assert moves[..] == now[i := now[i].(done := true)];
    turn := Emit;
  }

  // A round after the turns of the first i moves. 'ready' is a move that was not blocked at its start, or -1.
  ghost predicate RoundState(before: seq<Move>, now: seq<Move>, i: nat, pending: bool, progress: bool, ready: int) {
    && AfterRound(before, now) && i <= |now|
    && (!pending ==> forall k :: 0 <= k < i ==> now[k].done)
    && (progress ==> Pending(now) < Pending(before))
    && (!progress ==> forall k {:trigger Blocked(now, k)} :: 0 <= k < i ==> now[k].done || Blocked(now, k))
    && (pending && !progress ==> exists k :: 0 <= k < i && !now[k].done)
    && (0 <= ready < i ==> now[ready].done)
    && (0 <= ready ==> ready < |now| && !before[ready].done && !Blocked(before, ready))
  }

  lemma WasDone(before: seq<Move>, now: seq<Move>, i: nat, pending: bool, progress: bool, ready: int)
    requires RoundState(before, now, i, pending, progress, ready) && i < |now| && now[i].done
    ensures RoundState(before, now, i + 1, pending, progress, ready)
  {
  }

  lemma Waits(before: seq<Move>, now: seq<Move>, i: nat, pending: bool, progress: bool, ready: int)
    requires RoundState(before, now, i, pending, progress, ready) && i < |now| && !now[i].done && Blocked(now, i)
    ensures RoundState(before, now, i + 1, true, progress, ready)
  {
    assert Blocked(before, i);
  }

  lemma IsEmitted(before: seq<Move>, now: seq<Move>, i: nat, pending: bool, progress: bool, ready: int)
    requires RoundState(before, now, i, pending, progress, ready) && i < |now| && !now[i].done
    ensures RoundState(before, now[i := now[i].(done := true)], i + 1, true, true, ready)
  {
    OneMoreDone(before, now, i);
  }

  lemma HadNothingToDo(before: seq<Move>, now: seq<Move>, i: nat, pending: bool, progress: bool, ready: int)
    requires RoundState(before, now, i, pending, progress, ready) && i < |now| && !now[i].done
    requires now[i].dst.Reg? && now[i].src == now[i].dst && DistinctRegDsts(now)
    ensures RoundState(before, now[i := now[i].(done := true)], i + 1, pending, progress, ready)
  {
    OneMoreDone(before, now, i);
    StillBlocked(now, i);
    if pending && !progress {
      var k :| 0 <= k < i && !now[k].done;
      assert !now[i := now[i].(done := true)][k].done;
    }
  }

  lemma RoundStarts(before: seq<Move>) returns (ready: int)
    ensures RoundState(before, before, 0, false, false, ready) && (ready >= 0 || Stuck(before))
  {
    ready := -1;
    if !Stuck(before) {
      ready :| 0 <= ready < |before| && !before[ready].done && !Blocked(before, ready);
    }
  }

  lemma RoundEnds(before: seq<Move>, now: seq<Move>, pending: bool, progress: bool, ready: int)
    requires RoundState(before, now, |now|, pending, progress, ready) && (ready >= 0 || Stuck(before))
    ensures !pending ==> forall k :: 0 <= k < |now| ==> now[k].done
    ensures progress || !Stuck(before) ==> Pending(now) < Pending(before)
    ensures pending && !progress ==> Stuck(now) && exists k :: 0 <= k < |now| && !now[k].done
  {
    if ready >= 0 {
      assert now[ready] != before[ready];
    }
  }

  // Emits every move that is ready when its turn comes.
  method Round(moves: array<Move>, code: seq<Instr>, ghost moves0: seq<Move>, ghost gap: int)
    returns (longer: seq<Instr>, pending: bool, progress: bool)
    requires InRegisters(moves0, moves[..], code, gap)
    modifies moves
    ensures InRegisters(moves0, moves[..], longer, gap)
    ensures AfterRound(old(moves[..]), moves[..])
    ensures !pending ==> forall k :: 0 <= k < moves.Length ==> moves[k].done
    ensures progress || !Stuck(old(moves[..])) ==> Pending(moves[..]) < Pending(old(moves[..]))
    ensures pending && !progress ==> Stuck(moves[..]) && exists k :: 0 <= k < moves.Length && !moves[k].done
  {
    longer, pending, progress := code, false, false;
    ghost var before := moves[..];
    ghost var ready := RoundStarts(before);
    for i := 0 to moves.Length
      invariant InRegisters(moves0, moves[..], longer, gap)
      invariant RoundState(before, moves[..], i, pending, progress, ready)
    {
      ghost var now := moves[..];
      if moves[i].done {
        WasDone(before, now, i, pending, progress, ready);
        continue;
      }
      PendingAreDistinct(moves0, now, gap);
      ghost var pending0, progress0 := pending, progress;
      var turn;
      longer, turn := TakeTurn(moves, i, longer, moves0, gap);
      match turn {
        case Nothing =>
          HadNothingToDo(before, now, i, pending0, progress0, ready);
        case Wait =>
          pending := true;
          Waits(before, now, i, pending0, progress0, ready);
        case Emit =>
          pending, progress := true, true;
          IsEmitted(before, now, i, pending0, progress0, ready);
      }
    }
    RoundEnds(before, moves[..], pending, progress, ready);
  }

  // A move that is blocked stays so when a move of a register to itself is done.
  lemma StillBlocked(moves: seq<Move>, i: nat)
    requires i < |moves| && !moves[i].done && moves[i].dst.Reg? && moves[i].src == moves[i].dst
    requires DistinctRegDsts(moves)
    ensures forall k :: 0 <= k < |moves| && !moves[k].done && k != i && Blocked(moves, k) ==> Blocked(moves[i := moves[i].(done := true)], k)
  {
    var moves' := moves[i := moves[i].(done := true)];
    forall k | 0 <= k < |moves| && !moves[k].done && k != i && Blocked(moves, k)
      ensures Blocked(moves', k)
    {
      var j :| 0 <= j < |moves| && j != k && !moves[j].done && ReadsReg(moves[j].src, moves[k].dst.reg);
      assert j != i;
      assert moves'[j] == moves[j];
    }
  }

  method Redirect(moves: array<Move>, reg: nat, scratch: nat)
    modifies moves
    ensures moves[..] == Redirected(old(moves[..]), reg, scratch)
  {
    ghost var before := moves[..];
    for j := 0 to moves.Length
      invariant forall k :: 0 <= k < j ==> moves[k] == Redirected(before, reg, scratch)[k]
      invariant forall k :: j <= k < moves.Length ==> moves[k] == before[k]
    {
      if !moves[j].done && ReadsReg(moves[j].src, reg) {
        moves[j] := moves[j].(src := Reg(scratch));
      }
    }
  }

  method FirstPending(moves: array<Move>) returns (first: nat)
    requires exists k :: 0 <= k < moves.Length && !moves[k].done
    ensures first < moves.Length && !moves[first].done && forall k :: 0 <= k < first ==> moves[k].done
  {
    first := 0;
    while moves[first].done
      invariant first < moves.Length && forall k :: 0 <= k < first ==> moves[k].done
      decreases moves.Length - first
    {
      first := first + 1;
    }
  }

  function ScratchFor(reg: nat): nat {
    if IsXmm(reg) then XMM15 else R11
  }

  lemma RedirectedShape(moves0: seq<Move>, moves: seq<Move>, reg: nat, scratch: nat)
    requires Shape(moves0, moves) && RegDsts(moves) && IsScratch(scratch)
    ensures Shape(moves0, Redirected(moves, reg, scratch)) && RegDsts(Redirected(moves, reg, scratch))
  {
  }

  lemma ScratchHasSource(moves0: seq<Move>, moves: seq<Move>, code: seq<Instr>, gap: int, first: nat)
    requires InRegisters(moves0, moves, code, gap) && Stuck(moves) && first < |moves| && !moves[first].done && moves[first].src.Reg?
    ensures var reg := moves[first].src.reg;
      InRegisters(moves0, Redirected(moves, reg, ScratchFor(reg)), code + MoveRegCode(ScratchFor(reg), reg), gap)
  {
    PendingAreDistinct(moves0, moves, gap);
    ScratchIsFree(moves0, moves, gap);
    var reg := moves[first].src.reg;
    CopyToScratch(moves0, moves, code, gap, reg, ScratchFor(reg));
    RedirectedShape(moves0, moves, reg, ScratchFor(reg));
  }

  lemma CycleIsBroken(moves0: seq<Move>, moves: seq<Move>, code: seq<Instr>, gap: int, first: nat)
    requires InRegisters(moves0, moves, code, gap) && Stuck(moves) && first < |moves| && !moves[first].done
    ensures moves[first].src.Reg?
    ensures var reg := moves[first].src.reg; var moves' := Redirected(moves, reg, ScratchFor(reg));
      InRegisters(moves0, moves', code + MoveRegCode(ScratchFor(reg), reg), gap)
      && Pending(moves') == Pending(moves) && !Stuck(moves')
  {
    PendingAreDistinct(moves0, moves, gap);
    StuckIsPermutation(moves);
    var reg := moves[first].src.reg;
    ScratchIsFree(moves0, moves, gap);
    RedirectedKeepsPending(moves, reg, ScratchFor(reg));
    RedirectedIsNotStuck(moves, first, ScratchFor(reg));
    ScratchHasSource(moves0, moves, code, gap, first);
  }

  // Only cycles of registers are pending: saves the source of the first pending move in a scratch register.
  method BreakCycle(moves: array<Move>, code: seq<Instr>, ghost moves0: seq<Move>, ghost gap: int) returns (longer: seq<Instr>)
    requires InRegisters(moves0, moves[..], code, gap) && Stuck(moves[..])
    requires exists k :: 0 <= k < moves.Length && !moves[k].done
    modifies moves
    ensures InRegisters(moves0, moves[..], longer, gap)
    ensures Pending(moves[..]) == Pending(old(moves[..])) && !Stuck(moves[..])
  {
    var first := FirstPending(moves);
    CycleIsBroken(moves0, moves[..], code, gap, first);
    var reg := moves[first].src.reg;
    longer := code + MoveRegCode(ScratchFor(reg), reg);
    Redirect(moves, reg, ScratchFor(reg));
  }

  // In a permutation no pending move reads a scratch register, since none writes one.
  lemma ScratchIsFree(moves0: seq<Move>, moves: seq<Move>, gap: int)
    requires Movable(moves0, gap) && Shape(moves0, moves) && RegDsts(moves) && DistinctRegDsts(moves) && Stuck(moves)
    ensures forall i, scratch :: 0 <= i < |moves| && !moves[i].done && IsScratch(scratch) ==> !ReadsReg(moves[i].src, scratch)
  {
    StuckIsPermutation(moves);
    forall i, scratch | 0 <= i < |moves| && !moves[i].done && IsScratch(scratch)
      ensures !ReadsReg(moves[i].src, scratch)
    {
      InPendingSrcs(moves, scratch);
      InPendingDsts(moves, scratch);
    }
  }

  // All moves at once: each destination gets what its source had at the start.
  method ParallelMove(moves: array<Move>, ghost gap: int) returns (code: seq<Instr>)
    requires Movable(moves[..], gap)
    modifies moves
    ensures Performs(code, old(moves[..]), gap)
  {
    ghost var moves0 := moves[..];
    code := MoveIntoMemory(moves, gap);
    while true
      invariant InRegisters(moves0, moves[..], code, gap)
      decreases Pending(moves[..]), if Stuck(moves[..]) then 1 else 0
    {
      var pending, progress;
      code, pending, progress := Round(moves, code, moves0, gap);
      if !pending {
        AllDone(moves0, moves[..], code, gap);
        return;
      }
      if !progress {
        code := BreakCycle(moves, code, moves0, gap);
      }
    }
  }

  lemma AllDone(moves0: seq<Move>, moves: seq<Move>, code: seq<Instr>, gap: int)
    requires |moves| == |moves0| && PerformsSoFar(code, moves0, moves, gap) && forall k :: 0 <= k < |moves| ==> moves[k].done
    ensures Performs(code, moves0, gap)
  {
    forall m: Machine | m.rbp - m.rsp == gap
      ensures MovedAtOnce(moves0, m, Exec(code, m))
    {
      assert SoFar(moves0, moves, m, Exec(code, m));
    }
  }
}
