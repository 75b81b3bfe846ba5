/** The intermediate representation: data model, uses and definitions, and what it means for a
    virtual register to be live at a place of the code. */
module Ir {
  import opened Options

  const NO_VREG := -1

  datatype IrType = Void | I8 | I16 | I32 | I64 | F32 | F64 | Ptr {
    predicate IsFloat() { F32? || F64? }
  }

  datatype Op =
    | Nop
    | Const | ConstFloat | Copy | SlotAddr | GlobalAddr
    | Load | Store | PtrAdd | Memcpy | Memset
    | Add | Sub | Mul | Sdiv | Udiv | Srem | Urem | And | Or | Xor | Shl | Lshr | Ashr | Neg | Not
    | Fadd | Fsub | Fmul | Fdiv | Fneg
    | Icmp | Fcmp
    | Sext | Zext | Trunc | Sitofp | Uitofp | Fptosi | Fptoui | Fpext | Fptrunc | Bitcast
    | CallOp

  datatype AddrKind = NoAddr | VregAddr | SlotBased | GlobalBased
  datatype Addr = Addr(kind: AddrKind, base: int, offset: int)

  datatype Call = Call(calleeIsVreg: bool, callee: int, returnType: IrType, args: seq<int>, isVararg: seq<bool>)

  // The record of an instruction
  datatype RawInst = RawInst(op: Op, ty: IrType, dst: int, a: int, b: int, addr: Addr, imm: int, imm2: int, call: Call)

  // What the passes see of it: they read operands only through ir_inst_use, in its order.
  datatype Inst = Inst(op: Op, ty: IrType, imm: int, dst: int, uses: seq<int>)

  // Blocks are named by their place in the layout, as after ir_function_finalize.
  datatype Term =
    | NoTerm
    | Jmp(target: int)
    | Br(cond: int, thenTarget: int, elseTarget: int)
    | Ret(value: int)

  datatype Block = Block(insts: seq<Inst>, term: Term)

  datatype Function = Function(vregTypes: seq<IrType>, params: seq<int>, returnType: IrType, blocks: seq<Block>) {
    function VregCount(): nat { |vregTypes| }
  }

  // ---------------------------------------------------------------------------------------
  // Uses and definitions
  // ---------------------------------------------------------------------------------------

  predicate ReadsAddressVreg(inst: RawInst) {
    (inst.op == Load || inst.op == Store) && inst.addr.kind == VregAddr
  }

  function UseCount(inst: RawInst): nat {
    (if inst.a != NO_VREG then 1 else 0)
    + (if inst.b != NO_VREG then 1 else 0)
    + (if ReadsAddressVreg(inst) then 1 else 0)
    + (if inst.op == CallOp then (if inst.call.calleeIsVreg then 1 else 0) + |inst.call.args| else 0)
  }

  function Use(inst: RawInst, i: nat): int {
    if inst.a != NO_VREG && i == 0 then inst.a else
    var i := if inst.a != NO_VREG then i - 1 else i;
    if inst.b != NO_VREG && i == 0 then inst.b else
    var i := if inst.b != NO_VREG then i - 1 else i;
    if ReadsAddressVreg(inst) && i == 0 then inst.addr.base else
    var i := if ReadsAddressVreg(inst) then i - 1 else i;
    if inst.op != CallOp then NO_VREG else
    if inst.call.calleeIsVreg && i == 0 then inst.call.callee else
    var i := if inst.call.calleeIsVreg then i - 1 else i;
    if i < |inst.call.args| then inst.call.args[i] else NO_VREG
  }

  // The operands of an instruction in the order they are read.
  function Operands(inst: RawInst): seq<int> {
    (if inst.a != NO_VREG then [inst.a] else [])
    + (if inst.b != NO_VREG then [inst.b] else [])
    + (if ReadsAddressVreg(inst) then [inst.addr.base] else [])
    + (if inst.op == CallOp then (if inst.call.calleeIsVreg then [inst.call.callee] else []) + inst.call.args else [])
  }

  // An instruction as the passes see it
  function SeenAs(inst: RawInst): Inst {
    Inst(inst.op, inst.ty, inst.imm, inst.dst, seq(UseCount(inst), (i: nat) => Use(inst, i)))
  }

  // The count and the indexed query enumerate exactly the operands.
  lemma UseEnumeratesOperands(inst: RawInst)
    ensures UseCount(inst) == |Operands(inst)|
    ensures forall i: nat :: i < UseCount(inst) ==> Use(inst, i) == Operands(inst)[i]
    ensures SeenAs(inst).uses == Operands(inst)
  {
    forall i: nat | i < UseCount(inst)
      ensures Use(inst, i) == Operands(inst)[i]
    {
    }
  }

  // Where an instruction finds its operands: what it reads of the values of vregs, in the fields that its operation uses
  datatype AddressRead<V> = NoAddress | OnValue(value: V, offset: int) | InSlot(slot: int, offset: int) | InGlobal(global: int, offset: int)

  datatype Reads<V> = Reads(a: Option<V>, b: Option<V>, address: AddressRead<V>, callee: Option<V>, args: seq<V>)

  function ValueOf<V>(vreg: int, env: int -> V): Option<V> {
    if vreg == NO_VREG then None else Some(env(vreg))
  }

  function ReadsOf<V>(inst: RawInst, env: int -> V): Reads<V> {
    var accesses := match inst.op case Load => true case Store => true case _ => false;
    var address :=
      match inst.addr.kind
      case NoAddr => NoAddress
      case VregAddr => OnValue(env(inst.addr.base), inst.addr.offset)
      case SlotBased => InSlot(inst.addr.base, inst.addr.offset)
      case GlobalBased => InGlobal(inst.addr.base, inst.addr.offset);
    Reads(ValueOf(inst.a, env), ValueOf(inst.b, env), if accesses then address else NoAddress,
          if inst.op.CallOp? && inst.call.calleeIsVreg then Some(env(inst.call.callee)) else None,
          if inst.op.CallOp? then seq(|inst.call.args|, i requires 0 <= i < |inst.call.args| => env(inst.call.args[i])) else [])
  }

  // The operands are exactly the vregs whose values an instruction depends on.
  lemma OperandsAreReads<V>(inst: RawInst, env: int -> V, other: int -> V)
    ensures (forall v :: v in Operands(inst) ==> env(v) == other(v)) <==> ReadsOf(inst, env) == ReadsOf(inst, other)
  {
    if forall v :: v in Operands(inst) ==> env(v) == other(v) {
      SameReads(inst, env, other);
    }
    if ReadsOf(inst, env) == ReadsOf(inst, other) {
      SameOperands(inst, env, other);
    }
  }

  lemma SameReads<V>(inst: RawInst, env: int -> V, other: int -> V)
    requires forall v :: v in Operands(inst) ==> env(v) == other(v)
    ensures ReadsOf(inst, env) == ReadsOf(inst, other)
  {
    if inst.op.CallOp? {
      forall k | 0 <= k < |inst.call.args|
        ensures env(inst.call.args[k]) == other(inst.call.args[k])
      {
        assert Operands(inst)[|Operands(inst)| - |inst.call.args| + k] == inst.call.args[k];
      }
      assert ReadsOf(inst, env).args == ReadsOf(inst, other).args;
    }
  }

  lemma SameOperands<V>(inst: RawInst, env: int -> V, other: int -> V)
    requires ReadsOf(inst, env) == ReadsOf(inst, other)
    ensures forall v :: v in Operands(inst) ==> env(v) == other(v)
  {
    if inst.op.CallOp? {
      forall k | 0 <= k < |inst.call.args|
        ensures env(inst.call.args[k]) == other(inst.call.args[k])
      {
        assert ReadsOf(inst, env).args[k] == ReadsOf(inst, other).args[k];
      }
    }
  }

  predicate IsCallLike(inst: Inst) {
    inst.op == CallOp || inst.op == Memcpy || inst.op == Memset
  }

  function TermUses(term: Term): seq<int> {
    match term
    case Br(cond, _, _) => [cond]
    case Ret(value) => if value != NO_VREG then [value] else []
    case _ => []
  }

  function Successors(term: Term): seq<int> {
    match term
    case Jmp(target) => [target]
    case Br(_, thenTarget, elseTarget) => [thenTarget, elseTarget]
    case _ => []
  }

  // Every operand, destination and target refers to something that exists. Targets of the last
  // two terminators are pointers in the program, so they always are blocks of the function.
  ghost predicate InRange(f: Function) {
    && (forall b, i, u :: 0 <= b < |f.blocks| && 0 <= i < |f.blocks[b].insts| && u in f.blocks[b].insts[i].uses ==>
          0 <= u < f.VregCount())
    && (forall b, i :: 0 <= b < |f.blocks| && 0 <= i < |f.blocks[b].insts| ==>
          NO_VREG <= f.blocks[b].insts[i].dst < f.VregCount())
    && (forall b, u :: 0 <= b < |f.blocks| && u in TermUses(f.blocks[b].term) ==> 0 <= u < f.VregCount())
    && (forall b, s :: 0 <= b < |f.blocks| && s in Successors(f.blocks[b].term) ==> 0 <= s < |f.blocks|)
    && (forall p :: p in f.params ==> 0 <= p < f.VregCount())
  }

  // ---------------------------------------------------------------------------------------
  // Places and paths. Place (b, i) is instruction i of block b; the terminator is at i == |insts|.
  // ---------------------------------------------------------------------------------------

  datatype Place = Place(b: nat, i: nat)

  predicate IsPlace(f: Function, p: Place) {
    p.b < |f.blocks| && p.i <= |f.blocks[p.b].insts|
  }

  function UsesAt(f: Function, p: Place): seq<int>
    requires IsPlace(f, p)
  {
    if p.i < |f.blocks[p.b].insts| then f.blocks[p.b].insts[p.i].uses else TermUses(f.blocks[p.b].term)
  }

  function DefAt(f: Function, p: Place): int
    requires IsPlace(f, p)
  {
    if p.i < |f.blocks[p.b].insts| then f.blocks[p.b].insts[p.i].dst else NO_VREG
  }

  // q can be executed right after p.
  predicate Follows(f: Function, p: Place, q: Place)
    requires IsPlace(f, p)
  {
    if p.i < |f.blocks[p.b].insts| then q == Place(p.b, p.i + 1)
    else q.i == 0 && q.b in Successors(f.blocks[p.b].term)
  }

  ghost predicate IsPath(f: Function, path: seq<Place>) {
    && (forall k :: 0 <= k < |path| ==> IsPlace(f, path[k]))
    && (forall k :: 0 <= k < |path| - 1 ==> Follows(f, path[k], path[k + 1]))
  }

  // The path ends where v is read, and nothing before that place defines it.
  ghost predicate ReadsUndefined(f: Function, path: seq<Place>, v: int) {
    && |path| > 0
    && IsPath(f, path)
    && v in UsesAt(f, path[|path| - 1])
    && forall k :: 0 <= k < |path| - 1 ==> DefAt(f, path[k]) != v
  }

  ghost predicate LiveAt(f: Function, p: Place, v: int) {
    exists path :: ReadsUndefined(f, path, v) && path[0] == p
  }

  lemma PathFromNext(f: Function, p: Place, path: seq<Place>, v: int)
    requires IsPlace(f, p) && DefAt(f, p) != v
    requires ReadsUndefined(f, path, v) && Follows(f, p, path[0])
    ensures LiveAt(f, p, v)
  {
    var longer := [p] + path;
    forall k | 0 <= k < |longer| - 1
      ensures Follows(f, longer[k], longer[k + 1]) && DefAt(f, longer[k]) != v
    {
      if k > 0 {
        assert longer[k] == path[k - 1] && longer[k + 1] == path[k];
      }
    }
    assert IsPath(f, longer) && longer[|longer| - 1] == path[|path| - 1];
    assert ReadsUndefined(f, longer, v) && longer[0] == p;
  }

  lemma PathToNext(f: Function, path: seq<Place>, v: int)
    requires ReadsUndefined(f, path, v) && v !in UsesAt(f, path[0])
    ensures DefAt(f, path[0]) != v && Follows(f, path[0], path[1]) && LiveAt(f, path[1], v)
  {
    var rest := path[1..];
    forall k | 0 <= k < |rest| - 1
      ensures Follows(f, rest[k], rest[k + 1]) && DefAt(f, rest[k]) != v
    {
      assert rest[k] == path[k + 1] && rest[k + 1] == path[k + 2];
    }
    assert rest[|rest| - 1] == path[|path| - 1];
    assert ReadsUndefined(f, rest, v) && rest[0] == path[1];
  }

  // Liveness is what one step back makes of liveness: a use here, or live after and not defined here.
  lemma LiveAtStep(f: Function, p: Place, v: int)
    requires IsPlace(f, p)
    ensures LiveAt(f, p, v) <==>
            v in UsesAt(f, p) || (DefAt(f, p) != v && exists q :: Follows(f, p, q) && LiveAt(f, q, v))
  {
    if v in UsesAt(f, p) {
      assert ReadsUndefined(f, [p], v) && [p][0] == p;
    } else {
      if LiveAt(f, p, v) {
        var path :| ReadsUndefined(f, path, v) && path[0] == p;
        PathToNext(f, path, v);
      }
      if DefAt(f, p) != v && exists q :: Follows(f, p, q) && LiveAt(f, q, v) {
        var q :| Follows(f, p, q) && LiveAt(f, q, v);
        var path :| ReadsUndefined(f, path, v) && path[0] == q;
        PathFromNext(f, p, path, v);
      }
    }
  }

  lemma LiveIsAPlace(f: Function, p: Place, v: int)
    requires LiveAt(f, p, v)
    ensures IsPlace(f, p)
  {
  }

  lemma LiveIsInRange(f: Function, p: Place, v: int)
    requires InRange(f) && LiveAt(f, p, v)
    ensures 0 <= v < f.VregCount()
  {
    var path :| ReadsUndefined(f, path, v) && path[0] == p;
    var last := path[|path| - 1];
    assert IsPlace(f, last) && v in UsesAt(f, last);
    if last.i < |f.blocks[last.b].insts| {
      assert v in f.blocks[last.b].insts[last.i].uses;
    }
  }
}
