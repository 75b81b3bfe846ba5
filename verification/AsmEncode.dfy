/** Instructions with a register or memory operand as bytes, and a decoder that reads the operand back (Intel SDM, volume
    2, sections 2.1.5 and 2.2.1). */
module AsmEncode {
  import opened LittleEndians
  import Objects

  // high8: spl, bpl, sil or dil, which need a REX prefix. A memory operand without a base is relative to rip.
  datatype Operand =
    | Gpr(reg: nat, high8: bool)
    | Xmm(reg: nat)
    | Relative(symbol: int, disp: int)
    | Memory(base: nat, index: int, disp: int)
    | Other

  datatype Reloc = Reloc(offset: nat, symbol: int, addend: int, trailing: int)

  datatype Encoded = Encoded(bytes: seq<int>, relocs: seq<Reloc>, ripField: int) | Refused

  const NO_INDEX := -1

  const RSP := 4

  predicate IsRegister(r: int) {
    0 <= r < 16
  }

  predicate ValidOperand(rm: Operand) {
    match rm
    case Gpr(reg, high8) => IsRegister(reg)
    case Xmm(reg) => IsRegister(reg)
    case Relative(_, _) => true
    case Memory(base, index, _) => IsRegister(base) && (index == NO_INDEX || IsRegister(index))
    case Other => true
  }

  predicate FitsByte(v: int) {
    -128 <= v < 128
  }

  predicate FitsWord(v: int) {
    -0x8000_0000 <= v < 0x8000_0000
  }

  // ---------------------------------------------------------------------------------------
  // Encoding
  // ---------------------------------------------------------------------------------------

  function HighBit(r: int): int {
    if r >= 8 then 1 else 0
  }

  function Rex(w: bool, reg: nat, rm: Operand): int {
    0x40 + (if w then 8 else 0) + 4 * HighBit(reg) +
    match rm
    case Gpr(r, _) => HighBit(r)
    case Xmm(r) => HighBit(r)
    case Memory(base, index, _) => 2 * HighBit(index) + HighBit(base)
    case _ => 0
  }

  predicate NeedsRex(w: bool, reg: nat, regHigh8: bool, rm: Operand) {
    || w || reg >= 8 || regHigh8
    || match rm
       case Gpr(r, high8) => r >= 8 || high8
       case Xmm(r) => r >= 8
       case Memory(base, index, _) => base >= 8 || index >= 8
       case _ => false
  }

  function ModRm(mod: int, reg: int, rm: int): int {
    64 * mod + 8 * (reg % 8) + rm
  }

  // Mode 0 with the low bits of rbp means something else, so a base with these bits takes a byte of zero instead.
  function ModOf(base: nat, disp: int): int {
    if disp == 0 && base % 8 != 5 then 0 else if FitsByte(disp) then 1 else 2
  }

  function DispBytes(mod: int, disp: int): seq<int> {
    if mod == 1 then LittleEndian(disp, 1) else if mod == 2 then LittleEndian(disp, 4) else []
  }

  // The bytes that give an address. The low bits of rsp in the ModRM byte announce a SIB byte, which bases with them then get too.
  function MemoryBytes(reg: nat, base: nat, index: int, disp: int): seq<int> {
    var mod := ModOf(base, disp);
    (if index >= 0 then [ModRm(mod, reg, 4), 8 * (index % 8) + base % 8]
     else if base % 8 == 4 then [ModRm(mod, reg, 4), 0x24]
     else [ModRm(mod, reg, base % 8)])
    + DispBytes(mod, disp)
  }

  function HeadBytes(prefix: int, w: bool, opcode: seq<int>, reg: nat, regHigh8: bool, rm: Operand): seq<int> {
    (if prefix != 0 then [prefix] else []) + (if NeedsRex(w, reg, regHigh8, rm) then [Rex(w, reg, rm)] else []) + opcode
  }

  function Encode(prefix: int, w: bool, opcode: seq<int>, reg: nat, regHigh8: bool, rm: Operand): Encoded {
    var head := HeadBytes(prefix, w, opcode, reg, regHigh8, rm);
    match rm
    case Other => Refused
    case Gpr(r, _) => Encoded(head + [ModRm(3, reg, r % 8)], [], -1)
    case Xmm(r) => Encoded(head + [ModRm(3, reg, r % 8)], [], -1)
    case Relative(symbol, disp) =>
      Encoded(head + [ModRm(0, reg, 5)] + LittleEndian(0, 4), [Reloc(|head| + 1, symbol, disp, 0)], |head| + 1)
    case Memory(base, index, disp) =>
      if !FitsWord(disp) then Refused else Encoded(head + MemoryBytes(reg, base, index, disp), [], -1)
  }

  // More bytes, e.g. an immediate
  function Append(e: Encoded, bytes: seq<int>): Encoded {
    if e.Refused? then e else e.(bytes := e.bytes + bytes)
  }

  // How many bytes of the instruction come after a rip-relative field
  function Finish(e: Encoded): Encoded {
    if e.Refused? || e.ripField < 0 then e
    else
      e.(relocs := seq(|e.relocs|, (i: nat) =>
        if i < |e.relocs| && e.relocs[i].offset == e.ripField then e.relocs[i].(trailing := |e.bytes| - (e.ripField + 4))
        else if i < |e.relocs| then e.relocs[i] else Reloc(0, 0, 0, 0)))
  }

  // ---------------------------------------------------------------------------------------
  // Decoding
  // ---------------------------------------------------------------------------------------

  datatype Instruction = Instruction(prefix: int, hasRex: bool, w: bool, opcode: seq<int>, reg: nat, operand: Decoded, length: nat)

  datatype Decoded = Register(reg: nat) | Based(base: nat, index: int, disp: int) | RipRelative(field: int) | NoBase

  predicate IsPrefix(b: int) {
    b == 0x66 || b == 0xF2 || b == 0xF3
  }

  predicate IsRex(b: int) {
    0x40 <= b < 0x50
  }

  function ByteAt(s: seq<int>, i: nat): int {
    if i < |s| then s[i] else 0
  }

  function SignedAt(s: seq<int>, i: nat, size: nat): int {
    if i + size <= |s| then Signed(s[i..i + size]) else 0
  }

  function Bit(b: int, weight: int): int
    requires weight in {1, 2, 4, 8}
  {
    match weight
    case 1 => b % 2
    case 2 => b / 2 % 2
    case 4 => b / 4 % 2
    case 8 => b / 8 % 2
  }

  // The operand of the ModRM byte at m, and how many bytes it takes from there
  function DecodeRm(s: seq<int>, m: nat, rex: int): (Decoded, nat) {
    var modrm := ByteAt(s, m);
    var mod, rm := modrm / 64, modrm % 8;
    if mod == 3 then (Register(rm + 8 * Bit(rex, 1)), 1)
    else if mod == 0 && rm == 5 then (RipRelative(m + 1), 5)
    else
      var hasSib := rm == 4;
      var sib := ByteAt(s, m + 1);
      var base := (if hasSib then sib % 8 else rm) + 8 * Bit(rex, 1);
      var field := sib / 8 % 8 + 8 * Bit(rex, 2);
      var index := if hasSib && field != 4 then field else NO_INDEX;
      var at := m + if hasSib then 2 else 1;
      if mod == 0 then if hasSib && sib % 8 == 5 then (NoBase, at + 4 - m) else (Based(base, index, 0), at - m)
      else if mod == 1 then (Based(base, index, SignedAt(s, at, 1)), at + 1 - m)
      else (Based(base, index, SignedAt(s, at, 4)), at + 4 - m)
  }

  // The instruction at the start of s; its opcode has opcodeSize bytes.
  function Decode(s: seq<int>, opcodeSize: nat): Instruction {
    var p := if IsPrefix(ByteAt(s, 0)) then 1 else 0;
    var hasRex := IsRex(ByteAt(s, p));
    var rex := if hasRex then ByteAt(s, p) else 0x40;
    var o := if hasRex then p + 1 else p;
    var m := o + opcodeSize;
    var operand := DecodeRm(s, m, rex);
    Instruction(if p == 1 then ByteAt(s, 0) else 0, hasRex, Bit(rex, 8) == 1,
                if m <= |s| then s[o..m] else [], ByteAt(s, m) / 8 % 8 + 8 * Bit(rex, 4), operand.0, m + operand.1)
  }

  // ---------------------------------------------------------------------------------------
  // Round trip
  // ---------------------------------------------------------------------------------------

  predicate ValidOpcode(opcode: seq<int>) {
    |opcode| > 0 && !IsPrefix(opcode[0]) && !IsRex(opcode[0])
  }

  predicate ValidPrefix(prefix: int) {
    prefix == 0 || IsPrefix(prefix)
  }

  // The operand that the decoder should find
  function Meant(rm: Operand, field: int): Decoded {
    match rm
    case Gpr(reg, _) => Register(reg)
    case Xmm(reg) => Register(reg)
    case Relative(_, _) => RipRelative(field)
    case Memory(base, index, disp) => Based(base, index, disp)
    case Other => NoBase
  }

  lemma RexBits(w: bool, reg: nat, rm: Operand)
    requires IsRegister(reg) && ValidOperand(rm)
    ensures var rex := Rex(w, reg, rm);
            && IsRex(rex) && Bit(rex, 8) == (if w then 1 else 0) && Bit(rex, 4) == HighBit(reg)
            && Bit(rex, 1) == (match rm case Gpr(r, _) => HighBit(r) case Xmm(r) => HighBit(r) case Memory(base, _, _) => HighBit(base) case _ => 0)
            && Bit(rex, 2) == (if rm.Memory? then HighBit(rm.index) else 0)
  {
  }

  // Without a REX prefix, every register is one of the first eight.
  lemma NoRexBits(w: bool, reg: nat, regHigh8: bool, rm: Operand)
    requires IsRegister(reg) && ValidOperand(rm) && !NeedsRex(w, reg, regHigh8, rm)
    ensures Rex(w, reg, rm) == 0x40
  {
  }

  lemma ModRmFields(mod: int, reg: nat, rm: int)
    requires 0 <= mod < 4 && 0 <= rm < 8
    ensures var b := ModRm(mod, reg, rm);
            b / 64 == mod && b % 8 == rm && b / 8 % 8 == reg % 8
  {
    Fields(mod, reg % 8, rm);
  }

  lemma Fields(mod: int, r: int, rm: int)
    requires 0 <= mod < 4 && 0 <= r < 8 && 0 <= rm < 8
    ensures (64 * mod + 8 * r + rm) / 64 == mod && (64 * mod + 8 * r + rm) % 8 == rm && (64 * mod + 8 * r + rm) / 8 % 8 == r
  {
    assert (64 * mod + 8 * r + rm) / 8 == 8 * mod + r;
  }

  // The displacement at a place
  function DispAt(s: seq<int>, at: nat, mod: int): int {
    if mod == 0 then 0 else if mod == 1 then SignedAt(s, at, 1) else SignedAt(s, at, 4)
  }

  lemma DispIsRead(s: seq<int>, at: nat, base: nat, disp: int)
    requires FitsWord(disp)
    requires var bytes := DispBytes(ModOf(base, disp), disp); at + |bytes| <= |s| && s[at..at + |bytes|] == bytes
    ensures DispAt(s, at, ModOf(base, disp)) == disp
    ensures |DispBytes(ModOf(base, disp), disp)| == match ModOf(base, disp) case 0 => 0 case 1 => 1 case _ => 4
  {
    var mod := ModOf(base, disp);
    if mod == 1 {
      SignedIsBack(disp, 1);
    } else if mod == 2 {
      SignedIsBack(disp, 4);
    }
  }

  // The bytes before the displacement
  function AddressBytes(reg: nat, base: nat, index: int, mod: int): seq<int> {
    if index >= 0 then [ModRm(mod, reg, 4), 8 * (index % 8) + base % 8]
    else if base % 8 == 4 then [ModRm(mod, reg, 4), 0x24]
    else [ModRm(mod, reg, base % 8)]
  }

  lemma HighAndLow(r: int)
    requires IsRegister(r)
    ensures r % 8 + 8 * HighBit(r) == r
  {
  }

  // The address bytes are read as the base and the index, unless the index is rsp.
  lemma AddressIsRead(s: seq<int>, m: nat, rex: int, reg: nat, base: nat, index: int, mod: int)
    requires IsRegister(reg) && IsRegister(base) && (index == NO_INDEX || IsRegister(index)) && 0 <= mod < 3
    requires mod == 0 ==> base % 8 != 5
    requires Bit(rex, 1) == HighBit(base) && Bit(rex, 2) == HighBit(index)
    requires m + |AddressBytes(reg, base, index, mod)| <= |s|
    requires forall k :: 0 <= k < |AddressBytes(reg, base, index, mod)| ==> s[m + k] == AddressBytes(reg, base, index, mod)[k]
    ensures ByteAt(s, m) / 8 % 8 == reg % 8
    ensures var at := m + |AddressBytes(reg, base, index, mod)|;
            DecodeRm(s, m, rex) ==
            (Based(base, if index == RSP then NO_INDEX else index, DispAt(s, at, mod)),
             |AddressBytes(reg, base, index, mod)| + match mod case 0 => 0 case 1 => 1 case _ => 4)
  {
    var bytes := AddressBytes(reg, base, index, mod);
    ModRmFields(mod, reg, if index >= 0 || base % 8 == 4 then 4 else base % 8);
    assert s[m + 0] == bytes[0];
    HighAndLow(base);
    if index >= 0 {
      HighAndLow(index);
      assert s[m + 1] == bytes[1];
      assert bytes[1] % 8 == base % 8 && bytes[1] / 8 % 8 == index % 8;
    } else if base % 8 == 4 {
      assert s[m + 1] == bytes[1];
    }
  }

  // The bytes of a memory operand are read as its base, its index and its displacement, unless the index is rsp.
  lemma MemoryIsRead(s: seq<int>, m: nat, rex: int, reg: nat, base: nat, index: int, disp: int)
    requires IsRegister(reg) && IsRegister(base) && (index == NO_INDEX || IsRegister(index)) && FitsWord(disp)
    requires Bit(rex, 1) == HighBit(base) && Bit(rex, 2) == HighBit(index)
    requires m + |MemoryBytes(reg, base, index, disp)| <= |s|
    requires s[m..m + |MemoryBytes(reg, base, index, disp)|] == MemoryBytes(reg, base, index, disp)
    ensures ByteAt(s, m) / 8 % 8 == reg % 8
    ensures DecodeRm(s, m, rex) == (Based(base, if index == RSP then NO_INDEX else index, disp), |MemoryBytes(reg, base, index, disp)|)
  {
    var mod := ModOf(base, disp);
    var head, tail := AddressBytes(reg, base, index, mod), DispBytes(mod, disp);
    assert MemoryBytes(reg, base, index, disp) == head + tail;
    SliceConcat(s, m, head, tail);
    DispIsRead(s, m + |head|, base, disp);
    AddressIsRead(s, m, rex, reg, base, index, mod);
  }

  lemma SliceConcat(s: seq<int>, m: nat, a: seq<int>, b: seq<int>)
    requires m + |a| + |b| <= |s| && s[m..m + |a + b|] == a + b
    ensures s[m..m + |a|] == a && s[m + |a|..m + |a| + |b|] == b
    ensures forall k :: 0 <= k < |a| ==> s[m + k] == a[k]
  {
    forall k | 0 <= k < |a|
      ensures s[m + k] == a[k]
    {
      assert s[m..m + |a + b|][k] == (a + b)[k];
    }
    forall k | 0 <= k < |b|
      ensures s[m + |a| + k] == b[k]
    {
      assert s[m..m + |a + b|][|a| + k] == (a + b)[|a| + k];
    }
  }

  // The bytes from the ModRM byte on
  function RmBytes(reg: nat, rm: Operand): seq<int> {
    match rm
    case Gpr(r, _) => [ModRm(3, reg, r % 8)]
    case Xmm(r) => [ModRm(3, reg, r % 8)]
    case Relative(_, _) => [ModRm(0, reg, 5)] + LittleEndian(0, 4)
    case Memory(base, index, disp) => MemoryBytes(reg, base, index, disp)
    case Other => []
  }

  predicate Accepted(rm: Operand) {
    !rm.Other? && (rm.Memory? ==> FitsWord(rm.disp))
  }

  // An index rsp is read as no index.
  function Seen(rm: Operand): Operand {
    if rm.Memory? && rm.index == RSP then rm.(index := NO_INDEX) else rm
  }

  lemma RmIsRead(s: seq<int>, m: nat, rex: int, reg: nat, rm: Operand)
    requires IsRegister(reg) && ValidOperand(rm) && Accepted(rm)
    requires Bit(rex, 1) == (match rm case Gpr(r, _) => HighBit(r) case Xmm(r) => HighBit(r) case Memory(base, _, _) => HighBit(base) case _ => 0)
    requires Bit(rex, 2) == (if rm.Memory? then HighBit(rm.index) else 0)
    requires m + |RmBytes(reg, rm)| <= |s| && s[m..m + |RmBytes(reg, rm)|] == RmBytes(reg, rm)
    ensures ByteAt(s, m) / 8 % 8 == reg % 8
    ensures DecodeRm(s, m, rex) == (Meant(Seen(rm), m + 1), |RmBytes(reg, rm)|)
  {
    var bytes := RmBytes(reg, rm);
    match rm
    case Memory(base, index, disp) => MemoryIsRead(s, m, rex, reg, base, index, disp);
    case Gpr(r, _) =>
      assert s[m..m + |bytes|][0] == bytes[0];
      ModRmFields(3, reg, r % 8);
    case Xmm(r) =>
      assert s[m..m + |bytes|][0] == bytes[0];
      ModRmFields(3, reg, r % 8);
    case Relative(_, _) =>
      assert s[m..m + |bytes|][0] == bytes[0];
      ModRmFields(0, reg, 5);
  }

  lemma EncodeIsHeadAndRm(prefix: int, w: bool, opcode: seq<int>, reg: nat, regHigh8: bool, rm: Operand)
    ensures Encode(prefix, w, opcode, reg, regHigh8, rm).Encoded? <==> Accepted(rm)
    ensures Accepted(rm) ==>
              Encode(prefix, w, opcode, reg, regHigh8, rm).bytes == HeadBytes(prefix, w, opcode, reg, regHigh8, rm) + RmBytes(reg, rm)
  {
    if rm.Relative? {
      var head := HeadBytes(prefix, w, opcode, reg, regHigh8, rm);
      assert head + [ModRm(0, reg, 5)] + LittleEndian(0, 4) == head + ([ModRm(0, reg, 5)] + LittleEndian(0, 4));
    }
  }

  // The head is read back, whatever comes after it.
  lemma HeadIsRead(prefix: int, w: bool, opcode: seq<int>, reg: nat, regHigh8: bool, rm: Operand, s: seq<int>)
    requires ValidPrefix(prefix) && ValidOpcode(opcode) && IsRegister(reg) && ValidOperand(rm)
    requires HeadBytes(prefix, w, opcode, reg, regHigh8, rm) <= s
    ensures var d := Decode(s, |opcode|);
            var rex := if NeedsRex(w, reg, regHigh8, rm) then Rex(w, reg, rm) else 0x40;
            var m := |HeadBytes(prefix, w, opcode, reg, regHigh8, rm)|;
            && d.prefix == prefix && d.hasRex == NeedsRex(w, reg, regHigh8, rm) && d.w == w && d.opcode == opcode
            && d.reg == ByteAt(s, m) / 8 % 8 + 8 * HighBit(reg)
            && d.operand == DecodeRm(s, m, rex).0 && d.length == m + DecodeRm(s, m, rex).1
  {
    var head := HeadBytes(prefix, w, opcode, reg, regHigh8, rm);
    var needs := NeedsRex(w, reg, regHigh8, rm);
    RexBits(w, reg, rm);
    if !needs {
      NoRexBits(w, reg, regHigh8, rm);
    }
    var p := if prefix != 0 then 1 else 0;
    var o := if needs then p + 1 else p;
    assert |head| == o + |opcode|;
    forall k | 0 <= k < |head|
      ensures s[k] == head[k]
    {
    }
    assert head[o] == opcode[0];
    assert s[o..o + |opcode|] == opcode;
  }

  lemma RmFieldIsRead(s: seq<int>, head: seq<int>, rex: int, reg: nat, rm: Operand, after: seq<int>)
    requires IsRegister(reg) && ValidOperand(rm) && Accepted(rm) && s == head + RmBytes(reg, rm) + after
    requires Bit(rex, 1) == (match rm case Gpr(r, _) => HighBit(r) case Xmm(r) => HighBit(r) case Memory(base, _, _) => HighBit(base) case _ => 0)
    requires Bit(rex, 2) == (if rm.Memory? then HighBit(rm.index) else 0)
    ensures ByteAt(s, |head|) / 8 % 8 == reg % 8 && head <= s
    ensures DecodeRm(s, |head|, rex) == (Meant(Seen(rm), |head| + 1), |RmBytes(reg, rm)|)
  {
    assert s[|head|..|head| + |RmBytes(reg, rm)|] == RmBytes(reg, rm);
    RmIsRead(s, |head|, rex, reg, rm);
  }

  // Whatever follows, the instruction is read as what was encoded: the register, the width, the operand and the length,
  // with a REX prefix for the byte registers that need one. Only an index rsp is lost.
  lemma EncodedIsRead(prefix: int, w: bool, opcode: seq<int>, reg: nat, regHigh8: bool, rm: Operand, after: seq<int>)
    requires ValidPrefix(prefix) && ValidOpcode(opcode) && IsRegister(reg) && ValidOperand(rm)
    ensures Encode(prefix, w, opcode, reg, regHigh8, rm).Encoded? <==> Accepted(rm)
    ensures Accepted(rm) ==>
              var e := Encode(prefix, w, opcode, reg, regHigh8, rm);
              var d := Decode(e.bytes + after, |opcode|);
              && d.prefix == prefix && d.w == w && d.opcode == opcode && d.reg == reg && d.length == |e.bytes|
              && d.operand == Meant(Seen(rm), if rm.Relative? then e.ripField else 0)
              && (regHigh8 || (rm.Gpr? && rm.high8) ==> d.hasRex)
  {
    EncodeIsHeadAndRm(prefix, w, opcode, reg, regHigh8, rm);
    if Accepted(rm) {
      ReadBack(prefix, w, opcode, reg, regHigh8, rm, after);
    }
  }

  lemma ReadBack(prefix: int, w: bool, opcode: seq<int>, reg: nat, regHigh8: bool, rm: Operand, after: seq<int>)
    requires ValidPrefix(prefix) && ValidOpcode(opcode) && IsRegister(reg) && ValidOperand(rm) && Accepted(rm)
    ensures var head := HeadBytes(prefix, w, opcode, reg, regHigh8, rm);
            var d := Decode(head + RmBytes(reg, rm) + after, |opcode|);
            && d.prefix == prefix && d.w == w && d.opcode == opcode && d.reg == reg && d.length == |head| + |RmBytes(reg, rm)|
            && d.operand == Meant(Seen(rm), |head| + 1)
            && (regHigh8 || (rm.Gpr? && rm.high8) ==> d.hasRex)
  {
    var head := HeadBytes(prefix, w, opcode, reg, regHigh8, rm);
    var needs := NeedsRex(w, reg, regHigh8, rm);
    var rex := if needs then Rex(w, reg, rm) else 0x40;
    RexBits(w, reg, rm);
    if !needs {
      NoRexBits(w, reg, regHigh8, rm);
    }
    RmFieldIsRead(head + RmBytes(reg, rm) + after, head, rex, reg, rm, after);
    HeadIsRead(prefix, w, opcode, reg, regHigh8, rm, head + RmBytes(reg, rm) + after);
    HighAndLow(reg);
  }

  // The operand comes back if and only if it is not indexed by rsp.
  lemma OperandIsReadUnlessIndexIsRsp(prefix: int, w: bool, opcode: seq<int>, reg: nat, rm: Operand, after: seq<int>)
    requires ValidPrefix(prefix) && ValidOpcode(opcode) && IsRegister(reg) && ValidOperand(rm) && Accepted(rm) && rm.Memory?
    ensures var e := Encode(prefix, w, opcode, reg, false, rm);
            Decode(e.bytes + after, |opcode|).operand == Based(rm.base, rm.index, rm.disp) <==> rm.index != RSP
  {
    EncodedIsRead(prefix, w, opcode, reg, false, rm, after);
  }

  // The relocation of a rip-relative operand, in the section where the instruction starts at 'start'
  function InSection(r: Reloc, section: nat, start: nat, symbol: nat): Objects.Reloc {
    Objects.Reloc(section, start + r.offset, Objects.Rel32, symbol, r.addend, r.trailing)
  }

  // A linked rip-relative operand leads to its symbol: the value that the linker puts into the field, which the processor adds
  // to the end of the whole instruction, gives the address of the symbol and the displacement.
  lemma RelativeMeasuresFromEnd(prefix: int, w: bool, opcode: seq<int>, reg: nat, regHigh8: bool, name: int, disp: int, after: seq<int>,
                                obj: Objects.Object, at: Objects.Layout, section: nat, start: nat, symbol: nat)
    requires symbol < |obj.symbols|
    ensures var e := Finish(Append(Encode(prefix, w, opcode, reg, regHigh8, Relative(name, disp)), after));
            && e.Encoded? && |e.relocs| == 1
            && e.relocs[0].symbol == name && e.relocs[0].offset == e.ripField
            && 0 <= e.ripField && e.ripField + 4 <= |e.bytes| && e.bytes[e.ripField..e.ripField + 4] == LittleEndian(0, 4)
            && at.base(section) + start + |e.bytes| + Objects.Value(obj, at, InSection(e.relocs[0], section, start, symbol))
               == Objects.AddressOf(obj, at, symbol) + disp
  {
    var head := HeadBytes(prefix, w, opcode, reg, regHigh8, Relative(name, disp));
    var e := Append(Encode(prefix, w, opcode, reg, regHigh8, Relative(name, disp)), after);
    assert e.bytes[|head| + 1..|head| + 5] == LittleEndian(0, 4);
  }

  // ---------------------------------------------------------------------------------------
  // The encoder
  // ---------------------------------------------------------------------------------------

  class Encoder {
    var bytes: seq<int>
    var relocs: seq<Reloc>
    var ripField: int

    constructor ()
      ensures State() == Encoded([], [], -1)
    {
      bytes, relocs, ripField := [], [], -1;
    }

    function State(): Encoded
      reads this
    {
      Encoded(bytes, relocs, ripField)
    }

    method EncByte(b: int)
      modifies this`bytes
      ensures bytes == old(bytes) + [b]
    {
      bytes := bytes + [b];
    }

    method EncImm(value: int, size: nat)
      modifies this`bytes
      ensures bytes == old(bytes) + LittleEndian(value, size)
    {
      var v := value;
      for i := 0 to size
        invariant bytes + LittleEndian(v, size - i) == old(bytes) + LittleEndian(value, size)
      {
        assert LittleEndian(v, size - i) == [v % 256] + LittleEndian(v / 256, size - (i + 1));
        EncByte(v % 256);
        v := v / 256;
      }
    }

    method EncHead(prefix: int, w: bool, opcode: seq<int>, reg: nat, regHigh8: bool, rm: Operand)
      modifies this`bytes
      ensures bytes == old(bytes) + HeadBytes(prefix, w, opcode, reg, regHigh8, rm)
    {
      if prefix != 0 { EncByte(prefix); }
      if NeedsRex(w, reg, regHigh8, rm) { EncByte(Rex(w, reg, rm)); }
      ghost var before := bytes;
      for i := 0 to |opcode|
        invariant bytes == before + opcode[..i]
      {
        EncByte(opcode[i]);
      }
    }

    method EncMemory(reg: nat, base: nat, index: int, disp: int)
      modifies this`bytes
      ensures bytes == old(bytes) + MemoryBytes(reg, base, index, disp)
    {
      var mod := if disp == 0 && base % 8 != 5 then 0 else if FitsByte(disp) then 1 else 2;
      if index >= 0 {
        EncByte(ModRm(mod, reg, 4));
        EncByte(8 * (index % 8) + base % 8);
      } else if base % 8 == 4 {
        EncByte(ModRm(mod, reg, 4));
        EncByte(0x24);
      } else {
        EncByte(ModRm(mod, reg, base % 8));
      }
      if mod == 1 { EncImm(disp, 1); }
      if mod == 2 { EncImm(disp, 4); }
    }

    // The bytes of the operand, after the head
    method EncRm(reg: nat, rm: Operand) returns (ok: bool)
      requires !rm.Other? && relocs == [] && ripField == -1
      modifies this
      ensures ok <==> Accepted(rm)
      ensures ok ==> bytes == old(bytes) + RmBytes(reg, rm)
      ensures ok ==> ripField == (if rm.Relative? then |old(bytes)| + 1 else -1)
      ensures ok ==> relocs == if rm.Relative? then [Reloc(|old(bytes)| + 1, rm.symbol, rm.disp, 0)] else []
    {
      ok := true;
      match rm {
        case Gpr(r, _) => EncByte(ModRm(3, reg, r % 8));
        case Xmm(r) => EncByte(ModRm(3, reg, r % 8));
        case Relative(symbol, disp) =>
          EncByte(ModRm(0, reg, 5));
          ripField := |bytes|;
          relocs := relocs + [Reloc(|bytes|, symbol, disp, 0)];
          EncImm(0, 4);
        case Memory(base, index, disp) =>
          if !FitsWord(disp) { return false; }
          EncMemory(reg, base, index, disp);
      }
    }

    // Fails, with bytes that are no instruction, for an operand it does not take
    method EncModRm(prefix: int, w: bool, opcode: seq<int>, reg: nat, regHigh8: bool, rm: Operand) returns (ok: bool)
      requires State() == Encoded([], [], -1)
      modifies this
      ensures ok <==> Accepted(rm)
      ensures ok ==> State() == Encode(prefix, w, opcode, reg, regHigh8, rm)
    {
      if rm.Other? { return false; }
      EncHead(prefix, w, opcode, reg, regHigh8, rm);
      assert bytes == HeadBytes(prefix, w, opcode, reg, regHigh8, rm);
      ok := EncRm(reg, rm);
      EncodeIsHeadAndRm(prefix, w, opcode, reg, regHigh8, rm);
    }

    method EncFinish()
      modifies this`relocs
      ensures State() == Finish(old(State()))
    {
      if ripField >= 0 {
        for i := 0 to |relocs|
          invariant |relocs| == |old(relocs)|
          invariant forall k :: 0 <= k < i ==> relocs[k] == Finish(old(State())).relocs[k]
          invariant forall k :: i <= k < |relocs| ==> relocs[k] == old(relocs)[k]
        {
          if relocs[i].offset == ripField {
            relocs := relocs[i := relocs[i].(trailing := |bytes| - (ripField + 4))];
          }
        }
      }
    }
  }
}
