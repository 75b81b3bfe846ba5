/** The line program of a function, and the state machine that reads it (DWARF 4, sections 6.2.2, 6.2.5 and 7.6). */
module Dwarf {
  import opened LittleEndians
  import opened Options

  // A decoded number, and the bytes after it
  datatype Parsed = Parsed(value: int, rest: seq<int>)

  // ---------------------------------------------------------------------------------------
  // LEB128
  // ---------------------------------------------------------------------------------------

  function Uleb(value: nat): (bytes: seq<int>)
    ensures |bytes| > 0
    decreases value
  {
    if value < 128 then [value] else [value % 128 + 128] + Uleb(value / 128)
  }

  function Magnitude(value: int): nat {
    if value < 0 then -value else value
  }

  predicate SlebEnds(rest: int, byte: int) {
    (rest == 0 && byte < 64) || (rest == -1 && byte >= 64)
  }

  function Sleb(value: int): (bytes: seq<int>)
    ensures |bytes| > 0
    decreases Magnitude(value)
  {
    if SlebEnds(value / 128, value % 128) then [value % 128] else [value % 128 + 128] + Sleb(value / 128)
  }

  function DecodeUleb(bytes: seq<int>): (r: Option<Parsed>)
    ensures r.Some? ==> |r.value.rest| < |bytes|
    decreases |bytes|
  {
    if |bytes| == 0 then None
    else if bytes[0] < 128 then Some(Parsed(bytes[0], bytes[1..]))
    else
      var more := DecodeUleb(bytes[1..]);
      if more.None? then None else Some(Parsed(bytes[0] - 128 + 128 * more.value.value, more.value.rest))
  }

  // The sign is the bit 6 of the last byte.
  function DecodeSleb(bytes: seq<int>): (r: Option<Parsed>)
    ensures r.Some? ==> |r.value.rest| < |bytes|
    decreases |bytes|
  {
    if |bytes| == 0 then None
    else if bytes[0] < 128 then Some(Parsed(if bytes[0] < 64 then bytes[0] else bytes[0] - 128, bytes[1..]))
    else
      var more := DecodeSleb(bytes[1..]);
      if more.None? then None else Some(Parsed(bytes[0] - 128 + 128 * more.value.value, more.value.rest))
  }

  lemma {:induction false} UlebIsRead(value: nat, rest: seq<int>)
    ensures DecodeUleb(Uleb(value) + rest) == Some(Parsed(value, rest))
    decreases value
  {
    var bytes := Uleb(value) + rest;
    if value < 128 {
      assert bytes[1..] == rest;
    } else {
      assert bytes[1..] == Uleb(value / 128) + rest;
      UlebIsRead(value / 128, rest);
    }
  }

  lemma {:induction false} SlebIsRead(value: int, rest: seq<int>)
    ensures DecodeSleb(Sleb(value) + rest) == Some(Parsed(value, rest))
    decreases Magnitude(value)
  {
    var bytes := Sleb(value) + rest;
    if SlebEnds(value / 128, value % 128) {
      assert bytes[1..] == rest;
    } else {
      assert bytes[1..] == Sleb(value / 128) + rest;
      SlebIsRead(value / 128, rest);
    }
  }

  method WriteUleb(o: seq<int>, value: nat) returns (out: seq<int>)
    ensures out == o + Uleb(value)
  {
    out := o;
    var v := value;
    while true
      invariant out + Uleb(v) == o + Uleb(value)
      decreases v
    {
      var byte := v % 128;
      ghost var before := v;
      v := v / 128;
      if v == 0 {
        out := out + [byte];
        break;
      }
      assert out + Uleb(before) == out + [byte + 128] + Uleb(v);
      out := out + [byte + 128];
    }
  }

  method WriteSleb(o: seq<int>, value: int) returns (out: seq<int>)
    ensures out == o + Sleb(value)
  {
    out := o;
    var v := value;
    while true
      invariant out + Sleb(v) == o + Sleb(value)
      decreases Magnitude(v)
    {
      var byte := v % 128;
      ghost var before := v;
      v := v / 128;
      if SlebEnds(v, byte) {
        out := out + [byte];
        break;
      }
      assert out + Sleb(before) == out + [byte + 128] + Sleb(v);
      out := out + [byte + 128];
    }
  }

  // ---------------------------------------------------------------------------------------
  // The state machine
  // ---------------------------------------------------------------------------------------

  datatype Row = Row(address: int, file: int, line: int, prologueEnd: bool, endSequence: bool)

  // The registers are those of the next row.
  const RESET := Row(0, 1, 1, false, false)

  datatype Table = Rows(rows: seq<Row>) | Malformed

  function Prepend(row: Row, table: Table): Table {
    if table.Malformed? then Malformed else Rows([row] + table.rows)
  }

  function Interpret(r: Row, program: seq<int>): Table
    decreases |program|
  {
    if |program| == 0 then Rows([])
    else
      var rest := program[1..];
      match program[0]
      case 0 =>
        var length := DecodeUleb(rest);
        if length.None? || length.value.value < 1 || length.value.value > |length.value.rest| then Malformed
        else
          var body := length.value.rest[..length.value.value];
          var after := length.value.rest[length.value.value..];
          if body[0] == 2 then Interpret(r.(address := FromBytes(body[1..])), after)
          else if body[0] == 1 then Prepend(r.(endSequence := true), Interpret(RESET, after))
          else Interpret(r, after)
      case 1 => Prepend(r, Interpret(r.(prologueEnd := false), rest))
      case 2 =>
        var delta := DecodeUleb(rest);
        if delta.None? then Malformed else Interpret(r.(address := r.address + delta.value.value), delta.value.rest)
      case 3 =>
        var delta := DecodeSleb(rest);
        if delta.None? then Malformed else Interpret(r.(line := r.line + delta.value.value), delta.value.rest)
      case 4 =>
        var file := DecodeUleb(rest);
        if file.None? then Malformed else Interpret(r.(file := file.value.value), file.value.rest)
      case 10 => Interpret(r.(prologueEnd := true), rest)
      case _ => Malformed
  }

  // The instructions that a sequence is made of
  datatype Op =
    | SetAddress(address: nat)
    | SetFile(file: nat)
    | AdvanceLine(lines: int)
    | AdvancePc(delta: nat)
    | SetPrologueEnd
    | CopyRow
    | EndSequence

  datatype Ops = Done | Then(op: Op, rest: Ops)

  function OpBytes(op: Op): seq<int> {
    match op
    case SetAddress(address) => [0] + Uleb(9) + [2] + LittleEndian(address, 8)
    case SetFile(file) => [4] + Uleb(file)
    case AdvanceLine(lines) => [3] + Sleb(lines)
    case AdvancePc(delta) => [2] + Uleb(delta)
    case SetPrologueEnd => [10]
    case CopyRow => [1]
    case EndSequence => [0] + Uleb(1) + [1]
  }

  function Flatten(ops: Ops): seq<int>
    decreases ops
  {
    match ops
    case Done => []
    case Then(op, rest) => OpBytes(op) + Flatten(rest)
  }

  // The rows that instructions give, and the registers after them
  datatype Ran = Ran(rows: seq<Row>, registers: Row)

  function RunOps(r: Row, ops: Ops): Ran
    decreases ops
  {
    match ops
    case Done => Ran([], r)
    case Then(op, rest) =>
      match op
      case SetAddress(address) => RunOps(r.(address := address), rest)
      case SetFile(file) => RunOps(r.(file := file), rest)
      case AdvanceLine(lines) => RunOps(r.(line := r.line + lines), rest)
      case AdvancePc(delta) => RunOps(r.(address := r.address + delta), rest)
      case SetPrologueEnd => RunOps(r.(prologueEnd := true), rest)
      case CopyRow => var ran := RunOps(r.(prologueEnd := false), rest); Ran([r] + ran.rows, ran.registers)
      case EndSequence => var ran := RunOps(RESET, rest); Ran([r.(endSequence := true)] + ran.rows, ran.registers)
  }

  lemma AddressIsSet(r: Row, address: nat, rest: seq<int>, size: nat, length: nat)
    requires size == 8 && length == 9 && address < Range(size)
    ensures Interpret(r, [0] + Uleb(length) + [2] + LittleEndian(address, size) + rest) == Interpret(r.(address := address), rest)
  {
    var body := [2] + LittleEndian(address, size);
    var program := [0] + Uleb(length) + [2] + LittleEndian(address, size) + rest;
    assert program[1..] == Uleb(length) + (body + rest);
    UlebIsRead(length, body + rest);
    assert (body + rest)[..length] == body && (body + rest)[length..] == rest;
    assert body[1..] == LittleEndian(address, size);
    UnsignedBack(address, size);
    assert DecodeUleb(program[1..]) == Some(Parsed(length, body + rest));
  }

  lemma SequenceEnds(r: Row, rest: seq<int>, length: nat)
    requires length == 1
    ensures Interpret(r, [0] + Uleb(length) + [1] + rest) == Prepend(r.(endSequence := true), Interpret(RESET, rest))
  {
    var program := [0] + Uleb(length) + [1] + rest;
    assert program[1..] == Uleb(length) + ([1] + rest);
    UlebIsRead(length, [1] + rest);
    assert ([1] + rest)[..length] == [1] && ([1] + rest)[length..] == rest;
  }

  // One step, from what was parsed
  lemma UlebStep(r: Row, program: seq<int>, value: nat, rest: seq<int>)
    requires |program| > 0 && program[0] in {2, 4} && DecodeUleb(program[1..]) == Some(Parsed(value, rest))
    ensures Interpret(r, program) == Interpret(if program[0] == 2 then r.(address := r.address + value) else r.(file := value), rest)
  {
  }

  lemma SlebStep(r: Row, program: seq<int>, value: int, rest: seq<int>)
    requires |program| > 0 && program[0] == 3 && DecodeSleb(program[1..]) == Some(Parsed(value, rest))
    ensures Interpret(r, program) == Interpret(r.(line := r.line + value), rest)
  {
  }

  lemma TailOf(b: int, more: seq<int>, rest: seq<int>, program: seq<int>)
    requires program == [b] + more + rest
    ensures |program| > 0 && program[0] == b && program[1..] == more + rest
  {
  }

  lemma FileIsSet(r: Row, file: nat, rest: seq<int>, program: seq<int>)
    requires program == [4] + Uleb(file) + rest
    ensures Interpret(r, program) == Interpret(r.(file := file), rest)
  {
    TailOf(4, Uleb(file), rest, program);
    UlebIsRead(file, rest);
    UlebStep(r, program, file, rest);
  }

  lemma LineAdvances(r: Row, delta: int, rest: seq<int>, program: seq<int>)
    requires program == [3] + Sleb(delta) + rest
    ensures Interpret(r, program) == Interpret(r.(line := r.line + delta), rest)
  {
    TailOf(3, Sleb(delta), rest, program);
    SlebIsRead(delta, rest);
    SlebStep(r, program, delta, rest);
  }

  lemma PcAdvances(r: Row, delta: nat, rest: seq<int>, program: seq<int>)
    requires program == [2] + Uleb(delta) + rest
    ensures Interpret(r, program) == Interpret(r.(address := r.address + delta), rest)
  {
    TailOf(2, Uleb(delta), rest, program);
    UlebIsRead(delta, rest);
    UlebStep(r, program, delta, rest);
  }

  function PrependAll(rows: seq<Row>, table: Table): Table {
    if table.Malformed? then Malformed else Rows(rows + table.rows)
  }

  lemma PrependMore(row: Row, rows: seq<Row>, table: Table)
    ensures Prepend(row, PrependAll(rows, table)) == PrependAll([row] + rows, table)
  {
    if table.Rows? {
      assert [row] + (rows + table.rows) == ([row] + rows) + table.rows;
    }
  }

  // Addresses fit in 64 bits.
  predicate AddressesFit(ops: Ops)
    decreases ops
  {
    ops.Then? ==> (ops.op.SetAddress? ==> ops.op.address < Range(8)) && AddressesFit(ops.rest)
  }

  // The state machine reads the bytes of instructions as the instructions.
  lemma {:induction false} OpsAreRead(r: Row, ops: Ops, rest: seq<int>)
    requires AddressesFit(ops)
    ensures Interpret(r, Flatten(ops) + rest) == PrependAll(RunOps(r, ops).rows, Interpret(RunOps(r, ops).registers, rest))
    decreases ops, 1
  {
    match ops
    case Done =>
      assert [] + rest == rest;
      var table := Interpret(r, rest);
      if table.Rows? {
        assert [] + table.rows == table.rows;
      }
    case Then(op, more) =>
      assert Flatten(ops) + rest == OpBytes(op) + (Flatten(more) + rest);
      OpIsRead(r, op, more, Flatten(more) + rest, rest);
  }

  // The registers after an instruction that gives no row
  function Registers(r: Row, op: Op): Row {
    match op
    case SetAddress(address) => r.(address := address)
    case SetFile(file) => r.(file := file)
    case AdvanceLine(lines) => r.(line := r.line + lines)
    case AdvancePc(delta) => r.(address := r.address + delta)
    case SetPrologueEnd => r.(prologueEnd := true)
    case _ => r
  }

  lemma PrologueEnds(r: Row, after: seq<int>)
    ensures Interpret(r, [10] + after) == Interpret(r.(prologueEnd := true), after)
  {
    assert ([10] + after)[1..] == after;
  }

  lemma NumberOpIsRead(r: Row, op: Op, after: seq<int>)
    requires op.SetFile? || op.AdvanceLine? || op.AdvancePc?
    ensures Interpret(r, OpBytes(op) + after) == Interpret(Registers(r, op), after)
  {
    hide Interpret, Uleb, Sleb;
    match op
    case SetFile(file) => FileIsSet(r, file, after, OpBytes(op) + after);
    case AdvanceLine(lines) => LineAdvances(r, lines, after, OpBytes(op) + after);
    case AdvancePc(delta) => PcAdvances(r, delta, after, OpBytes(op) + after);
  }

  lemma RegisterOpIsRead(r: Row, op: Op, after: seq<int>)
    requires !op.CopyRow? && !op.EndSequence? && (op.SetAddress? ==> op.address < Range(8))
    ensures Interpret(r, OpBytes(op) + after) == Interpret(Registers(r, op), after)
  {
    if op.SetAddress? {
      AddressIsSet(r, op.address, after, 8, 9);
    } else if op.SetPrologueEnd? {
      PrologueEnds(r, after);
    } else {
      NumberOpIsRead(r, op, after);
    }
  }

  lemma {:induction false} OpIsRead(r: Row, op: Op, more: Ops, after: seq<int>, rest: seq<int>)
    requires AddressesFit(Then(op, more)) && after == Flatten(more) + rest
    ensures var ran := RunOps(r, Then(op, more));
            Interpret(r, OpBytes(op) + after) == PrependAll(ran.rows, Interpret(ran.registers, rest))
    decreases Then(op, more), 0
  {
    hide Interpret, Uleb, Sleb;
    if op.CopyRow? || op.EndSequence? {
      RowOpIsRead(r, op, more, after, rest);
    } else {
      RegisterOpIsRead(r, op, after);
      OpsAreRead(Registers(r, op), more, rest);
      assert RunOps(r, Then(op, more)) == RunOps(Registers(r, op), more);
    }
  }

  lemma {:induction false} RowOpIsRead(r: Row, op: Op, more: Ops, after: seq<int>, rest: seq<int>)
    requires AddressesFit(Then(op, more)) && after == Flatten(more) + rest && (op.CopyRow? || op.EndSequence?)
    ensures var ran := RunOps(r, Then(op, more));
            Interpret(r, OpBytes(op) + after) == PrependAll(ran.rows, Interpret(ran.registers, rest))
    decreases more, 2
  {
    if op.CopyRow? {
      assert ([1] + after)[1..] == after;
      OpsAreRead(r.(prologueEnd := false), more, rest);
      var ran := RunOps(r.(prologueEnd := false), more);
      PrependMore(r, ran.rows, Interpret(ran.registers, rest));
    } else {
      SequenceEnds(r, after, 1);
      OpsAreRead(RESET, more, rest);
      var ran := RunOps(RESET, more);
      PrependMore(r.(endSequence := true), ran.rows, Interpret(ran.registers, rest));
    }
  }

  // ---------------------------------------------------------------------------------------
  // The sequence of a function
  // ---------------------------------------------------------------------------------------

  // A place in the code of the function, as an offset in the text, with the line there
  datatype Mark = Mark(at: nat, line: int)

  datatype Function = Function(start: nat, prologueEnd: nat, end: nat, file: nat, line: int, marks: seq<Mark>)

  // The labels of a function are in the order of its code.
  predicate InOrder(f: Function) {
    && f.start <= f.prologueEnd <= f.end
    && (forall i :: 0 <= i < |f.marks| ==> f.start <= f.marks[i].at <= f.end)
    && forall i, j :: 0 <= i < j < |f.marks| ==> f.marks[i].at <= f.marks[j].at
  }

  // A later mark at the same place takes the place of an earlier one.
  predicate IsSuperseded(f: Function, i: nat)
    requires i < |f.marks|
  {
    i + 1 < |f.marks| && f.marks[i + 1].at == f.marks[i].at
  }

  function FirstLine(f: Function): int {
    if f.line > 0 then f.line else 1
  }

  function Max(a: int, b: int): int {
    if a < b then b else a
  }

  // The rows of the marks from i on; first is whether none of them was before. The code of the text is at base.
  function MarkRows(f: Function, base: int, i: nat, first: bool): seq<Row>
    requires i <= |f.marks|
    decreases |f.marks| - i
  {
    if i == |f.marks| then []
    else if IsSuperseded(f, i) then MarkRows(f, base, i + 1, first)
    else [Row(base + Max(f.marks[i].at, f.prologueEnd), f.file, f.marks[i].line, first, false)] + MarkRows(f, base, i + 1, false)
  }

  // Where the sequence ends
  function LastLine(f: Function, i: nat, line: int): int
    requires i <= |f.marks|
    decreases |f.marks| - i
  {
    if i == |f.marks| then line
    else LastLine(f, i + 1, if IsSuperseded(f, i) then line else f.marks[i].line)
  }

  function IntendedRows(f: Function, base: int): seq<Row> {
    [Row(base + f.start, f.file, FirstLine(f), false, false)] + MarkRows(f, base, 0, true) +
    [Row(base + f.end, f.file, LastLine(f, 0, FirstLine(f)), false, true)]
  }

  // ---------------------------------------------------------------------------------------
  // The emitted sequence
  // ---------------------------------------------------------------------------------------

  function ThenAdvancePc(delta: int, rest: Ops): Ops {
    if delta > 0 then Then(AdvancePc(delta), rest) else rest
  }

  function ThenAdvanceLine(lines: int, rest: Ops): Ops {
    if lines != 0 then Then(AdvanceLine(lines), rest) else rest
  }

  // The instructions for the marks from i on, and the end
  function MarkOps(f: Function, i: nat, address: nat, line: int, first: bool): Ops
    requires i <= |f.marks|
    decreases |f.marks| - i
  {
    if i == |f.marks| then ThenAdvancePc(f.end - address, Then(EndSequence, Done))
    else if IsSuperseded(f, i) then MarkOps(f, i + 1, address, line, first)
    else
      var at := if f.marks[i].at < f.prologueEnd then f.prologueEnd else f.marks[i].at;
      var more := Then(CopyRow, MarkOps(f, i + 1, if at > address then at else address, f.marks[i].line, false));
      ThenAdvancePc(at - address, ThenAdvanceLine(f.marks[i].line - line, if first then Then(SetPrologueEnd, more) else more))
  }

  function SequenceOps(f: Function, address: nat): Ops {
    Then(SetAddress(address), Then(SetFile(f.file), Then(AdvanceLine(FirstLine(f) - 1), Then(CopyRow, MarkOps(f, 0, f.start, FirstLine(f), true)))))
  }

  // Where the next row would be
  predicate IsAt(f: Function, i: nat, address: nat)
    requires i <= |f.marks|
  {
    && f.start <= address <= f.end
    && (i < |f.marks| ==> address <= Max(f.marks[i].at, f.prologueEnd))
  }

  lemma PcRuns(r: Row, delta: int, rest: Ops)
    requires delta >= 0
    ensures RunOps(r, ThenAdvancePc(delta, rest)) == RunOps(r.(address := r.address + delta), rest)
    ensures AddressesFit(ThenAdvancePc(delta, rest)) <==> AddressesFit(rest)
  {
    if delta == 0 {
      assert r.(address := r.address + delta) == r;
    } else {
      assert RunOps(r, Then(AdvancePc(delta), rest)) == RunOps(r.(address := r.address + delta), rest);
    }
  }

  lemma LineRuns(r: Row, lines: int, rest: Ops)
    ensures RunOps(r, ThenAdvanceLine(lines, rest)) == RunOps(r.(line := r.line + lines), rest)
    ensures AddressesFit(ThenAdvanceLine(lines, rest)) <==> AddressesFit(rest)
  {
    if lines == 0 {
      assert r.(line := r.line + lines) == r;
    } else {
      assert RunOps(r, Then(AdvanceLine(lines), rest)) == RunOps(r.(line := r.line + lines), rest);
    }
  }

  lemma CopyRuns(r: Row, first: bool, rest: Ops)
    requires !r.prologueEnd
    ensures var ops := if first then Then(SetPrologueEnd, Then(CopyRow, rest)) else Then(CopyRow, rest);
            && RunOps(r, ops) == Ran([r.(prologueEnd := first)] + RunOps(r, rest).rows, RunOps(r, rest).registers)
            && (AddressesFit(ops) <==> AddressesFit(rest))
  {
    assert r.(prologueEnd := first).(prologueEnd := false) == r;
    if first {
      assert RunOps(r, Then(SetPrologueEnd, Then(CopyRow, rest))) == RunOps(r.(prologueEnd := true), Then(CopyRow, rest));
    }
  }

  // The instructions of the marks give their rows, and the end.
  lemma {:induction false} MarksGiveRows(f: Function, base: int, i: nat, address: nat, line: int, first: bool)
    requires InOrder(f) && i <= |f.marks| && IsAt(f, i, address)
    ensures RunOps(Row(base + address, f.file, line, false, false), MarkOps(f, i, address, line, first)) ==
            Ran(MarkRows(f, base, i, first) + [Row(base + f.end, f.file, LastLine(f, i, line), false, true)], RESET)
    ensures AddressesFit(MarkOps(f, i, address, line, first))
    decreases |f.marks| - i, 1
  {
    if i == |f.marks| {
      var r := Row(base + address, f.file, line, false, false);
      PcRuns(r, f.end - address, Then(EndSequence, Done));
      assert RunOps(RESET, Done) == Ran([], RESET);
      assert [] + [Row(base + f.end, f.file, line, false, true)] == [Row(base + f.end, f.file, line, false, true)] + [];
    } else if IsSuperseded(f, i) {
      MarksGiveRows(f, base, i + 1, address, line, first);
    } else {
      MarkGivesRow(f, base, i, address, line, first);
    }
  }

  lemma {:induction false} MarkGivesRow(f: Function, base: int, i: nat, address: nat, line: int, first: bool)
    requires InOrder(f) && i < |f.marks| && IsAt(f, i, address) && !IsSuperseded(f, i)
    ensures RunOps(Row(base + address, f.file, line, false, false), MarkOps(f, i, address, line, first)) ==
            Ran(MarkRows(f, base, i, first) + [Row(base + f.end, f.file, LastLine(f, i, line), false, true)], RESET)
    ensures AddressesFit(MarkOps(f, i, address, line, first))
    decreases |f.marks| - i, 0
  {
    var at, markLine := Max(f.marks[i].at, f.prologueEnd), f.marks[i].line;
    var rest := MarkOps(f, i + 1, at, markLine, false);
    var copied := if first then Then(SetPrologueEnd, Then(CopyRow, rest)) else Then(CopyRow, rest);
    var r := Row(base + address, f.file, line, false, false);
    var r1 := r.(address := base + at);
    PcRuns(r, at - address, ThenAdvanceLine(markLine - line, copied));
    LineRuns(r1, markLine - line, copied);
    CopyRuns(r1.(line := markLine), first, rest);
    MarksGiveRows(f, base, i + 1, at, markLine, false);
    var end := [Row(base + f.end, f.file, LastLine(f, i + 1, markLine), false, true)];
    assert [r1.(line := markLine, prologueEnd := first)] + (MarkRows(f, base, i + 1, false) + end) == MarkRows(f, base, i, first) + end;
  }

  lemma HeadRuns(f: Function, base: nat, rest: Ops)
    requires base + f.start < Range(8)
    ensures var ops := Then(SetAddress(base + f.start), Then(SetFile(f.file), Then(AdvanceLine(FirstLine(f) - 1), Then(CopyRow, rest))));
            var r := Row(base + f.start, f.file, FirstLine(f), false, false);
            && RunOps(RESET, ops) == Ran([r] + RunOps(r, rest).rows, RunOps(r, rest).registers)
            && (AddressesFit(ops) <==> AddressesFit(rest))
  {
    var r := Row(base + f.start, f.file, FirstLine(f), false, false);
    var copied := Then(CopyRow, rest);
    var lined := Then(AdvanceLine(FirstLine(f) - 1), copied);
    var r1 := RESET.(address := base + f.start);
    assert RunOps(r, copied) == Ran([r] + RunOps(r, rest).rows, RunOps(r, rest).registers);
    assert RunOps(r1.(file := f.file), lined) == RunOps(r, copied);
    assert RunOps(r1, Then(SetFile(f.file), lined)) == RunOps(r1.(file := f.file), lined);
    assert AddressesFit(lined) <==> AddressesFit(rest);
    assert AddressesFit(Then(SetFile(f.file), lined)) <==> AddressesFit(lined);
  }

  lemma SequenceGivesRows(f: Function, base: nat)
    requires InOrder(f) && base + f.start < Range(8)
    ensures RunOps(RESET, SequenceOps(f, base + f.start)) == Ran(IntendedRows(f, base), RESET)
    ensures AddressesFit(SequenceOps(f, base + f.start))
  {
    MarksGiveRows(f, base, 0, f.start, FirstLine(f), true);
    HeadRuns(f, base, MarkOps(f, 0, f.start, FirstLine(f), true));
    var first := Row(base + f.start, f.file, FirstLine(f), false, false);
    var end := [Row(base + f.end, f.file, LastLine(f, 0, FirstLine(f)), false, true)];
    assert [first] + (MarkRows(f, base, 0, true) + end) == IntendedRows(f, base);
  }

  // Interpreting the sequence gives the intended rows, whatever comes after it.
  lemma SequenceIsRead(f: Function, base: nat, rest: seq<int>)
    requires InOrder(f) && base + f.start < Range(8)
    ensures Interpret(RESET, Flatten(SequenceOps(f, base + f.start)) + rest) == PrependAll(IntendedRows(f, base), Interpret(RESET, rest))
  {
    SequenceGivesRows(f, base);
    OpsAreRead(RESET, SequenceOps(f, base + f.start), rest);
  }

  lemma Concat3(a: seq<int>, b: seq<int>, c: seq<int>)
    ensures (a + b) + c == a + (b + c)
  {
  }

  lemma FlattenThen(o: seq<int>, op: Op, rest: Ops)
    ensures (o + OpBytes(op)) + Flatten(rest) == o + Flatten(Then(op, rest))
  {
    Concat3(o, OpBytes(op), Flatten(rest));
  }

  method WriteOp(o: seq<int>, op: Op) returns (out: seq<int>)
    ensures out == o + OpBytes(op)
  {
    match op {
      case SetAddress(address) =>
        out := WriteUleb(o + [0], 9);
        out := out + [2] + LittleEndian(address, 8);
      case SetFile(file) => out := WriteUleb(o + [4], file);
      case AdvanceLine(lines) => out := WriteSleb(o + [3], lines);
      case AdvancePc(delta) => out := WriteUleb(o + [2], delta);
      case SetPrologueEnd => out := o + [10];
      case CopyRow => out := o + [1];
      case EndSequence =>
        out := WriteUleb(o + [0], 1);
        out := out + [1];
    }
  }

  // A mark is skipped when the next one has its address.
  method WriteMarks(f: Function, o: seq<int>) returns (out: seq<int>)
    ensures out == o + Flatten(MarkOps(f, 0, f.start, FirstLine(f), true))
  {
    out := o;
    var line, address, markedPrologue := FirstLine(f), f.start, false;
    for i := 0 to |f.marks|
      invariant out + Flatten(MarkOps(f, i, address, line, !markedPrologue)) == o + Flatten(MarkOps(f, 0, f.start, FirstLine(f), true))
    {
      if i + 1 < |f.marks| && f.marks[i + 1].at == f.marks[i].at { continue; }
      out, address := WriteMark(f, i, address, line, !markedPrologue, out);
      line, markedPrologue := f.marks[i].line, true;
    }
    if f.end > address {
      out := WriteOp(out, AdvancePc(f.end - address));
    }
    out := WriteOp(out, EndSequence);
  }

  method WriteMark(f: Function, i: nat, before: nat, line: int, first: bool, o: seq<int>) returns (out: seq<int>, address: nat)
    requires i < |f.marks| && !IsSuperseded(f, i)
    ensures out + Flatten(MarkOps(f, i + 1, address, f.marks[i].line, false)) == o + Flatten(MarkOps(f, i, before, line, first))
  {
    out, address := o, before;
    var at := f.marks[i].at;
    if at < f.prologueEnd { at := f.prologueEnd; }
    ghost var more := Then(CopyRow, MarkOps(f, i + 1, if at > before then at else before, f.marks[i].line, false));
    ghost var copied := if first then Then(SetPrologueEnd, more) else more;
    ghost var lined := ThenAdvanceLine(f.marks[i].line - line, copied);
    assert MarkOps(f, i, before, line, first) == ThenAdvancePc(at - before, lined);
    if at > address {
      FlattenThen(out, AdvancePc(at - address), lined);
      out := WriteOp(out, AdvancePc(at - address));
      address := at;
    }
    assert out + Flatten(lined) == o + Flatten(MarkOps(f, i, before, line, first));
    if f.marks[i].line != line {
      FlattenThen(out, AdvanceLine(f.marks[i].line - line), copied);
      out := WriteOp(out, AdvanceLine(f.marks[i].line - line));
    }
    assert out + Flatten(copied) == o + Flatten(MarkOps(f, i, before, line, first));
    if first {
      FlattenThen(out, SetPrologueEnd, more);
      out := WriteOp(out, SetPrologueEnd);
    }
    FlattenThen(out, CopyRow, more.rest);
    out := WriteOp(out, CopyRow);
  }

  // The sequence, with zeros for the address, which a relocation of the function is for
  method WriteSequence(f: Function) returns (out: seq<int>, field: nat)
    ensures out == Flatten(SequenceOps(f, 0)) && field == 3
  {
    ghost var marks := MarkOps(f, 0, f.start, FirstLine(f), true);
    ghost var copied := Then(CopyRow, marks);
    ghost var lined := Then(AdvanceLine(FirstLine(f) - 1), copied);
    ghost var filed := Then(SetFile(f.file), lined);
    out := WriteUleb([0], 9);
    UlebOfByte(9);
    out := out + [2];
    field := |out|;
    out := out + LittleEndian(0, 8);
    FlattenThen([], SetAddress(0), filed);
    assert out + Flatten(filed) == Flatten(SequenceOps(f, 0)) by {
      assert [] + OpBytes(SetAddress(0)) == out;
      assert [] + Flatten(SequenceOps(f, 0)) == Flatten(SequenceOps(f, 0));
    }
    FlattenThen(out, SetFile(f.file), lined);
    out := WriteOp(out, SetFile(f.file));
    FlattenThen(out, AdvanceLine(FirstLine(f) - 1), copied);
    out := WriteOp(out, AdvanceLine(FirstLine(f) - 1));
    FlattenThen(out, CopyRow, marks);
    out := WriteOp(out, CopyRow);
    out := WriteMarks(f, out);
  }

  lemma UlebOfByte(value: nat)
    requires value < 128
    ensures Uleb(value) == [value]
  {
  }

  // With the address in its field, the sequence sets that address.
  lemma AddressInField(f: Function, address: nat, size: nat, zero: nat, length: nat)
    requires size == 8 && zero == 0 && length == 9
    ensures var linked := Flatten(SequenceOps(f, zero));
            11 <= |linked| && linked[..3] + LittleEndian(address, size) + linked[11..] == Flatten(SequenceOps(f, address))
  {
    UlebOfByte(length);
    var more := Flatten(SequenceOps(f, zero).rest);
    assert more == Flatten(SequenceOps(f, address).rest);
    FieldReplaced([0, 9, 2], LittleEndian(zero, size), LittleEndian(address, size), more);
    AddressBytes(zero, more, size, length);
    AddressBytes(address, more, size, length);
    assert Flatten(SequenceOps(f, zero)) == OpBytes(SetAddress(zero)) + more;
    assert Flatten(SequenceOps(f, address)) == OpBytes(SetAddress(address)) + more;
  }

  lemma AddressBytes(address: nat, more: seq<int>, size: nat, length: nat)
    requires size == 8 && length == 9
    ensures OpBytes(SetAddress(address)) + more == [0, 9, 2] + LittleEndian(address, size) + more
  {
    UlebOfByte(length);
  }

  lemma FieldReplaced(head: seq<int>, a: seq<int>, b: seq<int>, more: seq<int>)
    requires |head| == 3 && |a| == 8
    ensures var all := head + a + more;
            11 <= |all| && all[..3] + b + all[11..] == head + b + more
  {
    var all := head + a + more;
    assert all[..3] == head && all[11..] == more;
  }

  // ---------------------------------------------------------------------------------------
  // What the intended rows are
  // ---------------------------------------------------------------------------------------

  lemma {:induction false} MarkRowsInOrder(f: Function, base: int, i: nat, first: bool)
    requires InOrder(f) && i <= |f.marks|
    ensures forall a, b :: 0 <= a < b < |MarkRows(f, base, i, first)| ==> MarkRows(f, base, i, first)[a].address <= MarkRows(f, base, i, first)[b].address
    ensures forall a :: 0 <= a < |MarkRows(f, base, i, first)| ==>
              && base + f.prologueEnd <= MarkRows(f, base, i, first)[a].address <= base + f.end
              && (i < |f.marks| ==> base + f.marks[i].at <= MarkRows(f, base, i, first)[a].address)
    decreases |f.marks| - i
  {
    if i < |f.marks| {
      MarkRowsInOrder(f, base, i + 1, if IsSuperseded(f, i) then first else false);
    }
  }

  // The addresses of the rows never go down, from the start of the function to its end.
  lemma RowsInOrder(f: Function, base: int)
    requires InOrder(f)
    ensures var rows := IntendedRows(f, base);
            && rows[0].address == base + f.start && rows[|rows| - 1].address == base + f.end
            && (forall a, b :: 0 <= a < b < |rows| ==> rows[a].address <= rows[b].address)
            && (forall a :: 0 <= a < |rows| ==> (rows[a].endSequence <==> a == |rows| - 1))
  {
    MarkRowsInOrder(f, base, 0, true);
    NoMarkEndsSequence(f, base, 0, true);
  }

  lemma {:induction false} NoMarkEndsSequence(f: Function, base: int, i: nat, first: bool)
    requires i <= |f.marks|
    ensures forall a :: 0 <= a < |MarkRows(f, base, i, first)| ==> !MarkRows(f, base, i, first)[a].endSequence
    decreases |f.marks| - i
  {
    if i < |f.marks| {
      NoMarkEndsSequence(f, base, i + 1, if IsSuperseded(f, i) then first else false);
    }
  }

  // The last mark at its place: all later ones are further on.
  predicate IsLastThere(f: Function, i: nat) {
    i < |f.marks| && forall j :: i < j < |f.marks| ==> f.marks[i].at < f.marks[j].at
  }

  function LastMarks(f: Function, from: nat): (last: seq<nat>)
    requires from <= |f.marks|
    ensures forall k :: 0 <= k < |last| ==> from <= last[k] && IsLastThere(f, last[k])
    ensures forall i: nat :: from <= i && IsLastThere(f, i) ==> i in last
    ensures forall k, l :: 0 <= k < l < |last| ==> last[k] < last[l]
    decreases |f.marks| - from
  {
    if from == |f.marks| then []
    else (if IsLastThere(f, from) then [from] else []) + LastMarks(f, from + 1)
  }

  lemma LastIsNotSuperseded(f: Function, i: nat)
    requires InOrder(f) && i < |f.marks|
    ensures IsLastThere(f, i) <==> !IsSuperseded(f, i)
  {
    if !IsSuperseded(f, i) {
      forall j | i < j < |f.marks|
        ensures f.marks[i].at < f.marks[j].at
      {
        assert f.marks[i].at <= f.marks[i + 1].at <= f.marks[j].at;
      }
    }
  }

  function RowOf(f: Function, base: int, i: nat, first: bool): Row
    requires i < |f.marks|
  {
    Row(base + Max(f.marks[i].at, f.prologueEnd), f.file, f.marks[i].line, first, false)
  }

  // Row k is that of mark last[k]; the first one is the end of the prologue.
  predicate AreRowsOf(f: Function, base: int, last: seq<nat>, first: bool, rows: seq<Row>) {
    && |rows| == |last| && (forall k :: 0 <= k < |last| ==> last[k] < |f.marks|)
    && forall k :: 0 <= k < |rows| ==> rows[k] == RowOf(f, base, last[k], first && k == 0)
  }

  // The rows of the marks are those of the last mark at each place, in order.
  lemma {:induction false} RowsOfLastMarks(f: Function, base: int, from: nat, first: bool)
    requires InOrder(f) && from <= |f.marks|
    ensures AreRowsOf(f, base, LastMarks(f, from), first, MarkRows(f, base, from, first))
    decreases |f.marks| - from
  {
    hide *;
    RowsUnfold(f, base, from, first);
    if from < |f.marks| {
      LastIsNotSuperseded(f, from);
      if IsSuperseded(f, from) {
        RowsOfLastMarks(f, base, from + 1, first);
      } else {
        RowsOfLastMarks(f, base, from + 1, false);
        RowBefore(f, base, from, first, LastMarks(f, from + 1), MarkRows(f, base, from + 1, false));
      }
    }
  }

  lemma RowsUnfold(f: Function, base: int, from: nat, first: bool)
    requires from <= |f.marks|
    ensures from == |f.marks| ==> AreRowsOf(f, base, LastMarks(f, from), first, MarkRows(f, base, from, first))
    ensures from < |f.marks| ==>
              LastMarks(f, from) == (if IsLastThere(f, from) then [from] + LastMarks(f, from + 1) else LastMarks(f, from + 1))
    ensures from < |f.marks| ==>
              MarkRows(f, base, from, first) == if IsSuperseded(f, from) then MarkRows(f, base, from + 1, first)
                                                else [RowOf(f, base, from, first)] + MarkRows(f, base, from + 1, false)
  {
    if from < |f.marks| && !IsLastThere(f, from) {
      assert [] + LastMarks(f, from + 1) == LastMarks(f, from + 1);
    }
  }

  lemma RowBefore(f: Function, base: int, i: nat, first: bool, last: seq<nat>, rows: seq<Row>)
    requires i < |f.marks| && AreRowsOf(f, base, last, false, rows)
    ensures AreRowsOf(f, base, [i] + last, first, [RowOf(f, base, i, first)] + rows)
  {
  }

  // ---------------------------------------------------------------------------------------
  // Looking up an address
  // ---------------------------------------------------------------------------------------

  // The line of the code at x: that of the last mark up to there. The prologue has the line of the function.
  ghost predicate IsLineAt(f: Function, x: nat, line: int) {
    if x < f.prologueEnd || forall i :: 0 <= i < |f.marks| ==> x < f.marks[i].at then
      line == if f.line > 0 then f.line else 1
    else IsMarkUpTo(f, x, line)
  }

  ghost predicate IsMarkUpTo(f: Function, x: nat, line: int) {
    exists i: nat :: IsLastUpTo(f, i, x) && line == f.marks[i].line
  }

  predicate IsLastUpTo(f: Function, i: nat, x: nat) {
    i < |f.marks| && f.marks[i].at <= x && forall j :: i < j < |f.marks| ==> x < f.marks[j].at
  }

  // The row that a debugger finds for an address
  predicate IsRowFor(rows: seq<Row>, k: nat, address: int) {
    k + 1 < |rows| && rows[k].address <= address < rows[k + 1].address
  }

  predicate NoRowUpTo(rows: seq<Row>, address: int) {
    |rows| > 0 ==> address < rows[0].address
  }

  predicate IsLastRowUpTo(rows: seq<Row>, k: int, address: int) {
    0 <= k < |rows| && rows[k].address <= address && (k + 1 < |rows| ==> address < rows[k + 1].address)
  }

  // No row of the marks is up to x, or the last one that is has the line of the last mark that is.
  lemma {:induction false} MarkRowsUpTo(f: Function, base: int, from: nat, first: bool, x: nat)
    requires InOrder(f) && from <= |f.marks| && f.prologueEnd <= x
    ensures NoRowUpTo(MarkRows(f, base, from, first), base + x) ==> forall i :: from <= i < |f.marks| ==> x < f.marks[i].at
    ensures forall k :: IsLastRowUpTo(MarkRows(f, base, from, first), k, base + x) ==>
              IsMarkUpTo(f, x, MarkRows(f, base, from, first)[k].line)
    decreases |f.marks| - from
  {
    if from < |f.marks| {
      var next := if IsSuperseded(f, from) then first else false;
      MarkRowsUpTo(f, base, from + 1, next, x);
      if !IsSuperseded(f, from) {
        var rows, rest := MarkRows(f, base, from, first), MarkRows(f, base, from + 1, false);
        forall k | IsLastRowUpTo(rows, k, base + x)
          ensures IsMarkUpTo(f, x, rows[k].line)
        {
          if k == 0 {
            assert |rest| > 0 ==> rest[0] == rows[1];
            assert IsLastUpTo(f, from, x);
          } else {
            assert rest[k - 1] == rows[k] && IsLastRowUpTo(rest, k - 1, base + x);
          }
        }
      }
    }
  }

  // Looking up an address of the function finds the line of the code there.
  lemma LookupFindsLine(f: Function, base: int, x: nat, k: nat)
    requires InOrder(f) && f.start <= x && IsRowFor(IntendedRows(f, base), k, base + x)
    ensures IsLineAt(f, x, IntendedRows(f, base)[k].line)
  {
    var rows, marks := IntendedRows(f, base), MarkRows(f, base, 0, true);
    MarkRowsInOrder(f, base, 0, true);
    assert forall j :: 0 <= j < |marks| ==> rows[j + 1] == marks[j];
    if f.prologueEnd <= x {
      MarkRowsUpTo(f, base, 0, true, x);
      if k > 0 {
        assert rows[k] == marks[k - 1];
      }
    }
  }

  lemma {:induction false} FirstRowBeyond(rows: seq<Row>, address: int, n: nat) returns (k: nat)
    requires n + 1 < |rows| && rows[0].address <= address < rows[n + 1].address
    ensures IsRowFor(rows, k, address)
    decreases n
  {
    if n == 0 || rows[n].address <= address {
      k := n;
    } else {
      k := FirstRowBeyond(rows, address, n - 1);
    }
  }

  // Every address of the function is found.
  lemma LookupFinds(f: Function, base: int, x: nat) returns (k: nat)
    requires InOrder(f) && f.start <= x < f.end
    ensures IsRowFor(IntendedRows(f, base), k, base + x) && IsLineAt(f, x, IntendedRows(f, base)[k].line)
  {
    RowsInOrder(f, base);
    k := FirstRowBeyond(IntendedRows(f, base), base + x, |IntendedRows(f, base)| - 2);
    LookupFindsLine(f, base, x, k);
  }
}
