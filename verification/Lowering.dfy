/** Lowering structured statements to blocks: the deferred statements, the loops and the tries around a statement are
    known while it is lowered, and every way out of a block gets its own copy of the deferred statements it runs. */
module Lowering {
  import opened Options
  import opened Structured
  import opened ControlFlow

  datatype LoopTarget = LoopTarget(key: int, breakBlock: nat, continueBlock: nat, deferCount: nat)

  datatype TryTarget = TryTarget(catchBlock: nat, deferCount: nat)

  // What is around the statement that is lowered, the innermost last
  datatype Context = Context(defers: seq<Stmt>, loops: seq<LoopTarget>, tries: seq<TryTarget>)

  function PushDefer(ctx: Context, s: Stmt): Context {
    ctx.(defers := ctx.defers + [s])
  }

  function PushLoop(ctx: Context, key: int, breakBlock: nat, continueBlock: nat): Context {
    ctx.(loops := ctx.loops + [LoopTarget(key, breakBlock, continueBlock, |ctx.defers|)])
  }

  function PushTry(ctx: Context, catchBlock: nat): Context {
    ctx.(tries := ctx.tries + [TryTarget(catchBlock, |ctx.defers|)])
  }

  // The context of the deferred statement on top: only the ones below it are active.
  function BelowTop(ctx: Context): Context
    requires |ctx.defers| > 0
  {
    ctx.(defers := ctx.defers[..|ctx.defers| - 1])
  }

  function TopDefer(ctx: Context): Stmt
    requires |ctx.defers| > 0
  {
    ctx.defers[|ctx.defers| - 1]
  }

  // The innermost loop with the key
  function FindLoop(loops: seq<LoopTarget>, key: int): Option<LoopTarget>
    decreases |loops|
  {
    if |loops| == 0 then None
    else if loops[|loops| - 1].key == key then Some(loops[|loops| - 1])
    else FindLoop(loops[..|loops| - 1], key)
  }

  // ---------------------------------------------------------------------------------------
  // Deferred statements and throwing
  // ---------------------------------------------------------------------------------------

  function EmitDefers(ctx: Context, c: Code, down: nat): Code
    decreases SizeOf(ctx.defers), 1, |ctx.defers|
  {
    if |ctx.defers| <= down then c
    else EmitDefers(BelowTop(ctx), if c.Open() then LowerStmt(BelowTop(ctx), c, TopDefer(ctx)) else c, down)
  }

  // The slot the error is put aside in, while deferred statements run
  function ParkError(c: Code): Code {
    Emit(Emit(c.(slots := c.slots + 1), Park(c.slots)), ClearThrown)
  }

  function EmitDefersWhileThrowing(ctx: Context, c: Code, down: nat): Code
    decreases SizeOf(ctx.defers), 2, 0
  {
    if |ctx.defers| <= down then c
    else Emit(EmitDefers(ctx, ParkError(c), down), Unpark(c.slots))
  }

  function EmitUnwind(ctx: Context, c: Code): Code
    decreases SizeOf(ctx.defers), 3, 0
  {
    if |ctx.tries| > 0 then
      var t := ctx.tries[|ctx.tries| - 1];
      Terminate(EmitDefersWhileThrowing(ctx, c, t.deferCount), Jmp(t.catchBlock))
    else Terminate(EmitDefersWhileThrowing(ctx, c, 0), Ret(true))
  }

  // After a call: the branch on its flag, up to the block that throws on
  function BranchOnThrow(c: Code, confirm: bool): Code {
    var made := Create(Create(c));
    var throwing, goOn := |c.blocks|, |c.blocks| + 1;
    if confirm then
      var check := |c.blocks| + 2;
      Terminate(SetBlock(Terminate(Create(made), Br(FlagIsSet, check, goOn)), check), Br(ThrownIsSet, throwing, goOn))
    else Terminate(made, Br(FlagIsSet, throwing, goOn))
  }

  function EmitThrowCheck(ctx: Context, c: Code, confirm: bool): Code
    decreases SizeOf(ctx.defers), 4, 0
  {
    if !c.Open() then c
    else SetBlock(EmitUnwind(ctx, SetBlock(BranchOnThrow(c, confirm), |c.blocks|)), |c.blocks| + 1)
  }

  // Throws the error that was evaluated, when it is not null
  function BranchOnError(c: Code): Code {
    Emit(SetBlock(Terminate(Create(Create(c)), Br(ErrorIsSet, |c.blocks|, |c.blocks| + 1)), |c.blocks|), StoreThrown)
  }

  function EmitThrow(ctx: Context, c: Code): Code
    decreases SizeOf(ctx.defers), 4, 0
  {
    SetBlock(EmitUnwind(ctx, BranchOnError(c)), |c.blocks| + 1)
  }

  function LowerCall(ctx: Context, c: Code, call: CallSite): Code
    decreases SizeOf(ctx.defers), 5, 0
  {
    var checked := EmitThrowCheck(ctx, Emit(c, CallInstr(call)), call.confirm);
    if call.throwsResult then EmitThrow(ctx, Emit(checked, LoadErrorResult(call))) else checked
  }

  function LowerCalls(ctx: Context, c: Code, calls: seq<CallSite>): Code
    decreases SizeOf(ctx.defers), 6, |calls|
  {
    if |calls| == 0 then c else LowerCalls(ctx, LowerCall(ctx, c, calls[0]), calls[1..])
  }

  // ---------------------------------------------------------------------------------------
  // Conditions and statements
  // ---------------------------------------------------------------------------------------

  function LowerCondition(ctx: Context, c: Code, cond: Cond, onTrue: nat, onFalse: nat): Code
    decreases SizeOf(ctx.defers), 7, cond
  {
    match cond
    case And(left, right) =>
      LowerCondition(ctx, SetBlock(LowerCondition(ctx, Create(c), left, |c.blocks|, onFalse), |c.blocks|), right, onTrue, onFalse)
    case Or(left, right) =>
      LowerCondition(ctx, SetBlock(LowerCondition(ctx, Create(c), left, onTrue, |c.blocks|), |c.blocks|), right, onTrue, onFalse)
    case Not(operand) => LowerCondition(ctx, c, operand, onFalse, onTrue)
    case Atom(e) => Terminate(LowerCalls(ctx, c, e.calls), Br(Test(e.value), onTrue, onFalse))
  }

  function LowerStmt(ctx: Context, c: Code, s: Stmt): Code
    decreases SizeOf(ctx.defers) + Size(s), 0, 0
  {
    match s
    case Do(e) => Emit(LowerCalls(ctx, c, e.calls), Act(e.value))
    case BlockStmt(body) => LowerBlock(ctx, c, body)
    case If(cond, body, rest) => LowerIf(ctx, c, s)
    case While(_, _, _) => LowerWhile(ctx, c, s)
    case Forever(_, _) => LowerForever(ctx, c, s)
    case For(_, _, _, _, _, _) => LowerFor(ctx, c, s)
    case Break(key) => LowerJump(ctx, c, FindLoop(ctx.loops, key), true)
    case Continue(key) => LowerJump(ctx, c, FindLoop(ctx.loops, key), false)
    case Return(e) =>
      StartUnreachable(Terminate(EmitDefers(ctx, Emit(LowerCalls(ctx, c, e.calls), StoreResult(e.value)), 0), Ret(false)))
    case Defer(_) => c
    case Try(_, _, _) => LowerTry(ctx, c, s)
    case Throw(e) => EmitThrow(ctx, Emit(LowerCalls(ctx, c, e.calls), EvalError(e.value)))
  }

  // break or continue; without its loop there is nothing to jump to.
  function LowerJump(ctx: Context, c: Code, target: Option<LoopTarget>, isBreak: bool): Code
    decreases SizeOf(ctx.defers), 5, 0
  {
    match target
    case None => c
    case Some(t) =>
      StartUnreachable(Terminate(EmitDefers(ctx, c, t.deferCount), Jmp(if isBreak then t.breakBlock else t.continueBlock)))
  }

  function LowerBlock(ctx: Context, c: Code, body: Stmts): Code
    decreases SizeOf(ctx.defers) + SizeAll(body), 9, 0
  {
    LowerList(ctx, |ctx.defers|, c, body)
  }

  // The rest of a block, and the deferred statements at its end
  function LowerList(ctx: Context, base: nat, c: Code, stmts: Stmts): Code
    decreases SizeOf(ctx.defers) + SizeAll(stmts), 8, 0
  {
    match stmts
    case Nil => EmitDefers(ctx, c, base)
    case Cons(head, tail) =>
      if head.Defer? then
        SizeOfPushed(ctx.defers, head.deferred);
        assert Size(head) == 1 + Size(head.deferred);
        LowerList(PushDefer(ctx, head.deferred), base, c, tail)
      else
        SizeIsPositive(head);
        LowerList(ctx, base, LowerStmt(ctx, c, head), tail)
  }

  function LowerIf(ctx: Context, c: Code, s: Stmt): Code
    requires s.If?
    decreases SizeOf(ctx.defers) + SizeAll(s.body) + SizeArms(s.rest) + 1, 11, 0
  {
    SetBlock(LowerArms(ctx, Create(c), ElseIf(s.cond, s.body, s.rest), |c.blocks|), |c.blocks|)
  }

  // The ways of an if chain, each of which ends in done
  function LowerArms(ctx: Context, c: Code, arms: Arms, done: nat): Code
    decreases SizeOf(ctx.defers) + SizeArms(arms), 10, 0
  {
    match arms
    case Else(body) => Terminate(LowerBlock(ctx, c, body), Jmp(done))
    case ElseIf(cond, body, rest) =>
      var thenBlock, next := |c.blocks|, |c.blocks| + 1;
      var tested := LowerCondition(ctx, Create(Create(c)), cond, thenBlock, next);
      var bodied := Terminate(LowerBlock(ctx, SetBlock(tested, thenBlock), body), Jmp(done));
      LowerArms(ctx, SetBlock(bodied, next), rest, done)
  }

  function LowerWhile(ctx: Context, c: Code, s: Stmt): Code
    requires s.While?
    decreases SizeOf(ctx.defers) + SizeAll(s.body), 10, 0
  {
    var test, body, done := |c.blocks|, |c.blocks| + 1, |c.blocks| + 2;
    var entered := SetBlock(Terminate(Create(Create(Create(c))), Jmp(test)), test);
    var tested := LowerCondition(ctx, entered, s.cond, body, done);
    var bodied := LowerBlock(PushLoop(ctx, s.key, done, test), SetBlock(tested, body), s.body);
    SetBlock(Terminate(bodied, Jmp(test)), done)
  }

  function LowerForever(ctx: Context, c: Code, s: Stmt): Code
    requires s.Forever?
    decreases SizeOf(ctx.defers) + SizeAll(s.body), 10, 0
  {
    var body, done := |c.blocks| + 1, |c.blocks| + 3;
    var entered := SetBlock(Terminate(Create(Create(Create(Create(c)))), Jmp(body)), body);
    var bodied := LowerBlock(PushLoop(ctx, s.key, done, body), entered, s.body);
    SetBlock(Terminate(bodied, Jmp(body)), done)
  }

  // The start of a for, up to its test
  function EnterFor(ctx: Context, c: Code, init: Expr): Code
    decreases SizeOf(ctx.defers), 10, 0
  {
    var started := Emit(LowerCalls(ctx, Create(Create(Create(Create(c)))), init.calls), Act(init.value));
    SetBlock(Terminate(started, Jmp(|c.blocks|)), |c.blocks|)
  }

  // Its test, its body and its step; base is the block of the test.
  function LowerRounds(ctx: Context, entered: Code, base: nat, s: Stmt): Code
    requires s.For?
    decreases SizeOf(ctx.defers) + SizeAll(s.body), 10, 0
  {
    var test, body, post, done := base, base + 1, base + 2, base + 3;
    var tested := SetBlock(Terminate(entered, Br(Test(s.test), body, done)), body);
    var bodied := LowerBlock(PushLoop(ctx, s.key, done, post), Emit(tested, Act(s.bind)), s.body);
    var stepped := Emit(SetBlock(Terminate(bodied, Jmp(post)), post), Act(s.post));
    SetBlock(Terminate(stepped, Jmp(test)), done)
  }

  function LowerFor(ctx: Context, c: Code, s: Stmt): Code
    requires s.For?
    decreases SizeOf(ctx.defers) + SizeAll(s.body), 11, 0
  {
    LowerRounds(ctx, EnterFor(ctx, c, s.init), |c.blocks|, s)
  }

  function LowerTry(ctx: Context, c: Code, s: Stmt): Code
    requires s.Try?
    decreases SizeOf(ctx.defers) + SizeAll(s.body) + SizeAll(s.handler), 10, 0
  {
    var catch, done := |c.blocks|, |c.blocks| + 1;
    var bodied := Terminate(LowerBlock(PushTry(ctx, catch), Create(Create(c)), s.body), Jmp(done));
    var caught := Emit(SetBlock(bodied, catch), CatchError(s.variable));
    SetBlock(Terminate(LowerBlock(ctx, caught, s.handler), Jmp(done)), done)
  }

  const START := Code([Block([], NoTerm)], 0, 0)

  // The blocks of a function; its first block is where it starts.
  function LowerFunction(body: Stmts): seq<Block> {
    Terminate(LowerBlock(Context([], [], []), START, body), Ret(false)).blocks
  }
}
