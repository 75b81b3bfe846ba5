/** The lowerer itself: one object, whose stacks of deferred statements, loops and tries are pushed and popped while it
    walks the statements. Whatever it lowers, its blocks are those of the specification, and its stacks are put back. */
module Lowerers {
  import opened Options
  import opened Structured
  import opened ControlFlow
  import opened Lowering

  // Nothing is added to a block that has its terminator.
  lemma {:induction false} DefersOnClosed(ctx: Context, c: Code, down: nat)
    requires !c.Open()
    ensures EmitDefers(ctx, c, down) == c
    decreases |ctx.defers|
  {
    if |ctx.defers| > down {
      DefersOnClosed(BelowTop(ctx), c, down);
    }
  }

  lemma {:induction false} SizeOfPrefix(stack: seq<Stmt>, i: nat)
    requires i < |stack|
    ensures SizeOf(stack[..i]) + Size(stack[i]) <= SizeOf(stack)
    decreases |stack|
  {
    if i + 1 < |stack| {
      var rest := stack[..|stack| - 1];
      SizeOfPrefix(rest, i);
      assert rest[..i] == stack[..i];
    }
  }

  // A defer leaves its statement on the stack, every other statement leaves the stack as it was.
  function AfterStmt(ctx: Context, s: Stmt): Context {
    if s.Defer? then PushDefer(ctx, s.deferred) else ctx
  }

  class Lowerer {
    var blocks: seq<Block>
    var cur: nat
    var slots: nat
    var defers: seq<Stmt>
    var loops: seq<LoopTarget>
    var tries: seq<TryTarget>

    constructor ()
      ensures Made() == START && Around() == Context([], [], [])
    {
      blocks, cur, slots := [Block([], NoTerm)], 0, 0;
      defers, loops, tries := [], [], [];
    }

    function Made(): Code
      reads this
    {
      Code(blocks, cur, slots)
    }

    function Around(): Context
      reads this
    {
      Context(defers, loops, tries)
    }

    // -------------------------------------------------------------------------------------
    // Blocks
    // -------------------------------------------------------------------------------------

    method CreateBlock() returns (b: nat)
      modifies this`blocks
      ensures b == |old(blocks)| && Made() == Create(old(Made()))
    {
      b := |blocks|;
      blocks := blocks + [Block([], NoTerm)];
    }

    method EnterBlock(b: nat)
      modifies this`cur
      ensures Made() == SetBlock(old(Made()), b)
    {
      cur := b;
    }

    predicate IsTerminated()
      reads this
    {
      !Made().Open()
    }

    method EmitInstr(i: Instr)
      modifies this`blocks
      ensures Made() == Emit(old(Made()), i)
    {
      if !IsTerminated() {
        blocks := blocks[cur := blocks[cur].(instrs := blocks[cur].instrs + [i])];
      }
    }

    method TerminateWith(t: Term)
      modifies this`blocks
      ensures Made() == Terminate(old(Made()), t)
    {
      if IsTerminated() { return; }
      blocks := blocks[cur := blocks[cur].(term := t)];
    }

    method StartUnreachableBlock()
      modifies this`blocks, this`cur
      ensures Made() == StartUnreachable(old(Made()))
    {
      var b := CreateBlock();
      EnterBlock(b);
    }

    // -------------------------------------------------------------------------------------
    // Deferred statements and throwing
    // -------------------------------------------------------------------------------------

    // A deferred statement is lowered with only the ones below it on the stack. Then all of them are put back, as
    // another way out runs them too.
    method LowerDefers(down: nat)
      modifies this
      ensures Around() == old(Around()) && Made() == EmitDefers(old(Around()), old(Made()), down)
      decreases SizeOf(defers), 1, 0
    {
      var count := |defers|;
      if count <= down { return; }
      var kept := defers;
      ghost var ctx := Around();
      assert kept[..count] == kept;
      var i := count;
      while i > down
        invariant down <= i <= count && i <= |defers| && defers[..i] == kept[..i]
        invariant loops == ctx.loops && tries == ctx.tries
        invariant EmitDefers(ctx, old(Made()), down) == EmitDefers(ctx.(defers := kept[..i]), Made(), down)
      {
        ghost var below := ctx.(defers := kept[..i]);
        if IsTerminated() {
          DefersOnClosed(below, Made(), down);
          break;
        }
        i := i - 1;
        SizeOfPrefix(kept, i);
        assert kept[..i + 1][..i] == kept[..i];
        assert BelowTop(below) == ctx.(defers := kept[..i]) && TopDefer(below) == kept[i];
        assert defers[..i] == kept[..i];
        defers := defers[..i];
        LowerStatement(kept[i]);
      }
      assert EmitDefers(ctx.(defers := kept[..i]), Made(), down) == Made();
      defers := kept;
    }

    // While an error is thrown, it is put aside in a slot, so the calls of the deferred statements run as usual.
    method LowerDefersWhileThrowing(down: nat)
      modifies this
      ensures Around() == old(Around()) && Made() == EmitDefersWhileThrowing(old(Around()), old(Made()), down)
      decreases SizeOf(defers), 2, 0
    {
      if |defers| <= down { return; }
      var parked := slots;
      slots := slots + 1;
      EmitInstr(Park(parked));
      EmitInstr(ClearThrown);
      LowerDefers(down);
      if !IsTerminated() {
        EmitInstr(Unpark(parked));
      }
    }

    method LowerUnwind()
      modifies this
      ensures Around() == old(Around()) && Made() == EmitUnwind(old(Around()), old(Made()))
      decreases SizeOf(defers), 3, 0
    {
      if |tries| > 0 {
        var target := tries[|tries| - 1];
        LowerDefersWhileThrowing(target.deferCount);
        TerminateWith(Jmp(target.catchBlock));
        return;
      }
      LowerDefersWhileThrowing(0);
      TerminateWith(Ret(true));
    }

    // The branch on the flag of a call, confirmed with thrownError where the flag says nothing
    method LowerThrowBranch(confirm: bool) returns (throwing: nat, goOn: nat)
      modifies this`blocks, this`cur
      ensures throwing == |old(blocks)| && goOn == |old(blocks)| + 1
      ensures Made() == BranchOnThrow(old(Made()), confirm)
    {
      throwing := CreateBlock();
      goOn := CreateBlock();
      if confirm {
        var check := CreateBlock();
        TerminateWith(Br(FlagIsSet, check, goOn));
        EnterBlock(check);
        TerminateWith(Br(ThrownIsSet, throwing, goOn));
      } else {
        TerminateWith(Br(FlagIsSet, throwing, goOn));
      }
    }

    method LowerThrowCheck(confirm: bool)
      modifies this
      ensures Around() == old(Around()) && Made() == EmitThrowCheck(old(Around()), old(Made()), confirm)
      decreases SizeOf(defers), 4, 0
    {
      if IsTerminated() { return; }
      var throwing, goOn := LowerThrowBranch(confirm);
      EnterBlock(throwing);
      LowerUnwind();
      EnterBlock(goOn);
    }

    method LowerThrow()
      modifies this
      ensures Around() == old(Around()) && Made() == EmitThrow(old(Around()), old(Made()))
      decreases SizeOf(defers), 4, 0
    {
      var throwing := CreateBlock();
      var goOn := CreateBlock();
      TerminateWith(Br(ErrorIsSet, throwing, goOn));
      EnterBlock(throwing);
      EmitInstr(StoreThrown);
      LowerUnwind();
      EnterBlock(goOn);
    }

    method LowerExpr(calls: seq<CallSite>)
      modifies this
      ensures Around() == old(Around()) && Made() == LowerCalls(old(Around()), old(Made()), calls)
      decreases SizeOf(defers), 5, 0
    {
      ghost var ctx := Around();
      assert calls[0..] == calls;
      for k := 0 to |calls|
        invariant Around() == ctx && LowerCalls(ctx, old(Made()), calls) == LowerCalls(ctx, Made(), calls[k..])
      {
        assert calls[k..][0] == calls[k] && calls[k..][1..] == calls[k + 1..];
        EmitInstr(CallInstr(calls[k]));
        LowerThrowCheck(calls[k].confirm);
        if calls[k].throwsResult {
          EmitInstr(LoadErrorResult(calls[k]));
          LowerThrow();
        }
      }
    }

    // -------------------------------------------------------------------------------------
    // Conditions and statements
    // -------------------------------------------------------------------------------------

    method LowerBranch(cond: Cond, onTrue: nat, onFalse: nat)
      modifies this
      ensures Around() == old(Around()) && Made() == LowerCondition(old(Around()), old(Made()), cond, onTrue, onFalse)
      decreases SizeOf(defers), 6, cond
    {
      match cond
      case And(left, right) =>
        var rhs := CreateBlock();
        LowerBranch(left, rhs, onFalse);
        EnterBlock(rhs);
        LowerBranch(right, onTrue, onFalse);
      case Or(left, right) =>
        var rhs := CreateBlock();
        LowerBranch(left, onTrue, rhs);
        EnterBlock(rhs);
        LowerBranch(right, onTrue, onFalse);
      case Not(operand) =>
        LowerBranch(operand, onFalse, onTrue);
      case Atom(e) =>
        LowerExpr(e.calls);
        TerminateWith(Br(Test(e.value), onTrue, onFalse));
    }

    method LowerStatement(s: Stmt)
      modifies this
      ensures Around() == AfterStmt(old(Around()), s) && Made() == LowerStmt(old(Around()), old(Made()), s)
      decreases SizeOf(defers) + Size(s), 0, 0
    {
      match s
      case Do(e) =>
        LowerExpr(e.calls);
        EmitInstr(Act(e.value));
      case BlockStmt(body) => LowerStatements(body);
      case If(_, _, _) => LowerIfStatement(s);
      case While(_, _, _) => LowerWhileLoop(s);
      case Forever(_, _) => LowerForeverLoop(s);
      case For(_, _, _, _, _, _) => LowerForLoop(s);
      case Break(key) => LowerBreakOrContinue(key, true);
      case Continue(key) => LowerBreakOrContinue(key, false);
      case Return(e) =>
        LowerExpr(e.calls);
        EmitInstr(StoreResult(e.value));
        LowerDefers(0);
        TerminateWith(Ret(false));
        StartUnreachableBlock();
      case Defer(deferred) => defers := defers + [deferred];
      case Try(_, _, _) => LowerTryStatement(s);
      case Throw(e) =>
        LowerExpr(e.calls);
        EmitInstr(EvalError(e.value));
        LowerThrow();
    }

    // Looks for the loop from the innermost out
    method LowerBreakOrContinue(key: int, isBreak: bool)
      modifies this
      ensures Around() == old(Around()) && Made() == LowerJump(old(Around()), old(Made()), FindLoop(old(loops), key), isBreak)
      decreases SizeOf(defers), 7, 0
    {
      var i := |loops|;
      assert loops[..i] == loops;
      while i > 0
        invariant 0 <= i <= |loops| && unchanged(this) && FindLoop(loops, key) == FindLoop(loops[..i], key)
      {
        i := i - 1;
        assert loops[..i + 1][..i] == loops[..i];
        if loops[i].key == key {
          var target := loops[i];
          LowerDefers(target.deferCount);
          TerminateWith(Jmp(if isBreak then target.breakBlock else target.continueBlock));
          StartUnreachableBlock();
          return;
        }
      }
    }

    // A block takes its deferred statements off the stack again.
    method LowerStatements(body: Stmts)
      modifies this
      ensures Around() == old(Around()) && Made() == LowerBlock(old(Around()), old(Made()), body)
      decreases SizeOf(defers) + SizeAll(body), 9, 0
    {
      var base := |defers|;
      ghost var ctx := Around();
      var rest := body;
      while rest.Cons?
        invariant base <= |defers| && defers[..base] == ctx.defers && loops == ctx.loops && tries == ctx.tries
        invariant LowerBlock(ctx, old(Made()), body) == LowerList(Around(), base, Made(), rest)
        invariant SizeOf(defers) + SizeAll(rest) <= SizeOf(ctx.defers) + SizeAll(body)
        decreases rest
      {
        ghost var before := Around();
        SizeIsPositive(rest.head);
        LowerStatement(rest.head);
        if rest.head.Defer? {
          SizeOfPushed(before.defers, rest.head.deferred);
          assert Size(rest.head) == 1 + Size(rest.head.deferred);
        }
        rest := rest.tail;
      }
      LowerDefers(base);
      defers := defers[..base];
    }

    method LowerIfStatement(s: Stmt)
      requires s.If?
      modifies this
      ensures Around() == old(Around()) && Made() == LowerIf(old(Around()), old(Made()), s)
      decreases SizeOf(defers) + SizeAll(s.body) + SizeArms(s.rest) + 1, 11, 0
    {
      var done := CreateBlock();
      LowerChain(ElseIf(s.cond, s.body, s.rest), done);
      EnterBlock(done);
    }

    method LowerChain(arms: Arms, done: nat)
      modifies this
      ensures Around() == old(Around()) && Made() == LowerArms(old(Around()), old(Made()), arms, done)
      decreases SizeOf(defers) + SizeArms(arms), 10, 0
    {
      match arms
      case Else(body) =>
        LowerStatements(body);
        TerminateWith(Jmp(done));
      case ElseIf(cond, body, rest) =>
        var thenBlock := CreateBlock();
        var next := CreateBlock();
        LowerBranch(cond, thenBlock, next);
        EnterBlock(thenBlock);
        LowerStatements(body);
        TerminateWith(Jmp(done));
        EnterBlock(next);
        LowerChain(rest, done);
    }

    method PushLoopTargets(key: int, breakBlock: nat, continueBlock: nat)
      modifies this`loops
      ensures Around() == PushLoop(old(Around()), key, breakBlock, continueBlock)
    {
      loops := loops + [LoopTarget(key, breakBlock, continueBlock, |defers|)];
    }

    method PopLoop()
      requires |loops| > 0
      modifies this`loops
      ensures loops == old(loops)[..|old(loops)| - 1]
    {
      loops := loops[..|loops| - 1];
    }

    method LowerWhileLoop(s: Stmt)
      requires s.While?
      modifies this
      ensures Around() == old(Around()) && Made() == LowerWhile(old(Around()), old(Made()), s)
      decreases SizeOf(defers) + SizeAll(s.body), 10, 0
    {
      hide LowerCondition, LowerBlock, Terminate;
      var test := CreateBlock();
      var body := CreateBlock();
      var done := CreateBlock();
      TerminateWith(Jmp(test));
      EnterBlock(test);
      LowerBranch(s.cond, body, done);
      EnterBlock(body);
      PushLoopTargets(s.key, done, test);
      LowerStatements(s.body);
      PopLoop();
      TerminateWith(Jmp(test));
      EnterBlock(done);
    }

    method LowerForeverLoop(s: Stmt)
      requires s.Forever?
      modifies this
      ensures Around() == old(Around()) && Made() == LowerForever(old(Around()), old(Made()), s)
      decreases SizeOf(defers) + SizeAll(s.body), 10, 0
    {
      var test := CreateBlock();
      var body := CreateBlock();
      var post := CreateBlock();
      var done := CreateBlock();
      TerminateWith(Jmp(body));
      EnterBlock(body);
      PushLoopTargets(s.key, done, body);
      LowerStatements(s.body);
      PopLoop();
      TerminateWith(Jmp(body));
      EnterBlock(done);
    }

    method LowerForLoop(s: Stmt)
      requires s.For?
      modifies this
      ensures Around() == old(Around()) && Made() == LowerFor(old(Around()), old(Made()), s)
      decreases SizeOf(defers) + SizeAll(s.body), 12, 0
    {
      var test := CreateBlock();
      var body := CreateBlock();
      var post := CreateBlock();
      var done := CreateBlock();
      LowerExpr(s.init.calls);
      EmitInstr(Act(s.init.value));
      TerminateWith(Jmp(test));
      EnterBlock(test);
      LowerForRounds(s, test);
    }

    // The blocks for the body, the step and the end of a for follow the one of its test.
    method LowerForRounds(s: Stmt, test: nat)
      requires s.For?
      modifies this
      ensures Around() == old(Around()) && Made() == LowerRounds(old(Around()), old(Made()), test, s)
      decreases SizeOf(defers) + SizeAll(s.body), 11, 0
    {
      var body, post, done := test + 1, test + 2, test + 3;
      TerminateWith(Br(Test(s.test), body, done));
      EnterBlock(body);
      EmitInstr(Act(s.bind));
      PushLoopTargets(s.key, done, post);
      LowerStatements(s.body);
      PopLoop();
      TerminateWith(Jmp(post));
      EnterBlock(post);
      EmitInstr(Act(s.post));
      TerminateWith(Jmp(test));
      EnterBlock(done);
    }

    method LowerTryStatement(s: Stmt)
      requires s.Try?
      modifies this
      ensures Around() == old(Around()) && Made() == LowerTry(old(Around()), old(Made()), s)
      decreases SizeOf(defers) + SizeAll(s.body) + SizeAll(s.handler), 10, 0
    {
      var catch := CreateBlock();
      var done := CreateBlock();
      tries := tries + [TryTarget(catch, |defers|)];
      LowerStatements(s.body);
      tries := tries[..|tries| - 1];
      TerminateWith(Jmp(done));
      EnterBlock(catch);
      EmitInstr(CatchError(s.variable));
      LowerStatements(s.handler);
      TerminateWith(Jmp(done));
      EnterBlock(done);
    }
  }

  // The blocks of a function
  method LowerBody(body: Stmts) returns (blocks: seq<Block>)
    ensures blocks == LowerFunction(body)
  {
    var lowerer := new Lowerer();
    lowerer.LowerStatements(body);
    lowerer.TerminateWith(Ret(false));
    blocks := lowerer.blocks;
  }
}
