/** Lowering only adds: whatever statement is lowered, the blocks made before stay as they are, except for the current
    one, which gets more instructions and at most one terminator. */
module LoweringGrowth {
  import opened Options
  import opened Structured
  import opened ControlFlow
  import opened Lowering

  lemma {:induction false} DefersExtend(ctx: Context, c: Code, down: nat)
    requires c.Open()
    ensures Extends(c, EmitDefers(ctx, c, down)) && EmitDefers(ctx, c, down).Open()
    decreases SizeOf(ctx.defers), 1, |ctx.defers|
  {
    if |ctx.defers| > down {
      var next := LowerStmt(BelowTop(ctx), c, TopDefer(ctx));
      StmtExtends(BelowTop(ctx), c, TopDefer(ctx));
      DefersExtend(BelowTop(ctx), next, down);
      ExtendsTrans(c, next, EmitDefers(BelowTop(ctx), next, down));
    }
  }

  lemma ParkExtends(c: Code)
    requires c.Open()
    ensures Extends(c, ParkError(c)) && ParkError(c).Open()
  {
    var taken := c.(slots := c.slots + 1);
    var parked := Emit(taken, Park(c.slots));
    ExtendsEmit(taken, Park(c.slots));
    ExtendsEmit(parked, ClearThrown);
    ExtendsTrans(taken, parked, ParkError(c));
  }

  lemma {:induction false} DefersWhileThrowingExtend(ctx: Context, c: Code, down: nat)
    requires c.Open()
    ensures Extends(c, EmitDefersWhileThrowing(ctx, c, down)) && EmitDefersWhileThrowing(ctx, c, down).Open()
    decreases SizeOf(ctx.defers), 2, 0
  {
    if |ctx.defers| > down {
      var parked := ParkError(c);
      var ran := EmitDefers(ctx, parked, down);
      ParkExtends(c);
      DefersExtend(ctx, parked, down);
      ExtendsEmit(ran, Unpark(c.slots));
      ExtendsTrans(c, parked, ran);
      ExtendsTrans(c, ran, Emit(ran, Unpark(c.slots)));
    }
  }

  lemma {:induction false} UnwindExtends(ctx: Context, c: Code)
    requires c.Open()
    ensures Extends(c, EmitUnwind(ctx, c))
    decreases SizeOf(ctx.defers), 3, 0
  {
    var down := if |ctx.tries| > 0 then ctx.tries[|ctx.tries| - 1].deferCount else 0;
    var t := if |ctx.tries| > 0 then Jmp(ctx.tries[|ctx.tries| - 1].catchBlock) else Ret(true);
    var ran := EmitDefersWhileThrowing(ctx, c, down);
    DefersWhileThrowingExtend(ctx, c, down);
    ExtendsTerminate(ran, t);
    ExtendsTrans(c, ran, Terminate(ran, t));
  }

  // Two new blocks
  lemma CreateTwice(c: Code)
    requires c.Open()
    ensures Extends(c, Create(Create(c))) && Create(Create(c)).Open() && Create(Create(c)).Here() == c.Here()
    ensures |Create(Create(c)).blocks| == |c.blocks| + 2
    ensures Create(Create(c)).blocks[|c.blocks|] == Create(Create(c)).blocks[|c.blocks| + 1] == Block([], NoTerm)
  {
    ExtendsCreate(c);
    ExtendsCreate(Create(c));
    ExtendsTrans(c, Create(c), Create(Create(c)));
  }

  // The blocks for throwing on and for going on are still empty after the branch to them.
  ghost predicate Branched(c: Code, branched: Code, throwing: nat, goOn: nat) {
    && Extends(c, branched) && throwing < |branched.blocks| && goOn < |branched.blocks|
    && throwing != goOn && |c.blocks| <= throwing && |c.blocks| <= goOn
    && branched.blocks[throwing] == branched.blocks[goOn] == Block([], NoTerm)
  }

  lemma BranchOnThrowExtends(c: Code, confirm: bool)
    requires c.Open()
    ensures Branched(c, BranchOnThrow(c, confirm), |c.blocks|, |c.blocks| + 1)
  {
    var made := Create(Create(c));
    CreateTwice(c);
    if confirm {
      var check := |c.blocks| + 2;
      var more := Create(made);
      ExtendsCreate(made);
      ExtendsTrans(c, made, more);
      var tested := Terminate(more, Br(FlagIsSet, check, |c.blocks| + 1));
      ExtendsTerminate(more, Br(FlagIsSet, check, |c.blocks| + 1));
      ExtendsTrans(c, more, tested);
      var checking := SetBlock(tested, check);
      ExtendsSetBlock(c, tested, check);
      ExtendsTerminate(checking, Br(ThrownIsSet, |c.blocks|, |c.blocks| + 1));
      ExtendsTrans(c, checking, BranchOnThrow(c, confirm));
    } else {
      ExtendsTerminate(made, Br(FlagIsSet, |c.blocks|, |c.blocks| + 1));
      ExtendsTrans(c, made, BranchOnThrow(c, confirm));
    }
  }

  lemma {:induction false} ThrowCheckExtends(ctx: Context, c: Code, confirm: bool)
    requires c.Open()
    ensures Extends(c, EmitThrowCheck(ctx, c, confirm)) && EmitThrowCheck(ctx, c, confirm).Open()
    decreases SizeOf(ctx.defers), 4, 0
  {
    var throwing := SetBlock(BranchOnThrow(c, confirm), |c.blocks|);
    BranchOnThrowExtends(c, confirm);
    ExtendsSetBlock(c, BranchOnThrow(c, confirm), |c.blocks|);
    var unwound := EmitUnwind(ctx, throwing);
    UnwindExtends(ctx, throwing);
    ExtendsTrans(c, throwing, unwound);
    ExtendsSetBlock(c, unwound, |c.blocks| + 1);
  }

  // In the block that throws, thrownError is stored.
  lemma BranchOnErrorExtends(c: Code)
    requires c.Open()
    ensures Extends(c, BranchOnError(c)) && BranchOnError(c).Open()
    ensures |c.blocks| + 1 < |BranchOnError(c).blocks| && BranchOnError(c).cur == |c.blocks|
    ensures BranchOnError(c).blocks[|c.blocks| + 1] == Block([], NoTerm)
    ensures Grew(Terminate(Create(Create(c)), Br(ErrorIsSet, |c.blocks|, |c.blocks| + 1)).blocks, BranchOnError(c).blocks)
  {
    var made := Create(Create(c));
    CreateTwice(c);
    var t := Br(ErrorIsSet, |c.blocks|, |c.blocks| + 1);
    var tested := Terminate(made, t);
    ExtendsTerminate(made, t);
    ExtendsTrans(c, made, tested);
    var throwing := SetBlock(tested, |c.blocks|);
    ExtendsSetBlock(c, tested, |c.blocks|);
    ExtendsEmit(throwing, StoreThrown);
    ExtendsTrans(c, throwing, BranchOnError(c));
  }

  lemma {:induction false} ThrowExtends(ctx: Context, c: Code)
    requires c.Open()
    ensures Extends(c, EmitThrow(ctx, c)) && EmitThrow(ctx, c).Open()
    decreases SizeOf(ctx.defers), 4, 0
  {
    var throwing := BranchOnError(c);
    BranchOnErrorExtends(c);
    var unwound := EmitUnwind(ctx, throwing);
    UnwindExtends(ctx, throwing);
    ExtendsTrans(c, throwing, unwound);
    ExtendsSetBlock(c, unwound, |c.blocks| + 1);
  }

  lemma {:induction false} CallExtends(ctx: Context, c: Code, call: CallSite)
    requires c.Open()
    ensures Extends(c, LowerCall(ctx, c, call)) && LowerCall(ctx, c, call).Open()
    decreases SizeOf(ctx.defers), 5, 0
  {
    var called := Emit(c, CallInstr(call));
    ExtendsEmit(c, CallInstr(call));
    var checked := EmitThrowCheck(ctx, called, call.confirm);
    ThrowCheckExtends(ctx, called, call.confirm);
    ExtendsTrans(c, called, checked);
    if call.throwsResult {
      var loaded := Emit(checked, LoadErrorResult(call));
      ExtendsEmit(checked, LoadErrorResult(call));
      ExtendsTrans(c, checked, loaded);
      ThrowExtends(ctx, loaded);
      ExtendsTrans(c, loaded, EmitThrow(ctx, loaded));
    }
  }

  lemma {:induction false} CallsExtend(ctx: Context, c: Code, calls: seq<CallSite>)
    requires c.Open()
    ensures Extends(c, LowerCalls(ctx, c, calls)) && LowerCalls(ctx, c, calls).Open()
    decreases SizeOf(ctx.defers), 6, |calls|
  {
    if |calls| > 0 {
      var one := LowerCall(ctx, c, calls[0]);
      CallExtends(ctx, c, calls[0]);
      CallsExtend(ctx, one, calls[1..]);
      ExtendsTrans(c, one, LowerCalls(ctx, one, calls[1..]));
    }
  }

  lemma {:induction false} ExprExtends(ctx: Context, c: Code, calls: seq<CallSite>, i: Instr)
    requires c.Open()
    ensures Extends(c, Emit(LowerCalls(ctx, c, calls), i)) && Emit(LowerCalls(ctx, c, calls), i).Open()
    decreases SizeOf(ctx.defers), 7, 0
  {
    var called := LowerCalls(ctx, c, calls);
    CallsExtend(ctx, c, calls);
    ExtendsEmit(called, i);
    ExtendsTrans(c, called, Emit(called, i));
  }

  lemma {:induction false} ConditionExtends(ctx: Context, c: Code, cond: Cond, onTrue: nat, onFalse: nat)
    requires c.Open()
    ensures Extends(c, LowerCondition(ctx, c, cond, onTrue, onFalse))
    decreases SizeOf(ctx.defers), 7, cond, 1
  {
    match cond
    case Atom(e) =>
      var called := LowerCalls(ctx, c, e.calls);
      CallsExtend(ctx, c, e.calls);
      ExtendsTerminate(called, Br(Test(e.value), onTrue, onFalse));
      ExtendsTrans(c, called, Terminate(called, Br(Test(e.value), onTrue, onFalse)));
    case Not(operand) => ConditionExtends(ctx, c, operand, onFalse, onTrue);
    case And(_, _) => TwoConditionsExtend(ctx, c, cond, onTrue, onFalse);
    case Or(_, _) => TwoConditionsExtend(ctx, c, cond, onTrue, onFalse);
  }

  // The left operand of a condition, with the block of the right one as one of its targets
  function LeftOperand(ctx: Context, c: Code, cond: Cond, onTrue: nat, onFalse: nat): Code
    requires cond.And? || cond.Or?
  {
    if cond.And? then LowerCondition(ctx, Create(c), cond.left, |c.blocks|, onFalse)
    else LowerCondition(ctx, Create(c), cond.left, onTrue, |c.blocks|)
  }

  // The left operand, and then the right one in the block made for it
  lemma {:induction false} TwoConditionsExtend(ctx: Context, c: Code, cond: Cond, onTrue: nat, onFalse: nat)
    requires c.Open() && (cond.And? || cond.Or?)
    ensures var l := LeftOperand(ctx, c, cond, onTrue, onFalse);
            && Extends(Create(c), l) && |c.blocks| < |l.blocks|
            && SetBlock(l, |c.blocks|).Open() && SetBlock(l, |c.blocks|).Here() == Place(|c.blocks|, 0)
            && Extends(SetBlock(l, |c.blocks|), LowerCondition(ctx, c, cond, onTrue, onFalse))
            && Extends(c, LowerCondition(ctx, c, cond, onTrue, onFalse))
    decreases SizeOf(ctx.defers), 7, cond, 0
  {
    ExtendsCreate(c);
    var l := LeftOperand(ctx, c, cond, onTrue, onFalse);
    if cond.And? {
      ConditionExtends(ctx, Create(c), cond.left, |c.blocks|, onFalse);
    } else {
      ConditionExtends(ctx, Create(c), cond.left, onTrue, |c.blocks|);
    }
    ExtendsTrans(c, Create(c), l);
    ExtendsSetBlock(c, l, |c.blocks|);
    ConditionExtends(ctx, SetBlock(l, |c.blocks|), cond.right, onTrue, onFalse);
    ExtendsTrans(c, SetBlock(l, |c.blocks|), LowerCondition(ctx, c, cond, onTrue, onFalse));
  }

  // ---------------------------------------------------------------------------------------
  // Statements
  // ---------------------------------------------------------------------------------------

  lemma {:induction false} StmtExtends(ctx: Context, c: Code, s: Stmt)
    requires c.Open()
    ensures Extends(c, LowerStmt(ctx, c, s)) && LowerStmt(ctx, c, s).Open()
    decreases SizeOf(ctx.defers) + Size(s), 0, 0
  {
    match s
    case Do(e) => ExprExtends(ctx, c, e.calls, Act(e.value));
    case BlockStmt(body) => BlockExtends(ctx, c, body);
    case If(cond, body, rest) => IfExtends(ctx, c, s);
    case While(_, _, _) => WhileExtends(ctx, c, s);
    case Forever(_, _) => ForeverExtends(ctx, c, s);
    case For(_, _, _, _, _, _) => ForExtends(ctx, c, s);
    case Break(key) => JumpExtends(ctx, c, FindLoop(ctx.loops, key), true);
    case Continue(key) => JumpExtends(ctx, c, FindLoop(ctx.loops, key), false);
    case Return(e) =>
      var stored := Emit(LowerCalls(ctx, c, e.calls), StoreResult(e.value));
      ExprExtends(ctx, c, e.calls, StoreResult(e.value));
      LeaveExtends(ctx, stored, 0, Ret(false));
      ExtendsTrans(c, stored, LowerStmt(ctx, c, s));
    case Defer(_) =>
    case Try(_, _, _) => TryExtends(ctx, c, s);
    case Throw(e) =>
      var evaluated := Emit(LowerCalls(ctx, c, e.calls), EvalError(e.value));
      ExprExtends(ctx, c, e.calls, EvalError(e.value));
      ThrowExtends(ctx, evaluated);
      ExtendsTrans(c, evaluated, EmitThrow(ctx, evaluated));
  }

  // The deferred statements on a way out, and the terminator that leaves
  lemma {:induction false} LeaveExtends(ctx: Context, c: Code, down: nat, t: Term)
    requires c.Open()
    ensures var left := StartUnreachable(Terminate(EmitDefers(ctx, c, down), t));
            Extends(c, left) && left.Open() && Grew(Terminate(EmitDefers(ctx, c, down), t).blocks, left.blocks)
    decreases SizeOf(ctx.defers), 2, 0
  {
    var ran := EmitDefers(ctx, c, down);
    DefersExtend(ctx, c, down);
    ExtendsTerminate(ran, t);
    ExtendsTrans(c, ran, Terminate(ran, t));
    ExtendsUnreachable(c, Terminate(ran, t));
  }

  lemma {:induction false} JumpExtends(ctx: Context, c: Code, target: Option<LoopTarget>, isBreak: bool)
    requires c.Open()
    ensures Extends(c, LowerJump(ctx, c, target, isBreak)) && LowerJump(ctx, c, target, isBreak).Open()
    decreases SizeOf(ctx.defers), 5, 0
  {
    if target.Some? {
      LeaveExtends(ctx, c, target.value.deferCount, Jmp(if isBreak then target.value.breakBlock else target.value.continueBlock));
    }
  }

  lemma {:induction false} BlockExtends(ctx: Context, c: Code, body: Stmts)
    requires c.Open()
    ensures Extends(c, LowerBlock(ctx, c, body)) && LowerBlock(ctx, c, body).Open()
    decreases SizeOf(ctx.defers) + SizeAll(body), 9, 0
  {
    ListExtends(ctx, |ctx.defers|, c, body);
  }

  lemma {:induction false} ListExtends(ctx: Context, base: nat, c: Code, stmts: Stmts)
    requires c.Open()
    ensures Extends(c, LowerList(ctx, base, c, stmts)) && LowerList(ctx, base, c, stmts).Open()
    decreases SizeOf(ctx.defers) + SizeAll(stmts), 8, 0
  {
    match stmts
    case Nil => DefersExtend(ctx, c, base);
    case Cons(head, tail) =>
      if head.Defer? {
        SizeOfPushed(ctx.defers, head.deferred);
        assert Size(head) == 1 + Size(head.deferred);
        ListExtends(PushDefer(ctx, head.deferred), base, c, tail);
      } else {
        SizeIsPositive(head);
        var one := LowerStmt(ctx, c, head);
        StmtExtends(ctx, c, head);
        ListExtends(ctx, base, one, tail);
        ExtendsTrans(c, one, LowerList(ctx, base, one, tail));
      }
  }

  // A block that is lowered in a new block of a, and then leads to target
  lemma {:induction false} BodyExtends(ctx: Context, a: Code, c: Code, body: Stmts, target: nat)
    requires c.Open() && Extends(a, c)
    ensures var bodied := Terminate(LowerBlock(ctx, c, body), Jmp(target));
            && LowerBlock(ctx, c, body).Open() && Extends(c, LowerBlock(ctx, c, body))
            && Extends(LowerBlock(ctx, c, body), bodied) && Extends(c, bodied) && Extends(a, bodied)
    decreases SizeOf(ctx.defers) + SizeAll(body), 10, 0
  {
    var lowered := LowerBlock(ctx, c, body);
    BlockExtends(ctx, c, body);
    ExtendsTerminate(lowered, Jmp(target));
    ExtendsTrans(c, lowered, Terminate(lowered, Jmp(target)));
    ExtendsTrans(a, c, Terminate(lowered, Jmp(target)));
  }

  lemma {:induction false} ArmsExtend(ctx: Context, c: Code, arms: Arms, done: nat)
    requires c.Open()
    ensures Extends(c, LowerArms(ctx, c, arms, done))
    decreases SizeOf(ctx.defers) + SizeArms(arms), 11, 1
  {
    match arms
    case Else(body) =>
      BodyExtends(ctx, c, c, body, done);
    case ElseIf(_, _, _) =>
      var tested, inBody, lowered, next := ArmParts(ctx, c, arms, done);
  }

  // A tested way of an if chain: its blocks are empty when they are entered.
  lemma {:induction false} ArmParts(ctx: Context, c: Code, arms: Arms, done: nat)
    returns (tested: Code, inBody: Code, lowered: Code, next: Code)
    requires c.Open() && arms.ElseIf?
    ensures tested == LowerCondition(ctx, Create(Create(c)), arms.cond, |c.blocks|, |c.blocks| + 1) && Extends(c, tested)
    ensures inBody == SetBlock(tested, |c.blocks|) && inBody.Open() && inBody.Here() == Place(|c.blocks|, 0)
    ensures lowered == LowerBlock(ctx, inBody, arms.body) && lowered.Open() && Extends(inBody, lowered)
    ensures next == SetBlock(Terminate(lowered, Jmp(done)), |c.blocks| + 1) && Grew(lowered.blocks, next.blocks)
    ensures next.Open() && next.Here() == Place(|c.blocks| + 1, 0) && Extends(c, next)
    ensures LowerArms(ctx, c, arms, done) == LowerArms(ctx, next, arms.rest, done)
    ensures Extends(next, LowerArms(ctx, c, arms, done)) && Extends(c, LowerArms(ctx, c, arms, done))
    decreases SizeOf(ctx.defers) + SizeArms(arms), 11, 0
  {
    var made := Create(Create(c));
    CreateTwice(c);
    tested := LowerCondition(ctx, made, arms.cond, |c.blocks|, |c.blocks| + 1);
    ConditionExtends(ctx, made, arms.cond, |c.blocks|, |c.blocks| + 1);
    ExtendsTrans(c, made, tested);
    inBody := SetBlock(tested, |c.blocks|);
    ExtendsSetBlock(c, tested, |c.blocks|);
    lowered := LowerBlock(ctx, inBody, arms.body);
    BodyExtends(ctx, c, inBody, arms.body, done);
    next := SetBlock(Terminate(lowered, Jmp(done)), |c.blocks| + 1);
    ExtendsSetBlock(c, Terminate(lowered, Jmp(done)), |c.blocks| + 1);
    ArmsExtend(ctx, next, arms.rest, done);
    ExtendsTrans(c, next, LowerArms(ctx, next, arms.rest, done));
  }

  lemma {:induction false} IfExtends(ctx: Context, c: Code, s: Stmt)
    requires c.Open() && s.If?
    ensures var arms := LowerArms(ctx, Create(c), ElseIf(s.cond, s.body, s.rest), |c.blocks|);
            Extends(Create(c), arms) && Extends(c, arms)
    ensures Extends(c, LowerIf(ctx, c, s)) && LowerIf(ctx, c, s).Open() && LowerIf(ctx, c, s).Here() == Place(|c.blocks|, 0)
    decreases SizeOf(ctx.defers) + SizeAll(s.body) + SizeArms(s.rest) + 1, 12, 0
  {
    var arms := ElseIf(s.cond, s.body, s.rest);
    var lowered := LowerArms(ctx, Create(c), arms, |c.blocks|);
    ExtendsCreate(c);
    ArmsExtend(ctx, Create(c), arms, |c.blocks|);
    ExtendsTrans(c, Create(c), lowered);
    ExtendsSetBlock(c, lowered, |c.blocks|);
  }

  // Going on in one of the new blocks, which is empty
  lemma CreateMore(c: Code, n: nat)
    requires c.Open() && n in {3, 4}
    ensures var made := if n == 3 then Create(Create(Create(c))) else Create(Create(Create(Create(c))));
            && Extends(c, made) && made.Open() && made.Here() == c.Here() && |made.blocks| == |c.blocks| + n
            && forall i :: |c.blocks| <= i < |made.blocks| ==> made.blocks[i] == Block([], NoTerm)
  {
    var two := Create(Create(c));
    CreateTwice(c);
    ExtendsCreate(two);
    ExtendsTrans(c, two, Create(two));
    if n == 4 {
      ExtendsCreate(Create(two));
      ExtendsTrans(c, Create(two), Create(Create(two)));
    }
  }

  // Leaving the current block for a new one
  lemma EnterNew(a: Code, c: Code, t: Term, block: nat)
    requires c.Open() && Extends(a, c) && |a.blocks| <= block < |c.blocks| && block != c.cur && c.blocks[block] == Block([], NoTerm)
    ensures var entered := SetBlock(Terminate(c, t), block);
            Extends(a, entered) && entered.Open() && entered.Here() == Place(block, 0) && Grew(c.blocks, entered.blocks)
  {
    ExtendsTerminate(c, t);
    ExtendsTrans(a, c, Terminate(c, t));
    ExtendsSetBlock(a, Terminate(c, t), block);
  }

  lemma {:induction false} WhileParts(ctx: Context, c: Code, s: Stmt)
    returns (made: Code, entered: Code, tested: Code, inBody: Code, lowered: Code)
    requires c.Open() && s.While?
    ensures made == Create(Create(Create(c))) && made.Open() && made.Here() == c.Here()
    ensures entered == SetBlock(Terminate(made, Jmp(|c.blocks|)), |c.blocks|) && entered.Open() && entered.Here() == Place(|c.blocks|, 0)
    ensures tested == LowerCondition(ctx, entered, s.cond, |c.blocks| + 1, |c.blocks| + 2) && Extends(entered, tested)
    ensures inBody == SetBlock(tested, |c.blocks| + 1) && inBody.Open() && inBody.Here() == Place(|c.blocks| + 1, 0)
    ensures lowered == LowerBlock(PushLoop(ctx, s.key, |c.blocks| + 2, |c.blocks|), inBody, s.body) && lowered.Open() && Extends(inBody, lowered)
    ensures LowerWhile(ctx, c, s) == SetBlock(Terminate(lowered, Jmp(|c.blocks|)), |c.blocks| + 2)
    ensures LowerWhile(ctx, c, s).Open() && LowerWhile(ctx, c, s).Here() == Place(|c.blocks| + 2, 0)
    ensures Grew(lowered.blocks, LowerWhile(ctx, c, s).blocks) && Extends(c, LowerWhile(ctx, c, s))
    ensures c.slots <= entered.slots
    decreases SizeOf(ctx.defers) + SizeAll(s.body), 11, 0
  {
    var test, body, done := |c.blocks|, |c.blocks| + 1, |c.blocks| + 2;
    made := Create(Create(Create(c)));
    CreateMore(c, 3);
    entered := SetBlock(Terminate(made, Jmp(test)), test);
    EnterNew(c, made, Jmp(test), test);
    tested := LowerCondition(ctx, entered, s.cond, body, done);
    ConditionExtends(ctx, entered, s.cond, body, done);
    ExtendsTrans(c, entered, tested);
    inBody := SetBlock(tested, body);
    ExtendsSetBlock(c, tested, body);
    lowered := LowerBlock(PushLoop(ctx, s.key, done, test), inBody, s.body);
    BlockExtends(PushLoop(ctx, s.key, done, test), inBody, s.body);
    ExtendsTrans(c, inBody, lowered);
    EnterNew(c, lowered, Jmp(test), done);
  }

  lemma {:induction false} ForeverParts(ctx: Context, c: Code, s: Stmt) returns (made: Code, entered: Code, lowered: Code)
    requires c.Open() && s.Forever?
    ensures made == Create(Create(Create(Create(c)))) && made.Open() && made.Here() == c.Here()
    ensures entered == SetBlock(Terminate(made, Jmp(|c.blocks| + 1)), |c.blocks| + 1)
    ensures entered.Open() && entered.Here() == Place(|c.blocks| + 1, 0)
    ensures lowered == LowerBlock(PushLoop(ctx, s.key, |c.blocks| + 3, |c.blocks| + 1), entered, s.body) && lowered.Open() && Extends(entered, lowered)
    ensures LowerForever(ctx, c, s) == SetBlock(Terminate(lowered, Jmp(|c.blocks| + 1)), |c.blocks| + 3)
    ensures LowerForever(ctx, c, s).Open() && LowerForever(ctx, c, s).Here() == Place(|c.blocks| + 3, 0)
    ensures Grew(lowered.blocks, LowerForever(ctx, c, s).blocks) && Extends(c, LowerForever(ctx, c, s))
    ensures c.slots <= entered.slots
    decreases SizeOf(ctx.defers) + SizeAll(s.body), 11, 0
  {
    var body, done := |c.blocks| + 1, |c.blocks| + 3;
    made := Create(Create(Create(Create(c))));
    CreateMore(c, 4);
    entered := SetBlock(Terminate(made, Jmp(body)), body);
    EnterNew(c, made, Jmp(body), body);
    lowered := LowerBlock(PushLoop(ctx, s.key, done, body), entered, s.body);
    BlockExtends(PushLoop(ctx, s.key, done, body), entered, s.body);
    ExtendsTrans(c, entered, lowered);
    EnterNew(c, lowered, Jmp(body), done);
  }

  // The init of a for
  lemma {:induction false} EnterForParts(ctx: Context, c: Code, init: Expr) returns (made: Code, started: Code, entered: Code)
    requires c.Open()
    ensures made == Create(Create(Create(Create(c)))) && made.Open() && made.Here() == c.Here() && made.slots == c.slots
    ensures started == Emit(LowerCalls(ctx, made, init.calls), Act(init.value)) && started.Open() && Extends(made, started)
    ensures entered == EnterFor(ctx, c, init) == SetBlock(Terminate(started, Jmp(|c.blocks|)), |c.blocks|)
    ensures entered.Open() && entered.Here() == Place(|c.blocks|, 0) && Extends(c, entered) && Grew(started.blocks, entered.blocks)
    ensures |c.blocks| + 3 < |entered.blocks| && entered.blocks[|c.blocks| + 1] == Block([], NoTerm)
    ensures entered.blocks[|c.blocks| + 2] == entered.blocks[|c.blocks| + 3] == Block([], NoTerm)
    decreases SizeOf(ctx.defers), 11, 0
  {
    made := Create(Create(Create(Create(c))));
    CreateMore(c, 4);
    started := Emit(LowerCalls(ctx, made, init.calls), Act(init.value));
    ExprExtends(ctx, made, init.calls, Act(init.value));
    ExtendsTrans(c, made, started);
    entered := SetBlock(Terminate(started, Jmp(|c.blocks|)), |c.blocks|);
    EnterNew(c, started, Jmp(|c.blocks|), |c.blocks|);
  }

  lemma {:induction false} EnterForExtends(ctx: Context, c: Code, init: Expr) returns (entered: Code)
    requires c.Open()
    ensures entered == EnterFor(ctx, c, init) && entered.Open() && entered.Here() == Place(|c.blocks|, 0) && Extends(c, entered)
    ensures |c.blocks| + 3 < |entered.blocks| && entered.blocks[|c.blocks| + 1] == Block([], NoTerm)
    ensures entered.blocks[|c.blocks| + 2] == entered.blocks[|c.blocks| + 3] == Block([], NoTerm)
    decreases SizeOf(ctx.defers), 12, 0
  {
    var made, started, e := EnterForParts(ctx, c, init);
    entered := e;
  }

  // The test of a for, and the entry of its body
  lemma ForTestParts(c: Code, entered: Code, test: int, bind: int) returns (inBody: Code, bound: Code)
    requires entered.Open() && entered.cur == |c.blocks| && Extends(c, entered)
    requires |c.blocks| + 3 < |entered.blocks| && entered.blocks[|c.blocks| + 1] == Block([], NoTerm)
    requires entered.blocks[|c.blocks| + 2] == entered.blocks[|c.blocks| + 3] == Block([], NoTerm)
    ensures inBody == SetBlock(Terminate(entered, Br(Test(test), |c.blocks| + 1, |c.blocks| + 3)), |c.blocks| + 1)
    ensures inBody.Open() && inBody.Here() == Place(|c.blocks| + 1, 0) && Grew(entered.blocks, inBody.blocks)
    ensures bound == Emit(inBody, Act(bind)) && bound.Open() && Extends(c, bound) && bound.cur == |c.blocks| + 1
    ensures |c.blocks| + 3 < |bound.blocks| && bound.slots == entered.slots && Grew(inBody.blocks, bound.blocks)
    ensures bound.blocks[|c.blocks| + 2] == bound.blocks[|c.blocks| + 3] == Block([], NoTerm)
  {
    var t := Br(Test(test), |c.blocks| + 1, |c.blocks| + 3);
    inBody := SetBlock(Terminate(entered, t), |c.blocks| + 1);
    EnterNew(c, entered, t, |c.blocks| + 1);
    bound := Emit(inBody, Act(bind));
    ExtendsEmit(inBody, Act(bind));
    ExtendsTrans(c, inBody, bound);
  }

  // The body of a for, and its step
  lemma {:induction false} ForEndParts(ctx: Context, c: Code, s: Stmt, entered: Code, bound: Code) returns (lowered: Code, inPost: Code, stepped: Code)
    requires s.For? && entered.Open() && bound.Open() && Extends(c, bound) && bound.cur == |c.blocks| + 1
    requires |c.blocks| + 3 < |bound.blocks| && bound.blocks[|c.blocks| + 2] == bound.blocks[|c.blocks| + 3] == Block([], NoTerm)
    requires bound == Emit(SetBlock(Terminate(entered, Br(Test(s.test), |c.blocks| + 1, |c.blocks| + 3)), |c.blocks| + 1), Act(s.bind))
    ensures lowered == LowerBlock(PushLoop(ctx, s.key, |c.blocks| + 3, |c.blocks| + 2), bound, s.body) && lowered.Open() && Extends(bound, lowered)
    ensures inPost == SetBlock(Terminate(lowered, Jmp(|c.blocks| + 2)), |c.blocks| + 2) && inPost.Open() && inPost.Here() == Place(|c.blocks| + 2, 0)
    ensures stepped == Emit(inPost, Act(s.post)) && stepped.Open()
    ensures Grew(lowered.blocks, inPost.blocks) && Grew(inPost.blocks, stepped.blocks)
    ensures var end := LowerRounds(ctx, entered, |c.blocks|, s);
            && end == SetBlock(Terminate(stepped, Jmp(|c.blocks|)), |c.blocks| + 3)
            && end.Open() && end.Here() == Place(|c.blocks| + 3, 0) && Extends(c, end) && Grew(stepped.blocks, end.blocks)
    decreases SizeOf(ctx.defers) + SizeAll(s.body), 11, 0
  {
    var test, post, done := |c.blocks|, |c.blocks| + 2, |c.blocks| + 3;
    lowered := LowerBlock(PushLoop(ctx, s.key, done, post), bound, s.body);
    BlockExtends(PushLoop(ctx, s.key, done, post), bound, s.body);
    ExtendsTrans(c, bound, lowered);
    inPost := SetBlock(Terminate(lowered, Jmp(post)), post);
    EnterNew(c, lowered, Jmp(post), post);
    stepped := Emit(inPost, Act(s.post));
    ExtendsEmit(inPost, Act(s.post));
    ExtendsTrans(c, inPost, stepped);
    EnterNew(c, stepped, Jmp(test), done);
  }

  lemma {:induction false} TryParts(ctx: Context, c: Code, s: Stmt)
    returns (made: Code, lowered: Code, inCatch: Code, caught: Code, handled: Code)
    requires c.Open() && s.Try?
    ensures made == Create(Create(c)) && made.Open() && made.Here() == c.Here() && made.slots == c.slots
    ensures lowered == LowerBlock(PushTry(ctx, |c.blocks|), made, s.body) && lowered.Open() && Extends(made, lowered)
    ensures inCatch == SetBlock(Terminate(lowered, Jmp(|c.blocks| + 1)), |c.blocks|) && inCatch.Open() && inCatch.Here() == Place(|c.blocks|, 0)
    ensures caught == Emit(inCatch, CatchError(s.variable)) && caught.Open()
    ensures handled == LowerBlock(ctx, caught, s.handler) && handled.Open() && Extends(caught, handled)
    ensures LowerTry(ctx, c, s) == SetBlock(Terminate(handled, Jmp(|c.blocks| + 1)), |c.blocks| + 1)
    ensures LowerTry(ctx, c, s).Open() && LowerTry(ctx, c, s).Here() == Place(|c.blocks| + 1, 0) && Extends(c, LowerTry(ctx, c, s))
    ensures Grew(lowered.blocks, inCatch.blocks) && Grew(inCatch.blocks, caught.blocks) && Grew(handled.blocks, LowerTry(ctx, c, s).blocks)
    ensures c.slots <= caught.slots
    decreases SizeOf(ctx.defers) + SizeAll(s.body) + SizeAll(s.handler), 11, 0
  {
    var catch, done := |c.blocks|, |c.blocks| + 1;
    made := Create(Create(c));
    CreateTwice(c);
    lowered := LowerBlock(PushTry(ctx, catch), made, s.body);
    BlockExtends(PushTry(ctx, catch), made, s.body);
    ExtendsTrans(c, made, lowered);
    inCatch := SetBlock(Terminate(lowered, Jmp(done)), catch);
    EnterNew(c, lowered, Jmp(done), catch);
    caught := Emit(inCatch, CatchError(s.variable));
    ExtendsEmit(inCatch, CatchError(s.variable));
    ExtendsTrans(c, inCatch, caught);
    handled := LowerBlock(ctx, caught, s.handler);
    BlockExtends(ctx, caught, s.handler);
    ExtendsTrans(c, caught, handled);
    EnterNew(c, handled, Jmp(done), done);
  }

  lemma {:induction false} WhileExtends(ctx: Context, c: Code, s: Stmt)
    requires c.Open() && s.While?
    ensures Extends(c, LowerWhile(ctx, c, s)) && LowerWhile(ctx, c, s).Open()
    decreases SizeOf(ctx.defers) + SizeAll(s.body), 12, 0
  {
    var made, entered, tested, inBody, lowered := WhileParts(ctx, c, s);
  }

  lemma {:induction false} ForeverExtends(ctx: Context, c: Code, s: Stmt)
    requires c.Open() && s.Forever?
    ensures Extends(c, LowerForever(ctx, c, s)) && LowerForever(ctx, c, s).Open()
    decreases SizeOf(ctx.defers) + SizeAll(s.body), 12, 0
  {
    var made, entered, lowered := ForeverParts(ctx, c, s);
  }

  lemma {:induction false} ForExtends(ctx: Context, c: Code, s: Stmt)
    requires c.Open() && s.For?
    ensures Extends(c, LowerFor(ctx, c, s)) && LowerFor(ctx, c, s).Open()
    decreases SizeOf(ctx.defers) + SizeAll(s.body), 13, 0
  {
    var entered := EnterForExtends(ctx, c, s.init);
    var inBody, bound := ForTestParts(c, entered, s.test, s.bind);
    var lowered, inPost, stepped := ForEndParts(ctx, c, s, entered, bound);
  }

  lemma {:induction false} TryExtends(ctx: Context, c: Code, s: Stmt)
    requires c.Open() && s.Try?
    ensures Extends(c, LowerTry(ctx, c, s)) && LowerTry(ctx, c, s).Open()
    decreases SizeOf(ctx.defers) + SizeAll(s.body) + SizeAll(s.handler), 12, 0
  {
    var made, lowered, inCatch, caught, handled := TryParts(ctx, c, s);
  }

}
