/** Lowering keeps the meaning of statements: run from where a statement was lowered, the blocks do what the statement
    does, and go where its outcome leads, after the deferred statements on that way, the last one first. */
module LoweringCorrect {
  import opened Options
  import opened Structured
  import opened ControlFlow
  import opened Lowering
  import opened LoweringGrowth

  // The meaning of actions, the blocks of the finished function, and the limit on the rounds of loops
  datatype Setting = Setting(env: Meaning, g: seq<Block>, limit: nat)

  function Above(defers: seq<Stmt>, down: nat): seq<Stmt> {
    if down <= |defers| then defers[down..] else []
  }

  // A way out of a statement: down to which deferred statement it runs them, and where it goes then
  datatype Way = ToBlock(down: nat, block: nat) | ToCaller(threw: bool) | Nowhere {
    function Down(): nat {
      if ToBlock? then down else 0
    }

    function End(m: Mem): State {
      match this
      case ToBlock(_, block) => At(Place(block, 0), m)
      case ToCaller(threw) => Done(threw, m)
      case Nowhere => Lost
    }
  }

  function WayOut(ctx: Context, out: Outcome): Way {
    match out
    case BreakTo(key) =>
      var t := FindLoop(ctx.loops, key);
      if t.Some? then ToBlock(t.value.deferCount, t.value.breakBlock) else Nowhere
    case ContinueTo(key) =>
      var t := FindLoop(ctx.loops, key);
      if t.Some? then ToBlock(t.value.deferCount, t.value.continueBlock) else Nowhere
    case Returned(_) => ToCaller(false)
    case Threw(_) =>
      if |ctx.tries| > 0 then ToBlock(ctx.tries[|ctx.tries| - 1].deferCount, ctx.tries[|ctx.tries| - 1].catchBlock) else ToCaller(true)
    case _ => Nowhere
  }

  // Every way out that the scope allows leads somewhere, past no more deferred statements than there are.
  ghost predicate Fits(ctx: Context, scope: Scope) {
    && (forall k :: k in scope.keys ==> FindLoop(ctx.loops, k).Some? && FindLoop(ctx.loops, k).value.deferCount <= |ctx.defers|)
    && (scope.throws && |ctx.tries| > 0 ==> ctx.tries[|ctx.tries| - 1].deferCount <= |ctx.defers|)
  }

  ghost predicate SameSlots(a: Mem, b: Mem, n: nat) {
    forall i :: 0 <= i < n ==> Slot(a.slots, i) == Slot(b.slots, i)
  }

  // The memory at the end: the world, the error that is thrown, the result of the function, and the slots taken before
  ghost predicate Settled(m': Mem, w: World, out: Outcome, m: Mem, slots: nat) {
    && m'.world == w
    && m'.thrown == (if out.Threw? then out.error else 0)
    && m'.result == (if out.Returned? then out.value else m.result)
    && SameSlots(m, m', slots)
  }

  // A way out is taken after its deferred statements.
  ghost predicate Leaves(run: Setting, way: Way, defers: seq<Stmt>, from: Place, m: Mem, slots: nat, r: Result, n: nat, m': Mem) {
    var d := RunDefers(run.env, defers, r.world, run.limit);
    match d.out
    case Normal => n > 0 && Run(run.env, run.g, At(from, m), n) == way.End(m') && Settled(m', d.world, r.out, m, slots)
    case Timeout => Lives(run.env, run.g, At(from, m), run.limit)
    case _ => true
  }

  // From a place, the blocks come in n steps to what r says: to next, or to the way out of the context.
  ghost predicate Simulates(run: Setting, ctx: Context, from: Place, next: Place, m: Mem, slots: nat, r: Result, n: nat, m': Mem) {
    match r.out
    case Normal => Run(run.env, run.g, At(from, m), n) == At(next, m') && Settled(m', r.world, Normal, m, slots)
    case Timeout => Lives(run.env, run.g, At(from, m), run.limit)
    case Stuck => true
    case _ => Leaves(run, WayOut(ctx, r.out), Above(ctx.defers, WayOut(ctx, r.out).Down()), from, m, slots, r, n, m')
  }

  // What runs n1 steps further back does the same.
  lemma After(run: Setting, ctx: Context, from: Place, mid: Place, next: Place, m: Mem, m1: Mem, slots: nat, slots1: nat, r: Result,
              n1: nat, n2: nat, m': Mem)
    requires Run(run.env, run.g, At(from, m), n1) == At(mid, m1)
    requires m1.result == m.result && SameSlots(m, m1, slots) && slots <= slots1
    requires Simulates(run, ctx, mid, next, m1, slots1, r, n2, m')
    ensures Simulates(run, ctx, from, next, m, slots, r, n1 + n2, m')
  {
    RunAdd(run.env, run.g, At(from, m), n1, n2);
    if Lives(run.env, run.g, At(mid, m1), run.limit) {
      LivesBefore(run.env, run.g, At(from, m), n1, run.limit);
    }
  }

  // ---------------------------------------------------------------------------------------
  // Deferred statements, and throwing
  // ---------------------------------------------------------------------------------------

  lemma {:induction false} DefersRun(run: Setting, ctx: Context, c: Code, down: nat, m: Mem) returns (n: nat, m': Mem)
    requires CalleesAgree(run.env) && c.Open() && m.thrown == 0
    requires EmitDefers(ctx, c, down).Open() && Grew(EmitDefers(ctx, c, down).blocks, run.g)
    ensures Simulates(run, ctx, c.Here(), EmitDefers(ctx, c, down).Here(), m, c.slots,
                      RunDefers(run.env, Above(ctx.defers, down), m.world, run.limit), n, m')
    decreases SizeOf(ctx.defers), 1, |ctx.defers|, 0
  {
    var d := |ctx.defers|;
    var end := EmitDefers(ctx, c, down);
    if d <= down {
      assert Above(ctx.defers, down) == [];
      return 0, m;
    }
    var below := BelowTop(ctx);
    var top := TopDefer(ctx);
    var ran := LowerStmt(below, c, top);
    StmtExtends(below, c, top);
    DefersExtend(below, ran, down);
    GrewTrans(ran.blocks, end.blocks, run.g);
    var n1, m1 := StmtRuns(run, below, DEFERRED, c, top, m);
    var all := Above(ctx.defers, down);
    assert all[|all| - 1] == top && all[..|all| - 1] == Above(below.defers, down);
    var r := Exec(run.env, DEFERRED, top, m.world, run.limit);
    n, m' := n1, m1;
    if r.out.Normal? {
      var n2, m2 := DefersRun(run, below, ran, down, m1);
      DefersAfter(run, ctx, below, c.Here(), ran.Here(), end.Here(), m, m1, c.slots, ran.slots,
                  RunDefers(run.env, Above(below.defers, down), m1.world, run.limit), n1, n2, m2);
      n, m' := n1 + n2, m2;
    }
  }

  // Deferred statements have no way out, so the context does not matter.
  lemma DefersAfter(run: Setting, ctx: Context, below: Context, from: Place, mid: Place, next: Place, m: Mem, m1: Mem, slots: nat, slots1: nat,
                    d: Result, n1: nat, n2: nat, m': Mem)
    requires Run(run.env, run.g, At(from, m), n1) == At(mid, m1)
    requires m1.result == m.result && SameSlots(m, m1, slots) && slots <= slots1
    requires d.out.Normal? || d.out.Timeout? || d.out.Stuck?
    requires Simulates(run, below, mid, next, m1, slots1, d, n2, m')
    ensures Simulates(run, ctx, from, next, m, slots, d, n1 + n2, m')
  {
    After(run, below, from, mid, next, m, m1, slots, slots1, d, n1, n2, m');
  }

  // Putting the error aside
  lemma ParkRuns(run: Setting, c: Code, m: Mem) returns (m': Mem)
    requires c.Open() && Grew(ParkError(c).blocks, run.g)
    ensures ParkError(c).Open() && ParkError(c).slots == c.slots + 1
    ensures Run(run.env, run.g, At(c.Here(), m), 2) == At(ParkError(c).Here(), m')
    ensures m'.world == m.world && m'.thrown == 0 && m'.result == m.result && SameSlots(m, m', c.slots)
    ensures Slot(m'.slots, c.slots) == m.thrown
  {
    var taken := c.(slots := c.slots + 1);
    var parked := Emit(taken, Park(c.slots));
    ExtendsEmit(taken, Park(c.slots));
    ExtendsEmit(parked, ClearThrown);
    GrewTrans(parked.blocks, ParkError(c).blocks, run.g);
    EmittedRuns(run.env, run.g, taken, Park(c.slots), m);
    var m1 := Perform(run.env, Park(c.slots), m);
    EmittedRuns(run.env, run.g, parked, ClearThrown, m1);
    RunAdd(run.env, run.g, At(c.Here(), m), 1, 1);
    m' := Perform(run.env, ClearThrown, m1);
  }

  // Taking the error up again, after what ran in between left the slot alone
  lemma UnparkRuns(run: Setting, from: Place, mid: Place, ran: Code, slot: nat, m: Mem, m1: Mem, m2: Mem, n2: nat)
    requires ran.Open() && Grew(Emit(ran, Unpark(slot)).blocks, run.g)
    requires Run(run.env, run.g, At(from, m), 2) == At(mid, m1) && Slot(m1.slots, slot) == m.thrown
    requires Run(run.env, run.g, At(mid, m1), n2) == At(ran.Here(), m2) && SameSlots(m1, m2, slot + 1)
    ensures Emit(ran, Unpark(slot)).Open()
    ensures Run(run.env, run.g, At(from, m), 2 + n2 + 1) == At(Emit(ran, Unpark(slot)).Here(), m2.(thrown := m.thrown))
  {
    assert Slot(m2.slots, slot) == Slot(m1.slots, slot);
    ExtendsEmit(ran, Unpark(slot));
    EmittedRuns(run.env, run.g, ran, Unpark(slot), m2);
    RunAdd(run.env, run.g, At(from, m), 2, n2);
    RunAdd(run.env, run.g, At(from, m), 2 + n2, 1);
  }

  // While an error is thrown, deferred statements run as if none was, and then it is thrown again.
  lemma {:induction false} DefersWhileThrowingRun(run: Setting, ctx: Context, c: Code, down: nat, m: Mem) returns (n: nat, m': Mem)
    requires CalleesAgree(run.env) && c.Open()
    requires EmitDefersWhileThrowing(ctx, c, down).Open() && Grew(EmitDefersWhileThrowing(ctx, c, down).blocks, run.g)
    ensures var d := RunDefers(run.env, Above(ctx.defers, down), m.world, run.limit);
            && (d.out.Normal? ==>
                  && Run(run.env, run.g, At(c.Here(), m), n) == At(EmitDefersWhileThrowing(ctx, c, down).Here(), m')
                  && m'.world == d.world && m'.thrown == m.thrown && m'.result == m.result && SameSlots(m, m', c.slots))
            && (d.out.Timeout? ==> Lives(run.env, run.g, At(c.Here(), m), run.limit))
    decreases SizeOf(ctx.defers), 2, 0, 0
  {
    if |ctx.defers| <= down {
      assert Above(ctx.defers, down) == [];
      return 0, m;
    }
    var parked := ParkError(c);
    var ran := EmitDefers(ctx, parked, down);
    ParkExtends(c);
    DefersExtend(ctx, parked, down);
    ExtendsEmit(ran, Unpark(c.slots));
    GrewTrans(ran.blocks, Emit(ran, Unpark(c.slots)).blocks, run.g);
    GrewTrans(parked.blocks, ran.blocks, run.g);
    var m1 := ParkRuns(run, c, m);
    var n2, m2 := DefersRun(run, ctx, parked, down, m1);
    n, m' := 2 + n2 + 1, m2.(thrown := m.thrown);
    var d := RunDefers(run.env, Above(ctx.defers, down), m.world, run.limit);
    if d.out.Normal? {
      UnparkRuns(run, c.Here(), parked.Here(), ran, c.slots, m, m1, m2, n2);
    } else if d.out.Timeout? {
      LivesBefore(run.env, run.g, At(c.Here(), m), 2, run.limit);
    }
  }

  // The error that is thrown goes to the innermost try, or to the caller.
  lemma {:induction false} UnwindRuns(run: Setting, ctx: Context, scope: Scope, c: Code, next: Place, m: Mem) returns (n: nat, m': Mem)
    requires CalleesAgree(run.env) && c.Open() && Fits(ctx, scope) && m.thrown != 0
    requires Grew(EmitUnwind(ctx, c).blocks, run.g)
    ensures Simulates(run, ctx, c.Here(), next, m, c.slots, Admit(scope, Result(Threw(m.thrown), m.world)), n, m')
    decreases SizeOf(ctx.defers), 3, 0, 0
  {
    var way := WayOut(ctx, Threw(m.thrown));
    var t := if |ctx.tries| > 0 then Jmp(ctx.tries[|ctx.tries| - 1].catchBlock) else Ret(true);
    var ran := EmitDefersWhileThrowing(ctx, c, way.Down());
    DefersWhileThrowingExtend(ctx, c, way.Down());
    ExtendsTerminate(ran, t);
    GrewTrans(ran.blocks, Terminate(ran, t).blocks, run.g);
    var n1, m1 := DefersWhileThrowingRun(run, ctx, c, way.Down(), m);
    n, m' := n1 + 1, m1;
    var d := RunDefers(run.env, Above(ctx.defers, way.Down()), m.world, run.limit);
    if d.out.Normal? {
      TerminatorRuns(run.env, run.g, ran, t, m1);
      RunAdd(run.env, run.g, At(c.Here(), m), n1, 1);
    }
  }

  // The way out of a statement does not depend on where it would go on.
  lemma ElsewhereToo(run: Setting, ctx: Context, from: Place, next: Place, next': Place, m: Mem, slots: nat, r: Result, n: nat, m': Mem)
    requires Simulates(run, ctx, from, next, m, slots, r, n, m') && !r.out.Normal?
    ensures Simulates(run, ctx, from, next', m, slots, r, n, m')
  {
  }

  // The branches after a call lead to throwing on exactly when something was thrown.
  lemma BranchOnThrowRuns(run: Setting, c: Code, confirm: bool, m: Mem) returns (n: nat)
    requires c.Open() && Grew(BranchOnThrow(c, confirm).blocks, run.g)
    requires m.thrown != 0 ==> m.flag != 0
    requires !confirm && m.flag != 0 ==> m.thrown != 0
    ensures Run(run.env, run.g, At(c.Here(), m), n) == At(Place(if m.thrown != 0 then |c.blocks| else |c.blocks| + 1, 0), m)
  {
    var made := Create(Create(c));
    var throwing, goOn := |c.blocks|, |c.blocks| + 1;
    CreateTwice(c);
    if confirm {
      var check := |c.blocks| + 2;
      var more := Create(made);
      ExtendsCreate(made);
      var t := Br(FlagIsSet, check, goOn);
      var checking := SetBlock(Terminate(more, t), check);
      EnterNew(made, more, t, check);
      ExtendsTerminate(checking, Br(ThrownIsSet, throwing, goOn));
      GrewTrans(Terminate(more, t).blocks, BranchOnThrow(c, confirm).blocks, run.g);
      TerminatorRuns(run.env, run.g, more, t, m);
      if m.flag != 0 {
        TerminatorRuns(run.env, run.g, checking, Br(ThrownIsSet, throwing, goOn), m);
        RunAdd(run.env, run.g, At(c.Here(), m), 1, 1);
        n := 2;
      } else {
        n := 1;
      }
    } else {
      TerminatorRuns(run.env, run.g, made, Br(FlagIsSet, throwing, goOn), m);
      n := 1;
    }
  }

  function AfterCall(m: Mem): Result {
    Result(if m.thrown != 0 then Threw(m.thrown) else Normal, m.world)
  }

  lemma {:induction false} ThrowCheckRuns(run: Setting, ctx: Context, scope: Scope, c: Code, confirm: bool, m: Mem) returns (n: nat, m': Mem)
    requires CalleesAgree(run.env) && c.Open() && Fits(ctx, scope)
    requires EmitThrowCheck(ctx, c, confirm).Open() && Grew(EmitThrowCheck(ctx, c, confirm).blocks, run.g)
    requires m.thrown != 0 ==> m.flag != 0
    requires !confirm && m.flag != 0 ==> m.thrown != 0
    ensures Simulates(run, ctx, c.Here(), EmitThrowCheck(ctx, c, confirm).Here(), m, c.slots, Admit(scope, AfterCall(m)), n, m')
    decreases SizeOf(ctx.defers), 4, 0, 0
  {
    var branched := BranchOnThrow(c, confirm);
    var throwing := SetBlock(branched, |c.blocks|);
    var next := EmitThrowCheck(ctx, c, confirm).Here();
    BranchOnThrowExtends(c, confirm);
    UnwindExtends(ctx, throwing);
    GrewTrans(branched.blocks, EmitUnwind(ctx, throwing).blocks, run.g);
    assert next == Place(|c.blocks| + 1, 0);
    var n1 := BranchOnThrowRuns(run, c, confirm, m);
    if m.thrown != 0 {
      var n2, m2 := UnwindRuns(run, ctx, scope, throwing, next, m);
      After(run, ctx, c.Here(), throwing.Here(), next, m, m, c.slots, throwing.slots, Admit(scope, AfterCall(m)), n1, n2, m2);
      n, m' := n1 + n2, m2;
    } else {
      n, m' := n1, m;
    }
  }

  // The branch on an error that was evaluated, and the store of it when it is not null
  lemma BranchOnErrorRuns(run: Setting, c: Code, m: Mem) returns (n: nat)
    requires c.Open() && Grew(BranchOnError(c).blocks, run.g)
    ensures BranchOnError(c).Open()
    ensures Run(run.env, run.g, At(c.Here(), m), n) ==
            if m.error != 0 then At(BranchOnError(c).Here(), m.(thrown := m.error)) else At(Place(|c.blocks| + 1, 0), m)
  {
    var made := Create(Create(c));
    var t := Br(ErrorIsSet, |c.blocks|, |c.blocks| + 1);
    CreateTwice(c);
    BranchOnErrorExtends(c);
    GrewTrans(Terminate(made, t).blocks, BranchOnError(c).blocks, run.g);
    TerminatorRuns(run.env, run.g, made, t, m);
    n := 1;
    if m.error != 0 {
      var throwing := SetBlock(Terminate(made, t), |c.blocks|);
      EnterNew(c, made, t, |c.blocks|);
      EmittedRuns(run.env, run.g, throwing, StoreThrown, m);
      RunAdd(run.env, run.g, At(c.Here(), m), 1, 1);
      n := 2;
    }
  }

  function AfterThrow(m: Mem): Result {
    Result(if m.error != 0 then Threw(m.error) else Normal, m.world)
  }

  lemma {:induction false} ThrowRuns(run: Setting, ctx: Context, scope: Scope, c: Code, m: Mem) returns (n: nat, m': Mem)
    requires CalleesAgree(run.env) && c.Open() && Fits(ctx, scope) && m.thrown == 0
    requires EmitThrow(ctx, c).Open() && Grew(EmitThrow(ctx, c).blocks, run.g)
    ensures Simulates(run, ctx, c.Here(), EmitThrow(ctx, c).Here(), m, c.slots, Admit(scope, AfterThrow(m)), n, m')
    decreases SizeOf(ctx.defers), 4, 0, 0
  {
    var throwing := BranchOnError(c);
    var next := EmitThrow(ctx, c).Here();
    BranchOnErrorExtends(c);
    UnwindExtends(ctx, throwing);
    GrewTrans(throwing.blocks, EmitUnwind(ctx, throwing).blocks, run.g);
    assert next == Place(|c.blocks| + 1, 0);
    var n1 := BranchOnErrorRuns(run, c, m);
    n, m' := n1, m;
    if m.error != 0 {
      var m1 := m.(thrown := m.error);
      var n2, m2 := UnwindRuns(run, ctx, scope, throwing, next, m1);
      After(run, ctx, c.Here(), throwing.Here(), next, m, m1, c.slots, throwing.slots, Admit(scope, AfterThrow(m)), n1, n2, m2);
      n, m' := n1 + n2, m2;
    }
  }

  // One instruction
  lemma EmittedStep(run: Setting, c: Code, i: Instr, m: Mem)
    requires c.Open() && Grew(Emit(c, i).blocks, run.g)
    ensures Emit(c, i).Open() && Emit(c, i).slots == c.slots
    ensures Run(run.env, run.g, At(c.Here(), m), 1) == At(Emit(c, i).Here(), Perform(run.env, i, m))
  {
    ExtendsEmit(c, i);
    EmittedRuns(run.env, run.g, c, i, m);
  }

  // A call that throws if its callee did
  lemma {:induction false} CheckedCallRuns(run: Setting, ctx: Context, scope: Scope, c: Code, call: CallSite, m: Mem) returns (n: nat, m': Mem)
    requires CalleesAgree(run.env) && c.Open() && Fits(ctx, scope) && m.thrown == 0
    requires Emit(c, CallInstr(call)).Open()
    requires EmitThrowCheck(ctx, Emit(c, CallInstr(call)), call.confirm).Open()
    requires Grew(EmitThrowCheck(ctx, Emit(c, CallInstr(call)), call.confirm).blocks, run.g)
    ensures Simulates(run, ctx, c.Here(), EmitThrowCheck(ctx, Emit(c, CallInstr(call)), call.confirm).Here(), m, c.slots,
                      Admit(scope, AfterCall(Perform(run.env, CallInstr(call), m))), n, m')
    decreases SizeOf(ctx.defers), 5, 0, 0
  {
    var called := Emit(c, CallInstr(call));
    var checked := EmitThrowCheck(ctx, called, call.confirm);
    ThrowCheckExtends(ctx, called, call.confirm);
    GrewTrans(called.blocks, checked.blocks, run.g);
    var m1 := Perform(run.env, CallInstr(call), m);
    EmittedStep(run, c, CallInstr(call), m);
    var n2, m2 := ThrowCheckRuns(run, ctx, scope, called, call.confirm, m1);
    After(run, ctx, c.Here(), called.Here(), checked.Here(), m, m1, c.slots, called.slots, Admit(scope, AfterCall(m1)), 1, n2, m2);
    n, m' := 1 + n2, m2;
  }

  lemma {:induction false} CallRuns(run: Setting, ctx: Context, scope: Scope, c: Code, call: CallSite, m: Mem) returns (n: nat, m': Mem)
    requires CalleesAgree(run.env) && c.Open() && Fits(ctx, scope) && m.thrown == 0
    requires LowerCall(ctx, c, call).Open() && Grew(LowerCall(ctx, c, call).blocks, run.g)
    ensures Simulates(run, ctx, c.Here(), LowerCall(ctx, c, call).Here(), m, c.slots, Admit(scope, EvalCall(run.env, call, m.world)), n, m')
    decreases SizeOf(ctx.defers), 6, 0, 0
  {
    var called := Emit(c, CallInstr(call));
    var checked := EmitThrowCheck(ctx, called, call.confirm);
    ExtendsEmit(c, CallInstr(call));
    ThrowCheckExtends(ctx, called, call.confirm);
    if !call.throwsResult {
      n, m' := CheckedCallRuns(run, ctx, scope, c, call, m);
    } else {
      n, m' := ThrowingCallRuns(run, ctx, scope, c, call, m);
    }
  }

  // Throwing the error that a call gave back
  lemma {:induction false} ThrowsResultRuns(run: Setting, ctx: Context, scope: Scope, c: Code, call: CallSite, m: Mem) returns (n: nat, m': Mem)
    requires CalleesAgree(run.env) && c.Open() && Fits(ctx, scope) && m.thrown == 0
    requires EmitThrow(ctx, Emit(c, LoadErrorResult(call))).Open() && Grew(EmitThrow(ctx, Emit(c, LoadErrorResult(call))).blocks, run.g)
    ensures var error := run.env.errorOf(call, m.world);
            Simulates(run, ctx, c.Here(), EmitThrow(ctx, Emit(c, LoadErrorResult(call))).Here(), m, c.slots,
                      Admit(scope, Result(if error != 0 then Threw(error) else Normal, m.world)), n, m')
    decreases SizeOf(ctx.defers), 5, 0, 1
  {
    var loaded := Emit(c, LoadErrorResult(call));
    var end := EmitThrow(ctx, loaded);
    ExtendsEmit(c, LoadErrorResult(call));
    ThrowExtends(ctx, loaded);
    GrewTrans(loaded.blocks, end.blocks, run.g);
    var m1 := Perform(run.env, LoadErrorResult(call), m);
    EmittedStep(run, c, LoadErrorResult(call), m);
    var n2, m2 := ThrowRuns(run, ctx, scope, loaded, m1);
    After(run, ctx, c.Here(), loaded.Here(), end.Here(), m, m1, c.slots, loaded.slots, Admit(scope, AfterThrow(m1)), 1, n2, m2);
    n, m' := 1 + n2, m2;
  }

  // A call that throws the error it gives back, too
  lemma {:induction false} ThrowingCallRuns(run: Setting, ctx: Context, scope: Scope, c: Code, call: CallSite, m: Mem) returns (n: nat, m': Mem)
    requires CalleesAgree(run.env) && c.Open() && Fits(ctx, scope) && m.thrown == 0 && call.throwsResult
    requires LowerCall(ctx, c, call).Open() && Grew(LowerCall(ctx, c, call).blocks, run.g)
    ensures Simulates(run, ctx, c.Here(), LowerCall(ctx, c, call).Here(), m, c.slots, Admit(scope, EvalCall(run.env, call, m.world)), n, m')
    decreases SizeOf(ctx.defers), 5, 1, 0
  {
    var called := Emit(c, CallInstr(call));
    var checked := EmitThrowCheck(ctx, called, call.confirm);
    var loaded := Emit(checked, LoadErrorResult(call));
    var end := EmitThrow(ctx, loaded);
    ExtendsEmit(c, CallInstr(call));
    ThrowCheckExtends(ctx, called, call.confirm);
    ExtendsTrans(c, called, checked);
    ExtendsEmit(checked, LoadErrorResult(call));
    ThrowExtends(ctx, loaded);
    GrewTrans(loaded.blocks, end.blocks, run.g);
    GrewTrans(checked.blocks, loaded.blocks, run.g);
    n, m' := CheckedCallRuns(run, ctx, scope, c, call, m);
    var effect := run.env.call(call, m.world);
    var r := Admit(scope, EvalCall(run.env, call, m.world));
    if effect.thrown == 0 {
      var m1 := m';
      var n2, m2 := ThrowsResultRuns(run, ctx, scope, checked, call, m1);
      After(run, ctx, c.Here(), checked.Here(), end.Here(), m, m1, c.slots, checked.slots, r, n, n2, m2);
      n, m' := n + n2, m2;
    }
  }

  lemma {:induction false} CallsRun(run: Setting, ctx: Context, scope: Scope, c: Code, calls: seq<CallSite>, m: Mem) returns (n: nat, m': Mem)
    requires CalleesAgree(run.env) && c.Open() && Fits(ctx, scope) && m.thrown == 0
    requires LowerCalls(ctx, c, calls).Open() && Grew(LowerCalls(ctx, c, calls).blocks, run.g)
    ensures Simulates(run, ctx, c.Here(), LowerCalls(ctx, c, calls).Here(), m, c.slots, Admit(scope, EvalCalls(run.env, calls, m.world)), n, m')
    decreases SizeOf(ctx.defers), 7, |calls|, 0
  {
    if |calls| == 0 {
      return 0, m;
    }
    var one := LowerCall(ctx, c, calls[0]);
    var end := LowerCalls(ctx, one, calls[1..]);
    CallExtends(ctx, c, calls[0]);
    CallsExtend(ctx, one, calls[1..]);
    GrewTrans(one.blocks, end.blocks, run.g);
    n, m' := CallRuns(run, ctx, scope, c, calls[0], m);
    var r := EvalCall(run.env, calls[0], m.world);
    if r.out.Normal? {
      var m1 := m';
      var n2, m2 := CallsRun(run, ctx, scope, one, calls[1..], m1);
      After(run, ctx, c.Here(), one.Here(), end.Here(), m, m1, c.slots, one.slots, Admit(scope, EvalCalls(run.env, calls[1..], m1.world)), n, n2, m2);
      n, m' := n + n2, m2;
    }
  }

  // The calls of an expression, and the instruction that takes its value
  lemma {:induction false} ExprRuns(run: Setting, ctx: Context, scope: Scope, c: Code, calls: seq<CallSite>, i: Instr, m: Mem)
    returns (n: nat, m1: Mem, m': Mem)
    requires CalleesAgree(run.env) && c.Open() && Fits(ctx, scope) && m.thrown == 0
    requires Emit(LowerCalls(ctx, c, calls), i).Open() && Grew(Emit(LowerCalls(ctx, c, calls), i).blocks, run.g)
    ensures var r := EvalCalls(run.env, calls, m.world);
            if r.out.Normal? then
              && Run(run.env, run.g, At(c.Here(), m), n) == At(Emit(LowerCalls(ctx, c, calls), i).Here(), m')
              && Settled(m1, r.world, Normal, m, c.slots) && m' == Perform(run.env, i, m1)
            else Simulates(run, ctx, c.Here(), Emit(LowerCalls(ctx, c, calls), i).Here(), m, c.slots, Admit(scope, r), n, m')
    decreases SizeOf(ctx.defers), 8, 0, 0
  {
    var called := LowerCalls(ctx, c, calls);
    CallsExtend(ctx, c, calls);
    ExtendsEmit(called, i);
    GrewTrans(called.blocks, Emit(called, i).blocks, run.g);
    n, m1 := CallsRun(run, ctx, scope, c, calls, m);
    var r := EvalCalls(run.env, calls, m.world);
    if r.out.Normal? {
      EmittedStep(run, called, i, m1);
      RunAdd(run.env, run.g, At(c.Here(), m), n, 1);
      n, m' := n + 1, Perform(run.env, i, m1);
    } else {
      m' := m1;
      ElsewhereToo(run, ctx, c.Here(), called.Here(), Emit(called, i).Here(), m, c.slots, Admit(scope, r), n, m');
    }
  }

  // ---------------------------------------------------------------------------------------
  // Conditions and blocks
  // ---------------------------------------------------------------------------------------

  lemma {:induction false} ConditionRuns(run: Setting, ctx: Context, scope: Scope, c: Code, cond: Cond, onTrue: nat, onFalse: nat, m: Mem)
    returns (n: nat, m': Mem)
    requires CalleesAgree(run.env) && c.Open() && Fits(ctx, scope) && m.thrown == 0
    requires Grew(LowerCondition(ctx, c, cond, onTrue, onFalse).blocks, run.g)
    ensures var cr := EvalCond(run.env, cond, m.world);
            Simulates(run, ctx, c.Here(), Place(if cr.truth then onTrue else onFalse, 0), m, c.slots, Admit(scope, cr.result), n, m')
    decreases SizeOf(ctx.defers), 8, cond, 1
  {
    match cond
    case Not(operand) =>
      n, m' := ConditionRuns(run, ctx, scope, c, operand, onFalse, onTrue, m);
    case Atom(e) =>
      n, m' := AtomRuns(run, ctx, scope, c, e, onTrue, onFalse, m);
    case _ =>
      n, m' := TwoConditionsRun(run, ctx, scope, c, cond, onTrue, onFalse, m);
  }

  lemma {:induction false} AtomRuns(run: Setting, ctx: Context, scope: Scope, c: Code, e: Expr, onTrue: nat, onFalse: nat, m: Mem)
    returns (n: nat, m': Mem)
    requires CalleesAgree(run.env) && c.Open() && Fits(ctx, scope) && m.thrown == 0
    requires Grew(LowerCondition(ctx, c, Atom(e), onTrue, onFalse).blocks, run.g)
    ensures var cr := EvalCond(run.env, Atom(e), m.world);
            Simulates(run, ctx, c.Here(), Place(if cr.truth then onTrue else onFalse, 0), m, c.slots, Admit(scope, cr.result), n, m')
    decreases SizeOf(ctx.defers), 7, |e.calls|, 1
  {
    var t := Br(Test(e.value), onTrue, onFalse);
    var called := LowerCalls(ctx, c, e.calls);
    CallsExtend(ctx, c, e.calls);
    ExtendsTerminate(called, t);
    GrewTrans(called.blocks, Terminate(called, t).blocks, run.g);
    n, m' := CallsRun(run, ctx, scope, c, e.calls, m);
    if EvalCalls(run.env, e.calls, m.world).out.Normal? {
      TerminatorRuns(run.env, run.g, called, t, m');
      RunAdd(run.env, run.g, At(c.Here(), m), n, 1);
      n := n + 1;
    }
  }

  // Whether the right operand is looked at
  predicate NeedsRight(cond: Cond, leftTruth: bool) {
    (cond.And? && leftTruth) || (cond.Or? && !leftTruth)
  }

  lemma {:induction false} TwoConditionsRun(run: Setting, ctx: Context, scope: Scope, c: Code, cond: Cond, onTrue: nat, onFalse: nat, m: Mem)
    returns (n: nat, m': Mem)
    requires CalleesAgree(run.env) && c.Open() && Fits(ctx, scope) && m.thrown == 0 && (cond.And? || cond.Or?)
    requires Grew(LowerCondition(ctx, c, cond, onTrue, onFalse).blocks, run.g)
    ensures var cr := EvalCond(run.env, cond, m.world);
            Simulates(run, ctx, c.Here(), Place(if cr.truth then onTrue else onFalse, 0), m, c.slots, Admit(scope, cr.result), n, m')
    decreases SizeOf(ctx.defers), 8, cond, 0
  {
    var left := LeftOperand(ctx, c, cond, onTrue, onFalse);
    var rhs := SetBlock(left, |c.blocks|);
    var all := LowerCondition(ctx, c, cond, onTrue, onFalse);
    ExtendsCreate(c);
    TwoConditionsExtend(ctx, c, cond, onTrue, onFalse);
    assert all == LowerCondition(ctx, rhs, cond.right, onTrue, onFalse);
    GrewTrans(left.blocks, all.blocks, run.g);
    if cond.And? {
      n, m' := ConditionRuns(run, ctx, scope, Create(c), cond.left, |c.blocks|, onFalse, m);
    } else {
      n, m' := ConditionRuns(run, ctx, scope, Create(c), cond.left, onTrue, |c.blocks|, m);
    }
    var l := EvalCond(run.env, cond.left, m.world);
    if l.result.out.Normal? && NeedsRight(cond, l.truth) {
      var m1 := m';
      var n2, m2 := ConditionRuns(run, ctx, scope, rhs, cond.right, onTrue, onFalse, m1);
      var r := EvalCond(run.env, cond.right, m1.world);
      After(run, ctx, c.Here(), rhs.Here(), Place(if r.truth then onTrue else onFalse, 0), m, m1, c.slots, rhs.slots,
            Admit(scope, r.result), n, n2, m2);
      n, m' := n + n2, m2;
    }
  }

  // The context around the block whose deferred statements start at base
  function Outer(ctx: Context, base: nat): Context
    requires base <= |ctx.defers|
  {
    ctx.(defers := ctx.defers[..base])
  }

  // A way out of a block is one out of what is around it, after the deferred statements of the block.
  lemma LeaveRuns(run: Setting, ctx: Context, scope: Scope, base: nat, from: Place, next: Place, m: Mem, slots: nat, r: Result, n: nat, m': Mem)
    requires base <= |ctx.defers| && Fits(Outer(ctx, base), scope) && Allows(scope, r.out) && !r.out.Normal?
    requires Simulates(run, ctx, from, next, m, slots, r, n, m')
    ensures Simulates(run, Outer(ctx, base), from, next, m, slots, LeaveBlock(run.env, ctx.defers[base..], r, run.limit), n, m')
  {
    if !r.out.Timeout? && !r.out.Stuck? {
      var down := WayOut(ctx, r.out).Down();
      assert WayOut(ctx, r.out) == WayOut(Outer(ctx, base), r.out) && down <= base;
      assert Above(ctx.defers, down) == Above(ctx.defers[..base], down) + ctx.defers[base..];
      RunDefersConcat(run.env, Above(ctx.defers[..base], down), ctx.defers[base..], r.world, run.limit);
    }
  }

  // The end of a block
  lemma {:induction false} EndRuns(run: Setting, ctx: Context, base: nat, c: Code, m: Mem) returns (n: nat, m': Mem)
    requires CalleesAgree(run.env) && c.Open() && m.thrown == 0 && base <= |ctx.defers|
    requires EmitDefers(ctx, c, base).Open() && Grew(EmitDefers(ctx, c, base).blocks, run.g)
    ensures Simulates(run, Outer(ctx, base), c.Here(), EmitDefers(ctx, c, base).Here(), m, c.slots,
                      LeaveBlock(run.env, ctx.defers[base..], Result(Normal, m.world), run.limit), n, m')
    decreases SizeOf(ctx.defers), 2, 0, 0
  {
    assert Above(ctx.defers, base) == ctx.defers[base..];
    n, m' := DefersRun(run, ctx, c, base, m);
    var d := RunDefers(run.env, ctx.defers[base..], m.world, run.limit);
    assert LeaveBlock(run.env, ctx.defers[base..], Result(Normal, m.world), run.limit) == d;
  }

  lemma {:induction false} ListRuns(run: Setting, ctx: Context, scope: Scope, base: nat, c: Code, stmts: Stmts, m: Mem)
    returns (n: nat, m': Mem)
    requires CalleesAgree(run.env) && c.Open() && m.thrown == 0 && base <= |ctx.defers| && Fits(Outer(ctx, base), scope)
    requires LowerList(ctx, base, c, stmts).Open() && Grew(LowerList(ctx, base, c, stmts).blocks, run.g)
    ensures Simulates(run, Outer(ctx, base), c.Here(), LowerList(ctx, base, c, stmts).Here(), m, c.slots,
                      ExecList(run.env, scope, stmts, ctx.defers[base..], m.world, run.limit), n, m')
    decreases SizeOf(ctx.defers) + SizeAll(stmts), 9, 0, 0
  {
    match stmts
    case Nil =>
      n, m' := EndRuns(run, ctx, base, c, m);
    case Cons(head, tail) =>
      if head.Defer? {
        SizeOfPushed(ctx.defers, head.deferred);
        assert Size(head) == 1 + Size(head.deferred);
        var pushed := PushDefer(ctx, head.deferred);
        assert Outer(pushed, base) == Outer(ctx, base);
        assert pushed.defers[base..] == ctx.defers[base..] + [head.deferred];
        n, m' := ListRuns(run, pushed, scope, base, c, tail, m);
      } else {
        SizeIsPositive(head);
        n, m' := ConsRuns(run, ctx, scope, base, c, head, tail, m);
      }
  }

  lemma {:induction false} ConsRuns(run: Setting, ctx: Context, scope: Scope, base: nat, c: Code, head: Stmt, tail: Stmts, m: Mem)
    returns (n: nat, m': Mem)
    requires CalleesAgree(run.env) && c.Open() && m.thrown == 0 && base <= |ctx.defers| && Fits(Outer(ctx, base), scope)
    requires !head.Defer?
    requires LowerList(ctx, base, c, Cons(head, tail)).Open() && Grew(LowerList(ctx, base, c, Cons(head, tail)).blocks, run.g)
    ensures Simulates(run, Outer(ctx, base), c.Here(), LowerList(ctx, base, c, Cons(head, tail)).Here(), m, c.slots,
                      ExecList(run.env, scope, Cons(head, tail), ctx.defers[base..], m.world, run.limit), n, m')
    decreases SizeOf(ctx.defers) + SizeAll(tail) + Size(head), 8, 0, 0
  {
    SizeIsPositive(head);
    var one := LowerStmt(ctx, c, head);
    var end := LowerList(ctx, base, one, tail);
    StmtExtends(ctx, c, head);
    ListExtends(ctx, base, one, tail);
    GrewTrans(one.blocks, end.blocks, run.g);
    n, m' := StmtRuns(run, ctx, scope, c, head, m);
    var r := Exec(run.env, scope, head, m.world, run.limit);
    if r.out.Normal? {
      var m1 := m';
      var n2, m2 := ListRuns(run, ctx, scope, base, one, tail, m1);
      After(run, Outer(ctx, base), c.Here(), one.Here(), end.Here(), m, m1, c.slots, one.slots,
            ExecList(run.env, scope, tail, ctx.defers[base..], m1.world, run.limit), n, n2, m2);
      n, m' := n + n2, m2;
    } else {
      ElsewhereToo(run, ctx, c.Here(), one.Here(), end.Here(), m, c.slots, r, n, m');
      LeaveRuns(run, ctx, scope, base, c.Here(), end.Here(), m, c.slots, r, n, m');
    }
  }

  lemma {:induction false} BlockRuns(run: Setting, ctx: Context, scope: Scope, c: Code, body: Stmts, m: Mem) returns (n: nat, m': Mem)
    requires CalleesAgree(run.env) && c.Open() && m.thrown == 0 && Fits(ctx, scope)
    requires LowerBlock(ctx, c, body).Open() && Grew(LowerBlock(ctx, c, body).blocks, run.g)
    ensures Simulates(run, ctx, c.Here(), LowerBlock(ctx, c, body).Here(), m, c.slots, ExecBlock(run.env, scope, body, m.world, run.limit), n, m')
    decreases SizeOf(ctx.defers) + SizeAll(body), 10, 0, 0
  {
    assert Outer(ctx, |ctx.defers|) == ctx && ctx.defers[|ctx.defers|..] == [];
    n, m' := ListRuns(run, ctx, scope, |ctx.defers|, c, body, m);
  }

  // A block, and the jump at its end
  lemma {:induction false} BodyRuns(run: Setting, ctx: Context, scope: Scope, c: Code, body: Stmts, target: nat, m: Mem) returns (n: nat, m': Mem)
    requires CalleesAgree(run.env) && c.Open() && m.thrown == 0 && Fits(ctx, scope)
    requires Grew(Terminate(LowerBlock(ctx, c, body), Jmp(target)).blocks, run.g)
    ensures var r := ExecBlock(run.env, scope, body, m.world, run.limit);
            Simulates(run, ctx, c.Here(), Place(target, 0), m, c.slots, r, n, m') && (r.out.Normal? ==> n > 0)
    decreases SizeOf(ctx.defers) + SizeAll(body), 11, 0, 0
  {
    var lowered := LowerBlock(ctx, c, body);
    BlockExtends(ctx, c, body);
    ExtendsTerminate(lowered, Jmp(target));
    GrewTrans(lowered.blocks, Terminate(lowered, Jmp(target)).blocks, run.g);
    n, m' := BlockRuns(run, ctx, scope, c, body, m);
    var r := ExecBlock(run.env, scope, body, m.world, run.limit);
    if r.out.Normal? {
      TerminatorRuns(run.env, run.g, lowered, Jmp(target), m');
      RunAdd(run.env, run.g, At(c.Here(), m), n, 1);
      n := n + 1;
    } else {
      ElsewhereToo(run, ctx, c.Here(), lowered.Here(), Place(target, 0), m, c.slots, r, n, m');
    }
  }

  // ---------------------------------------------------------------------------------------
  // Statements
  // ---------------------------------------------------------------------------------------

  lemma {:induction false} StmtRuns(run: Setting, ctx: Context, scope: Scope, c: Code, s: Stmt, m: Mem) returns (n: nat, m': Mem)
    requires CalleesAgree(run.env) && c.Open() && m.thrown == 0 && Fits(ctx, scope)
    requires LowerStmt(ctx, c, s).Open() && Grew(LowerStmt(ctx, c, s).blocks, run.g)
    ensures Simulates(run, ctx, c.Here(), LowerStmt(ctx, c, s).Here(), m, c.slots, Exec(run.env, scope, s, m.world, run.limit), n, m')
    decreases SizeOf(ctx.defers) + Size(s), 0, 0, 0
  {
    match s
    case Do(e) =>
      var m1;
      n, m1, m' := ExprRuns(run, ctx, scope, c, e.calls, Act(e.value), m);
    case BlockStmt(body) => n, m' := BlockRuns(run, ctx, scope, c, body, m);
    case If(_, _, _) => n, m' := IfRuns(run, ctx, scope, c, s, m);
    case While(_, _, _) => n, m' := WhileRuns(run, ctx, scope, c, s, m);
    case Forever(_, _) => n, m' := ForeverRuns(run, ctx, scope, c, s, m);
    case For(_, _, _, _, _, _) => n, m' := ForRuns(run, ctx, scope, c, s, m);
    case Break(key) => n, m' := JumpRuns(run, ctx, scope, c, key, true, m);
    case Continue(key) => n, m' := JumpRuns(run, ctx, scope, c, key, false, m);
    case Return(e) => n, m' := ReturnRuns(run, ctx, scope, c, e, m);
    case Defer(_) => n, m' := 0, m;
    case Try(_, _, _) => n, m' := TryRuns(run, ctx, scope, c, s, m);
    case Throw(e) => n, m' := ThrowStmtRuns(run, ctx, scope, c, e, m);
  }

  // The deferred statements on a way out, and the terminator that takes it
  lemma {:induction false} WayRuns(run: Setting, ctx: Context, c: Code, way: Way, t: Term, out: Outcome, m: Mem) returns (n: nat, m': Mem)
    requires CalleesAgree(run.env) && c.Open() && m.thrown == 0 && !t.NoTerm?
    requires forall end: Mem :: Follow(run.env, t, end) == way.End(end)
    requires !out.Threw? && (out.Returned? ==> m.result == out.value)
    requires Grew(Terminate(EmitDefers(ctx, c, way.Down()), t).blocks, run.g)
    ensures Leaves(run, way, Above(ctx.defers, way.Down()), c.Here(), m, c.slots, Result(out, m.world), n, m')
    decreases SizeOf(ctx.defers), 2, 0, 0
  {
    var ran := EmitDefers(ctx, c, way.Down());
    DefersExtend(ctx, c, way.Down());
    ExtendsTerminate(ran, t);
    GrewTrans(ran.blocks, Terminate(ran, t).blocks, run.g);
    n, m' := DefersRun(run, ctx, c, way.Down(), m);
    if RunDefers(run.env, Above(ctx.defers, way.Down()), m.world, run.limit).out.Normal? {
      TerminatorRuns(run.env, run.g, ran, t, m');
      RunAdd(run.env, run.g, At(c.Here(), m), n, 1);
      n := n + 1;
    }
  }

  lemma {:induction false} JumpRuns(run: Setting, ctx: Context, scope: Scope, c: Code, key: int, isBreak: bool, m: Mem) returns (n: nat, m': Mem)
    requires CalleesAgree(run.env) && c.Open() && m.thrown == 0 && Fits(ctx, scope)
    requires LowerJump(ctx, c, FindLoop(ctx.loops, key), isBreak).Open()
    requires Grew(LowerJump(ctx, c, FindLoop(ctx.loops, key), isBreak).blocks, run.g)
    ensures Simulates(run, ctx, c.Here(), LowerJump(ctx, c, FindLoop(ctx.loops, key), isBreak).Here(), m, c.slots,
                      Admit(scope, Result(if isBreak then BreakTo(key) else ContinueTo(key), m.world)), n, m')
    decreases SizeOf(ctx.defers), 3, 0, 0
  {
    if key !in scope.keys {
      return 0, m;
    }
    var target := FindLoop(ctx.loops, key).value;
    var out := if isBreak then BreakTo(key) else ContinueTo(key);
    var t := Jmp(if isBreak then target.breakBlock else target.continueBlock);
    LeaveExtends(ctx, c, target.deferCount, t);
    GrewTrans(Terminate(EmitDefers(ctx, c, target.deferCount), t).blocks, LowerJump(ctx, c, Some(target), isBreak).blocks, run.g);
    n, m' := WayRuns(run, ctx, c, WayOut(ctx, out), t, out, m);
  }

  // The values of a return are taken before its deferred statements run.
  lemma {:induction false} ReturnRuns(run: Setting, ctx: Context, scope: Scope, c: Code, e: Expr, m: Mem) returns (n: nat, m': Mem)
    requires CalleesAgree(run.env) && c.Open() && m.thrown == 0 && Fits(ctx, scope)
    requires LowerStmt(ctx, c, Return(e)).Open() && Grew(LowerStmt(ctx, c, Return(e)).blocks, run.g)
    ensures Simulates(run, ctx, c.Here(), LowerStmt(ctx, c, Return(e)).Here(), m, c.slots,
                      Exec(run.env, scope, Return(e), m.world, run.limit), n, m')
    decreases SizeOf(ctx.defers), 9, 0, 0
  {
    var stored := Emit(LowerCalls(ctx, c, e.calls), StoreResult(e.value));
    var left := Terminate(EmitDefers(ctx, stored, 0), Ret(false));
    var end := LowerStmt(ctx, c, Return(e));
    ExprExtends(ctx, c, e.calls, StoreResult(e.value));
    LeaveExtends(ctx, stored, 0, Ret(false));
    GrewTrans(left.blocks, end.blocks, run.g);
    GrewTrans(stored.blocks, end.blocks, run.g);
    var m1, m2;
    n, m1, m2 := ExprRuns(run, ctx, scope, c, e.calls, StoreResult(e.value), m);
    m' := m2;
    var r := EvalCalls(run.env, e.calls, m.world);
    if r.out.Normal? {
      var out := Returned(run.env.value(e.value, r.world));
      var n2, m3 := WayRuns(run, ctx, stored, ToCaller(false), Ret(false), out, m2);
      ReturnedAfter(run, ctx, c.Here(), stored.Here(), end.Here(), m, m2, c.slots, stored.slots, Result(out, r.world), n, n2, m3);
      n, m' := n + n2, m3;
    } else {
      ElsewhereToo(run, ctx, c.Here(), stored.Here(), end.Here(), m, c.slots, Admit(scope, r), n, m');
    }
  }

  // A return further back gives the same result, whatever was in its place before.
  lemma ReturnedAfter(run: Setting, ctx: Context, from: Place, mid: Place, next: Place, m: Mem, m1: Mem, slots: nat, slots1: nat, r: Result,
                      n1: nat, n2: nat, m': Mem)
    requires Run(run.env, run.g, At(from, m), n1) == At(mid, m1) && r.out.Returned?
    requires SameSlots(m, m1, slots) && slots <= slots1
    requires Leaves(run, ToCaller(false), Above(ctx.defers, 0), mid, m1, slots1, r, n2, m')
    ensures Simulates(run, ctx, from, next, m, slots, r, n1 + n2, m')
  {
    RunAdd(run.env, run.g, At(from, m), n1, n2);
    if Lives(run.env, run.g, At(mid, m1), run.limit) {
      LivesBefore(run.env, run.g, At(from, m), n1, run.limit);
    }
  }

  lemma {:induction false} ThrowStmtRuns(run: Setting, ctx: Context, scope: Scope, c: Code, e: Expr, m: Mem) returns (n: nat, m': Mem)
    requires CalleesAgree(run.env) && c.Open() && m.thrown == 0 && Fits(ctx, scope)
    requires LowerStmt(ctx, c, Throw(e)).Open() && Grew(LowerStmt(ctx, c, Throw(e)).blocks, run.g)
    ensures Simulates(run, ctx, c.Here(), LowerStmt(ctx, c, Throw(e)).Here(), m, c.slots,
                      Exec(run.env, scope, Throw(e), m.world, run.limit), n, m')
    decreases SizeOf(ctx.defers), 9, 0, 0
  {
    var evaluated := Emit(LowerCalls(ctx, c, e.calls), EvalError(e.value));
    var end := LowerStmt(ctx, c, Throw(e));
    ExprExtends(ctx, c, e.calls, EvalError(e.value));
    ThrowExtends(ctx, evaluated);
    GrewTrans(evaluated.blocks, end.blocks, run.g);
    var m1, m2;
    n, m1, m2 := ExprRuns(run, ctx, scope, c, e.calls, EvalError(e.value), m);
    m' := m2;
    var r := EvalCalls(run.env, e.calls, m.world);
    if r.out.Normal? {
      var n2, m3 := ThrowRuns(run, ctx, scope, evaluated, m2);
      After(run, ctx, c.Here(), evaluated.Here(), end.Here(), m, m2, c.slots, evaluated.slots, Admit(scope, AfterThrow(m2)), n, n2, m3);
      n, m' := n + n2, m3;
    } else {
      ElsewhereToo(run, ctx, c.Here(), evaluated.Here(), end.Here(), m, c.slots, Admit(scope, r), n, m');
    }
  }

  lemma {:induction false} IfRuns(run: Setting, ctx: Context, scope: Scope, c: Code, s: Stmt, m: Mem) returns (n: nat, m': Mem)
    requires CalleesAgree(run.env) && c.Open() && m.thrown == 0 && Fits(ctx, scope) && s.If?
    requires LowerIf(ctx, c, s).Open() && Grew(LowerIf(ctx, c, s).blocks, run.g)
    ensures Simulates(run, ctx, c.Here(), LowerIf(ctx, c, s).Here(), m, c.slots, Exec(run.env, scope, s, m.world, run.limit), n, m')
    decreases SizeOf(ctx.defers) + SizeAll(s.body) + SizeArms(s.rest) + 1, 13, 0, 0
  {
    ExtendsCreate(c);
    IfExtends(ctx, c, s);
    n, m' := ArmsRun(run, ctx, scope, Create(c), ElseIf(s.cond, s.body, s.rest), |c.blocks|, m);
  }

  lemma {:induction false} ArmsRun(run: Setting, ctx: Context, scope: Scope, c: Code, arms: Arms, done: nat, m: Mem) returns (n: nat, m': Mem)
    requires CalleesAgree(run.env) && c.Open() && m.thrown == 0 && Fits(ctx, scope)
    requires Grew(LowerArms(ctx, c, arms, done).blocks, run.g)
    ensures Simulates(run, ctx, c.Here(), Place(done, 0), m, c.slots, ExecArms(run.env, scope, arms, m.world, run.limit), n, m')
    decreases SizeOf(ctx.defers) + SizeArms(arms), 12, 1, 0
  {
    match arms
    case Else(body) => n, m' := BodyRuns(run, ctx, scope, c, body, done, m);
    case ElseIf(_, _, _) => n, m' := ArmRuns(run, ctx, scope, c, arms, done, m);
  }

  function TestedArm(run: Setting, scope: Scope, arms: Arms, truth: bool, w: World): Result
    requires arms.ElseIf?
  {
    if truth then ExecBlock(run.env, scope, arms.body, w, run.limit) else ExecArms(run.env, scope, arms.rest, w, run.limit)
  }

  // What comes after the test of a way
  lemma {:induction false} TestedArmRuns(run: Setting, ctx: Context, scope: Scope, inBody: Code, next: Code, arms: Arms, truth: bool, done: nat, m: Mem)
    returns (n: nat, m': Mem)
    requires CalleesAgree(run.env) && inBody.Open() && next.Open() && m.thrown == 0 && Fits(ctx, scope) && arms.ElseIf?
    requires Grew(Terminate(LowerBlock(ctx, inBody, arms.body), Jmp(done)).blocks, run.g)
    requires Grew(LowerArms(ctx, next, arms.rest, done).blocks, run.g)
    ensures var way := if truth then inBody else next;
            Simulates(run, ctx, way.Here(), Place(done, 0), m, way.slots, TestedArm(run, scope, arms, truth, m.world), n, m')
    decreases SizeOf(ctx.defers) + SizeArms(arms), 11, 0, 0
  {
    if truth {
      n, m' := BodyRuns(run, ctx, scope, inBody, arms.body, done, m);
    } else {
      n, m' := ArmsRun(run, ctx, scope, next, arms.rest, done, m);
    }
  }

  lemma {:induction false} ArmRuns(run: Setting, ctx: Context, scope: Scope, c: Code, arms: Arms, done: nat, m: Mem) returns (n: nat, m': Mem)
    requires CalleesAgree(run.env) && c.Open() && m.thrown == 0 && Fits(ctx, scope) && arms.ElseIf?
    requires Grew(LowerArms(ctx, c, arms, done).blocks, run.g)
    ensures Simulates(run, ctx, c.Here(), Place(done, 0), m, c.slots, ExecArms(run.env, scope, arms, m.world, run.limit), n, m')
    decreases SizeOf(ctx.defers) + SizeArms(arms), 12, 0, 0
  {
    CreateTwice(c);
    var tested, inBody, lowered, next := ArmParts(ctx, c, arms, done);
    GrewTrans(next.blocks, LowerArms(ctx, c, arms, done).blocks, run.g);
    GrewTrans(lowered.blocks, next.blocks, run.g);
    GrewTrans(tested.blocks, lowered.blocks, run.g);
    n, m' := ConditionRuns(run, ctx, scope, Create(Create(c)), arms.cond, |c.blocks|, |c.blocks| + 1, m);
    var cr := EvalCond(run.env, arms.cond, m.world);
    if cr.result.out.Normal? {
      var m1 := m';
      var way := if cr.truth then inBody else next;
      var n2, m2 := TestedArmRuns(run, ctx, scope, inBody, next, arms, cr.truth, done, m1);
      After(run, ctx, c.Here(), way.Here(), Place(done, 0), m, m1, c.slots, way.slots, TestedArm(run, scope, arms, cr.truth, m1.world), n, n2, m2);
      n, m' := n + n2, m2;
    }
  }

  // ---------------------------------------------------------------------------------------
  // Loops and tries
  // ---------------------------------------------------------------------------------------

  // As Simulates, but a loop that does not end within its rounds only has to run for as many steps.
  ghost predicate InRounds(run: Setting, ctx: Context, from: Place, next: Place, m: Mem, slots: nat, r: Result, rounds: nat, n: nat, m': Mem) {
    if r.out.Timeout? then Lives(run.env, run.g, At(from, m), rounds)
    else Simulates(run, ctx, from, next, m, slots, r, n, m')
  }

  lemma ToRounds(run: Setting, ctx: Context, from: Place, next: Place, m: Mem, slots: nat, r: Result, rounds: nat, n: nat, m': Mem)
    requires Simulates(run, ctx, from, next, m, slots, r, n, m') && rounds <= run.limit
    ensures InRounds(run, ctx, from, next, m, slots, r, rounds, n, m')
  {
    if r.out.Timeout? {
      LivesLess(run.env, run.g, At(from, m), run.limit, rounds);
    }
  }

  // Steps before a loop count for its rounds.
  lemma RoundsAfter(run: Setting, ctx: Context, from: Place, mid: Place, next: Place, m: Mem, m1: Mem, slots: nat, slots1: nat, r: Result,
                    rounds: nat, rounds1: nat, n1: nat, n2: nat, m': Mem)
    requires Run(run.env, run.g, At(from, m), n1) == At(mid, m1)
    requires m1.result == m.result && SameSlots(m, m1, slots) && slots <= slots1 && rounds <= n1 + rounds1
    requires InRounds(run, ctx, mid, next, m1, slots1, r, rounds1, n2, m')
    ensures InRounds(run, ctx, from, next, m, slots, r, rounds, n1 + n2, m')
  {
    if r.out.Timeout? {
      LivesBefore(run.env, run.g, At(from, m), n1, rounds1);
      LivesLess(run.env, run.g, At(from, m), n1 + rounds1, rounds);
    } else {
      After(run, ctx, from, mid, next, m, m1, slots, slots1, r, n1, n2, m');
    }
  }

  lemma FitsInLoop(ctx: Context, scope: Scope, key: int, done: nat, again: nat)
    requires Fits(ctx, scope)
    ensures Fits(PushLoop(ctx, key, done, again), InLoop(scope, key))
  {
    forall k | k in InLoop(scope, key).keys
      ensures FindLoop(PushLoop(ctx, key, done, again).loops, k).Some?
      ensures FindLoop(PushLoop(ctx, key, done, again).loops, k).value.deferCount <= |ctx.defers|
    {
      FindPushed(ctx, key, done, again, k);
    }
  }

  lemma FindPushed(ctx: Context, key: int, done: nat, again: nat, k: int)
    ensures FindLoop(PushLoop(ctx, key, done, again).loops, k) ==
            if k == key then Some(LoopTarget(key, done, again, |ctx.defers|)) else FindLoop(ctx.loops, k)
  {
    var loops := PushLoop(ctx, key, done, again).loops;
    assert loops[..|loops| - 1] == ctx.loops;
  }

  // The body of a loop either comes to the next round, or leaves the loop.
  lemma BodyOfLoop(run: Setting, ctx: Context, key: int, done: nat, again: nat, from: Place, m: Mem, slots: nat, r: Result, n: nat, m': Mem)
    requires Simulates(run, PushLoop(ctx, key, done, again), from, Place(again, 0), m, slots, r, n, m')
    requires r.out.Normal? ==> n > 0
    ensures match AfterRound(r.out, key)
            case GoOn => n > 0 && Run(run.env, run.g, At(from, m), n) == At(Place(again, 0), m') && Settled(m', r.world, Normal, m, slots)
            case Leave(out) => Simulates(run, ctx, from, Place(done, 0), m, slots, Result(out, r.world), n, m')
  {
    if r.out.BreakTo? || r.out.ContinueTo? {
      FindPushed(ctx, key, done, again, r.out.key);
    }
    assert Above(ctx.defers, |ctx.defers|) == [];
  }

  // What is left of a while loop after its test held
  function RestOfWhile(run: Setting, scope: Scope, s: Stmt, w: World, rounds: nat): Result
    requires s.While? && rounds > 0
  {
    var r := ExecBlock(run.env, InLoop(scope, s.key), s.body, w, run.limit);
    match AfterRound(r.out, s.key)
    case GoOn => ExecWhile(run.env, scope, s, r.world, run.limit, rounds - 1)
    case Leave(out) => Result(out, r.world)
  }

  // The blocks of a while loop are in the finished function.
  ghost predicate WhileBlocks(run: Setting, ctx: Context, s: Stmt, base: nat, entered: Code, inBody: Code) {
    && s.While? && entered.Open() && entered.Here() == Place(base, 0)
    && Grew(LowerCondition(ctx, entered, s.cond, base + 1, base + 2).blocks, run.g)
    && inBody.Open() && inBody.Here() == Place(base + 1, 0) && entered.slots <= inBody.slots
    && Grew(Terminate(LowerBlock(PushLoop(ctx, s.key, base + 2, base), inBody, s.body), Jmp(base)).blocks, run.g)
  }

  lemma {:induction false} RestOfWhileRuns(run: Setting, ctx: Context, scope: Scope, s: Stmt, base: nat, entered: Code, inBody: Code, m: Mem, rounds: nat)
    returns (n: nat, m': Mem)
    requires CalleesAgree(run.env) && m.thrown == 0 && Fits(ctx, scope) && 0 < rounds <= run.limit
    requires WhileBlocks(run, ctx, s, base, entered, inBody)
    ensures InRounds(run, ctx, inBody.Here(), Place(base + 2, 0), m, entered.slots, RestOfWhile(run, scope, s, m.world, rounds), rounds, n, m')
    decreases SizeOf(ctx.defers) + SizeAll(s.body), 12, rounds, 1
  {
    var again, done := base, base + 2;
    FitsInLoop(ctx, scope, s.key, done, again);
    var n1, m1 := BodyRuns(run, PushLoop(ctx, s.key, done, again), InLoop(scope, s.key), inBody, s.body, again, m);
    var r := ExecBlock(run.env, InLoop(scope, s.key), s.body, m.world, run.limit);
    BodyOfLoop(run, ctx, s.key, done, again, inBody.Here(), m, inBody.slots, r, n1, m1);
    match AfterRound(r.out, s.key)
    case GoOn =>
      var n2, m2 := WhileRounds(run, ctx, scope, s, base, entered, inBody, m1, rounds - 1);
      RoundsAfter(run, ctx, inBody.Here(), entered.Here(), Place(done, 0), m, m1, entered.slots, entered.slots,
                  ExecWhile(run.env, scope, s, m1.world, run.limit, rounds - 1), rounds, rounds - 1, n1, n2, m2);
      n, m' := n1 + n2, m2;
    case Leave(out) =>
      n, m' := n1, m1;
      FewerSlots(run, ctx, inBody.Here(), Place(done, 0), m, entered.slots, inBody.slots, Result(out, r.world), n, m');
      ToRounds(run, ctx, inBody.Here(), Place(done, 0), m, entered.slots, Result(out, r.world), rounds, n, m');
  }

  lemma FewerSlots(run: Setting, ctx: Context, from: Place, next: Place, m: Mem, slots: nat, slots1: nat, r: Result, n: nat, m': Mem)
    requires Simulates(run, ctx, from, next, m, slots1, r, n, m') && slots <= slots1
    ensures Simulates(run, ctx, from, next, m, slots, r, n, m')
  {
  }

  // A while loop from its test
  lemma {:induction false} WhileRounds(run: Setting, ctx: Context, scope: Scope, s: Stmt, base: nat, entered: Code, inBody: Code, m: Mem, rounds: nat)
    returns (n: nat, m': Mem)
    requires CalleesAgree(run.env) && m.thrown == 0 && Fits(ctx, scope) && rounds <= run.limit
    requires WhileBlocks(run, ctx, s, base, entered, inBody)
    ensures InRounds(run, ctx, entered.Here(), Place(base + 2, 0), m, entered.slots,
                     ExecWhile(run.env, scope, s, m.world, run.limit, rounds), rounds, n, m')
    decreases SizeOf(ctx.defers) + SizeAll(s.body), 12, rounds, 2
  {
    if rounds == 0 {
      return 0, m;
    }
    var n1, m1 := ConditionRuns(run, ctx, scope, entered, s.cond, base + 1, base + 2, m);
    n, m' := n1, m1;
    var cr := EvalCond(run.env, s.cond, m.world);
    if cr.result.out.Normal? && cr.truth {
      var n2, m2 := RestOfWhileRuns(run, ctx, scope, s, base, entered, inBody, m1, rounds);
      RoundsAfter(run, ctx, entered.Here(), inBody.Here(), Place(base + 2, 0), m, m1, entered.slots, entered.slots,
                  RestOfWhile(run, scope, s, m1.world, rounds), rounds, rounds, n1, n2, m2);
      n, m' := n1 + n2, m2;
    } else {
      ToRounds(run, ctx, entered.Here(), Place(base + 2, 0), m, entered.slots, ExecWhile(run.env, scope, s, m.world, run.limit, rounds),
               rounds, n, m');
    }
  }

  lemma {:induction false} WhileHasBlocks(run: Setting, ctx: Context, c: Code, s: Stmt) returns (made: Code, entered: Code, inBody: Code)
    requires c.Open() && s.While? && Grew(LowerWhile(ctx, c, s).blocks, run.g)
    ensures made.Open() && made.Here() == c.Here() && c.slots == entered.slots
    ensures Grew(Terminate(made, Jmp(|c.blocks|)).blocks, run.g)
    ensures WhileBlocks(run, ctx, s, |c.blocks|, entered, inBody)
    ensures LowerWhile(ctx, c, s).Open() && LowerWhile(ctx, c, s).Here() == Place(|c.blocks| + 2, 0)
    decreases SizeOf(ctx.defers) + SizeAll(s.body), 12, 0, 0
  {
    var tested, lowered;
    made, entered, tested, inBody, lowered := WhileParts(ctx, c, s);
    GrewTrans(lowered.blocks, LowerWhile(ctx, c, s).blocks, run.g);
    GrewTrans(tested.blocks, lowered.blocks, run.g);
    GrewTrans(entered.blocks, tested.blocks, run.g);
  }

  lemma {:induction false} WhileRuns(run: Setting, ctx: Context, scope: Scope, c: Code, s: Stmt, m: Mem) returns (n: nat, m': Mem)
    requires CalleesAgree(run.env) && c.Open() && m.thrown == 0 && Fits(ctx, scope) && s.While?
    requires LowerWhile(ctx, c, s).Open() && Grew(LowerWhile(ctx, c, s).blocks, run.g)
    ensures Simulates(run, ctx, c.Here(), LowerWhile(ctx, c, s).Here(), m, c.slots, Exec(run.env, scope, s, m.world, run.limit), n, m')
    decreases SizeOf(ctx.defers) + SizeAll(s.body), 14, 0, 0
  {
    var base := |c.blocks|;
    var made, entered, inBody := WhileHasBlocks(run, ctx, c, s);
    TerminatorRuns(run.env, run.g, made, Jmp(base), m);
    var n2, m2 := WhileRounds(run, ctx, scope, s, base, entered, inBody, m, run.limit);
    RoundsAfter(run, ctx, c.Here(), entered.Here(), Place(base + 2, 0), m, m, c.slots, entered.slots,
                ExecWhile(run.env, scope, s, m.world, run.limit, run.limit), run.limit, run.limit, 1, n2, m2);
    n, m' := 1 + n2, m2;
  }

  lemma {:induction false} ForeverRounds(run: Setting, ctx: Context, scope: Scope, c: Code, s: Stmt, entered: Code, m: Mem, rounds: nat)
    returns (n: nat, m': Mem)
    requires CalleesAgree(run.env) && m.thrown == 0 && Fits(ctx, scope) && s.Forever? && rounds <= run.limit
    requires entered.Open() && entered.Here() == Place(|c.blocks| + 1, 0)
    requires Grew(Terminate(LowerBlock(PushLoop(ctx, s.key, |c.blocks| + 3, |c.blocks| + 1), entered, s.body), Jmp(|c.blocks| + 1)).blocks, run.g)
    ensures InRounds(run, ctx, entered.Here(), Place(|c.blocks| + 3, 0), m, entered.slots,
                     ExecForever(run.env, scope, s, m.world, run.limit, rounds), rounds, n, m')
    decreases SizeOf(ctx.defers) + SizeAll(s.body), 12, rounds, 0
  {
    if rounds == 0 {
      return 0, m;
    }
    var again, done := |c.blocks| + 1, |c.blocks| + 3;
    FitsInLoop(ctx, scope, s.key, done, again);
    var n1, m1 := BodyRuns(run, PushLoop(ctx, s.key, done, again), InLoop(scope, s.key), entered, s.body, again, m);
    var r := ExecBlock(run.env, InLoop(scope, s.key), s.body, m.world, run.limit);
    BodyOfLoop(run, ctx, s.key, done, again, entered.Here(), m, entered.slots, r, n1, m1);
    match AfterRound(r.out, s.key)
    case GoOn =>
      var n2, m2 := ForeverRounds(run, ctx, scope, c, s, entered, m1, rounds - 1);
      RoundsAfter(run, ctx, entered.Here(), entered.Here(), Place(done, 0), m, m1, entered.slots, entered.slots,
                  ExecForever(run.env, scope, s, m1.world, run.limit, rounds - 1), rounds, rounds - 1, n1, n2, m2);
      n, m' := n1 + n2, m2;
    case Leave(out) =>
      n, m' := n1, m1;
      ToRounds(run, ctx, entered.Here(), Place(done, 0), m, entered.slots, Result(out, r.world), rounds, n, m');
  }

  lemma {:induction false} ForeverRuns(run: Setting, ctx: Context, scope: Scope, c: Code, s: Stmt, m: Mem) returns (n: nat, m': Mem)
    requires CalleesAgree(run.env) && c.Open() && m.thrown == 0 && Fits(ctx, scope) && s.Forever?
    requires LowerForever(ctx, c, s).Open() && Grew(LowerForever(ctx, c, s).blocks, run.g)
    ensures Simulates(run, ctx, c.Here(), LowerForever(ctx, c, s).Here(), m, c.slots, Exec(run.env, scope, s, m.world, run.limit), n, m')
    decreases SizeOf(ctx.defers) + SizeAll(s.body), 14, 0, 0
  {
    var made, entered, lowered := ForeverParts(ctx, c, s);
    GrewTrans(lowered.blocks, LowerForever(ctx, c, s).blocks, run.g);
    GrewTrans(entered.blocks, lowered.blocks, run.g);
    TerminatorRuns(run.env, run.g, made, Jmp(|c.blocks| + 1), m);
    var n2, m2 := ForeverRounds(run, ctx, scope, c, s, entered, m, run.limit);
    RoundsAfter(run, ctx, c.Here(), entered.Here(), Place(|c.blocks| + 3, 0), m, m, c.slots, entered.slots,
                ExecForever(run.env, scope, s, m.world, run.limit, run.limit), run.limit, run.limit, 1, n2, m2);
    n, m' := 1 + n2, m2;
  }

  // What is left of a for loop after its test held
  function RestOfFor(run: Setting, scope: Scope, s: Stmt, w: World, rounds: nat): Result
    requires s.For? && rounds > 0
  {
    var r := ExecBlock(run.env, InLoop(scope, s.key), s.body, run.env.act(s.bind, w), run.limit);
    match AfterRound(r.out, s.key)
    case GoOn => ExecFor(run.env, scope, s, run.env.act(s.post, r.world), run.limit, rounds - 1)
    case Leave(out) => Result(out, r.world)
  }

  // The blocks of a for loop are in the finished function.
  ghost predicate ForBlocks(run: Setting, ctx: Context, s: Stmt, base: nat, entered: Code, inBody: Code, inPost: Code) {
    && s.For? && entered.Open() && entered.Here() == Place(base, 0)
    && Grew(Terminate(entered, Br(Test(s.test), base + 1, base + 3)).blocks, run.g)
    && inBody.Open() && inBody.Here() == Place(base + 1, 0) && inBody.slots == entered.slots
    && Grew(Emit(inBody, Act(s.bind)).blocks, run.g)
    && Grew(Terminate(LowerBlock(PushLoop(ctx, s.key, base + 3, base + 2), Emit(inBody, Act(s.bind)), s.body), Jmp(base + 2)).blocks, run.g)
    && inPost.Open() && inPost.Here() == Place(base + 2, 0)
    && Grew(Emit(inPost, Act(s.post)).blocks, run.g) && Grew(Terminate(Emit(inPost, Act(s.post)), Jmp(base)).blocks, run.g)
  }

  // The step of a for loop, and the jump to its test
  lemma PostRuns(run: Setting, inPost: Code, post: int, test: nat, m: Mem)
    requires inPost.Open()
    requires Grew(Emit(inPost, Act(post)).blocks, run.g) && Grew(Terminate(Emit(inPost, Act(post)), Jmp(test)).blocks, run.g)
    ensures Run(run.env, run.g, At(inPost.Here(), m), 2) == At(Place(test, 0), Perform(run.env, Act(post), m))
  {
    EmittedStep(run, inPost, Act(post), m);
    TerminatorRuns(run.env, run.g, Emit(inPost, Act(post)), Jmp(test), Perform(run.env, Act(post), m));
    RunAdd(run.env, run.g, At(inPost.Here(), m), 1, 1);
  }

  // After the body, the step and the next round
  lemma {:induction false} NextRoundOfFor(run: Setting, ctx: Context, scope: Scope, s: Stmt, base: nat, entered: Code, inBody: Code, inPost: Code,
                                          from: Place, m: Mem, rounds: nat, n1: nat, m1: Mem)
    returns (n: nat, m': Mem)
    requires CalleesAgree(run.env) && Fits(ctx, scope) && 0 < rounds <= run.limit
    requires ForBlocks(run, ctx, s, base, entered, inBody, inPost)
    requires Run(run.env, run.g, At(from, m), n1) == At(inPost.Here(), m1) && Settled(m1, m1.world, Normal, m, entered.slots)
    ensures InRounds(run, ctx, from, Place(base + 3, 0), m, entered.slots,
                     ExecFor(run.env, scope, s, run.env.act(s.post, m1.world), run.limit, rounds - 1), rounds, n, m')
    decreases SizeOf(ctx.defers) + SizeAll(s.body), 12, rounds, 0
  {
    var m2 := Perform(run.env, Act(s.post), m1);
    PostRuns(run, inPost, s.post, base, m1);
    RunAdd(run.env, run.g, At(from, m), n1, 2);
    var n3, m3 := ForRounds(run, ctx, scope, s, base, entered, inBody, inPost, m2, rounds - 1);
    RoundsAfter(run, ctx, from, entered.Here(), Place(base + 3, 0), m, m2, entered.slots, entered.slots,
                ExecFor(run.env, scope, s, m2.world, run.limit, rounds - 1), rounds, rounds - 1, n1 + 2, n3, m3);
    n, m' := n1 + 2 + n3, m3;
  }

  lemma {:induction false} RestOfForRuns(run: Setting, ctx: Context, scope: Scope, s: Stmt, base: nat, entered: Code, inBody: Code, inPost: Code,
                                         m: Mem, rounds: nat)
    returns (n: nat, m': Mem)
    requires CalleesAgree(run.env) && m.thrown == 0 && Fits(ctx, scope) && 0 < rounds <= run.limit
    requires ForBlocks(run, ctx, s, base, entered, inBody, inPost)
    ensures InRounds(run, ctx, inBody.Here(), Place(base + 3, 0), m, entered.slots, RestOfFor(run, scope, s, m.world, rounds), rounds, n, m')
    decreases SizeOf(ctx.defers) + SizeAll(s.body), 12, rounds, 1
  {
    var post, done := base + 2, base + 3;
    var bound := Emit(inBody, Act(s.bind));
    EmittedStep(run, inBody, Act(s.bind), m);
    var m0 := Perform(run.env, Act(s.bind), m);
    FitsInLoop(ctx, scope, s.key, done, post);
    var n1, m1 := BodyRuns(run, PushLoop(ctx, s.key, done, post), InLoop(scope, s.key), bound, s.body, post, m0);
    var r := ExecBlock(run.env, InLoop(scope, s.key), s.body, m0.world, run.limit);
    BodyOfLoop(run, ctx, s.key, done, post, bound.Here(), m0, bound.slots, r, n1, m1);
    match AfterRound(r.out, s.key)
    case GoOn =>
      n, m' := NextRoundOfFor(run, ctx, scope, s, base, entered, inBody, inPost, bound.Here(), m0, rounds, n1, m1);
      RoundsAfter(run, ctx, inBody.Here(), bound.Here(), Place(done, 0), m, m0, entered.slots, entered.slots,
                  ExecFor(run.env, scope, s, run.env.act(s.post, r.world), run.limit, rounds - 1), rounds, rounds, 1, n, m');
      n := 1 + n;
    case Leave(out) =>
      ToRounds(run, ctx, bound.Here(), Place(done, 0), m0, entered.slots, Result(out, r.world), rounds, n1, m1);
      RoundsAfter(run, ctx, inBody.Here(), bound.Here(), Place(done, 0), m, m0, entered.slots, entered.slots, Result(out, r.world), rounds, rounds,
                  1, n1, m1);
      n, m' := 1 + n1, m1;
  }

  lemma {:induction false} ForRounds(run: Setting, ctx: Context, scope: Scope, s: Stmt, base: nat, entered: Code, inBody: Code, inPost: Code,
                                     m: Mem, rounds: nat)
    returns (n: nat, m': Mem)
    requires CalleesAgree(run.env) && m.thrown == 0 && Fits(ctx, scope) && rounds <= run.limit
    requires ForBlocks(run, ctx, s, base, entered, inBody, inPost)
    ensures InRounds(run, ctx, entered.Here(), Place(base + 3, 0), m, entered.slots,
                     ExecFor(run.env, scope, s, m.world, run.limit, rounds), rounds, n, m')
    decreases SizeOf(ctx.defers) + SizeAll(s.body), 12, rounds, 2
  {
    if rounds == 0 {
      return 0, m;
    }
    TerminatorRuns(run.env, run.g, entered, Br(Test(s.test), base + 1, base + 3), m);
    n, m' := 1, m;
    if run.env.test(s.test, m.world) {
      var n2, m2 := RestOfForRuns(run, ctx, scope, s, base, entered, inBody, inPost, m, rounds);
      RoundsAfter(run, ctx, entered.Here(), inBody.Here(), Place(base + 3, 0), m, m, entered.slots, entered.slots,
                  RestOfFor(run, scope, s, m.world, rounds), rounds, rounds, 1, n2, m2);
      n, m' := 1 + n2, m2;
    }
  }

  lemma {:induction false} ForHasBlocks(run: Setting, ctx: Context, c: Code, s: Stmt, entered: Code) returns (inBody: Code, inPost: Code)
    requires s.For? && Grew(LowerRounds(ctx, entered, |c.blocks|, s).blocks, run.g)
    requires entered.Open() && entered.Here() == Place(|c.blocks|, 0) && Extends(c, entered)
    requires |c.blocks| + 3 < |entered.blocks| && entered.blocks[|c.blocks| + 1] == Block([], NoTerm)
    requires entered.blocks[|c.blocks| + 2] == entered.blocks[|c.blocks| + 3] == Block([], NoTerm)
    ensures ForBlocks(run, ctx, s, |c.blocks|, entered, inBody, inPost) && Grew(entered.blocks, run.g)
    ensures LowerRounds(ctx, entered, |c.blocks|, s).Open() && LowerRounds(ctx, entered, |c.blocks|, s).Here() == Place(|c.blocks| + 3, 0)
    decreases SizeOf(ctx.defers) + SizeAll(s.body), 12, 0, 0
  {
    var bound, lowered, stepped;
    inBody, bound := ForTestParts(c, entered, s.test, s.bind);
    lowered, inPost, stepped := ForEndParts(ctx, c, s, entered, bound);
    GrewTrans(stepped.blocks, LowerRounds(ctx, entered, |c.blocks|, s).blocks, run.g);
    GrewTrans(inPost.blocks, stepped.blocks, run.g);
    GrewTrans(lowered.blocks, inPost.blocks, run.g);
    GrewTrans(bound.blocks, lowered.blocks, run.g);
    GrewTrans(inBody.blocks, bound.blocks, run.g);
    GrewTrans(entered.blocks, inBody.blocks, run.g);
  }

  // The init of a for loop, up to its test
  lemma {:induction false} EnterForRuns(run: Setting, ctx: Context, scope: Scope, c: Code, init: Expr, next: Place, m: Mem)
    returns (n: nat, m': Mem)
    requires CalleesAgree(run.env) && c.Open() && m.thrown == 0 && Fits(ctx, scope)
    requires Grew(EnterFor(ctx, c, init).blocks, run.g)
    ensures var r := EvalCalls(run.env, init.calls, m.world);
            if r.out.Normal? then
              && Run(run.env, run.g, At(c.Here(), m), n) == At(Place(|c.blocks|, 0), m')
              && Settled(m', run.env.act(init.value, r.world), Normal, m, c.slots)
            else Simulates(run, ctx, c.Here(), next, m, c.slots, Admit(scope, r), n, m')
    decreases SizeOf(ctx.defers), 12, 0, 0
  {
    var made, started, entered := EnterForParts(ctx, c, init);
    GrewTrans(started.blocks, entered.blocks, run.g);
    var m1;
    n, m1, m' := ExprRuns(run, ctx, scope, made, init.calls, Act(init.value), m);
    var r := EvalCalls(run.env, init.calls, m.world);
    if r.out.Normal? {
      TerminatorRuns(run.env, run.g, started, Jmp(|c.blocks|), m');
      RunAdd(run.env, run.g, At(c.Here(), m), n, 1);
      n := n + 1;
    } else {
      ElsewhereToo(run, ctx, c.Here(), started.Here(), next, m, c.slots, Admit(scope, r), n, m');
    }
  }

  lemma {:induction false} ForHasEntry(run: Setting, ctx: Context, c: Code, s: Stmt)
    requires c.Open() && s.For? && Grew(LowerFor(ctx, c, s).blocks, run.g)
    ensures Grew(EnterFor(ctx, c, s.init).blocks, run.g)
    ensures LowerFor(ctx, c, s).Open() && LowerFor(ctx, c, s).Here() == Place(|c.blocks| + 3, 0)
    decreases SizeOf(ctx.defers) + SizeAll(s.body), 13, 0, 0
  {
    var entered := EnterForExtends(ctx, c, s.init);
    var inBody, inPost := ForHasBlocks(run, ctx, c, s, entered);
  }

  lemma {:induction false} ForBlocksOf(run: Setting, ctx: Context, c: Code, s: Stmt) returns (entered: Code, inBody: Code, inPost: Code)
    requires c.Open() && s.For? && Grew(LowerFor(ctx, c, s).blocks, run.g)
    ensures ForBlocks(run, ctx, s, |c.blocks|, entered, inBody, inPost) && c.slots <= entered.slots
    decreases SizeOf(ctx.defers) + SizeAll(s.body), 13, 0, 0
  {
    entered := EnterForExtends(ctx, c, s.init);
    inBody, inPost := ForHasBlocks(run, ctx, c, s, entered);
  }

  // From the test on
  lemma {:induction false} EnteredForRuns(run: Setting, ctx: Context, scope: Scope, c: Code, s: Stmt, m: Mem, n1: nat, m1: Mem)
    returns (n: nat, m': Mem)
    requires CalleesAgree(run.env) && c.Open() && m1.thrown == 0 && Fits(ctx, scope) && s.For?
    requires Grew(LowerFor(ctx, c, s).blocks, run.g)
    requires Run(run.env, run.g, At(c.Here(), m), n1) == At(Place(|c.blocks|, 0), m1) && m1.result == m.result && SameSlots(m, m1, c.slots)
    ensures Simulates(run, ctx, c.Here(), Place(|c.blocks| + 3, 0), m, c.slots, ExecFor(run.env, scope, s, m1.world, run.limit, run.limit), n, m')
    decreases SizeOf(ctx.defers) + SizeAll(s.body), 13, 1, 0
  {
    var entered, inBody, inPost := ForBlocksOf(run, ctx, c, s);
    var n2, m2 := ForRounds(run, ctx, scope, s, |c.blocks|, entered, inBody, inPost, m1, run.limit);
    RoundsAfter(run, ctx, c.Here(), entered.Here(), Place(|c.blocks| + 3, 0), m, m1, c.slots, entered.slots,
                ExecFor(run.env, scope, s, m1.world, run.limit, run.limit), run.limit, run.limit, n1, n2, m2);
    n, m' := n1 + n2, m2;
  }

  lemma {:induction false} ForRuns(run: Setting, ctx: Context, scope: Scope, c: Code, s: Stmt, m: Mem) returns (n: nat, m': Mem)
    requires CalleesAgree(run.env) && c.Open() && m.thrown == 0 && Fits(ctx, scope) && s.For?
    requires LowerFor(ctx, c, s).Open() && Grew(LowerFor(ctx, c, s).blocks, run.g)
    ensures Simulates(run, ctx, c.Here(), LowerFor(ctx, c, s).Here(), m, c.slots, Exec(run.env, scope, s, m.world, run.limit), n, m')
    decreases SizeOf(ctx.defers) + SizeAll(s.body), 14, 0, 0
  {
    ForHasEntry(run, ctx, c, s);
    n, m' := EnterForRuns(run, ctx, scope, c, s.init, Place(|c.blocks| + 3, 0), m);
    if EvalCalls(run.env, s.init.calls, m.world).out.Normal? {
      n, m' := EnteredForRuns(run, ctx, scope, c, s, m, n, m');
    }
  }

  // An error thrown in the body comes to the handler, and no other way out does.
  lemma {:induction false} TryRuns(run: Setting, ctx: Context, scope: Scope, c: Code, s: Stmt, m: Mem) returns (n: nat, m': Mem)
    requires CalleesAgree(run.env) && c.Open() && m.thrown == 0 && Fits(ctx, scope) && s.Try?
    requires LowerTry(ctx, c, s).Open() && Grew(LowerTry(ctx, c, s).blocks, run.g)
    ensures Simulates(run, ctx, c.Here(), LowerTry(ctx, c, s).Here(), m, c.slots, Exec(run.env, scope, s, m.world, run.limit), n, m')
    decreases SizeOf(ctx.defers) + SizeAll(s.body) + SizeAll(s.handler), 14, 0, 0
  {
    var made, inCatch := TryHasBlocks(run, ctx, c, s);
    var catch, done := |c.blocks|, |c.blocks| + 1;
    n, m' := BodyRuns(run, PushTry(ctx, catch), scope.(throws := true), made, s.body, done, m);
    var r := ExecBlock(run.env, scope.(throws := true), s.body, m.world, run.limit);
    BodyOfTry(run, ctx, catch, c.Here(), Place(done, 0), m, c.slots, r, n, m');
    if r.out.Threw? {
      n, m' := CaughtRuns(run, ctx, scope, c.Here(), c.slots, inCatch, s.variable, s.handler, done, m, r, n, m');
    }
  }

  lemma {:induction false} TryHasBlocks(run: Setting, ctx: Context, c: Code, s: Stmt) returns (made: Code, inCatch: Code)
    requires c.Open() && s.Try? && Grew(LowerTry(ctx, c, s).blocks, run.g)
    ensures made.Open() && made.Here() == c.Here() && made.slots == c.slots <= inCatch.slots
    ensures Grew(Terminate(LowerBlock(PushTry(ctx, |c.blocks|), made, s.body), Jmp(|c.blocks| + 1)).blocks, run.g)
    ensures inCatch.Open() && inCatch.Here() == Place(|c.blocks|, 0) && Grew(Emit(inCatch, CatchError(s.variable)).blocks, run.g)
    ensures Grew(Terminate(LowerBlock(ctx, Emit(inCatch, CatchError(s.variable)), s.handler), Jmp(|c.blocks| + 1)).blocks, run.g)
    ensures LowerTry(ctx, c, s).Open() && LowerTry(ctx, c, s).Here() == Place(|c.blocks| + 1, 0)
    decreases SizeOf(ctx.defers) + SizeAll(s.body) + SizeAll(s.handler), 13, 0, 0
  {
    var lowered, caught, handled;
    made, lowered, inCatch, caught, handled := TryParts(ctx, c, s);
    GrewTrans(handled.blocks, LowerTry(ctx, c, s).blocks, run.g);
    GrewTrans(caught.blocks, handled.blocks, run.g);
    GrewTrans(inCatch.blocks, caught.blocks, run.g);
  }

  // The body threw, so the handler runs.
  lemma {:induction false} CaughtRuns(run: Setting, ctx: Context, scope: Scope, from: Place, slots: nat, inCatch: Code, variable: int, handler: Stmts,
                                      done: nat, m: Mem, r: Result, n1: nat, m1: Mem)
    returns (n: nat, m': Mem)
    requires CalleesAgree(run.env) && inCatch.Open() && Fits(ctx, scope) && slots <= inCatch.slots
    requires Grew(Emit(inCatch, CatchError(variable)).blocks, run.g)
    requires Grew(Terminate(LowerBlock(ctx, Emit(inCatch, CatchError(variable)), handler), Jmp(done)).blocks, run.g)
    requires r.out.Threw? && Run(run.env, run.g, At(from, m), n1) == At(inCatch.Here(), m1) && Settled(m1, r.world, r.out, m, slots)
    ensures Simulates(run, ctx, from, Place(done, 0), m, slots,
                      ExecBlock(run.env, scope, handler, run.env.bind(variable, r.out.error, r.world), run.limit), n, m')
    decreases SizeOf(ctx.defers) + SizeAll(handler), 13, 0, 0
  {
    var n2, m2 := HandlerRuns(run, ctx, scope, inCatch, variable, handler, done, m1);
    After(run, ctx, from, inCatch.Here(), Place(done, 0), m, m1, slots, inCatch.slots,
          ExecBlock(run.env, scope, handler, run.env.bind(variable, r.out.error, r.world), run.limit), n1, n2, m2);
    n, m' := n1 + n2, m2;
  }

  // The handler starts with the error in its slot and the thrown error reset.
  lemma {:induction false} HandlerRuns(run: Setting, ctx: Context, scope: Scope, inCatch: Code, variable: int, handler: Stmts, done: nat, m: Mem)
    returns (n: nat, m': Mem)
    requires CalleesAgree(run.env) && inCatch.Open() && Fits(ctx, scope)
    requires Grew(Emit(inCatch, CatchError(variable)).blocks, run.g)
    requires Grew(Terminate(LowerBlock(ctx, Emit(inCatch, CatchError(variable)), handler), Jmp(done)).blocks, run.g)
    ensures Simulates(run, ctx, inCatch.Here(), Place(done, 0), m, inCatch.slots,
                      ExecBlock(run.env, scope, handler, run.env.bind(variable, m.thrown, m.world), run.limit), n, m')
    decreases SizeOf(ctx.defers) + SizeAll(handler), 12, 0, 0
  {
    var caught := Emit(inCatch, CatchError(variable));
    var m1 := Perform(run.env, CatchError(variable), m);
    EmittedStep(run, inCatch, CatchError(variable), m);
    var n2, m2 := BodyRuns(run, ctx, scope, caught, handler, done, m1);
    After(run, ctx, inCatch.Here(), caught.Here(), Place(done, 0), m, m1, inCatch.slots, caught.slots,
          ExecBlock(run.env, scope, handler, m1.world, run.limit), 1, n2, m2);
    n, m' := 1 + n2, m2;
  }

  lemma BodyOfTry(run: Setting, ctx: Context, catch: nat, from: Place, next: Place, m: Mem, slots: nat, r: Result, n: nat, m': Mem)
    requires Simulates(run, PushTry(ctx, catch), from, next, m, slots, r, n, m')
    ensures if r.out.Threw? then
              && Run(run.env, run.g, At(from, m), n) == At(Place(catch, 0), m')
              && Settled(m', r.world, r.out, m, slots)
            else Simulates(run, ctx, from, next, m, slots, r, n, m')
  {
    assert Above(ctx.defers, |ctx.defers|) == [];
  }
}
